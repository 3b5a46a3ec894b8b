/**
  The pieces of st3/StyledPopup.py that run as written: `CSSFactory.generate_new_property`,
  `StackBuilder.generate_css_properties`, `is_valid_node`, `is_base_style` and
  `get_node_classes_from_scope`. Its `get_property_name` has the text of `get_css_name` in
  all/styled_tooltip.py (`TooltipCompiler.GetCssName`), its serializer is
  `StyleSheet.GenerateStyleSheetContent` and its tint is `Color.TintedColor`.

  Every key's value is split on whitespace and each token becomes at most one property; the
  result is the property map of the all/ compiler, token for token.
 */
module LegacyPopup {
  import opened Wrappers
  import opened Text
  import opened Assoc
  import opened StyleSheet
  import TooltipCompiler
  import PopupBuilder
  import PopupStack

  /** `CSSFactory.generate_new_property(key, value)`: the stripped value under the CSS name of
      the key, nothing for a key without one. A blank value of a mapped key calls
      `get_property_default` with two arguments where it takes one: a TypeError. */
  function NewProperty(key: string, value: string): (r: Result<Props, PopupBuilder.BuildError>)
    ensures r.Ok? ==> |r.value| <= 1
    ensures r.Err? <==> (key == "fontStyle" || key == "background" || key == "foreground") && IsBlank(value)
    ensures r.Ok? && r.value != [] ==> r.value[0].1 == Strip(value) && !IsBlank(value)
    ensures (r == Ok([])) <==> key != "fontStyle" && key != "background" && key != "foreground"
  {
    var v := Strip(value);
    match TooltipCompiler.GetCssName(key, v)
    case None => Ok([])
    case Some(name) => if |v| > 0 then Ok([(name, v)]) else Err(PopupBuilder.DefaultArity)
  }

  /** A whitespace-free, non-empty token of a mapped key becomes one property: its CSS name
      and the token itself; merging it is the step of the all/ compiler for that token. */
  lemma TokenProperty(d: Props, key: string, token: string)
    requires token != [] && NoSpace(token)
    ensures NewProperty(key, token).Ok?
    ensures Update(d, NewProperty(key, token).value) == TooltipCompiler.AddToken(d, (key, token))
  {
    PopupBuilder.StripNoSpace(token);
    assert !IsSpace(token[0]);
    var css := TooltipCompiler.GetCssName(key, token);
    if css.Some? {
      TooltipCompiler.PropertyValueCases(css.value, token);
    }
  }

  /** The inner loop of `generate_css_properties`: the tokens of one value, merged one
      after the other. */
  method UpdateTokens(properties0: Props, key: string, tokens: seq<string>) returns (properties: Props)
    requires forall i :: 0 <= i < |tokens| ==> tokens[i] != [] && NoSpace(tokens[i])
    ensures properties == TooltipCompiler.PairsProps(properties0, TooltipCompiler.KeyTokens(key, tokens))
  {
    properties := properties0;
    for k := 0 to |tokens|
      invariant TooltipCompiler.PairsProps(properties, TooltipCompiler.KeyTokens(key, tokens[k..]))
        == TooltipCompiler.PairsProps(properties0, TooltipCompiler.KeyTokens(key, tokens))
    {
      ghost var x, after := (key, tokens[k]), TooltipCompiler.KeyTokens(key, tokens[k + 1..]);
      assert TooltipCompiler.KeyTokens(key, tokens[k..]) == [x] + after by {
        assert tokens[k..][0] == tokens[k] && tokens[k..][1..] == tokens[k + 1..];
      }
      assert ([x] + after)[0] == x && ([x] + after)[1..] == after;
      TokenProperty(properties, key, tokens[k]);
      var newProperty := NewProperty(key, tokens[k]);
      properties := Update(properties, newProperty.value);
    }
    assert tokens[|tokens|..] == [];
  }

  /** `StackBuilder.generate_css_properties(styles)`: `properties.update` with the new
      property of every token of every value. No token of `split()` is blank, so the
      TypeError of `generate_new_property` never arises here, and the map is the one the
      all/ compiler builds from the same settings. */
  method GenerateCssProperties(styles: Dict<string>) returns (properties: Props)
    ensures properties == TooltipCompiler.NodeProps(styles)
  {
    properties := [];
    for j := 0 to |styles|
      invariant TooltipCompiler.PairsProps(properties, TooltipCompiler.Flatten(styles[j..]))
        == TooltipCompiler.NodeProps(styles)
    {
      var key := styles[j].0;
      var tokens := Words(styles[j].1);
      assert styles[j..][0] == styles[j] && styles[j..][1..] == styles[j + 1..];
      assert TooltipCompiler.Flatten(styles[j..])
          == TooltipCompiler.KeyTokens(key, tokens) + TooltipCompiler.Flatten(styles[j + 1..]);
      TooltipCompiler.PairsPropsConcat(properties, TooltipCompiler.KeyTokens(key, tokens),
                                       TooltipCompiler.Flatten(styles[j + 1..]));
      WordsShape(styles[j].1);
      properties := UpdateTokens(properties, key, tokens);
    }
    assert styles[|styles|..] == [];
  }

  /** `is_valid_node`: the node has settings and they are not empty. */
  predicate IsValidNode(node: TooltipCompiler.SchemeNode) {
    node.settings.Some? && |node.settings.value| > 0
  }

  /** `is_base_style`: the node has no scope. */
  predicate IsBaseStyle(node: TooltipCompiler.SchemeNode) {
    node.scope.None?
  }

  /** A node that is not valid has nothing to contribute: it has no settings, or its
      properties are empty; a valid node with none of the three mapped keys yields no
      property either. */
  lemma {:induction false} InvalidNodeHasNoProperties(node: TooltipCompiler.SchemeNode)
    ensures !IsValidNode(node) ==> node.settings.None? || TooltipCompiler.NodeProps(node.settings.value) == []
    ensures IsValidNode(node)
      && (forall j :: 0 <= j < |node.settings.value| ==>
            node.settings.value[j].0 != "fontStyle" && node.settings.value[j].0 != "background"
            && node.settings.value[j].0 != "foreground")
      ==> TooltipCompiler.NodeProps(node.settings.value) == []
  {
    if IsValidNode(node) {
      var settings := node.settings.value;
      var pairs := TooltipCompiler.Flatten(settings);
      TooltipCompiler.NodePropsEmpty(settings);
      forall i | 0 <= i < |pairs|
        ensures (forall j :: 0 <= j < |settings| ==>
                   settings[j].0 != "fontStyle" && settings[j].0 != "background" && settings[j].0 != "foreground")
          ==> TooltipCompiler.GetCssName(pairs[i].0, pairs[i].1).None?
      {
        assert pairs[i] in pairs;
        TooltipCompiler.FlattenMembers(settings, pairs[i].0, pairs[i].1);
      }
    }
  }

  /** `get_node_classes_from_scope`: `"." + scope.lower()` split on commas. Only the first
      piece gets the dot; the others are neither prefixed nor stripped. */
  function GetNodeClassesFromScope(scope: string): (r: seq<string>)
    ensures |r| == Count(scope, ',') + 1
    ensures r[0] != [] && r[0][0] == '.'
    ensures Join(r, ',') == "." + Lower(scope)
  {
    var s := "." + Lower(scope);
    TooltipCompiler.CountLower(scope, ',');
    assert s[1..] == Lower(scope);
    SplitOnJoin(s, ',');
    SplitOn(s, ',')
  }

  /** Only the first piece is touched: it gets the dot, and every later piece is the comma
      piece of the lower-cased scope as it stands, neither prefixed nor stripped. */
  lemma PiecesNotNormalised(scope: string)
    ensures var pieces := SplitOn(Lower(scope), ',');
      GetNodeClassesFromScope(scope) == ["." + pieces[0]] + pieces[1..]
  {
    var s := "." + Lower(scope);
    assert s[0] == '.' && s[1..] == Lower(scope);
  }

  /** An illustration: `"a, b"` gives `.a` and ` b`, the space kept. */
  lemma PiecesExample()
    ensures GetNodeClassesFromScope("a, b") == [".a", " b"]
  {
    assert Lower("a, b") == "a, b";
    assert "a, b" == "a" + [','] + " b";
    PiecesNotNormalised("a, b");
    SplitOnFirst("a", " b", ',');
    SplitOnAbsent(" b", ',');
    var pieces := SplitOn("a, b", ',');
    assert pieces == ["a", " b"];
    assert "." + pieces[0] == ".a" && pieces[1..] == [" b"];
  }

  /** Where `build_stack` stops: `apply_properties_to_classes` calls `set_scope_style`, which
      `StackBuilder` does not define, so the first class of a scoped node raises an
      AttributeError. */
  datatype StackError = NoSetScopeStyle

  /** One node of `build_stack`: an invalid node, or one without properties, is skipped; a
      node without a scope is the base style, stored under `html`; any other node applies its
      properties to its classes. */
  function StackStep(t: Table, node: TooltipCompiler.SchemeNode): Result<Table, StackError> {
    if !IsValidNode(node) then Ok(t)
    else
      var props := TooltipCompiler.NodeProps(node.settings.value);
      if |props| == 0 then Ok(t)
      else if IsBaseStyle(node) then Ok(Put(t, "html", props))
      else if |GetNodeClassesFromScope(node.scope.value)| == 0 then Ok(t)
      else Err(NoSetScopeStyle)
  }

  /** The loop of `build_stack` from stack `t`. */
  function BuildFrom(t: Table, nodes: seq<TooltipCompiler.SchemeNode>): Result<Table, StackError>
    decreases |nodes|
  {
    if nodes == [] then Ok(t)
    else match StackStep(t, nodes[0])
      case Err(e) => Err(e)
      case Ok(t') => BuildFrom(t', nodes[1..])
  }

  /** `build_stack(root)`, from the stack `clear_stack` leaves. */
  function Build(nodes: seq<TooltipCompiler.SchemeNode>): Result<Table, StackError> {
    BuildFrom([], nodes)
  }

  /** The node has properties to store. */
  predicate HasProperties(node: TooltipCompiler.SchemeNode) {
    IsValidNode(node) && |TooltipCompiler.NodeProps(node.settings.value)| > 0
  }

  /** Which nodes store the base style. */
  function BaseMask(nodes: seq<TooltipCompiler.SchemeNode>): (m: seq<bool>)
    ensures |m| == |nodes|
    ensures forall i :: 0 <= i < |nodes| ==> m[i] == (HasProperties(nodes[i]) && IsBaseStyle(nodes[i]))
  {
    seq(|nodes|, i requires 0 <= i < |nodes| => HasProperties(nodes[i]) && IsBaseStyle(nodes[i]))
  }

  /** Position of the last node storing the base style, or -1. */
  function LastBase(nodes: seq<TooltipCompiler.SchemeNode>): (r: int)
    ensures -1 <= r < |nodes|
    ensures r >= 0 ==> HasProperties(nodes[r]) && IsBaseStyle(nodes[r])
    ensures forall j :: r < j < |nodes| ==> !(HasProperties(nodes[j]) && IsBaseStyle(nodes[j]))
  {
    var m := BaseMask(nodes);
    var r := PopupStack.LastTrue(m);
    assert forall j :: r < j < |nodes| ==> !m[j];
    r
  }

  /** The last base node is the last one among the later nodes, or else the first. */
  lemma LastBaseCons(nodes: seq<TooltipCompiler.SchemeNode>)
    requires nodes != []
    ensures var r := LastBase(nodes[1..]);
      LastBase(nodes) == if r >= 0 then r + 1
        else if HasProperties(nodes[0]) && IsBaseStyle(nodes[0]) then 0 else -1
  {
    var m := BaseMask(nodes);
    assert BaseMask(nodes[1..]) == m[1..];
    PopupStack.LastTrueCons(m);
  }

  /** `build_stack` raises exactly when some node with properties has a scope. */
  lemma {:induction false} BuildFromErr(t: Table, nodes: seq<TooltipCompiler.SchemeNode>)
    ensures BuildFrom(t, nodes).Err?
      <==> exists i :: 0 <= i < |nodes| && HasProperties(nodes[i]) && !IsBaseStyle(nodes[i])
    decreases |nodes|
  {
    if nodes != [] {
      var node := nodes[0];
      if HasProperties(node) && !IsBaseStyle(node) {
        assert StackStep(t, node).Err?;
      } else {
        var t' := StackStep(t, node).value;
        BuildFromErr(t', nodes[1..]);
        if exists i :: 0 <= i < |nodes| && HasProperties(nodes[i]) && !IsBaseStyle(nodes[i]) {
          var i :| 0 <= i < |nodes| && HasProperties(nodes[i]) && !IsBaseStyle(nodes[i]);
          assert nodes[1..][i - 1] == nodes[i];
        }
        if exists i :: 0 <= i < |nodes[1..]| && HasProperties(nodes[1..][i]) && !IsBaseStyle(nodes[1..][i]) {
          var i :| 0 <= i < |nodes[1..]| && HasProperties(nodes[1..][i]) && !IsBaseStyle(nodes[1..][i]);
          assert nodes[i + 1] == nodes[1..][i];
        }
      }
    }
  }

  /** A run of `build_stack` that does not raise sets only `html`: to the properties of the
      last node without a scope that has any, and leaves it alone when there is none. */
  lemma {:induction false} BuildFromGet(t: Table, nodes: seq<TooltipCompiler.SchemeNode>, k: string)
    requires BuildFrom(t, nodes).Ok?
    ensures var i := LastBase(nodes);
      Get(BuildFrom(t, nodes).value, k)
        == if k == "html" && i >= 0 then Some(TooltipCompiler.NodeProps(nodes[i].settings.value)) else Get(t, k)
    decreases |nodes|
  {
    if nodes != [] {
      var step := StackStep(t, nodes[0]);
      assert step.Ok?;
      var t' := step.value;
      assert Get(t', k) == if k == "html" && HasProperties(nodes[0]) && IsBaseStyle(nodes[0])
        then Some(TooltipCompiler.NodeProps(nodes[0].settings.value)) else Get(t, k);
      BuildFromGet(t', nodes[1..], k);
      LastBaseCons(nodes);
      var r := LastBase(nodes[1..]);
      if r >= 0 {
        assert nodes[1..][r] == nodes[r + 1];
      }
    }
  }

  /** `build_stack(root)`: it fails exactly when a node with properties has a scope, and
      otherwise the stack is at most the base style of the last node without a scope. */
  lemma BuildCases(nodes: seq<TooltipCompiler.SchemeNode>, k: string)
    ensures Build(nodes).Err? <==> exists i :: 0 <= i < |nodes| && HasProperties(nodes[i]) && !IsBaseStyle(nodes[i])
    ensures Build(nodes).Ok? ==> var i := LastBase(nodes);
      Get(Build(nodes).value, k)
        == if k == "html" && i >= 0 then Some(TooltipCompiler.NodeProps(nodes[i].settings.value)) else None
  {
    BuildFromErr([], nodes);
    if Build(nodes).Ok? {
      BuildFromGet([], nodes, k);
    }
  }
}
