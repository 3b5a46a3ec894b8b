/**
  `SchemeParser.parse_plist` and `CSSHelper` of all/styled_tooltip.py, whose text
  all/StyledPopup.py repeats: the compiler from the decoded `settings` array of a colour
  scheme to the rule table.

  Each node is a scheme entry: an optional `scope` and its `settings` dictionary. Every
  setting value is split on whitespace; each token is translated by `GetCssName` and stored
  in the node's property map, a later token overwriting an earlier one with the same CSS
  name. Nodes with no settings or no translatable token add nothing. The node without a
  scope is the base rule, stored under `html` with a tinted background. A scoped node is
  stored under every selector of its comma-separated scope, each one overwritten whole.

  `Compile` is the specification, a fold of `Step` over the nodes; `ParsePlist` is the
  loop as written and is proved equal to it.
 */
module TooltipCompiler {
  import opened Wrappers
  import opened Text
  import opened Assoc
  import opened StyleSheet
  import Color

  /** A decoded scheme entry: `node.get("scope")` and `node.get("settings")`. */
  datatype SchemeNode = SchemeNode(scope: Option<string>, settings: Option<Dict<string>>)

  /** The exceptions `parse_plist` can raise. */
  datatype CompileError =
    | MissingSettings    // `node["settings"]` of a node without settings: KeyError
    | MissingBackground  // the base rule has no `background-color`: KeyError
    | MalformedColor     // `hex_to_rgb` of the background raises ValueError

  /** `CSSHelper.get_css_name` */
  function GetCssName(name: string, value: string): Option<string> {
    if name == "fontStyle" then
      if value == "bold" then Some("font-weight")
      else if value == "underline" then Some("text-decoration")
      else Some("font-style")
    else if name == "background" then Some("background-color")
    else if name == "foreground" then Some("color")
    else None
  }

  /** `CSSHelper.CSS_DEFAULT_VALUES.get(prop)` */
  function DefaultValue(prop: string): Option<string> {
    if prop == "font-style" || prop == "font-weight" then Some("normal")
    else if prop == "text-decoration" then Some("none")
    else None
  }

  /** `CSSHelper.get_property_value`; None is Python's `None`. */
  function GetPropertyValue(prop: string, value: string): Option<string> {
    if Strip(value) != [] then Some(value) else DefaultValue(prop)
  }

  /** The body of the innermost loop: `tmp_dict[css] = get_property_value(css, value)` for a
      token that has a CSS name. A `None` value would be written out by `%s` as `None`;
      tokens of `split()` are never blank, so that case never arises (`TokenValueVerbatim`). */
  function AddToken(d: Props, setting: (string, string)): Props {
    match GetCssName(setting.0, setting.1)
    case None => d
    case Some(css) =>
      match GetPropertyValue(css, setting.1)
      case Some(v) => Put(d, css, v)
      case None => Put(d, css, "None")
  }

  /** `AddToken` for each (key, token) pair in order. */
  function PairsProps(d: Props, pairs: seq<(string, string)>): Props
    decreases |pairs|
  {
    if pairs == [] then d else PairsProps(AddToken(d, pairs[0]), pairs[1..])
  }

  /** The (key, token) pairs of one setting. */
  function KeyTokens(key: string, tokens: seq<string>): (r: seq<(string, string)>)
    ensures |r| == |tokens|
    ensures forall i :: 0 <= i < |r| ==> r[i] == (key, tokens[i])
  {
    if tokens == [] then [] else [(key, tokens[0])] + KeyTokens(key, tokens[1..])
  }

  /** The (key, token) pairs of all settings, in the order the loops visit them. */
  function Flatten(settings: Dict<string>): seq<(string, string)> {
    if settings == [] then [] else KeyTokens(settings[0].0, Words(settings[0].1)) + Flatten(settings[1..])
  }

  /** `tmp_dict` after the two loops over a node's settings and their tokens. */
  function NodeProps(settings: Dict<string>): Props {
    PairsProps([], Flatten(settings))
  }

  /** `"." + piece.strip()` unless the piece already starts with a dot, then spaces become
      underscores. */
  function NormalizeSelector(piece: string): string {
    ReplaceAll(if StartsWith(piece, ".") then piece else "." + Strip(piece), " ", "_")
  }

  /** The selectors of a scope: the comma-separated pieces of `"." + scope.lower()`. */
  function Selectors(scope: string): seq<string> {
    var pieces := SplitOn("." + Lower(scope), ',');
    seq(|pieces|, i requires 0 <= i < |pieces| => NormalizeSelector(pieces[i]))
  }

  /** `css_stack[sel] = props` for each selector in order. */
  function PutAll(t: Table, sels: seq<string>, props: Props): Table
    decreases |sels|
  {
    if sels == [] then t else PutAll(Put(t, sels[0], props), sels[1..], props)
  }

  /** One iteration of the loop over the nodes. */
  function Step(t: Table, node: SchemeNode): Result<Table, CompileError> {
    if node.settings.None? then Err(MissingSettings)
    else if |node.settings.value| == 0 then Ok(t)
    else
      var props := NodeProps(node.settings.value);
      if |props| == 0 then Ok(t)
      else if node.scope.None? then
        match Get(props, "background-color")
        case None => Err(MissingBackground)
        case Some(bg) =>
          match Color.TintedColor(bg, 10)
          case None => Err(MalformedColor)
          case Some(c) => Ok(Put(t, "html", Put(props, "background-color", c)))
      else Ok(PutAll(t, Selectors(node.scope.value), props))
  }

  /** The loop over the nodes from table `t`; the first exception ends it. */
  function Run(t: Table, nodes: seq<SchemeNode>): Result<Table, CompileError>
    decreases |nodes|
  {
    if nodes == [] then Ok(t)
    else match Step(t, nodes[0])
      case Err(e) => Err(e)
      case Ok(t') => Run(t', nodes[1..])
  }

  /** `parse_plist(root)` */
  function Compile(root: seq<SchemeNode>): Result<Table, CompileError> {
    Run([], root)
  }

  lemma PutAllDistinct(t: Table, sels: seq<string>, props: Props)
    requires DistinctKeys(t)
    ensures DistinctKeys(PutAll(t, sels, props))
    decreases |sels|
  {
    if sels != [] {
      PutAllDistinct(Put(t, sels[0], props), sels[1..], props);
    }
  }

  lemma StepDistinct(t: Table, node: SchemeNode)
    requires DistinctKeys(t)
    ensures Step(t, node).Ok? ==> DistinctKeys(Step(t, node).value)
  {
    if node.settings.Some? && node.scope.Some? {
      PutAllDistinct(t, Selectors(node.scope.value), NodeProps(node.settings.value));
    }
  }

  // ---------------------------------------------------------------------------------------
  // The loops as written.

  lemma {:induction false} PairsPropsConcat(d: Props, a: seq<(string, string)>, b: seq<(string, string)>)
    ensures PairsProps(d, a + b) == PairsProps(PairsProps(d, a), b)
    decreases |a|
  {
    if a == [] {
      assert a + b == b;
    } else {
      assert (a + b)[0] == a[0] && (a + b)[1..] == a[1..] + b;
      PairsPropsConcat(AddToken(d, a[0]), a[1..], b);
    }
  }

  /** The inner loop of `parse_plist`: the tokens of one setting value. */
  method AddSettingTokens(tmp0: Props, key: string, tokens: seq<string>) returns (tmp: Props)
    ensures tmp == PairsProps(tmp0, KeyTokens(key, tokens))
  {
    tmp := tmp0;
    for k := 0 to |tokens|
      invariant PairsProps(tmp, KeyTokens(key, tokens[k..])) == PairsProps(tmp0, KeyTokens(key, tokens))
    {
      ghost var x, rest := (key, tokens[k]), KeyTokens(key, tokens[k + 1..]);
      assert KeyTokens(key, tokens[k..]) == [x] + rest by {
        assert tokens[k..][0] == tokens[k] && tokens[k..][1..] == tokens[k + 1..];
      }
      assert PairsProps(tmp, [x] + rest) == PairsProps(AddToken(tmp, x), rest) by {
        assert ([x] + rest)[0] == x && ([x] + rest)[1..] == rest;
      }
      ghost var after := AddToken(tmp, x);
      var css := GetCssName(key, tokens[k]);
      if css.Some? {
        var v := GetPropertyValue(css.value, tokens[k]);
        tmp := Put(tmp, css.value, if v.Some? then v.value else "None");
      }
      assert tmp == after;
    }
    assert tokens[|tokens|..] == [];
  }

  /** The loops over a node's settings and over the tokens of each value, filling
      `tmp_dict`. */
  method NodeProperties(settings: Dict<string>) returns (tmp: Props)
    ensures tmp == NodeProps(settings)
  {
    tmp := [];
    for j := 0 to |settings|
      invariant PairsProps(tmp, Flatten(settings[j..])) == NodeProps(settings)
    {
      var key := settings[j].0;
      var tokens := Words(settings[j].1);
      assert settings[j..][0] == settings[j] && settings[j..][1..] == settings[j + 1..];
      assert Flatten(settings[j..]) == KeyTokens(key, tokens) + Flatten(settings[j + 1..]);
      PairsPropsConcat(tmp, KeyTokens(key, tokens), Flatten(settings[j + 1..]));
      tmp := AddSettingTokens(tmp, key, tokens);
    }
    assert settings[|settings|..] == [];
  }

  /** The loop over the pieces of a scope: each piece is normalised in place in the list
      `scopes` and the property map is stored under it. */
  method ApplyScopes(t: Table, scope: string, props: Props) returns (table: Table)
    ensures table == PutAll(t, Selectors(scope), props)
  {
    var scopes := SplitOn("." + Lower(scope), ',');
    ghost var pieces := scopes;
    ghost var sels := Selectors(scope);
    table := t;
    for i := 0 to |scopes|
      invariant |scopes| == |pieces| == |sels|
      invariant forall j :: i <= j < |scopes| ==> scopes[j] == pieces[j]
      invariant PutAll(table, sels[i..], props) == PutAll(t, sels, props)
    {
      if !StartsWith(scopes[i], ".") {
        scopes := scopes[i := "." + Strip(scopes[i])];
      }
      scopes := scopes[i := ReplaceAll(scopes[i], " ", "_")];
      assert scopes[i] == NormalizeSelector(pieces[i]) == sels[i];
      assert sels[i..][0] == sels[i] && sels[i..][1..] == sels[i + 1..];
      table := Put(table, scopes[i], props);
    }
    assert sels[|sels|..] == [];
  }

  /** `parse_plist(root)` as written: the loop over the nodes. */
  method ParsePlist(root: seq<SchemeNode>) returns (r: Result<Table, CompileError>)
    ensures r == Compile(root)
  {
    var cssStack: Table := [];
    for i := 0 to |root|
      invariant Run(cssStack, root[i..]) == Compile(root)
    {
      assert root[i..][0] == root[i] && root[i..][1..] == root[i + 1..];
      var node := root[i];
      if node.settings.None? {
        return Err(MissingSettings);
      }
      var settings := node.settings.value;
      if |settings| == 0 {
        continue;
      }
      var tmp := NodeProperties(settings);
      if |tmp| == 0 {
        continue;
      }
      if node.scope.None? {
        var bg := Get(tmp, "background-color");
        if bg.None? {
          return Err(MissingBackground);
        }
        var tinted := Color.TintedColor(bg.value, 10);
        if tinted.None? {
          return Err(MalformedColor);
        }
        tmp := Put(tmp, "background-color", tinted.value);
        cssStack := Put(cssStack, "html", tmp);
      } else {
        cssStack := ApplyScopes(cssStack, node.scope.value, tmp);
      }
    }
    assert root[|root|..] == [];
    return Ok(cssStack);
  }

  // ---------------------------------------------------------------------------------------
  // Properties.

  /** Only `fontStyle`, `background` and `foreground` translate; every name `fontStyle` can
      produce has a default value, and the colour properties have none. */
  lemma CssNameCases(name: string, value: string)
    ensures GetCssName(name, value).Some?
      <==> name == "fontStyle" || name == "background" || name == "foreground"
    ensures name == "fontStyle" ==> DefaultValue(GetCssName(name, value).value).Some?
    ensures name == "background" || name == "foreground"
      ==> DefaultValue(GetCssName(name, value).value).None?
    ensures GetCssName(name, value) == Some("font-weight") <==> name == "fontStyle" && value == "bold"
    ensures GetCssName(name, value) == Some("text-decoration")
      <==> name == "fontStyle" && value == "underline"
    ensures GetCssName(name, value) == Some("background-color") <==> name == "background"
    ensures GetCssName(name, value) == Some("color") <==> name == "foreground"
  {
  }

  /** A non-blank value comes back unchanged; a blank one gives the default of the property,
      which only the three font properties have. */
  lemma PropertyValueCases(prop: string, value: string)
    ensures !IsBlank(value) ==> GetPropertyValue(prop, value) == Some(value)
    ensures IsBlank(value) && (prop == "font-style" || prop == "font-weight")
      ==> GetPropertyValue(prop, value) == Some("normal")
    ensures IsBlank(value) && prop == "text-decoration" ==> GetPropertyValue(prop, value) == Some("none")
    ensures IsBlank(value) && prop != "font-style" && prop != "font-weight" && prop != "text-decoration"
      ==> GetPropertyValue(prop, value) == None
  {
  }

  /** Every token of a setting value is stored verbatim: the default branch of
      `get_property_value` is never taken from `parse_plist`. */
  lemma TokenValueVerbatim(prop: string, value: string, i: nat)
    requires i < |Words(value)|
    ensures GetPropertyValue(prop, Words(value)[i]) == Some(Words(value)[i])
  {
    WordsShape(value);
    var w := Words(value)[i];
    assert !IsSpace(w[0]);
  }

  /** Every (key, token) pair of the settings carries a non-blank token. */
  predicate TokensNonBlank(pairs: seq<(string, string)>) {
    forall i :: 0 <= i < |pairs| ==> !IsBlank(pairs[i].1)
  }

  lemma {:induction false} FlattenNonBlank(settings: Dict<string>)
    ensures TokensNonBlank(Flatten(settings))
  {
    if settings != [] {
      var ws := Words(settings[0].1);
      WordsShape(settings[0].1);
      assert TokensNonBlank(KeyTokens(settings[0].0, ws)) by {
        forall i | 0 <= i < |ws| ensures !IsBlank(ws[i]) {
          assert !IsSpace(ws[i][0]);
        }
      }
      FlattenNonBlank(settings[1..]);
    }
  }

  /** Position of the last pair whose token translates to `p`, or -1 when none does: the
      reference for which token a property map ends up holding. */
  function LastIndex(pairs: seq<(string, string)>, p: string): (r: int)
    ensures -1 <= r < |pairs|
    ensures r >= 0 ==> GetCssName(pairs[r].0, pairs[r].1) == Some(p)
    ensures forall j :: r < j < |pairs| ==> GetCssName(pairs[j].0, pairs[j].1) != Some(p)
  {
    if pairs == [] then -1
    else if GetCssName(pairs[|pairs| - 1].0, pairs[|pairs| - 1].1) == Some(p) then |pairs| - 1
    else LastIndex(pairs[..|pairs| - 1], p)
  }

  /** After the fold, a property holds the token of the last pair that translates to it,
      and a property no pair translates to keeps its value from before. */
  lemma {:induction false} PairsPropsGet(d: Props, pairs: seq<(string, string)>, p: string)
    requires TokensNonBlank(pairs)
    ensures var i := LastIndex(pairs, p);
      Get(PairsProps(d, pairs), p) == if i < 0 then Get(d, p) else Some(pairs[i].1)
    decreases |pairs|
  {
    if pairs != [] {
      var x, rest := pairs[0], pairs[1..];
      assert TokensNonBlank(rest) by {
        forall i | 0 <= i < |rest| ensures !IsBlank(rest[i].1) {
          assert rest[i] == pairs[i + 1];
        }
      }
      PairsPropsGet(AddToken(d, x), rest, p);
      var i, k := LastIndex(pairs, p), LastIndex(rest, p);
      if k >= 0 {
        assert pairs[k + 1] == rest[k];
        assert i == k + 1;
      } else {
        forall j | 1 <= j < |pairs| ensures GetCssName(pairs[j].0, pairs[j].1) != Some(p) {
          assert pairs[j] == rest[j - 1];
        }
        if GetCssName(x.0, x.1) == Some(p) {
          assert i == 0;
          assert !IsBlank(x.1);
        } else {
          assert i == -1;
        }
      }
    }
  }

  /** Last token wins: a property of the node holds the token of the last (key, token) pair
      that translates to it, and it is absent when none does. */
  lemma NodePropsGet(settings: Dict<string>, p: string)
    ensures var pairs := Flatten(settings);
      var i := LastIndex(pairs, p);
      Get(NodeProps(settings), p) == if i < 0 then None else Some(pairs[i].1)
  {
    FlattenNonBlank(settings);
    PairsPropsGet([], Flatten(settings), p);
  }

  /** A node adds a property map exactly when one of its (key, token) pairs translates. */
  lemma NodePropsEmpty(settings: Dict<string>)
    ensures var pairs := Flatten(settings);
      (|NodeProps(settings)| == 0)
        <==> (forall i :: 0 <= i < |pairs| ==> GetCssName(pairs[i].0, pairs[i].1).None?)
  {
    var pairs := Flatten(settings);
    var props := NodeProps(settings);
    if |props| > 0 {
      var p := props[0].0;
      assert HasKey(props, p);
      NodePropsGet(settings, p);
      var i := LastIndex(pairs, p);
      assert GetCssName(pairs[i].0, pairs[i].1).Some?;
    }
    if exists i :: 0 <= i < |pairs| && GetCssName(pairs[i].0, pairs[i].1).Some? {
      var i :| 0 <= i < |pairs| && GetCssName(pairs[i].0, pairs[i].1).Some?;
      var p := GetCssName(pairs[i].0, pairs[i].1).value;
      NodePropsGet(settings, p);
      assert Get(props, p).Some?;
    }
  }

  /** The pairs visited are exactly the tokens of each setting, tagged with its key. */
  lemma {:induction false} FlattenMembers(settings: Dict<string>, key: string, token: string)
    ensures (key, token) in Flatten(settings)
      <==> exists j :: 0 <= j < |settings| && settings[j].0 == key && token in Words(settings[j].1)
  {
    if settings != [] {
      var head := KeyTokens(settings[0].0, Words(settings[0].1));
      FlattenMembers(settings[1..], key, token);
      assert Flatten(settings) == head + Flatten(settings[1..]);
      assert (key, token) in head <==> settings[0].0 == key && token in Words(settings[0].1) by {
        if (key, token) in head {
          var i :| 0 <= i < |head| && head[i] == (key, token);
          assert Words(settings[0].1)[i] == token;
        }
        if settings[0].0 == key && token in Words(settings[0].1) {
          var i :| 0 <= i < |Words(settings[0].1)| && Words(settings[0].1)[i] == token;
          assert head[i] == (key, token);
        }
      }
      if exists j :: 0 <= j < |settings| && settings[j].0 == key && token in Words(settings[j].1) {
        var j :| 0 <= j < |settings| && settings[j].0 == key && token in Words(settings[j].1);
        if j > 0 {
          assert settings[1..][j - 1] == settings[j];
        }
      }
      if exists j :: (0 <= j < |settings[1..]| && settings[1..][j].0 == key
                      && token in Words(settings[1..][j].1))
      {
        var j :| 0 <= j < |settings[1..]| && settings[1..][j].0 == key
          && token in Words(settings[1..][j].1);
        assert settings[j + 1] == settings[1..][j];
      }
    }
  }

  /** Nodes with empty settings, or whose settings translate to nothing, leave the table as
      it is; a node without settings raises KeyError. */
  lemma StepSkips(t: Table, node: SchemeNode)
    ensures node.settings.None? ==> Step(t, node) == Err(MissingSettings)
    ensures node.settings == Some([]) ==> Step(t, node) == Ok(t)
    ensures node.settings.Some?
      && (forall i :: 0 <= i < |Flatten(node.settings.value)|
            ==> GetCssName(Flatten(node.settings.value)[i].0, Flatten(node.settings.value)[i].1).None?)
      ==> Step(t, node) == Ok(t)
  {
    if node.settings.Some? {
      NodePropsEmpty(node.settings.value);
    }
  }

  /** The base node (no scope) with at least one translated property: it fails with KeyError
      exactly when no `background` token is present, and otherwise stores under `html` its
      property map with `background-color` replaced by the tint of the last background token,
      overwriting any earlier base rule and leaving every other selector as it was. */
  lemma StepBase(t: Table, node: SchemeNode)
    requires node.scope.None? && node.settings.Some? && |NodeProps(node.settings.value)| > 0
    ensures var pairs := Flatten(node.settings.value);
      (Step(t, node) == Err(MissingBackground))
        <==> (forall i :: 0 <= i < |pairs| ==> pairs[i].0 != "background")
    ensures var pairs := Flatten(node.settings.value);
      var props := NodeProps(node.settings.value);
      var i := LastIndex(pairs, "background-color");
      i >= 0 ==>
        match Color.TintedColor(pairs[i].1, 10)
        case None => Step(t, node) == Err(MalformedColor)
        case Some(c) =>
          && Step(t, node).Ok?
          && Get(Step(t, node).value, "html") == Some(Put(props, "background-color", c))
          && forall k :: k != "html" ==> Get(Step(t, node).value, k) == Get(t, k)
  {
    var settings := node.settings.value;
    var pairs := Flatten(settings);
    NodePropsGet(settings, "background-color");
    var i := LastIndex(pairs, "background-color");
    if i < 0 {
      forall j | 0 <= j < |pairs| ensures pairs[j].0 != "background" {
        assert GetCssName(pairs[j].0, pairs[j].1) != Some("background-color");
      }
    } else {
      assert pairs[i].0 == "background";
    }
  }

  /** Storing under several selectors: each of them maps to the property map afterwards,
      replacing whatever it held, and no other selector changes. */
  lemma {:induction false} PutAllGet(t: Table, sels: seq<string>, props: Props, k: string)
    ensures Get(PutAll(t, sels, props), k) == if k in sels then Some(props) else Get(t, k)
    decreases |sels|
  {
    if sels != [] {
      PutAllGet(Put(t, sels[0], props), sels[1..], props, k);
      assert k in sels <==> k == sels[0] || k in sels[1..];
    }
  }

  /** A scoped node with at least one translated property is stored, whole, under each of
      its selectors; every other selector keeps its rule. */
  lemma StepScoped(t: Table, node: SchemeNode, k: string)
    requires node.scope.Some? && node.settings.Some? && |NodeProps(node.settings.value)| > 0
    ensures Step(t, node).Ok?
    ensures Get(Step(t, node).value, k)
      == if k in Selectors(node.scope.value) then Some(NodeProps(node.settings.value)) else Get(t, k)
  {
    PutAllGet(t, Selectors(node.scope.value), NodeProps(node.settings.value), k);
  }

  lemma {:induction false} CountLower(s: string, c: char)
    requires !('A' <= c <= 'Z') && !('a' <= c <= 'z')
    ensures Count(Lower(s), c) == Count(s, c)
  {
    if s != [] {
      assert Lower(s)[0] == LowerChar(s[0]) && Lower(s)[1..] == Lower(s[1..]);
      assert (LowerChar(s[0]) == c) == (s[0] == c);
      CountLower(s[1..], c);
    }
  }

  /** Replacing spaces keeps a first character that is not a space. */
  lemma ReplaceKeepsHead(s: string, rep: string)
    requires s != [] && s[0] != ' '
    ensures ReplaceAll(s, " ", rep) != [] && ReplaceAll(s, " ", rep)[0] == s[0]
  {
    assert s[..1] == [s[0]];
  }

  /** One selector per comma-separated piece, each starting with a dot and free of spaces. */
  lemma SelectorsShape(scope: string)
    ensures |Selectors(scope)| == Count(scope, ',') + 1
    ensures forall i :: 0 <= i < |Selectors(scope)| ==>
              (Selectors(scope)[i] != [] && Selectors(scope)[i][0] == '.' && ' ' !in Selectors(scope)[i])
  {
    CountLower(scope, ',');
    assert Count("." + Lower(scope), ',') == Count(Lower(scope), ',') by {
      assert ("." + Lower(scope))[1..] == Lower(scope);
    }
    var pieces := SplitOn("." + Lower(scope), ',');
    forall i | 0 <= i < |pieces|
      ensures NormalizeSelector(pieces[i]) != [] && NormalizeSelector(pieces[i])[0] == '.'
    {
      var p := if StartsWith(pieces[i], ".") then pieces[i] else "." + Strip(pieces[i]);
      assert p[0] == '.';
      ReplaceKeepsHead(p, "_");
    }
  }

  /** A scope without commas, spaces or capitals is one selector: the scope behind a dot,
      its inner dots kept (`comment.line` gives `.comment.line`). */
  lemma SimpleScopeSelector(scope: string)
    requires ',' !in scope && ' ' !in scope
    requires forall i :: 0 <= i < |scope| ==> !('A' <= scope[i] <= 'Z')
    ensures Selectors(scope) == ["." + scope]
  {
    LowerOfLower(scope);
    SplitOnAbsent("." + scope, ',');
    ReplaceAbsent("." + scope, ' ', "_");
  }

  lemma {:induction false} RunDistinct(t: Table, nodes: seq<SchemeNode>)
    requires DistinctKeys(t)
    ensures Run(t, nodes).Ok? ==> DistinctKeys(Run(t, nodes).value)
    decreases |nodes|
  {
    if nodes != [] {
      StepDistinct(t, nodes[0]);
      if Step(t, nodes[0]).Ok? {
        RunDistinct(Step(t, nodes[0]).value, nodes[1..]);
      }
    }
  }

  /** The table built by `parse_plist` holds each selector once, so its text holds each
      rule once. */
  lemma CompileDistinct(root: seq<SchemeNode>)
    ensures Compile(root).Ok? ==> DistinctKeys(Compile(root).value)
  {
    RunDistinct([], root);
  }
}
