/**
  `ParseSchemeCommand` of styled_tooltip.py, the first form of the compiler. Only
  `background` and `foreground` are translated, and their values are copied as they stand:
  no splitting into tokens and no default values. A node with empty settings is skipped,
  but a scoped node whose settings translate to nothing is still stored, with an empty
  property map. The base rule gets a margin, a padding and a tinted background, the tint
  taking its direction from the floating-point mean of `get_mean`. The scope is cut into
  selectors as in the all/ compiler (`TooltipCompiler.Selectors`).

  The stylesheet is written in a compact form, `sel {p: v;p: v;} `.
 */
module LegacyTooltip {
  import opened Wrappers
  import opened Text
  import opened Assoc
  import opened StyleSheet
  import Color
  import TooltipCompiler

  /** `ParseSchemeCommand.get_css_name`: a lookup in `css_mapper`. */
  function GetCssName(name: string): Option<string> {
    if name == "background" then Some("background-color")
    else if name == "foreground" then Some("color")
    else None
  }

  /** The colour keys translate as in the later compiler; `fontStyle` and every other key
      do not translate at all. */
  lemma GetCssNameCases(name: string, value: string)
    ensures GetCssName(name).Some? <==> name == "background" || name == "foreground"
    ensures GetCssName(name) == if name == "fontStyle" then None else TooltipCompiler.GetCssName(name, value)
  {
  }

  /** `tmp_dict[css] = node["settings"][key]` for one setting with a CSS name. */
  function AddSetting(d: Props, setting: (string, string)): Props {
    match GetCssName(setting.0)
    case None => d
    case Some(css) => Put(d, css, setting.1)
  }

  /** The loop over the settings of a node, from the map `d`. */
  function SettingsProps(d: Props, settings: Dict<string>): Props
    decreases |settings|
  {
    if settings == [] then d else SettingsProps(AddSetting(d, settings[0]), settings[1..])
  }

  /** `tmp_dict` after the loop over a node's settings. */
  function NodeProps(settings: Dict<string>): Props {
    SettingsProps([], settings)
  }

  /** `tmp_dict` of the base node: margin and padding set, then the background replaced by
      its tint. Reading `tmp_dict["background-color"]` without a background raises KeyError,
      and a malformed colour makes `hex_to_rgb` raise. */
  function BaseRule(props: Props): Result<Props, TooltipCompiler.CompileError> {
    var tmp := Put(Put(props, "margin", "2px"), "padding", "1em");
    match Get(tmp, "background-color")
    case None => Err(TooltipCompiler.MissingBackground)
    case Some(bg) =>
      match Color.MeanTintedColor(bg, 10)
      case None => Err(TooltipCompiler.MalformedColor)
      case Some(c) => Ok(Put(tmp, "background-color", c))
  }

  /** One iteration of the loop over the nodes. */
  function Step(t: Table, node: TooltipCompiler.SchemeNode): Result<Table, TooltipCompiler.CompileError> {
    if node.settings.None? then Err(TooltipCompiler.MissingSettings)
    else if |node.settings.value| == 0 then Ok(t)
    else
      var props := NodeProps(node.settings.value);
      if node.scope.None? then
        match BaseRule(props)
        case Err(e) => Err(e)
        case Ok(base) => Ok(Put(t, "html", base))
      else Ok(TooltipCompiler.PutAll(t, TooltipCompiler.Selectors(node.scope.value), props))
  }

  /** The loop over the nodes from table `t`; the first exception ends it. */
  function Run(t: Table, nodes: seq<TooltipCompiler.SchemeNode>): Result<Table, TooltipCompiler.CompileError>
    decreases |nodes|
  {
    if nodes == [] then Ok(t)
    else match Step(t, nodes[0])
      case Err(e) => Err(e)
      case Ok(t') => Run(t', nodes[1..])
  }

  /** `parse_plist(root)` */
  function Compile(root: seq<TooltipCompiler.SchemeNode>): Result<Table, TooltipCompiler.CompileError> {
    Run([], root)
  }

  // ---------------------------------------------------------------------------------------
  // The loops as written.

  /** The loop over the settings of one node. */
  method NodeProperties(settings: Dict<string>) returns (tmp: Props)
    ensures tmp == NodeProps(settings)
  {
    tmp := [];
    for j := 0 to |settings|
      invariant SettingsProps(tmp, settings[j..]) == NodeProps(settings)
    {
      assert settings[j..][0] == settings[j] && settings[j..][1..] == settings[j + 1..];
      var css := GetCssName(settings[j].0);
      if css.Some? {
        tmp := Put(tmp, css.value, settings[j].1);
      }
    }
    assert settings[|settings|..] == [];
  }

  /** `parse_plist(root)` as written: the loop over the nodes. */
  method ParsePlist(root: seq<TooltipCompiler.SchemeNode>) returns (r: Result<Table, TooltipCompiler.CompileError>)
    ensures r == Compile(root)
  {
    var cssDict: Table := [];
    for i := 0 to |root|
      invariant Run(cssDict, root[i..]) == Compile(root)
    {
      assert root[i..][0] == root[i] && root[i..][1..] == root[i + 1..];
      var node := root[i];
      if node.settings.None? {
        return Err(TooltipCompiler.MissingSettings);
      }
      if |node.settings.value| == 0 {
        continue;
      }
      var tmp := NodeProperties(node.settings.value);
      if node.scope.None? {
        tmp := Put(tmp, "margin", "2px");
        tmp := Put(tmp, "padding", "1em");
        var bg := Get(tmp, "background-color");
        if bg.None? {
          return Err(TooltipCompiler.MissingBackground);
        }
        var tinted := Color.MeanTintedColor(bg.value, 10);
        if tinted.None? {
          return Err(TooltipCompiler.MalformedColor);
        }
        tmp := Put(tmp, "background-color", tinted.value);
        cssDict := Put(cssDict, "html", tmp);
      } else {
        cssDict := TooltipCompiler.ApplyScopes(cssDict, node.scope.value, tmp);
      }
    }
    assert root[|root|..] == [];
    return Ok(cssDict);
  }

  /** `attrib + ": " + value + ";"` for each declaration. */
  function CompactProps(props: Props): string {
    if props == [] then [] else props[0].0 + ": " + props[0].1 + ";" + CompactProps(props[1..])
  }

  /** `style + " {"`, the declarations, then `"} "`. */
  function CompactRule(sel: string, props: Props): string {
    sel + " {" + CompactProps(props) + "} "
  }

  /** The text `generate_style_sheet` writes: every rule in table order. */
  function CompactSerialize(t: Table): string {
    if t == [] then [] else CompactRule(t[0].0, t[0].1) + CompactSerialize(t[1..])
  }

  /** A table as `parse_plist` builds it: a dictionary of dictionaries, no key twice at
      either level. */
  predicate WellFormed(t: Table) {
    DistinctKeys(t) && forall i :: 0 <= i < |t| ==> DistinctKeys(t[i].1)
  }

  /** In a property map without repeated keys, looking up the key of entry `j` finds
      entry `j`. */
  lemma OwnValue(props: Props, j: nat)
    requires DistinctKeys(props) && j < |props|
    ensures Get(props, props[j].0) == Some(props[j].1)
  {
    var k := IndexOf(props, props[j].0);
    assert k == j;
  }

  /** The declarations of one rule: `file_content += attrib + ": " + dict[style][attrib] + ";"`. */
  method AppendProps(content0: string, props: Props) returns (content: string)
    requires DistinctKeys(props)
    ensures content == content0 + CompactProps(props)
  {
    content := content0;
    for j := 0 to |props|
      invariant content + CompactProps(props[j..]) == content0 + CompactProps(props)
    {
      assert props[j..][0] == props[j] && props[j..][1..] == props[j + 1..];
      OwnValue(props, j);
      var attrib := props[j].0;
      content := content + (attrib + ": " + Get(props, attrib).value + ";");
    }
    assert props[|props|..] == [];
  }

  /** One rule: `style + " {"`, its declarations, then `"} "`. */
  method AppendRule(content0: string, style: string, props: Props) returns (content: string)
    requires DistinctKeys(props)
    ensures content == content0 + CompactRule(style, props)
  {
    content := content0 + (style + " {");
    content := AppendProps(content, props);
    content := content + "} ";
  }

  /** The text built by `generate_style_sheet` before it is written to `theme_styles.css`. */
  method GenerateStyleSheet(t: Table) returns (fileContent: string)
    requires WellFormed(t)
    ensures fileContent == CompactSerialize(t)
  {
    fileContent := "";
    for i := 0 to |t|
      invariant fileContent + CompactSerialize(t[i..]) == CompactSerialize(t)
    {
      assert t[i..][0] == t[i] && t[i..][1..] == t[i + 1..];
      assert CompactSerialize(t[i..]) == CompactRule(t[i].0, t[i].1) + CompactSerialize(t[i + 1..]);
      GetOwnKey(t, i);
      var style := t[i].0;
      fileContent := AppendRule(fileContent, style, Get(t, style).value);
    }
    assert t[|t|..] == [];
  }

  /** `ParseSchemeCommand.run` on the decoded scheme: compile the nodes, then build the
      stylesheet text. */
  method ParseScheme(root: seq<TooltipCompiler.SchemeNode>) returns (r: Result<string, TooltipCompiler.CompileError>)
    ensures r == match Compile(root)
                 case Err(e) => Err(e)
                 case Ok(t) => Ok(CompactSerialize(t))
  {
    var cssDict := ParsePlist(root);
    if cssDict.Err? {
      return Err(cssDict.error);
    }
    CompileWellFormed(root);
    var content := GenerateStyleSheet(cssDict.value);
    return Ok(content);
  }

  // ---------------------------------------------------------------------------------------
  // Properties.

  /** A property other than the two colour properties is never set from the settings. */
  lemma {:induction false} SettingsPropsOther(d: Props, settings: Dict<string>, k: string)
    requires k != "background-color" && k != "color"
    ensures Get(SettingsProps(d, settings), k) == Get(d, k)
    decreases |settings|
  {
    if settings != [] {
      SettingsPropsOther(AddSetting(d, settings[0]), settings[1..], k);
    }
  }

  /** A colour property holds the value of its setting, verbatim, or keeps its value from
      before when the settings lack that key. */
  lemma {:induction false} SettingsPropsGet(d: Props, settings: Dict<string>, name: string)
    requires DistinctKeys(settings) && (name == "background" || name == "foreground")
    ensures Get(SettingsProps(d, settings), GetCssName(name).value)
      == if HasKey(settings, name) then Get(settings, name) else Get(d, GetCssName(name).value)
    decreases |settings|
  {
    if settings != [] {
      var rest := settings[1..];
      var css := GetCssName(name).value;
      var d' := AddSetting(d, settings[0]);
      assert DistinctKeys(rest);
      SettingsPropsGet(d', rest, name);
      if settings[0].0 != name {
        HasKeyTail(settings, name);
        assert Get(d', css) == Get(d, css);
      } else {
        assert !HasKey(rest, name);
        assert Get(d', css) == Some(settings[0].1);
        assert IndexOf(settings, name) == 0;
      }
    }
  }

  /** A key other than the first is held by the settings exactly when it is held by the
      rest, with the same value. */
  lemma HasKeyTail(settings: Dict<string>, name: string)
    requires settings != [] && settings[0].0 != name
    ensures HasKey(settings, name) <==> HasKey(settings[1..], name)
    ensures Get(settings, name) == Get(settings[1..], name)
  {
    var rest := settings[1..];
    if HasKey(settings, name) {
      var i :| 0 <= i < |settings| && settings[i].0 == name;
      assert rest[i - 1].0 == name;
    }
    if HasKey(rest, name) {
      var i :| 0 <= i < |rest| && rest[i].0 == name;
      assert settings[i + 1].0 == name;
    }
  }

  /** The property map of a node: `background-color` is the `background` setting and
      `color` the `foreground` setting, both verbatim, and no other property is set. */
  lemma NodePropsValues(settings: Dict<string>)
    requires DistinctKeys(settings)
    ensures Get(NodeProps(settings), "background-color") == Get(settings, "background")
    ensures Get(NodeProps(settings), "color") == Get(settings, "foreground")
    ensures forall k :: k != "background-color" && k != "color" ==> !HasKey(NodeProps(settings), k)
  {
    SettingsPropsGet([], settings, "background");
    SettingsPropsGet([], settings, "foreground");
    forall k | k != "background-color" && k != "color" ensures !HasKey(NodeProps(settings), k) {
      SettingsPropsOther([], settings, k);
    }
  }

  /** A node without settings raises KeyError and one with empty settings is skipped. */
  lemma StepSkips(t: Table, node: TooltipCompiler.SchemeNode)
    ensures node.settings.None? ==> Step(t, node) == Err(TooltipCompiler.MissingSettings)
    ensures node.settings == Some([]) ==> Step(t, node) == Ok(t)
  {
  }

  /** A scoped node with settings is stored under every selector of its scope, replacing
      what each held, and no other selector changes. Its map is empty when it has neither a
      `background` nor a `foreground` setting: there is no skip for an empty map. */
  lemma StepScoped(t: Table, node: TooltipCompiler.SchemeNode, k: string)
    requires node.scope.Some? && node.settings.Some? && |node.settings.value| > 0
    requires DistinctKeys(node.settings.value)
    ensures Step(t, node).Ok?
    ensures Get(Step(t, node).value, k)
      == if k in TooltipCompiler.Selectors(node.scope.value) then Some(NodeProps(node.settings.value)) else Get(t, k)
    ensures !HasKey(node.settings.value, "background") && !HasKey(node.settings.value, "foreground")
      ==> NodeProps(node.settings.value) == []
  {
    var settings := node.settings.value;
    TooltipCompiler.PutAllGet(t, TooltipCompiler.Selectors(node.scope.value), NodeProps(settings), k);
    NodePropsValues(settings);
    if NodeProps(settings) != [] {
      assert HasKey(NodeProps(settings), NodeProps(settings)[0].0);
    }
  }

  /** The base node fails with KeyError exactly when it has no `background` setting; with
      one it fails when the colour is malformed, and otherwise stores under `html` a rule
      with margin `2px`, padding `1em`, the tinted background and the foreground colour,
      every other selector keeping its rule. */
  lemma StepBase(t: Table, node: TooltipCompiler.SchemeNode)
    requires node.scope.None? && node.settings.Some? && |node.settings.value| > 0
    requires DistinctKeys(node.settings.value)
    ensures var settings := node.settings.value;
      (Step(t, node) == Err(TooltipCompiler.MissingBackground)) <==> !HasKey(settings, "background")
    ensures var settings := node.settings.value;
      HasKey(settings, "background") ==>
        match Color.MeanTintedColor(Get(settings, "background").value, 10)
        case None => Step(t, node) == Err(TooltipCompiler.MalformedColor)
        case Some(c) =>
          && Step(t, node).Ok?
          && Get(Step(t, node).value, "html").Some?
          && var base := Get(Step(t, node).value, "html").value;
          && Get(base, "margin") == Some("2px")
          && Get(base, "padding") == Some("1em")
          && Get(base, "background-color") == Some(c)
          && Get(base, "color") == Get(settings, "foreground")
          && forall k :: k != "html" ==> Get(Step(t, node).value, k) == Get(t, k)
  {
    var settings := node.settings.value;
    NodePropsValues(settings);
    BaseRuleValues(NodeProps(settings));
  }

  /** The `html` rule: margin and padding added, the background replaced by its tint. */
  lemma BaseRuleValues(props: Props)
    ensures (BaseRule(props) == Err(TooltipCompiler.MissingBackground)) <==> !HasKey(props, "background-color")
    ensures HasKey(props, "background-color") ==>
      match Color.MeanTintedColor(Get(props, "background-color").value, 10)
      case None => BaseRule(props) == Err(TooltipCompiler.MalformedColor)
      case Some(c) =>
        && BaseRule(props).Ok?
        && Get(BaseRule(props).value, "margin") == Some("2px")
        && Get(BaseRule(props).value, "padding") == Some("1em")
        && Get(BaseRule(props).value, "background-color") == Some(c)
        && Get(BaseRule(props).value, "color") == Get(props, "color")
  {
    var tmp := Put(Put(props, "margin", "2px"), "padding", "1em");
    assert Get(tmp, "background-color") == Get(props, "background-color");
    assert Get(tmp, "color") == Get(props, "color");
  }

  lemma {:induction false} PutAllWellFormed(t: Table, sels: seq<string>, props: Props)
    requires WellFormed(t) && DistinctKeys(props)
    ensures WellFormed(TooltipCompiler.PutAll(t, sels, props))
    decreases |sels|
  {
    if sels != [] {
      PutWellFormed(t, sels[0], props);
      PutAllWellFormed(Put(t, sels[0], props), sels[1..], props);
    }
  }

  lemma PutWellFormed(t: Table, sel: string, props: Props)
    requires WellFormed(t) && DistinctKeys(props)
    ensures WellFormed(Put(t, sel, props))
  {
    var r := Put(t, sel, props);
    var i := IndexOf(t, sel);
    assert r == if i < 0 then t + [(sel, props)] else t[i := (sel, props)];
  }

  lemma {:induction false} SettingsPropsDistinct(d: Props, settings: Dict<string>)
    requires DistinctKeys(d)
    ensures DistinctKeys(SettingsProps(d, settings))
    decreases |settings|
  {
    if settings != [] {
      SettingsPropsDistinct(AddSetting(d, settings[0]), settings[1..]);
    }
  }

  lemma StepWellFormed(t: Table, node: TooltipCompiler.SchemeNode)
    requires WellFormed(t)
    ensures Step(t, node).Ok? ==> WellFormed(Step(t, node).value)
  {
    if node.settings.Some? && |node.settings.value| > 0 {
      var props := NodeProps(node.settings.value);
      SettingsPropsDistinct([], node.settings.value);
      if node.scope.None? {
        if BaseRule(props).Ok? {
          PutWellFormed(t, "html", BaseRule(props).value);
        }
      } else {
        PutAllWellFormed(t, TooltipCompiler.Selectors(node.scope.value), props);
      }
    }
  }

  lemma {:induction false} RunWellFormed(t: Table, nodes: seq<TooltipCompiler.SchemeNode>)
    requires WellFormed(t)
    ensures Run(t, nodes).Ok? ==> WellFormed(Run(t, nodes).value)
    decreases |nodes|
  {
    if nodes != [] {
      StepWellFormed(t, nodes[0]);
      if Step(t, nodes[0]).Ok? {
        RunWellFormed(Step(t, nodes[0]).value, nodes[1..]);
      }
    }
  }

  /** The table built by `parse_plist` holds each selector once, and each rule each
      property once. */
  lemma CompileWellFormed(root: seq<TooltipCompiler.SchemeNode>)
    ensures Compile(root).Ok? ==> WellFormed(Compile(root).value)
  {
    RunWellFormed([], root);
  }

  /** The text of two tables one after the other is the text of their concatenation: each
      rule is written on its own, in table order. */
  lemma {:induction false} CompactSerializeConcat(a: Table, b: Table)
    ensures CompactSerialize(a + b) == CompactSerialize(a) + CompactSerialize(b)
  {
    if a != [] {
      assert (a + b)[0] == a[0] && (a + b)[1..] == a[1..] + b;
      CompactSerializeConcat(a[1..], b);
    } else {
      assert a + b == b;
    }
  }
}
