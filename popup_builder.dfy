/**
  The compiler of st3/styled_popup.py: `CSSFactory`, which translates one rule of a
  `.sublime-color-scheme` file into CSS declarations, and `StackBuilder`, which fills the
  rule table from the scheme's `rules` array.

  A rule is a dictionary of string values (`scope`, `foreground`, `font_style`, ...). Every
  key of it goes through `generate_new_property`; the results are merged with `update`.
  Only rules with a non-empty `scope` are used. The scope is cut into classes at spaces,
  ` - `, `|`, `(` and `)`, the classes the regular expression whitelists are kept, and the
  rule's declarations are stored under each of them.
 */
module PopupBuilder {
  import opened Wrappers
  import opened Text
  import opened Assoc
  import opened StyleSheet

  type Rule = Dict<string>

  /** `get_property_default(property_name, value)` is called with two arguments but takes
      one: a mapped key whose stripped value is empty raises TypeError. */
  datatype BuildError = DefaultArity

  /** `CSSFactory.get_property_name` */
  function GetPropertyName(name: string, value: string): Option<string> {
    if name == "font_style" then
      if value == "bold" then Some("font-weight")
      else if value == "underline" then Some("text-decoration")
      else Some("font-style")
    else if name == "background" then Some("background-color")
    else if name == "foreground" then Some("color")
    else None
  }

  /** `CSSFactory.is_necessary_split_property` */
  predicate IsNecessarySplitProperty(name: string, value: string) {
    name == "font_style" && ' ' in value
  }

  /** `generate_new_property` for a value that is not split; `value` is already stripped. */
  function SingleProperty(key: string, value: string): Result<Props, BuildError> {
    match GetPropertyName(key, value)
    case None => Ok([])
    case Some(name) => if |value| > 0 then Ok([(name, value)]) else Err(DefaultArity)
  }

  /** `new_property.update(generate_new_property(key, val))` for each token in order. A token
      of `split()` holds no whitespace, so its own call takes the single-property branch. */
  function MergeTokens(d: Props, key: string, tokens: seq<string>): Result<Props, BuildError>
    decreases |tokens|
  {
    if tokens == [] then Ok(d)
    else match SingleProperty(key, Strip(tokens[0]))
      case Err(e) => Err(e)
      case Ok(p) => MergeTokens(Update(d, p), key, tokens[1..])
  }

  /** `CSSFactory.generate_new_property(key, value)` */
  function NewProperty(key: string, value: string): Result<Props, BuildError> {
    var v := Strip(value);
    if IsNecessarySplitProperty(key, v) then MergeTokens([], key, Words(v))
    else SingleProperty(key, v)
  }

  /** `properties.update(generate_new_property(key, value))` for each key of the rule. */
  function CssPropertiesFrom(d: Props, rule: Rule): Result<Props, BuildError>
    decreases |rule|
  {
    if rule == [] then Ok(d)
    else match NewProperty(rule[0].0, rule[0].1)
      case Err(e) => Err(e)
      case Ok(p) => CssPropertiesFrom(Update(d, p), rule[1..])
  }

  /** `StackBuilder.generate_css_properties(rule)` */
  function CssProperties(rule: Rule): Result<Props, BuildError> {
    CssPropertiesFrom([], rule)
  }

  /** `is_valid_node`: the rule has a non-empty `scope`. */
  predicate IsValidNode(rule: Rule) {
    Get(rule, "scope").Some? && |Get(rule, "scope").value| > 0
  }

  /** `is_base_style`: the rule has no `scope`. */
  predicate IsBaseStyle(rule: Rule) {
    !HasKey(rule, "scope")
  }

  /** The scope with every separator turned into a comma: `lower`, `strip`, then the
      replacements of `get_node_classes_from_scope`, in its order. */
  function Separated(scope: string): string {
    var s := Strip(Lower(scope));
    var s := ReplaceAll(s, " - ", ",");
    var s := ReplaceAll(s, " ", ",");
    var s := ReplaceAll(s, "|", ",");
    var s := ReplaceAll(s, "(", ",");
    ReplaceAll(s, ")", ",")
  }

  /** `"." + piece` for each non-empty piece, in order. */
  function ClassesOf(pieces: seq<string>): seq<string> {
    if pieces == [] then []
    else (if |pieces[0]| > 0 then ["." + pieces[0]] else []) + ClassesOf(pieces[1..])
  }

  /** `get_node_classes_from_scope(scope)` */
  function NodeClasses(scope: string): seq<string> {
    ClassesOf(SplitOn(Separated(scope), ','))
  }

  /** Some `.` in the class is followed by a digit: `re.search(r"\.[0-9]+", c)`. */
  predicate HasDotDigit(c: string) {
    exists i :: 0 <= i < |c| - 1 && c[i] == '.' && '0' <= c[i + 1] <= '9'
  }

  /** The top-level scope names the whitelist starts with. Every alternative of the regular
      expression is one of these names followed by optional groups, and the expression is
      anchored only at the start, so a class matches exactly when it starts with a dot and
      one of these names. */
  const ScopeRoots: seq<string> := ["comment", "constant", "entity", "invalid", "keyword",
    "markup", "meta", "storage", "string", "support", "variable"]

  /** `re.search(regex, c, re.IGNORECASE)` succeeds. */
  predicate MatchesWhitelist(c: string) {
    exists i :: 0 <= i < |ScopeRoots| && StartsWith(Lower(c), "." + ScopeRoots[i])
  }

  predicate Supported(c: string) {
    !HasDotDigit(c) && MatchesWhitelist(c)
  }

  /** The classes kept by `filter_non_supported_classes`, in their order. */
  function Filtered(classes: seq<string>): seq<string> {
    if classes == [] then []
    else (if Supported(classes[0]) then [classes[0]] else []) + Filtered(classes[1..])
  }

  /** The selector `apply_properties_to_classes` stores a class under. */
  function ClassKey(c: string): string {
    var s := Strip(c);
    if StartsWith(s, ".") then s else "." + s
  }

  /** `set_class_properties(ClassKey(c), props)` for each class in order. */
  function ApplyAll(t: Table, classes: seq<string>, props: Props): Table
    decreases |classes|
  {
    if classes == [] then t else ApplyAll(Put(t, ClassKey(classes[0]), props), classes[1..], props)
  }

  /** One iteration of the loop of `build_stack`. */
  function StackStep(t: Table, rule: Rule): Result<Table, BuildError> {
    if !IsValidNode(rule) then Ok(t)
    else match CssProperties(rule)
      case Err(e) => Err(e)
      case Ok(props) =>
        if |props| == 0 then Ok(t)
        else Ok(ApplyAll(t, Filtered(NodeClasses(Get(rule, "scope").value)), props))
  }

  function BuildFrom(t: Table, rules: seq<Rule>): Result<Table, BuildError>
    decreases |rules|
  {
    if rules == [] then Ok(t)
    else match StackStep(t, rules[0])
      case Err(e) => Err(e)
      case Ok(t') => BuildFrom(t', rules[1..])
  }

  /** `build_stack(rules)` from a cleared stack. */
  function Build(rules: seq<Rule>): Result<Table, BuildError> {
    BuildFrom([], rules)
  }

  // ---------------------------------------------------------------------------------------
  // The code as written.

  /** `CSSFactory.generate_new_property`, recursive as written: a split `font_style` value
      calls it again on each of its tokens. */
  method GenerateNewProperty(key: string, value: string) returns (r: Result<Props, BuildError>)
    ensures r == NewProperty(key, value)
    decreases |value|
  {
    var newProperty: Props := [];
    var v := Strip(value);
    if IsNecessarySplitProperty(key, v) {
      var tokens := Words(v);
      WordsShape(v);
      assert !NoSpace(v) by {
        var i :| 0 <= i < |v| && v[i] == ' ';
        assert IsSpace(v[i]);
      }
      for i := 0 to |tokens|
        invariant MergeTokens(newProperty, key, tokens[i..]) == NewProperty(key, value)
      {
        assert tokens[i..][0] == tokens[i] && tokens[i..][1..] == tokens[i + 1..];
        StripNoSpace(tokens[i]);
        NoSplitWithoutSpace(key, tokens[i]);
        var p := GenerateNewProperty(key, tokens[i]);
        if p.Err? {
          return p;
        }
        newProperty := Update(newProperty, p.value);
      }
      assert tokens[|tokens|..] == [];
      assert MergeTokens(newProperty, key, []) == Ok(newProperty);
      return Ok(newProperty);
    }
    var propertyName := GetPropertyName(key, v);
    if propertyName.None? {
      return Ok(newProperty);
    }
    if |v| > 0 {
      newProperty := Put(newProperty, propertyName.value, v);
      assert newProperty == [(propertyName.value, v)];
      return Ok(newProperty);
    }
    return Err(DefaultArity);
  }

  lemma StripNoSpace(s: string)
    requires NoSpace(s)
    ensures Strip(s) == s
  {
  }

  /** A token without whitespace takes the single-property branch. */
  lemma NoSplitWithoutSpace(key: string, token: string)
    requires NoSpace(token)
    ensures NewProperty(key, token) == SingleProperty(key, token)
  {
    StripNoSpace(token);
    forall i | 0 <= i < |token| ensures token[i] != ' ' {
      assert !IsSpace(token[i]);
    }
  }

  /** `StackBuilder.generate_css_properties`: the loop over the keys of a rule. */
  method GenerateCssProperties(rule: Rule) returns (r: Result<Props, BuildError>)
    ensures r == CssProperties(rule)
  {
    var properties: Props := [];
    for i := 0 to |rule|
      invariant CssPropertiesFrom(properties, rule[i..]) == CssProperties(rule)
    {
      assert rule[i..][0] == rule[i] && rule[i..][1..] == rule[i + 1..];
      var newProperty := GenerateNewProperty(rule[i].0, rule[i].1);
      if newProperty.Err? {
        return Err(newProperty.error);
      }
      properties := Update(properties, newProperty.value);
    }
    assert rule[|rule|..] == [];
    return Ok(properties);
  }

  /** `get_node_classes_from_scope`: the replacements, then the loop over the pieces. */
  method GetNodeClassesFromScope(scope: string) returns (scopes: seq<string>)
    ensures scopes == NodeClasses(scope)
  {
    var pieces := SplitOn(Separated(scope), ',');
    scopes := KeepClasses(pieces);
  }

  /** The loop of `get_node_classes_from_scope`: every non-empty piece, with a dot in front. */
  method KeepClasses(pieces: seq<string>) returns (scopes: seq<string>)
    ensures scopes == ClassesOf(pieces)
  {
    scopes := [];
    for i := 0 to |pieces|
      invariant scopes + ClassesOf(pieces[i..]) == ClassesOf(pieces)
    {
      ClassesOfStep(pieces, i);
      if |pieces[i]| > 0 {
        assert scopes + (["." + pieces[i]] + ClassesOf(pieces[i + 1..]))
          == (scopes + ["." + pieces[i]]) + ClassesOf(pieces[i + 1..]);
        scopes := scopes + ["." + pieces[i]];
      }
    }
    assert pieces[|pieces|..] == [];
  }

  lemma ClassesOfStep(pieces: seq<string>, i: nat)
    requires i < |pieces|
    ensures ClassesOf(pieces[i..])
      == (if |pieces[i]| > 0 then ["." + pieces[i]] else []) + ClassesOf(pieces[i + 1..])
  {
    assert pieces[i..][0] == pieces[i] && pieces[i..][1..] == pieces[i + 1..];
  }

  /** `filter_non_supported_classes`: the loop keeping the whitelisted classes. */
  method FilterNonSupportedClasses(inClasses: seq<string>) returns (outClasses: seq<string>)
    ensures outClasses == Filtered(inClasses)
  {
    outClasses := [];
    for i := 0 to |inClasses|
      invariant outClasses + Filtered(inClasses[i..]) == Filtered(inClasses)
    {
      assert inClasses[i..][0] == inClasses[i] && inClasses[i..][1..] == inClasses[i + 1..];
      var c := inClasses[i];
      if HasDotDigit(c) {
        continue;
      }
      if MatchesWhitelist(c) {
        outClasses := outClasses + [c];
      }
    }
    assert inClasses[|inClasses|..] == [];
  }

  /** `StackBuilder`, whose `stack` is the rule table being built. */
  class StackBuilder {
    var stack: Table

    constructor()
      ensures stack == []
    {
      stack := [];
    }

    method ClearStack()
      modifies this
      ensures stack == []
    {
      stack := [];
    }

    /** `set_class_properties` */
    method SetClassProperties(cssClass: string, properties: Props)
      modifies this
      ensures stack == Put(old(stack), cssClass, properties)
    {
      stack := Put(stack, cssClass, properties);
    }

    /** `apply_properties_to_classes` */
    method ApplyPropertiesToClasses(classes: seq<string>, properties: Props)
      modifies this
      ensures stack == ApplyAll(old(stack), classes, properties)
    {
      ghost var start := stack;
      for i := 0 to |classes|
        invariant ApplyAll(stack, classes[i..], properties) == ApplyAll(start, classes, properties)
      {
        assert classes[i..][0] == classes[i] && classes[i..][1..] == classes[i + 1..];
        var cssClass := Strip(classes[i]);
        if !StartsWith(cssClass, ".") {
          cssClass := "." + cssClass;
        }
        SetClassProperties(cssClass, properties);
      }
      assert classes[|classes|..] == [];
    }

    /** `build_stack(rules)`. A valid rule always has a scope, so the base-style branch of the
        source is never entered. */
    method BuildStack(rules: seq<Rule>) returns (r: Result<Table, BuildError>)
      modifies this
      ensures r == Build(rules)
      ensures r.Ok? ==> stack == r.value
    {
      ClearStack();
      for i := 0 to |rules|
        invariant BuildFrom(stack, rules[i..]) == Build(rules)
      {
        assert rules[i..][0] == rules[i] && rules[i..][1..] == rules[i + 1..];
        var rule := rules[i];
        if !IsValidNode(rule) {
          continue;
        }
        var cssProperties := GenerateCssProperties(rule);
        if cssProperties.Err? {
          return Err(cssProperties.error);
        }
        if |cssProperties.value| == 0 {
          continue;
        }
        if IsBaseStyle(rule) {
          assert false;
        } else {
          var classes := GetNodeClassesFromScope(Get(rule, "scope").value);
          classes := FilterNonSupportedClasses(classes);
          ApplyPropertiesToClasses(classes, cssProperties.value);
        }
      }
      assert rules[|rules|..] == [];
      return Ok(stack);
    }
  }

  /** `SchemeParser.run` after the scheme has been read: build the table from the rules and
      write it out. */
  method ParseScheme(rules: seq<Rule>) returns (r: Result<string, BuildError>)
    ensures r == match Build(rules) case Err(e) => Err(e) case Ok(t) => Ok(Serialize(t))
  {
    var builder := new StackBuilder();
    var stack := builder.BuildStack(rules);
    if stack.Err? {
      return Err(stack.error);
    }
    BuildDistinct(rules);
    var content := GenerateStyleSheetContentJoined(stack.value);
    return Ok(content);
  }

  // ---------------------------------------------------------------------------------------
  // Properties.

  lemma {:induction false} ApplyAllDistinct(t: Table, classes: seq<string>, props: Props)
    requires DistinctKeys(t)
    ensures DistinctKeys(ApplyAll(t, classes, props))
    decreases |classes|
  {
    if classes != [] {
      ApplyAllDistinct(Put(t, ClassKey(classes[0]), props), classes[1..], props);
    }
  }

  lemma {:induction false} BuildFromDistinct(t: Table, rules: seq<Rule>)
    requires DistinctKeys(t)
    ensures BuildFrom(t, rules).Ok? ==> DistinctKeys(BuildFrom(t, rules).value)
    decreases |rules|
  {
    if rules != [] {
      var step := StackStep(t, rules[0]);
      if step.Ok? {
        if IsValidNode(rules[0]) && CssProperties(rules[0]).Ok? {
          ApplyAllDistinct(t, Filtered(NodeClasses(Get(rules[0], "scope").value)),
            CssProperties(rules[0]).value);
        }
        BuildFromDistinct(step.value, rules[1..]);
      }
    }
  }

  /** The stack is a dictionary: each selector occurs once. */
  lemma BuildDistinct(rules: seq<Rule>)
    ensures Build(rules).Ok? ==> DistinctKeys(Build(rules).value)
  {
    BuildFromDistinct([], rules);
  }

  /** Only `font_style`, `background` and `foreground` translate, as `font-weight` for
      `bold`, `text-decoration` for `underline`, `font-style` for any other token, and the
      two colour properties. */
  lemma PropertyNameCases(name: string, value: string)
    ensures GetPropertyName(name, value).Some?
      <==> name == "font_style" || name == "background" || name == "foreground"
    ensures GetPropertyName(name, value) == Some("font-weight") <==> name == "font_style" && value == "bold"
    ensures GetPropertyName(name, value) == Some("text-decoration")
      <==> name == "font_style" && value == "underline"
    ensures GetPropertyName(name, value) == Some("font-style")
      <==> name == "font_style" && value != "bold" && value != "underline"
    ensures GetPropertyName(name, value) == Some("background-color") <==> name == "background"
    ensures GetPropertyName(name, value) == Some("color") <==> name == "foreground"
  {
  }

  /** A value that is not split gives one declaration holding the stripped value, nothing for
      a key without a CSS name, and TypeError for a mapped key whose value is blank. */
  lemma NewPropertyUnsplit(key: string, value: string)
    requires !IsNecessarySplitProperty(key, Strip(value))
    ensures GetPropertyName(key, Strip(value)).None? ==> NewProperty(key, value) == Ok([])
    ensures GetPropertyName(key, Strip(value)).Some? && !IsBlank(value)
      ==> NewProperty(key, value) == Ok([(GetPropertyName(key, Strip(value)).value, Strip(value))])
    ensures NewProperty(key, value).Err? <==> GetPropertyName(key, Strip(value)).Some? && IsBlank(value)
  {
  }

  /** Position of the last token that translates to `p`, or -1. */
  function LastToken(key: string, tokens: seq<string>, p: string): (r: int)
    ensures -1 <= r < |tokens|
    ensures r >= 0 ==> GetPropertyName(key, tokens[r]) == Some(p)
    ensures forall j :: r < j < |tokens| ==> GetPropertyName(key, tokens[j]) != Some(p)
  {
    if tokens == [] then -1
    else if GetPropertyName(key, tokens[|tokens| - 1]) == Some(p) then |tokens| - 1
    else LastToken(key, tokens[..|tokens| - 1], p)
  }

  /** The last token translating to `p` is the last one in the tail, or else the head. */
  lemma LastTokenCons(key: string, tokens: seq<string>, p: string)
    requires tokens != []
    ensures var k := LastToken(key, tokens[1..], p);
      LastToken(key, tokens, p)
        == if k >= 0 then k + 1 else if GetPropertyName(key, tokens[0]) == Some(p) then 0 else -1
  {
    var i, k := LastToken(key, tokens, p), LastToken(key, tokens[1..], p);
    if k >= 0 {
      assert tokens[k + 1] == tokens[1..][k];
    } else {
      forall j | 1 <= j < |tokens| ensures GetPropertyName(key, tokens[j]) != Some(p) {
        assert tokens[j] == tokens[1..][j - 1];
      }
    }
  }

  /** One token translates to at most one declaration, holding the token. */
  lemma SingleTokenGet(d: Props, key: string, x: string, p: string)
    requires x != [] && NoSpace(x)
    ensures SingleProperty(key, Strip(x)).Ok?
    ensures Get(Update(d, SingleProperty(key, Strip(x)).value), p)
      == if GetPropertyName(key, x) == Some(p) then Some(x) else Get(d, p)
  {
    StripNoSpace(x);
    var e := SingleProperty(key, x).value;
    UpdateGet(d, e, p);
    if GetPropertyName(key, x) == Some(p) {
      assert e == [(p, x)];
      assert HasKey(e, p);
    } else if e != [] {
      assert e[0].0 != p;
    }
  }

  /** One step of `MergeTokens` on a token whose own property succeeds. */
  lemma MergeTokensCons(d: Props, key: string, tokens: seq<string>)
    requires tokens != [] && SingleProperty(key, Strip(tokens[0])).Ok?
    ensures MergeTokens(d, key, tokens)
      == MergeTokens(Update(d, SingleProperty(key, Strip(tokens[0])).value), key, tokens[1..])
  {
  }

  /** The head token's write followed by the tail's last writer is the last writer of all. */
  lemma LastTokenStep(key: string, tokens: seq<string>, p: string, before: Option<string>,
                      mid: Option<string>, after: Option<string>)
    requires tokens != []
    requires mid == if GetPropertyName(key, tokens[0]) == Some(p) then Some(tokens[0]) else before
    requires var k := LastToken(key, tokens[1..], p);
      after == if k < 0 then mid else Some(tokens[1..][k])
    ensures var i := LastToken(key, tokens, p);
      after == if i < 0 then before else Some(tokens[i])
  {
    LastTokenCons(key, tokens, p);
    var k := LastToken(key, tokens[1..], p);
    if k >= 0 {
      assert tokens[1..][k] == tokens[k + 1];
    }
  }

  /** Merging the tokens never fails, and each property holds the last token translating to
      it; a property no token translates to keeps its earlier value. */
  lemma {:induction false} MergeTokensGet(d: Props, key: string, tokens: seq<string>, p: string)
    requires forall i :: 0 <= i < |tokens| ==> tokens[i] != [] && NoSpace(tokens[i])
    ensures MergeTokens(d, key, tokens).Ok?
    ensures var i := LastToken(key, tokens, p);
      Get(MergeTokens(d, key, tokens).value, p) == if i < 0 then Get(d, p) else Some(tokens[i])
    decreases |tokens|
  {
    if tokens != [] {
      var x, rest := tokens[0], tokens[1..];
      SingleTokenGet(d, key, x, p);
      var d' := Update(d, SingleProperty(key, Strip(x)).value);
      MergeTokensCons(d, key, tokens);
      forall i | 0 <= i < |rest| ensures rest[i] != [] && NoSpace(rest[i]) {
        assert rest[i] == tokens[i + 1];
      }
      MergeTokensGet(d', key, rest, p);
      LastTokenStep(key, tokens, p, Get(d, p), Get(d', p), Get(MergeTokens(d', key, rest).value, p));
    }
  }

  /** A `font_style` value with a space is split: the result holds, for each property, the
      last token translating to it (`bold italic` gives `font-weight: bold` and
      `font-style: italic`), and it never fails. */
  lemma NewPropertySplit(value: string, p: string)
    requires IsNecessarySplitProperty("font_style", Strip(value))
    ensures NewProperty("font_style", value).Ok?
    ensures var tokens := Words(Strip(value));
      var i := LastToken("font_style", tokens, p);
      Get(NewProperty("font_style", value).value, p) == if i < 0 then None else Some(tokens[i])
  {
    var tokens := Words(Strip(value));
    WordsShape(Strip(value));
    MergeTokensGet([], "font_style", tokens, p);
  }

  /** A keyed value that fails: some key of the rule with a CSS name has a blank value. */
  predicate HasBlankMappedValue(rule: Rule) {
    exists i :: 0 <= i < |rule| && GetPropertyName(rule[i].0, []).Some? && IsBlank(rule[i].1)
  }

  lemma NewPropertyErr(key: string, value: string)
    ensures NewProperty(key, value).Err? <==> GetPropertyName(key, []).Some? && IsBlank(value)
  {
    var v := Strip(value);
    if IsNecessarySplitProperty(key, v) {
      WordsShape(v);
      MergeTokensGet([], key, Words(v), "");
      assert !IsBlank(value);
    } else if IsBlank(value) {
      assert v == [];
    }
  }

  /** `generate_css_properties` raises TypeError exactly when some mapped key has a blank
      value. */
  lemma {:induction false} CssPropertiesErr(d: Props, rule: Rule)
    ensures CssPropertiesFrom(d, rule).Err? <==> HasBlankMappedValue(rule)
    decreases |rule|
  {
    if rule != [] {
      NewPropertyErr(rule[0].0, rule[0].1);
      if NewProperty(rule[0].0, rule[0].1).Ok? {
        CssPropertiesErr(Update(d, NewProperty(rule[0].0, rule[0].1).value), rule[1..]);
        assert HasBlankMappedValue(rule) <==> HasBlankMappedValue(rule[1..]) by {
          if HasBlankMappedValue(rule) {
            var i :| 0 <= i < |rule| && GetPropertyName(rule[i].0, []).Some? && IsBlank(rule[i].1);
            assert i > 0 && rule[1..][i - 1] == rule[i];
          }
          if HasBlankMappedValue(rule[1..]) {
            var i :| 0 <= i < |rule[1..]| && GetPropertyName(rule[1..][i].0, []).Some?
              && IsBlank(rule[1..][i].1);
            assert rule[i + 1] == rule[1..][i];
          }
        }
      }
    }
  }

  /** A valid rule always has a scope, so it is never the base style. */
  lemma ValidIsNotBase(rule: Rule)
    requires IsValidNode(rule)
    ensures !IsBaseStyle(rule)
  {
  }

  /** No character of `s` is in `banned` or a capital letter. */
  predicate Clean(s: string, banned: string) {
    forall c :: c in s ==> c !in banned && !('A' <= c <= 'Z')
  }

  /** Replacing a pattern by a comma keeps a clean string clean. */
  lemma ReplaceClean(s: string, pat: string, banned: string)
    requires |pat| > 0 && Clean(s, banned) && ',' !in banned
    ensures Clean(ReplaceAll(s, pat, ","), banned)
  {
  }

  /** Replacing a character by a comma removes it. */
  lemma ReplaceCharClean(s: string, c: char, banned: string)
    requires Clean(s, banned) && ',' !in banned && c != ','
    ensures Clean(ReplaceAll(s, [c], ","), banned + [c])
  {
    var r := ReplaceAll(s, [c], ",");
    assert c !in r;
  }

  /** The separated scope has no space, `|`, `(`, `)` and no capital letter. */
  lemma SeparatedShape(scope: string)
    ensures Clean(Separated(scope), " |()")
  {
    var s0 := Strip(Lower(scope));
    LowerHasNoCapital(scope);
    forall c | c in s0 ensures c !in "" && !('A' <= c <= 'Z') {
      StripSlice(Lower(scope), c);
    }
    var s1 := ReplaceAll(s0, " - ", ",");
    ReplaceClean(s0, " - ", "");
    var s2 := ReplaceAll(s1, " ", ",");
    ReplaceCharClean(s1, ' ', "");
    var s3 := ReplaceAll(s2, "|", ",");
    ReplaceCharClean(s2, '|', " ");
    var s4 := ReplaceAll(s3, "(", ",");
    ReplaceCharClean(s3, '(', " |");
    ReplaceCharClean(s4, ')', " |(");
    assert "" + " " == " " && " " + "|" == " |" && " |" + "(" == " |(" && " |(" + ")" == " |()";
  }

  /** Every character of `s.strip()` is a character of `s`. */
  lemma StripSlice(s: string, c: char)
    requires c in Strip(s)
    ensures c in s
  {
    var l := TrimLeft(s);
    var r := TrimRight(l);
    var i :| 0 <= i < |r| && r[i] == c;
    assert r[i] == l[i];
    assert l[i] == s[|s| - |l| + i];
  }

  /** Every class starts with a dot, has at least one character after it, and holds no space,
      comma, `|`, `(`, `)` or capital letter. */
  lemma {:induction false} ClassesOfShape(pieces: seq<string>)
    requires forall i :: 0 <= i < |pieces| ==> forall c :: c in pieces[i] ==> c !in " ,|()" && !('A' <= c <= 'Z')
    ensures forall i :: 0 <= i < |ClassesOf(pieces)| ==>
              (|ClassesOf(pieces)[i]| >= 2 && ClassesOf(pieces)[i][0] == '.'
               && forall c :: c in ClassesOf(pieces)[i][1..] ==> c !in " ,|()" && !('A' <= c <= 'Z'))
  {
    if pieces != [] {
      ClassesOfShape(pieces[1..]);
      var head := if |pieces[0]| > 0 then ["." + pieces[0]] else [];
      assert ClassesOf(pieces) == head + ClassesOf(pieces[1..]);
      if |pieces[0]| > 0 {
        assert ("." + pieces[0])[1..] == pieces[0];
      }
    }
  }

  /** The classes of a scope: a dot, then a non-empty run free of separators and capitals. */
  lemma NodeClassesShape(scope: string)
    ensures forall i :: 0 <= i < |NodeClasses(scope)| ==>
              (|NodeClasses(scope)[i]| >= 2 && NodeClasses(scope)[i][0] == '.'
               && forall c :: c in NodeClasses(scope)[i][1..] ==> c !in " ,|()" && !('A' <= c <= 'Z'))
  {
    var s := Separated(scope);
    SeparatedShape(scope);
    var pieces := SplitOn(s, ',');
    forall i | 0 <= i < |pieces|
      ensures forall c :: c in pieces[i] ==> c !in " ,|()" && !('A' <= c <= 'Z')
    {
      SplitOnChars(s, ',', i);
    }
    ClassesOfShape(pieces);
  }

  /** Every character of a piece comes from the split string. */
  lemma {:induction false} SplitOnChars(s: string, sep: char, i: nat)
    requires i < |SplitOn(s, sep)|
    ensures forall c :: c in SplitOn(s, sep)[i] ==> c in s
  {
    if s != [] {
      var rest := SplitOn(s[1..], sep);
      if s[0] == sep {
        if i > 0 {
          SplitOnChars(s[1..], sep, i - 1);
        }
      } else if i == 0 {
        SplitOnChars(s[1..], sep, 0);
      } else {
        SplitOnChars(s[1..], sep, i);
      }
    }
  }

  /** The filter keeps exactly the supported classes. */
  lemma {:induction false} FilteredMembers(classes: seq<string>, c: string)
    ensures c in Filtered(classes) <==> c in classes && Supported(c)
  {
    if classes != [] {
      FilteredMembers(classes[1..], c);
      assert classes == [classes[0]] + classes[1..];
    }
  }

  /** The filter keeps the classes in their order: filtering a concatenation is
      concatenating the filtered parts. */
  lemma {:induction false} FilteredConcat(a: seq<string>, b: seq<string>)
    ensures Filtered(a + b) == Filtered(a) + Filtered(b)
  {
    if a == [] {
      assert a + b == b;
    } else {
      assert (a + b)[0] == a[0] && (a + b)[1..] == a[1..] + b;
      FilteredConcat(a[1..], b);
    }
  }

  /** A class that starts with a dot is stored under itself, stripped at the end. */
  lemma ClassKeyOfDotted(c: string)
    requires c != [] && c[0] == '.'
    ensures ClassKey(c) == TrimRight(c)
    ensures ClassKey(c) != [] && ClassKey(c)[0] == '.'
  {
    assert TrimLeft(c) == c;
    assert TrimRight(c) != [] && TrimRight(c)[0] == '.' by {
      assert !IsSpace(c[0]);
    }
  }

  /** The whitelisted prefixes hold no whitespace. */
  lemma RootsNoSpace(i: nat)
    requires i < |ScopeRoots|
    ensures NoSpace("." + ScopeRoots[i])
  {
    var w := "." + ScopeRoots[i];
    assert forall j :: 0 <= j < |w| ==> w[j] == '.' || 'a' <= w[j] <= 'z';
  }

  lemma BlankAt(s: string, k: nat)
    requires k < |s| && IsBlank(s[k..])
    ensures IsSpace(s[k])
  {
    assert s[k..][0] == s[k];
  }

  /** A prefix without whitespace survives stripping trailing whitespace. */
  lemma PrefixTrimRight(c: string, pre: string)
    requires NoSpace(pre) && StartsWith(Lower(c), pre)
    ensures StartsWith(Lower(TrimRight(c)), pre)
  {
    var r := TrimRight(c);
    LowerAt(c);
    LowerAt(r);
    if |r| < |pre| {
      BlankAt(c, |r|);
      assert false;
    }
    assert Lower(r) == Lower(c)[..|r|];
    assert pre == Lower(c)[..|pre|] == Lower(r)[..|pre|];
  }

  /** A prefix of a string without `.digit` has none either. */
  lemma NoDotDigitPrefix(c: string, r: string)
    requires |r| <= |c| && r == c[..|r|] && !HasDotDigit(c)
    ensures !HasDotDigit(r)
  {
    forall j | 0 <= j < |r| - 1 ensures !(r[j] == '.' && '0' <= r[j + 1] <= '9') {
      assert c[j] == r[j] && c[j + 1] == r[j + 1];
    }
  }

  /** Stripping trailing whitespace keeps a whitelisted prefix and introduces no `.digit`. */
  lemma SupportedTrimRight(c: string)
    requires Supported(c)
    ensures Supported(TrimRight(c))
  {
    var i :| 0 <= i < |ScopeRoots| && StartsWith(Lower(c), "." + ScopeRoots[i]);
    RootsNoSpace(i);
    PrefixTrimRight(c, "." + ScopeRoots[i]);
    NoDotDigitPrefix(c, TrimRight(c));
  }

  /** A supported class is stored under a supported selector that starts with a dot. */
  lemma ClassKeySupported(c: string)
    requires c != [] && c[0] == '.' && Supported(c)
    ensures ClassKey(c) != [] && ClassKey(c)[0] == '.' && Supported(ClassKey(c))
  {
    ClassKeyOfDotted(c);
    SupportedTrimRight(c);
  }

  /** A key of `t[key := v]` is `key` or a key of `t`. */
  lemma PutKeys<V>(t: Dict<V>, key: string, v: V, k: string)
    requires HasKey(Put(t, key, v), k)
    ensures k == key || HasKey(t, k)
  {
    if k != key {
      assert Get(Put(t, key, v), k) == Get(t, k);
    }
  }

  lemma {:induction false} ApplyAllKeys(t: Table, classes: seq<string>, props: Props, k: string)
    requires forall i :: 0 <= i < |classes| ==> classes[i] != [] && classes[i][0] == '.' && Supported(classes[i])
    requires HasKey(ApplyAll(t, classes, props), k)
    ensures HasKey(t, k) || (k != [] && k[0] == '.' && Supported(k))
    decreases |classes|
  {
    if classes != [] {
      var key := ClassKey(classes[0]);
      ClassKeySupported(classes[0]);
      var t' := Put(t, key, props);
      assert ApplyAll(t, classes, props) == ApplyAll(t', classes[1..], props);
      var rest := classes[1..];
      forall i | 0 <= i < |rest| ensures rest[i] != [] && rest[i][0] == '.' && Supported(rest[i]) {
        assert rest[i] == classes[i + 1];
      }
      ApplyAllKeys(t', classes[1..], props, k);
      if HasKey(t', k) {
        PutKeys(t, key, props, k);
      }
    }
  }

  /** Every selector `build_stack` stores starts with a dot and passed the whitelist, so in
      particular no `html` rule is ever produced. */
  lemma {:induction false} BuildFromKeys(t: Table, rules: seq<Rule>, k: string)
    requires BuildFrom(t, rules).Ok? && HasKey(BuildFrom(t, rules).value, k)
    ensures HasKey(t, k) || (k != [] && k[0] == '.' && Supported(k))
    decreases |rules|
  {
    if rules != [] {
      var step := StackStep(t, rules[0]);
      BuildFromKeys(step.value, rules[1..], k);
      if HasKey(step.value, k) && IsValidNode(rules[0]) && |CssProperties(rules[0]).value| > 0 {
        var classes := Filtered(NodeClasses(Get(rules[0], "scope").value));
        NodeClassesShape(Get(rules[0], "scope").value);
        forall i | 0 <= i < |classes| ensures classes[i] != [] && classes[i][0] == '.' && Supported(classes[i]) {
          assert classes[i] in classes;
          FilteredMembers(NodeClasses(Get(rules[0], "scope").value), classes[i]);
          var j :| 0 <= j < |NodeClasses(Get(rules[0], "scope").value)|
            && NodeClasses(Get(rules[0], "scope").value)[j] == classes[i];
        }
        ApplyAllKeys(t, classes, CssProperties(rules[0]).value, k);
      }
    }
  }

  lemma BuildKeys(rules: seq<Rule>, k: string)
    requires Build(rules).Ok? && HasKey(Build(rules).value, k)
    ensures k != [] && k[0] == '.' && Supported(k)
    ensures k != "html"
  {
    BuildFromKeys([], rules, k);
  }
}
