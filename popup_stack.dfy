/**
  What the stack built by `StackBuilder.build_stack` of st3/styled_popup.py holds.
  `generate_css_properties` merges the translation of every key of a rule, and of every
  token of a split `font_style` value, with `update`, so a property holds the value of the
  last key or token translating to it. `apply_properties_to_classes` stores the whole map
  under each supported class, so a selector holds the properties of the last rule storing
  under it.
 */
module PopupStack {
  import opened Wrappers
  import opened Text
  import opened Assoc
  import opened StyleSheet
  import opened PopupBuilder

  /** The selectors `apply_properties_to_classes` writes for the classes, in order. */
  function ClassKeys(classes: seq<string>): (r: seq<string>)
    ensures |r| == |classes|
    ensures forall i :: 0 <= i < |classes| ==> r[i] == ClassKey(classes[i])
  {
    if classes == [] then [] else [ClassKey(classes[0])] + ClassKeys(classes[1..])
  }

  /** Every class key maps to the properties, replacing what it held; every other selector
      keeps its rule. */
  lemma {:induction false} ApplyAllGet(t: Table, classes: seq<string>, props: Props, k: string)
    ensures Get(ApplyAll(t, classes, props), k) == if k in ClassKeys(classes) then Some(props) else Get(t, k)
    decreases |classes|
  {
    if classes != [] {
      ApplyAllGet(Put(t, ClassKey(classes[0]), props), classes[1..], props, k);
      assert ClassKeys(classes) == [ClassKey(classes[0])] + ClassKeys(classes[1..]);
    }
  }

  /** The (key, value) pairs whose translation `generate_new_property` merges for one item
      of a rule: each token of a split `font_style` value, or else the stripped value. */
  function EntryWrites(key: string, value: string): seq<(string, string)> {
    var v := Strip(value);
    if IsNecessarySplitProperty(key, v) then TokenWrites(key, Words(v)) else [(key, v)]
  }

  /** The pairs of a split value: the key with each token. */
  function TokenWrites(key: string, tokens: seq<string>): (r: seq<(string, string)>)
    ensures |r| == |tokens|
    ensures forall i :: 0 <= i < |tokens| ==> r[i] == (key, tokens[i])
  {
    seq(|tokens|, i requires 0 <= i < |tokens| => (key, tokens[i]))
  }

  /** The last pair of a split value translating to `p` is its last token doing so. */
  lemma LastTokenWrite(key: string, tokens: seq<string>, p: string)
    ensures LastWrite(TokenWrites(key, tokens), p) == LastToken(key, tokens, p)
  {
    LastWriteUnique(TokenWrites(key, tokens), p, LastToken(key, tokens, p));
  }

  /** The pairs merged for a whole rule, item after item. */
  function RuleWrites(rule: Rule): seq<(string, string)>
    decreases |rule|
  {
    if rule == [] then [] else EntryWrites(rule[0].0, rule[0].1) + RuleWrites(rule[1..])
  }

  /** Position of the last pair translating to `p`, or -1. */
  function LastWrite(ws: seq<(string, string)>, p: string): (r: int)
    ensures -1 <= r < |ws|
    ensures r >= 0 ==> GetPropertyName(ws[r].0, ws[r].1) == Some(p)
    ensures forall j :: r < j < |ws| ==> GetPropertyName(ws[j].0, ws[j].1) != Some(p)
  {
    if ws == [] then -1
    else if GetPropertyName(ws[|ws| - 1].0, ws[|ws| - 1].1) == Some(p) then |ws| - 1
    else LastWrite(ws[..|ws| - 1], p)
  }

  /** The contract of `LastWrite` determines it. */
  lemma LastWriteUnique(ws: seq<(string, string)>, p: string, r: int)
    requires -1 <= r < |ws|
    requires r >= 0 ==> GetPropertyName(ws[r].0, ws[r].1) == Some(p)
    requires forall j :: r < j < |ws| ==> GetPropertyName(ws[j].0, ws[j].1) != Some(p)
    ensures LastWrite(ws, p) == r
  {
  }

  /** The last writer of two runs of pairs is the last one of the second run, if any. */
  lemma LastWriteConcat(a: seq<(string, string)>, b: seq<(string, string)>, p: string)
    ensures LastWrite(a + b, p)
      == if LastWrite(b, p) >= 0 then |a| + LastWrite(b, p) else LastWrite(a, p)
  {
    var ra, rb := LastWrite(a, p), LastWrite(b, p);
    var c := if rb >= 0 then |a| + rb else ra;
    var ab := a + b;
    forall j | c < j < |ab| ensures GetPropertyName(ab[j].0, ab[j].1) != Some(p) {
      if j >= |a| {
        assert ab[j] == b[j - |a|];
      } else {
        assert ab[j] == a[j];
      }
    }
    if rb >= 0 {
      assert ab[c] == b[rb];
    } else if ra >= 0 {
      assert ab[c] == a[ra];
    }
    LastWriteUnique(ab, p, c);
  }

  /** Merging tokens into a dictionary keeps its keys distinct. */
  lemma {:induction false} MergeTokensDistinct(d: Props, key: string, tokens: seq<string>)
    requires DistinctKeys(d)
    ensures MergeTokens(d, key, tokens).Ok? ==> DistinctKeys(MergeTokens(d, key, tokens).value)
    decreases |tokens|
  {
    if tokens != [] {
      var single := SingleProperty(key, Strip(tokens[0]));
      if single.Ok? {
        MergeTokensDistinct(Update(d, single.value), key, tokens[1..]);
      }
    }
  }

  /** `properties.update(generate_new_property(key, value))`: a property takes the value of
      the last pair of the item translating to it, and keeps its value when none does. */
  lemma EntryGet(d: Props, key: string, value: string, p: string)
    requires NewProperty(key, value).Ok?
    ensures var ws := EntryWrites(key, value);
      var i := LastWrite(ws, p);
      Get(Update(d, NewProperty(key, value).value), p) == if i < 0 then Get(d, p) else Some(ws[i].1)
  {
    if IsNecessarySplitProperty(key, Strip(value)) {
      SplitEntryGet(d, key, value, p);
    } else {
      SingleEntryGet(d, key, value, p);
    }
  }

  lemma SplitEntryGet(d: Props, key: string, value: string, p: string)
    requires IsNecessarySplitProperty(key, Strip(value))
    ensures NewProperty(key, value).Ok?
    ensures var ws := EntryWrites(key, value);
      var i := LastWrite(ws, p);
      Get(Update(d, NewProperty(key, value).value), p) == if i < 0 then Get(d, p) else Some(ws[i].1)
  {
    var tokens := Words(Strip(value));
    var i := LastToken(key, tokens, p);
    assert NewProperty(key, value) == MergeTokens([], key, tokens);
    assert MergeTokens([], key, tokens).Ok? && Get(MergeTokens([], key, tokens).value, p)
        == if i < 0 then None else Some(tokens[i]) by {
      WordsShape(Strip(value));
      MergeTokensGet([], key, tokens, p);
    }
    var np := MergeTokens([], key, tokens).value;
    assert Get(Update(d, np), p) == if HasKey(np, p) then Get(np, p) else Get(d, p) by {
      MergeTokensDistinct([], key, tokens);
      UpdateGet(d, np, p);
    }
    assert EntryWrites(key, value) == TokenWrites(key, tokens);
    LastTokenWrite(key, tokens, p);
  }

  lemma SingleEntryGet(d: Props, key: string, value: string, p: string)
    requires !IsNecessarySplitProperty(key, Strip(value)) && NewProperty(key, value).Ok?
    ensures var ws := EntryWrites(key, value);
      var i := LastWrite(ws, p);
      Get(Update(d, NewProperty(key, value).value), p) == if i < 0 then Get(d, p) else Some(ws[i].1)
  {
    var v := Strip(value);
    var ws := EntryWrites(key, value);
    var np := SingleProperty(key, v).value;
    assert ws == [(key, v)];
    assert NewProperty(key, value) == Ok(np);
    UpdateGet(d, np, p);
    if GetPropertyName(key, v) == Some(p) {
      assert np == [(p, v)];
      assert HasKey(np, p);
      LastWriteUnique(ws, p, 0);
    } else {
      assert !HasKey(np, p) by {
        if np != [] {
          assert np == [(GetPropertyName(key, v).value, v)];
        }
      }
      LastWriteUnique(ws, p, -1);
    }
  }

  /** The value the last pair translating to `p` gives it, or `dflt` when none does. */
  function LastValue(ws: seq<(string, string)>, p: string, dflt: Option<string>): (r: Option<string>)
    ensures LastWrite(ws, p) < 0 ==> r == dflt
    ensures LastWrite(ws, p) >= 0 ==> r == Some(ws[LastWrite(ws, p)].1)
  {
    var i := LastWrite(ws, p);
    if i < 0 then dflt else Some(ws[i].1)
  }

  /** Writing two runs of pairs in turn is writing their concatenation. */
  lemma LastValueConcat(a: seq<(string, string)>, b: seq<(string, string)>, p: string, dflt: Option<string>)
    ensures LastValue(a + b, p, dflt) == LastValue(b, p, LastValue(a, p, dflt))
  {
    LastWriteConcat(a, b, p);
    var ra, rb := LastWrite(a, p), LastWrite(b, p);
    if rb >= 0 {
      assert (a + b)[|a| + rb] == b[rb];
    } else if ra >= 0 {
      assert (a + b)[ra] == a[ra];
    }
  }

  /** One step of `generate_css_properties` on a rule it accepts. */
  lemma CssPropertiesFromCons(d: Props, rule: Rule)
    requires rule != [] && CssPropertiesFrom(d, rule).Ok?
    ensures NewProperty(rule[0].0, rule[0].1).Ok?
    ensures CssPropertiesFrom(d, rule)
      == CssPropertiesFrom(Update(d, NewProperty(rule[0].0, rule[0].1).value), rule[1..])
    ensures RuleWrites(rule) == EntryWrites(rule[0].0, rule[0].1) + RuleWrites(rule[1..])
  {
  }

  /** `generate_css_properties`: each property holds the value of the last key or token of
      the rule translating to it; a property nothing translates to keeps its earlier value. */
  lemma {:induction false} CssPropertiesGet(d: Props, rule: Rule, p: string)
    requires CssPropertiesFrom(d, rule).Ok?
    ensures Get(CssPropertiesFrom(d, rule).value, p) == LastValue(RuleWrites(rule), p, Get(d, p))
    decreases |rule|
  {
    if rule != [] {
      CssPropertiesFromCons(d, rule);
      var d' := Update(d, NewProperty(rule[0].0, rule[0].1).value);
      var a, b := EntryWrites(rule[0].0, rule[0].1), RuleWrites(rule[1..]);
      assert Get(d', p) == LastValue(a, p, Get(d, p)) by {
        EntryGet(d, rule[0].0, rule[0].1, p);
      }
      CssPropertiesGet(d', rule[1..], p);
      LastValueConcat(a, b, p, Get(d, p));
    }
  }

  /** One rule of `build_stack`: a valid rule with properties stores them, whole, under the
      key of each supported class and leaves every other selector alone; any other rule
      leaves the table as it was. */
  lemma StackStepGet(t: Table, rule: Rule, k: string)
    requires StackStep(t, rule).Ok?
    ensures !IsValidNode(rule) || CssProperties(rule) == Ok([]) ==> StackStep(t, rule) == Ok(t)
    ensures IsValidNode(rule) ==> CssProperties(rule).Ok?
    ensures IsValidNode(rule) ==>
      var props := CssProperties(rule).value;
      var keys := ClassKeys(Filtered(NodeClasses(Get(rule, "scope").value)));
      Get(StackStep(t, rule).value, k) == if |props| > 0 && k in keys then Some(props) else Get(t, k)
  {
    if IsValidNode(rule) && |CssProperties(rule).value| > 0 {
      ApplyAllGet(t, Filtered(NodeClasses(Get(rule, "scope").value)), CssProperties(rule).value, k);
    }
  }

  /** The rule stores its properties under `k`. */
  predicate StoresUnder(rule: Rule, k: string) {
    && IsValidNode(rule) && CssProperties(rule).Ok? && |CssProperties(rule).value| > 0
    && k in ClassKeys(Filtered(NodeClasses(Get(rule, "scope").value)))
  }

  /** Which rules store under `k`. */
  function StoreMask(rules: seq<Rule>, k: string): (m: seq<bool>)
    ensures |m| == |rules|
    ensures forall i :: 0 <= i < |rules| ==> m[i] == StoresUnder(rules[i], k)
  {
    seq(|rules|, i requires 0 <= i < |rules| => StoresUnder(rules[i], k))
  }

  /** Position of the last `true`, or -1. */
  function LastTrue(m: seq<bool>): (r: int)
    ensures -1 <= r < |m|
    ensures r >= 0 ==> m[r]
    ensures forall j :: r < j < |m| ==> !m[j]
  {
    if m == [] then -1 else if m[|m| - 1] then |m| - 1 else LastTrue(m[..|m| - 1])
  }

  /** The last `true` is the last one of the tail, or else the head. */
  lemma LastTrueCons(m: seq<bool>)
    requires m != []
    ensures var r := LastTrue(m[1..]);
      LastTrue(m) == if r >= 0 then r + 1 else if m[0] then 0 else -1
  {
    var r, l := LastTrue(m[1..]), LastTrue(m);
    if r >= 0 {
      assert m[r + 1] == m[1..][r];
    }
    forall j | 1 <= j < |m| ensures m[j] == m[1..][j - 1] {
    }
  }

  /** Position of the last rule storing under `k`, or -1. */
  function LastRule(rules: seq<Rule>, k: string): (r: int)
    ensures -1 <= r < |rules|
    ensures r >= 0 ==> StoresUnder(rules[r], k)
    ensures forall j :: r < j < |rules| ==> !StoresUnder(rules[j], k)
  {
    var m := StoreMask(rules, k);
    var r := LastTrue(m);
    assert forall j :: r < j < |rules| ==> !m[j];
    r
  }

  /** The last rule storing under `k` is the last one among the later rules, or else the first. */
  lemma LastRuleCons(rules: seq<Rule>, k: string)
    requires rules != []
    ensures var r := LastRule(rules[1..], k);
      LastRule(rules, k) == if r >= 0 then r + 1 else if StoresUnder(rules[0], k) then 0 else -1
  {
    var m := StoreMask(rules, k);
    assert StoreMask(rules[1..], k) == m[1..];
    LastTrueCons(m);
  }

  /** The loop of `build_stack` from table `t`: a selector holds the properties of the last
      rule storing under it, whole, or its rule in `t` when no rule does. */
  lemma {:induction false} BuildFromGet(t: Table, rules: seq<Rule>, k: string)
    requires BuildFrom(t, rules).Ok?
    ensures var i := LastRule(rules, k);
      Get(BuildFrom(t, rules).value, k) == if i < 0 then Get(t, k) else Some(CssProperties(rules[i]).value)
    decreases |rules|
  {
    if rules != [] {
      var step := StackStep(t, rules[0]);
      assert step.Ok?;
      StackStepGet(t, rules[0], k);
      BuildFromGet(step.value, rules[1..], k);
      LastRuleCons(rules, k);
      var r := LastRule(rules[1..], k);
      if r >= 0 {
        assert rules[1..][r] == rules[r + 1];
      }
    }
  }

  /** `build_stack(rules)`: every selector of the stack holds the properties of the last
      rule storing under it; a later rule replaces an earlier one whole. */
  lemma BuildGet(rules: seq<Rule>, k: string)
    requires Build(rules).Ok?
    ensures var i := LastRule(rules, k);
      Get(Build(rules).value, k) == if i < 0 then None else Some(CssProperties(rules[i]).value)
  {
    BuildFromGet([], rules, k);
  }
}
