/**
  The rule table and its text form. A table maps selectors (`.comment.line`, `html`) to
  property maps (`color` -> `#f8f8f2`); both are Python dictionaries, kept here as
  association lists in insertion order.

  `SchemeParser.generate_style_sheet_content` writes each rule as `sel { p: v; p: v; } `,
  one after the other in table order. all/ and st3/StyledPopup.py build the text with `+=`
  (`GenerateStyleSheetContent`, `GetPropertiesString`); st3/styled_popup.py collects the
  pieces in a list and joins them (`GenerateStyleSheetContentJoined`,
  `GeneratePropertiesString`). Both produce `Serialize(table)`.
 */
module StyleSheet {
  import opened Wrappers
  import opened Text
  import opened Assoc

  type Props = Dict<string>
  type Table = Dict<Props>

  /** `"%s: %s; " % (prop, value)` */
  function PropText(p: (string, string)): string {
    p.0 + ": " + p.1 + "; "
  }

  /** The declarations of one rule, in order. */
  function PropsText(props: Props): string {
    if props == [] then [] else PropText(props[0]) + PropsText(props[1..])
  }

  /** `"%s { %s } " % (css_class, properties)` */
  function RuleText(sel: string, props: Props): string {
    sel + " { " + PropsText(props) + " } "
  }

  /** The whole stylesheet: every rule of the table, in table order. */
  function Serialize(t: Table): string {
    if t == [] then [] else RuleText(t[0].0, t[0].1) + Serialize(t[1..])
  }

  /** Serialising two tables one after the other is serialising their concatenation. */
  lemma {:induction false} SerializeConcat(a: Table, b: Table)
    ensures Serialize(a + b) == Serialize(a) + Serialize(b)
  {
    if a != [] {
      assert (a + b)[0] == a[0] && (a + b)[1..] == a[1..] + b;
      SerializeConcat(a[1..], b);
    } else {
      assert a + b == b;
    }
  }

  /** Rule `i` of the table is written right after the rules before it and right before the
      rules after it. */
  lemma RuleAt(t: Table, i: nat)
    requires i < |t|
    ensures Serialize(t) == Serialize(t[..i]) + RuleText(t[i].0, t[i].1) + Serialize(t[i + 1..])
  {
    SerializeSplit(t, i + 1);
    SerializePrefix(t, i);
  }

  /** Cutting the table anywhere cuts its text there. */
  lemma SerializeSplit(t: Table, n: nat)
    requires n <= |t|
    ensures Serialize(t) == Serialize(t[..n]) + Serialize(t[n..])
  {
    assert t == t[..n] + t[n..];
    SerializeConcat(t[..n], t[n..]);
  }

  /** Rule `i` is written right after the rules before it. */
  lemma SerializePrefix(t: Table, i: nat)
    requires i < |t|
    ensures Serialize(t[..i + 1]) == Serialize(t[..i]) + RuleText(t[i].0, t[i].1)
  {
    assert t[..i + 1] == t[..i] + [t[i]];
    SerializeConcat(t[..i], [t[i]]);
    SerializeOne(t[i].0, t[i].1);
  }

  lemma SerializeOne(sel: string, props: Props)
    ensures Serialize([(sel, props)]) == RuleText(sel, props)
  {
    assert [(sel, props)][1..] == [];
  }

  lemma {:induction false} PropsTextConcat(a: Props, b: Props)
    ensures PropsText(a + b) == PropsText(a) + PropsText(b)
  {
    if a != [] {
      assert (a + b)[0] == a[0] && (a + b)[1..] == a[1..] + b;
      PropsTextConcat(a[1..], b);
    } else {
      assert a + b == b;
    }
  }

  lemma CountConcat(a: string, b: string, c: char)
    ensures Count(a + b, c) == Count(a, c) + Count(b, c)
  {
    if a != [] {
      assert (a + b)[0] == a[0] && (a + b)[1..] == a[1..] + b;
      CountConcat(a[1..], b, c);
    } else {
      assert a + b == b;
    }
  }

  /** No selector, property name or value holds the character `c`. */
  predicate FreeOf(t: Table, c: char) {
    forall i :: 0 <= i < |t| ==> c !in t[i].0 && PropsFreeOf(t[i].1, c)
  }

  predicate PropsFreeOf(props: Props, c: char) {
    forall j :: 0 <= j < |props| ==> c !in props[j].0 && c !in props[j].1
  }

  lemma CountAbsent(s: string, c: char)
    requires c !in s
    ensures Count(s, c) == 0
  {
    if s != [] {
      CountAbsent(s[1..], c);
    }
  }

  lemma {:induction false} PropsTextHasNoBrace(props: Props)
    requires PropsFreeOf(props, '{')
    ensures Count(PropsText(props), '{') == 0
  {
    if props != [] {
      CountConcat(props[0].0 + ": " + props[0].1, "; ", '{');
      CountConcat(props[0].0 + ": ", props[0].1, '{');
      CountConcat(props[0].0, ": ", '{');
      CountAbsent(props[0].0, '{');
      CountAbsent(props[0].1, '{');
      CountConcat(PropText(props[0]), PropsText(props[1..]), '{');
      PropsTextHasNoBrace(props[1..]);
    }
  }

  /** When the selectors and declarations are free of `{`, the stylesheet holds exactly one
      `{` per rule of the table, so a reader can split it back into the table's rules. */
  lemma {:induction false} OneBracePerRule(t: Table)
    requires FreeOf(t, '{')
    ensures Count(Serialize(t), '{') == |t|
  {
    if t != [] {
      var sel, props := t[0].0, t[0].1;
      CountAbsent(sel, '{');
      PropsTextHasNoBrace(props);
      CountConcat(sel + " { " + PropsText(props), " } ", '{');
      CountConcat(sel + " { ", PropsText(props), '{');
      CountConcat(sel, " { ", '{');
      CountConcat(RuleText(sel, props), Serialize(t[1..]), '{');
      assert FreeOf(t[1..], '{') by {
        forall i | 0 <= i < |t[1..]| ensures '{' !in t[1..][i].0 && PropsFreeOf(t[1..][i].1, '{') {
          assert t[1..][i] == t[i + 1];
        }
      }
      OneBracePerRule(t[1..]);
    }
  }

  /** `CSSHelper.get_properties_string` (all/) and `CSSFactory.generate_properties_string`
      (st3/StyledPopup.py): the declarations of the rule for `cssClass`, built with `+=`.
      None when the table holds no such selector (KeyError). */
  method GetPropertiesString(cssClass: string, t: Table) returns (r: Option<string>)
    ensures r == if HasKey(t, cssClass) then Some(PropsText(Get(t, cssClass).value)) else None
  {
    var found := Get(t, cssClass);
    if found.None? {
      return None;
    }
    var props := found.value;
    var properties := "";
    for i := 0 to |props|
      invariant properties + PropsText(props[i..]) == PropsText(props)
    {
      assert props[i..][0] == props[i] && props[i..][1..] == props[i + 1..];
      assert PropsText(props[i..]) == PropText(props[i]) + PropsText(props[i + 1..]);
      properties := properties + PropText(props[i]);
    }
    assert props[|props|..] == [] && properties + [] == properties;
    return Some(properties);
  }

  /** In a table whose selectors are distinct, looking up the selector of entry `i` finds
      entry `i`. */
  lemma GetOwnKey(t: Table, i: nat)
    requires DistinctKeys(t) && i < |t|
    ensures Get(t, t[i].0) == Some(t[i].1)
  {
    var j := IndexOf(t, t[i].0);
    assert j == i;
  }

  /** `generate_style_sheet_content` of all/ and st3/StyledPopup.py: the rules in table order,
      built with `+=`. The table is a Python dictionary, so its selectors are distinct. */
  method GenerateStyleSheetContent(t: Table) returns (content: string)
    requires DistinctKeys(t)
    ensures content == Serialize(t)
  {
    content := "";
    for i := 0 to |t|
      invariant content + Serialize(t[i..]) == Serialize(t)
    {
      GetOwnKey(t, i);
      var properties := GetPropertiesString(t[i].0, t);
      var rule := t[i].0 + " { " + properties.value + " } ";
      assert rule == RuleText(t[i].0, t[i].1);
      assert t[i..][0] == t[i] && t[i..][1..] == t[i + 1..];
      assert Serialize(t[i..]) == rule + Serialize(t[i + 1..]);
      content := content + rule;
    }
    assert t[|t|..] == [];
  }

  /** `CSSFactory.generate_properties_string` of st3/styled_popup.py: one piece per
      declaration, joined at the end. */
  method GeneratePropertiesString(cssClass: string, t: Table) returns (r: Option<string>)
    ensures r == if HasKey(t, cssClass) then Some(PropsText(Get(t, cssClass).value)) else None
  {
    var found := Get(t, cssClass);
    if found.None? {
      return None;
    }
    var props := found.value;
    var propertyList: seq<string> := [];
    for i := 0 to |props|
      invariant Concat(propertyList) == PropsText(props[..i])
    {
      ConcatAppend(propertyList, PropText(props[i]));
      assert props[..i + 1] == props[..i] + [props[i]];
      PropsTextConcat(props[..i], [props[i]]);
      propertyList := propertyList + [PropText(props[i])];
    }
    assert props[..|props|] == props;
    return Some(Concat(propertyList));
  }

  /** `generate_style_sheet_content` of st3/styled_popup.py: one piece per rule, joined at
      the end. The `sorted(...)` call there discards its result and changes nothing. */
  method GenerateStyleSheetContentJoined(t: Table) returns (content: string)
    requires DistinctKeys(t)
    ensures content == Serialize(t)
  {
    var formatted: seq<string> := [];
    for i := 0 to |t|
      invariant Concat(formatted) == Serialize(t[..i])
    {
      GetOwnKey(t, i);
      var properties := GeneratePropertiesString(t[i].0, t);
      var rule := t[i].0 + " { " + properties.value + " } ";
      ConcatAppend(formatted, rule);
      assert t[..i + 1] == t[..i] + [t[i]];
      SerializeConcat(t[..i], [t[i]]);
      formatted := formatted + [rule];
    }
    assert t[..|t|] == t;
    content := Concat(formatted);
  }
}
