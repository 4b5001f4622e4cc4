// Label rendering and counter buckets of the metrics registry
// (packages/engine/src/metrics.ts).
module Labels {
  import opened Wrappers
  import opened Order

  // A record of labels in insertion order; a record has no name twice.
  datatype Label = Label(name: string, value: string)

  ghost predicate IsRecord(labels: seq<Label>) {
    forall i, j | 0 <= i < j < |labels| :: labels[i].name != labels[j].name
  }

  // No equals sign directly followed by a quote, the text that opens a value.
  ghost predicate LacksOpening(name: string) {
    forall i | 0 <= i < |name| - 1 :: name[i] == '=' ==> name[i + 1] != '"'
  }

  ghost predicate PlainNames(labels: seq<Label>) {
    forall i | 0 <= i < |labels| :: LacksOpening(labels[i].name)
  }

  ghost predicate SameLabels(a: seq<Label>, b: seq<Label>) {
    forall l :: l in a <==> l in b
  }

  // ── Escaping ─────────────────────────────────────────────────────────────

  function ReplaceAll(s: string, c: char, text: string): string {
    if s == "" then "" else (if s[0] == c then text else [s[0]]) + ReplaceAll(s[1..], c, text)
  }

  // The three replacements, one after the other.
  function EscapeLabelValue(value: string): string {
    ReplaceAll(ReplaceAll(ReplaceAll(value, '\\', "\\\\"), '"', "\\\""), '\n', "\\n")
  }

  // One character at a time.
  function EscapeChar(c: char): string {
    if c == '\\' then "\\\\" else if c == '"' then "\\\"" else if c == '\n' then "\\n" else [c]
  }

  function Escape(value: string): string {
    if value == "" then "" else EscapeChar(value[0]) + Escape(value[1..])
  }

  function Unescape(text: string): string {
    if |text| >= 2 && text[0] == '\\'
    then [if text[1] == 'n' then '\n' else text[1]] + Unescape(text[2..])
    else if text == "" then "" else [text[0]] + Unescape(text[1..])
  }

  lemma {:induction false} ReplaceConcat(a: string, b: string, c: char, text: string)
    ensures ReplaceAll(a + b, c, text) == ReplaceAll(a, c, text) + ReplaceAll(b, c, text)
  {
    if a == "" {
      assert a + b == b;
    } else {
      assert (a + b)[1..] == a[1..] + b;
      ReplaceConcat(a[1..], b, c, text);
    }
  }

  lemma ReplaceOne(x: char, c: char, text: string)
    ensures ReplaceAll([x], c, text) == if x == c then text else [x]
  {
    assert [x][1..] == "";
  }

  lemma EscapeOne(x: char)
    ensures EscapeLabelValue([x]) == EscapeChar(x)
  {
    hide ReplaceAll;
    ReplaceOne(x, '\\', "\\\\");
    ReplaceOne('\\', '"', "\\\"");
    ReplaceOne('\\', '\n', "\\n");
    ReplaceOne('"', '\n', "\\n");
    ReplaceOne(x, '"', "\\\"");
    ReplaceOne(x, '\n', "\\n");
    assert "\\\\" == ['\\'] + ['\\'] && "\\\"" == ['\\'] + ['"'];
    ReplaceConcat(['\\'], ['\\'], '"', "\\\"");
    ReplaceConcat(['\\'], ['\\'], '\n', "\\n");
    ReplaceConcat(['\\'], ['"'], '\n', "\\n");
  }

  // The sequence of replacements is the simultaneous substitution: no
  // replacement sees what an earlier one wrote.
  lemma {:induction false} EscapeIsSimultaneous(value: string)
    ensures EscapeLabelValue(value) == Escape(value)
  {
    hide ReplaceAll;
    if value == "" {
      assert EscapeLabelValue("") == "" by { EmptyStays(); }
    } else {
      EscapeIsSimultaneous(value[1..]);
      EscapeOne(value[0]);
      var head, rest := [value[0]], value[1..];
      assert value == head + rest;
      ReplaceConcat(head, rest, '\\', "\\\\");
      var h1, r1 := ReplaceAll(head, '\\', "\\\\"), ReplaceAll(rest, '\\', "\\\\");
      ReplaceConcat(h1, r1, '"', "\\\"");
      ReplaceConcat(ReplaceAll(h1, '"', "\\\""), ReplaceAll(r1, '"', "\\\""), '\n', "\\n");
    }
  }

  lemma EmptyStays()
    ensures EscapeLabelValue("") == ""
  {
  }

  lemma {:induction false} UnescapeEscape(value: string)
    ensures Unescape(Escape(value)) == value
  {
    if value != "" {
      UnescapeEscape(value[1..]);
      var text := Escape(value);
      if |EscapeChar(value[0])| == 2 {
        assert text[2..] == Escape(value[1..]);
      } else {
        assert text[1..] == Escape(value[1..]);
      }
    }
  }

  // A value as it stands in the text, with its closing quote and what follows.
  function Quoted(value: string, rest: string): string {
    if value == "" then "\"" + rest else EscapeChar(value[0]) + Quoted(value[1..], rest)
  }

  lemma {:induction false} QuotedIs(value: string, rest: string)
    ensures Escape(value) + "\"" + rest == Quoted(value, rest)
  {
    if value == "" {
      assert "" + "\"" + rest == "\"" + rest;
    } else {
      QuotedIs(value[1..], rest);
      assert EscapeChar(value[0]) + Escape(value[1..]) + "\"" + rest ==
             EscapeChar(value[0]) + (Escape(value[1..]) + "\"" + rest);
    }
  }

  lemma PrefixCode(c: char, d: char, s: string, t: string)
    requires EscapeChar(c) + s == EscapeChar(d) + t
    ensures c == d && s == t
  {
    var x, y := EscapeChar(c) + s, EscapeChar(d) + t;
    assert x[0] == EscapeChar(c)[0] && y[0] == EscapeChar(d)[0];
    assert |EscapeChar(c)| == |EscapeChar(d)|;
    assert |EscapeChar(c)| == 2 ==> x[1] == EscapeChar(c)[1] && y[1] == EscapeChar(d)[1];
    assert x[|EscapeChar(c)|..] == s && y[|EscapeChar(d)|..] == t;
  }

  lemma QuotedStarts(value: string, rest: string)
    ensures Quoted(value, rest) != "" && (Quoted(value, rest)[0] == '"' <==> value == "")
  {
  }

  // The closing quote is the first one not escaped.
  lemma {:induction false} QuoteEndsValue(u: string, v: string, x: string, y: string)
    requires Quoted(u, x) == Quoted(v, y)
    ensures u == v && x == y
  {
    QuotedStarts(u, x);
    QuotedStarts(v, y);
    if u == "" {
      assert Quoted(u, x)[1..] == x && Quoted(v, y)[1..] == y;
    } else {
      assert Quoted(u, x) == EscapeChar(u[0]) + Quoted(u[1..], x) &&
             Quoted(v, y) == EscapeChar(v[0]) + Quoted(v[1..], y);
      hide Quoted, EscapeChar;
      PrefixCode(u[0], v[0], Quoted(u[1..], x), Quoted(v[1..], y));
      QuoteEndsValue(u[1..], v[1..], x, y);
      assert u == [u[0]] + u[1..] && v == [v[0]] + v[1..];
    }
  }

  // The name ends where a value is first opened.
  lemma OpeningEndsName(p: string, q: string, x: string, y: string)
    requires LacksOpening(p) && LacksOpening(q) && p + "=\"" + x == q + "=\"" + y
    ensures p == q && x == y
  {
    var s, t := p + "=\"" + x, q + "=\"" + y;
    assert s[|p|] == '=' && s[|p| + 1] == '"' && forall i | 0 <= i < |p| :: s[i] == p[i];
    assert t[|q|] == '=' && t[|q| + 1] == '"' && forall i | 0 <= i < |q| :: t[i] == q[i];
    assert |p| == |q|;
    assert s[|p| + 2..] == x && t[|q| + 2..] == y;
  }

  // ── serializeLabels ──────────────────────────────────────────────────────

  function RenderLabel(l: Label): string { l.name + "=\"" + EscapeLabelValue(l.value) + "\"" }

  function RenderAll(labels: seq<Label>): string {
    if labels == [] then ""
    else if |labels| == 1 then RenderLabel(labels[0])
    else RenderLabel(labels[0]) + "," + RenderAll(labels[1..])
  }

  function Following(labels: seq<Label>): string {
    if |labels| <= 1 then "" else "," + RenderAll(labels[1..])
  }

  lemma Regroup(name: string, value: string, rest: string)
    ensures name + "=\"" + value + "\"" + rest == name + "=\"" + (value + "\"" + rest)
  {
  }

  lemma RenderHead(labels: seq<Label>)
    requires labels != []
    ensures RenderAll(labels) == labels[0].name + "=\"" + Quoted(labels[0].value, Following(labels))
  {
    hide EscapeLabelValue, Escape, Quoted;
    EscapeIsSimultaneous(labels[0].value);
    QuotedIs(labels[0].value, Following(labels));
    Regroup(labels[0].name, Escape(labels[0].value), Following(labels));
    assert RenderAll(labels) == RenderLabel(labels[0]) + Following(labels);
  }

  lemma FirstLabel(a: seq<Label>, b: seq<Label>)
    requires a != [] && b != [] && LacksOpening(a[0].name) && LacksOpening(b[0].name) && RenderAll(a) == RenderAll(b)
    ensures a[0] == b[0] && Following(a) == Following(b)
  {
    RenderHead(a);
    RenderHead(b);
    hide RenderAll, Quoted, LacksOpening, Following;
    var va, vb := Quoted(a[0].value, Following(a)), Quoted(b[0].value, Following(b));
    OpeningEndsName(a[0].name, b[0].name, va, vb);
    QuoteEndsValue(a[0].value, b[0].value, Following(a), Following(b));
  }

  lemma RenderNonempty(labels: seq<Label>)
    ensures RenderAll(labels) == "" <==> labels == []
  {
    hide Quoted, Following;
    if labels != [] { RenderHead(labels); }
  }

  lemma RestRenders(a: seq<Label>, b: seq<Label>)
    requires a != [] && b != [] && Following(a) == Following(b)
    ensures |a| == 1 <==> |b| == 1
    ensures RenderAll(a[1..]) == RenderAll(b[1..])
  {
    hide RenderAll;
    assert |a| > 1 ==> Following(a)[1..] == RenderAll(a[1..]);
    assert |b| > 1 ==> Following(b)[1..] == RenderAll(b[1..]);
    assert |a| == 1 ==> a[1..] == [];
    assert |b| == 1 ==> b[1..] == [];
  }

  // Names that do not contain the opening of a value make the text of a list
  // unambiguous.
  lemma {:induction false} RenderAllInjective(a: seq<Label>, b: seq<Label>)
    requires PlainNames(a) && PlainNames(b) && RenderAll(a) == RenderAll(b)
    ensures a == b
  {
    hide RenderAll, LacksOpening, Following;
    RenderNonempty(a);
    RenderNonempty(b);
    if a != [] {
      FirstLabel(a, b);
      RestRenders(a, b);
      assert forall i | 0 <= i < |a| - 1 :: a[1..][i] == a[i + 1];
      assert forall i | 0 <= i < |b| - 1 :: b[1..][i] == b[i + 1];
      RenderAllInjective(a[1..], b[1..]);
      assert a == [a[0]] + a[1..] && b == [b[0]] + b[1..];
    }
  }

  // `Object.keys(labels).sort()`, carrying the values along.
  function InsertLabel(l: Label, sorted: seq<Label>): seq<Label> {
    if sorted == [] || LexLess(l.name, sorted[0].name) then [l] + sorted
    else [sorted[0]] + InsertLabel(l, sorted[1..])
  }

  function SortLabels(labels: seq<Label>): seq<Label> {
    if labels == [] then [] else InsertLabel(labels[0], SortLabels(labels[1..]))
  }

  function SerializeLabels(labels: seq<Label>): string { RenderAll(SortLabels(labels)) }

  ghost predicate StrictlySorted(labels: seq<Label>) {
    forall i, j | 0 <= i < j < |labels| :: LexLess(labels[i].name, labels[j].name)
  }

  lemma {:induction false} InsertMembers(l: Label, sorted: seq<Label>)
    ensures forall x :: x in InsertLabel(l, sorted) <==> x == l || x in sorted
  {
    if sorted != [] && !LexLess(l.name, sorted[0].name) {
      InsertMembers(l, sorted[1..]);
      assert forall x :: x in sorted <==> x == sorted[0] || x in sorted[1..];
    }
  }

  lemma ConsSorted(head: Label, tail: seq<Label>)
    requires StrictlySorted(tail) && forall x | x in tail :: LexLess(head.name, x.name)
    ensures StrictlySorted([head] + tail)
  {
  }

  lemma {:induction false} InsertSorted(l: Label, sorted: seq<Label>)
    requires StrictlySorted(sorted) && forall x | x in sorted :: x.name != l.name
    ensures StrictlySorted(InsertLabel(l, sorted))
  {
    if sorted == [] {
    } else if LexLess(l.name, sorted[0].name) {
      forall x | x in sorted ensures LexLess(l.name, x.name) {
        if x != sorted[0] { LexTransitive(l.name, sorted[0].name, x.name); }
      }
      ConsSorted(l, sorted);
    } else {
      var rest := sorted[1..];
      InsertSorted(l, rest);
      InsertMembers(l, rest);
      LexTotal(l.name, sorted[0].name);
      ConsSorted(sorted[0], InsertLabel(l, rest));
    }
  }

  lemma {:induction false} SortedForm(labels: seq<Label>)
    requires IsRecord(labels)
    ensures StrictlySorted(SortLabels(labels)) && forall x :: x in SortLabels(labels) <==> x in labels
  {
    if labels != [] {
      var rest := labels[1..];
      assert forall i | 0 <= i < |rest| :: rest[i] == labels[i + 1];
      SortedForm(rest);
      assert forall x :: x in labels <==> x == labels[0] || x in rest;
      InsertSorted(labels[0], SortLabels(rest));
      InsertMembers(labels[0], SortLabels(rest));
    }
  }

  lemma SameFirst(a: seq<Label>, b: seq<Label>)
    requires StrictlySorted(a) && StrictlySorted(b) && SameLabels(a, b) && a != [] && b != []
    ensures a[0] == b[0]
  {
    assert a[0] in b && b[0] in a;
    var i :| 0 <= i < |b| && b[i] == a[0];
    var j :| 0 <= j < |a| && a[j] == b[0];
    if i > 0 && j > 0 {
      LexTransitive(a[0].name, b[0].name, a[0].name);
      LexIrreflexive(a[0].name);
    }
  }

  lemma TailLacksHead(a: seq<Label>)
    requires StrictlySorted(a) && a != []
    ensures StrictlySorted(a[1..]) && a[0] !in a[1..]
  {
    LexIrreflexive(a[0].name);
  }

  lemma {:induction false} SortedUnique(a: seq<Label>, b: seq<Label>)
    requires StrictlySorted(a) && StrictlySorted(b) && SameLabels(a, b)
    ensures a == b
  {
    assert a != [] ==> a[0] in a;
    assert b != [] ==> b[0] in b;
    if a != [] && b != [] {
      SameFirst(a, b);
      TailLacksHead(a);
      TailLacksHead(b);
      hide StrictlySorted;
      assert forall x :: x in a <==> x == a[0] || x in a[1..];
      assert forall x :: x in b <==> x == b[0] || x in b[1..];
      SortedUnique(a[1..], b[1..]);
      assert a == [a[0]] + a[1..] && b == [b[0]] + b[1..];
    }
  }

  // Two records get one text exactly when they hold the same labels, whatever
  // their order.
  lemma SerializeIdentifies(a: seq<Label>, b: seq<Label>)
    requires IsRecord(a) && IsRecord(b)
    ensures SameLabels(a, b) ==> SerializeLabels(a) == SerializeLabels(b)
    ensures PlainNames(a) && PlainNames(b) && SerializeLabels(a) == SerializeLabels(b) ==> SameLabels(a, b)
  {
    hide StrictlySorted, RenderAll;
    SortedForm(a);
    SortedForm(b);
    if SameLabels(a, b) { SortedUnique(SortLabels(a), SortLabels(b)); }
    if PlainNames(a) && PlainNames(b) && SerializeLabels(a) == SerializeLabels(b) {
      SortedPlain(a);
      SortedPlain(b);
      RenderAllInjective(SortLabels(a), SortLabels(b));
    }
  }

  lemma SortedPlain(labels: seq<Label>)
    requires IsRecord(labels) && PlainNames(labels)
    ensures PlainNames(SortLabels(labels))
  {
    hide StrictlySorted, LacksOpening;
    SortedForm(labels);
    forall i | 0 <= i < |SortLabels(labels)| ensures LacksOpening(SortLabels(labels)[i].name) {
      assert SortLabels(labels)[i] in labels;
    }
  }

  // A name that contains the opening of a value can imitate two labels.
  lemma OpeningInName()
    ensures var one := [Label("a=\"\",b", "")];
            var two := [Label("a", ""), Label("b", "")];
            SerializeLabels(one) == SerializeLabels(two) && !SameLabels(one, two)
  {
    var one := [Label("a=\"\",b", "")];
    var two := [Label("a", ""), Label("b", "")];
    EmptyStays();
    assert SortLabels(one) == one by { assert SortLabels([]) == []; }
    assert two[1..] == [two[1]] && two[1..][1..] == [];
    assert SortLabels([two[1]]) == [two[1]] by { assert SortLabels([]) == []; }
    assert SortLabels(two) == two;
    assert RenderAll(two) == RenderLabel(two[0]) + "," + RenderLabel(two[1]);
    assert RenderLabel(one[0]) == "a=\"\",b=\"\"";
    assert one[0] in one && one[0] !in two;
  }

  // ── Counters ─────────────────────────────────────────────────────────────

  datatype Change = Change(labels: seq<Label>, amount: int)

  // What the changes to one set of labels add up to.
  ghost function Total(changes: seq<Change>, labels: seq<Label>): int {
    if changes == [] then 0
    else
      var last := changes[|changes| - 1];
      Total(changes[..|changes| - 1], labels) + if SameLabels(labels, last.labels) then last.amount else 0
  }

  ghost predicate Plain(changes: seq<Change>) {
    forall i | 0 <= i < |changes| :: IsRecord(changes[i].labels) && PlainNames(changes[i].labels)
  }

  class Counter {
    var buckets: map<string, int>
    // Every change since the last reset.
    ghost var changes: seq<Change>

    // The counter is a map from sets of labels to the sum of their changes.
    ghost predicate Valid()
      reads this
    {
      Plain(changes) ==> forall r | IsRecord(r) && PlainNames(r) :: Value(r) == Total(changes, r)
    }

    constructor ()
      ensures Valid() && changes == []
    {
      buckets, changes := map[], [];
    }

    function Value(labels: seq<Label>): int
      reads this
    {
      var key := SerializeLabels(labels);
      if key in buckets then buckets[key] else 0
    }

    // `inc` and `dec`: a change to one set of labels is a change to no other.
    method Delta(labels: seq<Label>, change: int)
      requires IsRecord(labels) && Valid()
      modifies this
      ensures Valid() && changes == old(changes) + [Change(labels, change)]
      ensures Value(labels) == old(Value(labels)) + change
      ensures forall r | IsRecord(r) && PlainNames(r) && PlainNames(labels) ::
                Value(r) == old(Value(r)) + if SameLabels(r, labels) then change else 0
    {
      hide SerializeLabels, IsRecord, PlainNames, SameLabels;
      var key := SerializeLabels(labels);
      buckets := buckets[key := (if key in buckets then buckets[key] else 0) + change];
      forall r | IsRecord(r) && PlainNames(r) && PlainNames(labels)
        ensures Value(r) == old(Value(r)) + if SameLabels(r, labels) then change else 0
      {
        SerializeIdentifies(r, labels);
      }
      changes := changes + [Change(labels, change)];
      PlainOfMore(old(changes), Change(labels, change));
    }

    // `get`: the sum of the changes to this set of labels, 0 if there were none.
    method Get(labels: seq<Label>) returns (value: int)
      requires IsRecord(labels) && Valid()
      ensures Plain(changes) && PlainNames(labels) ==> value == Total(changes, labels)
      ensures value == Value(labels)
    {
      var key := SerializeLabels(labels);
      value := if key in buckets then buckets[key] else 0;
    }

    method Reset()
      modifies this
      ensures Valid() && changes == []
    {
      buckets, changes := map[], [];
    }
  }

  lemma PlainOfMore(changes: seq<Change>, last: Change)
    ensures Plain(changes + [last]) <==> Plain(changes) && IsRecord(last.labels) && PlainNames(last.labels)
    ensures (changes + [last])[..|changes|] == changes
  {
    hide IsRecord, PlainNames;
    var all := changes + [last];
    assert all[|changes|] == last && forall i | 0 <= i < |changes| :: all[i] == changes[i];
  }
}
