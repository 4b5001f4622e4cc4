// The handful of JavaScript string operations the engine's parsers rely on:
// decimal digits, `parseInt(s, 10)`, `split` on one character and `join`.
module Text {
  import opened Wrappers

  predicate IsDigit(c: char) { '0' <= c <= '9' }

  predicate AllDigits(s: string) {
    forall i | 0 <= i < |s| :: IsDigit(s[i])
  }

  predicate Lacks(s: string, c: char) {
    forall i | 0 <= i < |s| :: s[i] != c
  }

  function Digit(d: nat): char
    requires d < 10
  {
    '0' + d as char
  }

  function DigitsToNat(s: string): nat
    requires AllDigits(s)
  {
    if s == "" then 0
    else DigitsToNat(s[..|s| - 1]) * 10 + (s[|s| - 1] as nat - '0' as nat)
  }

  function NatToDigits(n: nat): (s: string)
    ensures s != "" && AllDigits(s)
  {
    if n < 10 then [Digit(n)] else NatToDigits(n / 10) + [Digit(n % 10)]
  }

  lemma {:induction false} DigitsRoundTrip(n: nat)
    ensures DigitsToNat(NatToDigits(n)) == n
  {
    if n >= 10 {
      DigitsRoundTrip(n / 10);
      var s := NatToDigits(n);
      assert s[..|s| - 1] == NatToDigits(n / 10);
    } else {
      assert NatToDigits(n)[..0] == "";
    }
  }

  // `parseInt(s, 10)`: leading white space, an optional sign, then the longest
  // run of digits; NaN (None) when that run is empty.
  predicate IsSpace(c: char) {
    c in {' ', '\t', '\n', '\r', '\U{000B}', '\U{000C}', '\U{00A0}', '\U{1680}', '\U{2028}', '\U{2029}',
          '\U{202F}', '\U{205F}', '\U{3000}', '\U{FEFF}'} || '\U{2000}' <= c <= '\U{200A}'
  }

  function SkipSpace(s: string): string {
    if s != "" && IsSpace(s[0]) then SkipSpace(s[1..]) else s
  }

  function DigitPrefix(s: string): (p: string)
    ensures AllDigits(p)
  {
    if s != "" && IsDigit(s[0]) then [s[0]] + DigitPrefix(s[1..]) else ""
  }

  function ParseInt(s: string): Option<int> {
    var t := SkipSpace(s);
    var signed := t != "" && (t[0] == '-' || t[0] == '+');
    var digits := DigitPrefix(if signed then t[1..] else t);
    if digits == "" then None
    else
      var magnitude: int := DigitsToNat(digits);
      Some(if signed && t[0] == '-' then -magnitude else magnitude)
  }

  lemma {:induction false} DigitPrefixOfDigits(s: string)
    requires AllDigits(s)
    ensures DigitPrefix(s) == s
  {
    if s != "" { DigitPrefixOfDigits(s[1..]); }
  }

  lemma ParseIntOfDigits(s: string)
    requires s != "" && AllDigits(s)
    ensures ParseInt(s) == Some(DigitsToNat(s))
  {
    assert IsDigit(s[0]);
    DigitPrefixOfDigits(s);
  }

  function Split(s: string, sep: char): (parts: seq<string>)
    ensures parts != []
  {
    if s == "" then [""]
    else
      var rest := Split(s[1..], sep);
      if s[0] == sep then [""] + rest else [[s[0]] + rest[0]] + rest[1..]
  }

  function Join(parts: seq<string>, sep: char): string {
    if parts == [] then ""
    else if |parts| == 1 then parts[0]
    else parts[0] + [sep] + Join(parts[1..], sep)
  }

  lemma {:induction false} SplitFirst(p: string, rest: string, sep: char)
    requires Lacks(p, sep)
    ensures Split(p + [sep] + rest, sep) == [p] + Split(rest, sep)
  {
    var s := p + [sep] + rest;
    if p == "" {
      assert s[1..] == rest;
    } else {
      assert s[1..] == p[1..] + [sep] + rest;
      SplitFirst(p[1..], rest, sep);
      var tail := Split(s[1..], sep);
      assert tail == [p[1..]] + Split(rest, sep);
      assert s[0] == p[0] && p == [p[0]] + p[1..];
    }
  }

  lemma {:induction false} SplitLacking(p: string, sep: char)
    requires Lacks(p, sep)
    ensures Split(p, sep) == [p]
  {
    if p != "" {
      SplitLacking(p[1..], sep);
      assert p == [p[0]] + p[1..];
    }
  }

  // `split` undoes `join` on parts that do not contain the separator.
  lemma {:induction false} SplitJoin(parts: seq<string>, sep: char)
    requires parts != [] && forall i | 0 <= i < |parts| :: Lacks(parts[i], sep)
    ensures Split(Join(parts, sep), sep) == parts
  {
    if |parts| == 1 {
      SplitLacking(parts[0], sep);
    } else {
      SplitJoin(parts[1..], sep);
      SplitFirst(parts[0], Join(parts[1..], sep), sep);
    }
  }

  function TrimEnd(s: string): string {
    if s != "" && IsSpace(s[|s| - 1]) then TrimEnd(s[..|s| - 1]) else s
  }

  function Trim(s: string): string { TrimEnd(SkipSpace(s)) }

  // Trimming takes off white space at the two ends, and all of it.
  lemma TrimMeaning(s: string) returns (before: string, after: string)
    ensures s == before + Trim(s) + after
    ensures (forall c | c in before + after :: IsSpace(c))
    ensures Trim(s) != "" ==> !IsSpace(Trim(s)[0]) && !IsSpace(Trim(s)[|Trim(s)| - 1])
  {
    hide IsSpace;
    before := SkippedSpace(s);
    after := TrimmedSpace(SkipSpace(s));
    assert SkipSpace(s) == Trim(s) + after;
    assert before + Trim(s) + after == before + (Trim(s) + after);
  }

  lemma {:induction false} SkippedSpace(s: string) returns (before: string)
    ensures s == before + SkipSpace(s) && forall c | c in before :: IsSpace(c)
    ensures SkipSpace(s) != "" ==> !IsSpace(SkipSpace(s)[0])
  {
    hide IsSpace;
    if s != "" && IsSpace(s[0]) {
      before := SkippedSpace(s[1..]);
      before := [s[0]] + before;
    } else {
      before := "";
    }
  }

  lemma {:induction false} TrimmedSpace(s: string) returns (after: string)
    ensures s == TrimEnd(s) + after && forall c | c in after :: IsSpace(c)
    ensures TrimEnd(s) != "" ==> !IsSpace(TrimEnd(s)[|TrimEnd(s)| - 1])
  {
    hide IsSpace;
    if s != "" && IsSpace(s[|s| - 1]) {
      after := TrimmedSpace(s[..|s| - 1]);
      after := after + [s[|s| - 1]];
    } else {
      after := "";
    }
  }

  lemma {:induction false} JoinLacks(parts: seq<string>, sep: char, c: char)
    requires c != sep && forall i | 0 <= i < |parts| :: Lacks(parts[i], c)
    ensures Lacks(Join(parts, sep), c)
  {
    if |parts| > 1 { JoinLacks(parts[1..], sep, c); }
  }

  lemma DigitsLack(s: string, sep: char)
    requires AllDigits(s) && !IsDigit(sep)
    ensures Lacks(s, sep)
  {
  }
}
