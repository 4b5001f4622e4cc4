// The audit log on disk (packages/engine/src/audit-store.ts): append, rotate,
// prune. Lines are texts including their line feed; a rotated file is named by
// the clock reading of its rotation, and names sort as those readings do.
module AuditLog {
  import opened Wrappers

  type Line = string
  type File = seq<Line>
  type Millis = int

  function Size(file: File): nat {
    if file == [] then 0 else Size(file[..|file| - 1]) + |file[|file| - 1]|
  }

  function Flatten(files: seq<File>): File {
    if files == [] then [] else Flatten(files[..|files| - 1]) + files[|files| - 1]
  }

  function TotalSize(files: seq<File>): nat {
    if files == [] then 0 else TotalSize(files[..|files| - 1]) + Size(files[|files| - 1])
  }

  // ── The log as a list of files ───────────────────────────────────────────

  datatype Log = Log(files: seq<File>, current: File)

  datatype Limits = Limits(maxBytes: nat, retentionCount: nat)

  function Newest<T>(list: seq<T>, n: nat): seq<T> {
    if |list| > n then list[|list| - n..] else list
  }

  function AppendTo(log: Log, line: Line, limits: Limits): Log {
    var current := log.current + [line];
    if Size(current) > limits.maxBytes
    then Log(Newest(log.files + [current], limits.retentionCount), [])
    else Log(log.files, current)
  }

  function LogOf(lines: seq<Line>, limits: Limits): Log {
    if lines == [] then Log([], []) else AppendTo(LogOf(lines[..|lines| - 1], limits), lines[|lines| - 1], limits)
  }

  function Longest(lines: seq<Line>): nat {
    if lines == [] then 0
    else if |lines[|lines| - 1]| > Longest(lines[..|lines| - 1]) then |lines[|lines| - 1]|
    else Longest(lines[..|lines| - 1])
  }

  lemma {:induction false} LongestMeaning(lines: seq<Line>)
    ensures forall line | line in lines :: |line| <= Longest(lines)
    ensures lines != [] ==> exists line | line in lines :: |line| == Longest(lines)
  {
    if lines != [] {
      var init, last := lines[..|lines| - 1], lines[|lines| - 1];
      LongestMeaning(init);
      assert lines == init + [last];
    }
  }

  ghost predicate Suffix(kept: seq<Line>, lines: seq<Line>) {
    |kept| <= |lines| && kept == lines[|lines| - |kept|..]
  }

  function Retained(log: Log): seq<Line> { Flatten(log.files) + log.current }

  ghost predicate Bounded(log: Log, limits: Limits, longest: nat) {
    && |log.files| <= limits.retentionCount
    && Size(log.current) <= limits.maxBytes
    && forall i | 0 <= i < |log.files| :: limits.maxBytes < Size(log.files[i]) <= limits.maxBytes + longest
  }

  lemma {:induction false} FlattenConcat(a: seq<File>, b: seq<File>)
    ensures Flatten(a + b) == Flatten(a) + Flatten(b)
  {
    if b == [] {
      assert a + b == a;
    } else {
      FlattenConcat(a, b[..|b| - 1]);
      assert (a + b)[..|a + b| - 1] == a + b[..|b| - 1];
    }
  }

  lemma NewestIsSuffix(files: seq<File>, n: nat)
    ensures Flatten(files) == Flatten(files[..|files| - |Newest(files, n)|]) + Flatten(Newest(files, n))
  {
    var cut := |files| - |Newest(files, n)|;
    assert files == files[..cut] + files[cut..] && Newest(files, n) == files[cut..];
    FlattenConcat(files[..cut], files[cut..]);
  }

  lemma SuffixThen(kept: seq<Line>, lines: seq<Line>, dropped: seq<Line>, rest: seq<Line>, line: Line)
    requires Suffix(kept, lines) && kept + [line] == dropped + rest
    ensures Suffix(rest, lines + [line])
  {
    var all := lines + [line];
    assert all == lines[..|lines| - |kept|] + (kept + [line]);
    assert all[|all| - |rest|..] == rest;
  }

  lemma AppendKeepsSuffix(log: Log, lines: seq<Line>, line: Line, limits: Limits)
    requires Suffix(Retained(log), lines)
    ensures Suffix(Retained(AppendTo(log, line, limits)), lines + [line])
  {
    hide Suffix, Size;
    var current := log.current + [line];
    assert Flatten(log.files) + current == Retained(log) + [line];
    if Size(current) > limits.maxBytes {
      var all := log.files + [current];
      var kept := Newest(all, limits.retentionCount);
      assert all[..|all| - 1] == log.files && Flatten(all) == Retained(log) + [line];
      NewestIsSuffix(all, limits.retentionCount);
      assert Flatten(kept) + [] == Flatten(kept);
      SuffixThen(Retained(log), lines, Flatten(all[..|all| - |kept|]), Flatten(kept), line);
    } else {
      assert Retained(log) + [line] == [] + (Flatten(log.files) + current);
      SuffixThen(Retained(log), lines, [], Flatten(log.files) + current, line);
    }
  }

  // Whatever is appended, the files in name order followed by the current file
  // are the last events of the history.
  lemma {:induction false} RetainedIsSuffix(lines: seq<Line>, limits: Limits)
    ensures Suffix(Retained(LogOf(lines, limits)), lines)
  {
    if lines != [] {
      hide AppendTo, Retained;
      var init, line := lines[..|lines| - 1], lines[|lines| - 1];
      RetainedIsSuffix(init, limits);
      AppendKeepsSuffix(LogOf(init, limits), init, line, limits);
      assert lines == init + [line];
    }
  }

  lemma OneMoreLine(file: File, line: Line)
    ensures Size(file + [line]) == Size(file) + |line|
  {
    assert (file + [line])[..|file|] == file;
  }

  lemma AppendKeepsBound(log: Log, line: Line, limits: Limits, longest: nat)
    requires Bounded(log, limits, longest)
    ensures Bounded(AppendTo(log, line, limits), limits, if |line| > longest then |line| else longest)
  {
    hide Size;
    OneMoreLine(log.current, line);
    assert Size([]) == 0 by { EmptySize(); }
    var all := log.files + [log.current + [line]];
    assert forall i | 0 <= i < |Newest(all, limits.retentionCount)| ::
      Newest(all, limits.retentionCount)[i] == all[|all| - |Newest(all, limits.retentionCount)| + i];
  }

  lemma EmptySize()
    ensures Size([]) == 0
  {
  }

  lemma {:induction false} AlwaysBounded(lines: seq<Line>, limits: Limits)
    ensures Bounded(LogOf(lines, limits), limits, Longest(lines))
  {
    if lines != [] {
      AlwaysBounded(lines[..|lines| - 1], limits);
      hide AppendTo, Bounded;
      AppendKeepsBound(LogOf(lines[..|lines| - 1], limits), lines[|lines| - 1], limits, Longest(lines[..|lines| - 1]));
    }
  }

  lemma {:induction false} TotalBounds(files: seq<File>, low: nat, high: nat)
    requires forall i | 0 <= i < |files| :: low < Size(files[i]) <= high
    ensures |files| * low <= TotalSize(files) <= |files| * high
  {
    if files != [] {
      hide Size;
      TotalBounds(files[..|files| - 1], low, high);
      TimesNext(|files|, low);
      TimesNext(|files|, high);
    }
  }

  lemma TimesNext(n: nat, c: nat)
    requires n > 0
    ensures n * c == (n - 1) * c + c
  {
  }

  // The disk never holds more than this, and nothing is dropped before
  // `retentionCount` files, each over `maxBytes`, are full.
  lemma DiskBound(lines: seq<Line>, limits: Limits)
    ensures var log := LogOf(lines, limits);
            && TotalSize(log.files) + Size(log.current) <=
               limits.retentionCount * (limits.maxBytes + Longest(lines)) + limits.maxBytes
            && (Retained(log) == lines || TotalSize(log.files) >= limits.retentionCount * limits.maxBytes)
  {
    hide LogOf, Longest;
    AlwaysBounded(lines, limits);
    var log := LogOf(lines, limits);
    var high := limits.maxBytes + Longest(lines);
    TotalBounds(log.files, limits.maxBytes, high);
    Monotone(|log.files|, limits.retentionCount, high);
    DroppedOnlyWhenFull(lines, limits);
  }

  lemma Monotone(a: nat, b: nat, c: nat)
    requires a <= b
    ensures a * c <= b * c
  {
  }

  lemma AppendDropsNothing(log: Log, line: Line, limits: Limits)
    requires |log.files| <= limits.retentionCount
    ensures var t := AppendTo(log, line, limits);
            Retained(t) == Retained(log) + [line] || |t.files| == limits.retentionCount
  {
    hide Size;
    var current := log.current + [line];
    assert (log.files + [current])[..|log.files|] == log.files;
    assert Flatten(log.files + [current]) == Flatten(log.files) + current == Retained(log) + [line];
  }

  lemma LogOfLast(lines: seq<Line>, limits: Limits)
    requires lines != []
    ensures LogOf(lines, limits) == AppendTo(LogOf(lines[..|lines| - 1], limits), lines[|lines| - 1], limits)
  {
  }

  lemma {:induction false} DroppedOnlyWhenFull(lines: seq<Line>, limits: Limits)
    ensures Retained(LogOf(lines, limits)) == lines || |LogOf(lines, limits).files| == limits.retentionCount
  {
    if lines == [] {
      assert Retained(LogOf(lines, limits)) == [];
    } else {
      var init, line := lines[..|lines| - 1], lines[|lines| - 1];
      DroppedOnlyWhenFull(init, limits);
      FewFiles(init, limits);
      LogOfLast(lines, limits);
      assert lines == init + [line];
      hide *;
      AppendDropsNothing(LogOf(init, limits), line, limits);
      if |LogOf(init, limits).files| == limits.retentionCount { AppendStaysFull(LogOf(init, limits), line, limits); }
    }
  }

  lemma FewFiles(lines: seq<Line>, limits: Limits)
    ensures |LogOf(lines, limits).files| <= limits.retentionCount
  {
    AlwaysBounded(lines, limits);
  }

  lemma AppendStaysFull(log: Log, line: Line, limits: Limits)
    requires |log.files| == limits.retentionCount
    ensures |AppendTo(log, line, limits).files| == limits.retentionCount
  {
  }

  // ── The directory ────────────────────────────────────────────────────────

  lemma SomeName(s: set<Millis>)
    ensures s == {} || exists m: Millis :: m in s
  {
    if forall m: Millis :: m !in s { assert s == {}; }
  }

  lemma {:induction false} HasLatest(s: set<Millis>) returns (m: Millis)
    requires s != {}
    ensures m in s && forall x | x in s :: x <= m
  {
    SomeName(s);
    m :| m in s;
    var rest := s - {m};
    assert forall x | x in s :: x in rest || x == m;
    if rest != {} {
      var n := HasLatest(rest);
      if n > m { m := n; }
    }
  }

  ghost function Latest(s: set<Millis>): (m: Millis)
    requires s != {}
    ensures m in s && forall x | x in s :: x <= m
  {
    assert exists m :: m in s && forall x | x in s :: x <= m by { var m := HasLatest(s); }
    var m :| m in s && forall x | x in s :: x <= m;
    m
  }

  lemma NamesStep(s: set<Millis>, m: Millis, r: seq<Millis>)
    requires m in s && forall x | x in s :: x <= m
    requires |r| == |s - {m}| && forall x :: x in r <==> x in s - {m}
    requires forall i, j | 0 <= i < j < |r| :: r[i] < r[j]
    ensures |r + [m]| == |s| && forall x :: x in r + [m] <==> x in s
    ensures forall i, j | 0 <= i < j < |r + [m]| :: (r + [m])[i] < (r + [m])[j]
  {
    assert forall i | 0 <= i < |r| :: r[i] in r;
  }

  // The names in sorted order.
  ghost function Names(s: set<Millis>): (r: seq<Millis>)
    ensures |r| == |s| && forall x :: x in r <==> x in s
    ensures forall i, j | 0 <= i < j < |r| :: r[i] < r[j]
  {
    if s == {} then []
    else
      var m := Latest(s);
      var rest := Names(s - {m});
      NamesStep(s, m, rest);
      rest + [m]
  }

  lemma LastIsLatest(r: seq<Millis>, s: set<Millis>)
    requires r != [] && forall i, j | 0 <= i < j < |r| :: r[i] < r[j]
    requires forall x :: x in r <==> x in s
    ensures var last := r[|r| - 1]; last in s && Latest(s) == last && forall x :: x in r[..|r| - 1] <==> x in s - {last}
  {
    hide Latest;
    var init, last := r[..|r| - 1], r[|r| - 1];
    assert last in r && r == init + [last];
    assert Latest(s) in r;
  }

  lemma NamesEndWithLatest(s: set<Millis>)
    ensures s == {} ==> Names(s) == []
    ensures s != {} ==> Names(s) == Names(s - {Latest(s)}) + [Latest(s)]
  {
    hide Latest;
  }

  // A strictly ascending list is the sorted order of its own members.
  lemma {:induction false} NamesUnique(r: seq<Millis>, s: set<Millis>)
    requires forall i, j | 0 <= i < j < |r| :: r[i] < r[j]
    requires forall x :: x in r <==> x in s
    ensures Names(s) == r
  {
    hide Latest, Names;
    NamesEndWithLatest(s);
    assert r == [] || r[0] in r;
    if s != {} {
      assert Latest(s) in r;
      LastIsLatest(r, s);
      NamesUnique(r[..|r| - 1], s - {r[|r| - 1]});
    }
  }

  function FileAt(rotated: map<Millis, File>, name: Millis): File {
    if name in rotated then rotated[name] else []
  }

  function FilesOf(rotated: map<Millis, File>, names: seq<Millis>): (r: seq<File>)
    ensures |r| == |names| && forall i | 0 <= i < |r| :: r[i] == FileAt(rotated, names[i])
  {
    seq(|names|, i requires 0 <= i < |names| => FileAt(rotated, names[i]))
  }

  // `names.sort()`
  method SortNames(names: set<Millis>) returns (r: seq<Millis>)
    ensures r == Names(names)
  {
    r := [];
    var rest := names;
    while rest != {}
      invariant rest <= names && forall x :: x in r <==> x in names - rest
      invariant forall i, j | 0 <= i < j < |r| :: r[i] < r[j]
      decreases rest
    {
      SomeName(rest);
      var name :| name in rest;
      var i := 0;
      while i < |r| && r[i] < name
        invariant 0 <= i <= |r| && forall j | 0 <= j < i :: r[j] < name
      {
        i := i + 1;
      }
      assert name !in r;
      Inserted(r, i, name);
      r, rest := r[..i] + [name] + r[i..], rest - {name};
    }
    NamesUnique(r, names);
  }

  lemma Inserted(r: seq<Millis>, i: nat, name: Millis)
    requires forall a, b | 0 <= a < b < |r| :: r[a] < r[b]
    requires i <= |r| && name !in r && (forall j | 0 <= j < i :: r[j] < name) && (i < |r| ==> r[i] >= name)
    ensures var t := r[..i] + [name] + r[i..];
            (forall a, b | 0 <= a < b < |t| :: t[a] < t[b]) && forall x :: x in t <==> x in r || x == name
  {
    var t := r[..i] + [name] + r[i..];
    assert i < |r| ==> r[i] in r;
    assert forall j | 0 <= j < |r| :: r[j] == t[if j < i then j else j + 1];
  }

  function Reversed(names: seq<Millis>): (r: seq<Millis>)
    ensures |r| == |names| && forall i | 0 <= i < |r| :: r[i] == names[|names| - 1 - i]
  {
    seq(|names|, i requires 0 <= i < |names| => names[|names| - 1 - i])
  }

  ghost function KeptFiles(rotated: map<Millis, File>, n: nat): map<Millis, File> {
    map name | name in rotated && name in Newest(Names(rotated.Keys), n) :: rotated[name]
  }

  function Without(rotated: map<Millis, File>, names: seq<Millis>): map<Millis, File> {
    map name | name in rotated && name !in names :: rotated[name]
  }

  lemma WithoutNone(rotated: map<Millis, File>, names: seq<Millis>)
    ensures Without(rotated, names[..0]) == rotated
  {
  }

  lemma WithoutMore(rotated: map<Millis, File>, names: seq<Millis>, i: nat)
    requires i < |names|
    ensures Without(rotated, names[..i + 1]) == Without(rotated, names[..i]) - {names[i]}
  {
  }

  // Deleting the tail of the reversed list leaves the newest files.
  lemma OldestDeleted(rotated: map<Millis, File>, names: seq<Millis>, newestFirst: seq<Millis>, n: nat)
    requires names == Names(rotated.Keys) && newestFirst == Reversed(names)
    ensures Without(rotated, newestFirst[if n < |newestFirst| then n else |newestFirst|..]) == KeptFiles(rotated, n)
  {
    hide Names, Newest, Reversed;
    DeletedAreOldest(names, newestFirst, n);
  }

  lemma DeletedAreOldest(names: seq<Millis>, newestFirst: seq<Millis>, n: nat)
    requires newestFirst == Reversed(names) && forall i, j | 0 <= i < j < |names| :: names[i] < names[j]
    ensures forall x | x in names :: x in Newest(names, n) <==>
              x !in newestFirst[if n < |newestFirst| then n else |newestFirst|..]
  {
    if n < |names| {
      var k := |names| - n;
      assert forall i | 0 <= i < k :: names[i] == newestFirst[n..][k - 1 - i];
      assert forall i | 0 <= i < k :: newestFirst[n..][i] == names[k - 1 - i];
      forall x | x in names ensures x in names[k..] <==> x !in newestFirst[n..] {
        var i :| 0 <= i < |names| && names[i] == x;
        if i >= k { assert names[k..][i - k] == x; }
      }
    }
  }

  datatype Directory = Directory(rotated: map<Millis, File>, current: Option<File>)

  ghost function LogIn(d: Directory): Log {
    Log(FilesOf(d.rotated, Names(d.rotated.Keys)), d.current.GetOr([]))
  }

  // One append at a clock reading; a rotation replaces a file of that name.
  ghost function AppendIn(d: Directory, line: Line, clock: Millis, limits: Limits): Directory {
    var file := d.current.GetOr([]) + [line];
    if Size(file) > limits.maxBytes
    then Directory(KeptFiles(d.rotated[clock := file], limits.retentionCount), None)
    else Directory(d.rotated, Some(file))
  }

  ghost function DirectoryOf(lines: seq<Line>, clocks: seq<Millis>, limits: Limits): Directory
    requires |lines| == |clocks|
  {
    if lines == [] then Directory(map[], None)
    else
      var n := |lines| - 1;
      AppendIn(DirectoryOf(lines[..n], clocks[..n], limits), lines[n], clocks[n], limits)
  }

  lemma NamesThen(rotated: map<Millis, File>, clock: Millis, file: File)
    requires forall name | name in rotated :: name < clock
    ensures Names(rotated[clock := file].Keys) == Names(rotated.Keys) + [clock]
  {
    NamesUnique(Names(rotated.Keys) + [clock], rotated[clock := file].Keys);
  }

  lemma KeptNames(rotated: map<Millis, File>, n: nat)
    ensures Names(KeptFiles(rotated, n).Keys) == Newest(Names(rotated.Keys), n)
  {
    hide Names;
    var names := Names(rotated.Keys);
    assert forall x | x in Newest(names, n) :: x in names;
    NamesUnique(Newest(names, n), KeptFiles(rotated, n).Keys);
  }

  lemma FilesThen(rotated: map<Millis, File>, names: seq<Millis>, clock: Millis, file: File)
    requires clock !in names
    ensures FilesOf(rotated[clock := file], names + [clock]) == FilesOf(rotated, names) + [file]
  {
    assert forall i | 0 <= i < |names| :: names[i] != clock;
  }

  lemma FilesKept(rotated: map<Millis, File>, n: nat)
    ensures FilesOf(KeptFiles(rotated, n), Newest(Names(rotated.Keys), n)) ==
            Newest(FilesOf(rotated, Names(rotated.Keys)), n)
  {
    hide Names, FilesOf, KeptFiles, FileAt;
    var names := Names(rotated.Keys);
    var cut := if |names| > n then |names| - n else 0;
    forall i | cut <= i < |names| ensures FileAt(KeptFiles(rotated, n), names[i]) == FileAt(rotated, names[i]) {
      KeptAt(rotated, n, names[i], i - cut);
    }
    FilesFrom(rotated, KeptFiles(rotated, n), names, cut);
    assert Newest(names, n) == names[cut..] && Newest(FilesOf(rotated, names), n) == FilesOf(rotated, names)[cut..];
  }

  lemma KeptAt(rotated: map<Millis, File>, n: nat, name: Millis, i: nat)
    requires i < |Newest(Names(rotated.Keys), n)| && Newest(Names(rotated.Keys), n)[i] == name
    ensures FileAt(KeptFiles(rotated, n), name) == FileAt(rotated, name)
  {
  }

  lemma FilesFrom(rotated: map<Millis, File>, kept: map<Millis, File>, names: seq<Millis>, cut: nat)
    requires cut <= |names| && forall i | cut <= i < |names| :: FileAt(kept, names[i]) == FileAt(rotated, names[i])
    ensures FilesOf(kept, names[cut..]) == FilesOf(rotated, names)[cut..]
  {
  }

  // A rotation under a new, latest name is a rotation of the list of files.
  lemma RotationRefines(rotated: map<Millis, File>, clock: Millis, file: File, n: nat)
    requires forall name | name in rotated :: name < clock
    ensures var kept := KeptFiles(rotated[clock := file], n);
            FilesOf(kept, Names(kept.Keys)) == Newest(FilesOf(rotated, Names(rotated.Keys)) + [file], n)
  {
    hide Names, KeptFiles, FilesOf, Newest;
    NamesThen(rotated, clock, file);
    KeptNames(rotated[clock := file], n);
    FilesKept(rotated[clock := file], n);
    FilesThen(rotated, Names(rotated.Keys), clock, file);
  }

  // A rotation in the same millisecond as the last one replaces that file,
  // whatever events it held.
  lemma SameNameReplaces(rotated: map<Millis, File>, clock: Millis, file: File, n: nat)
    requires clock in rotated && forall name | name in rotated :: name <= clock
    ensures var kept := KeptFiles(rotated[clock := file], n);
            var files := FilesOf(rotated, Names(rotated.Keys));
            files != [] && files[|files| - 1] == rotated[clock] &&
            FilesOf(kept, Names(kept.Keys)) == Newest(files[|files| - 1 := file], n)
  {
    hide Names, KeptFiles, Newest;
    var names := Names(rotated.Keys);
    assert clock in names && names[|names| - 1] in names;
    assert names[|names| - 1] == clock;
    assert rotated[clock := file].Keys == rotated.Keys;
    KeptNames(rotated[clock := file], n);
    FilesKept(rotated[clock := file], n);
    assert FilesOf(rotated[clock := file], names) == FilesOf(rotated, names)[|names| - 1 := file];
  }

  // The append of `lines[k]` rotates: only then is the clock read.
  predicate Rotates(lines: seq<Line>, limits: Limits, k: nat)
    requires k < |lines|
  {
    Size(LogOf(lines[..k], limits).current + [lines[k]]) > limits.maxBytes
  }

  ghost predicate RotationsAdvance(lines: seq<Line>, clocks: seq<Millis>, limits: Limits)
    requires |lines| == |clocks|
  {
    forall i, j | 0 <= i < j < |lines| && Rotates(lines, limits, i) && Rotates(lines, limits, j) ::
        clocks[i] < clocks[j]
  }

  lemma RotatesBefore(lines: seq<Line>, limits: Limits, n: nat, k: nat)
    requires k < n <= |lines|
    ensures Rotates(lines[..n], limits, k) <==> Rotates(lines, limits, k)
  {
    assert lines[..n][..k] == lines[..k];
  }

  lemma AppendRefines(d: Directory, line: Line, clock: Millis, limits: Limits)
    requires Size(d.current.GetOr([]) + [line]) > limits.maxBytes ==> forall name | name in d.rotated :: name < clock
    ensures LogIn(AppendIn(d, line, clock, limits)) == AppendTo(LogIn(d), line, limits)
  {
    hide Size, Names, FilesOf, KeptFiles;
    var file := d.current.GetOr([]) + [line];
    if Size(file) > limits.maxBytes { RotationRefines(d.rotated, clock, file, limits.retentionCount); }
  }

  ghost predicate NamedByRotations(d: Directory, lines: seq<Line>, clocks: seq<Millis>, limits: Limits)
    requires |lines| == |clocks|
  {
    forall name | name in d.rotated :: exists i :: 0 <= i < |lines| && Rotates(lines, limits, i) && clocks[i] == name
  }

  lemma NamesOfMore(d: Directory, lines: seq<Line>, clocks: seq<Millis>, limits: Limits)
    requires |lines| == |clocks| > 0
    requires NamedByRotations(d, lines[..|lines| - 1], clocks[..|lines| - 1], limits)
    requires d.current.GetOr([]) == LogOf(lines[..|lines| - 1], limits).current
    ensures NamedByRotations(AppendIn(d, lines[|lines| - 1], clocks[|lines| - 1], limits), lines, clocks, limits)
    ensures RotationsAdvance(lines, clocks, limits) && Rotates(lines, limits, |lines| - 1) ==>
              forall name | name in d.rotated :: name < clocks[|lines| - 1]
  {
    hide Size, LogOf, Names;
    var n := |lines| - 1;
    forall name | name in d.rotated ensures exists i :: 0 <= i < n && Rotates(lines, limits, i) && clocks[i] == name {
      var i :| 0 <= i < n && Rotates(lines[..n], limits, i) && clocks[..n][i] == name;
      RotatesBefore(lines, limits, n, i);
    }
  }

  lemma AdvanceBefore(lines: seq<Line>, clocks: seq<Millis>, limits: Limits, n: nat)
    requires |lines| == |clocks| && n <= |lines| && RotationsAdvance(lines, clocks, limits)
    ensures RotationsAdvance(lines[..n], clocks[..n], limits)
  {
    hide Rotates;
    forall i, j | 0 <= i < j < n && Rotates(lines[..n], limits, i) && Rotates(lines[..n], limits, j)
      ensures clocks[..n][i] < clocks[..n][j]
    {
      RotatesBefore(lines, limits, n, i);
      RotatesBefore(lines, limits, n, j);
    }
  }

  // From an empty directory and rotations whose times increase, the files on
  // disk are those of the list model after every append.
  lemma {:induction false} DirectoryRefinesLog(lines: seq<Line>, clocks: seq<Millis>, limits: Limits)
    requires |lines| == |clocks| && RotationsAdvance(lines, clocks, limits)
    ensures LogIn(DirectoryOf(lines, clocks, limits)) == LogOf(lines, limits)
    ensures NamedByRotations(DirectoryOf(lines, clocks, limits), lines, clocks, limits)
  {
    if lines == [] {
      EmptyDirectory(clocks, limits);
    } else {
      var n := |lines| - 1;
      AdvanceBefore(lines, clocks, limits, n);
      DirectoryRefinesLog(lines[..n], clocks[..n], limits);
      var d := DirectoryOf(lines[..n], clocks[..n], limits);
      LogOfLast(lines, limits);
      DirectoryOfLast(lines, clocks, limits);
      NamesOfMore(d, lines, clocks, limits);
      assert Size(d.current.GetOr([]) + [lines[n]]) > limits.maxBytes ==> Rotates(lines, limits, n);
      hide *;
      AppendRefines(d, lines[n], clocks[n], limits);
    }
  }

  lemma EmptyDirectory(clocks: seq<Millis>, limits: Limits)
    requires clocks == []
    ensures LogIn(DirectoryOf([], clocks, limits)) == LogOf([], limits)
    ensures NamedByRotations(DirectoryOf([], clocks, limits), [], clocks, limits)
  {
    var none: map<Millis, File> := map[];
    assert FilesOf(none, Names(none.Keys)) == [];
  }

  lemma DirectoryOfLast(lines: seq<Line>, clocks: seq<Millis>, limits: Limits)
    requires |lines| == |clocks| > 0
    ensures var n := |lines| - 1;
            DirectoryOf(lines, clocks, limits) ==
              AppendIn(DirectoryOf(lines[..n], clocks[..n], limits), lines[n], clocks[n], limits)
  {
  }

  // ── Names that collide ───────────────────────────────────────────────────

  // Every event carries its own identifier, so no two lines are the same.
  ghost predicate DistinctLines(lines: seq<Line>) {
    forall i, j | 0 <= i < j < |lines| :: lines[i] != lines[j]
  }

  lemma LastOfFlatten(files: seq<File>)
    requires files != [] && files[|files| - 1] != []
    ensures var last := files[|files| - 1];
            Flatten(files) != [] && Flatten(files)[|Flatten(files)| - 1] == last[|last| - 1]
  {
  }

  // A list in which something is missing just before its tail is no suffix.
  lemma GapIsNoSuffix(before: seq<Line>, gap: seq<Line>, tail: seq<Line>, kept: seq<Line>)
    requires DistinctLines(before + gap + tail) && gap != [] && before != []
    requires kept != [] && kept[|kept| - 1] == before[|before| - 1]
    ensures !Suffix(kept + tail, before + gap + tail)
  {
    var all, rest := before + gap + tail, kept + tail;
    var i := |all| - |tail| - 1;
    assert all[|before| - 1] == before[|before| - 1] && all[|before| - 1] != all[i];
    if Suffix(rest, all) {
      SuffixAt(rest, all, |kept| - 1);
      assert false;
    }
  }

  lemma SuffixAt(kept: seq<Line>, lines: seq<Line>, k: nat)
    requires Suffix(kept, lines) && k < |kept|
    ensures kept[k] == lines[|lines| - |kept| + k]
  {
  }

  // What a rotation leaves when it replaces the last of the files.
  lemma ReplacementSuffix(init: seq<File>, gone: File, current: File, line: Line, lines: seq<Line>, n: nat)
    requires Suffix(Flatten(init + [gone]) + current, lines) && DistinctLines(lines + [line])
    requires gone != [] && forall i | 0 <= i < |init| :: init[i] != []
    ensures Suffix(Flatten(Newest(init + [current + [line]], n)), lines + [line]) <==> n <= 1 || init == []
  {
    hide *;
    var file := current + [line];
    OneMoreFile(init, gone);
    if n <= 1 || init == [] {
      NewestAlone(init, file, n);
      AloneIsSuffix(Flatten(init) + gone, current, line, lines, n);
    } else {
      NewestWithOlder(init, file, n);
      LostInBetween(lines, line, Flatten(init), gone, current, Flatten(Newest(init, n - 1)));
    }
  }

  lemma NewestWithOlder(init: seq<File>, file: File, n: nat)
    requires n > 1 && init != [] && init[|init| - 1] != []
    ensures var kept := Flatten(Newest(init, n - 1));
            && Flatten(Newest(init + [file], n)) == kept + file
            && Flatten(init) != [] && kept != [] && kept[|kept| - 1] == Flatten(init)[|Flatten(init)| - 1]
  {
    hide Flatten;
    var kept := Newest(init, n - 1);
    assert Newest(init + [file], n) == kept + [file];
    OneMoreFile(kept, file);
    assert kept[|kept| - 1] == init[|init| - 1];
    LastOfFlatten(init);
    LastOfFlatten(kept);
  }

  lemma NewestAlone(init: seq<File>, file: File, n: nat)
    requires n <= 1 || init == []
    ensures Flatten(Newest(init + [file], n)) == if n == 0 then [] else file
  {
    if n == 0 {
      assert Newest(init + [file], n) == [];
    } else {
      assert Newest(init + [file], n) == [] + [file];
      OneMoreFile([], file);
    }
  }

  lemma AloneIsSuffix(earlier: seq<Line>, current: File, line: Line, lines: seq<Line>, n: nat)
    requires Suffix(earlier + current, lines)
    ensures Suffix(if n == 0 then [] else current + [line], lines + [line])
  {
    hide Suffix;
    var had := earlier + current;
    if n == 0 {
      assert had + [line] == (had + [line]) + [];
      SuffixThen(had, lines, had + [line], [], line);
    } else {
      assert had + [line] == earlier + (current + [line]);
      SuffixThen(had, lines, earlier, current + [line], line);
    }
  }

  lemma LostInBetween(lines: seq<Line>, line: Line, before: seq<Line>, gone: File, current: File, kept: seq<Line>)
    requires Suffix(before + gone + current, lines) && DistinctLines(lines + [line]) && gone != [] && before != []
    requires kept != [] && kept[|kept| - 1] == before[|before| - 1]
    ensures !Suffix(kept + (current + [line]), lines + [line])
  {
    var cut := |lines| - |before + gone + current|;
    var all := lines[..cut] + before;
    assert lines == lines[..cut] + (before + gone + current);
    assert lines + [line] == all + gone + (current + [line]);
    hide Suffix, DistinctLines;
    GapIsNoSuffix(all, gone, current + [line], kept);
  }

  lemma OneMoreFile(files: seq<File>, file: File)
    ensures Flatten(files + [file]) == Flatten(files) + file
  {
    assert (files + [file])[..|files|] == files;
  }

  // With a clock that does not run backwards, a rotation leaves the end of the
  // history exactly when its name is new, or nothing older than the replaced
  // file is or stays on disk.
  lemma RotationKeepsSuffix(d: Directory, lines: seq<Line>, line: Line, clock: Millis, limits: Limits)
    requires Suffix(Retained(LogIn(d)), lines) && DistinctLines(lines + [line])
    requires forall name | name in d.rotated :: name <= clock && d.rotated[name] != []
    requires Size(d.current.GetOr([]) + [line]) > limits.maxBytes
    ensures Suffix(Retained(LogIn(AppendIn(d, line, clock, limits))), lines + [line]) <==>
            clock !in d.rotated || limits.retentionCount <= 1 || |d.rotated| == 1
  {
    hide Size, Names, KeptFiles, Suffix, DistinctLines, Flatten, Newest, FilesOf;
    if clock !in d.rotated {
      AppendRefines(d, line, clock, limits);
      AppendKeepsSuffix(LogIn(d), lines, line, limits);
    } else {
      CollisionKeepsSuffix(d, lines, line, clock, limits);
    }
  }

  lemma CollisionKeepsSuffix(d: Directory, lines: seq<Line>, line: Line, clock: Millis, limits: Limits)
    requires Suffix(Retained(LogIn(d)), lines) && DistinctLines(lines + [line])
    requires forall name | name in d.rotated :: name <= clock && d.rotated[name] != []
    requires Size(d.current.GetOr([]) + [line]) > limits.maxBytes && clock in d.rotated
    ensures Suffix(Retained(LogIn(AppendIn(d, line, clock, limits))), lines + [line]) <==>
            limits.retentionCount <= 1 || |d.rotated| == 1
  {
    hide *;
    var current := d.current.GetOr([]);
    var init, gone := CollisionFiles(d, line, clock, limits);
    ReplacementSuffix(init, gone, current, line, lines, limits.retentionCount);
  }

  lemma CollisionFiles(d: Directory, line: Line, clock: Millis, limits: Limits) returns (init: seq<File>, gone: File)
    requires forall name | name in d.rotated :: name <= clock && d.rotated[name] != []
    requires Size(d.current.GetOr([]) + [line]) > limits.maxBytes && clock in d.rotated
    ensures Retained(LogIn(d)) == Flatten(init + [gone]) + d.current.GetOr([])
    ensures var file := d.current.GetOr([]) + [line];
            Retained(LogIn(AppendIn(d, line, clock, limits))) == Flatten(Newest(init + [file], limits.retentionCount))
    ensures gone != [] && (forall i | 0 <= i < |init| :: init[i] != []) && (init == [] <==> |d.rotated| == 1)
  {
    hide Size, Names, KeptFiles, Flatten, Newest, FilesOf, FileAt, AppendIn;
    var file := d.current.GetOr([]) + [line];
    var files := FilesOf(d.rotated, Names(d.rotated.Keys));
    SameNameReplaces(d.rotated, clock, file, limits.retentionCount);
    FilesNonempty(d.rotated);
    init, gone := files[..|files| - 1], files[|files| - 1];
    SplitLast(files, file);
    AfterRotation(d, line, clock, limits, Newest(init + [file], limits.retentionCount));
    assert |d.rotated| == |d.rotated.Keys|;
  }

  lemma SplitLast(files: seq<File>, file: File)
    requires files != []
    ensures files[..|files| - 1] + [files[|files| - 1]] == files
    ensures files[|files| - 1 := file] == files[..|files| - 1] + [file]
  {
  }

  lemma FilesNonempty(rotated: map<Millis, File>)
    requires forall name | name in rotated :: rotated[name] != []
    ensures forall i | 0 <= i < |FilesOf(rotated, Names(rotated.Keys))| ::
              FilesOf(rotated, Names(rotated.Keys))[i] != []
  {
    hide Names, FilesOf;
    var names := Names(rotated.Keys);
    forall i | 0 <= i < |names| ensures FilesOf(rotated, names)[i] != [] { assert names[i] in rotated; }
  }

  lemma AfterRotation(d: Directory, line: Line, clock: Millis, limits: Limits, files: seq<File>)
    requires Size(d.current.GetOr([]) + [line]) > limits.maxBytes
    requires var kept := KeptFiles(d.rotated[clock := d.current.GetOr([]) + [line]], limits.retentionCount);
             FilesOf(kept, Names(kept.Keys)) == files
    ensures Retained(LogIn(AppendIn(d, line, clock, limits))) == Flatten(files)
  {
    hide Size, Names, KeptFiles, FilesOf, Flatten;
    assert Flatten(files) + [] == Flatten(files);
  }

  lemma {:induction false} RunDirectory(lines: seq<Line>, clocks: seq<Millis>, limits: Limits)
    requires |lines| == |clocks|
    ensures forall name | name in DirectoryOf(lines, clocks, limits).rotated ::
              name in clocks && DirectoryOf(lines, clocks, limits).rotated[name] != []
  {
    hide Size, Names;
    if lines != [] {
      RunDirectory(lines[..|lines| - 1], clocks[..|lines| - 1], limits);
      assert clocks == clocks[..|lines| - 1] + [clocks[|lines| - 1]];
    }
  }

  // The same along a run from an empty directory.
  lemma RunKeepsSuffixExactly(lines: seq<Line>, clocks: seq<Millis>, line: Line, clock: Millis, limits: Limits)
    requires |lines| == |clocks| && DistinctLines(lines + [line]) && forall i | 0 <= i < |clocks| :: clocks[i] <= clock
    requires Suffix(Retained(LogIn(DirectoryOf(lines, clocks, limits))), lines)
    requires Size(DirectoryOf(lines, clocks, limits).current.GetOr([]) + [line]) > limits.maxBytes
    ensures var d := DirectoryOf(lines, clocks, limits);
            Suffix(Retained(LogIn(DirectoryOf(lines + [line], clocks + [clock], limits))), lines + [line]) <==>
            clock !in d.rotated || limits.retentionCount <= 1 || |d.rotated| == 1
  {
    RunDirectory(lines, clocks, limits);
    DirectoryOfLast(lines + [line], clocks + [clock], limits);
    assert (lines + [line])[..|lines|] == lines && (clocks + [clock])[..|lines|] == clocks;
    hide *;
    RotationKeepsSuffix(DirectoryOf(lines, clocks, limits), lines, line, clock, limits);
  }

  // Three events, each over the limit, the last two rotated in the same
  // millisecond: the second is lost and the first is not.
  lemma SameNameLosesEvents()
    ensures !Suffix(Retained(LogIn(DirectoryOf(["a", "b", "c"], [1, 2, 2], Limits(0, 3)))), ["a", "b", "c"])
  {
    hide *;
    var lines, clocks: seq<Millis> := ["a", "b"], [1, 2];
    AfterTwo(lines, clocks, Limits(0, 3));
    assert lines + ["c"] == ["a", "b", "c"] && clocks + [2] == [1, 2, 2];
    ThreeLines();
    RunKeepsSuffixExactly(lines, clocks, "c", 2, Limits(0, 3));
  }

  lemma AfterTwo(lines: seq<Line>, clocks: seq<Millis>, limits: Limits)
    requires lines == ["a", "b"] && clocks == [1, 2] && limits == Limits(0, 3)
    ensures var d := DirectoryOf(lines, clocks, limits);
            && Suffix(Retained(LogIn(d)), lines) && Size(d.current.GetOr([]) + ["c"]) > limits.maxBytes
            && 2 in d.rotated && |d.rotated| == 2
  {
    hide *;
    LogOfTwo(lines, limits);
    Advancing(lines, clocks, limits);
    DirectoryRefinesLog(lines, clocks, limits);
    RetainedIsSuffix(lines, limits);
    RunDirectory(lines, clocks, limits);
    TwoNames(DirectoryOf(lines, clocks, limits), clocks);
    OneMoreLine([], "c");
  }

  lemma Advancing(lines: seq<Line>, clocks: seq<Millis>, limits: Limits)
    requires |lines| == |clocks| && forall i, j | 0 <= i < j < |clocks| :: clocks[i] < clocks[j]
    ensures RotationsAdvance(lines, clocks, limits)
  {
    hide Rotates;
  }

  lemma TwoNames(d: Directory, clocks: seq<Millis>)
    requires LogIn(d) == Log([["a"], ["b"]], []) && clocks == [1, 2]
    requires forall name | name in d.rotated :: name in clocks
    ensures 2 in d.rotated && |d.rotated| == 2 && d.current.GetOr([]) == []
  {
    hide Names;
    var names := Names(d.rotated.Keys);
    assert |names| == 2 && names[0] in clocks && names[1] in clocks;
    assert names[0] < names[1];
    assert names[1] in d.rotated;
  }

  lemma ThreeLines()
    ensures DistinctLines(["a", "b", "c"])
  {
  }

  lemma LogOfTwo(lines: seq<Line>, limits: Limits)
    requires lines == ["a", "b"] && limits == Limits(0, 3)
    ensures LogOf(lines, limits) == Log([["a"], ["b"]], [])
  {
    assert lines[..1] == ["a"] && lines[..1][..0] == [];
    OneMoreLine([], "a");
    OneMoreLine([], "b");
    assert [] + ["a"] == ["a"] && [] + ["b"] == ["b"];
    LogOfLast(lines, limits);
    LogOfLast(lines[..1], limits);
  }

  class AuditStore {
    const limits: Limits
    var rotated: map<Millis, File>
    var current: Option<File>
    var handleOpen: bool

    ghost predicate Valid()
      reads this
    {
      handleOpen ==> current.Some?
    }

    ghost function View(): Directory
      reads this
    {
      Directory(rotated, current)
    }

    constructor (limits: Limits)
      ensures this.limits == limits && Valid() && View() == Directory(map[], None)
    {
      this.limits, rotated, current, handleOpen := limits, map[], None, false;
    }

    method PruneOldFiles()
      modifies this`rotated
      ensures rotated == KeptFiles(old(rotated), limits.retentionCount)
    {
      hide Names, Without, KeptFiles;
      var names := SortNames(rotated.Keys);
      var newestFirst := Reversed(names);
      var toDelete :=
          newestFirst[if limits.retentionCount < |newestFirst| then limits.retentionCount else |newestFirst|..];
      var i := 0;
      WithoutNone(rotated, toDelete);
      while i < |toDelete|
        invariant 0 <= i <= |toDelete| && rotated == Without(old(rotated), toDelete[..i])
      {
        WithoutMore(old(rotated), toDelete, i);
        rotated := rotated - {toDelete[i]};
        i := i + 1;
      }
      assert toDelete[..i] == toDelete;
      OldestDeleted(old(rotated), names, newestFirst, limits.retentionCount);
    }

    // doRotate, where a missing current file leaves nothing to do.
    method DoRotate(clock: Millis)
      requires Valid()
      modifies this
      ensures Valid() && !handleOpen
      ensures View() == (if old(current).None? then old(View())
                         else Directory(KeptFiles(old(rotated)[clock := old(current).value], limits.retentionCount),
                           None))
    {
      handleOpen := false;
      if current.None? { return; }
      rotated, current := rotated[clock := current.value], None;
      PruneOldFiles();
    }

    // doAppend
    method Append(line: Line, clock: Millis)
      requires Valid()
      modifies this
      ensures Valid() && View() == AppendIn(old(View()), line, clock, limits)
    {
      if !handleOpen {
        current, handleOpen := Some(current.GetOr([])), true;
      }
      current := Some(current.value + [line]);
      if Size(current.value) > limits.maxBytes {
        DoRotate(clock);
      }
    }

    // rotate: only an open file over the limit, which `Append` never leaves.
    method Rotate(clock: Millis) returns (rotatedNow: bool)
      requires Valid()
      modifies this
      ensures Valid()
      ensures rotatedNow <==> old(handleOpen) && Size(old(current).value) > limits.maxBytes
      ensures View() == if !rotatedNow then old(View())
                        else Directory(KeptFiles(old(rotated)[clock := old(current).value], limits.retentionCount),
                          None)
    {
      if !handleOpen || Size(current.value) <= limits.maxBytes { return false; }
      DoRotate(clock);
      return true;
    }
  }
}
