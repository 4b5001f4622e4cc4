// The fixed-window login limiter of the admin UI (packages/admin/src/app.ts).
// A handler reads the clock twice: when it checks the limit and when it
// records a failure.
module LoginLimiter {
  import opened Wrappers

  type Millis = int

  const LOGIN_WINDOW_MS := 10 * 60 * 1000
  const LOGIN_MAX_FAILURES := 8

  datatype Entry = Entry(count: nat, resetAt: Millis)

  datatype Attempt = Attempt(key: string, accepted: bool, checkedAt: Millis, recordedAt: Millis)

  datatype Reply = TooManyAttempts | InvalidToken | LoggedIn

  // ── One attempt ──────────────────────────────────────────────────────────

  function EntryOf(failures: map<string, Entry>, key: string): Option<Entry> {
    if key in failures then Some(failures[key]) else None
  }

  function ReplyTo(entry: Option<Entry>, a: Attempt): Reply {
    if entry.Some? && a.checkedAt <= entry.value.resetAt && entry.value.count >= LOGIN_MAX_FAILURES then TooManyAttempts
    else if a.accepted then LoggedIn
    else InvalidToken
  }

  function EntryAfter(entry: Option<Entry>, a: Attempt): Option<Entry> {
    match ReplyTo(entry, a)
    case TooManyAttempts => entry
    case LoggedIn => None
    case InvalidToken =>
      if entry.None? || a.checkedAt > entry.value.resetAt || a.recordedAt > entry.value.resetAt
      then Some(Entry(1, a.recordedAt + LOGIN_WINDOW_MS))
      else Some(Entry(entry.value.count + 1, entry.value.resetAt))
  }

  class Limiter {
    var failures: map<string, Entry>

    constructor ()
      ensures failures == map[]
    {
      failures := map[];
    }

    method IsRateLimited(key: string, now: Millis) returns (limited: bool)
      modifies this
      ensures failures ==
              (if key in old(failures) && now > old(failures)[key].resetAt then old(failures) - {key}
               else old(failures))
      ensures limited <==> key in failures && failures[key].count >= LOGIN_MAX_FAILURES
    {
      if key !in failures { return false; }
      if now > failures[key].resetAt {
        failures := failures - {key};
        return false;
      }
      return failures[key].count >= LOGIN_MAX_FAILURES;
    }

    method RecordFailedLogin(key: string, now: Millis)
      modifies this
      ensures key in failures && failures - {key} == old(failures) - {key}
      ensures failures[key] ==
              (if key !in old(failures) || now > old(failures)[key].resetAt then Entry(1, now + LOGIN_WINDOW_MS)
               else Entry(old(failures)[key].count + 1, old(failures)[key].resetAt))
    {
      if key !in failures || now > failures[key].resetAt {
        failures := failures[key := Entry(1, now + LOGIN_WINDOW_MS)];
        return;
      }
      failures := failures[key := failures[key].(count := failures[key].count + 1)];
    }

    method ClearFailedLogins(key: string)
      modifies this
      ensures failures == old(failures) - {key}
    {
      failures := failures - {key};
    }

    // POST /login
    method Login(a: Attempt) returns (reply: Reply)
      modifies this
      ensures reply == ReplyTo(EntryOf(old(failures), a.key), a)
      ensures reply == TooManyAttempts <==>
                a.key in old(failures) && old(failures)[a.key].count >= 8 && a.checkedAt <= old(failures)[a.key].resetAt
      ensures reply == LoggedIn <==> a.accepted && reply != TooManyAttempts
      ensures reply == LoggedIn ==> a.key !in failures
      ensures reply == InvalidToken ==> a.key in failures
      ensures EntryOf(failures, a.key) == EntryAfter(EntryOf(old(failures), a.key), a)
      ensures forall k | k != a.key :: EntryOf(failures, k) == EntryOf(old(failures), k)
    {
      var limited := IsRateLimited(a.key, a.checkedAt);
      if limited { return TooManyAttempts; }
      if !a.accepted {
        ghost var mid := failures;
        RecordFailedLogin(a.key, a.recordedAt);
        forall k | k != a.key ensures EntryOf(failures, k) == EntryOf(mid, k) {
          assert k in failures <==> k in failures - {a.key};
          assert k in mid <==> k in mid - {a.key};
          if k in mid { assert (failures - {a.key})[k] == (mid - {a.key})[k]; }
        }
        return InvalidToken;
      }
      ClearFailedLogins(a.key);
      return LoggedIn;
    }
  }

  // ── Runs ─────────────────────────────────────────────────────────────────

  // The entry of one key after a run of attempts, in which other keys appear.
  function EntryIn(run: seq<Attempt>, key: string): Option<Entry> {
    if run == [] then None
    else
      var init, a := run[..|run| - 1], run[|run| - 1];
      if a.key == key then EntryAfter(EntryIn(init, key), a) else EntryIn(init, key)
  }

  // When the key's failures since its last successful login were recorded.
  function RejectedSince(run: seq<Attempt>, key: string): seq<Millis> {
    if run == [] then []
    else
      var init, a := run[..|run| - 1], run[|run| - 1];
      if a.key != key then RejectedSince(init, key)
      else
        match ReplyTo(EntryIn(init, key), a)
        case TooManyAttempts => RejectedSince(init, key)
        case LoggedIn => []
        case InvalidToken => RejectedSince(init, key) + [a.recordedAt]
  }

  // The clock never runs backwards.
  ghost predicate Timely(run: seq<Attempt>) {
    && (forall i | 0 <= i < |run| :: run[i].checkedAt <= run[i].recordedAt)
    && (forall i, j | 0 <= i < j < |run| :: run[i].recordedAt <= run[j].checkedAt)
  }

  ghost predicate Ascending(times: seq<Millis>) {
    forall i, j | 0 <= i < j < |times| :: times[i] <= times[j]
  }

  // Fifteen failures later the window has passed.
  ghost predicate Spread(times: seq<Millis>) {
    forall i | 0 <= i && i + 15 < |times| :: times[i + 15] > times[i] + LOGIN_WINDOW_MS
  }

  // The open window holds the last `count` failures; it began more than a
  // window after the eighth failure before it.
  ghost predicate WindowOk(times: seq<Millis>, entry: Option<Entry>) {
    && Ascending(times) && Spread(times)
    && (entry.None? ==> times == [])
    && (entry.Some? ==>
          var first := |times| - entry.value.count;
          && 1 <= entry.value.count <= LOGIN_MAX_FAILURES && first >= 0
          && entry.value.resetAt == times[first] + LOGIN_WINDOW_MS
          && (first >= 8 ==> times[first] > times[first - 8] + LOGIN_WINDOW_MS))
  }

  lemma AppendTime(times: seq<Millis>, t: Millis)
    requires Ascending(times) && Spread(times)
    requires forall i | 0 <= i < |times| :: times[i] <= t
    requires |times| >= 15 ==> t > times[|times| - 15] + LOGIN_WINDOW_MS
    ensures Ascending(times + [t]) && Spread(times + [t])
  {
  }

  lemma FailureKeepsWindow(times: seq<Millis>, entry: Option<Entry>, a: Attempt)
    requires WindowOk(times, entry) && a.checkedAt <= a.recordedAt && ReplyTo(entry, a) == InvalidToken
    requires forall i | 0 <= i < |times| :: times[i] <= a.checkedAt
    ensures WindowOk(times + [a.recordedAt], EntryAfter(entry, a))
  {
    var n := |times|;
    if entry.Some? {
      var first := n - entry.value.count;
      assert n >= 8 ==> times[n - 8] <= times[first];
      assert n >= 15 ==> times[n - 15] <= times[n - 8];
      assert n >= 15 && entry.value.count <= 7 ==> times[n - 15] <= times[first - 8];
    }
    hide Ascending, Spread;
    AppendTime(times, a.recordedAt);
  }

  ghost predicate NoneAfter(times: seq<Millis>, t: Millis) { forall i | 0 <= i < |times| :: times[i] <= t }

  lemma AttemptKeepsWindow(times: seq<Millis>, entry: Option<Entry>, a: Attempt)
    requires WindowOk(times, entry) && a.checkedAt <= a.recordedAt && NoneAfter(times, a.checkedAt)
    ensures ReplyTo(entry, a) == TooManyAttempts ==> WindowOk(times, EntryAfter(entry, a))
    ensures ReplyTo(entry, a) == LoggedIn ==> WindowOk([], EntryAfter(entry, a))
    ensures ReplyTo(entry, a) == InvalidToken ==> WindowOk(times + [a.recordedAt], EntryAfter(entry, a))
  {
    if ReplyTo(entry, a) == InvalidToken { FailureKeepsWindow(times, entry, a); }
  }

  lemma TimelyBefore(run: seq<Attempt>)
    requires Timely(run) && run != []
    ensures Timely(run[..|run| - 1]) && run[|run| - 1].checkedAt <= run[|run| - 1].recordedAt
    ensures |run| > 1 ==> run[|run| - 2].recordedAt <= run[|run| - 1].checkedAt
  {
  }

  lemma Later(init: seq<Attempt>, times: seq<Millis>, a: Attempt)
    requires NoneAfter(times, if init == [] then 0 else init[|init| - 1].recordedAt) && (init == [] ==> times == [])
    requires init != [] ==> init[|init| - 1].recordedAt <= a.checkedAt
    requires a.checkedAt <= a.recordedAt
    ensures NoneAfter(times, a.checkedAt) && NoneAfter(times, a.recordedAt)
    ensures NoneAfter(times + [a.recordedAt], a.recordedAt) && NoneAfter([], a.recordedAt)
  {
  }

  lemma {:induction false} RunKeepsWindow(run: seq<Attempt>, key: string)
    requires Timely(run)
    ensures WindowOk(RejectedSince(run, key), EntryIn(run, key))
    ensures NoneAfter(RejectedSince(run, key), if run == [] then 0 else run[|run| - 1].recordedAt)
  {
    if run != [] {
      hide WindowOk, Timely, ReplyTo, EntryAfter, NoneAfter;
      var init, a := run[..|run| - 1], run[|run| - 1];
      TimelyBefore(run);
      RunKeepsWindow(init, key);
      Later(init, RejectedSince(init, key), a);
      AttemptKeepsWindow(RejectedSince(init, key), EntryIn(init, key), a);
    } else {
      assert WindowOk([], None);
    }
  }

  // ── Who is turned away ───────────────────────────────────────────────────

  // Failures cut into windows: a failure more than ten minutes after the first
  // of its window opens the next. The place of the first of the last window.
  function LastWindow(times: seq<Millis>): (first: nat)
    ensures times != [] ==> first < |times|
  {
    if |times| <= 1 then 0
    else
      var init, last := times[..|times| - 1], times[|times| - 1];
      if last > init[LastWindow(init)] + 600_000 then |init| else LastWindow(init)
  }

  // What is stored for a key counts the failures of the last window.
  ghost predicate CountsWindow(times: seq<Millis>, entry: Option<Entry>) {
    if times == [] then entry.None?
    else entry == Some(Entry(|times| - LastWindow(times), times[LastWindow(times)] + 600_000))
  }

  lemma AttemptCountsWindow(times: seq<Millis>, entry: Option<Entry>, a: Attempt)
    requires CountsWindow(times, entry) && a.checkedAt <= a.recordedAt
    ensures ReplyTo(entry, a) == TooManyAttempts ==> CountsWindow(times, EntryAfter(entry, a))
    ensures ReplyTo(entry, a) == LoggedIn ==> CountsWindow([], EntryAfter(entry, a))
    ensures ReplyTo(entry, a) == InvalidToken ==> CountsWindow(times + [a.recordedAt], EntryAfter(entry, a))
  {
    var more := times + [a.recordedAt];
    assert more[..|more| - 1] == times;
  }

  lemma {:induction false} RunCountsWindow(run: seq<Attempt>, key: string)
    requires Timely(run)
    ensures CountsWindow(RejectedSince(run, key), EntryIn(run, key))
  {
    if run != [] {
      hide CountsWindow, Timely, ReplyTo, EntryAfter;
      TimelyBefore(run);
      RunCountsWindow(run[..|run| - 1], key);
      AttemptCountsWindow(RejectedSince(run[..|run| - 1], key), EntryIn(run[..|run| - 1], key), run[|run| - 1]);
    } else {
      assert CountsWindow([], None);
    }
  }

  // An attempt is turned away exactly when the last window of the failures
  // since the last login holds eight and has not passed; otherwise the token
  // alone decides.
  lemma TurnedAwayExactly(run: seq<Attempt>, a: Attempt)
    requires Timely(run)
    ensures var times, reply := RejectedSince(run, a.key), ReplyTo(EntryIn(run, a.key), a);
            && (reply == TooManyAttempts <==>
                  |times| - LastWindow(times) >= 8 && a.checkedAt <= times[LastWindow(times)] + 600_000)
            && (reply == LoggedIn <==> reply != TooManyAttempts && a.accepted)
            && (reply == InvalidToken <==> reply != TooManyAttempts && !a.accepted)
  {
    RunCountsWindow(run, a.key);
  }

  // The right token logs in whenever fewer than eight failures were recorded
  // since the last login, and ten minutes after the last failure at the latest.
  lemma RightTokenLogsIn(run: seq<Attempt>, a: Attempt)
    requires Timely(run + [a]) && a.accepted
    requires var times := RejectedSince(run, a.key);
             |times| < 8 || a.checkedAt > times[|times| - 1] + 600_000
    ensures ReplyTo(EntryIn(run, a.key), a) == LoggedIn
  {
    var all, times := run + [a], RejectedSince(run, a.key);
    assert all[..|all| - 1] == run;
    TimelyBefore(all);
    TurnedAwayExactly(run, a);
    RunKeepsWindow(run, a.key);
    if |times| >= 8 { assert times[LastWindow(times)] <= times[|times| - 1]; }
  }

  // The stored count never passes the limit.
  lemma CountIsCapped(run: seq<Attempt>, key: string)
    requires Timely(run)
    ensures EntryIn(run, key).Some? ==> 1 <= EntryIn(run, key).value.count <= LOGIN_MAX_FAILURES
  {
    RunKeepsWindow(run, key);
  }

  function CountIn(times: seq<Millis>, from: Millis, to: Millis): (n: nat)
    ensures n <= |times|
  {
    if times == [] then 0
    else CountIn(times[..|times| - 1], from, to) + if from <= times[|times| - 1] <= to then 1 else 0
  }

  lemma {:induction false} NoneBefore(times: seq<Millis>, from: Millis, to: Millis, k: nat)
    requires k <= |times| && forall i | 0 <= i < k :: times[i] < from
    ensures CountIn(times, from, to) <= |times| - k
  {
    if |times| > k { NoneBefore(times[..|times| - 1], from, to, k); }
    else if times != [] { NoneBefore(times[..|times| - 1], from, to, k - 1); }
  }

  lemma {:induction false} SpreadCount(times: seq<Millis>, from: Millis, to: Millis)
    requires Ascending(times) && Spread(times) && to <= from + LOGIN_WINDOW_MS
    ensures CountIn(times, from, to) <= 15
  {
    var n := |times|;
    if n > 15 {
      if times[n - 1] > to {
        SpreadCount(times[..n - 1], from, to);
      } else {
        assert times[n - 16 + 15] > times[n - 16] + LOGIN_WINDOW_MS;
        NoneBefore(times, from, to, n - 15);
      }
    }
  }

  // Between two successful logins of a key, no interval as long as the window
  // holds more than fifteen failures that were evaluated.
  lemma GuessesAreBounded(run: seq<Attempt>, key: string, from: Millis, to: Millis)
    requires Timely(run) && to <= from + LOGIN_WINDOW_MS
    ensures CountIn(RejectedSince(run, key), from, to) <= 15
  {
    RunKeepsWindow(run, key);
    SpreadCount(RejectedSince(run, key), from, to);
  }

  // ── The bound is met ─────────────────────────────────────────────────────

  function Wrong(key: string, t: Millis): Attempt { Attempt(key, false, t, t) }

  function Times(t: Millis, n: nat): (r: seq<Millis>)
    ensures |r| == n && forall i | 0 <= i < n :: r[i] == t
  {
    seq(n, _ => t)
  }

  // `n` wrong tokens in one instant, while the window has room for them.
  lemma {:induction false} Burst(run: seq<Attempt>, key: string, t: Millis, n: nat) returns (longer: seq<Attempt>)
    requires Timely(run) && forall i | 0 <= i < |run| :: run[i].recordedAt <= t
    requires EntryIn(run, key).Some? && t <= EntryIn(run, key).value.resetAt
    requires EntryIn(run, key).value.count + n <= LOGIN_MAX_FAILURES
    ensures Timely(longer) && forall i | 0 <= i < |longer| :: longer[i].recordedAt <= t
    ensures EntryIn(longer, key) == Some(Entry(EntryIn(run, key).value.count + n, EntryIn(run, key).value.resetAt))
    ensures RejectedSince(longer, key) == RejectedSince(run, key) + Times(t, n)
  {
    longer := run;
    if n > 0 {
      longer := Burst(run, key, t, n - 1);
      var more := longer + [Wrong(key, t)];
      assert more[..|longer|] == longer;
      assert Times(t, n - 1) + [t] == Times(t, n);
      assert RejectedSince(longer, key) + [t] == RejectedSince(run, key) + Times(t, n);
      longer := more;
    }
  }

  // A wrong token that opens a window.
  lemma Open(run: seq<Attempt>, key: string, t: Millis) returns (longer: seq<Attempt>)
    requires Timely(run) && forall i | 0 <= i < |run| :: run[i].recordedAt <= t
    requires EntryIn(run, key).None? || t > EntryIn(run, key).value.resetAt
    ensures Timely(longer) && forall i | 0 <= i < |longer| :: longer[i].recordedAt <= t
    ensures EntryIn(longer, key) == Some(Entry(1, t + LOGIN_WINDOW_MS))
    ensures RejectedSince(longer, key) == RejectedSince(run, key) + [t]
  {
    longer := run + [Wrong(key, t)];
    assert longer[..|run|] == run;
  }

  lemma {:induction false} CountOfMore(times: seq<Millis>, t: Millis, n: nat, from: Millis, to: Millis)
    requires from <= t <= to
    ensures CountIn(times + Times(t, n), from, to) == CountIn(times, from, to) + n
  {
    var all := times + Times(t, n);
    if n == 0 {
      assert all == times;
    } else {
      CountOfMore(times, t, n - 1, from, to);
      assert all[..|all| - 1] == times + Times(t, n - 1);
    }
  }

  // One failure, seven more at the last instant of its window, eight in the
  // next instant: fifteen within two milliseconds.
  lemma FifteenHappens(key: string) returns (run: seq<Attempt>)
    ensures Timely(run) && CountIn(RejectedSince(run, key), LOGIN_WINDOW_MS, LOGIN_WINDOW_MS + 1) == 15
  {
    hide Timely, EntryIn, RejectedSince, CountIn, Times;
    var w := LOGIN_WINDOW_MS;
    run := [];
    NothingYet(key);
    run := Open(run, key, 0);
    StillEarlier(run, 0, w);
    run := Burst(run, key, w, 7);
    StillEarlier(run, w, w + 1);
    run := Open(run, key, w + 1);
    run := Burst(run, key, w + 1, 7);
    var times := [0] + Times(w, 7);
    assert [] + [0] == [0];
    assert times + [w + 1] + Times(w + 1, 7) == RejectedSince(run, key);
    CountOfMore(times + [w + 1], w + 1, 7, w, w + 1);
    OneTime(w + 1);
    CountOfMore(times, w + 1, 1, w, w + 1);
    CountOfMore([0], w, 7, w, w + 1);
    ZeroOutside(w);
  }

  lemma NothingYet(key: string)
    ensures Timely([]) && EntryIn([], key).None? && RejectedSince([], key) == []
  {
  }

  lemma StillEarlier(run: seq<Attempt>, t: Millis, u: Millis)
    requires t <= u && forall i | 0 <= i < |run| :: run[i].recordedAt <= t
    ensures forall i | 0 <= i < |run| :: run[i].recordedAt <= u
  {
  }

  lemma OneTime(t: Millis)
    ensures [t] == Times(t, 1)
  {
  }

  lemma ZeroOutside(w: Millis)
    requires w > 0
    ensures CountIn([0], w, w + 1) == 0
  {
  }
}
