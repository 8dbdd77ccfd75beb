/** Login backoff: failures are counted per key in a ten-minute window, and from the fifth
    failure on each one blocks its keys twice as long as the one before.

    Times are integers counting nanoseconds; attempts are processed one after another.
 */
module LoginThrottle {
  import Keyset
  import opened Prelude

  type Key = string

  const SECOND := 1_000_000_000
  const WINDOW := 600 * SECOND
  const CAP := 900

  datatype Row = Row(count: nat, windowStart: int, blockedUntil: int, updatedAt: int)

  type Table = map<Key, Row>

  function Pow2(n: nat): nat {
    if n == 0 then 1 else 2 * Pow2(n - 1)
  }

  /** Seconds of blocking after the given failure of a window. */
  function Backoff(count: nat): nat {
    if count < 5 then 0
    else if 30 * Pow2(count - 5) < CAP then 30 * Pow2(count - 5) else CAP
  }

  function Lookup(rows: Table, key: Key): Option<Row> {
    if key in rows then Some(rows[key]) else None
  }

  /** The row after one more failure. */
  function Failed(row: Option<Row>, now: int): Row {
    var anew := row.None? || now - row.value.windowStart >= WINDOW;
    var count := if anew then 1 else row.value.count + 1;
    var start := if anew then now else row.value.windowStart;
    Row(count, start, now + Backoff(count) * SECOND, now)
  }

  predicate Blocked(rows: Table, keys: seq<Key>, now: int) {
    exists k | k in keys && k in rows :: rows[k].blockedUntil > now
  }

  /** loginThrottleKeys; `digest` stands for the hexadecimal SHA-256 of an overlong name. */
  function Keys(username: string, sourceIp: string, digest: string -> string): (keys: seq<Key>)
    ensures forall i, j | 0 <= i < j < |keys| :: keys[i] != keys[j]
  {
    var first := "username:" + Named(username, digest);
    assert first[0] == 'u';
    if sourceIp == "" then [first]
    else
      var second := "ip:" + sourceIp;
      assert second[0] == 'i';
      [first, second]
  }

  /** The name a key is made of: an overlong one is replaced by its digest. */
  function Named(username: string, digest: string -> string): string {
    if |username| > 64 then "invalid:" + digest(username) else username
  }

  lemma PrefixedAlike(front: string, a: string, b: string)
    ensures front + a == front + b <==> a == b
  {
    if front + a == front + b {
      assert (front + a)[|front|..] == a && (front + b)[|front|..] == b;
    }
  }

  lemma NamedAlike(a: string, b: string, digest: string -> string)
    requires forall s, t :: digest(s) == digest(t) ==> s == t
    requires forall s :: |digest(s)| == 64
    ensures Named(a, digest) == Named(b, digest) <==> a == b
  {
    if |a| > 64 && |b| > 64 {
      PrefixedAlike("invalid:", digest(a), digest(b));
    }
  }

  /** Two attempts count against a common key iff they are for one name or come from one known
      address. */
  lemma KeysMeetIff(a: string, b: string, ip: string, other: string, digest: string -> string)
    requires forall s, t :: digest(s) == digest(t) ==> s == t
    requires forall s :: |digest(s)| == 64
    ensures (exists k :: k in Keys(a, ip, digest) && k in Keys(b, other, digest)) <==> a == b || (ip == other && ip != "")
  {
    NamedAlike(a, b, digest);
    var x, y := "username:" + Named(a, digest), "username:" + Named(b, digest);
    PrefixedAlike("username:", Named(a, digest), Named(b, digest));
    PrefixedAlike("ip:", ip, other);
    assert x[0] == 'u' && y[0] == 'u' && ("ip:" + ip)[0] == 'i' && ("ip:" + other)[0] == 'i';
    assert Keys(a, ip, digest)[0] == x && Keys(b, other, digest)[0] == y;
    assert ip != "" ==> Keys(a, ip, digest)[1] == "ip:" + ip;
    assert other != "" ==> Keys(b, other, digest)[1] == "ip:" + other;
    if a == b {
      assert x in Keys(a, ip, digest) && x in Keys(b, other, digest);
    }
    if ip == other && ip != "" {
      assert "ip:" + ip in Keys(a, ip, digest) && "ip:" + ip in Keys(b, other, digest);
    }
  }

  /** What a login comes to once it passes the gate: success, or one of the three
      failures the code records (overlong input, unknown name or wrong password,
      disabled account). */
  datatype Verdict = Accepted | Rejected

  datatype Event =
    | Attempt(keys: seq<Key>, now: int, verdict: Verdict)
    | Sweep(stale: set<Key>, now: int)     // daily retention

  /** A sweep deletes rows last written a day ago; the second of slack covers its
      comparison of time stamps as text. */
  const DAY := 86_399 * SECOND

  predicate Enabled(rows: Table, e: Event) {
    match e
    case Attempt(keys, now, _) => forall k | k in keys && k in rows :: rows[k].updatedAt <= now
    case Sweep(stale, now) => forall k | k in stale :: k in rows && rows[k].updatedAt + DAY <= now
  }

  predicate Recorded(rows: Table, e: Event, key: Key) {
    e.Attempt? && e.verdict.Rejected? && key in e.keys && !Blocked(rows, e.keys, e.now)
  }

  /** One more failure against every key. */
  function Punished(rows: Table, keys: seq<Key>, now: int): Table {
    rows + map k | k in keys :: Failed(Lookup(rows, k), now)
  }

  lemma PunishedOneMore(rows: Table, keys: seq<Key>, i: nat, now: int)
    requires i < |keys| && keys[i] !in keys[..i]
    ensures Punished(rows, keys[..i + 1], now) == Punished(rows, keys[..i], now)[keys[i] := Failed(Lookup(rows, keys[i]), now)]
    ensures Lookup(Punished(rows, keys[..i], now), keys[i]) == Lookup(rows, keys[i])
  {
    assert keys[..i + 1] == keys[..i] + [keys[i]];
  }

  function Next(rows: Table, e: Event): Table {
    match e
    case Attempt(keys, now, verdict) =>
      if Blocked(rows, keys, now) then rows
      else if verdict.Accepted? then map k | k in rows && k !in keys :: rows[k]
      else Punished(rows, keys, now)
    case Sweep(stale, now) => rows - stale
  }

  // ----- the counter never passes nine -----

  /** The least time between the start of a window and its n-th failure, in seconds. */
  function Elapsed(count: nat): nat {
    if count <= 5 then 0 else Elapsed(count - 1) + Backoff(count - 1)
  }

  ghost predicate RowOk(row: Row) {
    && 1 <= row.count <= 9
    && row.windowStart + Elapsed(row.count) * SECOND <= row.updatedAt < row.windowStart + WINDOW
    && row.blockedUntil == row.updatedAt + Backoff(row.count) * SECOND
  }

  ghost predicate TableOk(rows: Table) {
    forall k | k in rows :: RowOk(rows[k])
  }

  lemma BackoffTable()
    ensures Backoff(5) == 30 && Backoff(6) == 60 && Backoff(7) == 120 && Backoff(8) == 240 && Backoff(9) == 480
    ensures Elapsed(5) == 0 && Elapsed(6) == 30 && Elapsed(7) == 90 && Elapsed(8) == 210 && Elapsed(9) == 450
  {
    assert Pow2(0) == 1 && Pow2(1) == 2 && Pow2(2) == 4 && Pow2(3) == 8 && Pow2(4) == 16;
  }

  /** Four failures of a window go unpunished, the fifth blocks for half a minute, and each later
      one twice as long as the one before, up to a quarter of an hour. */
  lemma BackoffDoubles(n: nat)
    ensures n < 5 ==> Backoff(n) == 0
    ensures n == 5 ==> Backoff(n) == 30
    ensures n > 5 ==> Backoff(n) == if 2 * Backoff(n - 1) < 900 then 2 * Backoff(n - 1) else 900
  {
    assert Pow2(0) == 1;
    if n > 5 {
      assert Pow2(n - 5) == 2 * Pow2(n - 6);
    }
  }

  /** One more failure of a key at `now`: the next of its window, or the first of a new one. */
  ghost predicate Counted(before: Table, after: Table, k: Key, now: int) {
    && k in after && after[k].updatedAt == now
    && (if k in before && now - before[k].windowStart < 600 * SECOND
        then after[k].count == before[k].count + 1 && after[k].windowStart == before[k].windowStart
        else after[k].count == 1 && after[k].windowStart == now)
    && after[k].blockedUntil == now + Backoff(after[k].count) * SECOND
  }

  ghost predicate SameBut(before: Table, after: Table, keys: seq<Key>) {
    forall k | k !in keys :: (k in after <==> k in before) && (k in after ==> after[k] == before[k])
  }

  lemma PunishedCounts(rows: Table, keys: seq<Key>, now: int)
    ensures forall k | k in keys :: Counted(rows, Punished(rows, keys, now), k, now)
    ensures SameBut(rows, Punished(rows, keys, now), keys)
  {
  }

  lemma FailedKeepsRowOk(row: Option<Row>, now: int)
    requires row.Some? ==> RowOk(row.value) && row.value.blockedUntil <= now
    ensures RowOk(Failed(row, now))
  {
    BackoffTable();
    if row.Some? && now - row.value.windowStart < WINDOW {
      // nine failures take 450 s and block for 480 s more, which the window does not last
      assert row.value.count != 9;
      assert Elapsed(row.value.count + 1) <= Elapsed(row.value.count) + Backoff(row.value.count);
    }
  }

  lemma StepKeepsTableOk(rows: Table, e: Event)
    requires TableOk(rows) && Enabled(rows, e)
    ensures TableOk(Next(rows, e))
  {
    if e.Attempt? && !Blocked(rows, e.keys, e.now) {
      forall k | k in e.keys ensures RowOk(Failed(Lookup(rows, k), e.now)) {
        FailedKeepsRowOk(Lookup(rows, k), e.now);
      }
    }
  }

  // ----- whole runs -----

  /** A run is possible when the clock never steps back behind a row it meets. */
  ghost predicate Legal(rows: Table, run: seq<Event>)
    decreases |run|
  {
    run == [] || (Enabled(rows, run[0]) && Legal(Next(rows, run[0]), run[1..]))
  }

  ghost function After(rows: Table, run: seq<Event>): Table
    decreases |run|
  {
    if run == [] then rows else After(Next(rows, run[0]), run[1..])
  }

  ghost function Failures(rows: Table, run: seq<Event>, key: Key): nat
    decreases |run|
  {
    if run == [] then 0
    else (if Recorded(rows, run[0], key) then 1 else 0) + Failures(Next(rows, run[0]), run[1..], key)
  }

  /** Whatever attempts are made, a counter stays at nine or below: no block is longer
      than 480 seconds, and the cap of 900 seconds is never what limits it. */
  lemma {:induction false} CountersStayBelowTen(rows: Table, run: seq<Event>)
    requires TableOk(rows) && Legal(rows, run)
    ensures TableOk(After(rows, run))
    ensures var after := After(rows, run);
            forall k | k in after :: 1 <= after[k].count <= 9
                                     && after[k].blockedUntil <= after[k].updatedAt + 480 * SECOND
    ensures forall n | 5 <= n <= 9 :: Backoff(n) == 30 * Pow2(n - 5) < CAP
    decreases |run|
  {
    BackoffTable();
    assert Pow2(0) == 1 && Pow2(1) == 2 && Pow2(2) == 4 && Pow2(3) == 8 && Pow2(4) == 16;
    if run != [] {
      StepKeepsTableOk(rows, run[0]);
      CountersStayBelowTen(Next(rows, run[0]), run[1..]);
    }
  }

  /** `n` failures of one key, the first five at once and each later one at the very
      moment the block of the one before ends. */
  function Persistent(key: Key, n: nat): seq<Event> {
    if n == 0 then [] else Persistent(key, n - 1) + [Attempt([key], Elapsed(n) * SECOND, Rejected)]
  }

  ghost function Reached(key: Key, n: nat): Table
    requires n <= 9
  {
    if n == 0 then map[]
    else map[key := Row(n, 0, (Elapsed(n) + Backoff(n)) * SECOND, Elapsed(n) * SECOND)]
  }

  /** Nine is reached, so the bound cannot be lowered. */
  lemma {:induction false} NineIsReached(key: Key, n: nat)
    requires n <= 9
    ensures Legal(map[], Persistent(key, n)) && After(map[], Persistent(key, n)) == Reached(key, n)
  {
    if n > 0 {
      NineIsReached(key, n - 1);
      ReachedNext(key, n);
      OneMore(map[], Persistent(key, n - 1), Attempt([key], Elapsed(n) * SECOND, Rejected));
    }
  }

  lemma ReachedNext(key: Key, n: nat)
    requires 1 <= n <= 9
    ensures var e := Attempt([key], Elapsed(n) * SECOND, Rejected);
            Enabled(Reached(key, n - 1), e) && Next(Reached(key, n - 1), e) == Reached(key, n)
  {
    BackoffTable();
    var now := Elapsed(n) * SECOND;
    var rows := Reached(key, n - 1);
    assert 0 <= Elapsed(n) <= 450;
    assert n > 1 ==> rows[key].blockedUntil <= now && rows[key].windowStart == 0 && rows[key].count == n - 1;
    assert Failed(Lookup(rows, key), now) == Row(n, 0, (Elapsed(n) + Backoff(n)) * SECOND, now);
    assert (map k | k in [key] :: Failed(Lookup(rows, k), now)) == map[key := Failed(Lookup(rows, key), now)];
  }

  lemma {:induction false} OneMore(rows: Table, run: seq<Event>, e: Event)
    requires Legal(rows, run) && Enabled(After(rows, run), e)
    ensures Legal(rows, run + [e]) && After(rows, run + [e]) == Next(After(rows, run), e)
    decreases |run|
  {
    if run == [] {
      assert [e][1..] == [] && run + [e] == [e];
      assert Legal(Next(rows, e), []);
    } else {
      OneMore(Next(rows, run[0]), run[1..], e);
      assert (run + [e])[1..] == run[1..] + [e];
    }
  }

  // ----- how many failures fit into a period -----

  ghost predicate NoSuccess(run: seq<Event>, key: Key) {
    forall e | e in run && e.Attempt? && key in e.keys :: e.verdict.Rejected?
  }

  /** The clock does not step back, and all of the run lies within [from, until]. */
  ghost predicate Within(run: seq<Event>, from: int, until: int)
    decreases |run|
  {
    from <= until && (run != [] ==> from <= run[0].now && Within(run[1..], run[0].now, until))
  }

  function Current(row: Option<Row>): nat {
    if row.Some? then row.value.count else 0
  }

  /** By the moment `last`, at least `windows` windows have passed since `begin`. */
  predicate Paced(row: Option<Row>, begin: int, windows: nat, last: int) {
    if row.Some? then begin + windows * WINDOW <= row.value.windowStart <= last
    else begin + windows * WINDOW <= last
  }

  /** Does this step end the window the row is in? */
  predicate EndsWindow(rows: Table, e: Event, key: Key) {
    key in rows && if e.Sweep? then key in e.stale else Recorded(rows, e, key) && e.now - rows[key].windowStart >= WINDOW
  }

  /** One step: a failure is paid for by the counter, an ended window by nine failures. */
  lemma StepIsPaced(rows: Table, e: Event, key: Key, begin: int, windows: nat, total: nat, last: int)
    requires TableOk(rows) && Enabled(rows, e) && last <= e.now
    requires e.Attempt? && key in e.keys ==> e.verdict.Rejected?
    requires Paced(Lookup(rows, key), begin, windows, last) && total <= 9 * windows + Current(Lookup(rows, key))
    ensures var windows' := if EndsWindow(rows, e, key) then windows + 1 else windows;
            var total' := if Recorded(rows, e, key) then total + 1 else total;
            Paced(Lookup(Next(rows, e), key), begin, windows', e.now)
            && total' <= 9 * windows' + Current(Lookup(Next(rows, e), key))
  {
    assert key in rows ==> RowOk(rows[key]);
  }

  lemma {:induction false} FailuresAreBounded(rows: Table, run: seq<Event>, key: Key, begin: int, until: int,
                                              windows: nat, total: nat, last: int)
    requires TableOk(rows) && Legal(rows, run) && NoSuccess(run, key) && Within(run, last, until) && begin <= until
    requires Paced(Lookup(rows, key), begin, windows, last) && total <= 9 * windows + Current(Lookup(rows, key))
    ensures total + Failures(rows, run, key) <= 9 * ((until - begin) / WINDOW + 1)
    decreases |run|
  {
    if run == [] {
      assert windows <= (until - begin) / WINDOW;
      assert key in rows ==> RowOk(rows[key]);
    } else {
      var e := run[0];
      assert e in run;
      StepKeepsTableOk(rows, e);
      StepIsPaced(rows, e, key, begin, windows, total, last);
      FailuresAreBounded(Next(rows, e), run[1..], key, begin, until,
        if EndsWindow(rows, e, key) then windows + 1 else windows,
        if Recorded(rows, e, key) then total + 1 else total, e.now);
    }
  }

  /** Starting without a row, a key collects at most nine failures for every ten minutes
      begun, whatever other keys its attempts share. */
  lemma AtMostNinePerWindow(rows: Table, run: seq<Event>, key: Key, begin: int, span: nat)
    requires TableOk(rows) && key !in rows && Legal(rows, run) && NoSuccess(run, key) && Within(run, begin, begin + span)
    ensures Failures(rows, run, key) <= 9 * (span / (600 * SECOND) + 1)
  {
    FailuresAreBounded(rows, run, key, begin, begin + span, 0, 0, begin);
  }

  /** While a key is blocked nothing is recorded against it, so the block it is under ends
      at the latest 480 seconds after its last recorded failure. */
  lemma BlocksEnd(rows: Table, run: seq<Event>, keys: seq<Key>, now: int)
    requires TableOk(rows) && Legal(rows, run) && Blocked(After(rows, run), keys, now)
    ensures var after := After(rows, run);
            && Next(after, Attempt(keys, now, Rejected)) == after
            && exists k | k in keys && k in after :: now < after[k].updatedAt + 480 * SECOND
  {
    CountersStayBelowTen(rows, run);
    BlockIsShort(After(rows, run), keys, now);
  }

  lemma BlockIsShort(rows: Table, keys: seq<Key>, now: int)
    requires Blocked(rows, keys, now)
    requires forall k | k in rows :: rows[k].blockedUntil <= rows[k].updatedAt + 480 * SECOND
    ensures exists k | k in keys && k in rows :: now < rows[k].updatedAt + 480 * SECOND
  {
    var k :| k in keys && k in rows && rows[k].blockedUntil > now;
  }

  // ----- the program's own form -----

  datatype Outcome = LoggedIn | Throttled | Refused

  /** The stored form of a moment drops trailing zeros of its fraction, so as text it sorts by
      whole seconds only. */
  ghost predicate SecondsSort(stamp: int -> string) {
    forall a, b | a / SECOND < b / SECOND :: Keyset.TextLess(stamp(a), stamp(b))
  }

  lemma LaterSecond(a: int, b: int)
    requires a >= b + SECOND
    ensures b / SECOND < a / SECOND
  {
  }

  /** A moment that is less as text is at most a second later. */
  lemma LessIsEarlier(stamp: int -> string, a: int, b: int)
    requires SecondsSort(stamp) && Keyset.TextLess(stamp(a), stamp(b))
    ensures a < b + SECOND
  {
    Keyset.TextLessTotal(stamp(a), stamp(b));
    if a >= b + SECOND {
      LaterSecond(a, b);
    }
  }

  /** Table login_throttles and the login flow on top of it. */
  class Throttle {
    var rows: Table

    constructor ()
      ensures rows == map[] && TableOk(rows)
    {
      rows := map[];
    }

    /** The latest moment any of the keys is blocked until, if that lies ahead. */
    method LoginThrottleUntil(keys: seq<Key>, now: int) returns (latest: Option<int>)
      ensures latest.Some? <==> Blocked(rows, keys, now)
      ensures latest.Some? ==> now < latest.value
                               && (exists k | k in keys && k in rows :: rows[k].blockedUntil == latest.value)
                               && forall k | k in keys && k in rows :: rows[k].blockedUntil <= latest.value
    {
      latest := None;
      for i := 0 to |keys|
        invariant latest.None? ==> forall k | k in keys[..i] && k in rows :: rows[k].blockedUntil <= now
        invariant latest.Some? ==> now < latest.value
                                   && (exists k | k in keys && k in rows :: rows[k].blockedUntil == latest.value)
                                   && forall k | k in keys[..i] && k in rows :: rows[k].blockedUntil <= latest.value
      {
        assert keys[i] in keys && keys[..i + 1] == keys[..i] + [keys[i]];
        if keys[i] in rows {
          var until := rows[keys[i]].blockedUntil;
          if until > now && (latest.None? || until > latest.value) {
            latest := Some(until);
          }
        }
      }
      assert keys[..|keys|] == keys;
    }

    /** The new row of one key. */
    method Bump(key: Key, now: int) returns (row: Row)
      ensures row == Failed(Lookup(rows, key), now)
    {
      var count, windowStart := 0, now;
      if key in rows {
        count, windowStart := rows[key].count, rows[key].windowStart;
        if now - windowStart >= WINDOW {
          count, windowStart := 0, now;
        }
      }
      count := count + 1;
      var blockedUntil := now;
      if count >= 5 {
        blockedUntil := now + Backoff(count) * SECOND;
      }
      return Row(count, windowStart, blockedUntil, now);
    }

    method RecordLoginFailure(keys: seq<Key>, now: int)
      requires forall i, j | 0 <= i < j < |keys| :: keys[i] != keys[j]
      modifies this
      ensures rows == Punished(old(rows), keys, now)
      ensures SameBut(old(rows), rows, keys) && forall k | k in keys :: Counted(old(rows), rows, k, now)
    {
      PunishedCounts(rows, keys, now);
      for i := 0 to |keys|
        invariant rows == Punished(old(rows), keys[..i], now)
      {
        assert keys[i] !in keys[..i];
        PunishedOneMore(old(rows), keys, i, now);
        var row := Bump(keys[i], now);
        rows := rows[keys[i] := row];
      }
      assert keys[..|keys|] == keys;
    }

    method ClearLoginThrottle(keys: seq<Key>)
      modifies this
      ensures rows == map k | k in old(rows) && k !in keys :: old(rows)[k]
    {
      for i := 0 to |keys|
        invariant rows == map k | k in old(rows) && k !in keys[..i] :: old(rows)[k]
      {
        rows := rows - {keys[i]};
        assert keys[..i + 1] == keys[..i] + [keys[i]];
      }
      assert keys[..|keys|] == keys;
    }

    /** The daily retention at `now`: a row goes iff its stored time is less, as text, than that
        of a day before; `stamp` is the stored form of a moment. */
    method DeleteLoginThrottlesBefore(stamp: int -> string, now: int)
      requires SecondsSort(stamp)
      modifies this
      ensures forall k | k in old(rows) ::
        k in rows <==> !Keyset.TextLess(stamp(old(rows)[k].updatedAt), stamp(now - 86_400 * SECOND))
      ensures forall k | k in rows :: k in old(rows) && rows[k] == old(rows)[k]
      ensures var sweep := Sweep(old(rows).Keys - rows.Keys, now);
        Enabled(old(rows), sweep) && rows == Next(old(rows), sweep)
    {
      var before := now - 86_400 * SECOND;
      var rest := rows.Keys;
      while rest != {}
        invariant rest <= old(rows).Keys && rows.Keys <= old(rows).Keys
        invariant forall k | k in old(rows) ::
          k in rows <==> k in rest || !Keyset.TextLess(stamp(old(rows)[k].updatedAt), stamp(before))
        invariant forall k | k in rows :: rows[k] == old(rows)[k]
        decreases rest
      {
        var k :| k in rest;
        rest := rest - {k};
        if Keyset.TextLess(stamp(rows[k].updatedAt), stamp(before)) {
          rows := rows - {k};
        }
      }
      forall k | k in old(rows) && k !in rows ensures old(rows)[k].updatedAt + DAY <= now {
        LessIsEarlier(stamp, old(rows)[k].updatedAt, before);
      }
    }

    /** LoginWithContext; `overlong`, `matches` and `enabled` are its three tests. */
    method Login(keys: seq<Key>, now: int, overlong: bool, matches: bool, enabled: bool) returns (r: Outcome)
      requires forall i, j | 0 <= i < j < |keys| :: keys[i] != keys[j]
      modifies this
      ensures r.Throttled? <==> Blocked(old(rows), keys, now)
      ensures r.LoggedIn? <==> !Blocked(old(rows), keys, now) && !overlong && matches && enabled
      ensures rows == Next(old(rows), Attempt(keys, now, if !overlong && matches && enabled then Accepted else Rejected))
      ensures r.Throttled? <==> exists k | k in keys && k in old(rows) :: old(rows)[k].blockedUntil > now
      ensures r.Throttled? ==> rows == old(rows)
      ensures r.LoggedIn? ==> SameBut(old(rows), rows, keys) && forall k | k in keys :: k !in rows
      ensures r.Refused? ==> SameBut(old(rows), rows, keys) && forall k | k in keys :: Counted(old(rows), rows, k, now)
    {
      var until := LoginThrottleUntil(keys, now);
      if until.Some? {
        return Throttled;
      }
      if overlong {
        RecordLoginFailure(keys, now);
        return Refused;
      }
      if !matches {
        RecordLoginFailure(keys, now);
        return Refused;
      }
      if !enabled {
        RecordLoginFailure(keys, now);
        return Refused;
      }
      ClearLoginThrottle(keys);
      return LoggedIn;
    }
  }
}
