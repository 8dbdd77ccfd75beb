/** The health monitor's debounced alerts and the notification table they are written to. */
module Health {
  import opened Prelude

  datatype Row = Row(
    key: string, readAt: Option<string>, readBy: Option<string>, resolvedAt: Option<string>, resolvedBy: Option<string>)

  /** The monitor's maps, with the ids whose value is true in `alerted` and `healthy`; and the
      notification table. */
  datatype State = State(
    results: set<string>, failures: map<string, nat>, alerted: set<string>, healthy: set<string>, rows: map<string, Row>)

  datatype Step =
    | Record(env: string, installed: bool, ok: bool, id: string, now: string)
    | Prune(known: set<string>)
    | Restart
    | Create(id: string, key: string)
    | Read(id: string, actor: string, now: string)
    | Resolve(id: string, actor: string, now: string)
    | DeleteResolved(ids: set<string>)

  function HealthKey(env: string): string {
    "service-health:" + env
  }

  lemma HealthKeyIsInjective(a: string, b: string)
    requires HealthKey(a) == HealthKey(b)
    ensures a == b
  {
    assert HealthKey(a)[15..] == a;
    assert HealthKey(b)[15..] == b;
  }

  predicate IsOpen(rows: map<string, Row>, key: string) {
    exists r | r in rows :: rows[r].key == key && rows[r].resolvedAt.None?
  }

  function Coalesce(value: Option<string>, other: string): Option<string> {
    if value.Some? then value else Some(other)
  }

  function Seen(r: Row, actor: string, now: string): Row {
    r.(readAt := Coalesce(r.readAt, now), readBy := Coalesce(r.readBy, actor))
  }

  function Done(r: Row, actor: string, now: string): Row {
    Seen(r, actor, now).(resolvedAt := Coalesce(r.resolvedAt, now), resolvedBy := Coalesce(r.resolvedBy, actor))
  }

  function Inserted(rows: map<string, Row>, id: string, key: string): map<string, Row> {
    if key != "" && IsOpen(rows, key) then rows else rows[id := Row(key, None, None, None, None)]
  }

  function ResolvedByKey(rows: map<string, Row>, key: string, now: string): map<string, Row> {
    map r | r in rows ::
      if rows[r].key == key && rows[r].resolvedAt.None? then Done(rows[r], "system", now) else rows[r]
  }

  function Failures(s: State, env: string): nat {
    if env in s.failures then s.failures[env] else 0
  }

  predicate Unhealthy(step: Step)
    requires step.Record?
  {
    step.installed && !step.ok
  }

  /** Whether recording the result raises an alert, or resolves the notification. */
  predicate Alerts(s: State, step: Step) {
    step.Record? && Unhealthy(step) && Failures(s, step.env) + 1 >= 3 && step.env !in s.alerted
  }

  predicate Resolves(s: State, step: Step) {
    step.Record? && !Unhealthy(step) && step.env !in s.healthy
  }

  function Next(s: State, step: Step): State {
    match step
    case Record(env, installed, ok, id, now) =>
      if Unhealthy(step) then
        State(s.results + {env}, s.failures[env := Failures(s, env) + 1],
              if Alerts(s, step) then s.alerted + {env} else s.alerted, s.healthy - {env},
              if Alerts(s, step) then Inserted(s.rows, id, HealthKey(env)) else s.rows)
      else
        State(s.results + {env}, s.failures[env := 0], s.alerted - {env}, s.healthy + {env},
              if Resolves(s, step) then ResolvedByKey(s.rows, HealthKey(env), now) else s.rows)
    case Prune(known) =>
      var gone := s.results - known;
      State(s.results * known, s.failures - gone, s.alerted - gone, s.healthy - gone, s.rows)
    case Restart => State({}, map[], {}, {}, s.rows)
    case Create(id, key) => s.(rows := Inserted(s.rows, id, key))
    case Read(id, actor, now) => if id in s.rows then s.(rows := s.rows[id := Seen(s.rows[id], actor, now)]) else s
    case Resolve(id, actor, now) => if id in s.rows then s.(rows := s.rows[id := Done(s.rows[id], actor, now)]) else s
    case DeleteResolved(ids) =>
      s.(rows := s.rows - set id | id in ids && id in s.rows && s.rows[id].resolvedAt.Some?)
  }

  /** New ids are unused; other notifications do not use health keys. */
  ghost predicate Possible(s: State, step: Step) {
    && (step.Record? || step.Create? ==> step.id !in s.rows)
    && (step.Create? ==> forall env :: step.key != HealthKey(env))
  }

  // ----- what every state satisfies -----

  /** An environment last seen healthy has no unresolved health notification; an open key is
      open once; what is resolved has been read. */
  ghost predicate Inv(s: State) {
    && (forall env, r | env in s.healthy && r in s.rows && s.rows[r].key == HealthKey(env) :: s.rows[r].resolvedAt.Some?)
    && (forall a, b | a in s.rows && b in s.rows && s.rows[a].key == s.rows[b].key != ""
          && s.rows[a].resolvedAt.None? && s.rows[b].resolvedAt.None? :: a == b)
    && (forall r | r in s.rows && s.rows[r].resolvedAt.Some? :: s.rows[r].readAt.Some?)
    && s.healthy <= s.results && s.alerted <= s.results && s.failures.Keys <= s.results
  }

  lemma RecordKeepsInv(s: State, step: Step)
    requires Inv(s) && Possible(s, step) && step.Record?
    ensures Inv(Next(s, step))
  {
    var t := Next(s, step);
    forall env, r | env in t.healthy && r in t.rows && t.rows[r].key == HealthKey(env)
      ensures t.rows[r].resolvedAt.Some?
    {
      if HealthKey(env) == HealthKey(step.env) {
        HealthKeyIsInjective(env, step.env);
      }
    }
  }

  /** Every step keeps this, a restart included. */
  lemma NextKeepsInv(s: State, step: Step)
    requires Inv(s) && Possible(s, step)
    ensures Inv(Next(s, step))
  {
    match step
    case Record(_, _, _, _, _) => RecordKeepsInv(s, step);
    case _ =>
  }

  /** A time of reading or resolving, and who did it, is written once; a row goes away only
      when it is resolved. */
  lemma TimesAreWriteOnce(s: State, step: Step, r: string)
    requires Possible(s, step) && r in s.rows
    ensures var t := Next(s, step);
      if r in t.rows then
        && t.rows[r].key == s.rows[r].key
        && (s.rows[r].readAt.Some? ==> t.rows[r].readAt == s.rows[r].readAt)
        && (s.rows[r].readBy.Some? ==> t.rows[r].readBy == s.rows[r].readBy)
        && (s.rows[r].resolvedAt.Some? ==> t.rows[r] == s.rows[r].(readAt := t.rows[r].readAt, readBy := t.rows[r].readBy,
                                                                   resolvedBy := t.rows[r].resolvedBy))
        && (s.rows[r].resolvedBy.Some? ==> t.rows[r].resolvedBy == s.rows[r].resolvedBy)
      else s.rows[r].resolvedAt.Some?
  {
  }

  function Unread(rows: map<string, Row>): set<string> {
    set r | r in rows && rows[r].readAt.None?
  }

  function Unresolved(rows: map<string, Row>): set<string> {
    set r | r in rows && rows[r].resolvedAt.None?
  }

  /** The summary never shows more unread than unresolved notifications. */
  lemma UnreadAtMostUnresolved(s: State)
    requires Inv(s)
    ensures |Unread(s.rows)| <= |Unresolved(s.rows)|
  {
    SubsetSize(Unread(s.rows), Unresolved(s.rows));
  }

  // ----- whole runs -----

  function After(s: State, steps: seq<Step>): State {
    if steps == [] then s else Next(After(s, steps[..|steps| - 1]), steps[|steps| - 1])
  }

  ghost predicate Runs(s: State, steps: seq<Step>) {
    forall i | 0 <= i < |steps| :: Possible(After(s, steps[..i]), steps[i])
  }

  /** A new process over an existing table. */
  function Started(rows: map<string, Row>): State {
    State({}, map[], {}, {}, rows)
  }

  lemma {:induction false} RunsKeepInv(rows: map<string, Row>, steps: seq<Step>)
    requires Inv(Started(rows)) && Runs(Started(rows), steps)
    ensures Inv(After(Started(rows), steps))
  {
    if steps != [] {
      var front := steps[..|steps| - 1];
      FrontRuns(Started(rows), steps);
      RunsKeepInv(rows, front);
      NextKeepsInv(After(Started(rows), front), steps[|steps| - 1]);
    }
  }

  lemma FrontRuns(s: State, steps: seq<Step>)
    requires Runs(s, steps) && steps != []
    ensures Runs(s, steps[..|steps| - 1]) && Possible(After(s, steps[..|steps| - 1]), steps[|steps| - 1])
  {
    var front := steps[..|steps| - 1];
    forall i | 0 <= i < |front| ensures Possible(After(s, front[..i]), front[i]) {
      assert front[..i] == steps[..i];
    }
  }

  /** Unhealthy results of an environment since its last healthy one, since the monitor forgot
      it, or since the process started. */
  function Streak(steps: seq<Step>, env: string): nat {
    if steps == [] then 0
    else
      var front, last := steps[..|steps| - 1], steps[|steps| - 1];
      match last
      case Record(e, _, _, _, _) =>
        if e != env then Streak(front, env) else if Unhealthy(last) then Streak(front, env) + 1 else 0
      case Prune(known) => if env in known then Streak(front, env) else 0
      case Restart => 0
      case _ => Streak(front, env)
  }

  lemma {:induction false} CountersFollowStreak(rows: map<string, Row>, steps: seq<Step>, env: string)
    ensures var s := After(Started(rows), steps);
      && Failures(s, env) == Streak(steps, env) && (env in s.alerted <==> Streak(steps, env) >= 3)
      && (env !in s.results ==> Streak(steps, env) == 0 && env !in s.healthy)
      && (env in s.healthy ==> Streak(steps, env) == 0)
  {
    if steps != [] {
      CountersFollowStreak(rows, steps[..|steps| - 1], env);
    }
  }

  /** An alert is raised exactly by the third consecutive unhealthy result: not before, and
      never again until a healthy result, or a new start, has ended the outage. */
  lemma AlertExactlyAtThird(rows: map<string, Row>, steps: seq<Step>, step: Step)
    requires step.Record?
    ensures Alerts(After(Started(rows), steps), step) <==>
      Unhealthy(step) && Streak(steps + [step], step.env) == 3
  {
    CountersFollowStreak(rows, steps, step.env);
    assert (steps + [step])[..|steps|] == steps;
  }

  /** After an alert the environment has exactly one open health notification, new or kept. */
  lemma AlertLeavesOneOpen(s: State, step: Step)
    requires Inv(s) && Possible(s, step) && Alerts(s, step)
    ensures var rows := Next(s, step).rows;
      exists r | r in rows :: rows[r].key == HealthKey(step.env) && rows[r].resolvedAt.None?
        && forall q | q in rows && rows[q].key == HealthKey(step.env) && rows[q].resolvedAt.None? :: q == r
  {
    NextKeepsInv(s, step);
    var rows := Next(s, step).rows;
    assert IsOpen(rows, HealthKey(step.env)) by {
      if !IsOpen(s.rows, HealthKey(step.env)) {
        assert step.id in rows;
      }
    }
    assert HealthKey(step.env) != "";
    var r :| r in rows && rows[r].key == HealthKey(step.env) && rows[r].resolvedAt.None?;
  }

  /** A healthy result leaves no open health notification, also right after a restart, and
      touches no other notification. */
  lemma HealthyResolves(s: State, step: Step)
    requires Inv(s) && Possible(s, step) && step.Record? && !Unhealthy(step)
    ensures !IsOpen(Next(s, step).rows, HealthKey(step.env))
    ensures forall r | r in s.rows && s.rows[r].key != HealthKey(step.env) ::
      r in Next(s, step).rows && Next(s, step).rows[r] == s.rows[r]
  {
    NextKeepsInv(s, step);
  }

  lemma RoundOneMore(s: State, checks: seq<Step>, i: nat)
    requires i < |checks| && forall c | c in checks :: c.Record?
    ensures After(s, checks[..i + 1]) == Next(After(s, checks[..i]), checks[i]) && checks[i].Record?
    ensures (set c | c in checks[..i + 1] :: c.env) == (set c | c in checks[..i] :: c.env) + {checks[i].env}
  {
    assert checks[..i + 1] == checks[..i] + [checks[i]] && checks[..i + 1][..i] == checks[..i];
    assert checks[i] in checks;
  }

  // ----- what each operation comes to, in terms of the rows -----

  /** A new unread notification, unless one of that key is open; without a key always a new one. */
  ghost predicate Raised(before: map<string, Row>, after: map<string, Row>, id: string, key: string) {
    if key != "" && exists r | r in before :: before[r].key == key && before[r].resolvedAt == None then after == before
    else id in after && after[id] == Row(key, None, None, None, None) && after - {id} == before - {id}
  }

  /** Read by the actor now, or as it was read before. */
  ghost predicate IsRead(before: Row, after: Row, actor: string, now: string) {
    && (if before.readAt == None then after.readAt == Some(now) else after.readAt == before.readAt)
    && (if before.readBy == None then after.readBy == Some(actor) else after.readBy == before.readBy)
  }

  ghost predicate OnlyRead(before: Row, after: Row, actor: string, now: string) {
    IsRead(before, after, actor, now)
    && after.key == before.key && after.resolvedAt == before.resolvedAt && after.resolvedBy == before.resolvedBy
  }

  /** Read, and resolved by the actor now, or as it was resolved before. */
  ghost predicate IsResolved(before: Row, after: Row, actor: string, now: string) {
    && IsRead(before, after, actor, now) && after.key == before.key
    && (if before.resolvedAt == None then after.resolvedAt == Some(now) else after.resolvedAt == before.resolvedAt)
    && (if before.resolvedBy == None then after.resolvedBy == Some(actor) else after.resolvedBy == before.resolvedBy)
  }

  /** Every open row of the key is resolved by the system, and no other row changes. */
  ghost predicate KeyResolved(before: map<string, Row>, after: map<string, Row>, key: string, now: string) {
    && after.Keys == before.Keys
    && forall r | r in before ::
         if before[r].key == key && before[r].resolvedAt == None then IsResolved(before[r], after[r], "system", now)
         else after[r] == before[r]
  }

  /** The outcome of one result: an unhealthy one counts, and from the third on alerts unless it has
      been alerted; any other ends the outage, and resolves unless the last one was healthy too. */
  ghost predicate RecordMeans(s: State, t: State, env: string, down: bool, id: string, now: string) {
    var count := (if env in s.failures then s.failures[env] else 0) + 1;
    && t.results == s.results + {env} && t.failures - {env} == s.failures - {env} && env in t.failures
    && t.alerted - {env} == s.alerted - {env} && t.healthy - {env} == s.healthy - {env}
    && if down then
         && t.failures[env] == count && env !in t.healthy && (env in t.alerted <==> env in s.alerted || count >= 3)
         && if count >= 3 && env !in s.alerted then Raised(s.rows, t.rows, id, "service-health:" + env) else t.rows == s.rows
       else
         && t.failures[env] == 0 && env in t.healthy && env !in t.alerted
         && if env in s.healthy then t.rows == s.rows else KeyResolved(s.rows, t.rows, "service-health:" + env, now)
  }

  lemma RecordDoes(s: State, env: string, installed: bool, ok: bool, id: string, now: string)
    ensures RecordMeans(s, Next(s, Step.Record(env, installed, ok, id, now)), env, installed && !ok, id, now)
  {
  }

  class Monitor {
    var results: set<string>
    var failures: map<string, nat>
    var alerted: set<string>
    var healthy: set<string>
    var rows: map<string, Row>

    constructor (rows: map<string, Row>)
      ensures View() == Started(rows)
    {
      results, failures, alerted, healthy := {}, map[], {}, {};
      this.rows := rows;
    }

    function View(): State
      reads this
    {
      State(results, failures, alerted, healthy, rows)
    }

    method CreateNotification(id: string, key: string)
      modifies this`rows
      ensures rows == Inserted(old(rows), id, key) && Raised(old(rows), rows, id, key)
    {
      if key == "" || !IsOpen(rows, key) {
        rows := rows[id := Row(key, None, None, None, None)];
      }
    }

    method ResolveByKey(key: string, now: string)
      modifies this`rows
      ensures rows == ResolvedByKey(old(rows), key, now) && KeyResolved(old(rows), rows, key, now)
    {
      rows := map r | r in rows ::
        if rows[r].key == key && rows[r].resolvedAt.None? then Done(rows[r], "system", now) else rows[r];
    }

    method RecordResult(env: string, installed: bool, ok: bool, id: string, now: string)
      modifies this
      ensures View() == Next(old(View()), Step.Record(env, installed, ok, id, now))
      ensures RecordMeans(old(View()), View(), env, installed && !ok, id, now)
    {
      RecordDoes(View(), env, installed, ok, id, now);
      var isHealthy := ok || !installed;
      var shouldAlert, shouldResolve := false, false;
      results := results + {env};
      if installed && !isHealthy {
        failures := failures[env := (if env in failures then failures[env] else 0) + 1];
        if failures[env] >= 3 && env !in alerted {
          alerted := alerted + {env};
          shouldAlert := true;
        }
      } else {
        shouldResolve := env !in healthy;
        failures := failures[env := 0];
        alerted := alerted - {env};
      }
      healthy := if isHealthy then healthy + {env} else healthy - {env};
      if shouldResolve {
        ResolveByKey(HealthKey(env), now);
      }
      if shouldAlert {
        CreateNotification(id, HealthKey(env));
      }
    }

    /** One round over the listed environments, then the monitor forgets all others. */
    method CheckAll(checks: seq<Step>)
      requires forall c | c in checks :: c.Record?
      modifies this
      ensures View() == After(old(View()), checks + [Prune(set c | c in checks :: c.env)])
      ensures results == set c | c in checks :: c.env
    {
      var known: set<string> := {};
      for i := 0 to |checks|
        invariant View() == After(old(View()), checks[..i])
        invariant known == (set c | c in checks[..i] :: c.env) && known <= results
      {
        var c := checks[i];
        RoundOneMore(old(View()), checks, i);
        RecordResult(c.env, c.installed, c.ok, c.id, c.now);
        known := known + {c.env};
      }
      assert checks[..|checks|] == checks;
      var gone := results - known;
      results, failures, alerted, healthy := results - gone, failures - gone, alerted - gone, healthy - gone;
      assert (checks + [Prune(known)])[..|checks|] == checks;
    }

    method MarkNotificationRead(id: string, actor: string, now: string) returns (found: bool)
      modifies this`rows
      ensures View() == Next(old(View()), Step.Read(id, actor, now)) && found == (id in old(rows))
      ensures rows.Keys == old(rows).Keys && rows - {id} == old(rows) - {id}
      ensures found ==> OnlyRead(old(rows)[id], rows[id], actor, now)
    {
      found := id in rows;
      if found {
        rows := rows[id := Seen(rows[id], actor, now)];
      }
    }

    method ResolveNotification(id: string, actor: string, now: string) returns (found: bool)
      modifies this`rows
      ensures View() == Next(old(View()), Step.Resolve(id, actor, now)) && found == (id in old(rows))
      ensures rows.Keys == old(rows).Keys && rows - {id} == old(rows) - {id}
      ensures found ==> IsResolved(old(rows)[id], rows[id], actor, now)
    {
      found := id in rows;
      if found {
        rows := rows[id := Done(rows[id], actor, now)];
      }
    }

    method Summary() returns (unread: nat, unresolved: nat)
      requires Inv(View())
      ensures unread == |Unread(rows)| && unresolved == |Unresolved(rows)| && unread <= unresolved
      ensures unread == |set r | r in rows && rows[r].readAt.None?|
      ensures unresolved == |set r | r in rows && rows[r].resolvedAt.None?|
    {
      UnreadAtMostUnresolved(View());
      assert Unread(rows) == (set r | r in rows && rows[r].readAt.None?);
      assert Unresolved(rows) == (set r | r in rows && rows[r].resolvedAt.None?);
      unread, unresolved := |Unread(rows)|, |Unresolved(rows)|;
    }
  }
}
