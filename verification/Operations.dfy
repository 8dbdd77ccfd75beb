/** The lifecycle-operation protocol: the in-memory `active` map of the operation
    manager, the `operations` and `environments` tables, ownership transfer, retention
    and restart, interleaved step by step.

    Every step below is one atomic action of the program: one critical section of the
    manager's mutex or one database transaction.  The clauses of `Enabled` are the
    guards the code evaluates inside that same action, never earlier ones.
 */
module Operations {
  import Keyset
  import opened Prelude

  type Id = string

  datatype Action = Install | Start | Stop | Reset

  datatype Status = Queued | Running | Succeeded | Failed | TimedOut | Interrupted

  predicate Live(status: Status) {
    status.Queued? || status.Running?
  }

  datatype Env = Env(owner: Id, installed: bool)

  datatype Op = Op(env: Id, owner: Id, action: Action, status: Status, stage: string, code: string)

  /** What one start call read from `environments` before it took the mutex. */
  datatype Look = Look(env: Id, owner: Id, action: Action)

  /** How far the call that reserved an environment, and then its goroutine, has come. */
  datatype Phase = Reserved | Accepted | Settled

  datatype Worker = Worker(look: Look, phase: Phase)

  datatype State = State(
    envs: map<Id, Env>,          // table environments
    ops: map<Id, Op>,            // table operations
    active: map<Id, Id>,         // Manager.active: environment -> operation
    workers: map<Id, Worker>,    // start calls past the mutex and their goroutines, by operation id
    looks: set<Look>,            // start calls still before the mutex
    issued: set<Id>)             // operation ids NewID has returned so far

  datatype Step =
    | AddEnv(env: Id, owner: Id, installed: bool)
    | DropEnv(env: Id)
    | MarkEnv(env: Id, installed: bool)
    | Observe(look: Look, packaged: bool)
    | Reserve(look: Look, op: Id)
    | Abandon(op: Id)
    | Create(op: Id)
    | Progress(op: Id, stage: string, stored: bool)
    | Finish(op: Id, status: Status, stage: string, code: string)
    | Release(op: Id)
    | Transfer(source: Id, target: Id)
    | Retire(gone: set<Id>)
    | Restart

  function Initial(): State {
    State(map[], map[], map[], map[], {}, {})
  }

  /** The checks a start call makes on the environment it read; no lock is held. */
  predicate Admissible(action: Action, installed: bool, packaged: bool) {
    match action
    case Install => !installed && packaged
    case Start => installed
    case Stop => installed
    case Reset => true
  }

  /** `SELECT COUNT(*) FROM operations WHERE owner_id = source AND status IN (...)` is zero. */
  predicate NoneInFlight(ops: map<Id, Op>, owner: Id) {
    forall o | o in ops && Live(ops[o].status) :: ops[o].owner != owner
  }

  predicate HasWorker(s: State, op: Id, phase: Phase) {
    op in s.workers && s.workers[op].phase == phase
  }

  /** What the owner re-check inside CreateOperation's transaction compares. */
  predicate OwnerUnchanged(s: State, op: Id)
    requires op in s.workers
  {
    var look := s.workers[op].look;
    look.env in s.envs && s.envs[look.env].owner == look.owner
  }

  predicate Enabled(s: State, step: Step) {
    match step
    case AddEnv(e, owner, _) => e !in s.envs && owner != ""
                                && forall o | o in s.ops :: s.ops[o].env != e
    case DropEnv(e) => e in s.envs
    case MarkEnv(e, _) => e in s.envs
    case Observe(look, packaged) =>
      look.env in s.envs && look.owner == s.envs[look.env].owner
      && Admissible(look.action, s.envs[look.env].installed, packaged)
    case Reserve(look, op) => look in s.looks && look.env !in s.active && op !in s.issued
    case Abandon(op) => HasWorker(s, op, Reserved)
    case Create(op) => HasWorker(s, op, Reserved)
    case Progress(op, _, _) => HasWorker(s, op, Accepted)
    case Finish(op, status, _, _) => HasWorker(s, op, Accepted) && !Live(status)
    case Release(op) => HasWorker(s, op, Settled)
    case Transfer(source, target) =>
      source != target && target != "" && NoneInFlight(s.ops, source)
    case Retire(gone) => forall o | o in gone :: o in s.ops && !Live(s.ops[o].status)
    case Restart => true
  }

  /** What a row is about never changes. */
  predicate SameOrder(a: Op, b: Op) {
    a.env == b.env && a.owner == b.owner && a.action == b.action
  }

  function Released(s: State, op: Id): State
    requires op in s.workers
  {
    s.(active := s.active - {s.workers[op].look.env}, workers := s.workers - {op})
  }

  function Interrupt(op: Op): Op {
    if Live(op.status) then op.(status := Interrupted, stage := "interrupted", code := "SERVER_RESTARTED") else op
  }

  function Next(s: State, step: Step): State
    requires Enabled(s, step)
  {
    match step
    case AddEnv(e, owner, installed) => s.(envs := s.envs[e := Env(owner, installed)])
    case DropEnv(e) => s.(envs := s.envs - {e})
    case MarkEnv(e, installed) => s.(envs := s.envs[e := s.envs[e].(installed := installed)])
    case Observe(look, _) => s.(looks := s.looks + {look})
    case Reserve(look, op) =>
      s.(active := s.active[look.env := op],
      workers := s.workers[op := Worker(look, Reserved)],
      issued := s.issued + {op})
    case Abandon(op) => Released(s, op)
    case Create(op) =>
      if OwnerUnchanged(s, op) then
        var look := s.workers[op].look;
        s.(ops := s.ops[op := Op(look.env, look.owner, look.action, Queued, "queued", "")],
        workers := s.workers[op := Worker(look, Accepted)])
      else Released(s, op)
    case Progress(op, stage, stored) =>
      // The write uses the server's context and its error is ignored, so it may be lost.
      if stored && op in s.ops then
        s.(ops := s.ops[op := s.ops[op].(status := Running, stage := stage)])
      else s
    case Finish(op, status, stage, code) =>
      var settled := s.workers[op := s.workers[op].(phase := Settled)];
      if op in s.ops then
        s.(ops := s.ops[op := s.ops[op].(status := status, stage := stage, code := code)], workers := settled)
      else s.(workers := settled)
    case Release(op) => Released(s, op)
    case Transfer(source, target) =>
      s.(envs := map e | e in s.envs :: if s.envs[e].owner == source then s.envs[e].(owner := target) else s.envs[e])
    case Retire(gone) => s.(ops := s.ops - gone)
    case Restart =>
      s.(ops := map o | o in s.ops :: Interrupt(s.ops[o]), active := map[], workers := map[], looks := {})
  }

  // ----- safety -----

  /** The guarantee a user of the platform relies on. */
  ghost predicate Exclusive(s: State) {
    && (forall a, b | a in s.ops && b in s.ops && Live(s.ops[a].status) && Live(s.ops[b].status)
                      && s.ops[a].env == s.ops[b].env :: a == b)
    && (forall o | o in s.ops && Live(s.ops[o].status) ::
          s.ops[o].env in s.active && s.active[s.ops[o].env] == o)
    && (forall o | o in s.ops && Live(s.ops[o].status) && s.ops[o].env in s.envs ::
          s.ops[o].owner == s.envs[s.ops[o].env].owner)
  }

  /** An occupied slot of `active` names the worker that reserved it. */
  ghost predicate SlotOk(s: State, e: Id)
    requires e in s.active
  {
    s.active[e] in s.workers && s.workers[s.active[e]].look.env == e
  }

  /** A worker keeps its slot until it is released, and its row is live exactly between
      its creation and its terminal write. */
  ghost predicate WorkerOk(s: State, w: Id)
    requires w in s.workers
  {
    var worker := s.workers[w];
    && worker.look.env in s.active && s.active[worker.look.env] == w
    && match worker.phase
       case Reserved => w !in s.ops
       case Accepted => w in s.ops && Live(s.ops[w].status) && s.ops[w].env == worker.look.env
       case Settled => w in s.ops ==> !Live(s.ops[w].status)
  }

  /** A live row has a worker, and carries the environment's current owner. */
  ghost predicate RowOk(s: State, o: Id)
    requires o in s.ops
  {
    Live(s.ops[o].status) ==>
      && HasWorker(s, o, Accepted)
      && (s.ops[o].env in s.envs ==> s.ops[o].owner == s.envs[s.ops[o].env].owner)
  }

  ghost predicate Inv(s: State) {
    && (forall e | e in s.active :: SlotOk(s, e))
    && (forall w | w in s.workers :: WorkerOk(s, w))
    && (forall o | o in s.ops :: RowOk(s, o))
    && s.workers.Keys <= s.issued && s.ops.Keys <= s.issued
    && (forall e | e in s.envs :: s.envs[e].owner != "")
  }

  lemma InvIsExclusive(s: State)
    requires Inv(s)
    ensures Exclusive(s)
  {
    forall o | o in s.ops && Live(s.ops[o].status)
      ensures s.ops[o].env in s.active && s.active[s.ops[o].env] == o
      ensures s.ops[o].env in s.envs ==> s.ops[o].owner == s.envs[s.ops[o].env].owner
    {
      assert RowOk(s, o) && WorkerOk(s, o);
    }
  }

  lemma StepKeepsInv(s: State, step: Step)
    requires Inv(s) && Enabled(s, step)
    ensures Inv(Next(s, step))
  {
    var t := Next(s, step);
    forall e | e in t.active ensures SlotOk(t, e) {
      StepKeepsSlot(s, step, e);
    }
    forall w | w in t.workers ensures WorkerOk(t, w) {
      StepKeepsWorker(s, step, w);
    }
    forall o | o in t.ops ensures RowOk(t, o) {
      StepKeepsRow(s, step, o);
    }
    StepKeepsNames(s, step);
  }

  lemma StepKeepsSlot(s: State, step: Step, e: Id)
    requires Inv(s) && Enabled(s, step) && e in Next(s, step).active
    ensures SlotOk(Next(s, step), e)
  {
    assert e in s.active ==> SlotOk(s, e);
    match step
    case Abandon(op) => assert WorkerOk(s, op);
    case Create(op) => assert WorkerOk(s, op);
    case Release(op) => assert WorkerOk(s, op);
    case _ =>
  }

  lemma StepKeepsWorker(s: State, step: Step, w: Id)
    requires Inv(s) && Enabled(s, step) && w in Next(s, step).workers
    ensures WorkerOk(Next(s, step), w)
  {
    assert w in s.workers ==> WorkerOk(s, w);
    match step
    case Abandon(op) => assert WorkerOk(s, op);
    case Create(op) => assert WorkerOk(s, op);
    case Release(op) => assert WorkerOk(s, op);
    case _ =>
  }

  lemma StepKeepsRow(s: State, step: Step, o: Id)
    requires Inv(s) && Enabled(s, step) && o in Next(s, step).ops
    ensures RowOk(Next(s, step), o)
  {
    assert o in s.ops ==> RowOk(s, o);
    assert o in s.workers ==> WorkerOk(s, o);
  }

  lemma StepKeepsNames(s: State, step: Step)
    requires Inv(s) && Enabled(s, step)
    ensures var t := Next(s, step);
            && t.workers.Keys <= t.issued && t.ops.Keys <= t.issued
            && forall e | e in t.envs :: t.envs[e].owner != ""
  {
    match step
    case Finish(op, _, _, _) => assert WorkerOk(s, op);
    case _ =>
  }

  // ----- whole runs -----

  ghost predicate Legal(s: State, steps: seq<Step>)
    decreases |steps|
  {
    steps == [] || (Enabled(s, steps[0]) && Legal(Next(s, steps[0]), steps[1..]))
  }

  ghost function After(s: State, steps: seq<Step>): State
    requires Legal(s, steps)
    decreases |steps|
  {
    if steps == [] then s else After(Next(s, steps[0]), steps[1..])
  }

  lemma {:induction false} RunKeepsInv(s: State, steps: seq<Step>)
    requires Inv(s) && Legal(s, steps)
    ensures Inv(After(s, steps))
    decreases |steps|
  {
    if steps != [] {
      StepKeepsInv(s, steps[0]);
      RunKeepsInv(Next(s, steps[0]), steps[1..]);
    }
  }

  /** In every state of every interleaving an environment has at most one operation that
      is queued or running, it is the one `active` names, and it belongs to the
      environment's current owner. */
  lemma RunsAreExclusive(steps: seq<Step>)
    requires Legal(Initial(), steps)
    ensures Exclusive(After(Initial(), steps))
  {
    RunKeepsInv(Initial(), steps);
    InvIsExclusive(After(Initial(), steps));
  }

  /** No worker can write this row any more. */
  ghost predicate Sealed(s: State, o: Id, row: Op) {
    && o in s.issued
    && !HasWorker(s, o, Reserved) && !HasWorker(s, o, Accepted)
    && (o in s.ops ==> s.ops[o] == row)
  }

  lemma SealedOneStep(s: State, step: Step, o: Id, row: Op)
    requires Inv(s) && Enabled(s, step) && !Live(row.status) && Sealed(s, o, row)
    ensures Sealed(Next(s, step), o, row)
  {
    assert o in s.workers ==> WorkerOk(s, o);
  }

  lemma {:induction false} SealedRowsStay(s: State, steps: seq<Step>, o: Id, row: Op)
    requires Inv(s) && Legal(s, steps) && !Live(row.status) && Sealed(s, o, row)
    ensures Sealed(After(s, steps), o, row)
    decreases |steps|
  {
    if steps != [] {
      var t := Next(s, steps[0]);
      StepKeepsInv(s, steps[0]);
      SealedOneStep(s, steps[0], o, row);
      SealedRowsStay(t, steps[1..], o, row);
    }
  }

  /** A terminal row is never written again: as long as retention keeps it, it is the
      row it was, and once deleted it does not come back with other contents. */
  lemma TerminalRowsAreFinal(before: seq<Step>, after: seq<Step>, o: Id)
    requires Legal(Initial(), before)
    requires var s := After(Initial(), before);
             Legal(s, after) && o in s.ops && !Live(s.ops[o].status)
    ensures var s := After(Initial(), before); var t := After(s, after);
            o in t.ops ==> t.ops[o] == s.ops[o]
  {
    var s := After(Initial(), before);
    RunKeepsInv(Initial(), before);
    assert o in s.workers ==> WorkerOk(s, o);
    SealedRowsStay(s, after, o, s.ops[o]);
  }

  // ----- where a status comes from -----

  /** Every way the status of a row can change in one step: only a row that does not exist is
      queued; only the worker's own writes make it running or give it the worker's verdict; only
      a restart interrupts, and it interrupts whatever is queued or running; only rows that are
      neither are deleted. */
  lemma StatusChanges(s: State, step: Step, o: Id)
    requires Inv(s) && Enabled(s, step) && (o in s.ops || o in Next(s, step).ops)
    ensures var t := Next(s, step);
      if o !in s.ops then
        step == Create(o) && t.ops[o].status == Queued && SameOrder(t.ops[o], Op(s.workers[o].look.env,
          s.workers[o].look.owner, s.workers[o].look.action, Queued, "", ""))
      else if o !in t.ops then
        step.Retire? && o in step.gone && s.ops[o].status !in {Queued, Running}
      else
        SameOrder(s.ops[o], t.ops[o])
        && if step.Finish? && step.op == o then
             s.ops[o].status in {Queued, Running}
             && t.ops[o].status == step.status && t.ops[o].stage == step.stage && t.ops[o].code == step.code
           else if step.Progress? && step.op == o && step.stored then
             s.ops[o].status in {Queued, Running} && t.ops[o].status == Running && t.ops[o].stage == step.stage
           else if step.Restart? && s.ops[o].status in {Queued, Running} then
             t.ops[o].status == Interrupted && t.ops[o].stage == "interrupted" && t.ops[o].code == "SERVER_RESTARTED"
           else t.ops[o] == s.ops[o]
  {
    assert o in s.ops ==> RowOk(s, o);
    assert o in s.workers ==> WorkerOk(s, o);
  }

  /** Some step of the run is the operation's own terminal write of this verdict. */
  ghost predicate Earned(steps: seq<Step>, o: Id, status: Status, stage: string, code: string) {
    exists i | 0 <= i < |steps| :: steps[i] == Finish(o, status, stage, code)
  }

  lemma {:induction false} VerdictsFrom(s: State, steps: seq<Step>, o: Id)
    requires Inv(s) && Legal(s, steps) && o in After(s, steps).ops && !Live(After(s, steps).ops[o].status)
    ensures var row := After(s, steps).ops[o];
      || (o in s.ops && s.ops[o] == row)
      || Earned(steps, o, row.status, row.stage, row.code)
      || (Restart in steps && row.status == Interrupted && row.stage == "interrupted" && row.code == "SERVER_RESTARTED")
    decreases |steps|
  {
    if steps != [] {
      var t := Next(s, steps[0]);
      StepKeepsInv(s, steps[0]);
      VerdictsFrom(t, steps[1..], o);
      var row := After(s, steps).ops[o];
      if Earned(steps[1..], o, row.status, row.stage, row.code) {
        var i :| 0 <= i < |steps| - 1 && steps[1..][i] == Finish(o, row.status, row.stage, row.code);
        assert steps[i + 1] == Finish(o, row.status, row.stage, row.code);
      } else if o in t.ops && t.ops[o] == row {
        StatusChanges(s, steps[0], o);
        assert steps[0] in steps;
      }
    }
  }

  /** In every run the outcome of a finished operation is the verdict its own goroutine wrote,
      or, if that never came, the interruption by a restart: nothing else ever succeeds or fails
      an operation. */
  lemma VerdictsAreEarned(steps: seq<Step>, o: Id)
    requires Legal(Initial(), steps) && o in After(Initial(), steps).ops && !Live(After(Initial(), steps).ops[o].status)
    ensures var row := After(Initial(), steps).ops[o];
      || Earned(steps, o, row.status, row.stage, row.code)
      || (Restart in steps && row.status == Interrupted && row.stage == "interrupted" && row.code == "SERVER_RESTARTED")
  {
    VerdictsFrom(Initial(), steps, o);
  }

  // ----- waiting for quiescence -----

  /** Wait() returns once every goroutine is gone; then no row claims to be in flight. */
  lemma NothingLiveWithoutWorkers(s: State)
    requires Inv(s) && s.workers == map[]
    ensures s.active == map[] && forall o | o in s.ops :: !Live(s.ops[o].status)
  {
    assert forall e | e in s.active :: SlotOk(s, e);
    forall o | o in s.ops ensures !Live(s.ops[o].status) {
      assert RowOk(s, o);
    }
  }

  /** From every reachable state the remaining workers can run to their end, each in at
      most two further steps and without help from any other part of the system. */
  lemma {:induction false} WorkersDrain(s: State) returns (steps: seq<Step>)
    requires Inv(s)
    ensures Legal(s, steps) && |steps| <= 2 * |s.workers|
    ensures After(s, steps).workers == map[] && Inv(After(s, steps))
    decreases |s.workers|
  {
    if s.workers == map[] {
      return [];
    }
    var w :| w in s.workers;
    assert WorkerOk(s, w);
    var first :=
      match s.workers[w].phase
      case Reserved => [Abandon(w)]
      case Accepted => [Finish(w, Failed, "prepare", "LOG_CREATE_FAILED"), Release(w)]
      case Settled => [Release(w)];
    FewSteps(s, first);
    var t := After(s, first);
    assert t.workers == s.workers - {w};
    assert t.workers.Keys == s.workers.Keys - {w};
    RunKeepsInv(s, first);
    var rest := WorkersDrain(t);
    RunsCompose(s, first, rest);
    return first + rest;
  }

  lemma FewSteps(s: State, steps: seq<Step>)
    requires 1 <= |steps| <= 2 && Enabled(s, steps[0])
    requires |steps| == 2 ==> Enabled(Next(s, steps[0]), steps[1])
    ensures Legal(s, steps)
    ensures After(s, steps) == if |steps| == 1 then Next(s, steps[0]) else Next(Next(s, steps[0]), steps[1])
  {
    var t := Next(s, steps[0]);
    if |steps| == 2 {
      assert steps[1..] == [steps[1]];
      assert [steps[1]][1..] == [];
      assert Legal(t, steps[1..]);
      assert After(t, [steps[1]]) == Next(t, steps[1]);
    } else {
      assert steps[1..] == [];
    }
  }

  lemma {:induction false} RunsCompose(s: State, a: seq<Step>, b: seq<Step>)
    requires Legal(s, a) && Legal(After(s, a), b)
    ensures Legal(s, a + b) && After(s, a + b) == After(After(s, a), b)
    decreases |a|
  {
    if a == [] {
      assert a + b == b;
    } else {
      RunsCompose(Next(s, a[0]), a[1..], b);
      assert (a + b)[1..] == a[1..] + b;
    }
  }

  // ----- transfer against operations -----

  /** A transfer that is let through moves no environment an operation is working on. */
  lemma TransferSparesLiveOperations(s: State, source: Id, target: Id, o: Id)
    requires Inv(s) && Enabled(s, Transfer(source, target))
    requires o in s.ops && Live(s.ops[o].status) && s.ops[o].env in s.envs
    ensures Next(s, Transfer(source, target)).envs[s.ops[o].env] == s.envs[s.ops[o].env]
  {
    assert RowOk(s, o);
  }

  /** A start call that read the environment before a transfer and stores its row after
      it is refused, and gives its reservation back. */
  lemma StaleStartIsRefused(s: State, source: Id, target: Id, op: Id)
    requires Inv(s) && Enabled(s, Transfer(source, target)) && HasWorker(s, op, Reserved)
    requires s.workers[op].look.owner == source
    ensures var moved := Next(s, Transfer(source, target));
            && HasWorker(moved, op, Reserved)
            && Next(moved, Create(op)) == Released(moved, op)
            && Next(moved, Create(op)).ops == s.ops
  {
  }

  /** CreateOperation as it would be without the owner comparison. */
  function CreateUnchecked(s: State, op: Id): State
    requires HasWorker(s, op, Reserved)
  {
    var look := s.workers[op].look;
    s.(ops := s.ops[op := Op(look.env, look.owner, look.action, Queued, "queued", "")],
    workers := s.workers[op := Worker(look, Accepted)])
  }

  /** The comparison is what keeps the invariant: without it a transfer between the
      reservation and the insert leaves a queued row under the former owner. */
  lemma OwnerCheckIsNeeded()
    ensures exists steps: seq<Step>, op: Id ::
              && Legal(Initial(), steps)
              && HasWorker(After(Initial(), steps), op, Reserved)
              && !Exclusive(CreateUnchecked(After(Initial(), steps), op))
  {
    var look := Look("e", "a", Action.Reset);
    var steps := [AddEnv("e", "a", false), Observe(look, true)];
    FewSteps(Initial(), steps);
    var s := After(Initial(), steps);
    var more := [Step.Reserve(look, "o"), Transfer("a", "b")];
    FewSteps(s, more);
    RunsCompose(Initial(), steps, more);
    var t := CreateUnchecked(After(s, more), "o");
    assert t.ops["o"].owner == "a" && t.envs["e"].owner == "b";
    assert HasWorker(After(Initial(), steps + more), "o", Reserved);
  }

  /** `finish` logs and ignores a failed write of the terminal row.  If that write could
      fail, two live rows of one environment would be reachable. */
  lemma TerminalWriteIsNeeded(s: State, op: Id, op': Id)
    requires Inv(s) && HasWorker(s, op, Accepted) && op' !in s.issued
    requires s.workers[op].look.env in s.envs
    ensures var look := s.workers[op].look.(owner := s.envs[s.workers[op].look.env].owner, action := Action.Reset);
            var lost := s.(workers := s.workers[op := s.workers[op].(phase := Settled)]);
            exists steps: seq<Step> :: Legal(lost, steps) && !Exclusive(After(lost, steps))
  {
    assert WorkerOk(s, op);
    var e := s.workers[op].look.env;
    var look := s.workers[op].look.(owner := s.envs[e].owner, action := Action.Reset);
    var lost := s.(workers := s.workers[op := s.workers[op].(phase := Settled)]);
    var first := [Release(op), Observe(look, true)];
    FewSteps(lost, first);
    var second := [Step.Reserve(look, op'), Create(op')];
    FewSteps(After(lost, first), second);
    RunsCompose(lost, first, second);
    var t := After(lost, first + second);
    assert op in t.ops && op' in t.ops && Live(t.ops[op].status) && Live(t.ops[op'].status);
    assert t.ops[op].env == t.ops[op'].env;
  }

  // ----- the program's own form -----

  datatype Error =
    | NotFound
    | AlreadyInstalled
    | NotInstalled
    | PackageNotFound
    | OperationInProgress
    | TransferConflict

  /** `finished_at < before` on a terminal row. */
  predicate Expired(ops: map<Id, Op>, finished: map<Id, string>, before: string, o: Id) {
    o in ops && !Live(ops[o].status) && o in finished && Keyset.TextLess(finished[o], before)
  }

  lemma {:induction false} OldestExists(finished: map<Id, string>, ids: set<Id>)
    requires ids != {} && ids <= finished.Keys
    ensures exists o | o in ids :: forall x | x in ids :: !Keyset.TextLess(finished[x], finished[o])
  {
    var y :| y in ids;
    Keyset.TextLessTotal(finished[y], finished[y]);
    if ids == {y} {
      assert forall x | x in ids :: !Keyset.TextLess(finished[x], finished[y]);
    } else {
      OldestExists(finished, ids - {y});
      var o :| o in ids - {y} && forall x | x in ids - {y} :: !Keyset.TextLess(finished[x], finished[o]);
      if Keyset.TextLess(finished[y], finished[o]) {
        forall x | x in ids ensures !Keyset.TextLess(finished[x], finished[y]) {
          if Keyset.TextLess(finished[x], finished[y]) {
            Keyset.TextLessTransitive(finished[x], finished[y], finished[o]);
          }
        }
      } else {
        assert forall x | x in ids :: !Keyset.TextLess(finished[x], finished[o]);
      }
    }
  }

  /** The manager together with the two tables it works on.  Each method up to
      `Transfer` is one atomic action and is proved against the step of that name. */
  class Server {
    var envs: map<Id, Env>
    var ops: map<Id, Op>
    var active: map<Id, Id>
    var workers: map<Id, Worker>
    var looks: set<Look>
    var issued: set<Id>

    ghost function View(): State
      reads this
    {
      State(envs, ops, active, workers, looks, issued)
    }

    constructor ()
      ensures View() == Initial()
    {
      envs, ops, active, workers, looks, issued := map[], map[], map[], map[], {}, {};
    }

    method Observe(env: Id, action: Action, packaged: bool) returns (r: Result<Look, Error>)
      modifies this
      ensures r.Ok? <==> env in old(envs) && Admissible(action, old(envs)[env].installed, packaged)
      ensures r.Ok? ==> r.value == Look(env, old(envs)[env].owner, action)
                        && Enabled(old(View()), Step.Observe(r.value, packaged))
                        && View() == Next(old(View()), Step.Observe(r.value, packaged))
      ensures r.Err? ==> View() == old(View())
      ensures r == Err(NotFound) <==> env !in old(envs)
      ensures r == Err(AlreadyInstalled) <==> env in old(envs) && action.Install? && old(envs)[env].installed
      ensures r == Err(PackageNotFound) <==>
              env in old(envs) && action.Install? && !old(envs)[env].installed && !packaged
      ensures r == Err(NotInstalled) <==>
              env in old(envs) && (action.Start? || action.Stop?) && !old(envs)[env].installed
      ensures r.Err? ==> r.error in {NotFound, AlreadyInstalled, PackageNotFound, NotInstalled}
    {
      if env !in envs {
        return Err(NotFound);
      }
      match action {
        case Install =>
          if envs[env].installed {
            return Err(AlreadyInstalled);
          }
          if !packaged {
            return Err(PackageNotFound);
          }
        case Start =>
          if !envs[env].installed {
            return Err(NotInstalled);
          }
        case Stop =>
          if !envs[env].installed {
            return Err(NotInstalled);
          }
        case Reset =>
      }
      var look := Look(env, envs[env].owner, action);
      looks := looks + {look};
      return Ok(look);
    }

    method Reserve(look: Look, id: Id) returns (r: Result<Id, Error>)
      requires look in looks && id !in issued
      modifies this
      ensures r == if look.env in old(active) then Err(OperationInProgress) else Ok(id)
      ensures r.Ok? ==> View() == Next(old(View()), Step.Reserve(look, id))
      ensures r.Ok? ==> active == old(active)[look.env := id] && ops == old(ops) && envs == old(envs)
      ensures r.Err? ==> View() == old(View())
    {
      if look.env in active {
        return Err(OperationInProgress);
      }
      active := active[look.env := id];
      workers := workers[id := Worker(look, Reserved)];
      issued := issued + {id};
      return Ok(id);
    }

    method Release(op: Id)
      requires op in workers
      modifies this`active, this`workers
      ensures View() == Released(old(View()), op)
      ensures op !in workers && old(workers)[op].look.env !in active
      ensures forall e | e in old(active) && e != old(workers)[op].look.env :: e in active && active[e] == old(active)[e]
    {
      active := active - {workers[op].look.env};
      workers := workers - {op};
    }

    method Create(op: Id) returns (r: Result<Id, Error>)
      requires HasWorker(View(), op, Reserved)
      modifies this
      ensures View() == Next(old(View()), Step.Create(op))
      ensures r.Ok? <==> OwnerUnchanged(old(View()), op)
      ensures r == Err(NotFound) <==> old(workers)[op].look.env !in old(envs)
      ensures r == Err(TransferConflict) <==>
              var look := old(workers)[op].look; look.env in old(envs) && old(envs)[look.env].owner != look.owner
      ensures r.Err? ==> r.error in {NotFound, TransferConflict}
      ensures r.Err? ==> ops == old(ops) && old(workers)[op].look.env !in active && op !in workers
      ensures r.Ok? ==> r.value == op && active == old(active)
                        && var look := old(workers)[op].look;
                           ops == old(ops)[op := Op(look.env, look.owner, look.action, Queued, "queued", "")]
    {
      var look := workers[op].look;
      if look.env !in envs {
        Release(op);
        return Err(NotFound);
      }
      if envs[look.env].owner != look.owner {
        Release(op);
        return Err(TransferConflict);
      }
      ops := ops[op := Op(look.env, look.owner, look.action, Queued, "queued", "")];
      workers := workers[op := Worker(look, Accepted)];
      return Ok(op);
    }

    method Progress(op: Id, stage: string, stored: bool)
      requires HasWorker(View(), op, Accepted)
      modifies this`ops
      ensures View() == Next(old(View()), Step.Progress(op, stage, stored))
      ensures !stored ==> ops == old(ops)
      ensures ops.Keys == old(ops).Keys && ops - {op} == old(ops) - {op}
      ensures stored && op in ops ==> ops[op].status == Running && ops[op].stage == stage && SameOrder(old(ops)[op], ops[op])
    {
      if stored && op in ops {
        ops := ops[op := ops[op].(status := Running, stage := stage)];
      }
    }

    method Finish(op: Id, status: Status, stage: string, code: string)
      requires HasWorker(View(), op, Accepted) && !Live(status)
      modifies this`ops, this`workers
      ensures View() == Next(old(View()), Step.Finish(op, status, stage, code))
      ensures ops.Keys == old(ops).Keys && ops - {op} == old(ops) - {op} && HasWorker(View(), op, Settled)
      ensures op in ops ==> ops[op].status == status && ops[op].stage == stage && ops[op].code == code
                            && SameOrder(old(ops)[op], ops[op])
    {
      if op in ops {
        ops := ops[op := ops[op].(status := status, stage := stage, code := code)];
      }
      workers := workers[op := workers[op].(phase := Settled)];
    }

    /** A new process: an empty manager, and Open() interrupts what the old one left. */
    method Reopen()
      modifies this
      ensures View() == Next(old(View()), Restart)
      ensures active == map[] && workers == map[] && ops.Keys == old(ops).Keys && envs == old(envs)
      ensures forall o | o in old(ops) && (old(ops)[o].status.Queued? || old(ops)[o].status.Running?) ::
                ops[o].status == Interrupted && ops[o].stage == "interrupted" && ops[o].code == "SERVER_RESTARTED"
                && SameOrder(old(ops)[o], ops[o])
      ensures forall o | o in old(ops) && !(old(ops)[o].status.Queued? || old(ops)[o].status.Running?) :: ops[o] == old(ops)[o]
    {
      ops := map o | o in ops :: Interrupt(ops[o]);
      active, workers, looks := map[], map[], {};
    }

    /** `clear` stands for the account and conflict checks of the same transaction,
        which module Ownership models. */
    method Transfer(source: Id, target: Id, clear: bool) returns (r: Result<nat, Error>)
      requires target != ""
      modifies this`envs
      ensures r.Ok? <==> clear && source != target && NoneInFlight(ops, source)
      ensures r.Ok? ==> View() == Next(old(View()), Step.Transfer(source, target))
                        && r.value == |set e | e in old(envs) && old(envs)[e].owner == source|
      ensures r.Ok? <==> clear && source != target && forall o | o in ops && ops[o].owner == source ::
                !ops[o].status.Queued? && !ops[o].status.Running?
      ensures r.Ok? ==> envs.Keys == old(envs).Keys && forall e | e in envs ::
                envs[e].installed == old(envs)[e].installed
                && envs[e].owner == if old(envs)[e].owner == source then target else old(envs)[e].owner
      ensures r.Err? ==> r.error == TransferConflict && View() == old(View())
    {
      if source == target || !clear {
        return Err(TransferConflict);
      }
      var blocking := set o | o in ops && Live(ops[o].status) && ops[o].owner == source;
      if |blocking| > 0 {
        assert exists o :: o in blocking;
        return Err(TransferConflict);
      }
      assert forall o | o in ops && Live(ops[o].status) && ops[o].owner == source :: o in blocking;
      var moved := set e | e in envs && envs[e].owner == source;
      envs := map e | e in envs :: if envs[e].owner == source then envs[e].(owner := target) else envs[e];
      return Ok(|moved|);
    }

    /** Retention: terminal rows whose finish stamp is less, as text, than `before`, oldest text
        first and at most `limit`, are collected and then deleted. `finished` is the column of
        stamps, null where a row has none. */
    method DeleteTerminalOperationsBefore(finished: map<Id, string>, before: string, limit: int) returns (gone: seq<Id>)
      modifies this`ops
      ensures var chosen := set o | o in gone;
              Enabled(old(View()), Retire(chosen)) && View() == Next(old(View()), Retire(chosen)) && ops == old(ops) - chosen
      ensures forall o | o in gone :: Expired(old(ops), finished, before, o)
      ensures forall o, g | Expired(old(ops), finished, before, o) && o !in gone && g in gone && g in finished ::
                !Keyset.TextLess(finished[o], finished[g])
      ensures var bound := if limit <= 0 then 500 else limit;
              |gone| <= bound
              && (|gone| < bound ==> forall o | Expired(old(ops), finished, before, o) :: o in gone)
    {
      var bound := if limit <= 0 then 500 else limit;
      var rest := set o | o in ops && Expired(ops, finished, before, o);
      gone := [];
      while |gone| < bound && rest != {}
        invariant |gone| <= bound && ops == old(ops)
        invariant forall o :: Expired(ops, finished, before, o) <==> o in gone || o in rest
        invariant forall o, g | o in rest && g in gone :: !Keyset.TextLess(finished[o], finished[g])
        decreases rest
      {
        OldestExists(finished, rest);
        var o :| o in rest && forall x | x in rest :: !Keyset.TextLess(finished[x], finished[o]);
        gone := gone + [o];
        rest := rest - {o};
      }
      for i := 0 to |gone|
        invariant ops == old(ops) - set k | 0 <= k < i :: gone[k]
      {
        ops := ops - {gone[i]};
      }
      assert (set k | 0 <= k < |gone| :: gone[k]) == set o | o in gone;
    }

    /** A whole start call that nothing overtakes. */
    method Start(env: Id, action: Action, packaged: bool, id: Id) returns (r: Result<Id, Error>)
      requires Inv(View()) && id !in issued
      modifies this
      ensures Inv(View())
      ensures r.Ok? <==> env in old(envs) && Admissible(action, old(envs)[env].installed, packaged)
                         && env !in old(active)
      ensures r.Ok? ==> r.value == id && active == old(active)[env := id] && envs == old(envs)
                        && ops == old(ops)[id := Op(env, envs[env].owner, action, Queued, "queued", "")]
      ensures r.Err? ==> ops == old(ops) && active == old(active) && envs == old(envs)
      ensures r == Err(OperationInProgress) <==>
              env in old(envs) && Admissible(action, old(envs)[env].installed, packaged) && env in old(active)
    {
      var seen := Observe(env, action, packaged);
      if seen.Err? {
        return Err(seen.error);
      }
      StepKeepsInv(old(View()), Step.Observe(seen.value, packaged));
      label observed:
      var held := Reserve(seen.value, id);
      if held.Err? {
        return held;
      }
      StepKeepsInv(old@observed(View()), Step.Reserve(seen.value, id));
      label reserved:
      r := Create(id);
      StepKeepsInv(old@reserved(View()), Step.Create(id));
    }

    /** The goroutine of an accepted operation that nothing overtakes: any number of
        progress writes, stored or lost, then the verdict, then the release. */
    method Run(op: Id, stages: seq<string>, stored: seq<bool>, status: Status, stage: string, code: string)
      requires Inv(View()) && HasWorker(View(), op, Accepted)
      requires |stored| == |stages| && !Live(status)
      modifies this
      ensures Inv(View())
      ensures op in ops && ops[op].status == status && ops[op].stage == stage && ops[op].code == code
      ensures ops - {op} == old(ops) - {op} && envs == old(envs)
      ensures active == old(active) - {old(workers)[op].look.env}
    {
      var env := workers[op].look.env;
      assert WorkerOk(View(), op);
      for i := 0 to |stages|
        invariant Inv(View()) && HasWorker(View(), op, Accepted) && op in ops
        invariant workers == old(workers) && active == old(active) && envs == old(envs)
        invariant ops - {op} == old(ops) - {op}
      {
        label before:
        Progress(op, stages[i], stored[i]);
        StepKeepsInv(old@before(View()), Step.Progress(op, stages[i], stored[i]));
      }
      label working:
      Finish(op, status, stage, code);
      StepKeepsInv(old@working(View()), Step.Finish(op, status, stage, code));
      label settled:
      Release(op);
      StepKeepsInv(old@settled(View()), Step.Release(op));
    }
  }
}
