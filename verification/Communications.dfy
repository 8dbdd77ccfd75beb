/** Communication threads between administrators and accounts: opening and closing, receipts,
    unread counts, and who is told of a change. */
module Communications {
  import opened Prelude

  datatype User = User(admin: bool, enabled: bool)

  /** A reference to a package by service type, or to an environment or its service by id. */
  datatype Resource = Resource(kind: string, id: string, key: string)

  datatype Thread = Thread(target: string, open: bool, reopened: nat, resources: seq<Resource>)

  datatype Kind = AdminMessage | UserReceipt | SystemClosed | SystemReopened

  /** A message with its recipient rows: who, and when read. */
  datatype Message = Message(thread: string, kind: Kind, sender: string, content: string, readAt: map<string, Option<string>>)

  /** What accounts own: packages by owner and service type, environments by id. */
  datatype Estate = Estate(packages: set<(string, string)>, environments: map<string, string>)

  /** `messages` is in insertion order. */
  datatype State = State(users: map<string, User>, estate: Estate, threads: map<string, Thread>, messages: seq<Message>)

  datatype Error =
    | Forbidden | InvalidField | TargetDisabled | ResourceInvalid | NotFound | Closed | AlreadyOpen | AlreadyClosed
    | Unanswered   // committed, but reading the result back failed

  datatype Step =
    | Create(actor: string, id: string, target: string, title: string, content: string, resources: seq<Resource>)
    | Send(actor: string, id: string, content: string, now: string)
    | ChangeState(actor: string, id: string, reopen: bool, content: string)
    | MarkRead(actor: string, id: string, now: string)

  predicate IsAdmin(s: State, u: string) {
    u in s.users && s.users[u].admin
  }

  function EnabledAdmins(users: map<string, User>): set<string> {
    set u | u in users && users[u].admin && users[u].enabled
  }

  /** A thread is visible to administrators and to its target. */
  predicate Sees(s: State, u: string, id: string) {
    id in s.threads && (IsAdmin(s, u) || s.threads[id].target == u)
  }

  predicate ValidContent(content: string, optional: bool) {
    (optional && content == "") || 1 <= |content| <= 5000
  }

  function Unopened(ids: set<string>): map<string, Option<string>> {
    map u | u in ids :: None
  }

  /** `COALESCE(read_at, now)` on one row. */
  function Opened(m: Message, actor: string, id: string, now: string): Message {
    if m.thread == id && actor in m.readAt && m.readAt[actor].None?
    then m.(readAt := m.readAt[actor := Some(now)]) else m
  }

  function AllOpened(messages: seq<Message>, actor: string, id: string, now: string): seq<Message> {
    seq(|messages|, i requires 0 <= i < |messages| => Opened(messages[i], actor, id, now))
  }

  /** What is wrong with one reference, if anything. */
  function BadReference(estate: Estate, target: string, r: Resource): Option<Error> {
    if r.kind == "package" then
      if r.key == "" || r.id != "" then Some(InvalidField)
      else if (target, r.key) in estate.packages then None else Some(ResourceInvalid)
    else if r.kind == "environment" || r.kind == "service" then
      if r.id == "" || r.key != "" then Some(InvalidField)
      else if r.id in estate.environments && estate.environments[r.id] == target then None else Some(ResourceInvalid)
    else Some(InvalidField)
  }

  /** The first problem among the first n references; a repeated one violates a unique index. */
  function BadReferences(estate: Estate, target: string, resources: seq<Resource>, n: nat): Option<Error>
    requires n <= |resources|
  {
    if n == 0 then None
    else if BadReferences(estate, target, resources, n - 1).Some? then BadReferences(estate, target, resources, n - 1)
    else if BadReference(estate, target, resources[n - 1]).Some? then BadReference(estate, target, resources[n - 1])
    else if resources[n - 1] in resources[..n - 1] then Some(InvalidField)
    else None
  }

  function Refusal(s: State, step: Step): Option<Error> {
    match step
    case Create(actor, _, target, title, content, resources) =>
      if !IsAdmin(s, actor) then Some(Forbidden)
      else if target == "" || !(1 <= |title| <= 100) || !ValidContent(content, false) || |resources| > 50 then Some(InvalidField)
      else if target !in s.users || s.users[target].admin || !s.users[target].enabled then Some(TargetDisabled)
      else BadReferences(s.estate, target, resources, |resources|)
    case Send(actor, id, content, _) =>
      if !ValidContent(content, false) then Some(InvalidField)
      else if !Sees(s, actor, id) then Some(NotFound)
      else if !s.threads[id].open then Some(Closed)
      else None
    case ChangeState(actor, id, reopen, content) =>
      if !IsAdmin(s, actor) then Some(Forbidden)
      else if !ValidContent(content, true) then Some(InvalidField)
      else if id !in s.threads then Some(NotFound)
      else if reopen && s.threads[id].open then Some(AlreadyOpen)
      else if !reopen && !s.threads[id].open then Some(AlreadyClosed)
      else None
    case MarkRead(actor, id, _) => if Sees(s, actor, id) then None else Some(NotFound)
  }

  /** The message a step inserts, with its recipients at that moment. */
  function Inserted(s: State, step: Step): Option<Message>
    requires Refusal(s, step).None?
  {
    match step
    case Create(actor, id, target, _, content, _) =>
      Some(Message(id, AdminMessage, actor, content, Unopened({target})))
    case Send(actor, id, content, _) =>
      if IsAdmin(s, actor) then Some(Message(id, AdminMessage, actor, content, Unopened({s.threads[id].target})))
      else Some(Message(id, UserReceipt, actor, content, Unopened(EnabledAdmins(s.users))))
    case ChangeState(actor, id, reopen, content) =>
      Some(Message(id, if reopen then SystemReopened else SystemClosed, actor, content, Unopened({s.threads[id].target})))
    case MarkRead(_, _, _) => None
  }

  function Next(s: State, step: Step): State {
    if Refusal(s, step).Some? then s else
    match step
    case Create(actor, id, target, _, content, resources) =>
      s.(threads := s.threads[id := Thread(target, true, 0, resources)], messages := s.messages + [Inserted(s, step).value])
    case Send(actor, id, content, now) =>
      var messages := if IsAdmin(s, actor) then s.messages else AllOpened(s.messages, actor, id, now);
      s.(messages := messages + [Inserted(s, step).value])
    case ChangeState(actor, id, reopen, content) =>
      var t := s.threads[id];
      s.(threads := s.threads[id := if reopen then t.(open := true, reopened := t.reopened + 1) else t.(open := false)],
         messages := s.messages + [Inserted(s, step).value])
    case MarkRead(actor, id, now) => s.(messages := AllOpened(s.messages, actor, id, now))
  }

  // ----- the history of a thread -----

  function History(messages: seq<Message>, id: string): seq<Kind> {
    if messages == [] then []
    else
      var front, m := messages[..|messages| - 1], messages[|messages| - 1];
      if m.thread == id then History(front, id) + [m.kind] else History(front, id)
  }

  lemma HistoryOneMore(messages: seq<Message>, m: Message, id: string)
    ensures History(messages + [m], id) == if m.thread == id then History(messages, id) + [m.kind] else History(messages, id)
  {
    assert (messages + [m])[..|messages|] == messages;
  }

  lemma {:induction false} OpenedKeepsHistory(messages: seq<Message>, actor: string, id: string, now: string, thread: string)
    ensures History(AllOpened(messages, actor, id, now), thread) == History(messages, thread)
  {
    if messages != [] {
      var front := messages[..|messages| - 1];
      OpenedKeepsHistory(front, actor, id, now, thread);
      assert AllOpened(messages, actor, id, now)[..|messages| - 1] == AllOpened(front, actor, id, now);
    }
  }

  predicate IsSystem(k: Kind) {
    k == SystemClosed || k == SystemReopened
  }

  /** Open until the last system message was a close. */
  predicate OpenAfter(h: seq<Kind>) {
    if h == [] then true
    else match h[|h| - 1]
      case SystemClosed => false
      case SystemReopened => true
      case _ => OpenAfter(h[..|h| - 1])
  }

  function Reopenings(h: seq<Kind>): nat {
    if h == [] then 0
    else Reopenings(h[..|h| - 1]) + if h[|h| - 1] == SystemReopened then 1 else 0
  }

  /** Only a closed thread is reopened; everything else happens while it is open. */
  predicate Lawful(h: seq<Kind>) {
    forall i | 0 <= i < |h| :: OpenAfter(h[..i]) <==> h[i] != SystemReopened
  }

  lemma OneMoreKind(h: seq<Kind>, k: Kind)
    ensures OpenAfter(h + [k]) <==> (k == SystemReopened || (k != SystemClosed && OpenAfter(h)))
    ensures Reopenings(h + [k]) == Reopenings(h) + if k == SystemReopened then 1 else 0
  {
    assert (h + [k])[..|h|] == h;
  }

  lemma LawfulOneMore(h: seq<Kind>, k: Kind)
    requires Lawful(h) && (OpenAfter(h) <==> k != SystemReopened)
    ensures Lawful(h + [k])
    ensures OpenAfter(h + [k]) <==> k != SystemClosed
    ensures Reopenings(h + [k]) == Reopenings(h) + if k == SystemReopened then 1 else 0
  {
    OneMoreKind(h, k);
    forall i | 0 <= i <= |h| ensures (h + [k])[..i] == h[..i] && (i < |h| ==> (h + [k])[i] == h[i]) {
    }
    assert h[..|h|] == h;
  }

  lemma {:induction false} LastSystem(h: seq<Kind>, i: nat)
    requires i < |h| && IsSystem(h[i]) && forall k | i < k < |h| :: !IsSystem(h[k])
    ensures OpenAfter(h) <==> h[i] == SystemReopened
  {
    if i < |h| - 1 {
      LastSystem(h[..|h| - 1], i);
    }
  }

  lemma {:induction false} NoSystem(h: seq<Kind>)
    requires forall k | 0 <= k < |h| :: !IsSystem(h[k])
    ensures OpenAfter(h)
  {
    if h != [] {
      NoSystem(h[..|h| - 1]);
    }
  }

  /** System messages alternate, starting with a close. */
  lemma SystemMessagesAlternate(h: seq<Kind>, j: nat)
    requires Lawful(h) && j < |h| && IsSystem(h[j])
    ensures (forall k | 0 <= k < j :: !IsSystem(h[k])) ==> h[j] == SystemClosed
    ensures forall i | 0 <= i < j && IsSystem(h[i]) && (forall k | i < k < j :: !IsSystem(h[k])) :: h[i] != h[j]
  {
    if forall k | 0 <= k < j :: !IsSystem(h[k]) {
      NoSystem(h[..j]);
    }
    forall i | 0 <= i < j && IsSystem(h[i]) && forall k | i < k < j :: !IsSystem(h[k]) ensures h[i] != h[j] {
      LastSystem(h[..j], i);
    }
  }

  /** After a close nobody writes until a reopening. */
  lemma {:induction false} NothingBetweenCloseAndReopen(h: seq<Kind>, i: nat, j: nat)
    requires Lawful(h) && i < j < |h| && h[i] == SystemClosed && !IsSystem(h[j])
    ensures exists k | i < k < j :: h[k] == SystemReopened
  {
    assert OpenAfter(h[..j]);
    StaysClosed(h[..j], i);
  }

  lemma {:induction false} StaysClosed(h: seq<Kind>, i: nat)
    requires i < |h| && h[i] == SystemClosed && OpenAfter(h)
    ensures exists k | i < k < |h| :: h[k] == SystemReopened
  {
    var n := |h| - 1;
    if h[n] != SystemReopened {
      StaysClosed(h[..n], i);
      var k :| i < k < n && h[..n][k] == SystemReopened;
      assert h[k] == SystemReopened;
    }
  }

  /** The row of a thread agrees with its history. */
  ghost predicate Agrees(s: State, id: string)
    requires id in s.threads
  {
    var h := History(s.messages, id);
    Lawful(h) && h != [] && h[0] == AdminMessage
    && s.threads[id].open == OpenAfter(h) && s.threads[id].reopened == Reopenings(h)
  }

  /** A message is in a thread, and every recipient sees that thread. */
  ghost predicate Delivered(s: State, i: nat)
    requires i < |s.messages|
  {
    var m := s.messages[i];
    m.thread in s.threads && forall u | u in m.readAt :: u in s.users && Sees(s, u, m.thread)
  }

  ghost predicate Inv(s: State) {
    && (forall id {:trigger Agrees(s, id)} | id in s.threads :: Agrees(s, id))
    && (forall i: nat {:trigger Delivered(s, i)} | i < |s.messages| :: Delivered(s, i))
    && (forall id | id in s.threads :: s.threads[id].target in s.users && !s.users[s.threads[id].target].admin)
  }

  ghost predicate Fresh(s: State, step: Step) {
    (step.Create? ==> step.id !in s.threads) && step.actor in s.users
  }

  lemma {:induction false} NoMessagesYet(s: State, messages: seq<Message>, id: string)
    requires id !in s.threads && forall m | m in messages :: m.thread in s.threads
    ensures History(messages, id) == []
  {
    if messages != [] {
      NoMessagesYet(s, messages[..|messages| - 1], id);
    }
  }

  lemma NewThreadHasNoHistory(s: State, id: string)
    requires Inv(s) && id !in s.threads
    ensures History(s.messages, id) == []
  {
    forall m | m in s.messages ensures m.thread in s.threads {
      var i: nat :| i < |s.messages| && s.messages[i] == m;
      assert Delivered(s, i);
    }
    NoMessagesYet(s, s.messages, id);
  }

  /** A step adds its message to the history of its own thread and to no other. */
  lemma HistoryAfter(s: State, step: Step, id: string)
    requires Refusal(s, step).None?
    ensures History(Next(s, step).messages, id) ==
      if step.id == id && !step.MarkRead? then History(s.messages, id) + [Inserted(s, step).value.kind]
      else History(s.messages, id)
  {
    if step.MarkRead? {
      OpenedKeepsHistory(s.messages, step.actor, step.id, step.now, id);
    } else if step.Send? && !IsAdmin(s, step.actor) {
      OpenedKeepsHistory(s.messages, step.actor, step.id, step.now, id);
      HistoryOneMore(AllOpened(s.messages, step.actor, step.id, step.now), Inserted(s, step).value, id);
    } else {
      HistoryOneMore(s.messages, Inserted(s, step).value, id);
    }
  }

  lemma AgreesInNewThread(s: State, step: Step)
    requires Inv(s) && Fresh(s, step) && Refusal(s, step).None? && step.Create?
    ensures Agrees(Next(s, step), step.id)
  {
    HistoryAfter(s, step, step.id);
    NewThreadHasNoHistory(s, step.id);
    assert [] + [AdminMessage] == [AdminMessage];
    FirstMessage();
  }

  lemma FirstMessage()
    ensures Lawful([AdminMessage]) && OpenAfter([AdminMessage]) && Reopenings([AdminMessage]) == 0
  {
    assert [AdminMessage][..0] == [];
  }

  lemma AgreesAfter(s: State, step: Step, id: string)
    requires Inv(s) && Fresh(s, step) && Refusal(s, step).None? && id in Next(s, step).threads
    ensures Agrees(Next(s, step), id)
  {
    if step.Create? && id == step.id {
      AgreesInNewThread(s, step);
    } else {
      assert Agrees(s, id);
      HistoryAfter(s, step, id);
      if step.id == id && !step.MarkRead? {
        LawfulOneMore(History(s.messages, id), Inserted(s, step).value.kind);
      }
    }
  }

  lemma DeliveredAfter(s: State, step: Step, i: nat)
    requires Inv(s) && Fresh(s, step) && Refusal(s, step).None? && i < |Next(s, step).messages|
    ensures Delivered(Next(s, step), i)
  {
    var t := Next(s, step);
    if i < |s.messages| {
      assert Delivered(s, i);
      assert t.messages[i].thread == s.messages[i].thread && t.messages[i].readAt.Keys == s.messages[i].readAt.Keys;
    }
  }

  /** Every step keeps the invariant; a refused one changes nothing. */
  lemma NextKeepsInv(s: State, step: Step)
    requires Inv(s) && Fresh(s, step)
    ensures Inv(Next(s, step))
  {
    var t := Next(s, step);
    if Refusal(s, step).None? {
      forall id | id in t.threads ensures Agrees(t, id) {
        AgreesAfter(s, step, id);
      }
      forall i: nat | i < |t.messages| ensures Delivered(t, i) {
        DeliveredAfter(s, step, i);
      }
    }
  }

  /** Accounts are added, enabled and disabled; roles never change. */
  ghost predicate UsersEvolve(before: map<string, User>, after: map<string, User>) {
    forall u | u in before :: u in after && after[u].admin == before[u].admin
  }

  lemma UsersKeepInv(s: State, users: map<string, User>)
    requires Inv(s) && UsersEvolve(s.users, users)
    ensures Inv(s.(users := users))
  {
    var t := s.(users := users);
    forall id | id in t.threads ensures Agrees(t, id) {
      assert Agrees(s, id);
    }
    forall i: nat | i < |t.messages| ensures Delivered(t, i) {
      assert Delivered(s, i);
    }
  }

  // ----- unread counts -----

  predicate IsUnread(m: Message, u: string) {
    u in m.readAt && m.readAt[u].None?
  }

  /** `CommunicationSummary`: all unread recipient rows of an account. */
  function Unread(messages: seq<Message>, u: string): nat {
    if messages == [] then 0
    else Unread(messages[..|messages| - 1], u) + if IsUnread(messages[|messages| - 1], u) then 1 else 0
  }

  /** The unread count the listing shows with one thread. */
  function UnreadIn(messages: seq<Message>, u: string, id: string): nat {
    if messages == [] then 0
    else
      var m := messages[|messages| - 1];
      UnreadIn(messages[..|messages| - 1], u, id) + if m.thread == id && IsUnread(m, u) then 1 else 0
  }

  function UnreadOver(messages: seq<Message>, u: string, ids: seq<string>): nat {
    if ids == [] then 0 else UnreadIn(messages, u, ids[0]) + UnreadOver(messages, u, ids[1..])
  }

  function CountOf(ids: seq<string>, id: string): nat {
    if ids == [] then 0 else CountOf(ids[1..], id) + if ids[0] == id then 1 else 0
  }

  lemma {:induction false} CountsOnce(ids: seq<string>, id: string)
    requires forall i, j | 0 <= i < j < |ids| :: ids[i] != ids[j]
    ensures CountOf(ids, id) == if id in ids then 1 else 0
  {
    if ids != [] {
      CountsOnce(ids[1..], id);
      assert id in ids <==> id == ids[0] || id in ids[1..];
    }
  }

  lemma {:induction false} UnreadOneMore(messages: seq<Message>, m: Message, u: string, ids: seq<string>)
    ensures UnreadOver(messages + [m], u, ids) ==
      UnreadOver(messages, u, ids) + if IsUnread(m, u) then CountOf(ids, m.thread) else 0
  {
    if ids != [] {
      UnreadOneMore(messages, m, u, ids[1..]);
      assert (messages + [m])[..|messages|] == messages;
    }
  }

  lemma {:induction false} NothingUnread(u: string, ids: seq<string>)
    ensures UnreadOver([], u, ids) == 0
  {
    if ids != [] {
      NothingUnread(u, ids[1..]);
    }
  }

  /** The summary is the sum of the unread counts of the listed threads, when they hold every
      thread with a row of that account. */
  lemma {:induction false} SummaryOver(messages: seq<Message>, u: string, ids: seq<string>)
    requires forall i, j | 0 <= i < j < |ids| :: ids[i] != ids[j]
    requires forall m | m in messages && u in m.readAt :: m.thread in ids
    ensures Unread(messages, u) == UnreadOver(messages, u, ids)
  {
    if messages == [] {
      NothingUnread(u, ids);
    } else {
      var front, m := messages[..|messages| - 1], messages[|messages| - 1];
      assert messages == front + [m];
      SummaryOver(front, u, ids);
      UnreadOneMore(front, m, u, ids);
      CountsOnce(ids, m.thread);
    }
  }

  /** An account's summary is the sum of its unread counts over the threads it can see. */
  lemma SummaryIsSum(s: State, u: string, ids: seq<string>)
    requires Inv(s)
    requires forall i, j | 0 <= i < j < |ids| :: ids[i] != ids[j]
    requires forall id :: id in ids <==> Sees(s, u, id)
    ensures Unread(s.messages, u) == UnreadOver(s.messages, u, ids)
  {
    forall m | m in s.messages && u in m.readAt ensures m.thread in ids {
      var i: nat :| i < |s.messages| && s.messages[i] == m;
      assert Delivered(s, i);
    }
    SummaryOver(s.messages, u, ids);
  }

  /** Messages and their recipients stay; a time of reading, once set, stays. */
  lemma ReadsAreWriteOnce(s: State, step: Step, i: nat, u: string)
    requires i < |s.messages| && u in s.messages[i].readAt
    ensures var t := Next(s, step);
      && i < |t.messages| && t.messages[i] == s.messages[i].(readAt := t.messages[i].readAt)
      && t.messages[i].readAt.Keys == s.messages[i].readAt.Keys
      && (t.messages[i].readAt[u] == s.messages[i].readAt[u]
          || (s.messages[i].readAt[u].None? && u == step.actor && (step.MarkRead? || (step.Send? && !IsAdmin(s, u)))))
  {
  }

  lemma {:induction false} OpenedForOthers(messages: seq<Message>, actor: string, id: string, now: string, u: string)
    requires u != actor
    ensures Unread(AllOpened(messages, actor, id, now), u) == Unread(messages, u)
  {
    if messages != [] {
      var front := messages[..|messages| - 1];
      OpenedForOthers(front, actor, id, now, u);
      assert AllOpened(messages, actor, id, now)[..|messages| - 1] == AllOpened(front, actor, id, now);
    }
  }

  lemma UnreadAppended(messages: seq<Message>, m: Message, u: string)
    ensures Unread(messages + [m], u) == Unread(messages, u) + if IsUnread(m, u) then 1 else 0
  {
    assert (messages + [m])[..|messages|] == messages;
  }

  lemma {:induction false} OpenedForActor(messages: seq<Message>, actor: string, id: string, now: string)
    ensures UnreadIn(AllOpened(messages, actor, id, now), actor, id) == 0
  {
    if messages != [] {
      var front := messages[..|messages| - 1];
      OpenedForActor(front, actor, id, now);
      assert AllOpened(messages, actor, id, now)[..|messages| - 1] == AllOpened(front, actor, id, now);
    }
  }

  lemma {:induction false} OpenedElsewhere(messages: seq<Message>, actor: string, id: string, now: string, other: string)
    requires other != id
    ensures UnreadIn(AllOpened(messages, actor, id, now), actor, other) == UnreadIn(messages, actor, other)
  {
    if messages != [] {
      var front := messages[..|messages| - 1];
      OpenedElsewhere(front, actor, id, now, other);
      assert AllOpened(messages, actor, id, now)[..|messages| - 1] == AllOpened(front, actor, id, now);
    }
  }

  lemma UnreadInAppended(messages: seq<Message>, m: Message, u: string, id: string)
    requires u !in m.readAt
    ensures UnreadIn(messages + [m], u, id) == UnreadIn(messages, u, id)
  {
    assert (messages + [m])[..|messages|] == messages;
  }

  ghost function UnreadRows(messages: seq<Message>, u: string): set<nat> {
    set i: nat | i < |messages| && u in messages[i].readAt && messages[i].readAt[u] == None
  }

  lemma UnreadRowsAppended(messages: seq<Message>, m: Message, u: string)
    ensures UnreadRows(messages + [m], u) == UnreadRows(messages, u) + if IsUnread(m, u) then {|messages|} else {}
    ensures |messages| !in UnreadRows(messages, u)
  {
    forall i: nat ensures i in UnreadRows(messages + [m], u) <==>
        i in UnreadRows(messages, u) || (i == |messages| && IsUnread(m, u))
    {
      if i < |messages| {
        assert (messages + [m])[i] == messages[i];
      }
    }
  }

  /** The summary counts the messages addressed to the account that have no time of reading. */
  lemma {:induction false} UnreadIsCount(messages: seq<Message>, u: string)
    ensures Unread(messages, u) == |UnreadRows(messages, u)|
  {
    if messages != [] {
      var front, m := messages[..|messages| - 1], messages[|messages| - 1];
      UnreadIsCount(front, u);
      UnreadRowsAppended(front, m, u);
      assert front + [m] == messages;
    }
  }

  // ----- what each operation comes to, in terms of the tables -----

  /** The actor's rows of one thread that had no time of reading have one, and nothing else changed. */
  ghost predicate ReadUp(before: seq<Message>, after: seq<Message>, actor: string, id: string, now: string) {
    |after| == |before| && forall i | 0 <= i < |before| :: RowsRead(before[i], after[i], actor, id, now)
  }

  ghost predicate RowsRead(m: Message, n: Message, actor: string, id: string, now: string) {
    && n.thread == m.thread && n.kind == m.kind && n.sender == m.sender && n.content == m.content
    && n.readAt.Keys == m.readAt.Keys
    && forall u | u in m.readAt ::
         n.readAt[u] == if u == actor && m.thread == id && m.readAt[u] == None then Some(now) else m.readAt[u]
  }

  /** A new last message, unread by each of its recipients. */
  ghost predicate Posted(before: seq<Message>, after: seq<Message>, id: string, kind: Kind, sender: string, content: string,
                         recipients: set<string>)
  {
    && |after| == |before| + 1 && after[..|before|] == before
    && var m := after[|before|];
       m.thread == id && m.kind == kind && m.sender == sender && m.content == content
       && m.readAt.Keys == recipients && forall u | u in recipients :: m.readAt[u] == None
  }

  ghost predicate CanSee(s: State, u: string, id: string) {
    id in s.threads && ((u in s.users && s.users[u].admin) || s.threads[id].target == u)
  }

  ghost predicate OnlyThread(s: State, t: State, id: string) {
    t.users == s.users && t.estate == s.estate && id in t.threads && t.threads - {id} == s.threads - {id}
  }

  /** An administrator's message goes to the target; a receipt reads the thread for its sender and
      goes to the administrators enabled now. */
  ghost predicate Sent(s: State, t: State, actor: string, id: string, content: string, now: string) {
    && id in s.threads && t == s.(messages := t.messages)
    && if actor in s.users && s.users[actor].admin then
         Posted(s.messages, t.messages, id, AdminMessage, actor, content, {s.threads[id].target})
       else
         && |t.messages| == |s.messages| + 1 && ReadUp(s.messages, t.messages[..|s.messages|], actor, id, now)
         && Posted(t.messages[..|s.messages|], t.messages, id, UserReceipt, actor, content,
                   set u | u in s.users && s.users[u].admin && s.users[u].enabled)
         && UnreadIn(t.messages, actor, id) == 0
         && forall other | other != id :: UnreadIn(t.messages, actor, other) == UnreadIn(s.messages, actor, other)
  }

  lemma AllOpenedReadsUp(messages: seq<Message>, actor: string, id: string, now: string)
    ensures ReadUp(messages, AllOpened(messages, actor, id, now), actor, id, now)
  {
  }

  lemma SendDoes(s: State, actor: string, id: string, content: string, now: string)
    ensures var step := Step.Send(actor, id, content, now);
      && Refusal(s, step) == (if !(1 <= |content| <= 5000) then Some(InvalidField)
                              else if !CanSee(s, actor, id) then Some(NotFound)
                              else if !s.threads[id].open then Some(Closed) else None)
      && if Refusal(s, step).Some? then Next(s, step) == s else Sent(s, Next(s, step), actor, id, content, now)
  {
    var step := Step.Send(actor, id, content, now);
    if Refusal(s, step).None? && !IsAdmin(s, actor) {
      var read, m := AllOpened(s.messages, actor, id, now), Inserted(s, step).value;
      AllOpenedReadsUp(s.messages, actor, id, now);
      OpenedForActor(s.messages, actor, id, now);
      UnreadInAppended(read, m, actor, id);
      forall other | other != id ensures UnreadIn(read + [m], actor, other) == UnreadIn(s.messages, actor, other) {
        OpenedElsewhere(s.messages, actor, id, now, other);
        UnreadInAppended(read, m, actor, other);
      }
      assert Next(s, step).messages[..|s.messages|] == read;
    }
  }

  /** A reader has nothing unread in the thread afterwards, and what else he has not read stays so. */
  ghost predicate Marked(s: State, t: State, actor: string, id: string, now: string) {
    && t == s.(messages := t.messages) && ReadUp(s.messages, t.messages, actor, id, now)
    && UnreadIn(t.messages, actor, id) == 0
    && forall other | other != id :: UnreadIn(t.messages, actor, other) == UnreadIn(s.messages, actor, other)
  }

  lemma MarkReadDoes(s: State, actor: string, id: string, now: string)
    ensures var step := Step.MarkRead(actor, id, now);
      && Refusal(s, step) == (if CanSee(s, actor, id) then None else Some(NotFound))
      && if Refusal(s, step).Some? then Next(s, step) == s else Marked(s, Next(s, step), actor, id, now)
  {
    AllOpenedReadsUp(s.messages, actor, id, now);
    OpenedForActor(s.messages, actor, id, now);
    forall other | other != id
      ensures UnreadIn(AllOpened(s.messages, actor, id, now), actor, other) == UnreadIn(s.messages, actor, other)
    {
      OpenedElsewhere(s.messages, actor, id, now, other);
    }
  }

  /** The thread is open iff it was reopened, the reopening is counted, and the target is to read
      the system message. */
  ghost predicate Switched(s: State, t: State, actor: string, id: string, reopen: bool, content: string) {
    && id in s.threads && OnlyThread(s, t, id)
    && var was, now := s.threads[id], t.threads[id];
       && now.target == was.target && now.resources == was.resources && now.open == reopen
       && now.reopened == (if reopen then was.reopened + 1 else was.reopened)
       && Posted(s.messages, t.messages, id, if reopen then SystemReopened else SystemClosed, actor, content, {was.target})
  }

  lemma ChangeStateDoes(s: State, actor: string, id: string, reopen: bool, content: string)
    ensures var step := Step.ChangeState(actor, id, reopen, content);
      && Refusal(s, step) == (if !(actor in s.users && s.users[actor].admin) then Some(Forbidden)
                              else if |content| > 5000 then Some(InvalidField)
                              else if id !in s.threads then Some(NotFound)
                              else if reopen == s.threads[id].open then Some(if reopen then AlreadyOpen else AlreadyClosed)
                              else None)
      && if Refusal(s, step).Some? then Next(s, step) == s else Switched(s, Next(s, step), actor, id, reopen, content)
  {
  }

  /** A reference that names something of the target's, in the one form its kind allows. */
  ghost predicate Fits(estate: Estate, target: string, r: Resource) {
    || (r.kind == "package" && r.key != "" && r.id == "" && (target, r.key) in estate.packages)
    || (r.kind in {"environment", "service"} && r.id != "" && r.key == ""
        && r.id in estate.environments && estate.environments[r.id] == target)
  }

  /** References are accepted iff each fits and none is repeated. */
  lemma {:induction false} ReferencesFitIff(estate: Estate, target: string, resources: seq<Resource>, n: nat)
    requires n <= |resources|
    ensures BadReferences(estate, target, resources, n).None? <==>
      (forall i | 0 <= i < n :: Fits(estate, target, resources[i])) && (forall i, j | 0 <= i < j < n :: resources[i] != resources[j])
    ensures BadReferences(estate, target, resources, n).Some? ==>
      BadReferences(estate, target, resources, n).value in {InvalidField, ResourceInvalid}
  {
    if n > 0 {
      ReferencesFitIff(estate, target, resources, n - 1);
      assert resources[n - 1] in resources[..n - 1] <==> exists i | 0 <= i < n - 1 :: resources[i] == resources[n - 1];
    }
  }

  ghost predicate Begun(s: State, t: State, actor: string, id: string, target: string, content: string, resources: seq<Resource>) {
    && OnlyThread(s, t, id) && t.threads[id] == Thread(target, true, 0, resources)
    && Posted(s.messages, t.messages, id, AdminMessage, actor, content, {target})
  }

  lemma CreateDoes(s: State, actor: string, id: string, target: string, title: string, content: string, resources: seq<Resource>)
    ensures var step := Step.Create(actor, id, target, title, content, resources);
      && (Refusal(s, step) == Some(Forbidden) <==> !(actor in s.users && s.users[actor].admin))
      && (Refusal(s, step).None? <==>
            && actor in s.users && s.users[actor].admin
            && target in s.users && !s.users[target].admin && s.users[target].enabled && target != ""
            && 1 <= |title| <= 100 && 1 <= |content| <= 5000 && |resources| <= 50
            && (forall i | 0 <= i < |resources| :: Fits(s.estate, target, resources[i]))
            && (forall i, j | 0 <= i < j < |resources| :: resources[i] != resources[j]))
      && (Refusal(s, step) == Some(TargetDisabled) <==>
            && actor in s.users && s.users[actor].admin && target != ""
            && 1 <= |title| <= 100 && 1 <= |content| <= 5000 && |resources| <= 50
            && (target !in s.users || s.users[target].admin || !s.users[target].enabled))
      && (Refusal(s, step).Some? ==> Refusal(s, step).value in {Forbidden, InvalidField, TargetDisabled, ResourceInvalid})
      && if Refusal(s, step).Some? then Next(s, step) == s
         else Begun(s, Next(s, step), actor, id, target, content, resources)
  {
    ReferencesFitIff(s.estate, target, resources, |resources|);
  }

  // ----- who is told -----

  /** The account a step names as affected: the target, or the reader himself. */
  function Affected(s: State, step: Step): string {
    match step
    case Create(_, _, target, _, _, _) => target
    case Send(actor, id, _, _) => if IsAdmin(s, actor) && id in s.threads then s.threads[id].target else actor
    case ChangeState(_, id, _, _) => if id in s.threads then s.threads[id].target else ""
    case MarkRead(actor, _, _) => actor
  }

  /** Who is told of a committed step: nobody when reading the result back fails; only the
      affected account when listing the accounts fails; else also the administrators enabled
      when they are listed, `later`. */
  function Told(s: State, step: Step, reread: bool, listed: bool, later: map<string, User>): set<string> {
    if Refusal(s, step).Some? || !reread then {}
    else {Affected(s, step)} + if listed then EnabledAdmins(later) else {}
  }

  /** Apart from the affected account, only a receipt changes counts: it adds one for exactly
      the administrators enabled at that moment. */
  lemma UnreadOfOthers(s: State, step: Step, u: string)
    requires Refusal(s, step).None? && u != Affected(s, step)
    ensures Unread(Next(s, step).messages, u) ==
      Unread(s.messages, u) + if step.Send? && !IsAdmin(s, step.actor) && u in EnabledAdmins(s.users) then 1 else 0
  {
    if step.MarkRead? {
      OpenedForOthers(s.messages, step.actor, step.id, step.now, u);
    } else if step.Send? && !IsAdmin(s, step.actor) {
      OpenedForOthers(s.messages, step.actor, step.id, step.now, u);
      UnreadAppended(AllOpened(s.messages, step.actor, step.id, step.now), Inserted(s, step).value, u);
    } else {
      UnreadAppended(s.messages, Inserted(s, step).value, u);
    }
  }

  /** An account other than the affected one changes its count only as an enabled administrator. */
  lemma OthersAreAdmins(s: State, step: Step, u: string)
    requires Refusal(s, step).None? && u != Affected(s, step)
    requires Unread(Next(s, step).messages, u) != Unread(s.messages, u)
    ensures u in EnabledAdmins(s.users)
  {
    UnreadOfOthers(s, step, u);
  }

  /** An account whose unread count a step changes is told of it iff the result could be read
      back and it is the affected account, or the accounts could be listed and it is still
      enabled then. */
  lemma ChangedAccountsAreToldIff(s: State, step: Step, reread: bool, listed: bool, later: map<string, User>, u: string)
    requires Refusal(s, step).None? && UsersEvolve(s.users, later)
    requires Unread(Next(s, step).messages, u) != Unread(s.messages, u)
    ensures u != Affected(s, step) ==> u in EnabledAdmins(s.users) && u in later
    ensures u in Told(s, step, reread, listed, later) <==>
      reread && (u == Affected(s, step) || (listed && later[u].enabled))
  {
    if u != Affected(s, step) {
      OthersAreAdmins(s, step, u);
      assert u in EnabledAdmins(later) <==> later[u].enabled;
    } else {
      assert u in {Affected(s, step)};
    }
  }

  /** An administrator disabled between the commit and the listing: his count grows and he is
      not told. */
  lemma DisabledAdminIsNotTold(s: State, step: Step, later: map<string, User>, u: string)
    requires Inv(s) && step.Send? && Refusal(s, step).None? && !IsAdmin(s, step.actor)
    requires u in EnabledAdmins(s.users) && u in later && !later[u].enabled
    ensures Unread(Next(s, step).messages, u) == Unread(s.messages, u) + 1 && u !in Told(s, step, true, true, later)
  {
    UnreadOfOthers(s, step, u);
  }

  /** A failed listing leaves every enabled administrator untold of a receipt. */
  lemma FailedListingTellsNoAdmin(s: State, step: Step, later: map<string, User>, u: string)
    requires Inv(s) && step.Send? && Refusal(s, step).None? && !IsAdmin(s, step.actor) && u in EnabledAdmins(s.users)
    ensures Unread(Next(s, step).messages, u) == Unread(s.messages, u) + 1 && u !in Told(s, step, true, false, later)
  {
    UnreadOfOthers(s, step, u);
  }

  /** A client that is gone when the result is read back: the step is committed, the target's
      count grows by the message just inserted, and nobody at all is told. */
  lemma FailedRereadTellsNobody(s: State, step: Step, listed: bool, later: map<string, User>)
    requires Inv(s) && Refusal(s, step).None? && !step.MarkRead? && IsAdmin(s, step.actor)
    ensures Unread(Next(s, step).messages, Affected(s, step)) == Unread(s.messages, Affected(s, step)) + 1
    ensures Told(s, step, false, listed, later) == {}
  {
    UnreadAppended(s.messages, Inserted(s, step).value, Affected(s, step));
  }

  // ----- runs -----

  datatype Event = Act(step: Step) | Users(users: map<string, User>) | Owns(estate: Estate)

  function Apply(s: State, e: Event): State {
    match e
    case Act(step) => Next(s, step)
    case Users(users) => s.(users := users)
    case Owns(estate) => s.(estate := estate)
  }

  ghost predicate Possible(s: State, events: seq<Event>)
    decreases |events|
  {
    events == [] ||
    ((match events[0]
      case Act(step) => Fresh(s, step)
      case Users(users) => UsersEvolve(s.users, users)
      case Owns(_) => true) && Possible(Apply(s, events[0]), events[1..]))
  }

  function After(s: State, events: seq<Event>): State
    decreases |events|
  {
    if events == [] then s else After(Apply(s, events[0]), events[1..])
  }

  /** The message is the same later, with the same recipients, and times of reading once set stay. */
  ghost predicate Preserved(before: Message, after: Message) {
    && after == before.(readAt := after.readAt) && after.readAt.Keys == before.readAt.Keys
    && forall u | u in before.readAt && before.readAt[u].Some? :: after.readAt[u] == before.readAt[u]
  }

  lemma MessagePreserved(s: State, e: Event, i: nat)
    requires i < |s.messages|
    ensures i < |Apply(s, e).messages| && Preserved(s.messages[i], Apply(s, e).messages[i])
  {
    if e.Act? {
      forall u | u in s.messages[i].readAt && s.messages[i].readAt[u].Some?
        ensures Apply(s, e).messages[i].readAt[u] == s.messages[i].readAt[u]
      {
        ReadsAreWriteOnce(s, e.step, i, u);
      }
    }
  }

  lemma EstateKeepsInv(s: State, estate: Estate)
    requires Inv(s)
    ensures Inv(s.(estate := estate))
  {
    var t := s.(estate := estate);
    forall id | id in t.threads ensures Agrees(t, id) {
      assert Agrees(s, id);
    }
    forall i: nat | i < |t.messages| ensures Delivered(t, i) {
      assert Delivered(s, i);
    }
  }

  /** In every thread of every reachable state the history is lawful and the row agrees with
      it, and no message, recipient or reading time is ever lost. */
  lemma {:induction false} RunsKeepInv(s: State, events: seq<Event>)
    requires Inv(s) && Possible(s, events)
    ensures Inv(After(s, events)) && |s.messages| <= |After(s, events).messages|
    ensures forall i: nat | i < |s.messages| :: Preserved(s.messages[i], After(s, events).messages[i])
    decreases |events|
  {
    if events != [] {
      var t := Apply(s, events[0]);
      match events[0] {
        case Act(step) => NextKeepsInv(s, step);
        case Users(users) => UsersKeepInv(s, users);
        case Owns(estate) => EstateKeepsInv(s, estate);
      }
      RunsKeepInv(t, events[1..]);
      assert |s.messages| <= |t.messages|;
      forall i: nat | i < |s.messages| ensures Preserved(s.messages[i], After(s, events).messages[i]) {
        MessagePreserved(s, events[0], i);
        assert Preserved(t.messages[i], After(t, events[1..]).messages[i]);
      }
    }
  }

  lemma EmptyIsSound(users: map<string, User>, estate: Estate)
    ensures Inv(State(users, estate, map[], []))
  {
  }

  lemma {:induction false} FirstBadDecides(estate: Estate, target: string, resources: seq<Resource>, m: nat, n: nat)
    requires m <= n <= |resources| && BadReferences(estate, target, resources, m).Some?
    ensures BadReferences(estate, target, resources, n) == BadReferences(estate, target, resources, m)
  {
    if m < n {
      FirstBadDecides(estate, target, resources, m, n - 1);
    }
  }

  /** The accounts as ListUsers returns them. */
  ghost predicate Listing(accounts: seq<(string, User)>, later: map<string, User>) {
    && (forall i | 0 <= i < |accounts| :: accounts[i].0 in later && later[accounts[i].0] == accounts[i].1)
    && (forall u | u in later :: exists i | 0 <= i < |accounts| :: accounts[i] == (u, later[u]))
  }

  /** The rest of a request after its transaction: whether the result can be read back, and the
      accounts listed for publishing, if that works. */
  datatype Rest = Rest(reread: bool, accounts: Option<seq<(string, User)>>)

  /** The audience published for a step, if any, is exactly who is told. */
  ghost predicate Announces(s: State, step: Step, rest: Rest, later: map<string, User>, audience: Option<seq<string>>) {
    forall u :: (audience.Some? && u in audience.value) <==> u in Told(s, step, rest.reread, rest.accounts.Some?, later)
  }

  /** The transaction was committed, whether or not its result could be read back. */
  predicate Accepted(e: Option<Error>) {
    e == None || e == Some(Unanswered)
  }

  /** The audience, if anything is published: it is iff the step was accepted and read back. */
  ghost predicate Audience(accepted: bool, affected: string, rest: Rest, later: map<string, User>, audience: Option<seq<string>>) {
    forall u :: (audience.Some? && u in audience.value) <==>
      accepted && rest.reread
      && (u == affected || (rest.accounts.Some? && u in later && later[u].admin && later[u].enabled))
  }

  function Answer(s: State, step: Step, rest: Rest): Option<Error> {
    if Refusal(s, step).Some? then Refusal(s, step) else if rest.reread then None else Some(Unanswered)
  }

  class Service {
    var users: map<string, User>
    var estate: Estate
    var threads: map<string, Thread>
    var messages: seq<Message>

    constructor (users: map<string, User>, estate: Estate)
      ensures View() == State(users, estate, map[], []) && Inv(View())
    {
      this.users, this.estate, threads, messages := users, estate, map[], [];
    }

    function View(): State
      reads this
    {
      State(users, estate, threads, messages)
    }

    method InsertMessage(id: string, kind: Kind, sender: string, content: string, recipients: set<string>)
      modifies this`messages
      ensures messages == old(messages) + [Message(id, kind, sender, content, Unopened(recipients))]
    {
      messages := messages + [Message(id, kind, sender, content, Unopened(recipients))];
    }

    /** The UPDATE over the actor's recipient rows in one thread. */
    method OpenAll(actor: string, id: string, now: string)
      modifies this`messages
      ensures messages == AllOpened(old(messages), actor, id, now)
    {
      for i := 0 to |messages|
        invariant |messages| == |old(messages)|
        invariant forall k | 0 <= k < |messages| ::
          messages[k] == if k < i then Opened(old(messages)[k], actor, id, now) else old(messages)[k]
      {
        var m := messages[i];
        if m.thread == id && actor in m.readAt && m.readAt[actor].None? {
          messages := messages[i := m.(readAt := m.readAt[actor := Some(now)])];
        }
      }
    }

    /** The affected account and, if the accounts could be listed, the enabled administrators. */
    method Publish(affected: string, accounts: Option<seq<(string, User)>>, ghost later: map<string, User>)
      returns (audience: seq<string>)
      requires accounts.Some? ==> Listing(accounts.value, later)
      ensures forall u :: u in audience <==> u == affected || (accounts.Some? && u in later && later[u].admin && later[u].enabled)
    {
      audience := [affected];
      if accounts.Some? {
        var listed := accounts.value;
        for i := 0 to |listed|
          invariant forall u :: u in audience <==>
            u == affected || exists k | 0 <= k < i :: listed[k].0 == u && listed[k].1.admin && listed[k].1.enabled
        {
          if listed[i].1.admin && listed[i].1.enabled {
            audience := audience + [listed[i].0];
          }
        }
        forall u | u in EnabledAdmins(later)
          ensures exists k | 0 <= k < |listed| :: listed[k].0 == u && listed[k].1.admin && listed[k].1.enabled
        {
          var k :| 0 <= k < |listed| && listed[k] == (u, later[u]);
        }
      }
    }

    /** Publishing after a committed step. */
    method Finish(affected: string, rest: Rest, ghost later: map<string, User>)
      returns (e: Option<Error>, audience: Option<seq<string>>)
      requires rest.accounts.Some? ==> Listing(rest.accounts.value, later)
      ensures e == if rest.reread then None else Some(Unanswered)
      ensures audience.Some? <==> rest.reread
      ensures forall u :: (audience.Some? && u in audience.value) <==>
        rest.reread && (u == affected || (rest.accounts.Some? && u in EnabledAdmins(later)))
    {
      if !rest.reread {
        return Some(Unanswered), None;
      }
      var published := Publish(affected, rest.accounts, later);
      return None, Some(published);
    }

    method CheckResources(target: string, resources: seq<Resource>) returns (e: Option<Error>)
      ensures e == BadReferences(estate, target, resources, |resources|)
      ensures e.None? <==> (forall i | 0 <= i < |resources| :: Fits(estate, target, resources[i]))
                           && (forall i, j | 0 <= i < j < |resources| :: resources[i] != resources[j])
    {
      ReferencesFitIff(estate, target, resources, |resources|);
      for n := 0 to |resources|
        invariant BadReferences(estate, target, resources, n).None?
      {
        var bad := BadReference(estate, target, resources[n]);
        if bad.None? && resources[n] in resources[..n] {
          bad := Some(InvalidField);
        }
        if bad.Some? {
          FirstBadDecides(estate, target, resources, n + 1, |resources|);
          return bad;
        }
      }
      e := None;
    }

    method Create(actor: string, id: string, target: string, title: string, content: string, resources: seq<Resource>,
                  rest: Rest, ghost later: map<string, User>)
      returns (e: Option<Error>, audience: Option<seq<string>>)
      requires rest.accounts.Some? ==> Listing(rest.accounts.value, later)
      modifies this`threads, this`messages
      ensures var step := Step.Create(actor, id, target, title, content, resources);
        View() == Next(old(View()), step) && e == Answer(old(View()), step, rest)
        && Announces(old(View()), step, rest, later, audience)
      ensures Accepted(e) <==>
        && actor in users && users[actor].admin
        && target in users && !users[target].admin && users[target].enabled && target != ""
        && 1 <= |title| <= 100 && 1 <= |content| <= 5000 && |resources| <= 50
        && (forall i | 0 <= i < |resources| :: Fits(estate, target, resources[i]))
        && (forall i, j | 0 <= i < j < |resources| :: resources[i] != resources[j])
      ensures e == Some(Unanswered) ==> !rest.reread
      ensures if Accepted(e) then Begun(old(View()), View(), actor, id, target, content, resources) else View() == old(View())
      ensures Audience(Accepted(e), target, rest, later, audience)
    {
      CreateDoes(View(), actor, id, target, title, content, resources);
      if !IsAdmin(View(), actor) {
        return Some(Forbidden), None;
      }
      if target == "" || |title| < 1 || |title| > 100 || !ValidContent(content, false) || |resources| > 50 {
        return Some(InvalidField), None;
      }
      if target !in users || users[target].admin || !users[target].enabled {
        return Some(TargetDisabled), None;
      }
      var bad := CheckResources(target, resources);
      if bad.Some? {
        return bad, None;
      }
      threads := threads[id := Thread(target, true, 0, resources)];
      InsertMessage(id, AdminMessage, actor, content, {target});
      e, audience := Finish(target, rest, later);
    }

    method Send(actor: string, id: string, content: string, now: string, rest: Rest, ghost later: map<string, User>)
      returns (e: Option<Error>, audience: Option<seq<string>>)
      requires rest.accounts.Some? ==> Listing(rest.accounts.value, later)
      modifies this`messages
      ensures var step := Step.Send(actor, id, content, now);
        View() == Next(old(View()), step) && e == Answer(old(View()), step, rest)
        && Announces(old(View()), step, rest, later, audience)
      ensures e == if !(1 <= |content| <= 5000) then Some(InvalidField)
                   else if !CanSee(old(View()), actor, id) then Some(NotFound)
                   else if !threads[id].open then Some(Closed)
                   else if rest.reread then None else Some(Unanswered)
      ensures if Accepted(e) then Sent(old(View()), View(), actor, id, content, now) else View() == old(View())
      ensures Accepted(e) && !(actor in users && users[actor].admin) ==> UnreadIn(messages, actor, id) == 0
      ensures id in threads ==>
        Audience(Accepted(e), if actor in users && users[actor].admin then threads[id].target else actor, rest, later, audience)
    {
      SendDoes(View(), actor, id, content, now);
      if !ValidContent(content, false) {
        return Some(InvalidField), None;
      }
      if !Sees(View(), actor, id) {
        return Some(NotFound), None;
      }
      if !threads[id].open {
        return Some(Closed), None;
      }
      var affected := actor;
      if IsAdmin(View(), actor) {
        affected := threads[id].target;
        InsertMessage(id, AdminMessage, actor, content, {threads[id].target});
      } else {
        OpenAll(actor, id, now);
        InsertMessage(id, UserReceipt, actor, content, EnabledAdmins(users));
      }
      e, audience := Finish(affected, rest, later);
    }

    method ChangeState(actor: string, id: string, reopen: bool, content: string, rest: Rest, ghost later: map<string, User>)
      returns (e: Option<Error>, audience: Option<seq<string>>)
      requires rest.accounts.Some? ==> Listing(rest.accounts.value, later)
      modifies this`threads, this`messages
      ensures var step := Step.ChangeState(actor, id, reopen, content);
        View() == Next(old(View()), step) && e == Answer(old(View()), step, rest)
        && Announces(old(View()), step, rest, later, audience)
      ensures e == if !(actor in users && users[actor].admin) then Some(Forbidden)
                   else if |content| > 5000 then Some(InvalidField)
                   else if id !in old(threads) then Some(NotFound)
                   else if reopen == old(threads)[id].open then Some(if reopen then AlreadyOpen else AlreadyClosed)
                   else if rest.reread then None else Some(Unanswered)
      ensures if Accepted(e) then Switched(old(View()), View(), actor, id, reopen, content) else View() == old(View())
      ensures id in old(threads) ==> Audience(Accepted(e), old(threads)[id].target, rest, later, audience)
    {
      ChangeStateDoes(View(), actor, id, reopen, content);
      if !IsAdmin(View(), actor) {
        return Some(Forbidden), None;
      }
      if !ValidContent(content, true) {
        return Some(InvalidField), None;
      }
      if id !in threads {
        return Some(NotFound), None;
      }
      var t := threads[id];
      if reopen {
        if t.open {
          return Some(AlreadyOpen), None;
        }
        threads := threads[id := t.(open := true, reopened := t.reopened + 1)];
        InsertMessage(id, SystemReopened, actor, content, {t.target});
      } else {
        if !t.open {
          return Some(AlreadyClosed), None;
        }
        threads := threads[id := t.(open := false)];
        InsertMessage(id, SystemClosed, actor, content, {t.target});
      }
      e, audience := Finish(t.target, rest, later);
    }

    method MarkRead(actor: string, id: string, now: string, rest: Rest, ghost later: map<string, User>)
      returns (e: Option<Error>, audience: Option<seq<string>>)
      requires rest.accounts.Some? ==> Listing(rest.accounts.value, later)
      modifies this`messages
      ensures var step := Step.MarkRead(actor, id, now);
        View() == Next(old(View()), step) && e == Answer(old(View()), step, rest)
        && Announces(old(View()), step, rest, later, audience)
      ensures e == if !CanSee(old(View()), actor, id) then Some(NotFound) else if rest.reread then None else Some(Unanswered)
      ensures if Accepted(e) then Marked(old(View()), View(), actor, id, now) else View() == old(View())
      ensures Audience(Accepted(e), actor, rest, later, audience)
    {
      MarkReadDoes(View(), actor, id, now);
      if !Sees(View(), actor, id) {
        return Some(NotFound), None;
      }
      OpenAll(actor, id, now);
      e, audience := Finish(actor, rest, later);
    }

    method Summary(u: string) returns (n: nat)
      ensures n == Unread(messages, u)
    {
      n := 0;
      for i := 0 to |messages|
        invariant n == Unread(messages[..i], u)
      {
        assert messages[..i + 1][..i] == messages[..i];
        if IsUnread(messages[i], u) {
          n := n + 1;
        }
      }
      assert messages[..|messages|] == messages;
    }
  }
}
