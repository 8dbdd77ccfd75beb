/** The realtime hub: bounded buffers per subscriber, cut-off of slow readers. */
module Hub {

  type Account = string

  datatype Event = Event(id: string, resource: string, change: string)

  datatype Publication = Publication(audience: seq<Account>, event: Event)

  /** The events of a publication log that are addressed to one account, once each. */
  function Addressed(log: seq<Publication>, user: Account): seq<Event> {
    if log == [] then []
    else
      var p := log[|log| - 1];
      Addressed(log[..|log| - 1], user) + (if user != "" && user in p.audience then [p.event] else [])
  }

  /** One subscription: its channel holds at most the hub's buffer size. */
  class Subscriber {
    const id: nat
    const user: Account
    var buffer: seq<Event>      // channel events, oldest first
    var closed: bool            // channel done is closed
    ghost var consumed: seq<Event>
    ghost const start: nat      // length of the publication log at Subscribe

    constructor (id: nat, user: Account, ghost start: nat)
      ensures this.id == id && this.user == user && this.start == start
      ensures buffer == [] && !closed && consumed == []
    {
      this.id, this.user, this.start := id, user, start;
      buffer, closed, consumed := [], false, [];
    }

    /** Everything that ever entered the channel. */
    ghost function Stream(): seq<Event>
      reads this
    {
      consumed + buffer
    }

    /** close(done); closing it twice would panic. */
    method CloseDone()
      requires !closed
      modifies this`closed
      ensures closed
    {
      closed := true;
    }

    /** The reader takes the oldest buffered event; a closed subscription can still be drained. */
    method Receive() returns (event: Event)
      requires buffer != []
      modifies this`buffer, this`consumed
      ensures event == old(buffer)[0] && buffer == old(buffer)[1..] && consumed == old(consumed) + [event]
      ensures Stream() == old(Stream())
    {
      event := buffer[0];
      buffer := buffer[1..];
      consumed := consumed + [event];
    }
  }

  type Table = map<Account, map<nat, Subscriber>>

  /** Identity and account never change, so being registered is a fact about the table alone. */
  ghost predicate Registered(table: Table, s: Subscriber) {
    s.user in table && s.id in table[s.user] && table[s.user][s.id] == s
  }

  ghost predicate RowOk(row: map<nat, Subscriber>, user: Account, everyone: set<Subscriber>) {
    row != map[] && forall i {:trigger row[i]} | i in row :: row[i] in everyone && row[i].id == i && row[i].user == user
  }

  /** No empty inner map, every entry filed under its own account and id. */
  ghost predicate TableOk(table: Table, everyone: set<Subscriber>, nextId: nat) {
    && (forall u | u in table :: RowOk(table[u], u, everyone))
    && (forall s | s in everyone :: s.id <= nextId)
  }

  function Insert(table: Table, s: Subscriber): Table {
    var row: map<nat, Subscriber> := if s.user in table then table[s.user] else map[];
    table[s.user := row[s.id := s]]
  }

  /** The table after the entries of one account have been cut down to `items`. */
  function WithRow(table: Table, user: Account, items: map<nat, Subscriber>): Table {
    if |items| == 0 then table - {user} else table[user := items]
  }

  lemma WithRowOk(table: Table, everyone: set<Subscriber>, nextId: nat, user: Account, items: map<nat, Subscriber>)
    requires TableOk(table, everyone, nextId) && user in table
    requires items.Keys <= table[user].Keys && forall i | i in items :: items[i] == table[user][i]
    ensures TableOk(WithRow(table, user, items), everyone, nextId)
  {
    assert RowOk(table[user], user, everyone);
    if items != map[] {
      assert RowOk(items, user, everyone);
    }
  }

  lemma WithRowLists(table: Table, user: Account, items: map<nat, Subscriber>, s: Subscriber)
    requires user in table
    requires items.Keys <= table[user].Keys && forall i | i in items :: items[i] == table[user][i]
    ensures Registered(WithRow(table, user, items), s) <==> Registered(table, s) && (s.user == user ==> s.id in items)
  {
  }

  lemma InsertRegisters(table: Table, everyone: set<Subscriber>, nextId: nat, s: Subscriber)
    requires TableOk(table, everyone, nextId) && s.id == nextId + 1
    ensures TableOk(Insert(table, s), everyone + {s}, nextId + 1)
    ensures forall t | t in everyone :: Registered(Insert(table, s), t) <==> Registered(table, t)
    ensures Registered(Insert(table, s), s)
  {
  }

  /** A live stream is exactly what was addressed to the account since `start`; a cut one
      is a prefix of it. */
  ghost predicate Follows(stream: seq<Event>, cut: bool, start: nat, user: Account, log: seq<Publication>)
    requires start <= |log|
  {
    if cut then stream <= Addressed(log[start..], user) else stream == Addressed(log[start..], user)
  }

  ghost predicate GapFree(s: Subscriber, log: seq<Publication>, bufferSize: nat)
    reads s
  {
    && s.start <= |log|
    && |s.buffer| <= bufferSize
    && Follows(s.Stream(), s.closed, s.start, s.user, log)
  }

  /** What one publication does to an addressed subscription: it takes the event if there
      is room and is cut off otherwise; a closed one is left alone. */
  twostate predicate Served(s: Subscriber, event: Event, bufferSize: nat)
    reads s
  {
    && s.consumed == old(s.consumed)
    && if !old(s.closed) && |old(s.buffer)| < bufferSize then !s.closed && s.buffer == old(s.buffer) + [event]
       else s.closed && s.buffer == old(s.buffer)
  }

  /** Addressed subscriptions are served, all others are untouched. */
  twostate predicate Answered(s: Subscriber, p: Publication, bufferSize: nat)
    reads s
  {
    if s.user != "" && s.user in p.audience then Served(s, p.event, bufferSize) else unchanged(s)
  }

  lemma AddressedGrows(log: seq<Publication>, start: nat, p: Publication, user: Account)
    requires start <= |log|
    ensures Addressed((log + [p])[start..], user)
         == Addressed(log[start..], user) + (if user != "" && user in p.audience then [p.event] else [])
  {
    var longer := (log + [p])[start..];
    assert longer == log[start..] + [p];
    assert longer[..|longer| - 1] == log[start..];
  }

  /** One more publication: a stream that was complete stays complete by taking it, or
      falls behind for good by being cut. */
  lemma FollowsGrows(consumed: seq<Event>, buffer: seq<Event>, cut: bool, buffer': seq<Event>, cut': bool,
                     start: nat, user: Account, log: seq<Publication>, p: Publication)
    requires start <= |log| && Follows(consumed + buffer, cut, start, user, log)
    requires cut ==> cut'
    requires buffer' == if user != "" && user in p.audience && !cut' then buffer + [p.event] else buffer
    requires cut' && !cut ==> user != "" && user in p.audience
    ensures Follows(consumed + buffer', cut', start, user, log + [p])
  {
    AddressedGrows(log, start, p, user);
    assert consumed + (buffer + [p.event]) == (consumed + buffer) + [p.event];
  }

  class Hub {
    const bufferSize: nat
    var nextId: nat
    var subscribers: Table
    ghost var log: seq<Publication>
    ghost var everyone: set<Subscriber>   // every subscription ever handed out

    /** `done` is closed exactly for the subscriptions the table no longer lists. */
    ghost predicate Listing()
      reads this`subscribers, this`everyone, this`nextId, everyone
    {
      && bufferSize > 0
      && TableOk(subscribers, everyone, nextId)
      && forall s | s in everyone :: s.closed <==> !Registered(subscribers, s)
    }

    ghost predicate Valid()
      reads this, everyone
    {
      Listing() && forall s | s in everyone :: GapFree(s, log, bufferSize)
    }

    constructor (size: int)
      ensures Valid() && subscribers == map[] && log == [] && everyone == {}
      ensures bufferSize == if size < 1 then 64 else size
    {
      bufferSize := if size < 1 then 64 else size;
      nextId, subscribers := 0, map[];
      log, everyone := [], {};
    }

    method Subscribe(user: Account) returns (s: Subscriber)
      requires Valid()
      modifies this
      ensures Valid() && fresh(s) && Registered(subscribers, s)
      ensures everyone == old(everyone) + {s} && log == old(log)
      ensures s.user == user && s.start == |log| && s.Stream() == []
    {
      s := new Subscriber(nextId + 1, user, |log|);
      InsertRegisters(subscribers, everyone, nextId, s);
      nextId := nextId + 1;
      subscribers := Insert(subscribers, s);
      everyone := everyone + {s};
      assert log[|log|..] == [];
    }

    /** Storing what is left of one account's entries; the account goes with the last one. */
    method Keep(user: Account, items: map<nat, Subscriber>)
      requires TableOk(subscribers, everyone, nextId) && user in subscribers
      requires items.Keys <= subscribers[user].Keys && forall i | i in items :: items[i] == subscribers[user][i]
      modifies this`subscribers
      ensures TableOk(subscribers, everyone, nextId)
      ensures forall s {:trigger Registered(subscribers, s)} | s in everyone ::
                Registered(subscribers, s) <==> Registered(old(subscribers), s) && (s.user == user ==> s.id in items)
    {
      WithRowOk(subscribers, everyone, nextId, user, items);
      forall s | s in everyone
        ensures Registered(WithRow(subscribers, user, items), s)
                <==> Registered(subscribers, s) && (s.user == user ==> s.id in items)
      {
        WithRowLists(subscribers, user, items, s);
      }
      subscribers := WithRow(subscribers, user, items);
    }

    method Unsubscribe(s: Subscriber)
      requires Listing() && s in everyone
      modifies this`subscribers, s`closed
      ensures Listing() && s.closed
    {
      if s.user !in subscribers || s.id !in subscribers[s.user] || subscribers[s.user][s.id] != s {
        return;
      }
      var items := subscribers[s.user] - {s.id};
      Keep(s.user, items);
      s.CloseDone();
    }

    /** Subscription.Close: idempotent, and harmless after a cut. */
    method Close(s: Subscriber)
      requires Valid() && s in everyone
      modifies this`subscribers, s`closed
      ensures Valid() && s.closed && !Registered(subscribers, s)
      ensures s.Stream() == old(s.Stream())
    {
      Unsubscribe(s);
      forall t | t in everyone ensures GapFree(t, log, bufferSize) {
        assert old(GapFree(t, log, bufferSize));
      }
    }

    /** The inner loop of Publish: a non-blocking send to every entry of one account. */
    method Fan(row: map<nat, Subscriber>, event: Event) returns (items: map<nat, Subscriber>)
      requires forall i | i in row :: row[i].id == i && !row[i].closed
      modifies row.Values
      ensures items.Keys <= row.Keys && forall i | i in items :: items[i] == row[i]
      ensures forall i | i in row ::
                && (i in items <==> |old(row[i].buffer)| < bufferSize)
                && row[i].closed == (i !in items)
                && row[i].buffer == old(row[i].buffer) + (if i in items then [event] else [])
                && row[i].consumed == old(row[i].consumed)
    {
      items := row;
      var rest := row.Keys;
      while rest != {}
        invariant rest <= items.Keys <= row.Keys
        invariant forall i | i in items :: items[i] == row[i]
        invariant forall i | i in rest :: unchanged(row[i])
        invariant forall i | i in row && i !in rest ::
                    && (i in items <==> |old(row[i].buffer)| < bufferSize)
                    && row[i].closed == (i !in items)
                    && row[i].buffer == old(row[i].buffer) + (if i in items then [event] else [])
                    && row[i].consumed == old(row[i].consumed)
        decreases rest
      {
        var id :| id in rest;
        var item := items[id];
        assert item in row.Values;
        rest := rest - {id};
        if |item.buffer| < bufferSize {
          item.buffer := item.buffer + [event];
        } else {
          item.CloseDone();
          items := items - {id};
        }
      }
    }

    /** One round of Publish: the event goes to every subscription of one account, and a
        subscription whose channel is full is cut off instead. */
    method Deliver(user: Account, event: Event)
      requires Listing()
      modifies this`subscribers, everyone
      ensures Listing()
      ensures forall s | s in everyone :: if s.user == user then Served(s, event, bufferSize) else unchanged(s)
    {
      if user !in subscribers {
        return;
      }
      var row := subscribers[user];
      var items := Fan(row, event);
      ghost var before := subscribers;
      Keep(user, items);
      assert forall s | s in everyone && s.user == user && Registered(before, s) :: s == row[s.id];
    }

    /** The outer loop of Publish: each account is served once, empty names are skipped. */
    method Broadcast(audience: seq<Account>, event: Event)
      requires Listing()
      modifies this`subscribers, everyone
      ensures Listing()
      ensures forall s | s in everyone :: Answered(s, Publication(audience, event), bufferSize)
    {
      var seen: set<Account> := {};
      for k := 0 to |audience|
        invariant Listing()
        invariant forall u :: u in seen <==> u != "" && u in audience[..k]
        invariant forall s | s in everyone :: if s.user in seen then Served(s, event, bufferSize) else unchanged(s)
      {
        var user := audience[k];
        assert audience[..k + 1] == audience[..k] + [user];
        if user != "" && user !in seen {
          seen := seen + {user};
          Deliver(user, event);
        }
      }
      assert audience[..|audience|] == audience;
    }

    ghost method Record(p: Publication)
      requires Listing() && forall s | s in everyone :: GapFree(s, log + [p], bufferSize)
      modifies this`log
      ensures Valid() && log == old(log) + [p]
    {
      log := log + [p];
    }

    /** Publish; the log records it. */
    method Publish(audience: seq<Account>, event: Event)
      requires Valid()
      modifies this`subscribers, this`log, everyone
      ensures Valid()
      ensures log == old(log) + [Publication(audience, event)]
      ensures forall s | s in everyone :: Answered(s, Publication(audience, event), bufferSize)
    {
      Broadcast(audience, event);
      ghost var p := Publication(audience, event);
      forall s | s in everyone ensures GapFree(s, log + [p], bufferSize) {
        assert old(GapFree(s, log, bufferSize)) && Answered(s, p, bufferSize);
        FollowsGrows(s.consumed, old(s.buffer), old(s.closed), s.buffer, s.closed, s.start, s.user, log, p);
      }
      Record(p);
    }

    /** A reader takes its next event from the channel. */
    method Read(s: Subscriber) returns (event: Event)
      requires Valid() && s in everyone && s.buffer != []
      modifies s`buffer, s`consumed
      ensures Valid() && s.Stream() == old(s.Stream())
      ensures event == old(s.buffer)[0] && s.consumed == old(s.consumed) + [event]
    {
      event := s.Receive();
      forall t | t in everyone ensures GapFree(t, log, bufferSize) {
        assert old(GapFree(t, log, bufferSize));
      }
    }
  }
}
