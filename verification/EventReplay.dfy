/** The event log of one operation and its replay to clients: appending lines, reading them
    while the last one may be half written, polling, and reconnecting with Last-Event-ID. */
module EventReplay {
  import opened Prelude

  datatype Event = Event(id: int, kind: string, message: string)

  /** JSON encoding of one event, and decoding of one line. */
  datatype Codec = Codec(encode: Event -> string, decode: string -> Option<Event>)

  /** The first `size` characters of an encoded event. */
  datatype Chunk = Chunk(event: Event, size: nat)

  predicate ChunkOk(c: Codec, k: Chunk) {
    0 < k.size <= |c.encode(k.event)|
  }

  function Joined(c: Codec, chunks: seq<Chunk>): string
    requires forall k | k in chunks :: ChunkOk(c, k)
  {
    if chunks == [] then ""
    else
      var last := chunks[|chunks| - 1];
      assert ChunkOk(c, last);
      Joined(c, chunks[..|chunks| - 1]) + c.encode(last.event)[..last.size]
  }

  /** An encoded event is one line and decodes to the event; no proper prefix of it decodes, and
      nor do two or more beginnings of encoded events run together. */
  ghost predicate Lawful(c: Codec) {
    && (forall e {:trigger c.encode(e)} ::
          && c.decode(c.encode(e)) == Some(e)
          && NoNewline(c.encode(e))
          && (forall k | 0 <= k < |c.encode(e)| :: c.decode(c.encode(e)[..k]) == None))
    && (forall chunks {:trigger Joined(c, chunks)} | |chunks| >= 2 && forall k | k in chunks :: ChunkOk(c, k) ::
          c.decode(Joined(c, chunks)) == None)
  }

  predicate NoNewline(s: string) {
    forall i | 0 <= i < |s| :: s[i] != '\n'
  }

  /** The scanner gives up on a line of this length: 2 << 20 bytes. */
  const LIMIT: nat := 2 * 1024 * 1024

  /** A finished line of the file: an event, or what a torn write and the next one made. */
  datatype Line = Whole(event: Event) | Spoilt(text: string)

  function Text(c: Codec, l: Line): string {
    if l.Whole? then c.encode(l.event) else l.text
  }

  function Content(c: Codec, lines: seq<Line>): string {
    if lines == [] then "" else Text(c, lines[0]) + "\n" + Content(c, lines[1..])
  }

  /** The events of the log: those of whole lines. */
  function Log(lines: seq<Line>): seq<Event> {
    if lines == [] then [] else (if lines[0].Whole? then [lines[0].event] else []) + Log(lines[1..])
  }

  /** A spoilt line is one line, and it does not decode. */
  ghost predicate Spoils(c: Codec, lines: seq<Line>) {
    forall l | l in lines && l.Spoilt? :: NoNewline(l.text) && c.decode(l.text) == None
  }

  function Decoded(c: Codec, line: string): seq<Event> {
    if c.decode(line).Some? then [c.decode(line).value] else []
  }

  /** The events decoded from a file, `line` being the part of a line already read. */
  function Scan(c: Codec, line: string, s: string): seq<Event>
    decreases |s|
  {
    if s == "" then (if line == "" then [] else Decoded(c, line))
    else if s[0] == '\n' then Decoded(c, line) + Scan(c, "", s[1..])
    else Scan(c, line + [s[0]], s[1..])
  }

  predicate LineTooLong(line: string, s: string)
    decreases |s|
  {
    |line| >= LIMIT ||
    (s != "" && (if s[0] == '\n' then LineTooLong("", s[1..]) else LineTooLong(line + [s[0]], s[1..])))
  }

  function Later(events: seq<Event>, after: int): seq<Event> {
    if events == [] then []
    else (if events[0].id > after then [events[0]] else []) + Later(events[1..], after)
  }

  lemma {:induction false} LaterAppend(a: seq<Event>, b: seq<Event>, after: int)
    ensures Later(a + b, after) == Later(a, after) + Later(b, after)
  {
    if a == [] {
      assert a + b == b;
    } else {
      assert (a + b)[1..] == a[1..] + b;
      LaterAppend(a[1..], b, after);
    }
  }

  /** `ReadEvents`: None when a line is too long, even if the lines before it are fine. */
  method ReadEvents(c: Codec, file: string, after: int) returns (r: Option<seq<Event>>)
    ensures r.None? <==> LineTooLong("", file)
    ensures r.Some? ==> r.value == Later(Scan(c, "", file), after)
  {
    var events: seq<Event> := [];
    var line := "";
    ghost var all: seq<Event> := [];
    for i := 0 to |file|
      invariant |line| < LIMIT && events == Later(all, after)
      invariant all + Scan(c, line, file[i..]) == Scan(c, "", file)
      invariant LineTooLong(line, file[i..]) == LineTooLong("", file)
    {
      assert file[i..][0] == file[i] && file[i..][1..] == file[i + 1..];
      if file[i] == '\n' {
        LaterAppend(all, Decoded(c, line), after);
        AppendAssociates(all, Decoded(c, line), Scan(c, "", file[i + 1..]));
        all := all + Decoded(c, line);
        var event := c.decode(line);
        if event.Some? && event.value.id > after {
          events := events + [event.value];
        }
        line := "";
      } else {
        line := line + [file[i]];
        if |line| >= LIMIT {
          return None;
        }
      }
    }
    assert file[|file|..] == "";
    if line != "" {
      LaterAppend(all, Decoded(c, line), after);
      var event := c.decode(line);
      if event.Some? && event.value.id > after {
        events := events + [event.value];
      }
    } else {
      assert all + [] == all;
    }
    r := Some(events);
  }

  lemma AppendAssociates(a: seq<Event>, b: seq<Event>, d: seq<Event>)
    ensures a + b + d == a + (b + d)
  {
  }

  // ----- what a reader sees of a log -----

  /** What stands after the last newline: nothing or something that does not decode, or the
      whole next event, only its newline missing. */
  ghost predicate Tail(c: Codec, tail: string, next: Option<Event>) {
    NoNewline(tail) && if next.Some? then tail == c.encode(next.value) else tail == "" || c.decode(tail) == None
  }

  function Seen(next: Option<Event>): seq<Event> {
    if next.Some? then [next.value] else []
  }

  lemma {:induction false} ScanPart(c: Codec, line: string, part: string, rest: string)
    requires NoNewline(part)
    ensures Scan(c, line, part + rest) == Scan(c, line + part, rest)
    decreases |part|
  {
    if part == "" {
      assert part + rest == rest && line + part == line;
    } else {
      assert (part + rest)[1..] == part[1..] + rest;
      ScanPart(c, line + [part[0]], part[1..], rest);
      assert line + [part[0]] + part[1..] == line + part;
    }
  }

  lemma ScanLine(c: Codec, text: string, rest: string)
    requires NoNewline(text)
    ensures Scan(c, "", text + "\n" + rest) == Decoded(c, text) + Scan(c, "", rest)
  {
    assert text + "\n" + rest == text + ("\n" + rest);
    ScanPart(c, "", text, "\n" + rest);
    assert "" + text == text;
    assert ("\n" + rest)[1..] == rest;
  }

  /** An unfinished line yields nothing; only its newline may be missing for the event to be read. */
  lemma ScanTail(c: Codec, tail: string, next: Option<Event>)
    requires Lawful(c) && Tail(c, tail, next)
    ensures Scan(c, "", tail) == Seen(next)
  {
    assert tail + "" == tail && "" + tail == tail;
    ScanPart(c, "", tail, "");
    if next.Some? {
      EncodingIsNotEmpty(c, next.value);
      assert c.decode(c.encode(next.value)) == next;
    }
  }

  lemma EncodingIsNotEmpty(c: Codec, e: Event)
    requires Lawful(c)
    ensures c.encode(e) != ""
  {
    var other := Event(e.id + 1, e.kind, e.message);
    assert c.decode(c.encode(e)) == Some(e) && c.decode(c.encode(other)) == Some(other);
    assert c.encode(other) != c.encode(e);
    assert c.encode(other)[..0] == "";
    assert |c.encode(other)| > 0 ==> c.decode(c.encode(other)[..0]) == None;
  }

  /** A reader gets exactly the events of the log whose lines are complete. */
  lemma {:induction false} ScanCaught(c: Codec, lines: seq<Line>, tail: string, next: Option<Event>)
    requires Lawful(c) && Spoils(c, lines) && Tail(c, tail, next)
    ensures Scan(c, "", Content(c, lines) + tail) == Log(lines) + Seen(next)
    decreases |lines|
  {
    if lines == [] {
      assert Content(c, lines) + tail == tail;
      ScanTail(c, tail, next);
    } else {
      var text, rest := Text(c, lines[0]), Content(c, lines[1..]) + tail;
      assert lines[0] in lines;
      ScanCaught(c, lines[1..], tail, next);
      if lines[0].Whole? {
        assert c.decode(c.encode(lines[0].event)) == Some(lines[0].event);
      }
      ScanLine(c, text, rest);
      assert Content(c, lines) + tail == text + "\n" + rest;
    }
  }

  lemma {:induction false} PartIsShort(line: string, part: string, rest: string)
    requires NoNewline(part)
    requires |line| + |part| < LIMIT
    ensures LineTooLong(line, part + rest) <==> LineTooLong(line + part, rest)
    decreases |part|
  {
    if part == "" {
      assert part + rest == rest && line + part == line;
    } else {
      assert (part + rest)[1..] == part[1..] + rest;
      PartIsShort(line + [part[0]], part[1..], rest);
      assert line + [part[0]] + part[1..] == line + part;
    }
  }

  lemma {:induction false} PartIsLong(line: string, part: string, rest: string)
    requires NoNewline(part)
    requires |line| + |part| >= LIMIT
    ensures LineTooLong(line, part + rest)
    decreases |part|
  {
    if |line| < LIMIT {
      assert (part + rest)[1..] == part[1..] + rest;
      PartIsLong(line + [part[0]], part[1..], rest);
    }
  }

  /** Reading fails iff some line, the unfinished one included, reached the limit. */
  lemma {:induction false} CaughtTooLongIff(c: Codec, lines: seq<Line>, tail: string)
    requires Lawful(c) && Spoils(c, lines) && NoNewline(tail)
    ensures LineTooLong("", Content(c, lines) + tail) <==>
      |tail| >= LIMIT || exists l | l in lines :: |Text(c, l)| >= LIMIT
    decreases |lines|
  {
    if lines == [] {
      assert Content(c, lines) + tail == tail && tail + "" == tail && "" + tail == tail;
      if |tail| < LIMIT {
        PartIsShort("", tail, "");
      } else {
        PartIsLong("", tail, "");
      }
    } else {
      var text, rest := Text(c, lines[0]), Content(c, lines[1..]) + tail;
      CaughtTooLongIff(c, lines[1..], tail);
      assert lines[0] in lines;
      assert NoNewline(text) by {
        if lines[0].Whole? {
          assert NoNewline(c.encode(lines[0].event));
        }
      }
      assert Content(c, lines) + tail == text + ("\n" + rest);
      if |text| < LIMIT {
        PartIsShort("", text, "\n" + rest);
        assert "" + text == text && ("\n" + rest)[1..] == rest;
        assert forall l :: l in lines <==> l == lines[0] || l in lines[1..];
      } else {
        PartIsLong("", text, "\n" + rest);
      }
    }
  }

  // ----- polling and reconnecting -----

  ghost predicate Increasing(log: seq<Event>) {
    forall i, j | 0 <= i < j < |log| :: log[i].id < log[j].id
  }

  lemma {:induction false} LaterNone(log: seq<Event>, after: int)
    requires forall e | e in log :: e.id <= after
    ensures Later(log, after) == []
  {
    if log != [] {
      LaterNone(log[1..], after);
    }
  }

  lemma {:induction false} LaterAll(log: seq<Event>, after: int)
    requires forall e | e in log :: e.id > after
    ensures Later(log, after) == log
  {
    if log != [] {
      LaterAll(log[1..], after);
    }
  }

  /** In a log with increasing ids, the events after an id are a tail of the log. */
  lemma {:induction false} TailAt(log: seq<Event>, after: int, k: nat)
    requires k <= |log|
    requires (forall i | 0 <= i < k :: log[i].id <= after) && (forall i | k <= i < |log| :: log[i].id > after)
    ensures Later(log, after) == log[k..]
  {
    if k == 0 {
      LaterAll(log, after);
      assert log[0..] == log;
    } else {
      TailAt(log[1..], after, k - 1);
      assert log[1..][k - 1..] == log[k..];
    }
  }

  lemma {:induction false} Cut(log: seq<Event>, after: int) returns (k: nat)
    requires Increasing(log)
    ensures k <= |log|
    ensures (forall i | 0 <= i < k :: log[i].id <= after) && (forall i | k <= i < |log| :: log[i].id > after)
  {
    k := 0;
    while k < |log| && log[k].id <= after
      invariant k <= |log| && forall i | 0 <= i < k :: log[i].id <= after
    {
      k := k + 1;
    }
  }

  function LastId(start: int, received: seq<Event>): int {
    if received == [] then start else received[|received| - 1].id
  }

  /** What was received is the beginning of what the log holds after the starting id, so it has
      no gap and no duplicate. */
  ghost predicate Follows(log: seq<Event>, start: int, received: seq<Event>) {
    received <= Later(log, start)
  }

  /** The next answer continues where the received events end, whatever part of the log is
      visible now. */
  lemma PollContinues(log: seq<Event>, start: int, received: seq<Event>, visible: nat)
    requires Increasing(log) && Follows(log, start, received) && visible <= |log|
    ensures Follows(log, start, received + Later(log[..visible], LastId(start, received)))
    ensures visible == |log| ==> received + Later(log[..visible], LastId(start, received)) == Later(log, start)
  {
    var last := LastId(start, received);
    var k := Cut(log, start);
    TailAt(log, start, k);
    var n := k + |received|;
    assert received == log[k..n];
    if received != [] {
      assert received[|received| - 1] == log[n - 1];
    }
    PollAt(log, last, k, n, visible);
  }

  /** An answer to a client that has the events k..n. */
  lemma PollAt(log: seq<Event>, last: int, k: nat, n: nat, visible: nat)
    requires k <= n <= |log| && visible <= |log| && Increasing(log)
    requires forall i | 0 <= i < n :: log[i].id <= last
    requires forall i | n <= i < |log| :: log[i].id > last
    ensures log[k..n] + Later(log[..visible], last) <= log[k..]
    ensures visible == |log| ==> log[k..n] + Later(log[..visible], last) == log[k..]
  {
    if n <= visible {
      VisibleTail(log, last, n, visible);
      Adjacent(log, k, n, visible);
    } else {
      LaterNone(log[..visible], last);
      assert log[k..n] + [] == log[k..n];
    }
  }

  lemma Adjacent(log: seq<Event>, k: nat, n: nat, visible: nat)
    requires k <= n <= visible <= |log|
    ensures log[k..n] + log[n..visible] == log[k..visible] && log[k..visible] <= log[k..]
    ensures visible == |log| ==> log[k..visible] == log[k..]
  {
  }

  lemma VisibleTail(log: seq<Event>, last: int, n: nat, visible: nat)
    requires Increasing(log) && n <= visible <= |log|
    requires forall i | 0 <= i < n :: log[i].id <= last
    requires forall i | n <= i < |log| :: log[i].id > last
    ensures Later(log[..visible], last) == log[n..visible]
  {
    TailAt(log[..visible], last, n);
    assert log[..visible][n..] == log[n..visible];
  }

  lemma {:induction false} LaterIncreases(log: seq<Event>, start: int)
    requires Increasing(log)
    ensures Increasing(Later(log, start))
    ensures forall e :: e in Later(log, start) <==> e in log && e.id > start
  {
    var k := Cut(log, start);
    TailAt(log, start, k);
    forall e | e in log && e.id > start ensures e in log[k..] {
      var i :| 0 <= i < |log| && log[i] == e;
      assert log[k..][i - k] == e;
    }
  }

  /** A poll of the file while its first `count` lines are complete and `tail` stands after them;
      or a reconnection of a client that received only its first `kept` events so far. */
  datatype Action = Poll(count: nat, tail: string) | Reconnect(kept: nat)

  /** One handler: it starts from Last-Event-ID and sends what each poll finds. */
  class Stream {
    const codec: Codec
    var lastId: int
    var sent: seq<Event>
    var emptyPolls: nat

    constructor (codec: Codec, lastEventId: int)
      ensures this.codec == codec && lastId == lastEventId && sent == [] && emptyPolls == 0
    {
      this.codec, lastId, sent, emptyPolls := codec, lastEventId, [], 0;
    }

    /** Sends the new events; ends on a failed read, or on the second empty poll of a terminal
        operation without events in between. */
    method PollOnce(file: string, terminal: bool) returns (ended: bool)
      modifies this`lastId, this`sent, this`emptyPolls
      ensures var events := if LineTooLong("", file) then [] else Later(Scan(codec, "", file), old(lastId));
        && sent == old(sent) + events && lastId == LastId(old(lastId), events)
        && emptyPolls == (if events != [] then 0
                          else if terminal && !LineTooLong("", file) then old(emptyPolls) + 1 else old(emptyPolls))
        && (ended <==> LineTooLong("", file) || (terminal && events == [] && emptyPolls >= 2))
    {
      var events := ReadEvents(codec, file, lastId);
      if events.None? {
        assert sent + [] == sent;
        return true;
      }
      ghost var before := lastId;
      for i := 0 to |events.value|
        invariant sent == old(sent) + events.value[..i] && lastId == LastId(before, events.value[..i])
        invariant emptyPolls == old(emptyPolls)
      {
        assert events.value[..i + 1] == events.value[..i] + [events.value[i]];
        sent := sent + [events.value[i]];
        lastId := events.value[i].id;
      }
      assert events.value[..|events.value|] == events.value;
      if |events.value| > 0 {
        emptyPolls := 0;
      }
      if terminal && |events.value| == 0 {
        emptyPolls := emptyPolls + 1;
        if emptyPolls >= 2 {
          return true;
        }
      }
      ended := false;
    }
  }

  /** The event a poll reads early: the next line but for its newline. */
  function Early(c: Codec, lines: seq<Line>, a: Action): Option<Event>
    requires a.Poll?
  {
    if a.count < |lines| && lines[a.count].Whole? && a.tail == c.encode(lines[a.count].event)
    then Some(lines[a.count].event) else None
  }

  /** How many events of the log a poll can read. */
  function Visible(c: Codec, lines: seq<Line>, a: Action): nat
    requires a.Poll? && a.count <= |lines|
  {
    |Log(lines[..a.count])| + |Seen(Early(c, lines, a))|
  }

  /** `lines` is all that is ever written; a poll sees some of it. */
  ghost predicate Possible(c: Codec, lines: seq<Line>, a: Action) {
    a.Poll? ==> a.count <= |lines| && |a.tail| < LIMIT && Tail(c, a.tail, Early(c, lines, a))
  }

  lemma {:induction false} LogAppend(a: seq<Line>, b: seq<Line>)
    ensures Log(a + b) == Log(a) + Log(b)
  {
    if a == [] {
      assert a + b == b;
    } else {
      var head := if a[0].Whole? then [a[0].event] else [];
      assert (a + b)[0] == a[0] && (a + b)[1..] == a[1..] + b;
      LogAppend(a[1..], b);
      AppendAssociates(head, Log(a[1..]), Log(b));
    }
  }

  lemma ReadsVisible(c: Codec, lines: seq<Line>, a: Action)
    requires Lawful(c) && Spoils(c, lines) && a.Poll? && Possible(c, lines, a)
    requires forall l | l in lines :: |Text(c, l)| < LIMIT
    ensures Visible(c, lines, a) <= |Log(lines)|
    ensures var file := Content(c, lines[..a.count]) + a.tail;
      !LineTooLong("", file) && Scan(c, "", file) == Log(lines)[..Visible(c, lines, a)]
  {
    var before, after := lines[..a.count], lines[a.count..];
    assert lines == before + after;
    LogAppend(before, after);
    assert forall l | l in before :: l in lines;
    CaughtTooLongIff(c, before, a.tail);
    ScanCaught(c, before, a.tail, Early(c, lines, a));
    if Early(c, lines, a).Some? {
      assert after[0] == lines[a.count];
      assert Log(after) == [lines[a.count].event] + Log(after[1..]);
    }
  }

  /** The last action was a poll that could see the whole log. */
  ghost predicate EndsUpToDate(c: Codec, lines: seq<Line>, actions: seq<Action>) {
    actions != [] && var last := actions[|actions| - 1];
    last.Poll? && last.count <= |lines| && Visible(c, lines, last) == |Log(lines)|
  }

  /** A client that polls and reconnects in any order, with any part of its answers lost at each
      reconnection, while the file is being appended and some writes are torn: what it has
      received is always the beginning of the log after its starting id. */
  method Replay(c: Codec, lines: seq<Line>, start: int, actions: seq<Action>) returns (received: seq<Event>)
    requires Lawful(c) && Spoils(c, lines) && Increasing(Log(lines))
    requires forall l | l in lines :: |Text(c, l)| < LIMIT
    requires forall a | a in actions :: Possible(c, lines, a)
    ensures Follows(Log(lines), start, received) && Increasing(received)
    ensures EndsUpToDate(c, lines, actions) ==> received == Later(Log(lines), start)
  {
    var s := new Stream(c, start);
    received := [];
    for i := 0 to |actions|
      invariant fresh(s) && s.codec == c && s.lastId == LastId(start, received)
      invariant Follows(Log(lines), start, received)
      invariant EndsUpToDate(c, lines, actions[..i]) ==> received == Later(Log(lines), start)
    {
      var a := actions[i];
      assert a in actions;
      match a {
        case Poll(count, tail) =>
          ReadsVisible(c, lines, a);
          PollContinues(Log(lines), start, received, Visible(c, lines, a));
          var already := s.sent;
          var ended := s.PollOnce(Content(c, lines[..count]) + tail, false);
          received := received + s.sent[|already|..];
        case Reconnect(kept) =>
          if kept < |received| {
            received := received[..kept];
          }
          s := new Stream(c, LastId(start, received));
      }
      assert actions[..i + 1][i] == a;
    }
    assert actions[..|actions|] == actions;
    LaterIncreases(Log(lines), start);
  }

  /** Once a line reached the limit it stops every later poll of that file. */
  lemma LongLineIsForever(c: Codec, lines: seq<Line>, l: Line, more: seq<Line>, tail: string)
    requires Lawful(c) && Spoils(c, lines + more) && NoNewline(tail) && l in lines && |Text(c, l)| >= LIMIT
    ensures LineTooLong("", Content(c, lines + more) + tail)
  {
    assert l in lines + more;
    CaughtTooLongIff(c, lines + more, tail);
  }

  /** Such a poll ends the stream and sends nothing, not even the unsent events before the line. */
  method LongLineStopsReplay(s: Stream, lines: seq<Line>, l: Line, more: seq<Line>, tail: string, terminal: bool)
    returns (ended: bool)
    requires Lawful(s.codec) && Spoils(s.codec, lines + more) && NoNewline(tail)
    requires l in lines && |Text(s.codec, l)| >= LIMIT
    modifies s
    ensures ended && s.sent == old(s.sent) && s.lastId == old(s.lastId)
  {
    LongLineIsForever(s.codec, lines, l, more, tail);
    ended := s.PollOnce(Content(s.codec, lines + more) + tail, terminal);
    assert old(s.sent) + [] == old(s.sent);
  }

  // ----- the writer -----

  /** One append: all of it, nothing, or the first `size` characters of the event. */
  datatype Append = Stored | Nothing | Torn(size: nat)

  class EventLogger {
    const codec: Codec
    var counter: nat
    var file: string
    ghost var lines: seq<Line>
    ghost var open: seq<Chunk>   // what torn writes left after the last newline

    ghost predicate Valid()
      reads this
    {
      && (forall k | k in open :: ChunkOk(codec, k))
      && file == Content(codec, lines) + Joined(codec, open)
      && Spoils(codec, lines) && Increasing(Log(lines))
      && forall e | e in Log(lines) :: 0 < e.id <= counter
    }

    constructor (codec: Codec)
      ensures Valid() && this.codec == codec && lines == [] && open == [] && counter == 0
    {
      this.codec, counter, file, lines, open := codec, 0, "", [], [];
    }

    /** Every attempt takes an id. A stored event is in the log unless a torn write came right
        before it: then both are lost in one spoilt line. */
    method Write(kind: string, message: string, fate: Append) returns (ok: bool)
      requires Valid() && Lawful(codec)
      requires fate.Torn? ==> 0 < fate.size <= |codec.encode(Event(counter + 1, kind, message))|
      modifies this
      ensures Valid() && ok == fate.Stored? && counter == old(counter) + 1 && old(file) <= file
      ensures Log(lines) == Log(old(lines)) + if fate.Stored? && old(open) == [] then [Event(counter, kind, message)] else []
      ensures old(lines) <= lines && |lines| == |old(lines)| + if fate.Stored? then 1 else 0
      ensures open == match fate
        case Stored => []
        case Nothing => old(open)
        case Torn(size) => old(open) + [Chunk(Event(counter, kind, message), size)]
    {
      counter := counter + 1;
      match fate {
        case Nothing => ok := false;
        case Torn(size) =>
          Tear(Event(counter, kind, message), size);
          ok := false;
        case Stored =>
          Store(Event(counter, kind, message));
          ok := true;
      }
      assert Log(old(lines)) + [] == Log(old(lines));
    }

    method Tear(e: Event, size: nat)
      requires Valid() && 0 < size <= |codec.encode(e)|
      modifies this`file, this`open
      ensures Valid() && open == old(open) + [Chunk(e, size)] && old(file) <= file
    {
      JoinedOneMore(codec, open, Chunk(e, size));
      file := file + codec.encode(e)[..size];
      open := open + [Chunk(e, size)];
    }

    method Store(e: Event)
      requires Valid() && Lawful(codec) && 0 < e.id <= counter && forall x | x in Log(lines) :: x.id < e.id
      modifies this`file, this`lines, this`open
      ensures Valid() && open == [] && old(file) <= file
      ensures Log(lines) == Log(old(lines)) + if old(open) == [] then [e] else []
      ensures old(lines) <= lines && |lines| == |old(lines)| + 1
    {
      ghost var l := if open == [] then Whole(e) else Spoilt(Joined(codec, open) + codec.encode(e));
      FinishedLine(codec, lines, open, e, l);
      LogOneMore(lines, l);
      file := file + (codec.encode(e) + "\n");
      lines, open := lines + [l], [];
      assert file + "" == file;
    }
  }

  lemma LogOneMore(lines: seq<Line>, l: Line)
    ensures Log(lines + [l]) == Log(lines) + if l.Whole? then [l.event] else []
  {
    LogAppend(lines, [l]);
    assert [l][1..] == [];
  }

  lemma JoinedOneMore(c: Codec, open: seq<Chunk>, k: Chunk)
    requires (forall x | x in open :: ChunkOk(c, x)) && ChunkOk(c, k)
    ensures Joined(c, open + [k]) == Joined(c, open) + c.encode(k.event)[..k.size]
  {
    assert (open + [k])[..|open|] == open;
  }

  lemma {:induction false} JoinedHasNoNewline(c: Codec, open: seq<Chunk>)
    requires Lawful(c) && forall k | k in open :: ChunkOk(c, k)
    ensures NoNewline(Joined(c, open))
  {
    if open != [] {
      var front, k := open[..|open| - 1], open[|open| - 1];
      assert k in open && ChunkOk(c, k) && forall x | x in front :: x in open;
      JoinedHasNoNewline(c, front);
      assert NoNewline(c.encode(k.event));
      NoNewlineAppend(Joined(c, front), c.encode(k.event)[..k.size]);
    }
  }

  lemma NoNewlineAppend(a: string, b: string)
    requires NoNewline(a) && NoNewline(b)
    ensures NoNewline(a + b)
  {
  }

  /** Torn writes followed by a whole event do not decode. */
  lemma TornLineIsSpoilt(c: Codec, open: seq<Chunk>, e: Event)
    requires Lawful(c) && open != [] && forall k | k in open :: ChunkOk(c, k)
    ensures var text := Joined(c, open) + c.encode(e); NoNewline(text) && c.decode(text) == None
  {
    EncodingIsNotEmpty(c, e);
    var k := Chunk(e, |c.encode(e)|);
    JoinedOneMore(c, open, k);
    assert c.encode(e)[..k.size] == c.encode(e);
    JoinedHasNoNewline(c, open + [k]);
    assert c.decode(Joined(c, open + [k])) == None;
  }

  /** What torn writes leave after the last newline is a tail a reader skips, unless it is one
      whole event but for its newline. */
  lemma TornTailIsSkipped(c: Codec, open: seq<Chunk>)
    requires Lawful(c) && forall k | k in open :: ChunkOk(c, k)
    requires |open| == 1 ==> open[0].size < |c.encode(open[0].event)|
    ensures Tail(c, Joined(c, open), None)
  {
    JoinedHasNoNewline(c, open);
    if |open| == 1 {
      var e := open[0].event;
      assert open[0] in open && open[..0] == [];
      assert Joined(c, open) == "" + c.encode(e)[..open[0].size] == c.encode(e)[..open[0].size];
    } else if |open| >= 2 {
      assert c.decode(Joined(c, open)) == None;
    }
  }

  /** The line a stored append finishes: the event, or one that does not decode. */
  lemma FinishedLine(c: Codec, lines: seq<Line>, open: seq<Chunk>, e: Event, l: Line)
    requires Lawful(c) && Spoils(c, lines) && forall k | k in open :: ChunkOk(c, k)
    requires l == if open == [] then Whole(e) else Spoilt(Joined(c, open) + c.encode(e))
    ensures Spoils(c, lines + [l])
    ensures Content(c, lines + [l]) == Content(c, lines) + Joined(c, open) + (c.encode(e) + "\n")
  {
    ContentOneMore(c, lines, l);
    if open != [] {
      TornLineIsSpoilt(c, open, e);
      Regroup(Content(c, lines), Joined(c, open), c.encode(e));
    }
  }

  lemma Regroup(a: string, b: string, d: string)
    ensures a + (b + d + "\n") == a + b + (d + "\n")
  {
  }

  lemma {:induction false} ContentOneMore(c: Codec, lines: seq<Line>, l: Line)
    ensures Content(c, lines + [l]) == Content(c, lines) + (Text(c, l) + "\n")
  {
    if lines == [] {
      assert [l][1..] == [];
    } else {
      assert (lines + [l])[1..] == lines[1..] + [l];
      ContentOneMore(c, lines[1..], l);
    }
  }
}
