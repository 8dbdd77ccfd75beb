/** Keyset paging of the audit and operation listings: the store query, the page a client
    asks for, the CSV export loop, and the retention delete that may run between two pages. */
module Paging {
  import opened Prelude
  import opened Keyset

  /** The rows a query with this cursor may return; an empty cursor id switches it off. */
  predicate Reaches(cursor: Option<Key>, k: Key) {
    cursor.None? || cursor.value.id == "" || Before(cursor.value, k)
  }

  /** A limit outside 1..200 falls back to 50. */
  function PageSize(limit: int): (n: nat)
    ensures 1 <= n <= 200 && (1 <= limit <= 200 ==> n == limit)
  {
    if limit <= 0 || limit > 200 then 50 else limit
  }

  /** One query: the first PageSize + 1 rows the cursor reaches, in listing order. */
  ghost predicate Fetched(matching: set<Key>, cursor: Option<Key>, limit: int, rows: seq<Key>) {
    && Descending(rows) && |rows| <= PageSize(limit) + 1
    && (forall k | k in rows :: k in matching && Reaches(cursor, k))
    && (forall k | k in matching && Reaches(cursor, k) && k !in rows ::
          |rows| == PageSize(limit) + 1 && forall x | x in rows :: Before(x, k))
  }

  /** By descending time and then descending id, as texts. */
  ghost predicate ListedAfter(x: Key, y: Key) {
    TextLess(y.time, x.time) || (y.time == x.time && TextLess(y.id, x.id))
  }

  ghost predicate NewestFirst(rows: seq<Key>) {
    forall i, j | 0 <= i < j < |rows| :: ListedAfter(rows[i], rows[j])
  }

  method ListEvents(matching: set<Key>, cursor: Option<Key>, limit: int) returns (rows: seq<Key>)
    ensures Fetched(matching, cursor, limit, rows)
    ensures |rows| <= (if 1 <= limit <= 200 then limit else 50) + 1 && NewestFirst(rows)
    ensures cursor.Some? && cursor.value.id != "" ==> forall k | k in rows :: ListedAfter(cursor.value, k)
  {
    var n := limit;
    if n <= 0 || n > 200 {
      n := 50;
    }
    rows := Query((set k | k in matching && Reaches(cursor, k)), n + 1);
  }

  /** Every table the listing saw. Row ids are never empty. */
  predicate Tables(snapshots: seq<set<Key>>) {
    forall m, k | m in snapshots && k in m :: k.id != ""
  }

  ghost predicate Throughout(snapshots: seq<set<Key>>, k: Key) {
    forall m | m in snapshots :: k in m
  }

  function LastOf(out: seq<Key>): Option<Key> {
    if out == [] then None else Some(out[|out| - 1])
  }

  /** What any walk over pages delivers when page i is read from snapshots[i]: rows strictly
      in listing order, hence none twice, each really read; and a row present in every table
      read is delivered or still lies ahead, and is delivered when the walk is over. */
  ghost predicate Walk(snapshots: seq<set<Key>>, out: seq<Key>, done: bool) {
    && Descending(out)
    && (forall k | k in out :: exists m | m in snapshots :: k in m)
    && (forall k | Throughout(snapshots, k) ::
          k in out || (!done && Reaches(LastOf(out), k)))
  }

  /** Adding one page, cut to n rows, to a walk. */
  lemma WalkOn(seen: seq<set<Key>>, m: set<Key>, out: seq<Key>, limit: int, rows: seq<Key>,
               page: seq<Key>, done: bool)
    requires Tables(seen + [m]) && Walk(seen, out, false)
    requires Fetched(m, LastOf(out), limit, rows)
    requires page == if |rows| > PageSize(limit) then rows[..PageSize(limit)] else rows
    requires done ==> |rows| <= PageSize(limit)
    ensures Walk(seen + [m], out + page, done)
  {
    var all := out + page;
    assert m in seen + [m];
    assert forall k | k in out :: k.id != "";
    forall i, j | 0 <= i < j < |all| ensures Before(all[i], all[j]) {
      if i < |out| <= j {
        var last := out[|out| - 1];
        assert page[j - |out|] in rows;
        assert last in out;
        assert Before(last, all[j]);
        if i < |out| - 1 {
          BeforeTransitive(all[i], last, all[j]);
        }
      }
    }
    forall k | k in all ensures exists t | t in seen + [m] :: k in t {
      if k in out {
        var t :| t in seen && k in t;
        assert t in seen + [m];
      } else {
        assert k in rows;
      }
    }
    forall k | Throughout(seen + [m], k) ensures k in all || (!done && Reaches(LastOf(all), k)) {
      assert forall t | t in seen :: t in seen + [m];
      assert Throughout(seen, k) && k in m;
      if k !in out {
        Ahead(k, m, LastOf(out), limit, rows, page);
      }
    }
  }

  /** A row the cursor reaches is on the page or after its last row. */
  lemma Ahead(k: Key, m: set<Key>, cursor: Option<Key>, limit: int, rows: seq<Key>, page: seq<Key>)
    requires Fetched(m, cursor, limit, rows) && k in m && Reaches(cursor, k)
    requires page == if |rows| > PageSize(limit) then rows[..PageSize(limit)] else rows
    ensures k in page || (|rows| > PageSize(limit) && page != [] && Before(page[|page| - 1], k))
  {
    if k in rows {
      var j :| 0 <= j < |rows| && rows[j] == k;
      if j < PageSize(limit) {
        assert page[j] == k;
      }
    } else {
      assert page[|page| - 1] in rows;
    }
  }

  /** An export that read `used` tables; it is done on the first page shorter than 200. */
  ghost predicate Exported(snapshots: seq<set<Key>>, out: seq<Key>, used: nat, done: bool)
    requires used <= |snapshots|
  {
    && Walk(snapshots[..used], out, done)
    && (if done then 200 * (used - 1) <= |out| < 200 * used else used == |snapshots| && |out| == 200 * used)
  }

  /** The CSV export: pages of 200 until a short one. Reading past the given tables fails. */
  method Export(snapshots: seq<set<Key>>) returns (out: seq<Key>, used: nat, done: bool)
    requires Tables(snapshots)
    ensures used <= |snapshots| && Exported(snapshots, out, used, done)
  {
    out, used, done := [], 0, false;
    var cursor: Option<Key> := None;
    while used < |snapshots| && !done
      invariant used <= |snapshots| && Walk(snapshots[..used], out, done)
      invariant !done ==> cursor == LastOf(out)
      invariant done ==> 200 * (used - 1) <= |out| < 200 * used
      invariant !done ==> |out| == 200 * used
      decreases |snapshots| - used, !done
    {
      var rows := ListEvents(snapshots[used], cursor, 200);
      var page := rows;
      if |page| > 200 {
        page := page[..200];
      }
      assert snapshots[..used + 1] == snapshots[..used] + [snapshots[used]];
      WalkOn(snapshots[..used], snapshots[used], out, 200, rows, page, |page| < 200);
      out := out + page;
      used := used + 1;
      if |page| < 200 {
        done := true;
      } else {
        cursor := Some(page[|page| - 1]);
      }
    }
  }

  /** One page as the handlers answer it: the fetched rows cut to the limit, and the last of
      them as next cursor when there were more. */
  ghost predicate PageOf(matching: set<Key>, cursor: Option<Key>, limit: int, items: seq<Key>, next: Option<Key>) {
    exists rows ::
      && Fetched(matching, cursor, limit, rows)
      && items == (if |rows| > PageSize(limit) then rows[..PageSize(limit)] else rows)
      && next == (if |rows| > PageSize(limit) then LastOf(items) else None)
  }

  method ListPage(matching: set<Key>, cursor: Option<Key>, limit: int) returns (items: seq<Key>, next: Option<Key>)
    requires 1 <= limit <= 200
    ensures PageOf(matching, cursor, limit, items, next)
  {
    items := ListEvents(matching, cursor, limit);
    next := None;
    if |items| > limit {
      items := items[..limit];
      next := Some(items[|items| - 1]);
    }
  }

  /** There is no next cursor iff the page holds every row that is left; otherwise the cursor
      is its last row, and every row left out comes after it. */
  lemma NextCursorIff(matching: set<Key>, cursor: Option<Key>, limit: int, items: seq<Key>, next: Option<Key>)
    requires 1 <= limit <= 200 && PageOf(matching, cursor, limit, items, next)
    ensures next.None? <==> forall k | k in matching && Reaches(cursor, k) :: k in items
    ensures next.Some? ==> |items| == limit && next == LastOf(items)
    ensures next.Some? ==> forall k | k in matching && Reaches(cursor, k) && k !in items :: Before(next.value, k)
  {
    var rows :| Fetched(matching, cursor, limit, rows)
      && items == (if |rows| > PageSize(limit) then rows[..PageSize(limit)] else rows)
      && next == (if |rows| > PageSize(limit) then LastOf(items) else None);
    forall k | k in matching && Reaches(cursor, k) && k !in items ensures next.Some? && Before(next.value, k) {
      Ahead(k, matching, cursor, limit, rows, items);
    }
    if next.Some? {
      var k := rows[limit];
      forall j | 0 <= j < limit ensures items[j] != k {
        BeforeTotal(rows[j], k);
      }
      assert k in rows && k !in items;
    }
  }

  ghost predicate RowAfter(m: set<Key>, x: Key) {
    exists k | k in m :: Before(x, k)
  }

  lemma CursorMeansMore(m: set<Key>, cursor: Option<Key>, limit: int, items: seq<Key>, next: Option<Key>)
    requires 1 <= limit <= 200 && PageOf(m, cursor, limit, items, next)
    ensures next.Some? ==> RowAfter(m, next.value)
  {
    NextCursorIff(m, cursor, limit, items, next);
  }

  lemma PageWalks(seen: seq<set<Key>>, m: set<Key>, out: seq<Key>, limit: int, items: seq<Key>, next: Option<Key>)
    requires 1 <= limit <= 200 && Tables(seen + [m]) && Walk(seen, out, false)
    requires PageOf(m, LastOf(out), limit, items, next)
    ensures Walk(seen + [m], out + items, next.None?)
  {
    var rows :| Fetched(m, LastOf(out), limit, rows)
      && items == (if |rows| > PageSize(limit) then rows[..PageSize(limit)] else rows)
      && next == (if |rows| > PageSize(limit) then LastOf(items) else None);
    WalkOn(seen, m, out, limit, rows, items, next.None?);
  }

  lemma PageIsShort(m: set<Key>, cursor: Option<Key>, out: seq<Key>, limit: int, items: seq<Key>, next: Option<Key>)
    requires 1 <= limit <= 200 && PageOf(m, cursor, limit, items, next)
    ensures |items| <= limit && (next.Some? ==> |items| == limit && next == LastOf(out + items))
  {
  }

  /** One request of a client that has `out` so far. */
  method Request(ghost seen: seq<set<Key>>, m: set<Key>, ghost out: seq<Key>, cursor: Option<Key>, limit: int)
    returns (items: seq<Key>, next: Option<Key>)
    requires 1 <= limit <= 200 && Tables(seen + [m]) && Walk(seen, out, false) && cursor == LastOf(out)
    ensures Walk(seen + [m], out + items, next.None?)
    ensures |items| <= limit && (next.Some? ==> |items| == limit && next == LastOf(out + items))
    ensures next.Some? ==> RowAfter(m, next.value)
  {
    items, next := ListPage(m, cursor, limit);
    PageWalks(seen, m, out, limit, items, next);
    PageIsShort(m, cursor, out, limit, items, next);
    CursorMeansMore(m, cursor, limit, items, next);
  }

  /** The last of `pages` full pages came with a cursor, because some row lay after it. */
  ghost predicate Owed(snapshots: seq<set<Key>>, head: seq<Key>, pages: nat) {
    pages > 0 ==> pages <= |snapshots| && head != [] && RowAfter(snapshots[pages - 1], head[|head| - 1])
  }

  /** A client's walk over `used` tables: full pages, each with a row owed after it, and when it
      is done one more page, which came without a cursor. */
  ghost predicate Followed(snapshots: seq<set<Key>>, limit: int, out: seq<Key>, used: nat, done: bool)
    requires used <= |snapshots|
  {
    && Walk(snapshots[..used], out, done)
    && (if done then
          used >= 1 && |out| <= limit * used
          && exists head | head <= out :: |head| == limit * (used - 1) && Owed(snapshots, head, used - 1)
        else used == |snapshots| && |out| == limit * used && Owed(snapshots, out, used))
  }

  /** A client that follows next_cursor until it is empty. */
  method Follow(snapshots: seq<set<Key>>, limit: int) returns (out: seq<Key>, used: nat, done: bool)
    requires Tables(snapshots) && 1 <= limit <= 200
    ensures used <= |snapshots| && Followed(snapshots, limit, out, used, done)
  {
    out, used, done := [], 0, false;
    var cursor: Option<Key> := None;
    ghost var head: seq<Key> := [];
    while used < |snapshots| && !done
      invariant used <= |snapshots| && Walk(snapshots[..used], out, done)
      invariant !done ==> cursor == LastOf(out) && head == out && Owed(snapshots, head, used)
      invariant done ==> used >= 1 && head <= out && |head| == limit * (used - 1) && Owed(snapshots, head, used - 1)
      invariant if done then |out| <= limit * used else |out| == limit * used
      decreases |snapshots| - used, !done
    {
      var items, next := Request(snapshots[..used], snapshots[used], out, cursor, limit);
      assert snapshots[..used + 1] == snapshots[..used] + [snapshots[used]];
      head := if next.None? then out else out + items;
      out := out + items;
      used := used + 1;
      done := next.None?;
      cursor := next;
    }
  }

  lemma {:induction false} DistinctRows(out: seq<Key>, m: set<Key>)
    requires Descending(out) && forall k | k in out :: k in m
    ensures |out| <= |m|
  {
    if out != [] {
      var k := out[0];
      forall x | x in out[1..] ensures x in m - {k} {
        var i :| 0 <= i < |out| - 1 && out[1..][i] == x;
        BeforeTotal(k, out[i + 1]);
      }
      DistinctRows(out[1..], m - {k});
    }
  }

  /** A walk over a table that does not change is the start of its listing, and all of it
      when the walk is over. */
  lemma WalkOfFixedTable(snapshots: seq<set<Key>>, m: set<Key>, out: seq<Key>, done: bool)
    requires snapshots != [] && forall t | t in snapshots :: t == m
    requires Walk(snapshots, out, done)
    ensures |out| <= |m| && (done ==> Lists(out, m) && |out| == |m|)
  {
    assert forall k | k in out :: k in m;
    DistinctRows(out, m);
    if done {
      assert forall k | k in m :: Throughout(snapshots, k);
      ListingIsUnique(out, out, m);
    }
  }

  /** Exporting a table that does not change takes exactly |m| / 200 + 1 queries and writes
      its full listing. */
  lemma ExportOfFixedTable(m: set<Key>, tries: nat, out: seq<Key>, used: nat, done: bool)
    requires used <= tries && Exported(seq(tries, _ => m), out, used, done)
    ensures done <==> tries > |m| / 200
    ensures done ==> Lists(out, m) && used == |m| / 200 + 1
  {
    if used > 0 {
      var seen := seq(tries, _ => m)[..used];
      assert seen[0] == m && forall t | t in seen :: t == m;
      WalkOfFixedTable(seen, m, out, done);
    }
  }

  /** A row after the last of some distinct rows makes the table larger than they are. */
  lemma OneMoreRow(m: set<Key>, head: seq<Key>, k: Key)
    requires Descending(head) && head != [] && k in m && Before(head[|head| - 1], k)
    requires forall x | x in head :: x in m
    ensures |head| < |m|
  {
    var longer := head + [k];
    forall i, j | 0 <= i < j < |longer| ensures Before(longer[i], longer[j]) {
      if j == |head| && i < |head| - 1 {
        BeforeTransitive(head[i], head[|head| - 1], k);
      }
    }
    DistinctRows(longer, m);
  }

  /** Pages that each owed a row hold fewer rows than the table. */
  lemma OwedOfFixedTable(m: set<Key>, tries: nat, out: seq<Key>, head: seq<Key>, pages: nat)
    requires pages <= tries && head <= out && Descending(out) && forall x | x in out :: x in m
    requires Owed(seq(tries, _ => m), head, pages)
    ensures pages > 0 ==> |head| < |m|
  {
    if pages > 0 {
      assert forall x | x in head :: x in out;
      assert seq(tries, _ => m)[pages - 1] == m;
      var k :| k in m && Before(head[|head| - 1], k);
      OneMoreRow(m, head, k);
    }
  }

  lemma MoreTries(limit: int, used: nat, tries: nat)
    requires limit > 0 && used <= tries
    ensures limit * used <= limit * tries
  {
    assert limit * tries == limit * used + limit * (tries - used);
  }

  lemma FixedPrefix(m: set<Key>, tries: nat, out: seq<Key>, used: nat, done: bool)
    requires 0 < used <= tries && Walk(seq(tries, _ => m)[..used], out, done)
    ensures |out| <= |m| && (done ==> Lists(out, m) && |out| == |m|)
    ensures Descending(out) && forall x | x in out :: x in m
  {
    var seen := seq(tries, _ => m)[..used];
    assert seen[0] == m && forall t | t in seen :: t == m;
    WalkOfFixedTable(seen, m, out, done);
  }

  lemma FollowIsDone(m: set<Key>, limit: int, tries: nat, out: seq<Key>, used: nat)
    requires 1 <= limit <= 200 && used <= tries && Followed(seq(tries, _ => m), limit, out, used, true)
    ensures Lists(out, m) && used >= 1 && |m| <= limit * used && (used > 1 ==> limit * (used - 1) < |m|)
  {
    FixedPrefix(m, tries, out, used, true);
    var head :| head <= out && |head| == limit * (used - 1) && Owed(seq(tries, _ => m), head, used - 1);
    OwedOfFixedTable(m, tries, out, head, used - 1);
  }

  lemma FollowIsNotDone(m: set<Key>, limit: int, tries: nat, out: seq<Key>)
    requires 1 <= limit <= 200 && Followed(seq(tries, _ => m), limit, out, tries, false)
    ensures tries > 0 ==> limit * tries < |m|
  {
    if tries > 0 {
      FixedPrefix(m, tries, out, tries, false);
      OwedOfFixedTable(m, tries, out, out, tries);
    }
  }

  /** The same for a client paging with its own limit: |m| / limit requests, rounded up, and one
      for an empty table; fewer tries do not finish. */
  lemma FollowOfFixedTable(m: set<Key>, limit: int, tries: nat, out: seq<Key>, used: nat, done: bool)
    requires 1 <= limit <= 200 && used <= tries
    requires Followed(seq(tries, _ => m), limit, out, used, done)
    ensures done ==> Lists(out, m) && used >= 1 && |m| <= limit * used && (used > 1 ==> limit * (used - 1) < |m|)
    ensures done <==> tries > 0 && |m| <= limit * tries
  {
    if done {
      FollowIsDone(m, limit, tries, out, used);
      MoreTries(limit, used, tries);
    } else {
      FollowIsNotDone(m, limit, tries, out);
    }
  }

  /** The retention delete: at most `limit` rows (1000 when not positive), oldest text first. */
  method DeleteBefore(rows: set<Key>, before: string, limit: int) returns (kept: set<Key>, count: nat)
    ensures kept <= rows && count == |rows| - |kept|
    ensures forall k | k in rows && !TextLess(k.time, before) :: k in kept
    ensures forall gone, k | gone in rows - kept && k in kept :: !TextLess(k.time, gone.time)
    ensures var n := if limit <= 0 then 1000 else limit;
            count <= n && (count < n ==> forall k | k in kept :: !TextLess(k.time, before))
  {
    var n := if limit <= 0 then 1000 else limit;
    kept, count := rows, 0;
    var expired := set k | k in rows && TextLess(k.time, before);
    while count < n && expired != {}
      invariant kept <= rows && count == |rows| - |kept| && count <= n
      invariant expired == set k | k in kept && TextLess(k.time, before)
      invariant forall k | k in rows && !TextLess(k.time, before) :: k in kept
      invariant forall gone, k | gone in rows - kept && k in kept :: !TextLess(k.time, gone.time)
      decreases expired
    {
      var k := Oldest(expired);
      forall x | x in kept ensures !TextLess(x.time, k.time) {
        if x !in expired && TextLess(x.time, k.time) {
          TextLessTransitive(x.time, k.time, before);
        }
      }
      kept, expired, count := kept - {k}, expired - {k}, count + 1;
    }
    assert forall k | k in kept && TextLess(k.time, before) :: k in expired;
  }

  lemma {:induction false} OldestExists(rows: set<Key>)
    requires rows != {}
    ensures exists k | k in rows :: forall x | x in rows :: !TextLess(x.time, k.time)
  {
    var x :| x in rows;
    TextLessTotal(x.time, x.time);
    if rows != {x} {
      OldestExists(rows - {x});
      var k :| k in rows - {x} && forall y | y in rows - {x} :: !TextLess(y.time, k.time);
      if TextLess(x.time, k.time) {
        forall y | y in rows ensures !TextLess(y.time, x.time) {
          if TextLess(y.time, x.time) && y != x {
            TextLessTransitive(y.time, x.time, k.time);
          }
        }
      } else {
        assert forall y | y in rows :: !TextLess(y.time, k.time);
      }
    } else {
      assert forall y | y in rows :: !TextLess(y.time, x.time);
    }
  }

  method Oldest(rows: set<Key>) returns (k: Key)
    requires rows != {}
    ensures k in rows && forall x | x in rows :: !TextLess(x.time, k.time)
  {
    OldestExists(rows);
    k :| k in rows && forall x | x in rows :: !TextLess(x.time, k.time);
  }
}
