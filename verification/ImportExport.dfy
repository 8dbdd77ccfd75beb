/** Export and import of one account's environments with their tags.

    The account's live dictionary has one spelling per NOCASE class, so a link from an
    environment to a tag is modelled by the class of the tag. */
module ImportExport {
  import opened Prelude
  import opened Keyset
  import Ownership

  type Class = Ownership.Class

  datatype Tag = Tag(group: string, value: string)

  function ClassOf(t: Tag): Class {
    (Ownership.Fold(t.group), Ownership.Fold(t.value))
  }

  datatype Place = Place(ip: string, kind: string)

  /** The exported columns other than ip and service type. */
  datatype Fields = Fields(
    name: string, user: string, port: int, password: string, dir: string, installed: bool,
    installedAt: Option<string>, sha: string, healthPort: Option<int>, fingerprint: string)

  datatype Row = Row(fields: Fields, tags: set<Class>, note: string)

  datatype Account = Account(rows: map<Place, Row>, dict: map<Class, Tag>)

  datatype Item = Item(at: Place, fields: Fields, tags: seq<Tag>)

  datatype Document = Document(version: int, items: seq<Item>)

  datatype Why =
    | Invalid | NoPackage | NoPassword | BadPassword | Conflict | NoHealthPort | InvalidTag | DuplicateTag | TooManyTags

  datatype Error = Version | Empty | Record(index: nat, why: Why)

  /** Code outside the model: normalising and validating the form fields of a record, the
      cipher, and the text functions of Go's strings package. */
  datatype Rules = Rules(
    check: (Place, Fields) -> Option<(Place, Fields)>, decrypts: string -> bool,
    trim: string -> string, lower: string -> string)

  // ----- order -----

  datatype Sort = Sort(first: string, second: string, third: string)

  /** `ORDER BY first, second, third`. */
  predicate Less(x: Sort, y: Sort) {
    TextLess(x.first, y.first)
    || (x.first == y.first && (TextLess(x.second, y.second)
                               || (x.second == y.second && TextLess(x.third, y.third))))
  }

  lemma LessTotal(x: Sort, y: Sort)
    ensures Less(x, y) || x == y || Less(y, x)
    ensures !(Less(x, y) && Less(y, x)) && !Less(x, x)
  {
    TextLessTotal(x.first, y.first);
    TextLessTotal(x.second, y.second);
    TextLessTotal(x.third, y.third);
    TextLessTotal(x.first, x.first);
    TextLessTotal(x.second, x.second);
    TextLessTotal(x.third, x.third);
  }

  lemma LessTransitive(x: Sort, y: Sort, z: Sort)
    requires Less(x, y) && Less(y, z)
    ensures Less(x, z)
  {
    if TextLess(x.first, y.first) && TextLess(y.first, z.first) {
      TextLessTransitive(x.first, y.first, z.first);
    } else if x.first == y.first == z.first {
      if TextLess(x.second, y.second) && TextLess(y.second, z.second) {
        TextLessTransitive(x.second, y.second, z.second);
      } else if x.second == y.second == z.second && TextLess(x.third, y.third) && TextLess(y.third, z.third) {
        TextLessTransitive(x.third, y.third, z.third);
      }
    }
  }

  /** `ORDER BY service_type, name, ip`. */
  function ItemSort(x: Item): Sort {
    Sort(x.at.kind, x.fields.name, x.at.ip)
  }

  /** `ORDER BY group_name COLLATE NOCASE, value COLLATE NOCASE`. */
  function TagSort(t: Tag): Sort {
    Sort(ClassOf(t).0, ClassOf(t).1, "")
  }

  ghost predicate Ordered<T(!new)>(s: seq<T>, key: T -> Sort) {
    forall i, j | 0 <= i < j < |s| :: Less(key(s[i]), key(s[j]))
  }

  /** A set of rows has one listing. */
  lemma {:induction false} SameListing<T(!new)>(s: seq<T>, t: seq<T>, key: T -> Sort)
    requires Ordered(s, key) && Ordered(t, key) && forall x :: x in s <==> x in t
    ensures s == t
  {
    assert s != [] ==> s[0] in t;
    assert t != [] ==> t[0] in s;
    if s != [] {
      var j :| 0 <= j < |t| && t[j] == s[0];
      var i :| 0 <= i < |s| && s[i] == t[0];
      LessTotal(key(s[0]), key(t[0]));
      forall x ensures x in s[1..] <==> x in t[1..] {
        OnlyOnce(s, key, x);
        OnlyOnce(t, key, x);
      }
      SameListing(s[1..], t[1..], key);
    }
  }

  lemma OnlyOnce<T(!new)>(s: seq<T>, key: T -> Sort, x: T)
    requires Ordered(s, key) && s != []
    ensures x in s[1..] <==> x in s && x != s[0]
  {
    LessTotal(key(s[0]), key(s[0]));
    if x in s[1..] {
      var i :| 0 <= i < |s| - 1 && s[1..][i] == x;
      assert s[i + 1] == x;
    }
    if x in s && x != s[0] {
      var i :| 0 <= i < |s| && s[i] == x;
      assert s[1..][i - 1] == x;
    }
  }

  // ----- export -----

  /** The schema: a dictionary entry is filed under its class, and a link names an entry. */
  ghost predicate Sound(a: Account) {
    && (forall c | c in a.dict :: ClassOf(a.dict[c]) == c)
    && (forall p | p in a.rows :: a.rows[p].tags <= a.dict.Keys)
  }

  /** The record shows the row at its place, with its tags spelled and ordered. */
  ghost predicate Shows(a: Account, x: Item) {
    && x.at in a.rows && x.fields == a.rows[x.at].fields
    && Ordered(x.tags, TagSort)
    && (forall t | t in x.tags :: ClassOf(t) in a.rows[x.at].tags && ClassOf(t) in a.dict && a.dict[ClassOf(t)] == t)
    && (forall c | c in a.rows[x.at].tags :: c in a.dict && a.dict[c] in x.tags)
  }

  ghost predicate IsExport(a: Account, items: seq<Item>) {
    && Ordered(items, ItemSort)
    && (forall x {:trigger Shows(a, x)} | x in items :: Shows(a, x))
    && (forall p | p in a.rows :: exists x | x in items :: x.at == p)
  }

  lemma ShownOnce(a: Account, x: Item, y: Item)
    requires Sound(a) && Shows(a, x) && Shows(a, y) && x.at == y.at
    ensures x == y
  {
    forall t ensures t in x.tags <==> t in y.tags {
    }
    SameListing(x.tags, y.tags, TagSort);
  }

  /** By service type, then name, then address, as texts. */
  ghost predicate Sorted(items: seq<Item>) {
    forall i, j | 0 <= i < j < |items| ::
      var x, y := items[i], items[j];
      TextLess(x.at.kind, y.at.kind)
      || (x.at.kind == y.at.kind && (TextLess(x.fields.name, y.fields.name)
                                     || (x.fields.name == y.fields.name && TextLess(x.at.ip, y.at.ip))))
  }

  /** By group and then value, ASCII letters compared without case. */
  ghost predicate TagsSorted(tags: seq<Tag>) {
    forall i, j | 0 <= i < j < |tags| ::
      var t, u := tags[i], tags[j];
      TextLess(Ownership.Fold(t.group), Ownership.Fold(u.group))
      || (Ownership.Fold(t.group) == Ownership.Fold(u.group) && TextLess(Ownership.Fold(t.value), Ownership.Fold(u.value)))
  }

  lemma ExportIsSorted(a: Account, items: seq<Item>)
    requires IsExport(a, items)
    ensures Sorted(items) && forall x | x in items :: TagsSorted(x.tags)
  {
    forall x | x in items ensures TagsSorted(x.tags) {
      assert Shows(a, x);
      forall i, j | 0 <= i < j < |x.tags|
        ensures var t, u := x.tags[i], x.tags[j];
          TextLess(Ownership.Fold(t.group), Ownership.Fold(u.group))
          || (Ownership.Fold(t.group) == Ownership.Fold(u.group) && TextLess(Ownership.Fold(t.value), Ownership.Fold(u.value)))
      {
        assert Less(TagSort(x.tags[i]), TagSort(x.tags[j]));
        TextLessTotal("", "");
      }
    }
  }

  /** An account has one export. */
  lemma ExportIsUnique(a: Account, d: seq<Item>, e: seq<Item>)
    requires Sound(a) && IsExport(a, d) && IsExport(a, e)
    ensures d == e
  {
    forall x | x in d ensures x in e {
      assert Shows(a, x);
      var y :| y in e && y.at == x.at;
      ShownOnce(a, x, y);
    }
    forall x | x in e ensures x in d {
      assert Shows(a, x);
      var y :| y in d && y.at == x.at;
      ShownOnce(a, x, y);
    }
    SameListing(d, e, ItemSort);
  }

  // ----- import -----

  function Trimmed(rules: Rules, t: Tag): Tag {
    Tag(rules.trim(t.group), rules.trim(t.value))
  }

  predicate ValidTag(t: Tag) {
    && 1 <= |t.group| <= 32 && 1 <= |t.value| <= 32
    && (forall c | c in t.group + t.value :: c != '\0' && c != '\r' && c != '\n')
  }

  /** Duplicate tags of one record are found by Unicode lower case. */
  function TagKey(rules: Rules, t: Tag): Class {
    (rules.lower(t.group), rules.lower(t.value))
  }

  function TagProblem(rules: Rules, tags: seq<Tag>, n: nat): Option<Why>
    requires n <= |tags|
  {
    if n == 0 then None
    else if TagProblem(rules, tags, n - 1).Some? then TagProblem(rules, tags, n - 1)
    else
      var t := Trimmed(rules, tags[n - 1]);
      if !ValidTag(t) then Some(InvalidTag)
      else if exists k | 0 <= k < n - 1 :: TagKey(rules, Trimmed(rules, tags[k])) == TagKey(rules, t) then Some(DuplicateTag)
      else None
  }

  /** What is wrong with record i, given the records before it. */
  function Problem(rules: Rules, packages: set<string>, items: seq<Item>, i: nat): Option<Why>
    requires i < |items|
  {
    var x := items[i];
    var checked := rules.check(x.at, x.fields);
    if checked.None? then Some(Invalid)
    else if checked.value.0.kind !in packages then Some(NoPackage)
    else if x.fields.password == "" then Some(NoPassword)
    else if !rules.decrypts(x.fields.password) then Some(BadPassword)
    else if exists j | 0 <= j < i ::
      var earlier := rules.check(items[j].at, items[j].fields); earlier.Some? && earlier.value.0 == checked.value.0
    then Some(Conflict)
    else if x.fields.installed && x.fields.healthPort.None? then Some(NoHealthPort)
    else if TagProblem(rules, x.tags, |x.tags|).Some? then TagProblem(rules, x.tags, |x.tags|)
    else if |x.tags| > 20 then Some(TooManyTags)
    else None
  }

  predicate Accepts(rules: Rules, packages: set<string>, items: seq<Item>) {
    forall i | 0 <= i < |items| :: Problem(rules, packages, items, i).None?
  }

  /** The guard of Import. */
  predicate Accepted(rules: Rules, packages: set<string>, version: int, items: seq<Item>) {
    (version == 1 || version == 2) && items != [] && Accepts(rules, packages, items)
  }

  /** The record as it is written: the form fields normalised, the others as they are. */
  function Written(rules: Rules, x: Item): Item {
    var checked := rules.check(x.at, x.fields);
    if checked.None? then x else
    Item(checked.value.0,
         checked.value.1.(password := x.fields.password, installed := x.fields.installed,
                          installedAt := x.fields.installedAt, sha := x.fields.sha,
                          healthPort := x.fields.healthPort, fingerprint := x.fields.fingerprint),
         seq(|x.tags|, k requires 0 <= k < |x.tags| => Trimmed(rules, x.tags[k])))
  }

  function WrittenAll(rules: Rules, items: seq<Item>): seq<Item> {
    seq(|items|, i requires 0 <= i < |items| => Written(rules, items[i]))
  }

  function Classes(tags: seq<Tag>): set<Class> {
    set t | t in tags :: ClassOf(t)
  }

  /** Tags missing from the dictionary are added in order, with the spelling of the document. */
  function WithTags(dict: map<Class, Tag>, tags: seq<Tag>): map<Class, Tag> {
    if tags == [] then dict else
    var d := WithTags(dict, tags[..|tags| - 1]);
    var t := tags[|tags| - 1];
    if ClassOf(t) in d then d else d[ClassOf(t) := t]
  }

  /** Inserts the record, or overwrites the row at its place and keeps its note. */
  function Upserted(a: Account, x: Item): Account {
    Account(
      a.rows[x.at := Row(x.fields, Classes(x.tags), if x.at in a.rows then a.rows[x.at].note else "")],
      WithTags(a.dict, x.tags))
  }

  function UpsertedAll(a: Account, items: seq<Item>): Account {
    if items == [] then a else Upserted(UpsertedAll(a, items[..|items| - 1]), items[|items| - 1])
  }

  // ----- what an import does -----

  lemma {:induction false} WithTagsAdds(dict: map<Class, Tag>, tags: seq<Tag>)
    ensures var d := WithTags(dict, tags);
      && d.Keys == dict.Keys + Classes(tags)
      && (forall c | c in dict :: d[c] == dict[c])
      && (forall c | c in d && c !in dict :: d[c] in tags && ClassOf(d[c]) == c)
  {
    if tags != [] {
      var front, t := tags[..|tags| - 1], tags[|tags| - 1];
      WithTagsAdds(dict, front);
      assert tags == front + [t];
      assert Classes(tags) == Classes(front) + {ClassOf(t)};
    }
  }

  ghost predicate DistinctPlaces(items: seq<Item>) {
    forall i, j | 0 <= i < j < |items| :: items[i].at != items[j].at
  }

  function RowOf(a: Account, x: Item): Row {
    Row(x.fields, Classes(x.tags), if x.at in a.rows then a.rows[x.at].note else "")
  }

  lemma {:induction false} OtherRowsStay(a: Account, items: seq<Item>, p: Place)
    requires forall i | 0 <= i < |items| :: items[i].at != p
    ensures var rows := UpsertedAll(a, items).rows;
      (p in rows <==> p in a.rows) && (p in rows ==> rows[p] == a.rows[p])
  {
    if items != [] {
      OtherRowsStay(a, items[..|items| - 1], p);
    }
  }

  /** Every record is the row at its place. */
  lemma {:induction false} ImportedRow(a: Account, items: seq<Item>, i: nat)
    requires DistinctPlaces(items) && i < |items|
    ensures var rows := UpsertedAll(a, items).rows;
      items[i].at in rows && rows[items[i].at] == RowOf(a, items[i])
    decreases |items|
  {
    var front := items[..|items| - 1];
    if i < |front| {
      ImportedRow(a, front, i);
    } else {
      OtherRowsStay(a, front, items[i].at);
    }
  }

  predicate Spells(items: seq<Item>, t: Tag) {
    exists x | x in items :: t in x.tags
  }

  /** The dictionary only grows, by the missing classes, each spelled as in some record. */
  lemma {:induction false} ImportedTags(a: Account, items: seq<Item>)
    ensures var dict := UpsertedAll(a, items).dict;
      && (forall c | c in a.dict :: c in dict && dict[c] == a.dict[c])
      && (forall t | Spells(items, t) :: ClassOf(t) in dict)
      && (forall c | c in dict && c !in a.dict :: Spells(items, dict[c]) && ClassOf(dict[c]) == c)
  {
    if items != [] {
      var front, last := items[..|items| - 1], items[|items| - 1];
      assert items == front + [last];
      ImportedTags(a, front);
      var before, dict := UpsertedAll(a, front).dict, UpsertedAll(a, items).dict;
      WithTagsAdds(before, last.tags);
      assert last in items;
      forall t | Spells(items, t) ensures ClassOf(t) in dict {
        if t in last.tags {
          assert ClassOf(t) in Classes(last.tags);
        } else {
          var x :| x in items && t in x.tags;
          assert x in front;
        }
      }
      forall c | c in dict && c !in a.dict ensures Spells(items, dict[c]) && ClassOf(dict[c]) == c {
        if c in before {
          var x :| x in front && dict[c] in x.tags;
          assert x in items;
        }
      }
    }
  }

  /** Importing the same records again changes nothing at all. */
  lemma ImportTwice(a: Account, items: seq<Item>)
    requires DistinctPlaces(items)
    ensures UpsertedAll(UpsertedAll(a, items), items) == UpsertedAll(a, items)
  {
    var b := UpsertedAll(a, items);
    var c := UpsertedAll(b, items);
    forall p ensures (p in c.rows <==> p in b.rows) && (p in b.rows ==> c.rows[p] == b.rows[p]) {
      if i: nat :| i < |items| && items[i].at == p {
        ImportedRow(a, items, i);
        ImportedRow(b, items, i);
      } else {
        OtherRowsStay(b, items, p);
      }
    }
    assert c.rows == b.rows;
    ImportedTags(a, items);
    ImportedTags(b, items);
    assert c.dict == b.dict;
  }

  /** The export of an account, written into an account that has no environments and no tag
      NOCASE-equal to one of its tags, is that account's export: same environments, same
      tags, same order. */
  lemma RoundTrip(a: Account, d: seq<Item>, target: Account)
    requires Sound(a) && Sound(target) && IsExport(a, d)
    requires target.rows == map[] && forall t | Spells(d, t) :: ClassOf(t) !in target.dict
    ensures DistinctPlaces(d) && Sound(UpsertedAll(target, d)) && IsExport(UpsertedAll(target, d), d)
    ensures forall e | IsExport(UpsertedAll(target, d), e) :: e == d
  {
    ExportHasDistinctPlaces(a, d);
    ImportIsSound(target, d);
    var b := UpsertedAll(target, d);
    forall x | x in d ensures Shows(b, x) {
      var i: nat :| i < |d| && d[i] == x;
      ShownAfterImport(a, d, target, i);
    }
    forall p | p in b.rows ensures exists x | x in d :: x.at == p {
      if i: nat :| i < |d| && d[i].at == p {
        assert d[i] in d;
      } else {
        OtherRowsStay(target, d, p);
      }
    }
    forall e | IsExport(b, e) ensures e == d {
      ExportIsUnique(b, d, e);
    }
  }

  lemma ShownAfterImport(a: Account, d: seq<Item>, target: Account, i: nat)
    requires Sound(a) && IsExport(a, d) && DistinctPlaces(d) && i < |d|
    requires forall t | Spells(d, t) :: ClassOf(t) !in target.dict
    ensures Shows(UpsertedAll(target, d), d[i])
  {
    var b, x := UpsertedAll(target, d), d[i];
    assert x in d && Shows(a, x);
    ImportedRow(target, d, i);
    forall t | t in x.tags ensures ClassOf(t) in b.dict && b.dict[ClassOf(t)] == t {
      assert Spells(d, t);
      ImportedTags(target, d);
      SameSpelling(a, d, t, b.dict[ClassOf(t)]);
    }
  }

  lemma SameSpelling(a: Account, d: seq<Item>, t: Tag, u: Tag)
    requires IsExport(a, d) && Spells(d, t) && Spells(d, u) && ClassOf(t) == ClassOf(u)
    ensures t == u
  {
    var x :| x in d && t in x.tags;
    var y :| y in d && u in y.tags;
    assert Shows(a, x) && Shows(a, y);
  }

  lemma ExportHasDistinctPlaces(a: Account, d: seq<Item>)
    requires IsExport(a, d)
    ensures DistinctPlaces(d)
  {
    forall i, j | 0 <= i < j < |d| ensures d[i].at != d[j].at {
      assert Shows(a, d[i]) && Shows(a, d[j]);
      LessTotal(ItemSort(d[i]), ItemSort(d[j]));
      LessTotal(ItemSort(d[i]), ItemSort(d[i]));
    }
  }

  lemma ImportIsSound(a: Account, items: seq<Item>)
    requires Sound(a) && DistinctPlaces(items)
    ensures Sound(UpsertedAll(a, items))
  {
    var b := UpsertedAll(a, items);
    ImportedTags(a, items);
    forall p | p in b.rows ensures b.rows[p].tags <= b.dict.Keys {
      if i: nat :| i < |items| && items[i].at == p {
        ImportedRow(a, items, i);
        forall t | t in items[i].tags ensures ClassOf(t) in b.dict {
          assert items[i] in items && Spells(items, t);
        }
      } else {
        OtherRowsStay(a, items, p);
      }
    }
  }

  // ----- which exports can be imported -----

  /** The row is as it was checked when it was made. Its package may be gone since, and the
      master key another one. */
  ghost predicate RowKept(rules: Rules, a: Account, p: Place)
    requires p in a.rows
  {
    var f := a.rows[p].fields;
    && rules.check(p, f) == Some((p, f)) && f.password != "" && (f.installed ==> f.healthPort.Some?) && |a.rows[p].tags| <= 20
  }

  ghost predicate TagKept(rules: Rules, t: Tag) {
    Trimmed(rules, t) == t && ValidTag(t)
  }

  ghost predicate WellKept(rules: Rules, a: Account) {
    && Sound(a)
    && (forall p {:trigger RowKept(rules, a, p)} | p in a.rows :: RowKept(rules, a, p))
    && (forall c {:trigger a.dict[c]} | c in a.dict :: TagKept(rules, a.dict[c]))
  }

  /** No two tags of the row are different to the database but equal in lower case. */
  ghost predicate Differ(rules: Rules, a: Account, p: Place)
    requires p in a.rows && a.rows[p].tags <= a.dict.Keys
  {
    forall c, e | c in a.rows[p].tags && e in a.rows[p].tags && c != e ::
      TagKey(rules, a.dict[c]) != TagKey(rules, a.dict[e])
  }

  /** What the import still asks of a row that was kept so. */
  ghost predicate Importable(rules: Rules, packages: set<string>, a: Account, p: Place)
    requires p in a.rows && a.rows[p].tags <= a.dict.Keys
  {
    p.kind in packages && rules.decrypts(a.rows[p].fields.password) && Differ(rules, a, p)
  }

  lemma {:induction false} TagProblemIs(rules: Rules, tags: seq<Tag>, n: nat)
    requires n <= |tags| && forall t | t in tags :: TagKept(rules, t)
    ensures TagProblem(rules, tags, n).None? <==>
      forall j, k | 0 <= j < k < n :: TagKey(rules, tags[j]) != TagKey(rules, tags[k])
  {
    if n > 0 {
      TagProblemIs(rules, tags, n - 1);
      assert tags[n - 1] in tags;
      assert forall k | 0 <= k < n - 1 :: tags[k] in tags;
    }
  }

  lemma {:induction false} AsManyTags(tags: seq<Tag>, classes: set<Class>)
    requires Ordered(tags, TagSort) && forall t | t in tags :: ClassOf(t) in classes
    ensures |tags| <= |classes|
  {
    if tags != [] {
      forall t | t in tags[1..] ensures ClassOf(t) in classes - {ClassOf(tags[0])} {
        var i :| 0 <= i < |tags| - 1 && tags[1..][i] == t;
        LessTotal(TagSort(tags[0]), TagSort(tags[i + 1]));
        LessTotal(TagSort(tags[0]), TagSort(tags[0]));
      }
      assert ClassOf(tags[0]) in classes;
      AsManyTags(tags[1..], classes - {ClassOf(tags[0])});
    }
  }

  /** The tags of a shown row pass the import iff they differ in lower case. */
  lemma TagsOfRecord(rules: Rules, a: Account, x: Item)
    requires Sound(a) && Shows(a, x) && forall t | t in x.tags :: TagKept(rules, t)
    ensures TagProblem(rules, x.tags, |x.tags|) == if Differ(rules, a, x.at) then None else Some(DuplicateTag)
  {
    TagProblemIs(rules, x.tags, |x.tags|);
    OnlyDuplicates(rules, x.tags, |x.tags|);
    var tags := a.rows[x.at].tags;
    if Differ(rules, a, x.at) {
      forall j, k | 0 <= j < k < |x.tags| ensures TagKey(rules, x.tags[j]) != TagKey(rules, x.tags[k]) {
        assert x.tags[j] in x.tags && x.tags[k] in x.tags;
        LessTotal(TagSort(x.tags[j]), TagSort(x.tags[k]));
      }
    } else {
      var c, e :| c in tags && e in tags && c != e && TagKey(rules, a.dict[c]) == TagKey(rules, a.dict[e]);
      var j :| 0 <= j < |x.tags| && x.tags[j] == a.dict[c];
      var k :| 0 <= k < |x.tags| && x.tags[k] == a.dict[e];
      assert ClassOf(a.dict[c]) == c && ClassOf(a.dict[e]) == e && j != k;
    }
  }

  lemma RecordProblem(rules: Rules, packages: set<string>, a: Account, d: seq<Item>, i: nat)
    requires WellKept(rules, a) && IsExport(a, d) && i < |d|
    ensures d[i].at in a.rows
    ensures Problem(rules, packages, d, i) ==
      if d[i].at.kind !in packages then Some(NoPackage)
      else if !rules.decrypts(a.rows[d[i].at].fields.password) then Some(BadPassword)
      else if !Differ(rules, a, d[i].at) then Some(DuplicateTag)
      else None
  {
    var x := d[i];
    assert x in d && Shows(a, x) && RowKept(rules, a, x.at);
    ExportHasDistinctPlaces(a, d);
    forall j | 0 <= j < i ensures rules.check(d[j].at, d[j].fields) == Some((d[j].at, d[j].fields)) {
      assert d[j] in d && Shows(a, d[j]) && RowKept(rules, a, d[j].at);
    }
    AsManyTags(x.tags, a.rows[x.at].tags);
    forall t | t in x.tags ensures TagKept(rules, t) {
      assert TagKept(rules, a.dict[ClassOf(t)]);
    }
    TagsOfRecord(rules, a, x);
  }

  lemma {:induction false} OnlyDuplicates(rules: Rules, tags: seq<Tag>, n: nat)
    requires n <= |tags| && forall t | t in tags :: TagKept(rules, t)
    ensures TagProblem(rules, tags, n) in {None, Some(DuplicateTag)}
  {
    if n > 0 {
      OnlyDuplicates(rules, tags, n - 1);
      assert tags[n - 1] in tags;
    }
  }

  /** An export can be imported iff the account has an environment, and every environment's
      package is there, its password decrypts, and no two of its tags are equal in Unicode lower
      case only: the database folds ASCII letters, the import all letters. */
  lemma ExportIsAccepted(rules: Rules, packages: set<string>, a: Account, d: seq<Item>)
    requires WellKept(rules, a) && IsExport(a, d)
    ensures Accepted(rules, packages, 2, d) <==> a.rows != map[] && forall p | p in a.rows :: Importable(rules, packages, a, p)
  {
    EmptyExportIff(a, d);
    if Accepts(rules, packages, d) {
      forall p | p in a.rows ensures Importable(rules, packages, a, p) {
        var x :| x in d && x.at == p;
        var i: nat :| i < |d| && d[i] == x;
        RecordProblem(rules, packages, a, d, i);
      }
    }
    if forall p | p in a.rows :: Importable(rules, packages, a, p) {
      forall i: nat | i < |d| ensures Problem(rules, packages, d, i).None? {
        RecordProblem(rules, packages, a, d, i);
      }
    }
  }

  lemma EmptyExportIff(a: Account, d: seq<Item>)
    requires IsExport(a, d)
    ensures d == [] <==> a.rows == map[]
  {
    if d != [] {
      assert d[0] in d && Shows(a, d[0]);
    } else {
      assert a.rows.Keys == {};
    }
  }

  /** What the import writes for an exported record is the record itself. */
  lemma ExportIsWritten(rules: Rules, a: Account, d: seq<Item>)
    requires WellKept(rules, a) && IsExport(a, d)
    ensures WrittenAll(rules, d) == d
  {
    forall i: nat | i < |d| ensures Written(rules, d[i]) == d[i] {
      var x := d[i];
      assert x in d && Shows(a, x) && RowKept(rules, a, x.at);
      forall t | t in x.tags ensures Trimmed(rules, t) == t {
        assert TagKept(rules, a.dict[ClassOf(t)]);
      }
      assert Written(rules, x).tags == x.tags;
    }
  }

  /** The round trip as the service makes it: the export of a well kept account that can be
      imported is accepted, and what the import writes exports it again. */
  lemma ServiceRoundTrip(rules: Rules, packages: set<string>, a: Account, d: seq<Item>, target: Account)
    requires WellKept(rules, a) && IsExport(a, d)
    requires a.rows != map[] && forall p | p in a.rows :: Importable(rules, packages, a, p)
    requires Sound(target) && target.rows == map[] && forall t | Spells(d, t) :: ClassOf(t) !in target.dict
    ensures Accepted(rules, packages, 2, d)
    ensures IsExport(UpsertedAll(target, WrittenAll(rules, d)), d)
    ensures forall e | IsExport(UpsertedAll(target, WrittenAll(rules, d)), e) :: e == d
  {
    ExportIsAccepted(rules, packages, a, d);
    ExportIsWritten(rules, a, d);
    RoundTrip(a, d, target);
  }

  /** An account without environments exports a document the import refuses as empty. */
  lemma EmptyExportIsRefused(rules: Rules, packages: set<string>, dict: map<Class, Tag>)
    requires WellKept(rules, Account(map[], dict))
    ensures IsExport(Account(map[], dict), []) && !Accepted(rules, packages, 2, [])
  {
  }

  const ORPHAN := Item(
    Place("10.0.0.2", "worker"), Fields("two", "root", 22, "secret", "/opt/worker", false, None, "", None, ""), [])

  /** An environment that outlived its package, which a package not installed anywhere allows:
      its export is refused. */
  lemma OrphanDoesNotReturn(rules: Rules, packages: set<string>)
    requires WellKept(rules, Account(map[ORPHAN.at := Row(ORPHAN.fields, {}, "")], map[]))
    requires ORPHAN.at.kind !in packages
    ensures IsExport(Account(map[ORPHAN.at := Row(ORPHAN.fields, {}, "")], map[]), [ORPHAN])
    ensures Problem(rules, packages, [ORPHAN], 0) == Some(NoPackage)
    ensures !Accepted(rules, packages, 2, [ORPHAN])
  {
    var a := Account(map[ORPHAN.at := Row(ORPHAN.fields, {}, "")], map[]);
    assert Shows(a, ORPHAN) && [ORPHAN][0] == ORPHAN;
    RecordProblem(rules, packages, a, [ORPHAN], 0);
  }

  /** Lower case for the letters of Latin-1. */
  function LatinLower(s: string): string {
    seq(|s|, i requires 0 <= i < |s| =>
      if 'A' <= s[i] <= 'Z' || ('\U{c0}' <= s[i] <= '\U{de}' && s[i] != '\U{d7}')
      then ((s[i] as int) + 32) as char else s[i])
  }

  const CAPITAL := Tag("g", "\U{c9}")
  const SMALL := Tag("g", "\U{e9}")
  const ACCENTED := Item(
    Place("10.0.0.1", "web"), Fields("one", "root", 22, "secret", "/opt/web", false, None, "", None, ""),
    [CAPITAL, SMALL])

  /** An account with one environment tagged with the capital and the small e with acute. */
  function AccentedAccount(): Account {
    var x, y := ClassOf(CAPITAL), ClassOf(SMALL);
    Account(map[ACCENTED.at := Row(ACCENTED.fields, {x, y}, "")], map[x := CAPITAL, y := SMALL])
  }

  lemma AccentedClassesDiffer()
    ensures ClassOf(CAPITAL) != ClassOf(SMALL) && Less(TagSort(CAPITAL), TagSort(SMALL))
  {
    var x, y := ClassOf(CAPITAL), ClassOf(SMALL);
    assert x.1 == "\U{c9}" && y.1 == "\U{e9}" && x.1[0] != y.1[0];
  }

  lemma AccentedAccountShows()
    ensures Shows(AccentedAccount(), ACCENTED)
  {
    AccentedClassesDiffer();
    var tags := ACCENTED.tags;
    assert tags[0] == CAPITAL && tags[1] == SMALL;
  }

  /** Its export is refused by the import. */
  lemma AccentedTagsDoNotReturn(rules: Rules, packages: set<string>)
    requires WellKept(rules, AccentedAccount()) && "web" in packages && rules.decrypts("secret")
    requires forall s :: rules.lower(s) == LatinLower(s)
    ensures IsExport(AccentedAccount(), [ACCENTED])
    ensures Problem(rules, packages, [ACCENTED], 0) == Some(DuplicateTag)
  {
    var a := AccentedAccount();
    AccentedClassesDiffer();
    AccentedAccountShows();
    assert [ACCENTED][0] == ACCENTED;
    RecordProblem(rules, packages, a, [ACCENTED], 0);
    assert LatinLower(CAPITAL.value) == LatinLower(SMALL.value);
    assert TagKey(rules, a.dict[ClassOf(CAPITAL)]) == TagKey(rules, a.dict[ClassOf(SMALL)]);
  }

  // ----- the service -----

  ghost predicate IsFirst<T(!new)>(xs: set<T>, key: T -> Sort, m: T) {
    m in xs && forall x | x in xs && x != m :: Less(key(m), key(x))
  }

  lemma FirstOneMore<T(!new)>(xs: set<T>, key: T -> Sort, x: T, m: T) returns (n: T)
    requires x in xs && IsFirst(xs - {x}, key, m) && key(x) != key(m)
    ensures IsFirst(xs, key, n)
  {
    LessTotal(key(x), key(m));
    n := if Less(key(x), key(m)) then x else m;
    if n == x {
      forall y | y in xs && y != x ensures Less(key(x), key(y)) {
        if y != m {
          LessTransitive(key(x), key(m), key(y));
        }
      }
    }
  }

  lemma {:induction false} FirstExists<T(!new)>(xs: set<T>, key: T -> Sort) returns (m: T)
    requires xs != {} && forall x, y | x in xs && y in xs && key(x) == key(y) :: x == y
    ensures IsFirst(xs, key, m)
  {
    var x :| x in xs;
    if xs == {x} {
      m := x;
    } else {
      m := FirstExists(xs - {x}, key);
      m := FirstOneMore(xs, key, x, m);
    }
  }

  method OrderBy<T(!new, ==)>(xs: set<T>, key: T -> Sort) returns (s: seq<T>)
    requires forall x, y | x in xs && y in xs && key(x) == key(y) :: x == y
    ensures Ordered(s, key) && forall x :: x in s <==> x in xs
  {
    s := [];
    var rest := xs;
    while rest != {}
      invariant rest <= xs && Ordered(s, key) && forall x :: x in xs <==> x in s || x in rest
      invariant forall x, y | x in s && y in rest :: Less(key(x), key(y))
      decreases rest
    {
      ghost var first := FirstExists(rest, key);
      var m :| m in rest && forall x | x in rest && x != m :: Less(key(m), key(x));
      s := s + [m];
      rest := rest - {m};
    }
  }

  /** The records before n whose place has no row. */
  function NewPlaces(a: Account, items: seq<Item>, n: nat): nat
    requires n <= |items|
  {
    if n == 0 then 0 else NewPlaces(a, items, n - 1) + if items[n - 1].at in a.rows then 0 else 1
  }

  datatype Counts = Counts(created: nat, overwritten: nat, total: nat)

  lemma AcceptedPlacesAreDistinct(rules: Rules, packages: set<string>, items: seq<Item>)
    requires Accepts(rules, packages, items)
    ensures DistinctPlaces(WrittenAll(rules, items))
  {
    forall i: nat, j: nat | i < j < |items| ensures Written(rules, items[i]).at != Written(rules, items[j]).at {
      assert Problem(rules, packages, items, i).None? && Problem(rules, packages, items, j).None?;
    }
  }

  /** Two tags that lower case tells apart are not NOCASE-equal, so no link is inserted twice. */
  lemma {:induction false} AcceptedTagsAreDistinct(rules: Rules, tags: seq<Tag>, n: nat, j: nat, k: nat)
    requires forall s :: rules.lower(Ownership.Fold(s)) == rules.lower(s)
    requires n <= |tags| && TagProblem(rules, tags, n).None? && j < k < n
    ensures ClassOf(Trimmed(rules, tags[j])) != ClassOf(Trimmed(rules, tags[k]))
  {
    if k < n - 1 {
      AcceptedTagsAreDistinct(rules, tags, n - 1, j, k);
    } else {
      var t, u := Trimmed(rules, tags[j]), Trimmed(rules, tags[k]);
      assert TagKey(rules, t) != TagKey(rules, u);
      assert rules.lower(Ownership.Fold(t.group)) == rules.lower(t.group)
        && rules.lower(Ownership.Fold(u.group)) == rules.lower(u.group)
        && rules.lower(Ownership.Fold(t.value)) == rules.lower(t.value)
        && rules.lower(Ownership.Fold(u.value)) == rules.lower(u.value);
    }
  }

  ghost predicate DistinctClasses(tags: seq<Tag>) {
    forall j, k | 0 <= j < k < |tags| :: ClassOf(tags[j]) != ClassOf(tags[k])
  }

  lemma {:induction false} StopsAt(rules: Rules, tags: seq<Tag>, m: nat, n: nat)
    requires m <= n <= |tags| && TagProblem(rules, tags, m).Some?
    ensures TagProblem(rules, tags, n) == TagProblem(rules, tags, m)
  {
    if m < n {
      StopsAt(rules, tags, m, n - 1);
    }
  }

  ghost predicate FirstBad(rules: Rules, packages: set<string>, items: seq<Item>, e: Error) {
    && e.Record? && e.index < |items|
    && Problem(rules, packages, items, e.index) == Some(e.why)
    && Passed(rules, packages, items, e.index)
  }

  ghost predicate Passed(rules: Rules, packages: set<string>, items: seq<Item>, i: nat)
    requires i <= |items|
  {
    forall j: nat | j < i :: Problem(rules, packages, items, j).None?
  }

  lemma PassedChecks(rules: Rules, packages: set<string>, items: seq<Item>, i: nat)
    requires i < |items| && Passed(rules, packages, items, i)
    ensures forall j | 0 <= j < i :: rules.check(items[j].at, items[j].fields).Some?
    ensures WrittenAll(rules, items[..i + 1]) == WrittenAll(rules, items[..i]) + [Written(rules, items[i])]
  {
    forall j: nat | j < i ensures rules.check(items[j].at, items[j].fields).Some? {
      assert Problem(rules, packages, items, j).None?;
    }
  }

  lemma AcceptedRecordsLinkOnce(rules: Rules, packages: set<string>, items: seq<Item>)
    requires forall s :: rules.lower(Ownership.Fold(s)) == rules.lower(s)
    requires Accepts(rules, packages, items)
    ensures Insertable(WrittenAll(rules, items))
  {
    AcceptedPlacesAreDistinct(rules, packages, items);
    forall i: nat | i < |items| ensures DistinctClasses(Written(rules, items[i]).tags) {
      assert Problem(rules, packages, items, i).None?;
      var tags := items[i].tags;
      forall j: nat, k: nat | j < k < |tags| ensures ClassOf(Trimmed(rules, tags[j])) != ClassOf(Trimmed(rules, tags[k])) {
        AcceptedTagsAreDistinct(rules, tags, |tags|, j, k);
      }
    }
  }

  ghost predicate Insertable(records: seq<Item>) {
    DistinctPlaces(records) && forall i {:trigger DistinctClasses(records[i].tags)} | 0 <= i < |records| :: DistinctClasses(records[i].tags)
  }

  lemma UpsertOneMore(a: Account, records: seq<Item>, i: nat)
    requires i < |records| && Insertable(records)
    ensures DistinctClasses(records[i].tags)
    ensures UpsertedAll(a, records[..i + 1]) == Upserted(UpsertedAll(a, records[..i]), records[i])
    ensures records[i].at in UpsertedAll(a, records[..i]).rows <==> records[i].at in a.rows
  {
    assert records[..i + 1][..i] == records[..i];
    OtherRowsStay(a, records[..i], records[i].at);
  }

  lemma TagOneMore(dict: map<Class, Tag>, tags: seq<Tag>, k: nat)
    requires k < |tags| && DistinctClasses(tags)
    ensures WithTags(dict, tags[..k + 1]) ==
      var d := WithTags(dict, tags[..k]); if ClassOf(tags[k]) in d then d else d[ClassOf(tags[k]) := tags[k]]
    ensures Classes(tags[..k + 1]) == Classes(tags[..k]) + {ClassOf(tags[k])} && ClassOf(tags[k]) !in Classes(tags[..k])
  {
    assert tags[..k + 1] == tags[..k] + [tags[k]];
    assert tags[..k + 1][..k] == tags[..k];
    forall t | t in tags[..k] ensures ClassOf(t) != ClassOf(tags[k]) {
      var j :| 0 <= j < k && tags[j] == t;
    }
  }

  // ----- the import in terms of the document and the tables -----

  ghost predicate TagText(s: string) {
    1 <= |s| <= 32 && '\0' !in s && '\r' !in s && '\n' !in s
  }

  ghost predicate TagIsText(rules: Rules, t: Tag) {
    TagText(rules.trim(t.group)) && TagText(rules.trim(t.value))
  }

  ghost predicate SameInLowerCase(rules: Rules, t: Tag, u: Tag) {
    && rules.lower(rules.trim(t.group)) == rules.lower(rules.trim(u.group))
    && rules.lower(rules.trim(t.value)) == rules.lower(rules.trim(u.value))
  }

  /** The tag is well formed and repeats none before it. */
  ghost predicate TagFine(rules: Rules, tags: seq<Tag>, k: nat)
    requires k < |tags|
  {
    TagIsText(rules, tags[k]) && forall j | 0 <= j < k :: !SameInLowerCase(rules, tags[j], tags[k])
  }

  ghost predicate FirstFault(rules: Rules, tags: seq<Tag>, k: nat, why: Why)
    requires k < |tags|
  {
    && (forall j: nat | j < k :: TagFine(rules, tags, j)) && !TagFine(rules, tags, k)
    && why == if TagIsText(rules, tags[k]) then DuplicateTag else InvalidTag
  }

  lemma {:induction false} TagFaults(rules: Rules, tags: seq<Tag>, n: nat)
    requires n <= |tags|
    ensures TagProblem(rules, tags, n).None? <==> forall k: nat | k < n :: TagFine(rules, tags, k)
    ensures TagProblem(rules, tags, n).Some? ==>
      exists k: nat | k < n :: FirstFault(rules, tags, k, TagProblem(rules, tags, n).value)
  {
    if n > 0 {
      TagFaults(rules, tags, n - 1);
      var t := Trimmed(rules, tags[n - 1]);
      assert forall c :: c in t.group + t.value <==> c in t.group || c in t.value;
      assert ValidTag(t) <==> TagIsText(rules, tags[n - 1]);
      assert forall k: nat | k < n - 1 ::
        SameInLowerCase(rules, tags[k], tags[n - 1]) <==> TagKey(rules, Trimmed(rules, tags[k])) == TagKey(rules, t);
      if TagProblem(rules, tags, n - 1).None? && !TagFine(rules, tags, n - 1) {
        assert FirstFault(rules, tags, n - 1, TagProblem(rules, tags, n).value);
      }
    }
  }

  /** What each reason says of a record, whatever else may be wrong with it. */
  ghost predicate Faulty(rules: Rules, packages: set<string>, items: seq<Item>, i: nat, why: Why)
    requires i < |items|
  {
    var x := items[i];
    var checked := rules.check(x.at, x.fields);
    match why
    case Invalid => checked.None?
    case NoPackage => checked.Some? && checked.value.0.kind !in packages
    case NoPassword => x.fields.password == ""
    case BadPassword => !rules.decrypts(x.fields.password)
    case Conflict => checked.Some? && exists j | 0 <= j < i :: TakesPlace(rules, items[j], checked.value.0)
    case NoHealthPort => x.fields.installed && x.fields.healthPort.None?
    case InvalidTag => exists k: nat | k < |x.tags| :: FirstFault(rules, x.tags, k, InvalidTag)
    case DuplicateTag => exists k: nat | k < |x.tags| :: FirstFault(rules, x.tags, k, DuplicateTag)
    case TooManyTags => |x.tags| > 20
  }

  ghost predicate TakesPlace(rules: Rules, x: Item, p: Place) {
    var checked := rules.check(x.at, x.fields);
    checked.Some? && checked.value.0 == p
  }

  /** The order in which reasons are looked for; the two tag reasons exclude each other. */
  function Turn(why: Why): nat {
    match why
    case Invalid => 0
    case NoPackage => 1
    case NoPassword => 2
    case BadPassword => 3
    case Conflict => 4
    case NoHealthPort => 5
    case InvalidTag => 6
    case DuplicateTag => 6
    case TooManyTags => 7
  }

  ghost predicate Fine(rules: Rules, packages: set<string>, items: seq<Item>, i: nat)
    requires i < |items|
  {
    forall why: Why :: !Faulty(rules, packages, items, i, why)
  }

  /** The first reason in that order. */
  ghost predicate Reason(rules: Rules, packages: set<string>, items: seq<Item>, i: nat, why: Why)
    requires i < |items|
  {
    Faulty(rules, packages, items, i, why)
    && forall other: Why | Turn(other) < Turn(why) :: !Faulty(rules, packages, items, i, other)
  }

  lemma ProblemIsReason(rules: Rules, packages: set<string>, items: seq<Item>, i: nat)
    requires i < |items|
    ensures match Problem(rules, packages, items, i)
      case None => Fine(rules, packages, items, i)
      case Some(why) => Reason(rules, packages, items, i, why)
  {
    var tags := items[i].tags;
    TagFaults(rules, tags, |tags|);
    NoFault(rules, tags);
    if rules.check(items[i].at, items[i].fields).Some? {
      ConflictTaken(rules, items, i);
    }
  }

  lemma NoFault(rules: Rules, tags: seq<Tag>)
    ensures TagProblem(rules, tags, |tags|).None? ==>
      forall k: nat | k < |tags| :: !FirstFault(rules, tags, k, InvalidTag) && !FirstFault(rules, tags, k, DuplicateTag)
  {
    TagFaults(rules, tags, |tags|);
  }

  lemma ConflictTaken(rules: Rules, items: seq<Item>, i: nat)
    requires i < |items| && rules.check(items[i].at, items[i].fields).Some?
    ensures var p := rules.check(items[i].at, items[i].fields).value.0;
      (exists j | 0 <= j < i :: TakesPlace(rules, items[j], p)) <==>
      exists j | 0 <= j < i :: var earlier := rules.check(items[j].at, items[j].fields); earlier.Some? && earlier.value.0 == p
  {
  }

  /** The record is the row at its normalised place: its form fields normalised, the others as they
      are, its tags trimmed, and the note the account had there. */
  ghost predicate WrittenRow(rules: Rules, a: Account, b: Account, x: Item) {
    var checked := rules.check(x.at, x.fields);
    checked.Some? && var (p, f) := checked.value;
      && p in b.rows
      && var row := b.rows[p];
         && row.fields == Fields(f.name, f.user, f.port, x.fields.password, f.dir, x.fields.installed, x.fields.installedAt,
                                 x.fields.sha, x.fields.healthPort, x.fields.fingerprint)
         && row.note == (if p in a.rows then a.rows[p].note else "")
         && (forall c :: c in row.tags <==> exists t | t in x.tags :: IsClass(rules, t, c))
         && (forall t | t in x.tags :: exists c | c in b.dict :: IsClass(rules, t, c))
  }

  ghost predicate IsClass(rules: Rules, t: Tag, c: Class) {
    c == (Ownership.Fold(rules.trim(t.group)), Ownership.Fold(rules.trim(t.value)))
  }

  /** An import writes every record, leaves all other rows and all known tags as they were, and adds
      one row for each place created. */
  ghost predicate Imported(rules: Rules, a: Account, b: Account, items: seq<Item>, created: nat) {
    && (forall i {:trigger items[i]} | 0 <= i < |items| :: WrittenRow(rules, a, b, items[i]))
    && (forall p | p in b.rows && !(exists i | 0 <= i < |items| :: TakesPlace(rules, items[i], p)) ::
          p in a.rows && b.rows[p] == a.rows[p])
    && (forall p | p in a.rows :: p in b.rows) && |b.rows| == |a.rows| + created
    && (forall c | c in a.dict :: c in b.dict && b.dict[c] == a.dict[c])
    && (forall c | c in b.dict && c !in a.dict ::
          exists i, t | 0 <= i < |items| && t in items[i].tags :: b.dict[c] == Tag(rules.trim(t.group), rules.trim(t.value)))
  }

  lemma {:induction false} NewPlacesOf(a: Account, items: seq<Item>, more: seq<Item>, n: nat)
    requires n <= |items| <= |more| && items == more[..|items|]
    ensures NewPlaces(a, items, n) == NewPlaces(a, more, n)
  {
    if n > 0 {
      NewPlacesOf(a, items, more, n - 1);
    }
  }

  /** Every place without a row gets one, and no row goes away. */
  lemma {:induction false} RowsGrow(a: Account, items: seq<Item>)
    requires DistinctPlaces(items)
    ensures var b := UpsertedAll(a, items);
      |b.rows| == |a.rows| + NewPlaces(a, items, |items|) && forall p | p in a.rows :: p in b.rows
  {
    if items != [] {
      var n, front := |items| - 1, items[..|items| - 1];
      RowsGrow(a, front);
      NewPlacesOf(a, front, items, n);
      OtherRowsStay(a, front, items[n].at);
      var before, after := UpsertedAll(a, front).rows, UpsertedAll(a, items).rows;
      assert after.Keys == before.Keys + {items[n].at};
    }
  }

  lemma WrittenRowIs(rules: Rules, packages: set<string>, a: Account, items: seq<Item>, i: nat)
    requires Accepts(rules, packages, items) && i < |items|
    ensures WrittenRow(rules, a, UpsertedAll(a, WrittenAll(rules, items)), items[i])
  {
    var written := WrittenAll(rules, items);
    AcceptedPlacesAreDistinct(rules, packages, items);
    assert Problem(rules, packages, items, i).None?;
    ImportedRow(a, written, i);
    ImportedTags(a, written);
    var x, w, b := items[i], written[i], UpsertedAll(a, written);
    assert w in written;
    forall t | t in x.tags ensures Trimmed(rules, t) in w.tags && ClassOf(Trimmed(rules, t)) in b.dict {
      var k: nat :| k < |x.tags| && x.tags[k] == t;
      assert w.tags[k] == Trimmed(rules, t);
      assert Spells(written, Trimmed(rules, t));
    }
    forall c | c in b.rows[w.at].tags ensures exists t | t in x.tags :: IsClass(rules, t, c) {
      var u :| u in w.tags && ClassOf(u) == c;
      var k: nat :| k < |w.tags| && w.tags[k] == u;
      assert x.tags[k] in x.tags && IsClass(rules, x.tags[k], c);
    }
    forall t, c | t in x.tags && IsClass(rules, t, c) ensures c in b.rows[w.at].tags && c in b.dict {
      assert ClassOf(Trimmed(rules, t)) == c;
    }
    forall t | t in x.tags ensures exists c | c in b.dict :: IsClass(rules, t, c) {
      assert IsClass(rules, t, ClassOf(Trimmed(rules, t)));
    }
  }

  lemma ImportDoes(rules: Rules, packages: set<string>, a: Account, items: seq<Item>)
    requires Accepts(rules, packages, items)
    ensures var written := WrittenAll(rules, items);
      Imported(rules, a, UpsertedAll(a, written), items, NewPlaces(a, written, |written|))
  {
    var written := WrittenAll(rules, items);
    var b := UpsertedAll(a, written);
    AcceptedPlacesAreDistinct(rules, packages, items);
    RowsGrow(a, written);
    ImportedTags(a, written);
    forall i: nat | i < |items| ensures WrittenRow(rules, a, b, items[i]) {
      WrittenRowIs(rules, packages, a, items, i);
    }
    forall p | p in b.rows && !(exists i | 0 <= i < |items| :: TakesPlace(rules, items[i], p))
      ensures p in a.rows && b.rows[p] == a.rows[p]
    {
      forall i | 0 <= i < |items| ensures written[i].at != p {
        assert Problem(rules, packages, items, i).None?;
        assert !TakesPlace(rules, items[i], p);
      }
      OtherRowsStay(a, written, p);
    }
    forall c | c in b.dict && c !in a.dict
      ensures exists i, t | 0 <= i < |items| && t in items[i].tags :: b.dict[c] == Tag(rules.trim(t.group), rules.trim(t.value))
    {
      forall i: nat | i < |items| ensures rules.check(items[i].at, items[i].fields).Some? {
        assert Problem(rules, packages, items, i).None?;
      }
      SpelledInDocument(rules, items, b.dict[c]);
    }
  }

  lemma SpelledInDocument(rules: Rules, items: seq<Item>, u: Tag)
    requires Spells(WrittenAll(rules, items), u) && forall i | 0 <= i < |items| :: rules.check(items[i].at, items[i].fields).Some?
    ensures exists i, t | 0 <= i < |items| && t in items[i].tags :: u == Tag(rules.trim(t.group), rules.trim(t.value))
  {
    var w :| w in WrittenAll(rules, items) && u in w.tags;
    var i: nat :| i < |items| && Written(rules, items[i]) == w;
    var k: nat :| k < |w.tags| && w.tags[k] == u;
    assert items[i].tags[k] in items[i].tags;
  }

  lemma ImportOutcome(rules: Rules, packages: set<string>, a: Account, items: seq<Item>)
    ensures Accepts(rules, packages, items) <==> forall i: nat | i < |items| :: Fine(rules, packages, items, i)
    ensures forall e {:trigger FirstBad(rules, packages, items, e)} | FirstBad(rules, packages, items, e) ::
      Reason(rules, packages, items, e.index, e.why) && forall j: nat | j < e.index :: Fine(rules, packages, items, j)
    ensures Accepts(rules, packages, items) ==>
      var written := WrittenAll(rules, items);
      Imported(rules, a, UpsertedAll(a, written), items, NewPlaces(a, written, |written|))
  {
    forall i: nat | i < |items|
      ensures Problem(rules, packages, items, i).None? <==> Fine(rules, packages, items, i)
      ensures Problem(rules, packages, items, i).Some? ==> Reason(rules, packages, items, i, Problem(rules, packages, items, i).value)
    {
      ProblemIsReason(rules, packages, items, i);
    }
    forall e | FirstBad(rules, packages, items, e)
      ensures Reason(rules, packages, items, e.index, e.why) && forall j: nat | j < e.index :: Fine(rules, packages, items, j)
    {
      assert Passed(rules, packages, items, e.index);
    }
    if Accepts(rules, packages, items) {
      ImportDoes(rules, packages, a, items);
    }
  }

  class Service {
    const rules: Rules
    var rows: map<Place, Row>
    var dict: map<Class, Tag>

    constructor (rules: Rules)
      ensures this.rules == rules && View() == Account(map[], map[])
    {
      this.rules := rules;
      rows, dict := map[], map[];
    }

    function View(): Account
      reads this
    {
      Account(rows, dict)
    }

    method Export() returns (document: Document)
      requires Sound(View())
      ensures document.version == 2 && IsExport(View(), document.items)
      ensures Sorted(document.items) && forall x | x in document.items :: TagsSorted(x.tags)
    {
      var listed := OrderBy((set p | p in rows :: Item(p, rows[p].fields, [])), ItemSort);
      var items: seq<Item> := [];
      for i := 0 to |listed|
        invariant |items| == i
        invariant forall k | 0 <= k < i :: items[k].at == listed[k].at && items[k].fields == listed[k].fields
        invariant forall k | 0 <= k < i :: Shows(View(), items[k])
      {
        var x := listed[i];
        assert x in listed;
        var tags := OrderBy((set c | c in rows[x.at].tags :: dict[c]), TagSort);
        items := items + [Item(x.at, x.fields, tags)];
      }
      forall p | p in rows ensures exists x | x in items :: x.at == p {
        assert Item(p, rows[p].fields, []) in listed;
        var k :| 0 <= k < |listed| && listed[k] == Item(p, rows[p].fields, []);
        assert items[k] in items;
      }
      assert Ordered(items, ItemSort) by {
        forall i, j | 0 <= i < j < |items| ensures Less(ItemSort(items[i]), ItemSort(items[j])) {
          assert ItemSort(items[i]) == ItemSort(listed[i]) && ItemSort(items[j]) == ItemSort(listed[j]);
        }
      }
      ExportIsSorted(View(), items);
      document := Document(2, items);
    }

    method CheckTags(tags: seq<Tag>) returns (why: Option<Why>)
      ensures why == if TagProblem(rules, tags, |tags|).Some? then TagProblem(rules, tags, |tags|)
                     else if |tags| > 20 then Some(TooManyTags) else None
      ensures why.None? <==> |tags| <= 20 && forall k: nat | k < |tags| :: TagFine(rules, tags, k)
      ensures why.Some? && why.value != TooManyTags ==> exists k: nat | k < |tags| :: FirstFault(rules, tags, k, why.value)
    {
      TagFaults(rules, tags, |tags|);
      var seen: set<Class> := {};
      for k := 0 to |tags|
        invariant TagProblem(rules, tags, k).None?
        invariant seen == set j | 0 <= j < k :: TagKey(rules, Trimmed(rules, tags[j]))
      {
        var t := Trimmed(rules, tags[k]);
        if !ValidTag(t) {
          StopsAt(rules, tags, k + 1, |tags|);
          return Some(InvalidTag);
        }
        if TagKey(rules, t) in seen {
          StopsAt(rules, tags, k + 1, |tags|);
          return Some(DuplicateTag);
        }
        seen := seen + {TagKey(rules, t)};
      }
      why := if |tags| > 20 then Some(TooManyTags) else None;
    }

    method CheckRecord(items: seq<Item>, i: nat, packages: set<string>, seen: set<Place>)
      returns (why: Option<Why>, place: Place)
      requires i < |items|
      requires forall j | 0 <= j < i :: rules.check(items[j].at, items[j].fields).Some?
      requires seen == set j | 0 <= j < i :: Written(rules, items[j]).at
      ensures why == Problem(rules, packages, items, i)
      ensures match why case None => Fine(rules, packages, items, i) case Some(w) => Reason(rules, packages, items, i, w)
      ensures why.None? ==> place == Written(rules, items[i]).at
    {
      ProblemIsReason(rules, packages, items, i);
      var x := items[i];
      place := x.at;
      var checked := rules.check(x.at, x.fields);
      if checked.None? {
        return Some(Invalid), place;
      }
      place := checked.value.0;
      if place.kind !in packages {
        return Some(NoPackage), place;
      }
      if x.fields.password == "" {
        return Some(NoPassword), place;
      }
      if !rules.decrypts(x.fields.password) {
        return Some(BadPassword), place;
      }
      if place in seen {
        return Some(Conflict), place;
      }
      if x.fields.installed && x.fields.healthPort.None? {
        return Some(NoHealthPort), place;
      }
      why := CheckTags(x.tags);
    }

    /** The records as they will be written, or the first bad one. */
    method CheckRecords(items: seq<Item>, packages: set<string>) returns (r: Result<seq<Item>, Error>)
      ensures r.Ok? <==> Accepts(rules, packages, items)
      ensures r.Ok? ==> r.value == WrittenAll(rules, items)
      ensures r.Err? ==> FirstBad(rules, packages, items, r.error)
    {
      var records: seq<Item> := [];
      var seen: set<Place> := {};
      for i := 0 to |items|
        invariant Passed(rules, packages, items, i) && records == WrittenAll(rules, items[..i])
        invariant seen == set j | 0 <= j < i :: Written(rules, items[j]).at
      {
        PassedChecks(rules, packages, items, i);
        var why, place := CheckRecord(items, i, packages, seen);
        if why.Some? {
          return Err(Record(i, why.value));
        }
        seen := seen + {place};
        records := records + [Written(rules, items[i])];
      }
      assert items[..|items|] == items;
      r := Ok(records);
    }

    /** All or nothing: the first bad record refuses the document and leaves the account as it
        was; otherwise every record is written. */
    method Import(document: Document, packages: set<string>) returns (r: Result<Counts, Error>)
      requires forall s :: rules.lower(Ownership.Fold(s)) == rules.lower(s)
      modifies this
      ensures document.version !in {1, 2} ==> r == Err(Version)
      ensures document.version in {1, 2} && document.items == [] ==> r == Err(Empty)
      ensures r.Ok? <==> Accepted(rules, packages, document.version, document.items)
      ensures r.Err? ==> View() == old(View())
      ensures r.Err? && r.error.Record? ==> FirstBad(rules, packages, document.items, r.error)
      ensures r.Ok? ==>
        var written := WrittenAll(rules, document.items);
        && View() == UpsertedAll(old(View()), written)
        && r.value.total == |document.items| == r.value.created + r.value.overwritten
        && r.value.created == NewPlaces(old(View()), written, |written|)
      ensures r.Ok? <==> (document.version == 1 || document.version == 2) && document.items != []
                         && forall i: nat | i < |document.items| :: Fine(rules, packages, document.items, i)
      ensures r.Err? && r.error.Record? ==>
        && r.error.index < |document.items|
        && Reason(rules, packages, document.items, r.error.index, r.error.why)
        && forall j: nat | j < r.error.index :: Fine(rules, packages, document.items, j)
      ensures r.Ok? ==> Imported(rules, old(View()), View(), document.items, r.value.created)
    {
      ImportOutcome(rules, packages, View(), document.items);
      var items := document.items;
      if document.version != 1 && document.version != 2 {
        return Err(Version);
      }
      if items == [] {
        return Err(Empty);
      }
      var checked := CheckRecords(items, packages);
      if checked.Err? {
        return Err(checked.error);
      }
      AcceptedRecordsLinkOnce(rules, packages, items);
      var created, overwritten := UpsertImported(checked.value);
      r := Ok(Counts(created, overwritten, |items|));
    }

    method UpsertImported(records: seq<Item>) returns (created: nat, overwritten: nat)
      requires Insertable(records)
      modifies this
      ensures View() == UpsertedAll(old(View()), records)
      ensures created + overwritten == |records| && created == NewPlaces(old(View()), records, |records|)
    {
      created, overwritten := 0, 0;
      ghost var was := View();
      for i := 0 to |records|
        invariant View() == UpsertedAll(was, records[..i])
        invariant created + overwritten == i && created == NewPlaces(was, records, i)
      {
        UpsertOneMore(was, records, i);
        var isNew := UpsertOne(records[i]);
        if isNew {
          created := created + 1;
        } else {
          overwritten := overwritten + 1;
        }
      }
      assert records[..|records|] == records;
    }

    method UpsertOne(x: Item) returns (isNew: bool)
      requires DistinctClasses(x.tags)
      modifies this
      ensures View() == Upserted(old(View()), x) && isNew == (x.at !in old(rows))
    {
      isNew := x.at !in rows;
      var note := "";
      if !isNew {
        note := rows[x.at].note;
      }
      var links := LinkTags(x.tags);
      rows := rows[x.at := Row(x.fields, links, note)];
    }

    /** Finds or creates each tag and links it; every link inserted is a new one. */
    method LinkTags(tags: seq<Tag>) returns (links: set<Class>)
      requires DistinctClasses(tags)
      modifies this`dict
      ensures dict == WithTags(old(dict), tags) && links == Classes(tags)
    {
      links := {};
      for k := 0 to |tags|
        invariant dict == WithTags(old(dict), tags[..k]) && links == Classes(tags[..k])
      {
        var t := tags[k];
        TagOneMore(old(dict), tags, k);
        assert ClassOf(t) !in links;
        if ClassOf(t) !in dict {
          dict := dict[ClassOf(t) := t];
        }
        links := links + {ClassOf(t)};
      }
      assert tags[..|tags|] == tags;
    }
  }
}
