/** Resource ownership: the tag dictionaries, the links from environments to tags, and
    the transfer of everything one account owns to another account.

    Tables are maps from row id to row.  SQLite's NOCASE collation folds the letters A-Z
    and nothing else, so it is modelled by `Fold`.
 */
module Ownership {
  import opened Prelude

  type Id = string

  datatype User = User(enabled: bool)

  datatype Package = Package(owner: Id, serviceType: string)

  datatype Version = Version(owner: Id, serviceType: string, sha: string)

  datatype Env = Env(owner: Id, ip: string, serviceType: string)

  datatype Tag = Tag(owner: Id, group: string, value: string, deleted: bool)

  /** `inFlight` holds the owners of queued or running operations. */
  datatype Tables = Tables(
    users: map<Id, User>,
    packages: map<Id, Package>,
    versions: map<Id, Version>,
    envs: map<Id, Env>,
    tags: map<Id, Tag>,
    links: set<(Id, Id)>,
    inFlight: set<Id>)

  function FoldChar(c: char): char {
    if 'A' <= c <= 'Z' then c + 32 as char else c
  }

  function Fold(s: string): string {
    seq(|s|, i requires 0 <= i < |s| => FoldChar(s[i]))
  }

  /** Two names are equal to the database iff they differ at most in the case of ASCII letters. */
  lemma FoldedAlike(a: string, b: string)
    ensures Fold(a) == Fold(b) <==>
      |a| == |b| && forall i | 0 <= i < |a| ::
        a[i] == b[i] || ('A' <= a[i] <= 'Z' && b[i] as int == a[i] as int + 32) || ('A' <= b[i] <= 'Z' && a[i] as int == b[i] as int + 32)
  {
    forall i | 0 <= i < |a| && |a| == |b|
      ensures FoldChar(a[i]) == FoldChar(b[i]) <==>
        a[i] == b[i] || ('A' <= a[i] <= 'Z' && b[i] as int == a[i] as int + 32) || ('A' <= b[i] <= 'Z' && a[i] as int == b[i] as int + 32)
    {
    }
    if Fold(a) == Fold(b) {
      assert |Fold(a)| == |a| && |Fold(b)| == |b|;
      assert forall i | 0 <= i < |a| :: Fold(a)[i] == FoldChar(a[i]) && Fold(b)[i] == FoldChar(b[i]);
    }
  }

  type Class = (string, string)

  function ClassOf(tag: Tag): Class {
    (Fold(tag.group), Fold(tag.value))
  }

  /** The tags an environment carries. */
  function TagsOf(links: set<(Id, Id)>, env: Id): set<Id> {
    set l | l in links && l.0 == env :: l.1
  }

  function ClassesOf(tags: map<Id, Tag>, links: set<(Id, Id)>, env: Id): set<Class> {
    set t | t in TagsOf(links, env) && t in tags :: ClassOf(tags[t])
  }

  /** The live classes of one account. */
  function Dictionary(tags: map<Id, Tag>, owner: Id): set<Class> {
    set t | t in tags && tags[t].owner == owner && !tags[t].deleted :: ClassOf(tags[t])
  }

  // ----- what the schema promises -----

  ghost predicate UniquePackages(packages: map<Id, Package>) {
    forall p, q | p in packages && q in packages && packages[p] == packages[q] :: p == q
  }

  ghost predicate UniqueVersions(versions: map<Id, Version>) {
    forall v, w | v in versions && w in versions && versions[v] == versions[w] :: v == w
  }

  ghost predicate UniqueEnvs(envs: map<Id, Env>) {
    forall e, f | e in envs && f in envs && envs[e] == envs[f] :: e == f
  }

  ghost predicate UniqueTags(tags: map<Id, Tag>) {
    forall t, u {:trigger ClassOf(tags[t]), ClassOf(tags[u])} | t in tags && u in tags && !tags[t].deleted && !tags[u].deleted
                  && tags[t].owner == tags[u].owner && ClassOf(tags[t]) == ClassOf(tags[u]) :: t == u
  }

  ghost predicate VersionsHavePackages(packages: map<Id, Package>, versions: map<Id, Version>) {
    forall v | v in versions :: exists p | p in packages :: packages[p] == Package(versions[v].owner, versions[v].serviceType)
  }

  /** Every linked tag is live and belongs to the owner of the environment. */
  ghost predicate SoundLinks(envs: map<Id, Env>, tags: map<Id, Tag>, links: set<(Id, Id)>) {
    forall l | l in links ::
      l.0 in envs && l.1 in tags && !tags[l.1].deleted && tags[l.1].owner == envs[l.0].owner
  }

  ghost predicate Consistent(t: Tables) {
    && UniquePackages(t.packages) && UniqueVersions(t.versions) && UniqueEnvs(t.envs) && UniqueTags(t.tags)
    && VersionsHavePackages(t.packages, t.versions)
    && SoundLinks(t.envs, t.tags, t.links)
  }

  // ----- transfer -----

  predicate PackageConflict(packages: map<Id, Package>, source: Id, target: Id) {
    exists p, q | p in packages && q in packages ::
      packages[p].owner == source && packages[q].owner == target && packages[p].serviceType == packages[q].serviceType
  }

  predicate EnvConflict(envs: map<Id, Env>, source: Id, target: Id) {
    exists e, f | e in envs && f in envs ::
      envs[e].owner == source && envs[f].owner == target && envs[e].ip == envs[f].ip && envs[e].serviceType == envs[f].serviceType
  }

  datatype Error = SameAccount | NotFound | Conflict | Field(name: string)

  /** The checks of validateTransfer in its order. */
  function Verdict(t: Tables, source: Id, target: Id): Option<Error> {
    if source == target then Some(SameAccount)
    else if source !in t.users || target !in t.users then Some(NotFound)
    else if !t.users[target].enabled || source in t.inFlight then Some(Error.Conflict)
    else if PackageConflict(t.packages, source, target) || EnvConflict(t.envs, source, target) then Some(Error.Conflict)
    else None
  }

  function Owner(owner: Id, source: Id, target: Id): Id {
    if owner == source then target else owner
  }

  /** What a transfer that went through means. */
  ghost predicate Transferred(t: Tables, source: Id, target: Id, t': Tables) {
    RowsTransferred(t, source, target, t') && TagsTransferred(t, source, target, t')
  }

  /** Every row of the source, and no other, changes its owner. */
  ghost predicate RowsTransferred(t: Tables, source: Id, target: Id, t': Tables) {
    && t'.users == t.users && t'.inFlight == t.inFlight
    && t'.packages.Keys == t.packages.Keys && t'.versions.Keys == t.versions.Keys && t'.envs.Keys == t.envs.Keys
    && (forall p | p in t.packages :: t'.packages[p] == t.packages[p].(owner := Owner(t.packages[p].owner, source, target)))
    && (forall v | v in t.versions :: t'.versions[v] == t.versions[v].(owner := Owner(t.versions[v].owner, source, target)))
    && (forall e | e in t.envs :: t'.envs[e] == t.envs[e].(owner := Owner(t.envs[e].owner, source, target)))
  }

  ghost predicate TagsTransferred(t: Tables, source: Id, target: Id, t': Tables) {
    // dictionaries only grow, and only the target's, by classes its new environments brought
    && (forall i | i in t.tags :: i in t'.tags && t'.tags[i] == t.tags[i])
    && (forall i | i in t'.tags && i !in t.tags ::
          && t'.tags[i].owner == target && !t'.tags[i].deleted
          && ClassOf(t'.tags[i]) !in Dictionary(t.tags, target)
          && exists e | e in t.envs :: t.envs[e].owner == source && ClassOf(t'.tags[i]) in ClassesOf(t.tags, t.links, e))
    && (forall i, j | i in t'.tags && i !in t.tags && j in t'.tags && j !in t.tags
                      && ClassOf(t'.tags[i]) == ClassOf(t'.tags[j]) :: i == j)
    // links of other environments stay; moved ones keep their classes, one link for each
    && (forall l | l in t'.links :: l.0 in t.envs)
    && (forall e | e in t.envs && t.envs[e].owner != source :: TagsOf(t'.links, e) == TagsOf(t.links, e))
    && (forall e | e in t.envs && t.envs[e].owner == source ::
          && (forall i | i in TagsOf(t'.links, e) :: i in t'.tags && t'.tags[i].owner == target && !t'.tags[i].deleted)
          && ClassesOf(t'.tags, t'.links, e) == ClassesOf(t.tags, t.links, e)
          && |TagsOf(t'.links, e)| == |TagsOf(t.links, e)|)
  }

  /** A transfer the checks let through keeps every promise of the schema. */
  lemma TransferKeepsConsistent(t: Tables, source: Id, target: Id, t': Tables)
    requires Consistent(t) && Verdict(t, source, target) == None && Transferred(t, source, target, t')
    ensures Consistent(t')
  {
    TransferKeepsRows(t, source, target, t');
    TransferKeepsTags(t, source, target, t');
  }

  lemma TransferKeepsRows(t: Tables, source: Id, target: Id, t': Tables)
    requires Consistent(t) && Verdict(t, source, target) == None && Transferred(t, source, target, t')
    ensures UniquePackages(t'.packages) && UniqueVersions(t'.versions) && UniqueEnvs(t'.envs)
    ensures VersionsHavePackages(t'.packages, t'.versions)
  {
    forall v | v in t'.versions
      ensures exists p | p in t'.packages :: t'.packages[p] == Package(t'.versions[v].owner, t'.versions[v].serviceType)
    {
      var p :| p in t.packages && t.packages[p] == Package(t.versions[v].owner, t.versions[v].serviceType);
      assert t'.packages[p] == Package(t'.versions[v].owner, t'.versions[v].serviceType);
    }
  }

  lemma TransferKeepsTags(t: Tables, source: Id, target: Id, t': Tables)
    requires Consistent(t) && Transferred(t, source, target, t')
    ensures UniqueTags(t'.tags) && SoundLinks(t'.envs, t'.tags, t'.links)
  {
    forall l | l in t'.links
      ensures l.0 in t'.envs && l.1 in t'.tags && !t'.tags[l.1].deleted && t'.tags[l.1].owner == t'.envs[l.0].owner
    {
      assert l.1 in TagsOf(t'.links, l.0);
      if t.envs[l.0].owner != source {
        assert l.1 in TagsOf(t.links, l.0);
        assert l in t.links;
      }
    }
  }

  /** The classes environments of one account use. */
  function UsedClasses(t: Tables, owner: Id): set<Class> {
    set e, c | e in t.envs && t.envs[e].owner == owner && c in ClassesOf(t.tags, t.links, e) :: c
  }

  /** The target's dictionary grows by exactly the classes it lacked; no other
      dictionary changes, the source's included. */
  lemma DictionariesAfterTransfer(t: Tables, source: Id, target: Id, t': Tables, owner: Id)
    requires Consistent(t) && Verdict(t, source, target) == None && Transferred(t, source, target, t')
    ensures Dictionary(t'.tags, owner) ==
            if owner == target then Dictionary(t.tags, target) + UsedClasses(t, source) else Dictionary(t.tags, owner)
  {
    TransferKeepsTags(t, source, target, t');
    forall c | c in UsedClasses(t, source) ensures c in Dictionary(t'.tags, target) {
      var e :| e in t.envs && t.envs[e].owner == source && c in ClassesOf(t.tags, t.links, e);
      assert c in ClassesOf(t'.tags, t'.links, e);
    }
    forall c | c in Dictionary(t.tags, owner) ensures c in Dictionary(t'.tags, owner) {
    }
  }

  function OwnedBy(envs: map<Id, Env>, owner: Id): set<Id> {
    set e | e in envs && envs[e].owner == owner
  }

  function PackagesOf(packages: map<Id, Package>, owner: Id): set<Id> {
    set p | p in packages && packages[p].owner == owner
  }

  /** Counts move exactly: nothing is lost, nothing is doubled. */
  lemma TransferConservesCounts(t: Tables, source: Id, target: Id, t': Tables)
    requires source != target && Transferred(t, source, target, t')
    ensures OwnedBy(t'.envs, source) == {} && PackagesOf(t'.packages, source) == {}
    ensures |OwnedBy(t'.envs, target)| == |OwnedBy(t.envs, target)| + |OwnedBy(t.envs, source)|
    ensures |PackagesOf(t'.packages, target)| == |PackagesOf(t.packages, target)| + |PackagesOf(t.packages, source)|
  {
    EnvsMove(t.envs, t'.envs, source, target);
    PackagesMove(t.packages, t'.packages, source, target);
  }

  lemma EnvsMove(before: map<Id, Env>, after: map<Id, Env>, source: Id, target: Id)
    requires source != target && after.Keys == before.Keys
    requires forall e | e in before :: after[e].owner == Owner(before[e].owner, source, target)
    ensures OwnedBy(after, source) == {}
    ensures |OwnedBy(after, target)| == |OwnedBy(before, target)| + |OwnedBy(before, source)|
  {
    assert OwnedBy(after, target) == OwnedBy(before, target) + OwnedBy(before, source);
  }

  lemma PackagesMove(before: map<Id, Package>, after: map<Id, Package>, source: Id, target: Id)
    requires source != target && after.Keys == before.Keys
    requires forall p | p in before :: after[p].owner == Owner(before[p].owner, source, target)
    ensures PackagesOf(after, source) == {}
    ensures |PackagesOf(after, target)| == |PackagesOf(before, target)| + |PackagesOf(before, source)|
  {
    assert PackagesOf(after, target) == PackagesOf(before, target) + PackagesOf(before, source);
  }

  lemma {:induction false} InjectiveImage(s: set<Id>, f: map<Id, Id>)
    requires s <= f.Keys && forall x, y | x in s && y in s && f[x] == f[y] :: x == y
    ensures |set x | x in s :: f[x]| == |s|
  {
    if s != {} {
      var x :| x in s;
      InjectiveImage(s - {x}, f);
      assert (set y | y in s :: f[y]) == (set y | y in s - {x} :: f[y]) + {f[x]};
    }
  }

  // ----- the program's own form -----

  /** `l` after the rows in `done` have been pointed at their image. */
  function Relink(l: (Id, Id), done: seq<(Id, Id)>, image: map<Id, Id>): (Id, Id) {
    if l in done && l.1 in image then (l.0, image[l.1]) else l
  }

  /** `image` sends tags of the source to live tags of the target in the same class. */
  ghost predicate Faithful(tags0: map<Id, Tag>, tags: map<Id, Tag>, image: map<Id, Id>, target: Id) {
    forall s | s in image ::
      s in tags0 && image[s] in tags && tags[image[s]].owner == target && !tags[image[s]].deleted
      && ClassOf(tags[image[s]]) == ClassOf(tags0[s])
  }

  function Relinked(links: set<(Id, Id)>, done: seq<(Id, Id)>, image: map<Id, Id>): set<(Id, Id)> {
    set l | l in links :: Relink(l, done, image)
  }

  lemma RelinkOneMore(links: set<(Id, Id)>, rows: seq<(Id, Id)>, i: nat, image: map<Id, Id>, id: Id)
    requires i < |rows| && rows[i] in links && rows[i] !in rows[..i]
    requires forall l | l in rows[..i] :: l.1 in image
    requires rows[i].1 in image ==> image[rows[i].1] == id
    requires forall s | s in image :: image[s] != rows[i].1
    ensures Relinked(links, rows[..i + 1], image[rows[i].1 := id])
         == Relinked(links, rows[..i], image) - {rows[i]} + {(rows[i].0, id)}
  {
    var (env, tag) := rows[i];
    var image' := image[tag := id];
    assert rows[..i + 1] == rows[..i] + [rows[i]];
    forall l | l in links && l != rows[i]
      ensures Relink(l, rows[..i + 1], image') == Relink(l, rows[..i], image) != rows[i]
    {
    }
    assert Relink(rows[i], rows[..i], image) == rows[i];
    assert Relink(rows[i], rows[..i + 1], image') == (env, id);
    var before, after := Relinked(links, rows[..i], image), Relinked(links, rows[..i + 1], image');
    forall x | x in after ensures x in before - {rows[i]} + {(env, id)} {
      var l :| l in links && x == Relink(l, rows[..i + 1], image');
    }
    forall x | x in before - {rows[i]} ensures x in after {
      var l :| l in links && x == Relink(l, rows[..i], image);
      assert x == Relink(l, rows[..i + 1], image');
    }
  }

  /** Tags added so far. */
  ghost predicate Grown(tags0: map<Id, Tag>, tags: map<Id, Tag>, target: Id, wanted: set<Class>) {
    && (forall i | i in tags0 :: i in tags && tags[i] == tags0[i])
    && (forall i | i in tags && i !in tags0 ::
          tags[i].owner == target && !tags[i].deleted && ClassOf(tags[i]) in wanted && ClassOf(tags[i]) !in Dictionary(tags0, target))
  }

  /** What looking up or adding the target's tag for one link keeps. */
  lemma FaithfulOneMore(tags0: map<Id, Tag>, tags: map<Id, Tag>, tags': map<Id, Tag>, target: Id,
                        image: map<Id, Id>, tag: Id, id: Id)
    requires Faithful(tags0, tags, image, target) && UniqueTags(tags') && tag in tags0
    requires id in tags' && !tags'[id].deleted && tags'[id].owner == target && ClassOf(tags'[id]) == ClassOf(tags0[tag])
    requires forall i | i in tags :: i in tags' && tags'[i] == tags[i]
    ensures Faithful(tags0, tags', image[tag := id], target)
    ensures tag in image ==> image[tag] == id
  {
    forall s | s in image
      ensures image[s] in tags' && tags'[image[s]] == tags[image[s]] && ClassOf(tags'[image[s]]) == ClassOf(tags0[s])
    {
    }
  }

  lemma GrownOneMore(tags0: map<Id, Tag>, tags: map<Id, Tag>, target: Id, wanted: set<Class>, added: Tag, newId: Id)
    requires Grown(tags0, tags, target, wanted) && newId !in tags
    requires added.owner == target && !added.deleted && ClassOf(added) in wanted
    requires ClassOf(added) !in Dictionary(tags, target)
    ensures Grown(tags0, tags[newId := added], target, wanted)
  {
    forall c | c in Dictionary(tags0, target) ensures c in Dictionary(tags, target) {
    }
  }

  lemma TagOneMore(tags0: map<Id, Tag>, tags: map<Id, Tag>, tags': map<Id, Tag>, target: Id, wanted: set<Class>,
                   image: map<Id, Id>, tag: Id, id: Id, newId: Id)
    requires Faithful(tags0, tags, image, target) && Grown(tags0, tags, target, wanted) && UniqueTags(tags')
    requires tag in tags0 && tags0[tag].owner != target && ClassOf(tags0[tag]) in wanted && newId !in tags
    requires id in tags' && !tags'[id].deleted && tags'[id].owner == target && ClassOf(tags'[id]) == ClassOf(tags0[tag])
    requires tags' == tags ||
             (ClassOf(tags0[tag]) !in Dictionary(tags, target)
              && tags' == tags[newId := Tag(target, tags0[tag].group, tags0[tag].value, false)])
    ensures Faithful(tags0, tags', image[tag := id], target) && Grown(tags0, tags', target, wanted)
    ensures tag in image ==> image[tag] == id
    ensures forall s | s in image :: image[s] != tag
  {
    FaithfulOneMore(tags0, tags, tags', target, image, tag, id);
    if tags' != tags {
      GrownOneMore(tags0, tags, target, wanted, Tag(target, tags0[tag].group, tags0[tag].value, false), newId);
    }
  }

  /** The link rows of the source: tags of other accounts, each row once. */
  ghost predicate Movable(rows: seq<(Id, Id)>, tags: map<Id, Tag>, links: set<(Id, Id)>, target: Id) {
    && (forall l | l in rows :: l in links && l.1 in tags && tags[l.1].owner != target)
    && (forall k, m | 0 <= k < m < |rows| :: rows[k] != rows[m])
  }

  function ClassesIn(rows: seq<(Id, Id)>, tags: map<Id, Tag>): set<Class> {
    set l | l in rows && l.1 in tags :: ClassOf(tags[l.1])
  }

  /** The state of the relabelling loop after `i` rows. */
  ghost predicate Relabelled(tags0: map<Id, Tag>, links0: set<(Id, Id)>, rows: seq<(Id, Id)>, i: nat, target: Id,
                             tags: map<Id, Tag>, links: set<(Id, Id)>, image: map<Id, Id>)
    requires i <= |rows|
  {
    && UniqueTags(tags) && Faithful(tags0, tags, image, target) && Grown(tags0, tags, target, ClassesIn(rows, tags0))
    && (forall l | l in rows[..i] :: l.1 in image)
    && links == Relinked(links0, rows[..i], image)
  }

  lemma RelabelOneMore(tags0: map<Id, Tag>, links0: set<(Id, Id)>, rows: seq<(Id, Id)>, i: nat, target: Id,
                       tags: map<Id, Tag>, links: set<(Id, Id)>, image: map<Id, Id>, tags': map<Id, Tag>, id: Id, newId: Id)
    requires i < |rows| && Movable(rows, tags0, links0, target)
    requires Relabelled(tags0, links0, rows, i, target, tags, links, image) && UniqueTags(tags') && newId !in tags
    requires id in tags' && !tags'[id].deleted && tags'[id].owner == target
    requires rows[i].1 in tags0 && ClassOf(tags'[id]) == ClassOf(tags0[rows[i].1])
    requires tags' == tags ||
             (ClassOf(tags0[rows[i].1]) !in Dictionary(tags, target)
              && tags' == tags[newId := Tag(target, tags0[rows[i].1].group, tags0[rows[i].1].value, false)])
    ensures Relabelled(tags0, links0, rows, i + 1, target, tags', links - {rows[i]} + {(rows[i].0, id)}, image[rows[i].1 := id])
  {
    assert rows[i] in rows;
    assert ClassOf(tags0[rows[i].1]) in ClassesIn(rows, tags0);
    TagOneMore(tags0, tags, tags', target, ClassesIn(rows, tags0), image, rows[i].1, id, newId);
    RelinkOneMore(links0, rows, i, image, id);
    forall l | l in rows[..i + 1] ensures l.1 in image[rows[i].1 := id] {
      assert l == rows[i] || l in rows[..i];
    }
  }

  ghost predicate LinkRowsOf(rows: seq<(Id, Id)>, envs: map<Id, Env>, links: set<(Id, Id)>, owner: Id) {
    forall l :: l in rows <==> l in links && l.0 in envs && envs[l.0].owner == owner
  }

  /** Links of a moved environment after the loop: one image for each former tag. */
  lemma MovedLinks(t: Tables, source: Id, rows: seq<(Id, Id)>, image: map<Id, Id>, e: Id)
    requires LinkRowsOf(rows, t.envs, t.links, source) && forall l | l in rows :: l.1 in image
    requires e in t.envs && t.envs[e].owner == source
    ensures TagsOf(t.links, e) <= image.Keys
    ensures TagsOf(Relinked(t.links, rows, image), e) == set s | s in TagsOf(t.links, e) :: image[s]
  {
    var after := Relinked(t.links, rows, image);
    forall s | s in TagsOf(t.links, e) ensures s in image && image[s] in TagsOf(after, e) {
      assert (e, s) in t.links && (e, s) in rows;
      assert Relink((e, s), rows, image) == (e, image[s]);
      assert (e, image[s]) in after;
    }
    forall x | x in TagsOf(after, e) ensures exists s | s in TagsOf(t.links, e) :: image[s] == x {
      var l :| l in t.links && Relink(l, rows, image) == (e, x);
      assert l in rows && l.1 in TagsOf(t.links, e);
    }
  }

  lemma KeptLinks(t: Tables, source: Id, rows: seq<(Id, Id)>, image: map<Id, Id>, e: Id)
    requires LinkRowsOf(rows, t.envs, t.links, source)
    requires e in t.envs && t.envs[e].owner != source
    ensures TagsOf(Relinked(t.links, rows, image), e) == TagsOf(t.links, e)
  {
    var after := Relinked(t.links, rows, image);
    forall s | s in TagsOf(t.links, e) ensures s in TagsOf(after, e) {
      assert Relink((e, s), rows, image) == (e, s);
      assert (e, s) in after;
    }
    forall x | x in TagsOf(after, e) ensures x in TagsOf(t.links, e) {
      var l :| l in t.links && Relink(l, rows, image) == (e, x);
    }
  }

  lemma MovedClasses(t: Tables, source: Id, target: Id, rows: seq<(Id, Id)>, tags': map<Id, Tag>, image: map<Id, Id>, e: Id)
    requires UniqueTags(t.tags) && SoundLinks(t.envs, t.tags, t.links)
    requires LinkRowsOf(rows, t.envs, t.links, source) && (forall l | l in rows :: l.1 in image)
    requires Faithful(t.tags, tags', image, target)
    requires e in t.envs && t.envs[e].owner == source
    ensures var links' := Relinked(t.links, rows, image);
            && (forall i | i in TagsOf(links', e) :: i in tags' && tags'[i].owner == target && !tags'[i].deleted)
            && ClassesOf(tags', links', e) == ClassesOf(t.tags, t.links, e)
            && |TagsOf(links', e)| == |TagsOf(t.links, e)|
  {
    MovedLinks(t, source, rows, image, e);
    var mine := TagsOf(t.links, e);
    forall s | s in mine ensures s in t.tags && !t.tags[s].deleted && t.tags[s].owner == source {
      assert (e, s) in t.links;
    }
    forall x, y | x in mine && y in mine && image[x] == image[y] ensures x == y {
      assert ClassOf(t.tags[x]) == ClassOf(t.tags[y]);
    }
    InjectiveImage(mine, image);
    var links' := Relinked(t.links, rows, image);
    forall c | c in ClassesOf(t.tags, t.links, e) ensures c in ClassesOf(tags', links', e) {
      var s :| s in mine && s in t.tags && ClassOf(t.tags[s]) == c;
      assert image[s] in TagsOf(links', e) && ClassOf(tags'[image[s]]) == c;
    }
    forall c | c in ClassesOf(tags', links', e) ensures c in ClassesOf(t.tags, t.links, e) {
      var x :| x in TagsOf(links', e) && x in tags' && ClassOf(tags'[x]) == c;
      var s :| s in mine && image[s] == x;
      assert ClassOf(t.tags[s]) == c;
    }
  }

  lemma NewTagsAreUsed(t: Tables, source: Id, target: Id, rows: seq<(Id, Id)>, tags': map<Id, Tag>)
    requires LinkRowsOf(rows, t.envs, t.links, source) && UniqueTags(tags')
    requires Grown(t.tags, tags', target, ClassesIn(rows, t.tags))
    ensures forall i | i in tags' && i !in t.tags ::
              exists e | e in t.envs :: t.envs[e].owner == source && ClassOf(tags'[i]) in ClassesOf(t.tags, t.links, e)
    ensures forall i, j | i in tags' && i !in t.tags && j in tags' && j !in t.tags && ClassOf(tags'[i]) == ClassOf(tags'[j]) :: i == j
  {
    forall i | i in tags' && i !in t.tags
      ensures exists e | e in t.envs :: t.envs[e].owner == source && ClassOf(tags'[i]) in ClassesOf(t.tags, t.links, e)
    {
      var l :| l in rows && l.1 in t.tags && ClassOf(t.tags[l.1]) == ClassOf(tags'[i]);
      assert l.1 in TagsOf(t.links, l.0);
      assert ClassOf(t.tags[l.1]) in ClassesOf(t.tags, t.links, l.0);
    }
  }

  lemma SourceRowsAreMovable(t: Tables, source: Id, target: Id, rows: seq<(Id, Id)>)
    requires Consistent(t) && source != target && LinkRowsOf(rows, t.envs, t.links, source)
    requires forall k, m | 0 <= k < m < |rows| :: rows[k] != rows[m]
    ensures Movable(rows, t.tags, t.links, target)
  {
    forall l | l in rows ensures l in t.links && l.1 in t.tags && t.tags[l.1].owner != target {
    }
  }

  lemma LoopTransfers(t: Tables, source: Id, target: Id, rows: seq<(Id, Id)>, image: map<Id, Id>, t': Tables)
    requires Consistent(t) && LinkRowsOf(rows, t.envs, t.links, source)
    requires Relabelled(t.tags, t.links, rows, |rows|, target, t'.tags, t'.links, image)
    ensures TagsTransferred(t, source, target, t')
  {
    assert rows[..|rows|] == rows;
    NewTagsAreUsed(t, source, target, rows, t'.tags);
    forall l | l in t'.links ensures l.0 in t.envs {
      var k :| k in t.links && Relink(k, rows, image) == l;
    }
    forall e | e in t.envs && t.envs[e].owner != source ensures TagsOf(t'.links, e) == TagsOf(t.links, e) {
      KeptLinks(t, source, rows, image, e);
    }
    forall e | e in t.envs && t.envs[e].owner == source
      ensures forall i | i in TagsOf(t'.links, e) :: i in t'.tags && t'.tags[i].owner == target && !t'.tags[i].deleted
      ensures ClassesOf(t'.tags, t'.links, e) == ClassesOf(t.tags, t.links, e)
      ensures |TagsOf(t'.links, e)| == |TagsOf(t.links, e)|
    {
      MovedClasses(t, source, target, rows, t'.tags, image, e);
    }
  }

  lemma TransferCompletes(t: Tables, source: Id, target: Id, rows: seq<(Id, Id)>, image: map<Id, Id>, t': Tables)
    requires Consistent(t) && Verdict(t, source, target) == None && LinkRowsOf(rows, t.envs, t.links, source)
    requires RowsTransferred(t, source, target, t')
    requires Relabelled(t.tags, t.links, rows, |rows|, target, t'.tags, t'.links, image)
    ensures Transferred(t, source, target, t') && Consistent(t')
  {
    LoopTransfers(t, source, target, rows, image, t');
    TransferKeepsConsistent(t, source, target, t');
  }

  /** What the tables must say for a transfer: two accounts, the target's enabled, the source's
      without an operation in flight, and nothing both of them own under one unique index. */
  ghost predicate Transferable(t: Tables, source: Id, target: Id) {
    && source != target && source in t.users && target in t.users
    && t.users[target].enabled && source !in t.inFlight
    && (forall p, q | p in t.packages && q in t.packages && t.packages[p].owner == source && t.packages[q].owner == target ::
          t.packages[p].serviceType != t.packages[q].serviceType)
    && (forall e, f | e in t.envs && f in t.envs && t.envs[e].owner == source && t.envs[f].owner == target ::
          t.envs[e].ip != t.envs[f].ip || t.envs[e].serviceType != t.envs[f].serviceType)
  }

  lemma VerdictIff(t: Tables, source: Id, target: Id)
    ensures Verdict(t, source, target) == None <==> Transferable(t, source, target)
  {
  }

  /** Nothing that an accepted transfer moves goes to a disabled account or was owned by one
      with an operation in flight. */
  lemma NothingMovesAmiss(t: Tables, source: Id, target: Id, t': Tables)
    requires Verdict(t, source, target) == None && Transferred(t, source, target, t')
    ensures forall e | e in t.envs && t'.envs[e].owner != t.envs[e].owner ::
      t'.envs[e].owner in t'.users && t'.users[t'.envs[e].owner].enabled && t.envs[e].owner !in t.inFlight
    ensures forall p | p in t.packages && t'.packages[p].owner != t.packages[p].owner ::
      t'.packages[p].owner in t'.users && t'.users[t'.packages[p].owner].enabled && t.packages[p].owner !in t.inFlight
  {
  }

  class Store {
    var users: map<Id, User>
    var packages: map<Id, Package>
    var versions: map<Id, Version>
    var envs: map<Id, Env>
    var tags: map<Id, Tag>
    var links: set<(Id, Id)>
    var inFlight: set<Id>

    ghost function View(): Tables
      reads this
    {
      Tables(users, packages, versions, envs, tags, links, inFlight)
    }

    /** SELECT id FROM resource_tags WHERE owner_id = ? AND group_name = ? COLLATE NOCASE ... */
    method FindTag(owner: Id, tag: Tag) returns (found: Option<Id>)
      ensures match found
              case Some(i) => i in tags && !tags[i].deleted && tags[i].owner == owner && ClassOf(tags[i]) == ClassOf(tag)
              case None => ClassOf(tag) !in Dictionary(tags, owner)
    {
      var hits := set i | i in tags && !tags[i].deleted && tags[i].owner == owner && ClassOf(tags[i]) == ClassOf(tag);
      if hits == {} {
        assert forall i | i in tags && tags[i].owner == owner && !tags[i].deleted && ClassOf(tags[i]) == ClassOf(tag) :: i in hits;
        return None;
      }
      var i :| i in hits;
      return Some(i);
    }

    /** The link rows of one account's environments, in whatever order they come. */
    method LinkRows(owner: Id) returns (rows: seq<(Id, Id)>)
      ensures forall k, m | 0 <= k < m < |rows| :: rows[k] != rows[m]
      ensures LinkRowsOf(rows, envs, links, owner)
    {
      rows := [];
      var rest := set l | l in links && l.0 in envs && envs[l.0].owner == owner;
      while rest != {}
        invariant forall k, m | 0 <= k < m < |rows| :: rows[k] != rows[m]
        invariant forall l | l in rows :: l !in rest
        invariant forall l :: l in rows || l in rest <==> l in links && l.0 in envs && envs[l.0].owner == owner
        decreases rest
      {
        var l :| l in rest;
        rows := rows + [l];
        rest := rest - {l};
      }
    }

    /** One round of the loop in TransferResources: the tag a link is to point at. */
    method TargetTag(target: Id, tag: Tag, newId: Id) returns (id: Id)
      requires newId !in tags && UniqueTags(tags)
      modifies this`tags
      ensures UniqueTags(tags)
      ensures id in tags && !tags[id].deleted && tags[id].owner == target && ClassOf(tags[id]) == ClassOf(tag)
      ensures tags == old(tags) ||
              (ClassOf(tag) !in Dictionary(old(tags), target) && tags == old(tags)[newId := Tag(target, tag.group, tag.value, false)])
    {
      var found := FindTag(target, tag);
      match found {
        case Some(i) => id := i;
        case None =>
          id := newId;
          tags := tags[newId := Tag(target, tag.group, tag.value, false)];
      }
    }

    method ValidateTransfer(source: Id, target: Id) returns (refusal: Option<Error>)
      ensures refusal == Verdict(View(), source, target)
      ensures refusal.None? <==> Transferable(View(), source, target)
      ensures refusal == Some(SameAccount) <==> source == target
      ensures refusal == Some(NotFound) <==> source != target && (source !in users || target !in users)
      ensures refusal.Some? ==> refusal.value in {SameAccount, NotFound, Error.Conflict}
    {
      VerdictIff(View(), source, target);
      if source == target {
        return Some(SameAccount);
      }
      if source !in users || target !in users {
        return Some(NotFound);
      }
      if !users[target].enabled || source in inFlight {
        return Some(Error.Conflict);
      }
      if PackageConflict(packages, source, target) || EnvConflict(envs, source, target) {
        return Some(Error.Conflict);
      }
      return None;
    }

    /** The loop of TransferResources over the link rows of the moved environments. */
    method Relabel(rows: seq<(Id, Id)>, target: Id, newId: nat -> Id) returns (ghost image: map<Id, Id>)
      requires UniqueTags(tags) && Movable(rows, tags, links, target)
      requires forall n: nat :: newId(n) !in tags
      requires forall n: nat, m: nat :: newId(n) == newId(m) ==> n == m
      modifies this`tags, this`links
      ensures Relabelled(old(tags), old(links), rows, |rows|, target, tags, links, image)
    {
      image := map[];
      for i := 0 to |rows|
        invariant Relabelled(old(tags), old(links), rows, i, target, tags, links, image)
        invariant forall n: nat | i <= n :: newId(n) !in tags
      {
        var (env, tag) := rows[i];
        assert rows[i] in rows;
        ghost var before, beforeLinks := tags, links;
        var id := TargetTag(target, tags[tag], newId(i));
        links := links - {(env, tag)} + {(env, id)};
        RelabelOneMore(old(tags), old(links), rows, i, target, before, beforeLinks, image, tags, id, newId(i));
        image := image[tag := id];
      }
    }

    /** The three UPDATE statements and their row counts. */
    method UpdateOwners(source: Id, target: Id) returns (counts: (nat, nat))
      modifies this`packages, this`versions, this`envs
      ensures RowsTransferred(old(View()), source, target, View())
      ensures counts == (|PackagesOf(old(packages), source)|, |OwnedBy(old(envs), source)|)
    {
      counts := (|PackagesOf(packages, source)|, |OwnedBy(envs, source)|);
      packages := map p | p in packages :: packages[p].(owner := Owner(packages[p].owner, source, target));
      versions := map v | v in versions :: versions[v].(owner := Owner(versions[v].owner, source, target));
      envs := map e | e in envs :: envs[e].(owner := Owner(envs[e].owner, source, target));
    }

    method TransferResources(source: Id, target: Id, newId: nat -> Id) returns (r: Result<(nat, nat), Error>)
      requires Consistent(View())
      requires forall n: nat :: newId(n) !in tags
      requires forall n: nat, m: nat :: newId(n) == newId(m) ==> n == m
      modifies this`packages, this`versions, this`envs, this`tags, this`links
      ensures r.Ok? <==> Transferable(old(View()), source, target)
      ensures r == Err(SameAccount) <==> source == target
      ensures r == Err(NotFound) <==> source != target && (source !in users || target !in users)
      ensures r.Err? ==> r.error in {SameAccount, NotFound, Error.Conflict}
      ensures r.Err? ==> View() == old(View()) && Some(r.error) == Verdict(View(), source, target)
      ensures r.Ok? ==> Transferred(old(View()), source, target, View()) && Consistent(View())
      ensures r.Ok? ==> r.value == (|PackagesOf(old(packages), source)|, |OwnedBy(old(envs), source)|)
    {
      VerdictIff(View(), source, target);
      var refusal := ValidateTransfer(source, target);
      if refusal.Some? {
        return Err(refusal.value);
      }
      var rows := LinkRows(source);
      SourceRowsAreMovable(View(), source, target, rows);
      var counts := UpdateOwners(source, target);
      ghost var image := Relabel(rows, target, newId);
      TransferCompletes(old(View()), source, target, rows, image, View());
      return Ok(counts);
    }

    // ----- the tag dictionary -----

    method CreateResourceTag(owner: Id, group: string, value: string, newId: Id) returns (r: Result<Id, Error>)
      requires Consistent(View()) && newId !in tags
      modifies this`tags
      ensures Consistent(View())
      ensures r == if ClassOf(Tag(owner, group, value, false)) in Dictionary(old(tags), owner)
                   then Err(Error.Conflict) else Ok(newId)
      ensures tags == if r.Ok? then old(tags)[newId := Tag(owner, group, value, false)] else old(tags)
    {
      var row := Tag(owner, group, value, false);
      var found := FindTag(owner, row);
      if found.Some? {
        return Err(Error.Conflict);
      }
      tags := tags[newId := row];
      return Ok(newId);
    }

    /** Renaming; the unique index compares with every other live tag of the owner. */
    method UpdateResourceTag(id: Id, group: string, value: string) returns (r: Result<Id, Error>)
      requires Consistent(View())
      modifies this`tags
      ensures Consistent(View())
      ensures r == if id !in old(tags) || old(tags)[id].deleted then Err(NotFound)
                   else if ClassOf(old(tags)[id].(group := group, value := value)) in Dictionary(old(tags) - {id}, old(tags)[id].owner)
                   then Err(Error.Conflict) else Ok(id)
      ensures tags == if r.Ok? then old(tags)[id := old(tags)[id].(group := group, value := value)] else old(tags)
    {
      if id !in tags || tags[id].deleted {
        return Err(NotFound);
      }
      var row := tags[id].(group := group, value := value);
      var clashes := set i | i in tags && i != id && !tags[i].deleted && tags[i].owner == row.owner && ClassOf(tags[i]) == ClassOf(row);
      if clashes != {} {
        var i :| i in clashes;
        assert i in tags - {id};
        return Err(Error.Conflict);
      }
      assert forall i | i in tags && i != id && !tags[i].deleted && tags[i].owner == row.owner && ClassOf(tags[i]) == ClassOf(row) :: i in clashes;
      tags := tags[id := row];
      return Ok(id);
    }

    /** Soft deletion: the row stays for history, no environment keeps the tag. */
    method DeleteResourceTag(id: Id) returns (r: Result<Id, Error>)
      requires Consistent(View())
      modifies this`tags, this`links
      ensures Consistent(View())
      ensures r == if id !in old(tags) || old(tags)[id].deleted then Err(NotFound) else Ok(id)
      ensures r.Err? ==> View() == old(View())
      ensures r.Ok? ==> tags == old(tags)[id := old(tags)[id].(deleted := true)]
                        && forall e :: TagsOf(links, e) == TagsOf(old(links), e) - {id}
    {
      if id !in tags || tags[id].deleted {
        return Err(NotFound);
      }
      links := set l | l in links && l.1 != id;
      tags := tags[id := tags[id].(deleted := true)];
      forall e ensures TagsOf(links, e) == TagsOf(old(links), e) - {id} {
        forall t | t in TagsOf(old(links), e) && t != id ensures t in TagsOf(links, e) {
          assert (e, t) in links;
        }
      }
      return Ok(id);
    }

    /** replaceEnvironmentTagsTx, with the ownership lookup of its caller. */
    method ReplaceEnvironmentTags(env: Id, ids: seq<Id>) returns (r: Result<Id, Error>)
      requires Consistent(View())
      modifies this`links
      ensures Consistent(View())
      ensures r.Ok? <==> env in envs && |ids| <= 20 && Distinct(ids)
                         && forall i | i in ids :: i in tags && !tags[i].deleted && tags[i].owner == envs[env].owner
      ensures r.Err? ==> links == old(links)
      ensures r.Ok? ==> (forall i :: i in TagsOf(links, env) <==> i in ids)
                        && forall e | e != env :: TagsOf(links, e) == TagsOf(old(links), e)
    {
      if env !in envs {
        return Err(NotFound);
      }
      if |ids| > 20 {
        return Err(Field("tag_ids"));
      }
      var seen: set<Id> := {};
      for k := 0 to |ids|
        invariant seen == set i | i in ids[..k]
        invariant Distinct(ids[..k])
        invariant forall i | i in ids[..k] :: i in tags && !tags[i].deleted && tags[i].owner == envs[env].owner
      {
        assert ids[k] in ids;
        if ids[k] in seen {
          assert !Distinct(ids) by {
            var m :| 0 <= m < k && ids[..k][m] == ids[k];
            assert ids[m] == ids[k];
          }
          return Err(Field("tag_ids"));
        }
        if ids[k] !in tags || tags[ids[k]].deleted || tags[ids[k]].owner != envs[env].owner {
          return Err(Field("tag_ids"));
        }
        seen := seen + {ids[k]};
        assert ids[..k + 1] == ids[..k] + [ids[k]];
      }
      assert ids[..|ids|] == ids;
      links := set l | l in links && l.0 != env;
      for k := 0 to |ids|
        invariant links == (set l | l in old(links) && l.0 != env) + (set m | 0 <= m < k :: (env, ids[m]))
      {
        links := links + {(env, ids[k])};
      }
      LinksReplaced(old(links), links, env, ids);
      return Ok(env);
    }
  }

  ghost predicate Distinct(ids: seq<Id>) {
    forall k, m | 0 <= k < m < |ids| :: ids[k] != ids[m]
  }

  lemma LinksReplaced(before: set<(Id, Id)>, after: set<(Id, Id)>, env: Id, ids: seq<Id>)
    requires after == (set l | l in before && l.0 != env) + (set m | 0 <= m < |ids| :: (env, ids[m]))
    ensures forall i :: i in TagsOf(after, env) <==> i in ids
    ensures forall e | e != env :: TagsOf(after, e) == TagsOf(before, e)
  {
    forall i | i in ids ensures i in TagsOf(after, env) {
      var m :| 0 <= m < |ids| && ids[m] == i;
      assert (env, ids[m]) in after;
    }
    forall e | e != env ensures TagsOf(after, e) == TagsOf(before, e) {
      forall t | t in TagsOf(before, e) ensures t in TagsOf(after, e) {
        assert (e, t) in after;
      }
    }
  }

  // ----- filtering by tags -----

  /** matchesAllTags counts hits; as the tags of an environment are distinct, the count
      reaches |wanted| exactly when every wanted tag is there. */
  method MatchesAllTags(tags: seq<Id>, wanted: set<Id>) returns (all: bool)
    requires Distinct(tags)
    ensures all <==> forall i | i in wanted :: i in tags
  {
    if |wanted| == 0 {
      return true;
    }
    var found := 0;
    ghost var hits: set<Id> := {};
    for k := 0 to |tags|
      invariant found == |hits| && hits <= wanted
      invariant forall i :: i in hits <==> i in wanted && i in tags[..k]
    {
      assert tags[k] !in tags[..k];
      if tags[k] in wanted {
        found := found + 1;
        hits := hits + {tags[k]};
      }
      assert tags[..k + 1] == tags[..k] + [tags[k]];
    }
    assert tags[..|tags|] == tags;
    SubsetBySize(hits, wanted);
    return found == |wanted|;
  }

  lemma SubsetBySize(a: set<Id>, b: set<Id>)
    requires a <= b
    ensures |a| == |b| <==> a == b
  {
    assert |b| == |a| + |b - a|;
  }

  datatype Listed = Listed(env: Id, tags: seq<Id>)

  predicate Carries(item: Listed, wanted: seq<Id>) {
    forall i | i in wanted :: i in item.tags
  }

  /** The items that carry every wanted tag, in their order. */
  function Carrying(items: seq<Listed>, wanted: seq<Id>): seq<Listed> {
    if items == [] then []
    else
      var rest := Carrying(items[..|items| - 1], wanted);
      if Carries(items[|items| - 1], wanted) then rest + [items[|items| - 1]] else rest
  }

  lemma {:induction false} CarryingNothing(items: seq<Listed>)
    ensures Carrying(items, []) == items
  {
    if items != [] {
      CarryingNothing(items[..|items| - 1]);
    }
  }

  /** Where the items that carry every wanted tag stand. */
  ghost predicate Picks(items: seq<Listed>, wanted: seq<Id>, result: seq<Listed>, places: seq<nat>) {
    && |places| == |result|
    && (forall k | 0 <= k < |places| :: places[k] < |items| && result[k] == items[places[k]])
    && (forall j, k | 0 <= j < k < |places| :: places[j] < places[k])
    && (forall n: nat | n < |items| :: n in places <==> Has(items[n], wanted))
  }

  ghost predicate Has(item: Listed, wanted: seq<Id>) {
    forall i | i in wanted :: i in item.tags
  }

  lemma PicksOneMore(items: seq<Listed>, wanted: seq<Id>, result: seq<Listed>, places: seq<nat>, item: Listed)
    requires Picks(items, wanted, result, places)
    ensures if Has(item, wanted) then Picks(items + [item], wanted, result + [item], places + [|items|])
            else Picks(items + [item], wanted, result, places)
  {
    var more := items + [item];
    assert forall n: nat | n < |items| :: more[n] == items[n];
    assert |items| !in places;
    assert forall n: nat :: n in places + [|items|] <==> n in places || n == |items|;
  }

  /** The filter drops exactly the items that lack a wanted tag and keeps the others in order. */
  lemma {:induction false} CarryingPicks(items: seq<Listed>, wanted: seq<Id>) returns (places: seq<nat>)
    ensures Picks(items, wanted, Carrying(items, wanted), places)
  {
    places := [];
    if items != [] {
      var n := |items| - 1;
      places := CarryingPicks(items[..n], wanted);
      PicksOneMore(items[..n], wanted, Carrying(items[..n], wanted), places, items[n]);
      assert items[..n] + [items[n]] == items;
      if Has(items[n], wanted) {
        places := places + [n];
      }
    }
  }

  method FilterEnvironmentsByTagIDs(items: seq<Listed>, wanted: seq<Id>) returns (result: seq<Listed>)
    requires forall item | item in items :: Distinct(item.tags)
    ensures result == Carrying(items, wanted)
    ensures exists places :: Picks(items, wanted, result, places)
  {
    ghost var places := CarryingPicks(items, wanted);
    if wanted == [] {
      CarryingNothing(items);
      return items;
    }
    var ids := set i | i in wanted;
    result := [];
    for k := 0 to |items|
      invariant result == Carrying(items[..k], wanted)
    {
      assert items[k] in items;
      var keep := MatchesAllTags(items[k].tags, ids);
      if keep {
        result := result + [items[k]];
      }
      assert items[..k + 1][..k] == items[..k];
    }
    assert items[..|items|] == items;
  }
}
