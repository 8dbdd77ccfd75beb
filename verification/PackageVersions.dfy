/** Versioned packages: immutable version rows and files, one current pointer and projection
    row per (owner, service type), activation, notes, pruning, deletion and transfer. */
module PackageVersions {
  import opened Prelude
  import opened Keyset

  datatype Loc = Loc(owner: string, kind: string)

  /** The content of an archive file, as its hash and its inspection. */
  datatype Archive = Archive(sha: string, size: nat, port: int, format: string, configPath: string)

  datatype Version = Version(
    id: string, at: Loc, filename: string, path: string, content: Archive, note: string, uploadedAt: string)

  /** A row of `packages`. */
  datatype Package = Package(
    currentId: string, filename: string, path: string, sha: string, size: nat, port: int, note: string,
    uploadedAt: string)

  datatype Environment = Environment(at: Loc, installed: bool, sha: string)

  datatype State = State(
    packages: map<Loc, Package>, versions: map<string, Version>,
    environments: map<string, Environment>, files: map<string, Archive>)

  datatype Error =
    | NotFound | ConfigChanged | VersionExists | VersionCurrent | VersionInUse | Incompatible
    | PackageInUse | TransferConflict | Invalid

  function Projection(v: Version): Package {
    Package(v.id, v.filename, v.path, v.content.sha, v.content.size, v.content.port, v.note, v.uploadedAt)
  }

  function StoragePath(at: Loc, id: string): string {
    "packages/" + at.owner + "/" + at.kind + "/versions/" + id + ".tar.gz"
  }

  /** The 36 characters before the seven of ".tar.gz". */
  function IdIn(path: string): string {
    if |path| < 43 then "" else path[|path| - 43..|path| - 7]
  }

  lemma StoragePathNamesId(at: Loc, id: string)
    requires |id| == 36
    ensures IdIn(StoragePath(at, id)) == id
  {
    var front := "packages/" + at.owner + "/" + at.kind + "/versions/";
    assert StoragePath(at, id) == front + id + ".tar.gz";
  }

  function Config(a: Archive): (string, string) {
    (a.format, a.configPath)
  }

  // The invariant, one row at a time

  /** The package row is the projection of the existing version it points to. */
  ghost predicate Points(s: State, l: Loc)
    requires l in s.packages
  {
    var p := s.packages[l];
    p.currentId in s.versions && s.versions[p.currentId].at == l && p == Projection(s.versions[p.currentId])
  }

  /** The version row has its own id, a package row, and its own file with the recorded
      content; its config format and path are those of the current version. */
  ghost predicate Held(s: State, id: string)
    requires id in s.versions
  {
    var v := s.versions[id];
    && v.id == id && |id| == 36 && IdIn(v.path) == id
    && v.path in s.files && s.files[v.path] == v.content
    && v.at in s.packages && s.packages[v.at].path in s.files
    && Config(s.files[s.packages[v.at].path]) == Config(v.content)
  }

  /** The file belongs to a version. */
  ghost predicate Owned(s: State, path: string) {
    IdIn(path) in s.versions && s.versions[IdIn(path)].path == path
  }

  ghost predicate SameContent(s: State, a: string, b: string)
    requires a in s.versions && b in s.versions
  {
    s.versions[a].at == s.versions[b].at && s.versions[a].content.sha == s.versions[b].content.sha
  }

  ghost predicate Projected(s: State) {
    forall l {:trigger Points(s, l)} | l in s.packages :: Points(s, l)
  }

  ghost predicate Stored(s: State) {
    forall id {:trigger Held(s, id)} | id in s.versions :: Held(s, id)
  }

  ghost predicate Tidy(s: State) {
    forall path {:trigger Owned(s, path)} | path in s.files :: Owned(s, path)
  }

  /** No two versions of one package share a hash. */
  ghost predicate Unique(s: State) {
    forall a, b {:trigger SameContent(s, a, b)} | a in s.versions && b in s.versions && SameContent(s, a, b) :: a == b
  }

  ghost predicate Inv(s: State) {
    Projected(s) && Stored(s) && Tidy(s) && Unique(s)
  }

  /** Distinct versions have distinct files, whoever owns them now. */
  lemma PathsAreDistinct(s: State, a: string, b: string)
    requires Inv(s) && a in s.versions && b in s.versions && s.versions[a].path == s.versions[b].path
    ensures a == b
  {
    assert Held(s, a) && Held(s, b);
  }

  // The operations

  predicate IsCurrent(s: State, id: string) {
    id in s.versions && s.versions[id].at in s.packages && s.packages[s.versions[id].at].currentId == id
  }

  predicate Referenced(s: State, v: Version) {
    exists e | e in s.environments :: s.environments[e].at == v.at && s.environments[e].sha == v.content.sha
  }

  predicate HasContent(s: State, at: Loc, sha: string) {
    exists id | id in s.versions :: s.versions[id].at == at && s.versions[id].content.sha == sha
  }

  function PathsOf(s: State, ids: set<string>): set<string>
    requires ids <= s.versions.Keys
  {
    set id | id in ids :: s.versions[id].path
  }

  function Removed(s: State, ids: set<string>): State
    requires ids <= s.versions.Keys
  {
    s.(versions := s.versions - ids, files := s.files - PathsOf(s, ids))
  }

  function Keys(s: State, at: Loc): set<Key> {
    set id | id in s.versions && s.versions[id].at == at :: Key(s.versions[id].uploadedAt, id)
  }

  /** The versions a prune of `at` removes: beyond the first `retain` in list order, not
      current and not referenced. */
  function Prunable(s: State, at: Loc, retain: int): (ids: set<string>)
    ensures ids <= s.versions.Keys
  {
    set id | id in s.versions && s.versions[id].at == at && !IsCurrent(s, id) && !Referenced(s, s.versions[id])
      && Rank(Keys(s, at), Key(s.versions[id].uploadedAt, id)) >= (if retain < 1 then 1 else retain)
  }

  function Pruned(s: State, at: Loc, retain: int): State {
    Removed(s, Prunable(s, at, retain))
  }

  datatype Step =
    | Upload(at: Loc, id: string, filename: string, content: Archive, note: Option<string>, now: string, retain: int)
    | Activate(at: Loc, id: string)
    | UpdateNote(at: Loc, text: string)
    | DeleteVersion(at: Loc, id: string)
    | DeletePackage(at: Loc)
    | Transfer(source: string, target: string, clear: bool)
    | Change(environments: map<string, Environment>)

  function Uploaded(s: State, step: Step): Version
    requires step.Upload?
  {
    var note := if step.note.Some? then step.note.value
                else if step.at in s.packages then s.packages[step.at].note else "";
    Version(step.id, step.at, step.filename, StoragePath(step.at, step.id), step.content, note, step.now)
  }

  function Saved(s: State, v: Version): State {
    s.(versions := s.versions[v.id := v], packages := s.packages[v.at := Projection(v)],
       files := s.files[v.path := v.content])
  }

  predicate Conflict(s: State, source: string, target: string) {
    exists l | l in s.packages :: l.owner == source && Loc(target, l.kind) in s.packages
  }

  function Moved(l: Loc, source: string, target: string): Loc {
    if l.owner == source then Loc(target, l.kind) else l
  }

  function MovedPackages(packages: map<Loc, Package>, source: string, target: string): map<Loc, Package> {
    var keys := set l | l in packages :: Moved(l, source, target);
    map l | l in keys ::
      if l in packages && l.owner != source then packages[l]
      else if Loc(source, l.kind) in packages then packages[Loc(source, l.kind)] else packages[l]
  }

  function Refusal(s: State, step: Step): Option<Error>
    requires Inv(s)
  {
    assert step.Upload? && step.at in s.packages ==> Points(s, step.at) && Held(s, s.packages[step.at].currentId);
    match step
    case Upload(at, _, _, content, _, _, _) =>
      if at in s.packages && Config(s.files[s.packages[at].path]) != Config(content) then Some(ConfigChanged)
      else if HasContent(s, at, content.sha) then Some(VersionExists) else None
    case Activate(at, id) =>
      if at !in s.packages || id !in s.versions || s.versions[id].at != at then Some(NotFound) else None
    case UpdateNote(at, _) => if at in s.packages then None else Some(NotFound)
    case DeleteVersion(at, id) =>
      if id !in s.versions || s.versions[id].at != at then Some(NotFound)
      else if IsCurrent(s, id) then Some(VersionCurrent)
      else if Referenced(s, s.versions[id]) then Some(VersionInUse) else None
    case DeletePackage(at) =>
      if at !in s.packages then Some(NotFound)
      else if exists e | e in s.environments :: s.environments[e].at == at && s.environments[e].installed
      then Some(PackageInUse) else None
    case Transfer(source, target, clear) =>
      if source == target || !clear || Conflict(s, source, target) then Some(TransferConflict) else None
    case Change(_) => None
  }

  function Activated(s: State, at: Loc, id: string): State
    requires id in s.versions
  {
    s.(packages := s.packages[at := Projection(s.versions[id])])
  }

  function Noted(s: State, at: Loc, text: string): State
    requires at in s.packages && s.packages[at].currentId in s.versions
  {
    var v := s.versions[s.packages[at].currentId].(note := text);
    s.(versions := s.versions[v.id := v], packages := s.packages[at := s.packages[at].(note := text)])
  }

  function Dropped(s: State, at: Loc): State {
    var r := Removed(s, set id | id in s.versions && s.versions[id].at == at);
    r.(packages := s.packages - {at})
  }

  function Handed(s: State, source: string, target: string): State {
    s.(packages := MovedPackages(s.packages, source, target),
       versions := map id | id in s.versions :: s.versions[id].(at := Moved(s.versions[id].at, source, target)),
       environments := map e | e in s.environments ::
         s.environments[e].(at := Moved(s.environments[e].at, source, target)))
  }

  /** What the operation leaves behind; a refused one changes nothing. */
  function Next(s: State, step: Step): State
    requires Inv(s)
  {
    if Refusal(s, step).Some? then s else
    match step
    case Upload(at, _, _, _, _, _, retain) => Pruned(Saved(s, Uploaded(s, step)), at, retain)
    case Activate(at, id) => Activated(s, at, id)
    case UpdateNote(at, text) => assert Points(s, at); Noted(s, at, text)
    case DeleteVersion(_, id) => Removed(s, {id})
    case DeletePackage(at) => Dropped(s, at)
    case Transfer(source, target, _) => Handed(s, source, target)
    case Change(environments) => s.(environments := environments)
  }

  /** Ids are 36 characters and not in use. */
  ghost predicate Fresh(s: State, step: Step) {
    step.Upload? ==> |step.id| == 36 && step.id !in s.versions
  }

  // The invariant is kept

  lemma RemovedKeepsInv(s: State, ids: set<string>)
    requires Inv(s) && ids <= s.versions.Keys && forall id | id in ids :: !IsCurrent(s, id)
    ensures Inv(Removed(s, ids))
  {
    var t := Removed(s, ids);
    forall id | id in s.versions && id !in ids ensures s.versions[id].path in t.files {
      assert Held(s, id);
      forall gone | gone in ids ensures s.versions[gone].path != s.versions[id].path {
        assert Held(s, gone);
      }
    }
    forall l | l in t.packages ensures Points(t, l) && t.packages[l].path in t.files {
      assert Points(s, l) && IsCurrent(s, s.packages[l].currentId);
    }
    forall id | id in t.versions ensures Held(t, id) {
      assert Held(s, id);
    }
    forall path | path in t.files ensures Owned(t, path) {
      assert Owned(s, path);
    }
    forall a, b | a in t.versions && b in t.versions && SameContent(t, a, b) ensures a == b {
      assert SameContent(s, a, b);
    }
  }

  lemma SavedUnique(s: State, v: Version)
    requires Unique(s) && !HasContent(s, v.at, v.content.sha)
    ensures Unique(Saved(s, v))
  {
    var t := Saved(s, v);
    forall a, b | a in t.versions && b in t.versions && SameContent(t, a, b) ensures a == b {
      if a != v.id && b != v.id {
        assert SameContent(s, a, b);
      }
    }
  }

  lemma SavedKeepsInv(s: State, v: Version)
    requires Inv(s) && |v.id| == 36 && v.id !in s.versions && IdIn(v.path) == v.id
    requires v.at in s.packages ==>
      s.packages[v.at].path in s.files && Config(s.files[s.packages[v.at].path]) == Config(v.content)
    requires !HasContent(s, v.at, v.content.sha)
    ensures Inv(Saved(s, v)) && v.path !in s.files
  {
    var t := Saved(s, v);
    SavedUnique(s, v);
    assert v.path in s.files ==> Owned(s, v.path);
    forall l | l in t.packages && l != v.at ensures Points(t, l) {
      assert Points(s, l);
    }
    assert Points(t, v.at) && Held(t, v.id) && Owned(t, v.path);
    forall id | id in t.versions && id != v.id ensures Held(t, id) {
      assert Held(s, id);
    }
    forall path | path in t.files && path != v.path ensures Owned(t, path) {
      assert Owned(s, path);
    }
  }

  lemma DroppedKeepsInv(s: State, at: Loc)
    requires Inv(s)
    ensures Inv(Dropped(s, at))
  {
    var t := Dropped(s, at);
    forall id | id in s.versions && s.versions[id].at != at ensures s.versions[id].path in t.files {
      assert Held(s, id);
      forall gone | gone in s.versions && s.versions[gone].at == at ensures s.versions[gone].path != s.versions[id].path {
        assert Held(s, gone);
      }
    }
    forall l | l in t.packages ensures Points(t, l) && t.packages[l].path in t.files {
      assert Points(s, l);
    }
    forall id | id in t.versions ensures Held(t, id) {
      assert Held(s, id);
    }
    forall path | path in t.files ensures Owned(t, path) {
      assert Owned(s, path);
    }
    forall a, b | a in t.versions && b in t.versions && SameContent(t, a, b) ensures a == b {
      assert SameContent(s, a, b);
    }
  }

  /** A package row keeps its content and moves with its owner. */
  lemma HandedPackages(s: State, source: string, target: string, l: Loc)
    requires source != target && !Conflict(s, source, target) && l in s.packages
    ensures var packages := MovedPackages(s.packages, source, target);
      Moved(l, source, target) in packages && packages[Moved(l, source, target)] == s.packages[l]
  {
    assert Moved(l, source, target) in set k | k in s.packages :: Moved(k, source, target);
    assert l.owner == source ==> Loc(target, l.kind) !in s.packages && l == Loc(source, l.kind);
  }

  /** Packages that meet after a transfer were the same before. */
  lemma MovedApart(s: State, source: string, target: string, a: Loc, b: Loc)
    requires source != target && !Conflict(s, source, target) && a in s.packages && b in s.packages
    requires Moved(a, source, target) == Moved(b, source, target)
    ensures a == b
  {
    assert a.owner == source && b.owner == target ==> Loc(target, a.kind) == b;
    assert b.owner == source && a.owner == target ==> Loc(target, b.kind) == a;
  }

  lemma HandedKeepsInv(s: State, source: string, target: string)
    requires Inv(s) && source != target && !Conflict(s, source, target)
    ensures Inv(Handed(s, source, target))
  {
    var t := Handed(s, source, target);
    forall l | l in t.packages ensures Points(t, l) {
      var from :| from in s.packages && Moved(from, source, target) == l;
      HandedPackages(s, source, target, from);
      assert Points(s, from);
    }
    forall id | id in t.versions ensures Held(t, id) {
      assert Held(s, id);
      HandedPackages(s, source, target, s.versions[id].at);
    }
    forall path | path in t.files ensures Owned(t, path) {
      assert Owned(s, path);
    }
    forall a, b | a in t.versions && b in t.versions && SameContent(t, a, b) ensures a == b {
      assert Held(s, a) && Held(s, b);
      MovedApart(s, source, target, s.versions[a].at, s.versions[b].at);
      assert SameContent(s, a, b);
    }
  }

  /** Rewriting projections and notes only. */
  lemma RewrittenKeepsInv(s: State, t: State)
    requires Inv(s) && t.files == s.files && t.versions.Keys == s.versions.Keys && t.packages.Keys == s.packages.Keys
    requires forall id | id in s.versions :: t.versions[id] == s.versions[id].(note := t.versions[id].note)
    requires Projected(t)
    ensures Inv(t)
  {
    forall id | id in t.versions ensures Held(t, id) {
      assert Held(s, id);
      var l := s.versions[id].at;
      assert Points(t, l) && Points(s, l);
      assert Held(s, t.packages[l].currentId) && Held(s, s.packages[l].currentId);
    }
    forall path | path in t.files ensures Owned(t, path) {
      assert Owned(s, path);
    }
    forall a, b | a in t.versions && b in t.versions && SameContent(t, a, b) ensures a == b {
      assert SameContent(s, a, b);
    }
  }

  lemma ActivatedKeepsInv(s: State, at: Loc, id: string)
    requires Inv(s) && at in s.packages && id in s.versions && s.versions[id].at == at
    ensures Inv(Activated(s, at, id))
  {
    var t := Activated(s, at, id);
    forall l | l in t.packages ensures Points(t, l) {
      assert Held(s, id) && Points(s, l);
    }
    RewrittenKeepsInv(s, t);
  }

  lemma NotedKeepsInv(s: State, at: Loc, text: string)
    requires Inv(s) && at in s.packages && Points(s, at)
    ensures Inv(Noted(s, at, text))
  {
    var t := Noted(s, at, text);
    assert Held(s, s.packages[at].currentId);
    forall l | l in t.packages ensures Points(t, l) {
      assert Points(s, l);
    }
    RewrittenKeepsInv(s, t);
  }

  /** Every operation, refused or not, keeps the invariant. */
  lemma NextKeepsInv(s: State, step: Step)
    requires Inv(s) && Fresh(s, step)
    ensures Inv(Next(s, step))
  {
    if Refusal(s, step).None? {
      match step
      case Upload(at, id, _, _, _, _, retain) =>
        StoragePathNamesId(at, id);
        assert at in s.packages ==> Points(s, at) && Held(s, s.packages[at].currentId);
        SavedKeepsInv(s, Uploaded(s, step));
        RemovedKeepsInv(Saved(s, Uploaded(s, step)), Prunable(Saved(s, Uploaded(s, step)), at, retain));
      case Activate(at, id) =>
        assert Held(s, id);
        ActivatedKeepsInv(s, at, id);
      case UpdateNote(at, text) =>
        assert Points(s, at);
        NotedKeepsInv(s, at, text);
      case DeleteVersion(_, id) => RemovedKeepsInv(s, {id});
      case DeletePackage(at) => DroppedKeepsInv(s, at);
      case Transfer(source, target, _) => HandedKeepsInv(s, source, target);
      case Change(environments) =>
        var t := s.(environments := environments);
        forall l | l in t.packages ensures Points(t, l) {
          assert Points(s, l);
        }
        RewrittenKeepsInv(s, t);
    }
  }

  // What the operations promise

  /** A version row never changes except for its owner and its note, nor does its file. A
      version that goes away was referenced by no environment, or its whole package was
      deleted while no environment had it installed; DeleteVersion never takes the current. */
  lemma VersionsAreImmutable(s: State, step: Step, id: string)
    requires Inv(s) && Fresh(s, step) && id in s.versions
    ensures var t := Next(s, step); var v := s.versions[id];
      if id in t.versions then
        t.versions[id] == v.(at := t.versions[id].at, note := t.versions[id].note)
        && v.path in s.files && v.path in t.files && t.files[v.path] == s.files[v.path]
      else
        (step.DeletePackage? && forall e | e in s.environments ::
           s.environments[e].at == v.at ==> !s.environments[e].installed)
        || (!Referenced(s, v) && (step.Upload? || (step.DeleteVersion? && !IsCurrent(s, id))))
  {
    NextKeepsInv(s, step);
    var t := Next(s, step);
    assert Held(s, id);
    if step.UpdateNote? && step.at in s.packages {
      assert Points(s, step.at) && Held(s, s.packages[step.at].currentId);
    }
    if id in t.versions {
      assert Held(t, id);
    }
  }

  /** While a package exists its config format and path never change, so a current version
      and any other version of the package always agree. */
  lemma ConfigStays(s: State, step: Step, l: Loc)
    requires Inv(s) && Fresh(s, step) && l in s.packages && l in Next(s, step).packages
    ensures var t := Next(s, step);
      s.packages[l].path in s.files && t.packages[l].path in t.files
      && Config(t.files[t.packages[l].path]) == Config(s.files[s.packages[l].path])
  {
    NextKeepsInv(s, step);
    var t := Next(s, step);
    assert Points(s, l) && Points(t, l);
    var cur := s.packages[l].currentId;
    assert Held(s, cur) && Held(t, t.packages[l].currentId);
    if Refusal(s, step).None? && step.Transfer? {
      assert l.owner != step.source;
      HandedPackages(s, step.source, step.target, l);
    }
    if step.Activate? && Refusal(s, step).None? {
      assert Held(s, step.id);
    }
  }

  /** The branch of activation that reports an incompatible version cannot be reached. */
  lemma ActivationIsCompatible(s: State, at: Loc, id: string)
    requires Inv(s) && at in s.packages && id in s.versions && s.versions[id].at == at
    ensures s.packages[at].path in s.files && s.versions[id].path in s.files
    ensures Config(s.files[s.packages[at].path]) == Config(s.files[s.versions[id].path])
  {
    assert Held(s, id);
  }

  /** After a prune a version of the package is left iff it was among the first `retain`, is
      current, or is referenced; other packages lose nothing; a second prune removes nothing. */
  lemma PruneOutcome(s: State, at: Loc, retain: int, id: string)
    requires id in s.versions
    ensures var t := Pruned(s, at, retain);
      (id in t.versions <==>
         s.versions[id].at != at || IsCurrent(s, id) || Referenced(s, s.versions[id])
         || Rank(Keys(s, at), Key(s.versions[id].uploadedAt, id)) < (if retain < 1 then 1 else retain))
      && Prunable(t, at, retain) == {}
  {
    var t := Pruned(s, at, retain);
    forall x | x in t.versions && t.versions[x].at == at
      ensures Rank(Keys(t, at), Key(t.versions[x].uploadedAt, x)) <= Rank(Keys(s, at), Key(s.versions[x].uploadedAt, x))
    {
      var k := Key(s.versions[x].uploadedAt, x);
      var few, all := set y | y in Keys(t, at) && Before(y, k), set y | y in Keys(s, at) && Before(y, k);
      assert few <= all;
      SubsetSize(few, all);
    }
  }

  /** An accepted upload is the current version afterwards, with the note given or kept,
      whatever the prune that follows it removes. */
  lemma UploadSurvives(s: State, step: Step)
    requires Inv(s) && Fresh(s, step) && step.Upload? && Refusal(s, step).None?
    ensures var t := Next(s, step);
      IsCurrent(t, step.id) && t.versions[step.id] == Uploaded(s, step)
      && t.packages[step.at] == Projection(Uploaded(s, step))
      && t.versions[step.id].note ==
           (if step.note.Some? then step.note.value else if step.at in s.packages then s.packages[step.at].note else "")
  {
    assert IsCurrent(Saved(s, Uploaded(s, step)), step.id);
  }

  // What each operation comes to, in terms of the tables

  /** An environment runs this content of the package. */
  ghost predicate InUse(s: State, id: string)
    requires id in s.versions
  {
    exists e | e in s.environments :: s.environments[e].at == s.versions[id].at && s.environments[e].sha == s.versions[id].content.sha
  }

  /** The first `retain` versions of a package, at least one, are those listed after fewer. */
  ghost predicate Ranked(keys: set<Key>, k: Key, retain: int) {
    |set x | x in keys && Before(x, k)| < (if retain < 1 then 1 else retain)
  }

  /** The package row shows the version and names it as current. */
  ghost predicate ShownAs(p: Package, v: Version) {
    && p.currentId == v.id && p.filename == v.filename && p.path == v.path
    && p.sha == v.content.sha && p.size == v.content.size && p.port == v.content.port
    && p.note == v.note && p.uploadedAt == v.uploadedAt
  }

  /** Why an upload is refused. */
  ghost predicate OtherConfig(s: State, at: Loc, content: Archive) {
    at in s.packages && s.packages[at].currentId in s.versions
    && (s.versions[s.packages[at].currentId].content.format != content.format
        || s.versions[s.packages[at].currentId].content.configPath != content.configPath)
  }

  ghost predicate KnownHash(s: State, at: Loc, sha: string) {
    exists id | id in s.versions :: s.versions[id].at == at && s.versions[id].content.sha == sha
  }

  /** The rows and files of some versions of one package are gone, nothing else is. */
  ghost predicate OnlyGone(s: State, t: State, gone: set<string>) {
    && (forall id | id in s.versions :: id in t.versions <==> id !in gone)
    && (forall id | id in t.versions :: id in s.versions && t.versions[id] == s.versions[id])
    && (forall id | id in s.versions && id in gone :: s.versions[id].path !in t.files)
    && (forall id | id in s.versions && id !in gone && s.versions[id].path in s.files ::
          s.versions[id].path in t.files && t.files[s.versions[id].path] == s.files[s.versions[id].path])
  }

  lemma RemovedIsGone(s: State, ids: set<string>)
    requires Inv(s) && ids <= s.versions.Keys
    ensures OnlyGone(s, Removed(s, ids), ids)
  {
    forall id, x | id in s.versions && id !in ids && x in ids ensures s.versions[id].path != s.versions[x].path {
      assert Held(s, id) && Held(s, x);
    }
  }

  /** An upload is refused for its config or its hash and for nothing else. */
  lemma UploadRefusals(s: State, step: Step)
    requires Inv(s) && step.Upload?
    ensures Refusal(s, step) == Some(ConfigChanged) <==> OtherConfig(s, step.at, step.content)
    ensures Refusal(s, step) == Some(VersionExists) <==>
      !OtherConfig(s, step.at, step.content) && KnownHash(s, step.at, step.content.sha)
    ensures Refusal(s, step).Some? ==> Refusal(s, step).value in {ConfigChanged, VersionExists}
  {
    assert step.at in s.packages ==> Points(s, step.at) && Held(s, s.packages[step.at].currentId);
  }

  /** An accepted upload adds its version, makes it current, and removes exactly the versions of
      its package that are not in use and no longer among the first `retain`. */
  lemma UploadDoes(s: State, step: Step)
    requires Inv(s) && Fresh(s, step) && step.Upload? && Refusal(s, step).None?
    ensures var t := Next(s, step);
      && step.id in t.versions && step.at in t.packages && ShownAs(t.packages[step.at], t.versions[step.id])
      && t.packages - {step.at} == s.packages - {step.at} && t.environments == s.environments
      && (forall x | x in t.versions && x != step.id :: x in s.versions && t.versions[x] == s.versions[x])
      && (forall x | x in s.versions :: x in t.versions <==>
            s.versions[x].at != step.at || InUse(s, x)
            || Ranked(Keys(s, step.at) + {Key(step.now, step.id)}, Key(s.versions[x].uploadedAt, x), step.retain))
      && t.versions[step.id].path in t.files && t.files[t.versions[step.id].path] == step.content
  {
    NextKeepsInv(s, step);
    var t := Next(s, step);
    UploadSurvives(s, step);
    assert Held(t, step.id);
    var mid := Saved(s, Uploaded(s, step));
    assert Keys(mid, step.at) == Keys(s, step.at) + {Key(step.now, step.id)} by {
      assert Key(step.now, step.id) in Keys(mid, step.at);
      forall k | k in Keys(s, step.at) ensures k in Keys(mid, step.at) {
        assert k.id in mid.versions;
      }
    }
    forall x | x in s.versions
      ensures x in t.versions <==>
            s.versions[x].at != step.at || InUse(s, x)
            || Ranked(Keys(s, step.at) + {Key(step.now, step.id)}, Key(s.versions[x].uploadedAt, x), step.retain)
    {
      PruneOutcome(mid, step.at, step.retain, x);
      assert Referenced(mid, mid.versions[x]) == InUse(s, x);
    }
  }

  /** The outcome of an upload: refused without a change, or the version is there as given, current
      and shown by the package row, which is the answer. */
  ghost predicate UploadMeans(s: State, t: State, step: Step, r: Result<Package, Error>)
    requires step.Upload?
  {
    var at, id := step.at, step.id;
    && (r == Err(ConfigChanged) <==> OtherConfig(s, at, step.content))
    && (r == Err(VersionExists) <==> !OtherConfig(s, at, step.content) && KnownHash(s, at, step.content.sha))
    && (r.Err? ==> t == s && r.error in {ConfigChanged, VersionExists})
    && (r.Ok? ==>
          && at in t.packages && r.value == t.packages[at] && id in t.versions && ShownAs(t.packages[at], t.versions[id])
          && t.versions[id] == Version(id, at, step.filename, "packages/" + at.owner + "/" + at.kind + "/versions/" + id + ".tar.gz",
               step.content,
               if step.note.Some? then step.note.value else if at in s.packages then s.packages[at].note else "", step.now)
          && t.packages - {at} == s.packages - {at}
          && (forall x | x in t.versions && x != id :: x in s.versions && t.versions[x] == s.versions[x])
          && (forall x | x in s.versions :: x in t.versions <==>
                s.versions[x].at != at || InUse(s, x)
                || Ranked(Keys(s, at) + {Key(step.now, id)}, Key(s.versions[x].uploadedAt, x), step.retain))
          && t.versions[id].path in t.files && t.files[t.versions[id].path] == step.content)
  }

  lemma UploadAnswered(s: State, step: Step)
    requires Inv(s) && Fresh(s, step) && step.Upload?
    ensures forall r | Answers(step, s, r) :: UploadMeans(s, Next(s, step), step, r)
  {
    UploadRefusals(s, step);
    if Refusal(s, step).None? {
      UploadSurvives(s, step);
      UploadDoes(s, step);
    }
  }

  /** A package is deleted with all its versions, unless an environment has it installed. */
  lemma DeleteDoes(s: State, at: Loc)
    requires Inv(s)
    ensures var step := Step.DeletePackage(at); var t := Next(s, step);
      && Refusal(s, step) == (if at !in s.packages then Some(NotFound)
                              else if exists e | e in s.environments :: s.environments[e].at == at && s.environments[e].installed
                              then Some(PackageInUse) else None)
      && PackageGone(s, t, at, Refusal(s, step).None?)
  {
    RemovedIsGone(s, set id | id in s.versions && s.versions[id].at == at);
  }

  ghost predicate PackageGone(s: State, t: State, at: Loc, gone: bool) {
    if !gone then t == s
    else
      && at !in t.packages && t.packages == s.packages - {at} && t.environments == s.environments
      && (forall id | id in t.versions :: t.versions[id].at != at)
      && OnlyGone(s, t, set id | id in s.versions && s.versions[id].at == at)
  }

  /** After a transfer every row of the source, and no other, is the target's; files stay. */
  ghost predicate HandedOver(s: State, t: State, source: string, target: string) {
    && t.files == s.files && t.versions.Keys == s.versions.Keys && t.environments.Keys == s.environments.Keys
    && |t.packages| == |s.packages|
    && (forall l | l in s.packages ::
          var to := if l.owner == source then Loc(target, l.kind) else l; to in t.packages && t.packages[to] == s.packages[l])
    && (forall id | id in s.versions ::
          t.versions[id] == s.versions[id].(at := t.versions[id].at) && t.versions[id].at.kind == s.versions[id].at.kind
          && t.versions[id].at.owner == if s.versions[id].at.owner == source then target else s.versions[id].at.owner)
    && (forall e | e in s.environments ::
          t.environments[e] == s.environments[e].(at := t.environments[e].at) && t.environments[e].at.kind == s.environments[e].at.kind
          && t.environments[e].at.owner == if s.environments[e].at.owner == source then target else s.environments[e].at.owner)
  }

  lemma {:induction false} MovedSize(keys: set<Loc>, source: string, target: string)
    requires source != target && forall l | l in keys && l.owner == source :: Loc(target, l.kind) !in keys
    ensures |set l | l in keys :: Moved(l, source, target)| == |keys|
  {
    if keys != {} {
      var l :| l in keys;
      var rest := keys - {l};
      MovedSize(rest, source, target);
      assert (set k | k in keys :: Moved(k, source, target)) == (set k | k in rest :: Moved(k, source, target)) + {Moved(l, source, target)};
      forall k | k in rest ensures Moved(k, source, target) != Moved(l, source, target) {
        assert k.owner == source ==> Loc(target, k.kind) !in keys;
        assert l.owner == source ==> Loc(target, l.kind) !in keys;
      }
    }
  }

  lemma TransferDoes(s: State, source: string, target: string, clear: bool)
    requires Inv(s)
    ensures Refusal(s, Transfer(source, target, clear)) ==
      if clear && source != target && forall l | l in s.packages && l.owner == source :: Loc(target, l.kind) !in s.packages
      then None else Some(TransferConflict)
    ensures Refusal(s, Transfer(source, target, clear)).None? ==>
      HandedOver(s, Next(s, Transfer(source, target, clear)), source, target)
  {
    if Refusal(s, Transfer(source, target, clear)).None? {
      HandedIsOver(s, source, target);
    }
  }

  lemma HandedIsOver(s: State, source: string, target: string)
    requires source != target && !Conflict(s, source, target)
    ensures HandedOver(s, Handed(s, source, target), source, target)
  {
    var t := Handed(s, source, target);
    forall l | l in s.packages
      ensures var to := if l.owner == source then Loc(target, l.kind) else l; to in t.packages && t.packages[to] == s.packages[l]
    {
      HandedPackages(s, source, target, l);
    }
    forall l | l in s.packages.Keys && l.owner == source ensures Loc(target, l.kind) !in s.packages.Keys {
    }
    MovedSize(s.packages.Keys, source, target);
    assert t.packages.Keys == set l | l in s.packages.Keys :: Moved(l, source, target);
    assert |t.packages| == |t.packages.Keys| && |s.packages| == |s.packages.Keys|;
  }

  // Whole runs

  ghost predicate Runs(s: State, steps: seq<Step>)
    requires Inv(s)
    decreases |steps|
  {
    steps == [] || (Fresh(s, steps[0]) && (NextKeepsInv(s, steps[0]); Runs(Next(s, steps[0]), steps[1..])))
  }

  ghost function After(s: State, steps: seq<Step>): (t: State)
    requires Inv(s) && Runs(s, steps)
    ensures Inv(t)
    decreases |steps|
  {
    if steps == [] then s else (NextKeepsInv(s, steps[0]); After(Next(s, steps[0]), steps[1..]))
  }

  /** A new database: no rows, no files. */
  const EMPTY := State(map[], map[], map[], map[])

  lemma EmptyIsSound()
    ensures Inv(EMPTY)
  {
  }

  /** The answer to an operation that returns the package row. */
  ghost predicate Answers(step: Step, s: State, r: Result<Package, Error>)
    requires Inv(s)
  {
    match Refusal(s, step)
    case Some(e) => r == Err(e)
    case None =>
      var at := if step.Upload? || step.Activate? || step.UpdateNote? then step.at else Loc("", "");
      at in Next(s, step).packages && r == Ok(Next(s, step).packages[at])
  }

  lemma ListedAll(listed: seq<Key>, keys: set<Key>)
    requires Descending(listed) && forall k | k in listed :: k in keys
    requires forall k | k in keys && k !in listed :: |listed| == |keys| && forall x | x in listed :: Before(x, k)
    ensures Lists(listed, keys)
  {
    var found := set k | k in listed;
    ListingIsUnique(listed, listed, found);
    if |listed| == |keys| {
      SameSize(found, keys);
    }
  }

  lemma {:induction false} SameSize(a: set<Key>, b: set<Key>)
    requires a <= b && |a| == |b|
    ensures a == b
  {
    if b != {} {
      var k :| k in b;
      SubsetSize(a - {k}, b - {k});
      if k in a {
        SameSize(a - {k}, b - {k});
      }
    }
  }

  /** The listing decides by position what `Prunable` says by rank. */
  lemma PrunableOneMore(s: State, at: Loc, retain: int, listed: seq<Key>, index: nat)
    requires Lists(listed, Keys(s, at)) && index < |listed|
    ensures var k := listed[index];
      && k.id in s.versions && s.versions[k.id].at == at && k == Key(s.versions[k.id].uploadedAt, k.id)
      && (k.id in Prunable(s, at, retain) <==>
            index >= (if retain < 1 then 1 else retain) && !IsCurrent(s, k.id) && !Referenced(s, s.versions[k.id]))
      && k !in listed[..index] && listed[..index + 1] == listed[..index] + [k]
  {
    var k := listed[index];
    assert k in listed;
    IndexIsRank(listed, Keys(s, at), index);
    forall j | 0 <= j < index ensures listed[j] != k {
      BeforeTotal(listed[j], k);
    }
  }

  lemma StillPrunable(s: State, gone: set<string>, id: string)
    requires gone <= s.versions.Keys && id in s.versions && id !in gone
    ensures IsCurrent(Removed(s, gone), id) == IsCurrent(s, id)
    ensures Referenced(Removed(s, gone), s.versions[id]) == Referenced(s, s.versions[id])
  {
  }

  lemma PathsOneMore(s: State, gone: set<string>, id: string)
    requires gone <= s.versions.Keys && id in s.versions
    ensures PathsOf(s, gone + {id}) == PathsOf(s, gone) + {s.versions[id].path}
  {
    forall path ensures path in PathsOf(s, gone + {id}) <==> path in PathsOf(s, gone) + {s.versions[id].path} {
      if path == s.versions[id].path {
        assert id in gone + {id};
      } else if path in PathsOf(s, gone) {
        var x :| x in gone && s.versions[x].path == path;
        assert x in gone + {id};
      }
    }
  }

  lemma RemovedTwice(s: State, gone: set<string>, id: string)
    requires gone <= s.versions.Keys && id in s.versions && id !in gone
    ensures Removed(Removed(s, gone), {id}) == Removed(s, gone + {id})
  {
    var t := Removed(s, gone);
    PathsOneMore(s, gone, id);
    PathsOneMore(t, {}, id);
    assert {} + {id} == {id} && PathsOf(t, {}) == {};
    assert t.versions - {id} == s.versions - (gone + {id});
    assert s.files - PathsOf(s, gone) - {s.versions[id].path} == s.files - PathsOf(s, gone + {id});
  }

  /** The versions of the package, each once, by descending time and then id, as texts. */
  ghost predicate NewestFirst(s: State, at: Loc, listed: seq<Key>) {
    && (forall k | k in listed :: k.id in s.versions && s.versions[k.id].at == at && s.versions[k.id].uploadedAt == k.time)
    && (forall id | id in s.versions && s.versions[id].at == at :: Key(s.versions[id].uploadedAt, id) in listed)
    && forall i, j | 0 <= i < j < |listed| ::
         TextLess(listed[j].time, listed[i].time) || (listed[j].time == listed[i].time && TextLess(listed[j].id, listed[i].id))
  }

  class Manager {
    var packages: map<Loc, Package>
    var versions: map<string, Version>
    var environments: map<string, Environment>
    var files: map<string, Archive>
    var retention: nat

    constructor ()
      ensures View() == EMPTY && Valid() && retention == 10
    {
      packages, versions, environments, files := map[], map[], map[], map[];
      retention := 10;
    }

    function View(): State
      reads this
    {
      State(packages, versions, environments, files)
    }

    ghost predicate Valid()
      reads this
    {
      Inv(View())
    }

    method ConfigureRetention(retain: int)
      modifies this`retention
      ensures retention == if retain > 0 then retain else old(retention)
    {
      if retain > 0 {
        retention := retain;
      }
    }

    /** Inserts the version row and upserts the projection, unless the hash is taken. */
    method SavePackageVersion(v: Version) returns (ok: bool)
      modifies this`versions, this`packages
      ensures ok <==> forall x | x in old(versions) :: old(versions)[x].at != v.at || old(versions)[x].content.sha != v.content.sha
      ensures ok ==> versions == old(versions)[v.id := v] && v.at in packages && ShownAs(packages[v.at], v)
      ensures View() == if ok then old(View()).(versions := old(versions)[v.id := v],
                                                packages := old(packages)[v.at := Projection(v)]) else old(View())
    {
      ok := !HasContent(View(), v.at, v.content.sha);
      if ok {
        versions := versions[v.id := v];
        packages := packages[v.at := Projection(v)];
      }
    }

    method Upload(at: Loc, id: string, filename: string, checked: Option<Archive>, note: Option<string>, now: string)
      returns (r: Result<Package, Error>)
      requires Valid() && |id| == 36 && id !in versions
      modifies this`packages, this`versions, this`files
      ensures Valid()
      ensures checked.None? ==> r == Err(Invalid) && View() == old(View())
      ensures checked.Some? ==>
        var step := Step.Upload(at, id, filename, checked.value, note, now, retention);
        View() == Next(old(View()), step) && UploadMeans(old(View()), View(), step, r)
    {
      if checked.None? {
        return Err(Invalid);
      }
      UploadAnswered(View(), Step.Upload(at, id, filename, checked.value, note, now, retention));
      r := Accept(at, id, filename, checked.value, note, now);
    }

    /** The upload of an archive that passed its inspection. */
    method Accept(at: Loc, id: string, filename: string, content: Archive, note: Option<string>, now: string)
      returns (r: Result<Package, Error>)
      requires Valid() && |id| == 36 && id !in versions
      modifies this`packages, this`versions, this`files
      ensures Valid()
      ensures var step := Step.Upload(at, id, filename, content, note, now, retention);
        View() == Next(old(View()), step) && Answers(step, old(View()), r)
    {
      ghost var step := Step.Upload(at, id, filename, content, note, now, retention);
      ghost var was := View();
      NextKeepsInv(was, step);
      StoragePathNamesId(at, id);
      var text := "";
      if at in packages {
        assert Points(was, at) && Held(was, packages[at].currentId);
        text := packages[at].note;
        if Config(files[packages[at].path]) != Config(content) {
          return Err(ConfigChanged);
        }
      }
      if note.Some? {
        text := note.value;
      }
      var v := Version(id, at, filename, StoragePath(at, id), content, text, now);
      assert v == Uploaded(was, step);
      assert v.path in files ==> Owned(was, v.path);
      files := files[v.path := content];
      var ok := SavePackageVersion(v);
      if !ok {
        files := files - {v.path};
        assert View() == was;
        return Err(VersionExists);
      }
      SavedKeepsInv(was, v);
      PruneVersions(at);
      r := Ok(packages[at]);
    }

    /** The versions of a package, newest first. */
    method ListVersions(at: Loc) returns (listed: seq<Key>)
      ensures Lists(listed, Keys(View(), at))
      ensures NewestFirst(View(), at, listed)
    {
      var keys := Keys(View(), at);
      listed := Query(keys, |keys|);
      ListedAll(listed, keys);
      forall id | id in versions && versions[id].at == at ensures Key(versions[id].uploadedAt, id) in listed {
        assert Key(versions[id].uploadedAt, id) in keys;
      }
    }

    method PrunablePackageVersions(at: Loc) returns (items: seq<string>)
      ensures forall id :: id in items <==> id in Prunable(View(), at, retention)
      ensures forall i, j | 0 <= i < j < |items| :: items[i] != items[j]
    {
      var listed := ListVersions(at);
      var retain := if retention < 1 then 1 else retention;
      items := [];
      for index := 0 to |listed|
        invariant forall id :: id in items <==>
          id in Prunable(View(), at, retention) && Key(versions[id].uploadedAt, id) in listed[..index]
        invariant forall i, j | 0 <= i < j < |items| :: items[i] != items[j]
      {
        var id := listed[index].id;
        PrunableOneMore(View(), at, retention, listed, index);
        if index >= retain && !IsCurrent(View(), id) && !Referenced(View(), versions[id]) {
          items := items + [id];
        }
      }
      assert listed[..|listed|] == listed;
    }

    method DeleteVersion(at: Loc, id: string) returns (r: Result<bool, Error>)
      requires Valid()
      modifies this`versions, this`files
      ensures Valid() && View() == Next(old(View()), Step.DeleteVersion(at, id))
      ensures r == if id !in old(versions) || old(versions)[id].at != at then Err(NotFound)
                   else if at in packages && packages[at].currentId == id then Err(VersionCurrent)
                   else if InUse(old(View()), id) then Err(VersionInUse) else Ok(true)
      ensures r == match Refusal(old(View()), Step.DeleteVersion(at, id)) case Some(e) => Err(e) case None => Ok(true)
      ensures OnlyGone(old(View()), View(), if r.Ok? then {id} else {})
    {
      NextKeepsInv(View(), Step.DeleteVersion(at, id));
      if id !in versions || versions[id].at != at {
        return Err(NotFound);
      }
      if IsCurrent(View(), id) {
        return Err(VersionCurrent);
      }
      if Referenced(View(), versions[id]) {
        return Err(VersionInUse);
      }
      ghost var was := View();
      RemovedIsGone(was, {id});
      var path := versions[id].path;
      versions := versions - {id};
      files := files - {path};
      assert View() == Removed(was, {id}) by {
        assert (set x | x in {id} :: was.versions[x].path) == {path};
      }
      r := Ok(true);
    }

    method PruneVersions(at: Loc)
      requires Valid()
      modifies this`versions, this`files
      ensures Valid() && View() == Pruned(old(View()), at, retention)
    {
      var items := PrunablePackageVersions(at);
      ghost var was := View();
      ghost var gone: set<string> := {};
      assert Removed(was, gone) == was;
      for i := 0 to |items|
        invariant Valid() && gone == (set id | id in items[..i])
        invariant gone <= was.versions.Keys && View() == Removed(was, gone)
      {
        var id := items[i];
        assert id in items && id in Prunable(was, at, retention);
        assert id !in gone;
        StillPrunable(was, gone, id);
        DeleteUnused(at, id);
        RemovedTwice(was, gone, id);
        gone := gone + {id};
      }
      assert items[..|items|] == items;
      assert gone == Prunable(was, at, retention);
    }

    method DeleteUnused(at: Loc, id: string)
      requires Valid() && id in versions && versions[id].at == at
      requires !IsCurrent(View(), id) && !Referenced(View(), versions[id])
      modifies this`versions, this`files
      ensures Valid() && View() == Removed(old(View()), {id})
    {
      var r := DeleteVersion(at, id);
    }

    method ActivateVersion(at: Loc, id: string) returns (r: Result<Package, Error>)
      requires Valid()
      modifies this`packages
      ensures Valid() && View() == Next(old(View()), Activate(at, id)) && r != Err(Incompatible)
      ensures Answers(Activate(at, id), old(View()), r)
      ensures r.Ok? <==> at in old(packages) && id in versions && versions[id].at == at
      ensures r.Err? ==> r.error == NotFound && packages == old(packages)
      ensures r.Ok? ==> at in packages && packages[at].currentId == id && ShownAs(packages[at], versions[id])
                        && r.value == packages[at] && packages - {at} == old(packages) - {at}
    {
      NextKeepsInv(View(), Activate(at, id));
      if at !in packages || id !in versions || versions[id].at != at {
        return Err(NotFound);
      }
      assert Points(View(), at) && Held(View(), id);
      if IsCurrent(View(), id) {
        return Ok(packages[at]);
      }
      ActivationIsCompatible(View(), at, id);
      if Config(files[packages[at].path]) != Config(files[versions[id].path]) {
        return Err(Incompatible);
      }
      packages := packages[at := Projection(versions[id])];
      r := Ok(packages[at]);
    }

    method UpdateNote(at: Loc, text: string) returns (r: Result<Package, Error>)
      requires Valid()
      modifies this`packages, this`versions
      ensures Valid() && View() == Next(old(View()), Step.UpdateNote(at, text))
      ensures Answers(Step.UpdateNote(at, text), old(View()), r)
      ensures r.Ok? <==> at in old(packages)
      ensures r.Err? ==> r.error == NotFound && View() == old(View())
      ensures r.Ok? ==>
        && at in packages && r.value == packages[at] && packages[at].note == text
        && var current := old(packages)[at].currentId;
           && current in old(versions) && current in versions && packages[at].currentId == current
           && versions[current].note == text && ShownAs(packages[at], versions[current])
           && versions[current].(note := old(versions)[current].note) == old(versions)[current]
           && versions - {current} == old(versions) - {current} && packages - {at} == old(packages) - {at}
    {
      NextKeepsInv(View(), Step.UpdateNote(at, text));
      if at !in packages {
        return Err(NotFound);
      }
      var current := packages[at].currentId;
      assert Points(View(), at) && Held(View(), current);
      versions := versions[current := versions[current].(note := text)];
      packages := packages[at := packages[at].(note := text)];
      r := Ok(packages[at]);
    }

    method DeletePackage(at: Loc) returns (r: Result<bool, Error>)
      requires Valid()
      modifies this`packages, this`versions, this`files
      ensures Valid() && View() == Next(old(View()), Step.DeletePackage(at))
      ensures r == if at !in old(packages) then Err(NotFound)
                   else if exists e | e in environments :: environments[e].at == at && environments[e].installed
                   then Err(PackageInUse) else Ok(true)
      ensures PackageGone(old(View()), View(), at, r.Ok?)
    {
      NextKeepsInv(View(), Step.DeletePackage(at));
      DeleteDoes(View(), at);
      if at !in packages {
        return Err(NotFound);
      }
      if exists e | e in environments :: environments[e].at == at && environments[e].installed {
        return Err(PackageInUse);
      }
      Discard(at);
      r := Ok(true);
    }

    /** The package row, the version rows, and then their files. */
    method Discard(at: Loc)
      modifies this`packages, this`versions, this`files
      ensures View() == Dropped(old(View()), at)
    {
      var items := ListVersions(at);
      ghost var was := View();
      var before := versions;
      var ids := set k | k in items :: k.id;
      assert ids == set id | id in versions && versions[id].at == at by {
        forall id | id in versions && versions[id].at == at ensures id in ids {
          assert Key(versions[id].uploadedAt, id) in items;
        }
      }
      versions := versions - ids;
      packages := packages - {at};
      RemoveFiles(items, before);
      assert (set k | k in items :: was.versions[k.id].path) == (set id | id in ids :: was.versions[id].path);
    }

    method RemoveFiles(items: seq<Key>, rows: map<string, Version>)
      requires forall k | k in items :: k.id in rows
      modifies this`files
      ensures files == old(files) - set k | k in items :: rows[k.id].path
    {
      for i := 0 to |items|
        invariant files == old(files) - set k | k in items[..i] :: rows[k.id].path
      {
        assert items[i] in items && items[..i + 1] == items[..i] + [items[i]];
        files := files - {rows[items[i].id].path};
      }
      assert items[..|items|] == items;
    }

    /** `clear` is the verdict of the checks on accounts, operations and environments. */
    method TransferOwner(source: string, target: string, clear: bool) returns (r: Result<nat, Error>)
      requires Valid()
      modifies this`packages, this`versions, this`environments
      ensures Valid() && View() == Next(old(View()), Transfer(source, target, clear))
      ensures r.Ok? <==> clear && source != target && forall l | l in old(packages) && l.owner == source ::
        Loc(target, l.kind) !in old(packages)
      ensures r.Err? ==> r.error == TransferConflict && View() == old(View())
      ensures r.Ok? ==> HandedOver(old(View()), View(), source, target)
                        && r.value == |set l | l in old(packages) && l.owner == source|
    {
      NextKeepsInv(View(), Transfer(source, target, clear));
      TransferDoes(View(), source, target, clear);
      if source == target || !clear || Conflict(View(), source, target) {
        return Err(TransferConflict);
      }
      r := Ok(|set l | l in packages && l.owner == source|);
      HandOver(source, target);
    }

    /** The three UPDATE statements. */
    method HandOver(source: string, target: string)
      modifies this`packages, this`versions, this`environments
      ensures View() == Handed(old(View()), source, target)
    {
      packages := MovedPackages(packages, source, target);
      versions := map id | id in versions :: versions[id].(at := Moved(versions[id].at, source, target));
      environments := map e | e in environments :: environments[e].(at := Moved(environments[e].at, source, target));
    }
  }
}
