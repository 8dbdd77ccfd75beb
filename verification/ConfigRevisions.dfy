/** The configuration of one environment: append-only revisions, the current projection, and
    the file on the target host, which is written before the database commits. */
module ConfigRevisions {
  import opened Prelude

  datatype Source = Manual | RolledBack(from: string)

  datatype Revision = Revision(id: string, content: string, format: string, port: int, source: Source)

  /** The port a content of a format sets, if it is valid. */
  type Ports = (string, string) -> Option<int>

  /** The row of `service_configs`; `revision` is empty after an install copied the package's. */
  datatype Projection = Projection(content: string, port: int, revision: string)

  /** `format` is the config format of the service type's package; `file` is the config file on
      the host and `mark` the port in its installed marker. `base` is bookkeeping: how many
      revisions there were when the service type last changed. */
  datatype State = State(
    revisions: seq<Revision>, projection: Option<Projection>, package: Projection, format: string,
    installed: bool, healthPort: Option<int>, file: Option<string>, mark: Option<int>, base: nat)

  /** A remote write is one rename: it takes effect or not, and its reply may be lost. */
  datatype Write = Done | Refused | ReplyLost

  /** How the calls of one save end: the write, the commit, and the compensating write. */
  datatype Fates = Fates(write: Write, commit: bool, restore: Write)

  datatype InstallFate = Cut(left: Option<string>) | UpsertLost | MarkLost | Completed

  datatype ResetFate = Cut(markGone: bool) | MarkLost | Completed

  datatype Step =
    | Update(content: string, id: string, fates: Fates)
    | Rollback(revision: string, id: string, fates: Fates)
    | Install(install: InstallFate)
    | Reset(reset: ResetFate)
    | Upload(content: string, port: int)
    | Retype(content: string, port: int, format: string, file: Option<string>)
    | Relocate(file: Option<string>, mark: Option<int>)

  /** What `Get` shows: the projection, or the package's own config while there is none. */
  function Current(s: State): Projection {
    if s.projection.Some? then s.projection.value else s.package
  }

  function Find(revisions: seq<Revision>, id: string): (r: Option<Revision>)
    ensures r.Some? ==> r.value in revisions && r.value.id == id
    ensures r.None? ==> forall x | x in revisions :: x.id != id
  {
    if revisions == [] then None
    else if revisions[0].id == id then Some(revisions[0])
    else Find(revisions[1..], id)
  }

  function Committed(s: State, content: string, port: int, id: string, source: Source): State {
    s.(revisions := s.revisions + [Revision(id, content, s.format, port, source)],
       projection := Some(Projection(content, port, id)),
       healthPort := if s.installed then Some(port) else s.healthPort)
  }

  function Left(write: Write, before: Option<string>, content: string): Option<string> {
    if write == Refused then before else Some(content)
  }

  /** Remote write, then commit, then, if the commit failed, the old content written back. */
  function Saved(ports: Ports, s: State, content: string, id: string, source: Source, fates: Fates): State {
    if ports(s.format, content).None? then s
    else if !s.installed then
      if fates.commit then Committed(s, content, ports(s.format, content).value, id, source) else s
    else if fates.write != Done then s.(file := Left(fates.write, s.file, content))
    else if fates.commit then Committed(s, content, ports(s.format, content).value, id, source).(file := Some(content))
    else s.(file := Left(fates.restore, Some(content), Current(s).content))
  }

  function Installing(s: State, fate: InstallFate): State {
    var config := Current(s);
    if s.installed then s
    else if s.mark.Some? then
      s.(installed := true, healthPort := Some(if s.mark.value == 0 then config.port else s.mark.value))
    else match fate
      case Cut(left) => s.(file := left)
      case UpsertLost => s.(file := Some(config.content), mark := Some(config.port))
      case MarkLost => s.(file := Some(config.content), mark := Some(config.port),
                          projection := Some(config))
      case Completed => s.(file := Some(config.content), mark := Some(config.port),
                           projection := Some(config), installed := true, healthPort := Some(config.port))
  }

  function Next(ports: Ports, s: State, step: Step): State {
    match step
    case Update(content, id, fates) =>
      if s.projection.Some? && s.projection.value.content == content then s
      else Saved(ports, s, content, id, Manual, fates)
    case Rollback(revision, id, fates) =>
      var target := Find(s.revisions, revision);
      if target.None? || (s.projection.Some? && s.projection.value.revision == revision) then s
      else Saved(ports, s, target.value.content, id, RolledBack(revision), fates)
    case Install(fate) => Installing(s, fate)
    case Reset(Cut(markGone)) => s.(mark := if markGone then None else s.mark)
    case Reset(MarkLost) => s.(mark := None)
    case Reset(Completed) => s.(mark := None, installed := false, healthPort := None)
    case Upload(content, port) => s.(package := Projection(content, port, ""))
    case Retype(content, port, format, file) =>
      if s.installed then s
      else s.(package := Projection(content, port, ""), format := format, projection := None, file := file,
              base := |s.revisions|)
    case Relocate(file, mark) => if s.installed then s else s.(file := file, mark := mark)
  }

  ghost predicate Fresh(s: State, step: Step) {
    (step.Update? || step.Rollback?) ==> step.id != "" && forall r | r in s.revisions :: r.id != step.id
  }

  // ----- revisions -----

  /** A rollback repeats the content of an earlier revision. */
  ghost predicate Justified(revisions: seq<Revision>, i: nat)
    requires i < |revisions|
  {
    match revisions[i].source
    case Manual => true
    case RolledBack(from) => exists j | 0 <= j < i :: revisions[j].id == from && revisions[j].content == revisions[i].content
  }

  /** A projection that names a revision is the newest one. It names one iff a revision was made
      since the service type last changed, and those revisions have the package's format; else
      it is absent or a copy of a package's config. Revision ids are distinct, rollbacks are
      justified, ports belong to contents. */
  ghost predicate Inv(ports: Ports, s: State) {
    && s.package.revision == "" && s.base <= |s.revisions|
    && (|s.revisions| == s.base ==> s.projection.Some? ==> s.projection.value.revision == "")
    && (|s.revisions| > s.base ==>
          var last := s.revisions[|s.revisions| - 1];
          s.projection == Some(Projection(last.content, last.port, last.id)))
    && (forall i | s.base <= i < |s.revisions| :: s.revisions[i].format == s.format)
    && (forall i, j | 0 <= i < j < |s.revisions| :: s.revisions[i].id != s.revisions[j].id)
    && (forall r | r in s.revisions :: r.id != "" && ports(r.format, r.content) == Some(r.port))
    && (forall i: nat {:trigger Justified(s.revisions, i)} | i < |s.revisions| :: Justified(s.revisions, i))
  }

  lemma JustifiedOneMore(revisions: seq<Revision>, r: Revision, i: nat)
    requires i <= |revisions| && (i < |revisions| ==> Justified(revisions, i))
    requires i == |revisions| && r.source.RolledBack? ==>
      exists x | x in revisions :: x.id == r.source.from && x.content == r.content
    ensures Justified(revisions + [r], i)
  {
    var more := revisions + [r];
    assert forall j | 0 <= j < |revisions| :: more[j] == revisions[j];
    if i == |revisions| && r.source.RolledBack? {
      var x :| x in revisions && x.id == r.source.from && x.content == r.content;
      var j :| 0 <= j < |revisions| && revisions[j] == x;
      assert more[j] == x;
    }
  }

  lemma CommittedKeepsInv(ports: Ports, s: State, content: string, id: string, source: Source)
    requires Inv(ports, s) && id != "" && (forall r | r in s.revisions :: r.id != id) && ports(s.format, content).Some?
    requires source.RolledBack? ==> exists r | r in s.revisions :: r.id == source.from && r.content == content
    ensures Inv(ports, Committed(s, content, ports(s.format, content).value, id, source))
  {
    var r := Revision(id, content, s.format, ports(s.format, content).value, source);
    forall i: nat | i <= |s.revisions| ensures Justified(s.revisions + [r], i) {
      assert i < |s.revisions| ==> Justified(s.revisions, i);
      JustifiedOneMore(s.revisions, r, i);
    }
  }

  lemma SavedKeepsInv(ports: Ports, s: State, content: string, id: string, source: Source, fates: Fates)
    requires Inv(ports, s) && id != "" && forall r | r in s.revisions :: r.id != id
    requires source.RolledBack? ==> exists r | r in s.revisions :: r.id == source.from && r.content == content
    ensures Inv(ports, Saved(ports, s, content, id, source, fates))
  {
    if ports(s.format, content).Some? {
      CommittedKeepsInv(ports, s, content, id, source);
    }
    forall i: nat | i < |s.revisions| ensures Justified(s.revisions, i) {
    }
  }

  /** Every step keeps the invariant. */
  lemma NextKeepsInv(ports: Ports, s: State, step: Step)
    requires Inv(ports, s) && Fresh(s, step)
    ensures Inv(ports, Next(ports, s, step))
  {
    match step
    case Update(content, id, fates) =>
      SavedKeepsInv(ports, s, content, id, Manual, fates);
    case Rollback(revision, id, fates) =>
      var target := Find(s.revisions, revision);
      if target.Some? {
        SavedKeepsInv(ports, s, target.value.content, id, RolledBack(revision), fates);
      }
    case _ => SameRevisionsKeepInv(ports, s, Next(ports, s, step));
  }

  lemma SameRevisionsKeepInv(ports: Ports, s: State, t: State)
    requires Inv(ports, s) && t.revisions == s.revisions && t.package.revision == ""
    requires (t.base == s.base && t.format == s.format
              && (t.projection == s.projection || (s.projection.None? && t.projection == Some(s.package))))
             || (t.base == |s.revisions| && t.projection.None?)
    ensures Inv(ports, t)
  {
    forall i: nat | i < |t.revisions| ensures Justified(t.revisions, i) {
      assert Justified(s.revisions, i);
    }
  }

  /** A step only ever appends: at most one revision, made by a save, whose content, for a
      rollback, is that of the revision named. */
  lemma RevisionsAreAppendOnly(ports: Ports, s: State, step: Step)
    ensures var t := Next(ports, s, step);
      && s.revisions <= t.revisions && |t.revisions| <= |s.revisions| + 1
      && (t.revisions != s.revisions ==> step.Update? || step.Rollback?)
      && (step.Rollback? && t.revisions != s.revisions ==>
            Find(s.revisions, step.revision).Some?
            && Current(t).content == Find(s.revisions, step.revision).value.content)
  {
  }

  /** Whatever chain of rollbacks led to it, the content of every revision was entered by hand
      in a revision at or before it. */
  lemma {:induction false} EveryContentWasEntered(ports: Ports, s: State, i: nat)
    requires Inv(ports, s) && i < |s.revisions|
    ensures exists j | 0 <= j <= i :: s.revisions[j].source == Manual && s.revisions[j].content == s.revisions[i].content
    decreases i
  {
    assert Justified(s.revisions, i);
    if s.revisions[i].source.RolledBack? {
      var j: nat :| j < i && s.revisions[j].id == s.revisions[i].source.from && s.revisions[j].content == s.revisions[i].content;
      EveryContentWasEntered(ports, s, j);
    }
  }

  // ----- the host -----

  /** On an installed environment the file on the host is the current config. */
  predicate Agrees(s: State) {
    s.installed ==> s.file == Some(Current(s).content)
  }

  /** A save that leaves its own content on the host without committing it. */
  predicate Strays(s: State, content: string, fates: Fates) {
    && s.installed && content != Current(s).content
    && (fates.write == ReplyLost || (fates.write == Done && !fates.commit && fates.restore == Refused))
  }

  /** The steps after which host and projection differ: a stray write; an install that finds
      its work already done, with another config than the current one; a new package under
      an installed environment that has no config row of its own. */
  predicate Parts(ports: Ports, s: State, step: Step) {
    match step
    case Update(content, _, fates) => ports(s.format, content).Some? && Strays(s, content, fates)
    case Rollback(revision, _, fates) =>
      var target := Find(s.revisions, revision);
      target.Some? && !(s.projection.Some? && s.projection.value.revision == revision)
      && ports(s.format, target.value.content).Some? && Strays(s, target.value.content, fates)
    case Install(_) => !s.installed && s.mark.Some? && s.file != Some(Current(s).content)
    case Reset(_) => false
    case Upload(content, _) => s.installed && s.projection.None? && content != s.package.content
    case Retype(_, _, _, _) => false
    case Relocate(_, _) => false
  }

  lemma SaveAgreesIff(ports: Ports, s: State, content: string, id: string, source: Source, fates: Fates)
    requires Agrees(s)
    ensures Agrees(Saved(ports, s, content, id, source, fates)) <==> !(ports(s.format, content).Some? && Strays(s, content, fates))
  {
  }

  /** From agreement, a step keeps host and projection in agreement iff it is not one of those. */
  lemma StepAgreesIff(ports: Ports, s: State, step: Step)
    requires Agrees(s)
    ensures Agrees(Next(ports, s, step)) <==> !Parts(ports, s, step)
  {
    match step
    case Update(content, id, fates) => SaveAgreesIff(ports, s, content, id, Manual, fates);
    case Rollback(revision, id, fates) =>
      var target := Find(s.revisions, revision);
      if target.Some? {
        SaveAgreesIff(ports, s, target.value.content, id, RolledBack(revision), fates);
      }
    case _ =>
  }

  ghost predicate Careful(ports: Ports, s: State, steps: seq<Step>)
    decreases |steps|
  {
    steps == [] || (Fresh(s, steps[0]) && !Parts(ports, s, steps[0]) && Careful(ports, Next(ports, s, steps[0]), steps[1..]))
  }

  function After(ports: Ports, s: State, steps: seq<Step>): State
    decreases |steps|
  {
    if steps == [] then s else After(ports, Next(ports, s, steps[0]), steps[1..])
  }

  /** Over any run without such a step, failed writes and compensated commits included, the
      host agrees, the invariant holds and no revision is ever lost or changed. */
  lemma {:induction false} CarefulRunsAgree(ports: Ports, s: State, steps: seq<Step>)
    requires Agrees(s) && Inv(ports, s) && Careful(ports, s, steps)
    ensures var t := After(ports, s, steps); Agrees(t) && Inv(ports, t) && s.revisions <= t.revisions
    decreases |steps|
  {
    if steps != [] {
      StepAgreesIff(ports, s, steps[0]);
      NextKeepsInv(ports, s, steps[0]);
      RevisionsAreAppendOnly(ports, s, steps[0]);
      CarefulRunsAgree(ports, Next(ports, s, steps[0]), steps[1..]);
    }
  }

  /** A committed save on an installed environment ends any disagreement; but entering the
      current content again does not, because it is taken for no change. */
  lemma HealsOnlyByANewCommit(ports: Ports, s: State, content: string, id: string, fates: Fates)
    requires s.installed && s.projection.Some?
    ensures content == Current(s).content ==> Next(ports, s, Update(content, id, fates)) == s
    ensures content != Current(s).content && ports(s.format, content).Some? && fates.write == Done && fates.commit ==>
      var t := Next(ports, s, Update(content, id, fates)); Agrees(t) && Current(t).content == content
  {
  }

  /** A write whose reply is lost after it took effect is not undone: the host keeps the new
      content, the database the old one, and saving the old one again changes nothing. */
  lemma LostReplyIsNotCompensated(ports: Ports, s: State, content: string, id: string, commit: bool,
                                  restore: Write, id': string, fates': Fates)
    requires s.installed && s.projection.Some? && ports(s.format, content).Some? && content != Current(s).content
    ensures var t := Next(ports, s, Update(content, id, Fates(ReplyLost, commit, restore)));
      && !Agrees(t) && t.file == Some(content) && t.projection == s.projection && t.revisions == s.revisions
      && Next(ports, t, Update(Current(s).content, id', fates')) == t
  {
  }

  /** A config edited after an install whose database write was lost: the next install finds
      the marker, records the environment as installed, and leaves the earlier config on the host. */
  lemma EditBeforeHealedInstall(ports: Ports, s: State, content: string, id: string, fates: Fates)
    requires !s.installed && s.mark.None? && fates.commit
    requires ports(s.format, content).Some? && content != Current(s).content
    ensures var t := After(ports, s, [Install(InstallFate.MarkLost), Update(content, id, fates), Install(InstallFate.Completed)]);
      t.installed && t.file == Some(Current(s).content) && Current(t).content == content && !Agrees(t)
  {
    var a := Next(ports, s, Install(InstallFate.MarkLost));
    var b := Next(ports, a, Update(content, id, fates));
    var c := Next(ports, b, Install(InstallFate.Completed));
    var steps := [Install(InstallFate.MarkLost), Update(content, id, fates), Install(InstallFate.Completed)];
    assert steps[1..] == [Update(content, id, fates), Install(InstallFate.Completed)];
    assert steps[1..][1..] == [Install(InstallFate.Completed)];
    assert After(ports, b, [Install(InstallFate.Completed)]) == After(ports, c, []);
  }

  /** After a change of service type the next install copies the new package's config: revisions
      exist, the projection names none of them, and each can be rolled back to. */
  lemma RetypedInstallNamesNoRevision(ports: Ports, s: State, content: string, port: int, format: string, file: Option<string>)
    requires Inv(ports, s) && !s.installed && s.mark.None?
    ensures var t := After(ports, s, [Retype(content, port, format, file), Install(InstallFate.Completed)]);
      t.installed && Agrees(t) && t.revisions == s.revisions && t.projection == Some(Projection(content, port, ""))
      && forall r | r in t.revisions :: Current(t).revision != r.id
  {
    var a := Next(ports, s, Retype(content, port, format, file));
    var steps := [Retype(content, port, format, file), Install(InstallFate.Completed)];
    assert steps[1..] == [Install(InstallFate.Completed)];
    assert After(ports, a, steps[1..]) == After(ports, Next(ports, a, Install(InstallFate.Completed)), []);
  }

  /** The health port of an installed environment is the port of its current config. */
  predicate PortAgrees(s: State) {
    s.installed ==> s.healthPort == Some(Current(s).port)
  }

  lemma PortAgreesIff(ports: Ports, s: State, step: Step)
    requires PortAgrees(s)
    ensures PortAgrees(Next(ports, s, step)) <==>
      !(step.Install? && !s.installed && s.mark.Some? && s.mark.value != 0 && s.mark.value != Current(s).port)
      && !(step.Upload? && s.installed && s.projection.None? && step.port != s.package.port)
  {
  }

  /** The outcome of one save. It goes through iff the content is valid, the host, if there is one,
      confirmed the write, and the database committed: then revision, projection, health port and
      file are all the new content's. Otherwise the database is as it was, and the file is the old
      one unless the host wrote without confirming or could not be written back. */
  ghost predicate SaveMeans(ports: Ports, s: State, t: State, content: string, id: string, source: Source, fates: Fates, ok: bool) {
    var port := ports(s.format, content);
    && (ok <==> port.Some? && fates.commit && (s.installed ==> fates.write == Done))
    && t == s.(revisions := t.revisions, projection := t.projection, healthPort := t.healthPort, file := t.file)
    && if ok then
         && t.revisions == s.revisions + [Revision(id, content, s.format, port.value, source)]
         && t.projection == Some(Projection(content, port.value, id))
         && (if s.installed then t.healthPort == port && t.file == Some(content)
             else t.healthPort == s.healthPort && t.file == s.file)
       else
         && t.revisions == s.revisions && t.projection == s.projection && t.healthPort == s.healthPort
         && t.file == if !s.installed || port.None? || fates.write == Refused then s.file
                      else if fates.write == Done && fates.restore != Refused
                      then Some(if s.projection.Some? then s.projection.value.content else s.package.content)
                      else Some(content)
  }

  /** The outcome of one install: refused when installed; taken over from a marker without touching
      the host; or, if nothing was lost, the current config on the host, in the marker and in the
      row. A lost record leaves the marker and an environment that is not installed. */
  ghost predicate InstallMeans(s: State, t: State, fate: InstallFate, ok: bool) {
    var config := if s.projection.Some? then s.projection.value else s.package;
    && (ok <==> !s.installed && s.mark.None? && fate.Completed?)
    && t.revisions == s.revisions && t.package == s.package && t.format == s.format && t.base == s.base
    && (s.installed ==> t == s)
    && (!s.installed && s.mark.Some? ==>
          t.installed && t.healthPort == Some(if s.mark.value == 0 then config.port else s.mark.value)
          && t.file == s.file && t.mark == s.mark && t.projection == s.projection)
    && (!s.installed && s.mark.None? ==>
          && t.installed == ok && t.healthPort == (if ok then Some(config.port) else s.healthPort)
          && (if fate.Cut? then t.mark.None? && t.file == fate.left
              else t.mark == Some(config.port) && t.file == Some(config.content))
          && t.projection == if fate.Cut? || fate.UpsertLost? then s.projection else Some(config))
  }

  class Environment {
    const ports: Ports
    var revisions: seq<Revision>
    var projection: Option<Projection>
    var package: Projection
    var format: string
    var installed: bool
    var healthPort: Option<int>
    var file: Option<string>
    var mark: Option<int>
    ghost var base: nat

    constructor (ports: Ports, content: string, port: int, format: string)
      ensures this.ports == ports && Inv(ports, View()) && Agrees(View()) && PortAgrees(View())
    {
      this.ports := ports;
      revisions, projection, package, this.format := [], None, Projection(content, port, ""), format;
      base := 0;
      installed, healthPort, file, mark := false, None, None, None;
    }

    ghost function View(): State
      reads this
    {
      State(revisions, projection, package, format, installed, healthPort, file, mark, base)
    }

    method WriteConfig(content: string, fate: Write) returns (ok: bool)
      modifies this`file
      ensures file == Left(fate, old(file), content) && ok == (fate == Done)
      ensures file == if fate == Refused then old(file) else Some(content)
    {
      if fate != Refused {
        file := Some(content);
      }
      ok := fate == Done;
    }

    /** One transaction: the revision, the projection and the health port, or nothing. */
    method SaveRevision(content: string, port: int, id: string, source: Source, commit: bool)
      modifies this`revisions, this`projection, this`healthPort
      ensures View() == if commit then Committed(old(View()), content, port, id, source) else old(View())
      ensures commit ==> revisions == old(revisions) + [Revision(id, content, format, port, source)]
                         && projection == Some(Projection(content, port, id))
                         && healthPort == if installed then Some(port) else old(healthPort)
    {
      if commit {
        revisions := revisions + [Revision(id, content, format, port, source)];
        projection := Some(Projection(content, port, id));
        if installed {
          healthPort := Some(port);
        }
      }
    }

    method Save(content: string, id: string, source: Source, fates: Fates) returns (ok: bool)
      modifies this
      ensures View() == Saved(ports, old(View()), content, id, source, fates)
      ensures SaveMeans(ports, old(View()), View(), content, id, source, fates, ok)
    {
      var current := if projection.Some? then projection.value else package;
      var port := ports(format, content);
      if port.None? {
        return false;
      }
      if installed {
        var written := WriteConfig(content, fates.write);
        if !written {
          return false;
        }
      }
      SaveRevision(content, port.value, id, source, fates.commit);
      if !fates.commit {
        if installed {
          var restored := WriteConfig(current.content, fates.restore);
        }
        return false;
      }
      ok := true;
    }

    method Update(content: string, id: string, fates: Fates) returns (ok: bool)
      modifies this
      ensures View() == Next(ports, old(View()), Step.Update(content, id, fates))
      ensures ok ==> projection.Some? && projection.value.content == content
      ensures if old(projection).Some? && old(projection).value.content == content then ok && View() == old(View())
              else SaveMeans(ports, old(View()), View(), content, id, Manual, fates, ok)
    {
      if projection.Some? && projection.value.content == content {
        return true;
      }
      ok := Save(content, id, Manual, fates);
    }

    method GetRevision(id: string) returns (r: Option<Revision>)
      ensures r == Find(revisions, id)
      ensures match r
        case None => forall x | x in revisions :: x.id != id
        case Some(x) => exists i | 0 <= i < |revisions| :: revisions[i] == x && x.id == id && forall j | 0 <= j < i :: revisions[j].id != id
    {
      r := None;
      for i := 0 to |revisions|
        invariant r == None && Find(revisions[i..], id) == Find(revisions, id)
        invariant forall j | 0 <= j < i :: revisions[j].id != id
      {
        assert revisions[i..][1..] == revisions[i + 1..];
        if revisions[i].id == id {
          return Some(revisions[i]);
        }
      }
    }

    method Rollback(revision: string, id: string, fates: Fates) returns (ok: bool)
      modifies this
      ensures View() == Next(ports, old(View()), Step.Rollback(revision, id, fates))
      ensures ok ==> |revisions| == |old(revisions)| + 1 && revisions[|old(revisions)|].source == RolledBack(revision)
      ensures if (forall x | x in old(revisions) :: x.id != revision)
                 || (old(projection).Some? && old(projection).value.revision == revision)
              then !ok && View() == old(View())
              else exists x | x in old(revisions) && x.id == revision ::
                     SaveMeans(ports, old(View()), View(), x.content, id, RolledBack(revision), fates, ok)
    {
      var target := GetRevision(revision);
      if target.None? {
        return false;
      }
      if projection.Some? && projection.value.revision == revision {
        return false;
      }
      ok := Save(target.value.content, id, RolledBack(revision), fates);
    }

    method Install(fate: InstallFate) returns (ok: bool)
      modifies this
      ensures View() == Next(ports, old(View()), Step.Install(fate))
      ensures ok ==> installed && Agrees(View()) && PortAgrees(View())
      ensures InstallMeans(old(View()), View(), fate, ok)
    {
      if installed {
        return false;
      }
      var config := if projection.Some? then projection.value else package;
      if mark.Some? {
        var port := mark.value;
        if port == 0 {
          port := config.port;
        }
        installed, healthPort := true, Some(port);
        return false;
      }
      if fate.Cut? {
        file := fate.left;
        return false;
      }
      file, mark := Some(config.content), Some(config.port);
      if projection.None? {
        if fate.UpsertLost? {
          return false;
        }
        projection := Some(config);
      } else if fate.UpsertLost? {
        return false;
      }
      if fate.MarkLost? {
        return false;
      }
      installed, healthPort := true, Some(config.port);
      ok := true;
    }

    method Reset(fate: ResetFate) returns (ok: bool)
      modifies this`mark, this`installed, this`healthPort
      ensures View() == Next(ports, old(View()), Step.Reset(fate))
      ensures ok <==> fate.Completed?
      ensures mark == if fate.Cut? && !fate.markGone then old(mark) else None
      ensures if ok then !installed && healthPort.None? else installed == old(installed) && healthPort == old(healthPort)
    {
      if fate.Cut? {
        if fate.markGone {
          mark := None;
        }
        return false;
      }
      mark := None;
      if fate.MarkLost? {
        return false;
      }
      installed, healthPort := false, None;
      ok := true;
    }

    /** EnvironmentService.Update with another service type: refused while installed, otherwise the
        config row goes and the revisions stay. `seen` is what the host has at the config path of
        the new package. */
    method Retype(content: string, port: int, newFormat: string, seen: Option<string>) returns (ok: bool)
      modifies this
      ensures View() == Next(ports, old(View()), Step.Retype(content, port, newFormat, seen))
      ensures ok <==> !old(installed)
      ensures ok ==> projection.None? && revisions == old(revisions) && package == Projection(content, port, "")
                     && format == newFormat && file == seen && mark == old(mark) && !installed && healthPort == old(healthPort)
      ensures !ok ==> View() == old(View())
    {
      if installed {
        return false;
      }
      package, format, file := Projection(content, port, ""), newFormat, seen;
      projection := None;
      base := |revisions|;
      ok := true;
    }

    /** The same with another server or install directory: what is there is another host's. */
    method Relocate(seen: Option<string>, marked: Option<int>) returns (ok: bool)
      modifies this`file, this`mark
      ensures View() == Next(ports, old(View()), Step.Relocate(seen, marked)) && ok == !installed
      ensures if ok then file == seen && mark == marked else file == old(file) && mark == old(mark)
    {
      ok := !installed;
      if ok {
        file, mark := seen, marked;
      }
    }
  }
}
