/** The marker protocol of remote Install and Reset.

    The install directory of a host is a map from paths to files.  DP keeps two markers
    in it and the columns installed / sha / port in its own table.  Every remote call and
    every table write can be cut: before it takes effect, or after it did but before the
    answer arrived.  A host that vanishes, a dropped connection and a killed server are
    all sequences of such cuts.
 */
module RemoteMarkers {
  import opened Prelude

  const INSTALLED := ".dp-installed.json"
  const INSTALLING := ".dp-installing.json"

  datatype File =
    | InstalledMark(sha: string, port: nat)
    | StartedMark(sha: string)          // installing marker written by Install
    | ResetMark                         // installing marker written by Reset
    | Data(content: string)             // payload, temporary and foreign files

  type Dir = map<string, File>

  datatype Package = Package(sha: string, files: Dir)

  datatype Config = Config(path: string, content: string, port: nat)

  datatype Db = Db(installed: bool, sha: string, port: Option<nat>)

  const UNINSTALLED := Db(false, "", None)

  /** A remote directory and the row DP keeps about it. */
  datatype World = World(dir: Dir, db: Db)

  /** What becomes of one remote call or table write.  A cut extraction leaves the
      entries named in `part`. */
  datatype Fate = Done | Cut(applied: bool, part: set<string>)

  datatype Error =
    | Existing(sha: string, port: nat)   // ExistingInstallationError
    | DirectoryNotEmpty                  // INSTALL_DIR_NOT_EMPTY
    | Failed

  /** What the directory went through, in order. */
  datatype Event =
    | Marked(file: File, beside: set<string>)   // an installing marker appeared beside these entries
    | Extracted
    | Ran(script: string, dir: Dir)           // a script ran to a successful end in this directory

  /** Temporary names of one attempt; their suffix is a nanosecond clock reading. */
  datatype Names = Names(claim: string, package: string, config: string, done: string)

  predicate Fresh(names: Names, dir: Dir, pkg: Package, config: Config) {
    var all := {names.claim, names.package, names.config, names.done};
    && names.claim != names.package && names.package != names.config && names.config != names.done
    && names.claim != names.config && names.claim != names.done && names.package != names.done
    && all !! dir.Keys && all !! pkg.files.Keys && all !! {INSTALLED, INSTALLING, config.path}
  }

  /** What decoding a marker yields; an undecodable file yields the zero values. */
  function Decode(file: File): Error {
    if file.InstalledMark? then Existing(file.sha, file.port) else Existing("", 0)
  }

  predicate DpMarker(file: File) {
    file.StartedMark? || file.ResetMark?
  }

  /** Reading the file as an installed marker yields neither zero value. */
  predicate Legible(file: File) {
    file.InstalledMark? && file.sha != "" && file.port > 0
  }

  /** Marker names hold what DP writes under them. */
  predicate Sound(dir: Dir) {
    && (INSTALLED in dir ==> Legible(dir[INSTALLED]))
    && (INSTALLING in dir ==> DpMarker(dir[INSTALLING]))
  }

  /** Configuration paths are among four fixed ones and ports start at 1. */
  predicate Proper(pkg: Package, config: Config) {
    config.path != INSTALLED && config.path != INSTALLING && config.port > 0 && pkg.sha != ""
  }

  /** An archive that brings no marker of its own. */
  predicate Plain(pkg: Package) {
    INSTALLED !in pkg.files && INSTALLING !in pkg.files
  }

  predicate Brings(pkg: Package, name: string, file: File) {
    name in pkg.files && pkg.files[name] == file
  }

  /** The installed marker an install can leave: the archive's own comes first. */
  function MarkLeft(pkg: Package, config: Config): File {
    if INSTALLED in pkg.files then pkg.files[INSTALLED] else InstalledMark(pkg.sha, config.port)
  }

  /** The row says what the marker says. */
  predicate Matches(db: Db, file: File) {
    file.InstalledMark? && db == Db(true, file.sha, Some(file.port))
  }

  /** The directory and the table agree on installed, sha and port. */
  predicate Agree(w: World) {
    if INSTALLED in w.dir then Matches(w.db, w.dir[INSTALLED]) else !w.db.installed
  }

  /** Some installing marker was put into an empty directory or by a reset. */
  ghost predicate Entitled(log: seq<Event>) {
    exists j | 0 <= j < |log| :: log[j].Marked? && (log[j].file.ResetMark? || log[j].beside == {})
  }

  /** Nothing was extracted before DP was entitled to the directory. */
  ghost predicate Rightful(log: seq<Event>) {
    forall i | 0 <= i < |log| && log[i].Extracted? :: Entitled(log[..i])
  }

  ghost predicate Tracked(dir: Dir, log: seq<Event>) {
    Rightful(log) && (INSTALLING in dir ==> Entitled(log))
  }

  lemma EntitledGrows(log: seq<Event>, event: Event)
    ensures Entitled(log) ==> Entitled(log + [event])
    ensures event.Marked? && (event.file.ResetMark? || event.beside == {}) ==> Entitled(log + [event])
  {
    if Entitled(log) {
      var j :| 0 <= j < |log| && log[j].Marked? && (log[j].file.ResetMark? || log[j].beside == {});
      assert (log + [event])[j] == log[j];
    }
    assert (log + [event])[|log|] == event;
  }

  lemma RightfulGrows(log: seq<Event>, event: Event)
    ensures Rightful(log) && (event.Extracted? ==> Entitled(log)) ==> Rightful(log + [event])
  {
    var longer := log + [event];
    if !(Rightful(log) && (event.Extracted? ==> Entitled(log))) {
      return;
    }
    forall i | 0 <= i < |longer| && longer[i].Extracted? ensures Entitled(longer[..i]) {
      if i < |log| {
        assert longer[..i] == log[..i];
      } else {
        assert longer[..i] == log;
      }
    }
  }

  lemma MarkKeepsTracked(d: Dir, log: seq<Event>, file: File, d': Dir, log': seq<Event>)
    requires file.ResetMark? || d == map[] || log' == log
    requires log' == log || exists beside :: log' == log + [Marked(file, beside)] && (file.ResetMark? || beside == {})
    requires INSTALLING in d' && INSTALLING !in d ==> log' != log
    ensures Tracked(d, log) ==> Tracked(d', log')
  {
    if log' != log {
      var beside :| log' == log + [Marked(file, beside)] && (file.ResetMark? || beside == {});
      EntitledGrows(log, Marked(file, beside));
      RightfulGrows(log, Marked(file, beside));
    }
  }

  lemma ExtractKeepsTracked(d: Dir, log: seq<Event>, d': Dir, log': seq<Event>)
    requires INSTALLING in d
    requires log' == log || log' == log + [Extracted]
      || (|log'| == |log| + 2 && log' == log + [Extracted, log'[|log| + 1]] && log'[|log| + 1].Ran?)
    ensures Tracked(d, log) ==> Tracked(d', log')
  {
    EntitledGrows(log, Extracted);
    RightfulGrows(log, Extracted);
    if |log'| == |log| + 2 {
      assert log' == log + [Extracted] + [log'[|log| + 1]];
      RanKeepsTracked(d', log + [Extracted], log'[|log| + 1]);
    }
  }

  lemma RanKeepsTracked(d: Dir, log: seq<Event>, e: Event)
    requires e.Ran?
    ensures Tracked(d, log) ==> Tracked(d, log + [e])
  {
    EntitledGrows(log, e);
    RightfulGrows(log, e);
  }

  // ----- what one attempt does -----

  /** Effect of remote.Install on the directory, whatever was cut. */
  ghost predicate InstallEffect(d: Dir, pkg: Package, config: Config, clean: bool, d': Dir, r: Result<bool, Error>) {
    // A marked installation is reported, never touched.
    && (INSTALLED in d ==>
          d' == d && r.Err?
          && (r.error.Existing? ==> r.error == Decode(d[INSTALLED]) || r.error == Existing("", 0))
          && (clean ==> r.error == Decode(d[INSTALLED])))
    && (INSTALLED !in d && r.Err? ==> !r.error.Existing?)
    // A directory with unknown content and no installing marker is refused, never touched.
    && (INSTALLED !in d && INSTALLING !in d && d != map[] ==>
          d' == d && r.Err? && (clean ==> r.error.DirectoryNotEmpty?))
    && (r.Err? && r.error.DirectoryNotEmpty? ==> d != map[] && d' == d)
    // Success means everything was put in place.
    && (r.Ok? ==>
          && INSTALLED in d' && d'[INSTALLED] == InstalledMark(pkg.sha, config.port)
          && config.path in d' && d'[config.path] == Data(config.content)
          && forall n | n in pkg.files && n != config.path && n != INSTALLING :: n in d' && d'[n] == pkg.files[n])
    && (r.Ok? ==> INSTALLED !in pkg.files)
    && (clean && INSTALLED !in d && (d == map[] || INSTALLING in d) ==>
          (r.Ok? <==> INSTALLED !in pkg.files))
    && (clean && r.Ok? ==> INSTALLING !in d')
    // A marker is as it was, as DP writes it, or as the archive brings it.
    && (INSTALLED !in d && INSTALLED in d' ==>
          d'[INSTALLED] == MarkLeft(pkg, config))
    && (INSTALLING in d' ==>
          || (INSTALLING in d && d'[INSTALLING] == d[INSTALLING])
          || d'[INSTALLING] == StartedMark(pkg.sha) || Brings(pkg, INSTALLING, d'[INSTALLING]))
    // Nothing else is removed or overwritten.
    && (forall n | n in d && n !in pkg.files && n !in {INSTALLED, INSTALLING, config.path} :: n in d' && d'[n] == d[n])
  }

  /** Effect of remote.ResetInstallation on the directory, whatever was cut. */
  ghost predicate ResetEffect(d: Dir, clean: bool, d': Dir, ok: bool) {
    && (ok ==> INSTALLED !in d' && INSTALLING in d' && d'[INSTALLING] == ResetMark)
    && (clean ==> ok)
    && (INSTALLED in d' ==> INSTALLED in d && d'[INSTALLED] == d[INSTALLED])
    && (INSTALLING in d' ==> d'[INSTALLING] == ResetMark || (INSTALLING in d && d'[INSTALLING] == d[INSTALLING]))
    && (forall n | n in d && n !in {INSTALLED, INSTALLING} :: n in d' && d'[n] == d[n])
  }

  /** The row written when the host turns out to be installed already; a marker that
      could not be read leaves the caller's own values. */
  function Healed(sha: string, port: nat, pkg: Package, config: Config): Db {
    Db(true, if sha == "" then pkg.sha else sha, Some(if port == 0 then config.port else port))
  }

  /** An install operation on directory and table. */
  ghost predicate InstallRun(w: World, pkg: Package, config: Config, clean: bool, w': World, r: Result<bool, Error>) {
    && InstallEffect(w.dir, pkg, config, clean, w'.dir, r)
    && match r
       case Ok(_) =>
         var done := Db(true, pkg.sha, Some(config.port));
         (w'.db == w.db || w'.db == done) && (clean ==> w'.db == done)
       case Err(Existing(sha, port)) =>
         var healed := Healed(sha, port, pkg, config);
         (w'.db == w.db || w'.db == healed) && (clean ==> w'.db == healed)
       case Err(_) => w'.db == w.db
  }

  /** A reset operation on directory and table; `ok` also covers the table write. */
  ghost predicate ResetRun(w: World, clean: bool, w': World, ok: bool) {
    exists reset: bool ::
      && ResetEffect(w.dir, clean, w'.dir, reset)
      && (w'.db == w.db || (reset && w'.db == UNINSTALLED))
      && (ok ==> reset && w'.db == UNINSTALLED)
      && (clean ==> ok)
  }

  /** The package was extracted, its config written, and then its install.sh, or without one its
      start.sh, ran to a successful end. */
  ghost predicate Prepared(before: seq<Event>, after: seq<Event>, pkg: Package, config: Config) {
    exists d: Dir ::
      && after == before + [Extracted, Ran(if "install.sh" in pkg.files then "install.sh" else "start.sh", d)]
      && config.path in d && d[config.path] == Data(config.content)
      && forall n | n in pkg.files && n != config.path :: n in d && d[n] == pkg.files[n]
  }

  /** The last the attempt did before its markers was to prepare the service. */
  ghost predicate Served(before: seq<Event>, after: seq<Event>, pkg: Package, config: Config) {
    exists claimed :: before <= claimed && Prepared(claimed, after, pkg, config)
  }

  // ----- recovery and agreement -----

  /** From any directory and any row whatever, one uncut reset followed by one uncut
      install ends installed and in agreement, unless the archive itself brings an
      installed marker, in which case that install always fails. */
  lemma ResetThenInstallRecovers(w: World, w1: World, ok: bool, pkg: Package, config: Config, w2: World, r: Result<bool, Error>)
    requires ResetRun(w, true, w1, ok) && InstallRun(w1, pkg, config, true, w2, r)
    ensures r.Ok? <==> INSTALLED !in pkg.files
    ensures r.Ok? ==> Agree(w2) && w2.db == Db(true, pkg.sha, Some(config.port)) && INSTALLED in w2.dir
                      && INSTALLING !in w2.dir
  {
  }

  /** An installation whose table write was lost is taken over from its marker by the
      next uncut install, which does not touch the host. */
  lemma LostWriteIsHealed(w: World, pkg: Package, config: Config, w': World, r: Result<bool, Error>)
    requires INSTALLED in w.dir && Sound(w.dir) && InstallRun(w, pkg, config, true, w', r)
    ensures Agree(w') && w'.dir == w.dir && r.Err? && r.error.Existing?
  {
  }

  /** A reset whose table write was lost is completed by the next uncut reset. */
  lemma LostResetIsHealed(w: World, w': World, ok: bool)
    requires ResetRun(w, true, w', ok)
    ensures Agree(w') && !w'.db.installed
  {
  }

  /** Without a reset an install can proceed exactly from an empty or a marked directory;
      temporary files of a cut marker write already make it refuse. */
  lemma InstallAloneProceedsIff(w: World, pkg: Package, config: Config, w': World, r: Result<bool, Error>)
    requires INSTALLED !in w.dir && INSTALLED !in pkg.files && InstallRun(w, pkg, config, true, w', r)
    ensures r.Ok? <==> w.dir == map[] || INSTALLING in w.dir
    ensures r.Err? ==> r.error.DirectoryNotEmpty? && w' == w
  {
  }

  datatype Attempt =
    | TryInstall(pkg: Package, config: Config, r: Result<bool, Error>)
    | TryReset(ok: bool)

  ghost predicate Attempted(w: World, a: Attempt, w': World) {
    match a
    case TryInstall(pkg, config, r) =>
      Proper(pkg, config) && exists clean :: InstallRun(w, pkg, config, clean, w', r)
    case TryReset(ok) => exists clean :: ResetRun(w, clean, w', ok)
  }

  /** A history of attempts, each of them cut anywhere or nowhere. */
  ghost predicate History(ws: seq<World>, attempts: seq<Attempt>) {
    && |ws| == |attempts| + 1
    && INSTALLED !in ws[0].dir && INSTALLING !in ws[0].dir && !ws[0].db.installed
    && forall i | 0 <= i < |attempts| :: Attempted(ws[i], attempts[i], ws[i + 1])
  }

  lemma AttemptKeepsSound(w: World, a: Attempt, w': World)
    requires Sound(w.dir) && Attempted(w, a, w') && (a.TryInstall? ==> Plain(a.pkg))
    ensures Sound(w'.dir)
  {
  }

  /** With archives that bring no markers, the marker names always hold what DP wrote. */
  lemma {:induction false} HistoriesAreSound(ws: seq<World>, attempts: seq<Attempt>, n: nat)
    requires History(ws, attempts) && n < |ws|
    requires forall i | 0 <= i < |attempts| && attempts[i].TryInstall? :: Plain(attempts[i].pkg)
    ensures Sound(ws[n].dir)
  {
    if n > 0 {
      HistoriesAreSound(ws, attempts, n - 1);
      assert Attempted(ws[n - 1], attempts[n - 1], ws[n]);
      AttemptKeepsSound(ws[n - 1], attempts[n - 1], ws[n]);
    }
  }

  /** Directory and row never contradict each other about what is installed. */
  predicate Truthful(w: World) {
    INSTALLED in w.dir && w.db.installed ==> Agree(w)
  }

  /** What one can check before an install: a marker that is there is the one the install would
      write itself; and if the row says installed while the directory is free for use, the row
      is that of the marker the install would leave. */
  predicate Harmless(w: World, pkg: Package, config: Config) {
    if INSTALLED in w.dir then w.dir[INSTALLED] == InstalledMark(pkg.sha, config.port)
    else w.db.installed && Free(w.dir) ==> Matches(w.db, MarkLeft(pkg, config))
  }

  /** The directory is empty or carries the installing marker. */
  predicate Free(dir: Dir) {
    INSTALLED !in dir && (dir == map[] || INSTALLING in dir)
  }

  ghost predicate Installs(w: World, pkg: Package, config: Config, w': World) {
    exists clean, r :: InstallRun(w, pkg, config, clean, w', r)
  }

  /** Every way an install can be cut keeps marker and row from contradicting each other iff
      that check holds. */
  lemma InstallIsTruthfulIff(w: World, pkg: Package, config: Config)
    requires Truthful(w) && Proper(pkg, config)
    ensures Harmless(w, pkg, config) <==> forall w' | Installs(w, pkg, config, w') :: Truthful(w')
  {
    if Harmless(w, pkg, config) {
      forall w' | Installs(w, pkg, config, w') ensures Truthful(w') {
        var clean, r :| InstallRun(w, pkg, config, clean, w', r);
        HarmlessInstall(w, pkg, config, clean, w', r);
      }
    } else if INSTALLED in w.dir {
      UnreadMarkerMisleads(w, pkg, config);
    } else if INSTALLED in pkg.files {
      ForeignMarkerMisleads(w, pkg, config);
    } else {
      StaleRowMisleads(w, pkg, config);
    }
  }

  lemma HarmlessInstall(w: World, pkg: Package, config: Config, clean: bool, w': World, r: Result<bool, Error>)
    requires Truthful(w) && Proper(pkg, config) && Harmless(w, pkg, config)
    requires InstallRun(w, pkg, config, clean, w', r)
    ensures Truthful(w')
  {
  }

  /** A marker that is seen but cannot be read is recorded with the values of the caller. */
  lemma UnreadMarkerMisleads(w: World, pkg: Package, config: Config)
    requires INSTALLED in w.dir && Proper(pkg, config)
    requires w.dir[INSTALLED] != InstalledMark(pkg.sha, config.port)
    ensures var after := World(w.dir, Db(true, pkg.sha, Some(config.port)));
      InstallRun(w, pkg, config, false, after, Err(Existing("", 0))) && Installs(w, pkg, config, after) && !Truthful(after)
  {
    assert InstallRun(w, pkg, config, false, World(w.dir, Db(true, pkg.sha, Some(config.port))), Err(Existing("", 0)));
  }

  /** What a successful install leaves in a directory it may use. */
  function Deployed(dir: Dir, pkg: Package, config: Config): Dir {
    ((dir + pkg.files)[config.path := Data(config.content)])[INSTALLED := InstalledMark(pkg.sha, config.port)] - {INSTALLING}
  }

  /** An install begun on a row that still says installed writes its marker beside that row
      when the write of the new row is lost. */
  lemma StaleRowMisleads(w: World, pkg: Package, config: Config)
    requires Free(w.dir) && w.db.installed && INSTALLED !in pkg.files
    requires w.db != Db(true, pkg.sha, Some(config.port)) && Proper(pkg, config)
    ensures var after := World(Deployed(w.dir, pkg, config), w.db);
      InstallRun(w, pkg, config, false, after, Ok(true)) && Installs(w, pkg, config, after) && !Truthful(after)
  {
    assert InstallRun(w, pkg, config, false, World(Deployed(w.dir, pkg, config), w.db), Ok(true));
  }

  /** What an install leaves that is cut after its extraction. */
  function Unpacked(dir: Dir, pkg: Package): Dir {
    (if dir == map[] then map[INSTALLING := StartedMark(pkg.sha)] else dir) + pkg.files
  }

  /** The same with an archive that brings an installed marker of its own: the extraction puts
      it beside the row, and the install then fails. */
  lemma ForeignMarkerMisleads(w: World, pkg: Package, config: Config)
    requires Free(w.dir) && w.db.installed && INSTALLED in pkg.files && Proper(pkg, config)
    requires !Matches(w.db, pkg.files[INSTALLED])
    ensures var after := World(Unpacked(w.dir, pkg), w.db);
      InstallRun(w, pkg, config, true, after, Err(Failed)) && Installs(w, pkg, config, after) && !Truthful(after)
  {
    assert InstallRun(w, pkg, config, true, World(Unpacked(w.dir, pkg), w.db), Err(Failed));
  }

  /** A reset never makes marker and row contradict each other, wherever it is cut. */
  lemma ResetIsTruthful(w: World, clean: bool, w': World, ok: bool)
    requires Truthful(w) && ResetRun(w, clean, w', ok)
    ensures Truthful(w')
  {
  }

  /** An install found its marker readable; `read` is the fate of that one call. */
  ghost predicate MarkerRead(w: World, a: Attempt, read: bool) {
    read && a.TryInstall? && INSTALLED in w.dir && a.r.Err? && a.r.error.Existing? ==> a.r.error == Decode(w.dir[INSTALLED])
  }

  /** The check for an attempt whose marker read is cut or not; markers of archives that bring
      none are always legible, by HistoriesAreSound. */
  predicate Checked(w: World, a: Attempt, read: bool) {
    a.TryInstall? ==> Harmless(w, a.pkg, a.config) || (read && INSTALLED in w.dir && Legible(w.dir[INSTALLED]))
  }

  /** Over any history, wherever its calls are cut, marker and row can only disagree by one of
      them missing, if every attempt passes the check; reading the marker found is enough to
      pass it. */
  lemma {:induction false} CheckedHistoriesAreTruthful(ws: seq<World>, attempts: seq<Attempt>, legible: seq<bool>, n: nat)
    requires History(ws, attempts) && n < |ws| && |legible| == |attempts|
    requires forall i | 0 <= i < |attempts| :: MarkerRead(ws[i], attempts[i], legible[i]) && Checked(ws[i], attempts[i], legible[i])
    ensures Truthful(ws[n])
  {
    if n > 0 {
      var w, a := ws[n - 1], attempts[n - 1];
      CheckedHistoriesAreTruthful(ws, attempts, legible, n - 1);
      assert Attempted(w, a, ws[n]) && MarkerRead(w, a, legible[n - 1]) && Checked(w, a, legible[n - 1]);
      AttemptIsTruthful(w, a, legible[n - 1], ws[n]);
    }
  }

  lemma AttemptIsTruthful(w: World, a: Attempt, read: bool, w': World)
    requires Truthful(w) && Attempted(w, a, w') && MarkerRead(w, a, read) && Checked(w, a, read)
    ensures Truthful(w')
  {
    match a
    case TryInstall(pkg, config, r) =>
      var clean :| InstallRun(w, pkg, config, clean, w', r);
      if Harmless(w, pkg, config) {
        HarmlessInstall(w, pkg, config, clean, w', r);
      }
    case TryReset(ok) =>
      var clean :| ResetRun(w, clean, w', ok);
      ResetIsTruthful(w, clean, w', ok);
  }

  /** With the marker read not cut the exact check is that the marker found is legible, or as
      before for a free directory. */
  lemma ReadInstallIsTruthfulIff(w: World, pkg: Package, config: Config)
    requires Truthful(w) && Proper(pkg, config)
    ensures (if INSTALLED in w.dir then Legible(w.dir[INSTALLED]) else Harmless(w, pkg, config)) <==>
      forall clean, w', r | InstallRun(w, pkg, config, clean, w', r)
        && MarkerRead(w, TryInstall(pkg, config, r), true) :: Truthful(w')
  {
    if INSTALLED in w.dir && !Legible(w.dir[INSTALLED]) {
      IllegibleMarkerMisleads(w, pkg, config);
    } else if INSTALLED in w.dir || Harmless(w, pkg, config) {
      forall clean, w', r | InstallRun(w, pkg, config, clean, w', r) && MarkerRead(w, TryInstall(pkg, config, r), true)
        ensures Truthful(w')
      {
        AttemptIsTruthful(w, TryInstall(pkg, config, r), true, w');
      }
    } else if INSTALLED in pkg.files {
      ForeignMarkerMisleads(w, pkg, config);
      assert MarkerRead(w, TryInstall(pkg, config, Err(Failed)), true);
    } else {
      StaleRowMisleads(w, pkg, config);
      assert MarkerRead(w, TryInstall(pkg, config, Ok(true)), true);
    }
  }

  /** A marker with a value missing is recorded with the caller's value in its place. */
  lemma IllegibleMarkerMisleads(w: World, pkg: Package, config: Config)
    requires INSTALLED in w.dir && !Legible(w.dir[INSTALLED]) && Proper(pkg, config)
    ensures var e := Decode(w.dir[INSTALLED]);
      var after := World(w.dir, Healed(e.sha, e.port, pkg, config));
      InstallRun(w, pkg, config, true, after, Err(e)) && MarkerRead(w, TryInstall(pkg, config, Err(e)), true) && !Truthful(after)
  {
  }

  /** What deploying leaves of the markers. */
  ghost predicate Kept(d: Dir, pkg: Package, config: Config, d': Dir) {
    && (INSTALLED in d' ==>
          (INSTALLED in d && d'[INSTALLED] == d[INSTALLED]) || d'[INSTALLED] == MarkLeft(pkg, config))
    && (INSTALLING in d' ==> (INSTALLING in d && d'[INSTALLING] == d[INSTALLING]) || Brings(pkg, INSTALLING, d'[INSTALLING]))
  }

  // ----- the program's own form -----

  /** The second call of a reset, its look for stop.sh, is cut; the reset then goes on as if there
      were no such script. */
  predicate StatLost(fates: seq<Fate>) {
    |fates| > 1 && fates[1].Cut?
  }

  datatype Presence = Present | Missing | Unknown

  function Portion(files: Dir, part: set<string>): Dir {
    map n | n in files && n in part :: files[n]
  }

  /** The entries one deployment may create or replace. */
  function Touched(pkg: Package, config: Config, names: Names): set<string> {
    pkg.files.Keys + {INSTALLED, INSTALLING, config.path, names.package, names.config, names.done}
  }

  ghost predicate SameExcept(d: Dir, d': Dir, names: set<string>) {
    forall n | n !in names :: (n in d <==> n in d') && (n in d ==> d[n] == d'[n])
  }

  function Moved(dir: Dir, from: string, to: string): Dir
    requires from in dir
  {
    (dir - {from})[to := dir[from]]
  }

  /** A target directory, the row about it, and the calls still to be made on both. */
  class Site {
    var dir: Dir
    var db: Db
    var fates: seq<Fate>
    var configured: bool    // the environment has a config row of its own
    ghost var log: seq<Event>

    constructor (world: World, configured: bool, fates: seq<Fate>)
      ensures View() == world && this.configured == configured && this.fates == fates && log == []
    {
      dir, db, this.configured, this.fates, log := world.dir, world.db, configured, fates, [];
    }

    ghost function View(): World
      reads this
    {
      World(dir, db)
    }

    ghost predicate Clean()
      reads this`fates
    {
      fates == []
    }

    /** The fate of the next call; once the list is used up nothing is cut any more. */
    method Next() returns (fate: Fate)
      modifies this`fates
      ensures if old(Clean()) then fate.Done? && Clean() else fate == old(fates)[0] && fates == old(fates)[1..]
    {
      if fates == [] {
        return Done;
      }
      fate, fates := fates[0], fates[1..];
    }

    /** One remote call that turns the directory into `effect`. */
    method Call(effect: Dir) returns (ok: bool)
      modifies this`fates, this`dir
      ensures ok ==> dir == effect
      ensures dir == old(dir) || dir == effect
      ensures if old(Clean()) then ok && Clean() else fates == old(fates)[1..]
    {
      var fate := Next();
      ok := fate.Done?;
      if ok || fate.applied {
        dir := effect;
      }
    }

    method Stat(name: string) returns (p: Presence)
      modifies this`fates
      ensures p.Present? ==> name in dir
      ensures p.Missing? ==> name !in dir
      ensures p.Unknown? <==> !old(Clean()) && old(fates)[0].Cut?
      ensures old(Clean()) ==> Clean()
    {
      var fate := Next();
      if fate.Cut? {
        return Unknown;
      }
      return if name in dir then Present else Missing;
    }

    /** Renaming onto an existing entry fails, as section 6.5 of the SFTP draft
        draft-ietf-secsh-filexfer-02 has it. */
    method Rename(from: string, to: string) returns (ok: bool)
      requires from != to
      modifies this`dir, this`fates, this`log
      ensures ok ==> from in old(dir) && to !in old(dir) && dir == Moved(old(dir), from, to)
      ensures dir == old(dir) || (from in old(dir) && to !in old(dir) && dir == Moved(old(dir), from, to))
      ensures old(Clean()) && from in old(dir) && to !in old(dir) ==> ok
      ensures log == if to == INSTALLING && dir != old(dir) && from in old(dir)
                     then old(log) + [Marked(old(dir)[from], old(dir).Keys - {from})] else old(log)
      ensures old(Clean()) ==> Clean()
    {
      if from !in dir || to in dir {
        var fate := Next();
        return false;
      }
      ghost var before := dir;
      ok := Call(Moved(dir, from, to));
      if to == INSTALLING && dir != before {
        log := log + [Marked(before[from], before.Keys - {from})];
      }
    }

    method Extract(files: Dir) returns (ok: bool)
      modifies this`dir, this`fates, this`log
      ensures ok ==> dir == old(dir) + files
      ensures exists part :: dir == old(dir) + Portion(files, part)
      ensures log == old(log) + [Extracted]
      ensures old(Clean()) ==> ok && Clean()
    {
      var fate := Next();
      ok := fate.Done?;
      var part := if ok then files.Keys else if fate.applied then fate.part else {};
      dir := dir + Portion(files, part);
      log := log + [Extracted];
      assert ok ==> Portion(files, part) == files;
    }

    /** writeJSONFile: an exclusively created temporary file renamed into place. */
    method WriteJson(name: string, temp: string, file: File) returns (ok: bool)
      requires temp != name && temp != INSTALLING && temp !in dir
      modifies this`dir, this`fates, this`log
      ensures SameExcept(old(dir), dir, {name, temp})
      ensures ok ==> name !in old(dir) && name in dir && dir[name] == file
      ensures name in old(dir) ==> name in dir && dir[name] == old(dir)[name]
      ensures name in dir && name !in old(dir) ==> dir[name] == file
      ensures old(Clean()) ==> Clean() && (ok <==> name !in old(dir)) && temp !in dir
      ensures if name == INSTALLING && name in dir && name !in old(dir)
              then log == old(log) + [Marked(file, old(dir).Keys)] else log == old(log)
    {
      var created := Call(dir[temp := Data("")]);
      if !created {
        return false;
      }
      var written := Call(dir[temp := file]);
      if !written {
        var removed := Call(dir - {temp});
        return false;
      }
      assert dir.Keys - {temp} == old(dir).Keys;
      ok := Rename(temp, name);
      if !ok {
        var removed := Call(dir - {temp});
      }
    }

    /** writeSFTPConfig: here the rename does replace an existing file. */
    method WriteConfig(path: string, temp: string, content: string) returns (ok: bool)
      requires temp != path && temp !in dir
      modifies this`fates, this`dir
      ensures SameExcept(old(dir), dir, {path, temp})
      ensures ok ==> path in dir && dir[path] == Data(content)
      ensures old(Clean()) ==> Clean() && ok && temp !in dir
    {
      var created := Call(dir[temp := Data("")]);
      if !created {
        return false;
      }
      var written := Call(dir[temp := Data(content)]);
      if !written {
        var removed := Call(dir - {temp});
        return false;
      }
      ok := Call((dir - {temp})[path := Data(content)]);
      if !ok {
        var removed := Call(dir - {temp});
      }
    }

    /** Upload and extraction. */
    method Unpack(pkg: Package, temp: string) returns (ok: bool)
      requires temp !in dir && temp !in pkg.files
      modifies this`dir, this`fates, this`log
      ensures SameExcept(old(dir), dir, pkg.files.Keys + {temp})
      ensures ok ==> forall n | n in pkg.files :: n in dir && dir[n] == pkg.files[n]
      ensures forall n | n in pkg.files && n in dir :: (n in old(dir) && dir[n] == old(dir)[n]) || dir[n] == pkg.files[n]
      ensures log == old(log) || log == old(log) + [Extracted]
      ensures ok ==> log == old(log) + [Extracted]
      ensures old(Clean()) ==> Clean() && ok
    {
      var created := Call(dir[temp := Data("")]);
      if !created {
        return false;
      }
      var uploaded := Call(dir[temp := Data(pkg.sha)]);
      if !uploaded {
        return false;
      }
      ok := Extract(pkg.files);
    }

    /** One lifecycle script of the package; the model leaves out what it does to the files. */
    method RunScript(name: string) returns (ok: bool)
      modifies this`fates, this`dir, this`log
      ensures dir == old(dir)
      ensures log == if ok then old(log) + [Ran(name, dir)] else old(log)
      ensures old(Clean()) ==> ok && Clean()
    {
      ok := Call(dir);
      if ok {
        log := log + [Ran(name, dir)];
      }
    }

    /** Extraction, config, script. */
    method Prepare(pkg: Package, config: Config, names: Names) returns (ok: bool)
      requires Proper(pkg, config) && Fresh(names, dir - {names.claim}, pkg, config)
      modifies this`dir, this`fates, this`log
      ensures forall n | n in pkg.files && n != config.path && n in dir :: (n in old(dir) && dir[n] == old(dir)[n]) || dir[n] == pkg.files[n]
      ensures SameExcept(old(dir), dir, pkg.files.Keys + {config.path, names.package, names.config})
      ensures ok ==> config.path in dir && dir[config.path] == Data(config.content)
                     && forall n | n in pkg.files && n != config.path :: n in dir && dir[n] == pkg.files[n]
      ensures log == old(log) || log == old(log) + [Extracted] || Prepared(old(log), log, pkg, config)
      ensures ok ==> Prepared(old(log), log, pkg, config)
      ensures old(Clean()) ==> Clean() && ok && names.config !in dir
    {
      ok := Unpack(pkg, names.package);
      if !ok {
        return;
      }
      ok := WriteConfig(config.path, names.config, config.content);
      if !ok {
        return;
      }
      ok := RunScript(if "install.sh" in pkg.files then "install.sh" else "start.sh");
      if ok {
        assert log == old(log) + [Extracted, Ran(if "install.sh" in pkg.files then "install.sh" else "start.sh", dir)];
      }
    }

    /** The part of Executor.Install after the directory has been claimed. */
    method Deploy(pkg: Package, config: Config, names: Names) returns (r: Result<bool, Error>)
      requires Proper(pkg, config) && Fresh(names, dir - {names.claim}, pkg, config)
      modifies this`dir, this`fates, this`log
      ensures r.Err? ==> r.error.Failed?
      ensures r.Ok? ==>
                && INSTALLED in dir && dir[INSTALLED] == InstalledMark(pkg.sha, config.port)
                && config.path in dir && dir[config.path] == Data(config.content)
                && forall n | n in pkg.files && n != config.path && n != INSTALLING :: n in dir && dir[n] == pkg.files[n]
      ensures Kept(old(dir), pkg, config, dir)
      ensures SameExcept(old(dir), dir, Touched(pkg, config, names))
      ensures log == old(log) || log == old(log) + [Extracted] || Prepared(old(log), log, pkg, config)
      ensures r.Ok? || (INSTALLED in dir && INSTALLED !in old(dir) && INSTALLED !in pkg.files) ==>
                Prepared(old(log), log, pkg, config)
      ensures old(Clean()) ==> Clean()
      ensures INSTALLED in pkg.files ==> r.Err?
      ensures old(Clean()) && INSTALLED !in pkg.files && INSTALLED !in old(dir) ==> r.Ok?
      ensures old(Clean()) && r.Ok? ==> INSTALLING !in dir
      ensures old(Clean()) ==> names.config !in dir && names.done !in dir
    {
      var prepared := Prepare(pkg, config, names);
      if !prepared {
        return Err(Failed);
      }
      var marked := WriteJson(INSTALLED, names.done, InstalledMark(pkg.sha, config.port));
      if !marked {
        return Err(Failed);
      }
      var unmarked := Call(dir - {INSTALLING});
      return Ok(true);
    }

    /** The part of Executor.Install that decides whether the directory may be used. */
    method Claim(pkg: Package, temp: string) returns (r: Result<bool, Error>)
      requires temp !in dir && temp != INSTALLING && temp != INSTALLED
      modifies this`dir, this`fates, this`log
      ensures old(Clean()) ==> Clean() && temp !in dir
      ensures SameExcept(old(dir), dir, {INSTALLING, temp})
      ensures old(dir) != map[] ==> dir == old(dir)
      ensures r.Ok? ==> INSTALLED !in old(dir) && INSTALLING in dir && (old(dir) == map[] || INSTALLING in old(dir))
      ensures old(Clean()) && INSTALLED !in old(dir) && (old(dir) == map[] || INSTALLING in old(dir)) ==> r.Ok?
      ensures INSTALLED in old(dir) ==>
                && r.Err? && (r.error.Existing? ==> r.error == Decode(old(dir)[INSTALLED]) || r.error == Existing("", 0))
                && (old(Clean()) ==> r.error == Decode(old(dir)[INSTALLED]))
      ensures INSTALLED !in old(dir) && r.Err? ==> !r.error.Existing?
      ensures INSTALLED !in old(dir) && INSTALLING !in old(dir) && old(dir) != map[] ==>
                r.Err? && (old(Clean()) ==> r.error.DirectoryNotEmpty?)
      ensures r.Err? && r.error.DirectoryNotEmpty? ==> old(dir) != map[]
      ensures INSTALLING in dir && INSTALLING !in old(dir) ==> dir[INSTALLING] == StartedMark(pkg.sha)
      ensures if INSTALLING in dir && INSTALLING !in old(dir)
              then log == old(log) + [Marked(StartedMark(pkg.sha), {})] else log == old(log)
    {
      var connected := Call(dir);
      if !connected {
        return Err(Failed);
      }
      var installed := Stat(INSTALLED);
      match installed {
        case Present =>
          var read := Call(dir);
          return Err(if read then Decode(dir[INSTALLED]) else Existing("", 0));
        case Unknown => return Err(Failed);
        case Missing =>
      }
      var installing := Stat(INSTALLING);
      if installing.Present? {
        return Ok(true);
      }
      var listed := Call(dir);
      if !listed {
        return Err(Failed);
      }
      if dir.Keys != {} {
        return Err(DirectoryNotEmpty);
      }
      var claimed := WriteJson(INSTALLING, temp, StartedMark(pkg.sha));
      return if claimed then Ok(true) else Err(Failed);
    }

    /** Executor.Install. */
    method Install(pkg: Package, config: Config, names: Names) returns (r: Result<bool, Error>)
      requires Proper(pkg, config) && Fresh(names, dir, pkg, config)
      modifies this`dir, this`fates, this`log
      ensures InstallEffect(old(dir), pkg, config, old(Clean()), dir, r)
      ensures r.Ok? || (INSTALLED in dir && INSTALLED !in old(dir) && INSTALLED !in pkg.files) ==>
                Served(old(log), log, pkg, config)
      ensures old(Tracked(dir, log)) ==> Tracked(dir, log)
      ensures old(Clean()) ==> Clean() && {names.claim, names.package, names.config, names.done} !! dir.Keys
    {
      r := Claim(pkg, names.claim);
      MarkKeepsTracked(old(dir), old(log), StartedMark(pkg.sha), dir, log);
      if r.Ok? {
        label claimed:
        r := Deploy(pkg, config, names);
        var cleaned := Call(dir - {names.package});
        ExtractKeepsTracked(old@claimed(dir), old@claimed(log), dir, log);
      }
    }

    /** stop.sh, when it is asked for and found; false if it was run and failed. */
    method StopService(runStop: bool) returns (ok: bool)
      modifies this`dir, this`fates, this`log
      ensures dir == old(dir)
      ensures log == old(log) || (runStop && "stop.sh" in dir && log == old(log) + [Ran("stop.sh", dir)])
      ensures ok && runStop && "stop.sh" in dir && (old(Clean()) || old(fates)[0].Done?) ==> log == old(log) + [Ran("stop.sh", dir)]
      ensures !old(Clean()) && old(fates)[0].Cut? ==> log == old(log)
      ensures old(Clean()) ==> ok && Clean()
    {
      if runStop {
        var stop := Stat("stop.sh");
        if stop.Present? {
          ok := RunScript("stop.sh");
          return;
        }
      }
      ok := true;
    }

    /** Both markers go and the marker of the reset is written. */
    method Unmark(temp: string) returns (ok: bool)
      requires temp !in dir && temp != INSTALLING && temp != INSTALLED
      modifies this`dir, this`fates, this`log
      ensures ResetEffect(old(dir), old(Clean()), dir, ok)
      ensures log == old(log) || exists beside :: log == old(log) + [Marked(ResetMark, beside)]
      ensures INSTALLING in dir && INSTALLING !in old(dir) ==> log != old(log)
      ensures old(Clean()) ==> Clean() && temp !in dir
    {
      var removed := Call(dir - {INSTALLED});   // a missing marker is not an error
      if !removed {
        return false;
      }
      var forgotten := Call(dir - {INSTALLING});
      ok := WriteJson(INSTALLING, temp, ResetMark);
    }

    /** Executor.ResetInstallation. */
    method Reset(runStop: bool, temp: string) returns (ok: bool)
      requires temp !in dir && temp != INSTALLING && temp != INSTALLED
      modifies this`dir, this`fates, this`log
      ensures ResetEffect(old(dir), old(Clean()), dir, ok)
      ensures (ok || dir != old(dir)) && runStop && "stop.sh" in old(dir) && !StatLost(old(fates)) ==>
                old(log) + [Ran("stop.sh", old(dir))] <= log
      ensures !runStop || "stop.sh" !in old(dir) || StatLost(old(fates)) ==>
                log == old(log) || exists beside :: log == old(log) + [Marked(ResetMark, beside)]
      ensures old(Tracked(dir, log)) ==> Tracked(dir, log)
      ensures old(Clean()) ==> Clean() && temp !in dir
    {
      var connected := Call(dir);
      if !connected {
        return false;
      }
      ok := StopService(runStop);
      RanKeepsTracked(dir, old(log), Ran("stop.sh", dir));
      if !ok {
        return;
      }
      var made := Call(dir);
      if !made {
        return false;
      }
      label stopped:
      ok := Unmark(temp);
      MarkKeepsTracked(old@stopped(dir), old@stopped(log), ResetMark, dir, log);
    }

    /** One statement on the row of this environment. */
    method Write(row: Db) returns (ok: bool)
      modifies this`db, this`fates
      ensures ok ==> db == row
      ensures db == old(db) || db == row
      ensures old(Clean()) ==> ok && Clean()
    {
      var fate := Next();
      ok := fate.Done?;
      if ok || fate.applied {
        db := row;
      }
    }

    /** The install branch of Manager.run: the remote call and what is recorded of it. */
    method RunInstall(pkg: Package, config: Config, names: Names) returns (r: Result<bool, Error>)
      requires Proper(pkg, config) && Fresh(names, dir, pkg, config)
      modifies this
      ensures InstallRun(old(View()), pkg, config, old(Clean()), View(), r)
      ensures r.Ok? ==> Served(old(log), log, pkg, config)
      ensures db.installed && !old(db).installed && INSTALLED !in old(dir) ==> Served(old(log), log, pkg, config) && configured
      ensures (r.Ok? && db != old(db) ==> configured) && (r.Err? ==> configured == old(configured))
      ensures old(Tracked(dir, log)) ==> Tracked(dir, log)
    {
      r := Install(pkg, config, names);
      match r {
        case Ok(_) =>
          var saved := true;
          if !configured {
            var fate := Next();
            saved := fate.Done?;
            configured := saved || fate.applied;
          }
          if saved {
            var recorded := Write(Db(true, pkg.sha, Some(config.port)));
          }
        case Err(Existing(sha, port)) =>
          var recorded := Write(Healed(sha, port, pkg, config));
        case Err(_) =>
      }
    }

    /** The reset branch of Manager.run. */
    method RunReset(runStop: bool, temp: string) returns (ok: bool)
      requires temp !in dir && temp != INSTALLING && temp != INSTALLED
      modifies this
      ensures ResetRun(old(View()), old(Clean()), View(), ok)
      ensures (db != old(db) || dir != old(dir)) && runStop && "stop.sh" in old(dir) && !StatLost(old(fates)) ==>
                old(log) + [Ran("stop.sh", old(dir))] <= log
      ensures old(Tracked(dir, log)) ==> Tracked(dir, log)
    {
      ok := Reset(runStop, temp);
      if ok {
        ok := Write(UNINSTALLED);
      }
    }
  }

  datatype Job =
    | InstallJob(pkg: Package, config: Config, names: Names)
    | ResetJob(runStop: bool, temp: string)

  /** Any sequence of operations on one directory, each cut anywhere: nothing is ever
      extracted unless an installing marker was put there before, by an install that
      found the directory empty or by a reset.  A job whose temporary names are taken,
      which the clock suffix rules out, is skipped. */
  method Campaign(site: Site, jobs: seq<Job>)
    requires INSTALLING !in site.dir && site.log == []
    requires forall j | j in jobs && j.InstallJob? :: Proper(j.pkg, j.config)
    modifies site
    ensures Rightful(site.log)
  {
    for i := 0 to |jobs|
      invariant Tracked(site.dir, site.log)
    {
      match jobs[i] {
        case InstallJob(pkg, config, names) =>
          assert jobs[i] in jobs;
          if Fresh(names, site.dir, pkg, config) {
            var r := site.RunInstall(pkg, config, names);
          }
        case ResetJob(runStop, temp) =>
          if temp !in site.dir && temp != INSTALLING && temp != INSTALLED {
            var ok := site.RunReset(runStop, temp);
          }
      }
    }
  }
}
