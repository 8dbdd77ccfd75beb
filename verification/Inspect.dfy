/** The streaming inspection of an uploaded archive: one pass over the entries, then a verdict
    on what was collected. */
module Inspect {
  import opened Prelude
  import opened Paths

  const MAX_FILES := 100_000
  const MAX_CONFIG := 10 * 1024 * 1024
  const MAX_SCRIPT := 1024 * 1024

  datatype Candidate = Candidate(path: string, format: string)

  const CANDIDATES: seq<Candidate> := [
    Candidate("config/config.json", "json"), Candidate("config/config.yaml", "yaml"),
    Candidate("config/application.yml", "yaml"), Candidate("config/application.yaml", "yaml")]

  datatype Kind = Regular | Directory | Other

  /** A tar entry; `size` is the header's and may be negative. */
  datatype Entry = Entry(name: string, kind: Kind, size: int, executable: bool, content: string)

  datatype Inspection = Inspection(
    port: int, format: string, configPath: string, root: string, hasInstall: bool, hasStart: bool, hasStop: bool)

  function HasSuffix(s: string, suffix: string): bool {
    |s| >= |suffix| && s[|s| - |suffix|..] == suffix
  }

  /** The name is the file itself, or the file below one directory; the directory, or "". */
  function MatchRootFile(name: string, file: string): Option<string> {
    if name == file then Some("")
    else if HasSuffix(name, "/" + file) then
      var prefix := name[..|name| - |file| - 1];
      if prefix != "" && NoSlash(prefix) then Some(prefix) else None
    else None
  }

  function MatchFrom(name: string, k: nat): Option<(string, Candidate)>
    requires k <= |CANDIDATES|
    decreases |CANDIDATES| - k
  {
    if k == |CANDIDATES| then None
    else if MatchRootFile(name, CANDIDATES[k].path).Some? then
      Some((MatchRootFile(name, CANDIDATES[k].path).value, CANDIDATES[k]))
    else MatchFrom(name, k + 1)
  }

  function MatchConfig(name: string): Option<(string, Candidate)> {
    MatchFrom(name, 0)
  }

  function Under(root: string, file: string): string {
    if root == "" then file else root + "/" + file
  }

  /** `strings.TrimPrefix(ConfigPath, RootPrefix + "/")`. */
  function RelativeConfigPath(configPath: string, root: string): string {
    var prefix := root + "/";
    if |configPath| >= |prefix| && configPath[..|prefix|] == prefix then configPath[|prefix|..] else configPath
  }

  lemma MatchRootFileIs(name: string, file: string, root: string)
    requires root != "" ==> NoSlash(root)
    requires name == Under(root, file) && (root == "" || name != file)
    ensures MatchRootFile(name, file) == Some(root)
  {
    if root != "" {
      assert name[|root|..] == "/" + file;
      assert name[..|root|] == root;
    }
  }

  lemma RootFileIsUnder(name: string, file: string)
    requires MatchRootFile(name, file).Some?
    ensures var root := MatchRootFile(name, file).value; name == Under(root, file) && NoSlash(root)
  {
    if name != file {
      var root := MatchRootFile(name, file).value;
      assert name == root + ("/" + file);
      assert name == root + "/" + file;
    }
  }

  lemma RelativeToRoot(root: string, file: string)
    requires file != "" && file[0] != '/'
    ensures RelativeConfigPath(Under(root, file), root) == file
  {
    if root != "" {
      var name := root + "/" + file;
      assert name[..|root| + 1] == root + "/" && name[|root| + 1..] == file;
    }
  }

  lemma {:induction false} MatchFromIs(name: string, k: nat)
    requires k <= |CANDIDATES| && MatchFrom(name, k).Some?
    ensures var (root, c) := MatchFrom(name, k).value;
      c in CANDIDATES && name == Under(root, c.path) && NoSlash(root)
    decreases |CANDIDATES| - k
  {
    if MatchRootFile(name, CANDIDATES[k].path).Some? {
      RootFileIsUnder(name, CANDIDATES[k].path);
    } else {
      MatchFromIs(name, k + 1);
    }
  }

  lemma CandidatesAreRelative(c: Candidate)
    requires c in CANDIDATES
    ensures |c.path| > 6 && c.path[0] == 'c' && c.path[|c.path| - 1] != 'h'
  {
  }

  /** A match names one candidate and the directory above it, and the configured path inside
      the archive, relative to that directory, is the candidate. */
  lemma MatchIsACandidate(name: string)
    requires MatchConfig(name).Some?
    ensures var (root, c) := MatchConfig(name).value;
      c in CANDIDATES && name == Under(root, c.path) && NoSlash(root) && RelativeConfigPath(name, root) == c.path
  {
    MatchFromIs(name, 0);
    var (root, c) := MatchConfig(name).value;
    CandidatesAreRelative(c);
    RelativeToRoot(root, c.path);
  }

  // ----- the pass over the entries -----

  /** The archive's own top directory, written as "." or "./". */
  predicate Skipped(e: Entry) {
    e.kind == Directory && (e.name == "" || e.name[0] != '/') && Clean(e.name) == "."
  }

  function PathOf(e: Entry): string {
    CleanArchivePath(e.name)
  }

  predicate IsConfig(e: Entry) {
    e.kind == Regular && MatchConfig(PathOf(e)).Some?
  }

  predicate IsStart(e: Entry) {
    e.kind == Regular && !IsConfig(e) && MatchRootFile(PathOf(e), "start.sh").Some?
  }

  type Ports = (string, string) -> Option<int>

  predicate Sound(ports: Ports, e: Entry) {
    Skipped(e) ||
    (PathOf(e) != "" && e.kind != Other
     && (e.kind == Regular ==>
           e.size >= 0
           && (IsConfig(e) ==> e.size <= MAX_CONFIG && ports(e.content, MatchConfig(PathOf(e)).value.1.format).Some?)
           && (IsStart(e) ==> e.size <= MAX_SCRIPT)))
  }

  function SizeOf(e: Entry): int {
    if e.kind == Regular then e.size else 0
  }

  function OneConfig(e: Entry): int {
    if IsConfig(e) then 1 else 0
  }

  function Sum(es: seq<Entry>, w: Entry -> int): int {
    if es == [] then 0 else Sum(es[..|es| - 1], w) + w(es[|es| - 1])
  }

  /** What the loop does not refuse. */
  predicate Scans(max: nat, ports: Ports, es: seq<Entry>) {
    && |es| <= MAX_FILES && (forall e | e in es :: Sound(ports, e))
    && Sum(es, SizeOf) <= max && Sum(es, OneConfig) <= 1
  }

  datatype Found = Found(path: string, root: string, format: string, port: int)

  /** The accumulators; a later regular file of the same path replaces an earlier one. */
  datatype Scan = Scan(paths: seq<string>, modes: map<string, bool>, starts: map<string, string>, config: Option<Found>)

  function FoundIn(ports: Ports, e: Entry): Found
    requires IsConfig(e)
  {
    var (root, c) := MatchConfig(PathOf(e)).value;
    var port := ports(e.content, c.format);
    Found(PathOf(e), root, c.format, if port.Some? then port.value else 0)
  }

  function Add(ports: Ports, s: Scan, e: Entry): Scan {
    if Skipped(e) then s
    else if e.kind != Regular then s.(paths := s.paths + [PathOf(e)])
    else Scan(s.paths + [PathOf(e)], s.modes[PathOf(e) := e.executable],
              if IsStart(e) then s.starts[PathOf(e) := e.content] else s.starts,
              if IsConfig(e) then Some(FoundIn(ports, e)) else s.config)
  }

  function Collect(ports: Ports, es: seq<Entry>): Scan {
    if es == [] then Scan([], map[], map[], None)
    else Add(ports, Collect(ports, es[..|es| - 1]), es[|es| - 1])
  }

  predicate At(s: string, t: string, k: nat) {
    k + |t| <= |s| && s[k..k + |t|] == t
  }

  predicate Contains(s: string, t: string) {
    exists k: nat | k <= |s| :: At(s, t, k)
  }

  predicate Within(root: string, path: string) {
    root == "" || path == root || (|path| > |root| && path[..|root| + 1] == root + "/")
  }

  /** The script mentions no candidate other than the one in the archive. */
  predicate Consistent(content: string, actual: string) {
    forall c | c in CANDIDATES && c.path != actual :: !Contains(content, c.path)
  }

  predicate Executable(modes: map<string, bool>, path: string) {
    path in modes ==> modes[path]
  }

  function Verdict(s: Scan): Option<Inspection> {
    if s.config.None? then None
    else
      var c := s.config.value;
      var install, start, stop := Under(c.root, "install.sh"), Under(c.root, "start.sh"), Under(c.root, "stop.sh");
      if !(forall p | p in s.paths :: Within(c.root, p)) then None
      else if !Executable(s.modes, install) || !Executable(s.modes, start) || !Executable(s.modes, stop) then None
      else if !Consistent(if start in s.starts then s.starts[start] else "", RelativeConfigPath(c.path, c.root)) then None
      else Some(Inspection(c.port, c.format, c.path, c.root, install in s.modes, start in s.modes, stop in s.modes))
  }

  function Inspected(max: nat, ports: Ports, es: seq<Entry>): Option<Inspection> {
    if Scans(max, ports, es) then Verdict(Collect(ports, es)) else None
  }

  lemma {:induction false} SumGrows(ports: Ports, es: seq<Entry>, i: nat)
    requires i <= |es| && forall e | e in es :: Sound(ports, e)
    ensures Sum(es[..i], SizeOf) <= Sum(es, SizeOf) && Sum(es[..i], OneConfig) <= Sum(es, OneConfig)
  {
    if i < |es| {
      var front := es[..|es| - 1];
      SumGrows(ports, front, i);
      assert front[..i] == es[..i] && es[|es| - 1] in es;
    } else {
      assert es[..i] == es;
    }
  }

  /** The loop may stop at the first entry it refuses: no longer archive would be accepted. */
  lemma PrefixScans(max: nat, ports: Ports, es: seq<Entry>, i: nat)
    requires i <= |es| && Scans(max, ports, es)
    ensures Scans(max, ports, es[..i])
  {
    SumGrows(ports, es, i);
  }

  lemma StopsEarly(max: nat, ports: Ports, es: seq<Entry>, i: nat)
    requires i <= |es| && !Scans(max, ports, es[..i])
    ensures Inspected(max, ports, es) == None
  {
    if Scans(max, ports, es) {
      PrefixScans(max, ports, es, i);
    }
  }

  lemma SumOneMore(es: seq<Entry>, e: Entry, w: Entry -> int)
    ensures Sum(es + [e], w) == Sum(es, w) + w(e)
  {
    assert (es + [e])[..|es|] == es;
  }

  /** Whether the loop goes on after one more entry. */
  lemma ScansOneMore(max: nat, ports: Ports, es: seq<Entry>, e: Entry)
    requires Scans(max, ports, es)
    ensures Scans(max, ports, es + [e]) <==>
      && |es| < MAX_FILES && Sound(ports, e) && Sum(es, SizeOf) + SizeOf(e) <= max
      && (IsConfig(e) ==> Sum(es, OneConfig) == 0)
  {
    SumOneMore(es, e, SizeOf);
    SumOneMore(es, e, OneConfig);
    SumGrows(ports, es, 0);
    assert es[..0] == [];
    assert e in es + [e] && forall x | x in es :: x in es + [e];
  }

  lemma {:induction false} ConfigSeen(ports: Ports, es: seq<Entry>)
    requires forall e | e in es :: Sound(ports, e)
    ensures Collect(ports, es).config.Some? <==> Sum(es, OneConfig) > 0
    ensures Sum(es, OneConfig) >= 0
  {
    if es != [] {
      assert es[|es| - 1] in es;
      ConfigSeen(ports, es[..|es| - 1]);
    }
  }

  /** The loop body: None when the entry is refused. */
  method ReadEntry(max: nat, ports: Ports, scan: Scan, expanded: int, e: Entry) returns (next: Option<Scan>, total: int)
    requires 0 <= expanded <= max
    ensures next.Some? <==>
      Sound(ports, e) && expanded + SizeOf(e) <= max && (IsConfig(e) ==> scan.config.None?)
    ensures next.Some? ==> next.value == Add(ports, scan, e) && total == expanded + SizeOf(e)
  {
    next, total := None, expanded;
    if Skipped(e) {
      return Some(scan), total;
    }
    var clean := CleanArchivePath(e.name);
    if clean == "" {
      return;
    }
    var paths := scan.paths + [clean];
    match e.kind {
      case Regular =>
      case Directory => return Some(scan.(paths := paths)), total;
      case Other => return;
    }
    if e.size < 0 {
      return;
    }
    total := total + e.size;
    if total > max {
      return;
    }
    var result := scan.(paths := paths, modes := scan.modes[clean := e.executable]);
    var config := MatchConfig(clean);
    if config.Some? {
      if scan.config.Some? || e.size > MAX_CONFIG {
        return;
      }
      var port := ports(e.content, config.value.1.format);
      if port.None? {
        return;
      }
      result := result.(config := Some(Found(clean, config.value.0, config.value.1.format, port.value)));
    } else if MatchRootFile(clean, "start.sh").Some? {
      if e.size > MAX_SCRIPT {
        return;
      }
      result := result.(starts := result.starts[clean := e.content]);
    }
    next := Some(result);
  }

  /** What the loop knows after the first i entries. */
  ghost predicate Read(max: nat, ports: Ports, entries: seq<Entry>, i: nat, scan: Scan, expanded: int)
    requires i <= |entries|
  {
    && Scans(max, ports, entries[..i]) && scan == Collect(ports, entries[..i])
    && expanded == Sum(entries[..i], SizeOf) && 0 <= expanded <= max
  }

  /** Whether the loop body accepts an entry. */
  predicate GoesOn(max: nat, ports: Ports, i: nat, scan: Scan, expanded: int, e: Entry) {
    i < MAX_FILES && Sound(ports, e) && expanded + SizeOf(e) <= max && (IsConfig(e) ==> scan.config.None?)
  }

  lemma GoesOnIff(max: nat, ports: Ports, entries: seq<Entry>, i: nat, scan: Scan, expanded: int)
    requires i < |entries| && Read(max, ports, entries, i, scan, expanded)
    ensures Scans(max, ports, entries[..i + 1]) <==> GoesOn(max, ports, i, scan, expanded, entries[i])
  {
    assert entries[..i + 1] == entries[..i] + [entries[i]];
    ScansOneMore(max, ports, entries[..i], entries[i]);
    ConfigSeen(ports, entries[..i]);
  }

  lemma ReadOneMore(max: nat, ports: Ports, entries: seq<Entry>, i: nat, scan: Scan, expanded: int)
    requires i < |entries| && Read(max, ports, entries, i, scan, expanded)
    requires Scans(max, ports, entries[..i + 1])
    ensures Read(max, ports, entries, i + 1, Add(ports, scan, entries[i]), expanded + SizeOf(entries[i]))
  {
    var e, here := entries[i], entries[..i + 1];
    assert here == entries[..i] + [e] && here[..i] == entries[..i];
    SumOneMore(entries[..i], e, SizeOf);
    assert e in here && Sound(ports, e);
  }

  method Inspect(max: nat, ports: Ports, entries: seq<Entry>) returns (r: Option<Inspection>)
    ensures r == Inspected(max, ports, entries)
  {
    var files, expanded := 0, 0;
    var scan := Scan([], map[], map[], None);
    for i := 0 to |entries|
      invariant files == i && Read(max, ports, entries, i, scan, expanded)
    {
      GoesOnIff(max, ports, entries, i, scan, expanded);
      files := files + 1;
      if files > MAX_FILES {
        StopsEarly(max, ports, entries, i + 1);
        return None;
      }
      var next, total := ReadEntry(max, ports, scan, expanded, entries[i]);
      if next.None? {
        StopsEarly(max, ports, entries, i + 1);
        return None;
      }
      ReadOneMore(max, ports, entries, i, scan, expanded);
      scan, expanded := next.value, total;
    }
    assert entries[..|entries|] == entries;
    r := Verdict(scan);
  }

  // ----- what the verdict means -----

  /** No two regular files with the same cleaned path. */
  ghost predicate Distinct(es: seq<Entry>) {
    forall i, j | 0 <= i < j < |es| && es[i].kind == Regular && es[j].kind == Regular :: PathOf(es[i]) != PathOf(es[j])
  }

  ghost predicate HasFile(es: seq<Entry>, path: string) {
    exists e | e in es :: e.kind == Regular && PathOf(e) == path
  }

  ghost predicate FileIsExecutable(es: seq<Entry>, path: string) {
    forall e | e in es && e.kind == Regular && PathOf(e) == path :: e.executable
  }

  /** The archive, with config file c, is well made, and r reports it. Nothing here depends on
      the order of the entries. */
  ghost predicate Reports(ports: Ports, es: seq<Entry>, c: Entry, r: Inspection) {
    && c in es && IsConfig(c)
    && Found(r.configPath, r.root, r.format, r.port) == FoundIn(ports, c)
    && (forall e | e in es && !Skipped(e) :: Within(r.root, PathOf(e)))
    && FileIsExecutable(es, Under(r.root, "install.sh"))
    && FileIsExecutable(es, Under(r.root, "start.sh"))
    && FileIsExecutable(es, Under(r.root, "stop.sh"))
    && (forall e | e in es && e.kind == Regular && PathOf(e) == Under(r.root, "start.sh") ::
          Consistent(e.content, RelativeConfigPath(r.configPath, r.root)))
    && (r.hasInstall <==> HasFile(es, Under(r.root, "install.sh")))
    && (r.hasStart <==> HasFile(es, Under(r.root, "start.sh")))
    && (r.hasStop <==> HasFile(es, Under(r.root, "stop.sh")))
  }

  lemma {:induction false} PathsCollected(ports: Ports, es: seq<Entry>)
    ensures forall p :: p in Collect(ports, es).paths <==> exists e | e in es :: !Skipped(e) && PathOf(e) == p
  {
    if es != [] {
      var front, last := es[..|es| - 1], es[|es| - 1];
      PathsCollected(ports, front);
      assert es == front + [last];
      forall p ensures p in Collect(ports, es).paths <==> exists e | e in es :: !Skipped(e) && PathOf(e) == p {
        if p in Collect(ports, front).paths {
          var e :| e in front && !Skipped(e) && PathOf(e) == p;
          assert e in es;
        } else if e :| e in es && !Skipped(e) && PathOf(e) == p {
          assert e == last;
        }
        assert last in es;
      }
    }
  }

  /** The last entry shares its path with no earlier one. */
  lemma LastIsDistinct(es: seq<Entry>, e: Entry)
    requires es != [] && Distinct(es) && e in es[..|es| - 1] && e.kind == Regular
    ensures Distinct(es[..|es| - 1]) && (es[|es| - 1].kind == Regular ==> PathOf(es[|es| - 1]) != PathOf(e))
  {
    var i :| 0 <= i < |es| - 1 && es[..|es| - 1][i] == e;
    assert es[i] == e;
  }

  lemma AddModes(ports: Ports, s: Scan, e: Entry, p: string)
    ensures var modes := Add(ports, s, e).modes;
      if e.kind == Regular && PathOf(e) == p then p in modes && modes[p] == e.executable
      else (p in modes <==> p in s.modes) && (p in modes ==> modes[p] == s.modes[p])
  {
  }

  lemma NoEarlierFile(es: seq<Entry>)
    requires es != [] && Distinct(es) && es[|es| - 1].kind == Regular
    ensures !HasFile(es[..|es| - 1], PathOf(es[|es| - 1]))
  {
    forall e | e in es[..|es| - 1] && e.kind == Regular ensures PathOf(e) != PathOf(es[|es| - 1]) {
      LastIsDistinct(es, e);
    }
  }

  lemma {:induction false} ModesCollected(ports: Ports, es: seq<Entry>, p: string)
    requires Distinct(es)
    ensures p in Collect(ports, es).modes <==> HasFile(es, p)
    ensures p in Collect(ports, es).modes ==> (Collect(ports, es).modes[p] <==> FileIsExecutable(es, p))
  {
    if es != [] {
      var front, last := es[..|es| - 1], es[|es| - 1];
      assert es == front + [last];
      ModesCollected(ports, front, p);
      FilesOneMore(front, last, p);
      AddModes(ports, Collect(ports, front), last, p);
      if last.kind == Regular && PathOf(last) == p {
        NoEarlierFile(es);
      }
    }
  }

  lemma FilesOneMore(es: seq<Entry>, last: Entry, p: string)
    ensures HasFile(es + [last], p) <==> HasFile(es, p) || (last.kind == Regular && PathOf(last) == p)
    ensures FileIsExecutable(es + [last], p) <==>
      FileIsExecutable(es, p) && (last.kind == Regular && PathOf(last) == p ==> last.executable)
  {
    assert last in es + [last];
    assert forall e | e in es :: e in es + [last];
  }

  lemma {:induction false} StartsCollected(ports: Ports, es: seq<Entry>, e: Entry)
    requires Distinct(es) && e in es && IsStart(e)
    ensures PathOf(e) in Collect(ports, es).starts && Collect(ports, es).starts[PathOf(e)] == e.content
  {
    var front, last := es[..|es| - 1], es[|es| - 1];
    if e in front {
      LastIsDistinct(es, e);
      StartsCollected(ports, front, e);
    } else {
      assert es == front + [last];
    }
  }

  lemma {:induction false} NoStartCollected(ports: Ports, es: seq<Entry>, p: string)
    requires !HasFile(es, p)
    ensures p !in Collect(ports, es).starts
  {
    if es != [] {
      var front := es[..|es| - 1];
      assert es[|es| - 1] in es && forall e | e in front :: e in es;
      NoStartCollected(ports, front, p);
    }
  }

  lemma {:induction false} ConfigCollected(ports: Ports, es: seq<Entry>)
    requires (forall e | e in es :: Sound(ports, e)) && Sum(es, OneConfig) <= 1
    ensures var f := Collect(ports, es).config;
      && (f.Some? ==> exists c | c in es :: IsConfig(c) && f.value == FoundIn(ports, c))
      && (forall c | c in es && IsConfig(c) :: f == Some(FoundIn(ports, c)))
  {
    if es != [] {
      var front, last := es[..|es| - 1], es[|es| - 1];
      assert es == front + [last] && last in es;
      ConfigSeen(ports, front);
      ConfigCollected(ports, front);
      assert forall c | c in front && IsConfig(c) :: Collect(ports, front).config.Some?;
      var f := Collect(ports, es).config;
      if f.Some? && !IsConfig(last) {
        var c :| c in front && IsConfig(c) && f.value == FoundIn(ports, c);
        assert c in es;
      }
    }
  }

  lemma ConfigIsNoScript(name: string)
    requires MatchConfig(name).Some?
    ensures name != "" && name[|name| - 1] != 'h'
  {
    MatchIsACandidate(name);
    var (root, c) := MatchConfig(name).value;
    CandidatesAreRelative(c);
    assert name[|name| - 1] == c.path[|c.path| - 1];
  }

  /** A regular start.sh at the root the config names was read as a start script. */
  lemma StartWasRead(e: Entry, root: string)
    requires e.kind == Regular && NoSlash(root) && PathOf(e) == Under(root, "start.sh")
    ensures IsStart(e)
  {
    var name := PathOf(e);
    assert name[|name| - 1] == 'h';
    MatchRootFileIs(name, "start.sh", root);
    if MatchConfig(name).Some? {
      ConfigIsNoScript(name);
    }
  }

  /** For archives without duplicate paths, the single pass accepts with result r iff the limits
      hold and r reports the archive; so the verdict is a property of the set of entries. */
  lemma InspectedIff(max: nat, ports: Ports, es: seq<Entry>, r: Inspection)
    requires Distinct(es)
    ensures Inspected(max, ports, es) == Some(r) <==> Scans(max, ports, es) && exists c :: Reports(ports, es, c, r)
  {
    if Scans(max, ports, es) {
      ConfigCollected(ports, es);
      var s := Collect(ports, es);
      if s.config.Some? {
        var c :| c in es && IsConfig(c) && s.config.value == FoundIn(ports, c);
        VerdictIff(ports, es, c, r);
        forall d | Reports(ports, es, d, r) ensures Reports(ports, es, c, r) {
          assert FoundIn(ports, d) == FoundIn(ports, c);
        }
      } else {
        assert forall c | c in es :: !IsConfig(c);
      }
    }
  }

  lemma ModeIff(ports: Ports, es: seq<Entry>, p: string)
    requires Distinct(es)
    ensures Executable(Collect(ports, es).modes, p) <==> FileIsExecutable(es, p)
    ensures p in Collect(ports, es).modes <==> HasFile(es, p)
  {
    ModesCollected(ports, es, p);
  }

  lemma WithinIff(ports: Ports, es: seq<Entry>, root: string)
    ensures (forall p | p in Collect(ports, es).paths :: Within(root, p)) <==>
      forall e | e in es && !Skipped(e) :: Within(root, PathOf(e))
  {
    PathsCollected(ports, es);
  }

  lemma VerdictIff(ports: Ports, es: seq<Entry>, c: Entry, r: Inspection)
    requires Distinct(es) && c in es && IsConfig(c) && Collect(ports, es).config == Some(FoundIn(ports, c))
    ensures Verdict(Collect(ports, es)) == Some(r) <==> Reports(ports, es, c, r)
  {
    var f := FoundIn(ports, c);
    MatchIsACandidate(PathOf(c));
    WithinIff(ports, es, f.root);
    ModeIff(ports, es, Under(f.root, "install.sh"));
    ModeIff(ports, es, Under(f.root, "start.sh"));
    ModeIff(ports, es, Under(f.root, "stop.sh"));
    StartIff(ports, es, f.root, RelativeConfigPath(f.path, f.root));
  }

  lemma StartIff(ports: Ports, es: seq<Entry>, root: string, actual: string)
    requires Distinct(es) && NoSlash(root)
    ensures var s, start := Collect(ports, es), Under(root, "start.sh");
      Consistent(if start in s.starts then s.starts[start] else "", actual) <==>
        forall e | e in es && e.kind == Regular && PathOf(e) == start :: Consistent(e.content, actual)
  {
    var start := Under(root, "start.sh");
    if HasFile(es, start) {
      var e :| e in es && e.kind == Regular && PathOf(e) == start;
      StartWasRead(e, root);
      StartsCollected(ports, es, e);
      forall d | d in es && d.kind == Regular && PathOf(d) == start ensures d.content == e.content {
        StartWasRead(d, root);
        StartsCollected(ports, es, d);
      }
    } else {
      NoStartCollected(ports, es, start);
      assert forall c | c in CANDIDATES :: !Contains("", c.path);
    }
  }

  /** Taking the same entry out of two arrangements leaves two arrangements. */
  lemma Without<T>(front: seq<T>, e: T, b: seq<T>, i: nat)
    requires i < |b| && b[i] == e && multiset(front + [e]) == multiset(b)
    ensures multiset(front) == multiset(b[..i] + b[i + 1..])
  {
    assert b == b[..i] + [e] + b[i + 1..];
    assert multiset(front) == multiset(front + [e]) - multiset{e};
    assert multiset(b[..i] + b[i + 1..]) == multiset(b) - multiset{e};
  }

  lemma {:induction false} SumOfPermutation(a: seq<Entry>, b: seq<Entry>, w: Entry -> int)
    requires multiset(a) == multiset(b)
    ensures Sum(a, w) == Sum(b, w)
  {
    assert |a| == |multiset(a)| == |b|;
    if a != [] {
      var front, e := a[..|a| - 1], a[|a| - 1];
      assert a == front + [e];
      assert e in multiset(b);
      var i :| 0 <= i < |b| && b[i] == e;
      Without(front, e, b, i);
      SumOfPermutation(front, b[..i] + b[i + 1..], w);
      SumWithout(b, i, w);
    }
  }

  lemma {:induction false} SumWithout(es: seq<Entry>, i: nat, w: Entry -> int)
    requires i < |es|
    ensures Sum(es, w) == Sum(es[..i] + es[i + 1..], w) + w(es[i])
  {
    var front := es[..|es| - 1];
    if i == |es| - 1 {
      assert es[..i] + es[i + 1..] == front;
    } else {
      SumWithout(front, i, w);
      assert (es[..i] + es[i + 1..])[..|es| - 2] == front[..i] + front[i + 1..];
    }
  }

  /** The result does not depend on the order of the entries. */
  lemma OrderDoesNotMatter(max: nat, ports: Ports, a: seq<Entry>, b: seq<Entry>)
    requires multiset(a) == multiset(b) && Distinct(a) && Distinct(b)
    ensures Inspected(max, ports, a) == Inspected(max, ports, b)
  {
    SumOfPermutation(a, b, SizeOf);
    SumOfPermutation(a, b, OneConfig);
    assert |a| == |multiset(a)| == |b|;
    assert forall e :: e in a <==> e in multiset(a);
    assert forall e :: e in b <==> e in multiset(b);
    var x, y := Inspected(max, ports, a), Inspected(max, ports, b);
    if x.Some? {
      InspectedIff(max, ports, a, x.value);
      InspectedIff(max, ports, b, x.value);
      SameReports(ports, a, b, x.value);
    } else if y.Some? {
      InspectedIff(max, ports, a, y.value);
      InspectedIff(max, ports, b, y.value);
      SameReports(ports, b, a, y.value);
    }
  }

  lemma SameReports(ports: Ports, a: seq<Entry>, b: seq<Entry>, r: Inspection)
    requires forall e :: e in a <==> e in b
    ensures forall c | Reports(ports, a, c, r) :: Reports(ports, b, c, r)
  {
    assert forall p :: HasFile(a, p) <==> HasFile(b, p);
    assert forall p :: FileIsExecutable(a, p) <==> FileIsExecutable(b, p);
  }

  /** The config path of an accepted archive is one of the four candidates. */
  lemma AcceptedConfigIsACandidate(max: nat, ports: Ports, es: seq<Entry>, r: Inspection)
    ensures Inspected(max, ports, es) == Some(r) ==>
      exists c | c in CANDIDATES :: RelativeConfigPath(r.configPath, r.root) == c.path && r.format == c.format
  {
    if Inspected(max, ports, es) == Some(r) {
      ConfigCollected(ports, es);
      var s := Collect(ports, es);
      var c :| c in es && IsConfig(c) && s.config.value == FoundIn(ports, c);
      MatchIsACandidate(PathOf(c));
    }
  }

  /** Every entry of an accepted archive stays below its directory. */
  lemma AcceptedEntriesStayInside(max: nat, ports: Ports, es: seq<Entry>, e: Entry)
    requires e in es && !Skipped(e)
    ensures Inspected(max, ports, es).Some? ==>
      PathOf(e) != "" && forall seg | seg in Split(PathOf(e)) :: seg != ".." && seg != "." && seg != ""
  {
    if Inspected(max, ports, es).Some? {
      assert Sound(ports, e);
      AcceptedPathStaysInside(e.name);
    }
  }

  // ----- which orders matter -----

  /** The last regular file of a path is the one the accumulators keep. */
  function LastFile(es: seq<Entry>, p: string): Option<Entry> {
    if es == [] then None
    else
      var last := es[|es| - 1];
      if last.kind == Regular && PathOf(last) == p then Some(last) else LastFile(es[..|es| - 1], p)
  }

  lemma {:induction false} LastFileOfAppend(a: seq<Entry>, b: seq<Entry>, p: string)
    ensures LastFile(a + b, p) == if LastFile(b, p).Some? then LastFile(b, p) else LastFile(a, p)
  {
    if b == [] {
      assert a + b == a;
    } else {
      assert (a + b)[..|a + b| - 1] == a + b[..|b| - 1];
      LastFileOfAppend(a, b[..|b| - 1], p);
    }
  }

  lemma {:induction false} LastFileIs(es: seq<Entry>, p: string)
    ensures LastFile(es, p).Some? <==> HasFile(es, p)
    ensures var f := LastFile(es, p); f.Some? ==> f.value in es && f.value.kind == Regular && PathOf(f.value) == p
  {
    if es != [] {
      var front, last := es[..|es| - 1], es[|es| - 1];
      assert es == front + [last];
      LastFileIs(front, p);
      FilesOneMore(front, last, p);
    }
  }

  lemma {:induction false} ModesAreLast(ports: Ports, es: seq<Entry>, p: string)
    ensures p in Collect(ports, es).modes <==> LastFile(es, p).Some?
    ensures LastFile(es, p).Some? ==> Collect(ports, es).modes[p] == LastFile(es, p).value.executable
  {
    if es != [] {
      var front, last := es[..|es| - 1], es[|es| - 1];
      ModesAreLast(ports, front, p);
      AddModes(ports, Collect(ports, front), last, p);
    }
  }

  lemma AddStarts(ports: Ports, s: Scan, e: Entry, p: string)
    requires e.kind == Regular && PathOf(e) == p ==> IsStart(e)
    ensures var starts := Add(ports, s, e).starts;
      if e.kind == Regular && PathOf(e) == p then p in starts && starts[p] == e.content
      else (p in starts <==> p in s.starts) && (p in starts ==> starts[p] == s.starts[p])
  {
  }

  lemma {:induction false} StartsAreLast(ports: Ports, es: seq<Entry>, root: string)
    requires NoSlash(root)
    ensures var p := Under(root, "start.sh"); var starts := Collect(ports, es).starts;
      && (p in starts <==> LastFile(es, p).Some?)
      && (p in starts ==> starts[p] == LastFile(es, p).value.content)
  {
    if es != [] {
      var front, last, p := es[..|es| - 1], es[|es| - 1], Under(root, "start.sh");
      StartsAreLast(ports, front, root);
      if last.kind == Regular && PathOf(last) == p {
        StartWasRead(last, root);
      }
      AddStarts(ports, Collect(ports, front), last, p);
    }
  }

  /** The scripts a verdict looks at. */
  datatype Script = Install | Start | Stop

  function FileName(k: Script): string {
    match k
    case Install => "install.sh"
    case Start => "start.sh"
    case Stop => "stop.sh"
  }

  /** A file with which the verdict on this script is good. */
  predicate Fine(e: Entry, k: Script, actual: string) {
    e.executable && (k == Start ==> Consistent(e.content, actual))
  }

  predicate LastIsFine(es: seq<Entry>, f: Found, k: Script) {
    var last := LastFile(es, Under(f.root, FileName(k)));
    last.Some? ==> Fine(last.value, k, RelativeConfigPath(f.path, f.root))
  }

  predicate Inside(es: seq<Entry>, root: string) {
    forall e | e in es && !Skipped(e) :: Within(root, PathOf(e))
  }

  lemma NothingMentioned()
    ensures forall actual :: Consistent("", actual)
  {
    assert forall c | c in CANDIDATES :: |c.path| > 0;
  }

  /** What is reported of an accepted archive, in whatever order. */
  function Report(es: seq<Entry>, f: Found): Inspection {
    Inspection(f.port, f.format, f.path, f.root, Present(es, f, Install), Present(es, f, Start), Present(es, f, Stop))
  }

  predicate Present(es: seq<Entry>, f: Found, k: Script) {
    LastFile(es, Under(f.root, FileName(k))).Some?
  }

  /** With duplicate paths or without, the last file of each script decides. */
  lemma LastFilesDecide(max: nat, ports: Ports, es: seq<Entry>, c: Entry)
    requires Scans(max, ports, es) && c in es && IsConfig(c)
    ensures var f := FoundIn(ports, c);
      Inspected(max, ports, es) ==
        if Inside(es, f.root) && LastIsFine(es, f, Install) && LastIsFine(es, f, Start) && LastIsFine(es, f, Stop)
        then Some(Report(es, f)) else None
  {
    var f := FoundIn(ports, c);
    ConfigCollected(ports, es);
    MatchIsACandidate(PathOf(c));
    WithinIff(ports, es, f.root);
    ModesAreLast(ports, es, Under(f.root, "install.sh"));
    ModesAreLast(ports, es, Under(f.root, "start.sh"));
    ModesAreLast(ports, es, Under(f.root, "stop.sh"));
    StartsAreLast(ports, es, f.root);
    NothingMentioned();
  }

  /** Some order ends in a good file for every script, and some in a bad one. */
  predicate Mixed(es: seq<Entry>, f: Found) {
    && Inside(es, f.root)
    && (forall k: Script :: CouldBeFine(es, f, k))
    && exists k: Script, e | e in es :: IsScript(e, f, k) && !Fine(e, k, RelativeConfigPath(f.path, f.root))
  }

  predicate IsScript(e: Entry, f: Found, k: Script) {
    e.kind == Regular && PathOf(e) == Under(f.root, FileName(k))
  }

  predicate HasScript(es: seq<Entry>, f: Found, k: Script) {
    exists e | e in es :: IsScript(e, f, k)
  }

  ghost predicate SameInEveryOrder(max: nat, ports: Ports, es: seq<Entry>) {
    forall b | multiset(b) == multiset(es) :: Inspected(max, ports, b) == Inspected(max, ports, es)
  }

  lemma ScriptsAreApart(f: Found, j: Script, k: Script)
    ensures Under(f.root, FileName(j)) == Under(f.root, FileName(k)) <==> j == k
  {
    assert |FileName(Install)| == 10 && |FileName(Start)| == 8 && |FileName(Stop)| == 7;
  }

  lemma SameMembers(a: seq<Entry>, b: seq<Entry>)
    requires multiset(a) == multiset(b)
    ensures forall e :: e in a <==> e in b
  {
    assert forall e :: e in a <==> e in multiset(a);
    assert forall e :: e in b <==> e in multiset(b);
  }

  lemma ScansInEveryOrder(max: nat, ports: Ports, a: seq<Entry>, b: seq<Entry>)
    requires multiset(a) == multiset(b)
    ensures Scans(max, ports, a) <==> Scans(max, ports, b)
  {
    SumOfPermutation(a, b, SizeOf);
    SumOfPermutation(a, b, OneConfig);
    SameMembers(a, b);
    assert |a| == |multiset(a)| == |b|;
  }

  function MovedToEnd(es: seq<Entry>, i: nat): seq<Entry>
    requires i < |es|
  {
    es[..i] + es[i + 1..] + [es[i]]
  }

  lemma MovedIsPermutation(es: seq<Entry>, i: nat)
    requires i < |es|
    ensures multiset(MovedToEnd(es, i)) == multiset(es)
  {
    assert es == es[..i] + [es[i]] + es[i + 1..];
  }

  /** Moving a file to the end makes it the last of its path and changes no other last. */
  lemma MovedIsLast(es: seq<Entry>, i: nat, p: string)
    requires i < |es| && es[i].kind == Regular
    ensures LastFile(MovedToEnd(es, i), p) == if PathOf(es[i]) == p then Some(es[i]) else LastFile(es, p)
  {
    var a, e, b := es[..i], es[i], es[i + 1..];
    LastFileOfAppend(a + b, [e], p);
    LastFileOfAppend(a, b, p);
    LastFileOfAppend(a, [e] + b, p);
    LastFileOfAppend([e], b, p);
    assert [e][..0] == [] && a + ([e] + b) == es;
  }

  lemma WithFileLast(es: seq<Entry>, f: Found, k: Script, e: Entry) returns (b: seq<Entry>)
    requires e in es && IsScript(e, f, k)
    ensures multiset(b) == multiset(es) && LastFile(b, Under(f.root, FileName(k))) == Some(e)
    ensures forall j: Script | j != k :: LastFile(b, Under(f.root, FileName(j))) == LastFile(es, Under(f.root, FileName(j)))
  {
    var i: nat :| i < |es| && es[i] == e;
    b := MovedToEnd(es, i);
    forall j: Script ensures LastFile(b, Under(f.root, FileName(j))) ==
      if j == k then Some(e) else LastFile(es, Under(f.root, FileName(j)))
    {
      ScriptsAreApart(f, k, j);
      MovedIsLast(es, i, Under(f.root, FileName(j)));
    }
    MovedIsPermutation(es, i);
  }

  /** An order in which this script's last file is good, the other scripts' as they were. */
  lemma WithGoodLast(es: seq<Entry>, f: Found, k: Script) returns (b: seq<Entry>)
    requires CouldBeFine(es, f, k)
    ensures multiset(b) == multiset(es) && LastIsFine(b, f, k)
    ensures forall j: Script | j != k :: LastFile(b, Under(f.root, FileName(j))) == LastFile(es, Under(f.root, FileName(j)))
  {
    if HasScript(es, f, k) {
      var e :| e in es && IsScript(e, f, k) && Fine(e, k, RelativeConfigPath(f.path, f.root));
      b := WithFileLast(es, f, k, e);
    } else {
      LastFileIs(es, Under(f.root, FileName(k)));
      b := es;
    }
  }

  predicate CouldBeFine(es: seq<Entry>, f: Found, k: Script) {
    HasScript(es, f, k) ==> exists e | e in es :: IsScript(e, f, k) && Fine(e, k, RelativeConfigPath(f.path, f.root))
  }

  lemma CouldBeFineInEveryOrder(a: seq<Entry>, b: seq<Entry>, f: Found, k: Script)
    requires multiset(a) == multiset(b)
    ensures CouldBeFine(a, f, k) <==> CouldBeFine(b, f, k)
  {
    SameMembers(a, b);
  }

  /** An order in which every script's last file is good. */
  lemma AllGoodLast(es: seq<Entry>, f: Found) returns (a: seq<Entry>)
    requires forall k: Script :: CouldBeFine(es, f, k)
    ensures multiset(a) == multiset(es) && forall k: Script :: LastIsFine(a, f, k)
  {
    a := WithGoodLast(es, f, Install);
    CouldBeFineInEveryOrder(es, a, f, Start);
    a := WithGoodLast(a, f, Start);
    CouldBeFineInEveryOrder(es, a, f, Stop);
    a := WithGoodLast(a, f, Stop);
    forall k: Script ensures LastIsFine(a, f, k) {
      assert k == Install || k == Start || k == Stop;
    }
  }

  /** The verdict on any order of an archive that passes the limits with nothing outside. */
  lemma VerdictOfOrder(max: nat, ports: Ports, es: seq<Entry>, c: Entry, a: seq<Entry>)
    requires Scans(max, ports, es) && c in es && IsConfig(c) && multiset(a) == multiset(es)
    ensures var f := FoundIn(ports, c);
      Inspected(max, ports, a) ==
        if Inside(es, f.root) && forall k: Script :: LastIsFine(a, f, k) then Some(Report(es, f)) else None
  {
    var f := FoundIn(ports, c);
    SameMembers(es, a);
    ScansInEveryOrder(max, ports, es, a);
    LastFilesDecide(max, ports, a, c);
    assert Inside(es, f.root) <==> Inside(a, f.root);
    SameReport(es, a, f);
    EveryScript(a, f);
  }

  lemma EveryScript(a: seq<Entry>, f: Found)
    ensures (forall k: Script :: LastIsFine(a, f, k)) <==>
      LastIsFine(a, f, Install) && LastIsFine(a, f, Start) && LastIsFine(a, f, Stop)
  {
    if LastIsFine(a, f, Install) && LastIsFine(a, f, Start) && LastIsFine(a, f, Stop) {
      forall k: Script ensures LastIsFine(a, f, k) {
        assert k == Install || k == Start || k == Stop;
      }
    }
  }

  lemma SameReport(a: seq<Entry>, b: seq<Entry>, f: Found)
    requires forall e :: e in a <==> e in b
    ensures Report(a, f) == Report(b, f)
  {
    ReportInEveryOrder(a, b, f, Install);
    ReportInEveryOrder(a, b, f, Start);
    ReportInEveryOrder(a, b, f, Stop);
  }

  /** Two orders of a mixed archive, one accepted and one refused. */
  lemma MixedOrdersDiffer(max: nat, ports: Ports, es: seq<Entry>, c: Entry) returns (a: seq<Entry>, b: seq<Entry>)
    requires Scans(max, ports, es) && c in es && IsConfig(c) && Mixed(es, FoundIn(ports, c))
    ensures multiset(a) == multiset(es) == multiset(b)
    ensures Inspected(max, ports, a).Some? && Inspected(max, ports, b).None?
  {
    var f := FoundIn(ports, c);
    a := AllGoodLast(es, f);
    VerdictOfOrder(max, ports, es, c, a);
    var k: Script := BadScript(es, f);
    var e :| e in es && IsScript(e, f, k) && !Fine(e, k, RelativeConfigPath(f.path, f.root));
    b := WithFileLast(es, f, k, e);
    assert !LastIsFine(b, f, k);
    VerdictOfOrder(max, ports, es, c, b);
  }

  lemma BadScript(es: seq<Entry>, f: Found) returns (k: Script)
    requires Mixed(es, f)
    ensures exists e | e in es :: IsScript(e, f, k) && !Fine(e, k, RelativeConfigPath(f.path, f.root))
  {
    k :| exists e | e in es :: IsScript(e, f, k) && !Fine(e, k, RelativeConfigPath(f.path, f.root));
  }

  lemma ReportInEveryOrder(a: seq<Entry>, b: seq<Entry>, f: Found, k: Script)
    requires forall e :: e in a <==> e in b
    ensures Present(a, f, k) <==> Present(b, f, k)
    ensures Present(a, f, k) <==> HasScript(a, f, k)
    ensures (forall e | e in a :: !IsScript(e, f, k) || Fine(e, k, RelativeConfigPath(f.path, f.root))) ==> LastIsFine(b, f, k)
    ensures HasScript(a, f, k) && (forall e | e in a :: !IsScript(e, f, k) || !Fine(e, k, RelativeConfigPath(f.path, f.root))) ==>
      !LastIsFine(b, f, k)
  {
    var p := Under(f.root, FileName(k));
    LastFileIs(a, p);
    LastFileIs(b, p);
    assert HasFile(a, p) <==> HasScript(a, f, k);
    assert HasFile(a, p) <==> HasFile(b, p);
  }

  /** Not mixed means that some script has bad files only, or that no script has a bad one. */
  lemma BadOrGood(es: seq<Entry>, b: seq<Entry>, f: Found)
    requires Inside(es, f.root) && !Mixed(es, f) && forall e :: e in es <==> e in b
    ensures (exists k: Script :: !LastIsFine(es, f, k) && !LastIsFine(b, f, k))
      || (forall k: Script :: LastIsFine(es, f, k) && LastIsFine(b, f, k))
  {
    var actual := RelativeConfigPath(f.path, f.root);
    if k: Script :| HasScript(es, f, k) && forall e | e in es :: !IsScript(e, f, k) || !Fine(e, k, actual) {
      ReportInEveryOrder(es, es, f, k);
      ReportInEveryOrder(es, b, f, k);
    } else {
      forall k: Script ensures LastIsFine(es, f, k) && LastIsFine(b, f, k) {
        assert CouldBeFine(es, f, k);
        ReportInEveryOrder(es, es, f, k);
        ReportInEveryOrder(es, b, f, k);
      }
    }
  }

  lemma UnmixedOrdersAgree(max: nat, ports: Ports, es: seq<Entry>, b: seq<Entry>, c: Entry)
    requires Scans(max, ports, es) && c in es && IsConfig(c) && !Mixed(es, FoundIn(ports, c)) && multiset(b) == multiset(es)
    ensures Inspected(max, ports, b) == Inspected(max, ports, es)
  {
    var f := FoundIn(ports, c);
    VerdictOfOrder(max, ports, es, c, es);
    VerdictOfOrder(max, ports, es, c, b);
    SameMembers(es, b);
    if Inside(es, f.root) {
      BadOrGood(es, b, f);
    }
  }

  /** Exactly when the order of the entries matters: the archive passes the limits, has its
      config and nothing outside its root, every script it has could be good, and some script
      has a file that is not: one that is not executable or, for start.sh, mentions another
      config. Equal duplicates, and duplicates of other files, never matter. */
  lemma OrderMattersIff(max: nat, ports: Ports, es: seq<Entry>)
    ensures SameInEveryOrder(max, ports, es) <==>
      !(Scans(max, ports, es) && exists c | c in es :: IsConfig(c) && Mixed(es, FoundIn(ports, c)))
  {
    if Scans(max, ports, es) && exists c | c in es :: IsConfig(c) && Mixed(es, FoundIn(ports, c)) {
      var c :| c in es && IsConfig(c) && Mixed(es, FoundIn(ports, c));
      var a, b := MixedOrdersDiffer(max, ports, es, c);
    } else {
      forall b | multiset(b) == multiset(es) ensures Inspected(max, ports, b) == Inspected(max, ports, es) {
        ScansInEveryOrder(max, ports, es, b);
        SameMembers(es, b);
        if Scans(max, ports, es) {
          if c :| c in es && IsConfig(c) {
            UnmixedOrdersAgree(max, ports, es, b, c);
          } else {
            ConfigCollected(ports, es);
            ConfigCollected(ports, b);
          }
        }
      }
    }
  }

  // ----- duplicate paths -----

  const CONFIG_FILE := Entry("config/config.json", Regular, 2, false, "{}")
  const GOOD_START := Entry("start.sh", Regular, 0, true, "")
  const BAD_START := Entry("start.sh", Regular, 0, false, "")

  lemma ConfigNameIsClean()
    ensures PathOf(CONFIG_FILE) == "config/config.json"
  {
    var segs := ["config", "config.json"];
    assert segs[1..] == ["config.json"];
    assert Join(segs) == "config/config.json";
    PlainPathIsAccepted(segs);
  }

  lemma StartNameIsClean()
    ensures PathOf(GOOD_START) == "start.sh" == PathOf(BAD_START)
  {
    assert Join(["start.sh"]) == "start.sh";
    PlainPathIsAccepted(["start.sh"]);
  }

  lemma FilesAreRecognised(ports: Ports)
    requires ports("{}", "json") == Some(80)
    ensures IsConfig(CONFIG_FILE) && FoundIn(ports, CONFIG_FILE) == Found("config/config.json", "", "json", 80)
    ensures IsStart(GOOD_START) && IsStart(BAD_START) && !IsConfig(GOOD_START) && !IsConfig(BAD_START)
  {
    ConfigNameIsClean();
    StartNameIsClean();
    assert MatchFrom("config/config.json", 0) == Some(("", CANDIDATES[0]));
    StartWasRead(GOOD_START, "");
    StartWasRead(BAD_START, "");
  }

  function Tail(good: bool): seq<Entry> {
    if good then [CONFIG_FILE] + [BAD_START] + [GOOD_START] else [CONFIG_FILE] + [GOOD_START] + [BAD_START]
  }

  /** With two start.sh the later one decides: the same entries are accepted in one order and
      refused in the other. */
  lemma DuplicatesDependOnOrder(ports: Ports)
    requires ports("{}", "json") == Some(80)
    ensures multiset(Tail(true)) == multiset(Tail(false))
    ensures Inspected(100, ports, Tail(true)).Some? && Inspected(100, ports, Tail(false)).None?
  {
    LastStartDecides(ports, BAD_START, GOOD_START, Tail(true));
    LastStartDecides(ports, GOOD_START, BAD_START, Tail(false));
  }

  lemma ThreeScan(max: nat, ports: Ports, c: Entry, a: Entry, b: Entry)
    requires Sound(ports, c) && Sound(ports, a) && Sound(ports, b) && !IsConfig(a) && !IsConfig(b)
    requires SizeOf(c) <= max && SizeOf(a) == 0 == SizeOf(b)
    ensures Scans(max, ports, [c] + [a] + [b])
  {
    assert [] + [c] == [c];
    ScansOneMore(max, ports, [], c);
    SumOneMore([], c, SizeOf);
    ScansOneMore(max, ports, [c], a);
    SumOneMore([c], a, SizeOf);
    ScansOneMore(max, ports, [c] + [a], b);
  }

  lemma FilesAreSound(ports: Ports)
    requires ports("{}", "json") == Some(80)
    ensures Sound(ports, CONFIG_FILE) && Sound(ports, GOOD_START) && Sound(ports, BAD_START)
  {
    FilesAreRecognised(ports);
    ConfigNameIsClean();
    StartNameIsClean();
  }

  lemma TwoStartsScan(ports: Ports, first: Entry, last: Entry)
    requires ports("{}", "json") == Some(80)
    requires first in {GOOD_START, BAD_START} && last in {GOOD_START, BAD_START}
    ensures Scans(100, ports, [CONFIG_FILE] + [first] + [last])
  {
    FilesAreSound(ports);
    FilesAreRecognised(ports);
    ThreeScan(100, ports, CONFIG_FILE, first, last);
  }

  /** The accumulators after a config file and two start scripts of one path. */
  function Both(ports: Ports, c: Entry, a: Entry, b: Entry): Scan
    requires IsConfig(c)
  {
    Scan([PathOf(c)] + [PathOf(a)] + [PathOf(b)],
         map[PathOf(c) := c.executable][PathOf(a) := a.executable][PathOf(b) := b.executable],
         map[PathOf(a) := a.content][PathOf(b) := b.content], Some(FoundIn(ports, c)))
  }

  lemma AddConfig(ports: Ports, s: Scan, e: Entry)
    requires IsConfig(e)
    ensures Add(ports, s, e) == Scan(s.paths + [PathOf(e)], s.modes[PathOf(e) := e.executable],
                                     s.starts, Some(FoundIn(ports, e)))
  {
  }

  lemma AddStart(ports: Ports, s: Scan, e: Entry)
    requires IsStart(e)
    ensures Add(ports, s, e) == Scan(s.paths + [PathOf(e)], s.modes[PathOf(e) := e.executable],
                                     s.starts[PathOf(e) := e.content], s.config)
  {
  }

  lemma CollectBoth(ports: Ports, c: Entry, a: Entry, b: Entry, es: seq<Entry>)
    requires IsConfig(c) && IsStart(a) && IsStart(b) && es == [c] + [a] + [b]
    ensures Collect(ports, es) == Both(ports, c, a, b)
  {
    var none := Scan([], map[], map[], None);
    assert [] + [c] == [c];
    CollectOneMore(ports, [], c);
    AddConfig(ports, none, c);
    CollectOneMore(ports, [c], a);
    AddStart(ports, Add(ports, none, c), a);
    CollectOneMore(ports, [c] + [a], b);
    AddStart(ports, Add(ports, Add(ports, none, c), a), b);
  }

  /** Of two start scripts at the root the later one decides. */
  lemma LaterStartDecides(ports: Ports, c: Entry, a: Entry, b: Entry, install: string, start: string, stop: string)
    requires IsConfig(c) && FoundIn(ports, c).root == ""
    requires install == "install.sh" && start == "start.sh" && stop == "stop.sh"
    requires PathOf(a) == PathOf(b) == start && PathOf(c) !in {install, start, stop} && start !in {install, stop}
    requires Consistent(b.content, RelativeConfigPath(PathOf(c), ""))
    ensures Verdict(Both(ports, c, a, b)).Some? <==> b.executable
  {
    var s := Both(ports, c, a, b);
    assert s.starts[start] == b.content && s.modes[start] == b.executable;
    assert install !in s.modes && stop !in s.modes;
  }

  lemma InspectedFrom(max: nat, ports: Ports, es: seq<Entry>, s: Scan)
    requires Scans(max, ports, es) && Collect(ports, es) == s
    ensures Inspected(max, ports, es) == Verdict(s)
  {
  }

  lemma LastStartDecides(ports: Ports, first: Entry, last: Entry, es: seq<Entry>)
    requires ports("{}", "json") == Some(80) && es == [CONFIG_FILE] + [first] + [last]
    requires first in {GOOD_START, BAD_START} && last in {GOOD_START, BAD_START}
    ensures Inspected(100, ports, es).Some? <==> last.executable
  {
    TwoStartsScan(ports, first, last);
    TwoStartsCollect(ports, first, last, es);
    InspectedFrom(100, ports, es, Collect(ports, es));
  }

  lemma TwoStartsCollect(ports: Ports, first: Entry, last: Entry, es: seq<Entry>)
    requires ports("{}", "json") == Some(80) && es == [CONFIG_FILE] + [first] + [last]
    requires first in {GOOD_START, BAD_START} && last in {GOOD_START, BAD_START}
    ensures Verdict(Collect(ports, es)).Some? <==> last.executable
  {
    FilesAreRecognised(ports);
    CollectBoth(ports, CONFIG_FILE, first, last, es);
    TwoStartsVerdict(ports, first, last);
  }

  lemma TwoStartsVerdict(ports: Ports, first: Entry, last: Entry)
    requires IsConfig(CONFIG_FILE) && FoundIn(ports, CONFIG_FILE).root == ""
    requires first in {GOOD_START, BAD_START} && last in {GOOD_START, BAD_START}
    ensures Verdict(Both(ports, CONFIG_FILE, first, last)).Some? <==> last.executable
  {
    ConfigNameIsClean();
    StartNameIsClean();
    NothingMentioned();
    assert "config/config.json"[0] == 'c' && |"install.sh"| == 10 && |"start.sh"| == 8 && |"stop.sh"| == 7;
    LaterStartDecides(ports, CONFIG_FILE, first, last, "install.sh", "start.sh", "stop.sh");
  }

  lemma CollectOneMore(ports: Ports, es: seq<Entry>, e: Entry)
    ensures Collect(ports, es + [e]) == Add(ports, Collect(ports, es), e)
  {
    assert (es + [e])[..|es|] == es;
  }
}
