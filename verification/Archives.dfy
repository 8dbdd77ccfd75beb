/** Which archives an inspection accepts and what it reports of them, said of the entries alone:
    no accumulators, no early exits, and none of the matching functions of the pass. */
module Archives {
  import opened Prelude
  import opened Paths
  import opened Inspect

  /** The path is a candidate, or a candidate below one directory. */
  ghost predicate NamesConfig(path: string, root: string, c: Candidate) {
    c in CANDIDATES && NoSlash(root) && path == if root == "" then c.path else root + "/" + c.path
  }

  ghost predicate NamesStart(path: string) {
    path == "start.sh" || exists root | root != "" && NoSlash(root) :: path == root + "/" + "start.sh"
  }

  // ----- matching is naming -----

  function FileOf(c: Candidate): string {
    if c == CANDIDATES[0] then "config.json"
    else if c == CANDIDATES[1] then "config.yaml"
    else if c == CANDIDATES[2] then "application.yml"
    else "application.yaml"
  }

  lemma FirstCandidate()
    ensures CANDIDATES[0].path == DIR + "/" + "config.json"
  {
  }

  lemma SecondCandidate()
    ensures CANDIDATES[1].path == DIR + "/" + "config.yaml"
  {
  }

  lemma ThirdCandidate()
    ensures CANDIDATES[2].path == DIR + "/" + "application.yml"
  {
  }

  lemma FourthCandidate()
    ensures CANDIDATES[3].path == DIR + "/" + "application.yaml"
  {
  }

  const DIR := "config"

  lemma FilesAreNames(c: Candidate)
    requires c in CANDIDATES
    ensures NoSlash(DIR) && NoSlash(FileOf(c)) && c.path == DIR + "/" + FileOf(c)
  {
    FirstCandidate();
    SecondCandidate();
    ThirdCandidate();
    FourthCandidate();
  }

  lemma SplitTwo(a: string, b: string)
    requires NoSlash(a) && NoSlash(b)
    ensures Split(a + "/" + b) == [a, b]
  {
    SplitFirst(a, b);
    SplitNone(b);
  }

  lemma CandidateSegments(c: Candidate)
    requires c in CANDIDATES
    ensures Split(c.path) == [DIR, FileOf(c)]
  {
    FilesAreNames(c);
    SplitTwo(DIR, FileOf(c));
  }

  lemma FilesAreApart(c: Candidate, d: Candidate)
    requires c in CANDIDATES && d in CANDIDATES && FileOf(c) == FileOf(d)
    ensures c == d
  {
    assert |"config.json"| == 11 && |"config.yaml"| == 11 && |"application.yml"| == 15 && |"application.yaml"| == 16;
    assert "config.json"[7] != "config.yaml"[7];
  }

  lemma ConfigSegments(path: string, root: string, c: Candidate)
    requires NamesConfig(path, root, c)
    ensures Split(path) == (if root == "" then [] else [root]) + [DIR, FileOf(c)]
  {
    CandidateSegments(c);
    if root != "" {
      SplitFirst(root, c.path);
    }
  }

  /** A path names at most one config, in one way. */
  lemma NamesOnce(path: string, root: string, c: Candidate, other: string, d: Candidate)
    requires NamesConfig(path, root, c) && NamesConfig(path, other, d)
    ensures root == other && c == d
  {
    ConfigSegments(path, root, c);
    ConfigSegments(path, other, d);
    var segs := Split(path);
    assert segs[|segs| - 1] == FileOf(c) == FileOf(d);
    FilesAreApart(c, d);
    if root != "" {
      assert segs[0] == root && |segs| == 3;
    }
  }

  lemma {:induction false} SomeMatch(name: string, k: nat, i: nat)
    requires k <= i < |CANDIDATES| && MatchRootFile(name, CANDIDATES[i].path).Some?
    ensures MatchFrom(name, k).Some?
    decreases i - k
  {
    if k < i && MatchRootFile(name, CANDIDATES[k].path).None? {
      SomeMatch(name, k + 1, i);
    }
  }

  /** The loop over the candidates finds the one the path names, if any. */
  lemma MatchIsName(path: string, root: string, c: Candidate)
    ensures MatchConfig(path) == Some((root, c)) <==> NamesConfig(path, root, c)
  {
    if MatchConfig(path).Some? {
      MatchIsACandidate(path);
      var (r, d) := MatchConfig(path).value;
      assert NamesConfig(path, r, d);
      if NamesConfig(path, root, c) {
        NamesOnce(path, root, c, r, d);
      }
    } else if NamesConfig(path, root, c) {
      var i :| 0 <= i < |CANDIDATES| && CANDIDATES[i] == c;
      assert root != "" ==> |path| > |c.path|;
      MatchRootFileIs(path, c.path, root);
      SomeMatch(path, 0, i);
    }
  }

  lemma StartIsName(path: string)
    ensures MatchRootFile(path, "start.sh").Some? <==> NamesStart(path)
  {
    if MatchRootFile(path, "start.sh").Some? {
      RootFileIsUnder(path, "start.sh");
    } else if NamesStart(path) && path != "start.sh" {
      var root :| root != "" && NoSlash(root) && path == root + "/" + "start.sh";
      MatchRootFileIs(path, "start.sh", root);
    }
  }

  // ----- one entry -----

  /** The archive's own top directory. */
  ghost predicate Top(e: Entry) {
    e.kind == Directory && Clean(e.name) == "." && (e.name == "" || e.name[0] != '/')
  }

  ghost predicate HoldsConfig(e: Entry) {
    e.kind == Regular && exists root, c :: NamesConfig(CleanArchivePath(e.name), root, c)
  }

  /** A safe path and a directory or a regular file; a config of at most 10 MiB that sets a port, a
      start.sh of at most 1 MiB. */
  ghost predicate Acceptable(ports: Ports, e: Entry) {
    var path := CleanArchivePath(e.name);
    Top(e) || (path != "" && (e.kind == Directory || (e.kind == Regular && e.size >= 0
      && (forall root, c | NamesConfig(path, root, c) :: e.size <= 10 * 1024 * 1024 && ports(e.content, c.format).Some?)
      && (NamesStart(path) ==> e.size <= 1024 * 1024))))
  }

  lemma ConfigIsNamed(e: Entry)
    ensures IsConfig(e) <==> HoldsConfig(e)
  {
    var path := CleanArchivePath(e.name);
    if MatchConfig(path).Some? {
      var (root, c) := MatchConfig(path).value;
      MatchIsName(path, root, c);
    }
    if root, c :| NamesConfig(path, root, c) {
      MatchIsName(path, root, c);
    }
  }

  lemma StartIsNoConfig(path: string)
    requires NamesStart(path)
    ensures MatchConfig(path).None?
  {
    if MatchConfig(path).Some? {
      ConfigIsNoScript(path);
    }
  }

  lemma AcceptableIff(ports: Ports, e: Entry)
    ensures Sound(ports, e) <==> Acceptable(ports, e)
  {
    var path := CleanArchivePath(e.name);
    ConfigIsNamed(e);
    StartIsName(path);
    if NamesStart(path) {
      StartIsNoConfig(path);
    }
    forall root, c | NamesConfig(path, root, c) ensures MatchConfig(path) == Some((root, c)) {
      MatchIsName(path, root, c);
    }
    if MatchConfig(path).Some? {
      var (root, c) := MatchConfig(path).value;
      MatchIsName(path, root, c);
    }
  }

  // ----- the whole archive -----

  /** The sizes of the regular files together. */
  function Expanded(es: seq<Entry>): int {
    if es == [] then 0
    else Expanded(es[..|es| - 1]) + if es[|es| - 1].kind == Regular then es[|es| - 1].size else 0
  }

  lemma {:induction false} ExpandedIsSum(es: seq<Entry>)
    ensures Sum(es, SizeOf) == Expanded(es)
  {
    if es != [] {
      ExpandedIsSum(es[..|es| - 1]);
    }
  }

  ghost predicate OneAtMost(es: seq<Entry>, p: Entry -> bool) {
    forall i, j | 0 <= i < j < |es| :: !(p(es[i]) && p(es[j]))
  }

  ghost predicate NoneOf(es: seq<Entry>, p: Entry -> bool) {
    forall i | 0 <= i < |es| :: !p(es[i])
  }

  lemma OneMoreEntry(es: seq<Entry>, e: Entry, p: Entry -> bool)
    ensures NoneOf(es + [e], p) <==> NoneOf(es, p) && !p(e)
    ensures OneAtMost(es + [e], p) <==> OneAtMost(es, p) && (p(e) ==> NoneOf(es, p))
  {
    var more := es + [e];
    assert more[|es|] == e && forall i | 0 <= i < |es| :: more[i] == es[i];
  }

  lemma {:induction false} EntriesAreCounted(es: seq<Entry>, w: Entry -> int, p: Entry -> bool)
    requires forall e :: w(e) == if p(e) then 1 else 0
    ensures Sum(es, w) >= 0
    ensures (Sum(es, w) == 0 <==> NoneOf(es, p)) && (Sum(es, w) <= 1 <==> OneAtMost(es, p))
  {
    if es != [] {
      var front, e := es[..|es| - 1], es[|es| - 1];
      EntriesAreCounted(front, w, p);
      OneMoreEntry(front, e, p);
      assert front + [e] == es;
    }
  }

  ghost predicate FileAt(es: seq<Entry>, i: nat, path: string)
    requires i < |es|
  {
    es[i].kind == Regular && CleanArchivePath(es[i].name) == path
  }

  /** The last regular file of the path: the one that is left after extraction. */
  ghost predicate LastAt(es: seq<Entry>, i: nat, path: string)
    requires i < |es|
  {
    FileAt(es, i, path) && forall j: nat | i < j < |es| :: !FileAt(es, j, path)
  }

  lemma LastStays(es: seq<Entry>, e: Entry, i: nat, path: string)
    requires i < |es| && LastAt(es, i, path) && !(e.kind == Regular && CleanArchivePath(e.name) == path)
    ensures LastAt(es + [e], i, path)
  {
    var more := es + [e];
    forall j: nat | i < j < |more| ensures !FileAt(more, j, path) {
      assert j < |es| ==> !FileAt(es, j, path);
    }
    assert FileAt(more, i, path);
  }

  lemma NoneStays(es: seq<Entry>, e: Entry, path: string)
    requires (forall i: nat | i < |es| :: !FileAt(es, i, path)) && !(e.kind == Regular && CleanArchivePath(e.name) == path)
    ensures forall i: nat | i < |es| + 1 :: !FileAt(es + [e], i, path)
  {
    forall i: nat | i < |es| + 1 ensures !FileAt(es + [e], i, path) {
      assert i < |es| ==> !FileAt(es, i, path);
    }
  }

  lemma {:induction false} LastFileIsLast(es: seq<Entry>, path: string)
    ensures LastFile(es, path).None? ==> forall i: nat | i < |es| :: !FileAt(es, i, path)
    ensures LastFile(es, path).Some? ==>
      exists i: nat | i < |es| :: LastAt(es, i, path) && es[i] == LastFile(es, path).value
  {
    if es != [] {
      var n, front := |es| - 1, es[..|es| - 1];
      LastFileIsLast(front, path);
      assert front + [es[n]] == es;
      if es[n].kind == Regular && PathOf(es[n]) == path {
        assert LastAt(es, n, path);
      } else if LastFile(front, path).Some? {
        var i: nat :| i < n && LastAt(front, i, path) && front[i] == LastFile(front, path).value;
        LastStays(front, es[n], i, path);
      } else {
        NoneStays(front, es[n], path);
      }
    }
  }

  /** The script that is left is executable, and a start.sh mentions no config path but the one in
      the archive. */
  ghost predicate ScriptOk(es: seq<Entry>, path: string, start: bool, actual: string) {
    forall i: nat | i < |es| && LastAt(es, i, path) :: es[i].executable && (start ==> MentionsOnly(es[i].content, actual))
  }

  ghost predicate MentionsOnly(content: string, actual: string) {
    forall c | c in CANDIDATES && c.path != actual :: !Mentions(content, c.path)
  }

  ghost predicate Mentions(content: string, path: string) {
    exists before, after :: content == before + path + after
  }

  ghost predicate Has(es: seq<Entry>, path: string) {
    exists i: nat | i < |es| :: FileAt(es, i, path)
  }

  function In(root: string, file: string): string {
    if root == "" then file else root + "/" + file
  }

  ghost predicate Below(root: string, path: string) {
    root == "" || path == root || (|path| > |root| && path[..|root|] == root && path[|root|] == '/')
  }

  /** The archive is well made around its config, the entry at `at`. */
  ghost predicate WellMade(max: nat, ports: Ports, es: seq<Entry>, at: nat, root: string, c: Candidate) {
    && |es| <= 100_000 && Expanded(es) <= max && (forall e | e in es :: Acceptable(ports, e))
    && at < |es| && es[at].kind == Regular && NamesConfig(CleanArchivePath(es[at].name), root, c)
    && (forall j: nat | j < |es| && j != at :: !HoldsConfig(es[j]))
    && Built(es, root, c)
  }

  /** Everything below the config's directory, and the scripts beside the config in order. */
  ghost predicate Built(es: seq<Entry>, root: string, c: Candidate) {
    && (forall e | e in es && !Top(e) :: Below(root, CleanArchivePath(e.name)))
    && ScriptOk(es, In(root, "install.sh"), false, c.path)
    && ScriptOk(es, In(root, "start.sh"), true, c.path)
    && ScriptOk(es, In(root, "stop.sh"), false, c.path)
  }

  lemma BuiltIff(es: seq<Entry>, f: Found, c: Candidate)
    requires f.path == In(f.root, c.path) && c in CANDIDATES
    ensures Built(es, f.root, c) <==>
      Inside(es, f.root) && LastIsFine(es, f, Install) && LastIsFine(es, f, Start) && LastIsFine(es, f, Stop)
  {
    ScriptIsFine(es, f, Install, c);
    ScriptIsFine(es, f, Start, c);
    ScriptIsFine(es, f, Stop, c);
    InsideIsBelow(es, f.root);
  }

  lemma ReportIs(ports: Ports, es: seq<Entry>, at: nat, root: string, c: Candidate, f: Found)
    requires at < |es| && f.path == In(f.root, c.path) && c in CANDIDATES
    requires f == Found(CleanArchivePath(es[at].name), root, c.format, f.port) && ports(es[at].content, c.format) == Some(f.port)
    ensures Reported(ports, es, at, root, c, Report(es, f))
  {
    ScriptIsFine(es, f, Install, c);
    ScriptIsFine(es, f, Start, c);
    ScriptIsFine(es, f, Stop, c);
  }

  lemma ScriptIsFine(es: seq<Entry>, f: Found, k: Script, c: Candidate)
    requires f.path == In(f.root, c.path) && c in CANDIDATES
    ensures LastIsFine(es, f, k) <==> ScriptOk(es, In(f.root, FileName(k)), k == Start, c.path)
    ensures Present(es, f, k) <==> Has(es, In(f.root, FileName(k)))
  {
    var path := In(f.root, FileName(k));
    LastFileIsLast(es, path);
    CandidatesAreRelative(c);
    RelativeToRoot(f.root, c.path);
    if LastFile(es, path).Some? {
      var i: nat :| i < |es| && LastAt(es, i, path) && es[i] == LastFile(es, path).value;
      OtherMentions(es[i].content, c.path);
      forall j: nat | j < |es| ensures LastAt(es, j, path) <==> j == i {
      }
    }
  }

  lemma MentionIsContained(content: string, path: string)
    ensures Contains(content, path) <==> Mentions(content, path)
  {
    if Contains(content, path) {
      var k: nat :| k <= |content| && At(content, path, k);
      assert content == content[..k] + path + content[k + |path|..];
    }
    if before, after :| content == before + path + after {
      assert At(content, path, |before|);
    }
  }

  lemma OtherMentions(content: string, actual: string)
    ensures Consistent(content, actual) <==> MentionsOnly(content, actual)
  {
    forall c | c in CANDIDATES ensures Contains(content, c.path) <==> Mentions(content, c.path) {
      MentionIsContained(content, c.path);
    }
  }

  lemma BelowIsWithin(root: string, path: string)
    ensures Within(root, path) <==> Below(root, path)
  {
    if |path| > |root| {
      assert path[..|root| + 1] == path[..|root|] + [path[|root|]];
      assert (root + "/")[..|root|] == root && (root + "/")[|root|] == '/';
    }
  }

  lemma LimitsAre(max: nat, ports: Ports, es: seq<Entry>)
    ensures Scans(max, ports, es) <==>
      |es| <= 100_000 && Expanded(es) <= max && (forall e | e in es :: Acceptable(ports, e)) && OneAtMost(es, IsConfig)
  {
    ExpandedIsSum(es);
    EntriesAreCounted(es, OneConfig, IsConfig);
    forall e | e in es ensures Sound(ports, e) <==> Acceptable(ports, e) {
      AcceptableIff(ports, e);
    }
  }

  lemma InsideIsBelow(es: seq<Entry>, root: string)
    ensures Inside(es, root) <==> forall e | e in es && !Top(e) :: Below(root, CleanArchivePath(e.name))
  {
    forall e | e in es ensures Within(root, PathOf(e)) <==> Below(root, CleanArchivePath(e.name)) {
      BelowIsWithin(root, PathOf(e));
    }
  }

  lemma FoundIs(ports: Ports, e: Entry, root: string, c: Candidate)
    requires e.kind == Regular && NamesConfig(CleanArchivePath(e.name), root, c) && Sound(ports, e)
    ensures IsConfig(e) && ports(e.content, c.format).Some?
    ensures FoundIn(ports, e) == Found(PathOf(e), root, c.format, ports(e.content, c.format).value)
  {
    MatchIsName(PathOf(e), root, c);
  }

  /** The config of an archive within the limits decides the verdict. */
  lemma WellMadeIff(max: nat, ports: Ports, es: seq<Entry>, at: nat, root: string, c: Candidate)
    requires Scans(max, ports, es) && at < |es| && es[at].kind == Regular && NamesConfig(CleanArchivePath(es[at].name), root, c)
    ensures Inspected(max, ports, es).Some? <==> WellMade(max, ports, es, at, root, c)
    ensures Inspected(max, ports, es).Some? ==> Reported(ports, es, at, root, c, Inspected(max, ports, es).value)
  {
    var e := es[at];
    assert e in es && Sound(ports, e);
    FoundIs(ports, e, root, c);
    LastFilesDecide(max, ports, es, e);
    var f := FoundIn(ports, e);
    BuiltIff(es, f, c);
    ReportIs(ports, es, at, root, c, f);
    LimitsAre(max, ports, es);
    OthersHoldNone(es, at);
  }

  lemma OthersHoldNone(es: seq<Entry>, at: nat)
    requires at < |es| && IsConfig(es[at]) && OneAtMost(es, IsConfig)
    ensures forall j: nat | j < |es| && j != at :: !HoldsConfig(es[j])
  {
    forall j: nat | j < |es| && j != at ensures !HoldsConfig(es[j]) {
      ConfigIsNamed(es[j]);
    }
  }

  /** What is reported: the port the config sets, its format and place, and which scripts there are. */
  ghost predicate Reported(ports: Ports, es: seq<Entry>, at: nat, root: string, c: Candidate, r: Inspection)
    requires at < |es|
  {
    && ports(es[at].content, c.format) == Some(r.port) && r.format == c.format && r.root == root
    && r.configPath == CleanArchivePath(es[at].name)
    && (r.hasInstall <==> Has(es, In(root, "install.sh")))
    && (r.hasStart <==> Has(es, In(root, "start.sh")))
    && (r.hasStop <==> Has(es, In(root, "stop.sh")))
  }

  /** An archive, with duplicates or without, is accepted iff it is well made around some config, and
      what is reported is that config and the scripts beside it. */
  lemma AcceptedIff(max: nat, ports: Ports, es: seq<Entry>)
    ensures Inspected(max, ports, es).Some? <==> exists at, root, c :: WellMade(max, ports, es, at, root, c)
    ensures forall at, root, c | WellMade(max, ports, es, at, root, c) ::
      Inspected(max, ports, es).Some? && Reported(ports, es, at, root, c, Inspected(max, ports, es).value)
  {
    LimitsAre(max, ports, es);
    forall at, root, c | WellMade(max, ports, es, at, root, c)
      ensures Inspected(max, ports, es).Some? && Reported(ports, es, at, root, c, Inspected(max, ports, es).value)
    {
      WellMadeScans(max, ports, es, at, root, c);
      WellMadeIff(max, ports, es, at, root, c);
    }
    if Inspected(max, ports, es).Some? {
      ConfigCollected(ports, es);
      var e :| e in es && IsConfig(e);
      var at: nat :| at < |es| && es[at] == e;
      var (root, c) := MatchConfig(PathOf(e)).value;
      MatchIsName(PathOf(e), root, c);
      WellMadeIff(max, ports, es, at, root, c);
    }
  }

  lemma WellMadeScans(max: nat, ports: Ports, es: seq<Entry>, at: nat, root: string, c: Candidate)
    requires WellMade(max, ports, es, at, root, c)
    ensures Scans(max, ports, es)
  {
    forall i, j | 0 <= i < j < |es| ensures !(IsConfig(es[i]) && IsConfig(es[j])) {
      ConfigIsNamed(es[i]);
      ConfigIsNamed(es[j]);
    }
    LimitsAre(max, ports, es);
  }
}
