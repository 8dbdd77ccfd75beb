/** Slash-separated paths: Go's path.Clean for relative names, and the check that keeps the
    entries of an archive inside its directory. */
module Paths {

  function Split(s: string): (segs: seq<string>)
    ensures |segs| >= 1
  {
    if s == "" then [""]
    else
      var rest := Split(s[1..]);
      if s[0] == '/' then [""] + rest else [[s[0]] + rest[0]] + rest[1..]
  }

  function Join(segs: seq<string>): string
    requires |segs| >= 1
  {
    if |segs| == 1 then segs[0] else segs[0] + "/" + Join(segs[1..])
  }

  predicate NoSlash(s: string) {
    forall i | 0 <= i < |s| :: s[i] != '/'
  }

  /** A segment that stays in a cleaned path as it is. */
  predicate Plain(seg: string) {
    seg != "" && seg != "." && seg != ".." && NoSlash(seg)
  }

  lemma {:induction false} SplitFirst(s: string, rest: string)
    requires NoSlash(s)
    ensures Split(s + "/" + rest) == [s] + Split(rest)
  {
    if s != "" {
      var t := s + "/" + rest;
      assert t[1..] == s[1..] + "/" + rest;
      SplitFirst(s[1..], rest);
      assert [s[0]] + s[1..] == s;
    } else {
      assert (s + "/" + rest)[1..] == rest;
    }
  }

  lemma {:induction false} SplitNone(s: string)
    requires NoSlash(s)
    ensures Split(s) == [s]
  {
    if s != "" {
      SplitNone(s[1..]);
      assert [s[0]] + s[1..] == s;
    }
  }

  lemma {:induction false} SplitOfJoin(segs: seq<string>)
    requires |segs| >= 1 && forall i | 0 <= i < |segs| :: NoSlash(segs[i])
    ensures Split(Join(segs)) == segs
  {
    if |segs| == 1 {
      SplitNone(segs[0]);
    } else {
      SplitOfJoin(segs[1..]);
      SplitFirst(segs[0], Join(segs[1..]));
    }
  }

  lemma {:induction false} SegmentsHaveNoSlash(s: string)
    ensures forall i | 0 <= i < |Split(s)| :: NoSlash(Split(s)[i])
  {
    if s != "" {
      SegmentsHaveNoSlash(s[1..]);
    }
  }

  /** One segment of a relative path: `..` removes a name before it, if there is one. */
  function Step(stack: seq<string>, seg: string): seq<string> {
    if seg == "" || seg == "." then stack
    else if seg == ".." && stack != [] && stack[|stack| - 1] != ".." then stack[..|stack| - 1]
    else stack + [seg]
  }

  function Resolve(stack: seq<string>, segs: seq<string>): seq<string>
    decreases |segs|
  {
    if segs == [] then stack else Resolve(Step(stack, segs[0]), segs[1..])
  }

  function Clean(name: string): string {
    var stack := Resolve([], Split(name));
    if stack == [] then "." else Join(stack)
  }

  predicate ClimbsOut(p: string) {
    p == "." || p == ".." || (|p| >= 3 && p[..3] == "../")
  }

  /** The cleaned name of an entry, or "" when the archive must be refused. */
  function CleanArchivePath(name: string): string {
    if name == "" || '\0' in name || '\\' in name || name[0] == '/' then ""
    else
      var clean := Clean(name);
      if ClimbsOut(clean) then "" else clean
  }

  /** Some `..` first, then plain names. */
  ghost predicate Climbs(stack: seq<string>) {
    forall i | 0 <= i < |stack| ::
      Plain(stack[i]) || (stack[i] == ".." && forall j | 0 <= j < i :: stack[j] == "..")
  }

  lemma {:induction false} ResolveClimbs(stack: seq<string>, segs: seq<string>)
    requires Climbs(stack) && forall i | 0 <= i < |segs| :: NoSlash(segs[i])
    ensures Climbs(Resolve(stack, segs))
    decreases |segs|
  {
    if segs != [] {
      var next := Step(stack, segs[0]);
      assert Climbs(next) by {
        if segs[0] == ".." && stack != [] && stack[|stack| - 1] == ".." {
          assert forall j | 0 <= j < |stack| :: stack[j] == "..";
        }
      }
      ResolveClimbs(next, segs[1..]);
    }
  }

  lemma {:induction false} ResolvePlain(stack: seq<string>, segs: seq<string>)
    requires forall i | 0 <= i < |segs| :: Plain(segs[i])
    ensures Resolve(stack, segs) == stack + segs
    decreases |segs|
  {
    if segs != [] {
      ResolvePlain(stack + [segs[0]], segs[1..]);
      assert stack + [segs[0]] + segs[1..] == stack + segs;
    }
  }

  /** Joined plain names are clean already. */
  lemma JoinedIsClean(segs: seq<string>)
    requires |segs| >= 1 && forall i | 0 <= i < |segs| :: Plain(segs[i])
    ensures Clean(Join(segs)) == Join(segs)
  {
    SplitOfJoin(segs);
    ResolvePlain([], segs);
    assert [] + segs == segs;
  }

  lemma ClimbingName(stack: seq<string>)
    requires |stack| > 1 && stack[0] == ".."
    ensures |Join(stack)| >= 3 && Join(stack)[..3] == "../"
  {
  }

  /** An accepted name is a nonempty list of plain names, so it has no `..` segment, is not
      absolute and stays inside; and cleaning it again changes nothing. */
  lemma AcceptedPathStaysInside(name: string)
    requires CleanArchivePath(name) != ""
    ensures var clean := CleanArchivePath(name);
      && (forall seg | seg in Split(clean) :: Plain(seg))
      && clean == Join(Split(clean)) && Clean(clean) == clean && clean[0] != '/'
  {
    SegmentsHaveNoSlash(name);
    var stack := Resolve([], Split(name));
    ResolveClimbs([], Split(name));
    if stack[0] == ".." && |stack| > 1 {
      ClimbingName(stack);
    }
    assert stack[0] != "..";
    assert forall i | 0 <= i < |stack| :: Plain(stack[i]);
    SplitOfJoin(stack);
    JoinedIsClean(stack);
    assert stack[0][0] != '/';
    assert Join(stack)[0] == stack[0][0];
  }

  predicate Printable(s: string) {
    forall i | 0 <= i < |s| :: s[i] != '\0' && s[i] != '\\'
  }

  lemma PlainNamesDoNotClimb(first: string, rest: string)
    requires Plain(first)
    ensures !ClimbsOut(first + "/" + rest)
  {
    var p := first + "/" + rest;
    assert p[|first|] == '/';
    assert forall i | 0 <= i < |first| :: p[i] == first[i];
    if |first| == 2 {
      assert first == [first[0], first[1]];
      assert first[0] != '.' || first[1] != '.';
    }
    if |p| >= 3 {
      assert p[..3] == [p[0], p[1], p[2]];
    }
  }

  lemma PlainNameDoesNotClimb(name: string)
    requires Plain(name)
    ensures !ClimbsOut(name)
  {
    assert |name| >= 3 ==> name[2] != '/';
  }

  /** A list of plain names is accepted as it is. */
  lemma PlainPathIsAccepted(segs: seq<string>)
    requires |segs| >= 1 && (forall i | 0 <= i < |segs| :: Plain(segs[i])) && Printable(Join(segs))
    ensures CleanArchivePath(Join(segs)) == Join(segs)
  {
    JoinedIsClean(segs);
    JoinedStaysInside(segs);
  }

  lemma JoinedStaysInside(segs: seq<string>)
    requires |segs| >= 1 && forall i | 0 <= i < |segs| :: Plain(segs[i])
    ensures var p := Join(segs); p != "" && p[0] != '/' && !ClimbsOut(p)
  {
    if |segs| > 1 {
      PlainNamesDoNotClimb(segs[0], Join(segs[1..]));
    } else {
      PlainNameDoesNotClimb(segs[0]);
    }
    assert segs[0][0] != '/';
  }

  // ----- where a path leads -----

  /** The place a relative path leads to from a directory, both given by the names from the root on;
      the root is its own parent. */
  function Walk(place: seq<string>, segs: seq<string>): seq<string>
    decreases |segs|
  {
    if segs == [] then place
    else if segs[0] == "" || segs[0] == "." then Walk(place, segs[1..])
    else if segs[0] == ".." then Walk(if place == [] then [] else place[..|place| - 1], segs[1..])
    else Walk(place + [segs[0]], segs[1..])
  }

  lemma {:induction false} WalkOneMore(place: seq<string>, segs: seq<string>, seg: string)
    ensures Walk(place, segs + [seg]) == Walk(Walk(place, segs), [seg])
    decreases |segs|
  {
    if segs == [] {
      assert segs + [seg] == [seg];
    } else {
      assert (segs + [seg])[1..] == segs[1..] + [seg];
      var next := if segs[0] == "" || segs[0] == "." then place
                  else if segs[0] == ".." then (if place == [] then [] else place[..|place| - 1])
                  else place + [segs[0]];
      WalkOneMore(next, segs[1..], seg);
    }
  }

  lemma WalkStep(place: seq<string>, stack: seq<string>, seg: string)
    requires Climbs(stack) && NoSlash(seg)
    ensures Walk(place, Step(stack, seg)) == Walk(Walk(place, stack), [seg])
  {
    if seg == "" || seg == "." {
      assert [seg][1..] == [];
    } else if seg == ".." && stack != [] && stack[|stack| - 1] != ".." {
      var front, last := stack[..|stack| - 1], stack[|stack| - 1];
      assert stack == front + [last];
      WalkOneMore(place, front, last);
      assert [last][1..] == [] && [seg][1..] == [];
      assert Walk(place, stack) == Walk(place, front) + [last];
    } else {
      WalkOneMore(place, stack, seg);
    }
  }

  lemma {:induction false} ResolveKeepsPlace(place: seq<string>, stack: seq<string>, segs: seq<string>)
    requires Climbs(stack) && forall i | 0 <= i < |segs| :: NoSlash(segs[i])
    ensures Walk(place, Resolve(stack, segs)) == Walk(Walk(place, stack), segs)
    decreases |segs|
  {
    if segs != [] {
      StepClimbs(stack, segs[0]);
      WalkStep(place, stack, segs[0]);
      ResolveKeepsPlace(place, Step(stack, segs[0]), segs[1..]);
      assert [segs[0]][1..] == [];
      WalkFirst(Walk(place, stack), segs);
    }
  }

  lemma StepClimbs(stack: seq<string>, seg: string)
    requires Climbs(stack) && NoSlash(seg)
    ensures Climbs(Step(stack, seg))
  {
    ResolveClimbs(stack, [seg]);
    assert Resolve(stack, [seg]) == Resolve(Step(stack, seg), []);
  }

  lemma WalkFirst(place: seq<string>, segs: seq<string>)
    requires segs != []
    ensures Walk(place, segs) == Walk(Walk(place, [segs[0]]), segs[1..])
  {
    assert [segs[0]][1..] == [];
  }

  /** Cleaning a relative path does not change where it leads, from any directory. */
  lemma CleanKeepsPlace(place: seq<string>, name: string)
    ensures Walk(place, Split(Clean(name))) == Walk(place, Split(name))
  {
    var stack := Resolve([], Split(name));
    SegmentsHaveNoSlash(name);
    ResolveClimbs([], Split(name));
    ResolveKeepsPlace(place, [], Split(name));
    if stack == [] {
      SplitNone(".");
      assert ["."][1..] == [];
    } else {
      SplitOfJoin(stack);
    }
  }

  lemma {:induction false} WalkPlain(place: seq<string>, segs: seq<string>)
    requires forall i | 0 <= i < |segs| :: Plain(segs[i])
    ensures Walk(place, segs) == place + segs
    decreases |segs|
  {
    if segs != [] {
      WalkPlain(place + [segs[0]], segs[1..]);
      assert place + [segs[0]] + segs[1..] == place + segs;
    }
  }

  /** Strictly below the directory it starts from, wherever that is. */
  ghost predicate StaysBelow(segs: seq<string>) {
    forall place {:trigger Walk(place, segs)} :: |place| < |Walk(place, segs)| && Walk(place, segs)[..|place|] == place
  }

  /** Some directory from which a climbing path does not lead below it. */
  lemma ClimbingLeaves(stack: seq<string>)
    requires Climbs(stack) && (stack == [] || stack[0] == "..")
    ensures !StaysBelow(stack)
  {
    if stack == [] {
      assert Walk([], stack) == [];
    } else {
      var n := Ups(stack);
      var up, down := stack[..n], stack[n..];
      assert stack == up + down;
      WalkUps(["."], up);
      WalkJoin(["."], up, down);
      WalkPlain([], down);
      assert Walk(["."], stack) == down;
      assert down != [] ==> Plain(down[0]) && down[0] != ".";
      assert |Walk(["."], stack)| > 1 ==> Walk(["."], stack)[..1] != ["."];
    }
  }

  /** How many `..` come first. */
  lemma Ups(stack: seq<string>) returns (n: nat)
    requires Climbs(stack)
    ensures n <= |stack| && (forall i | 0 <= i < n :: stack[i] == "..") && (forall i | n <= i < |stack| :: Plain(stack[i]))
    ensures stack != [] && stack[0] == ".." ==> n >= 1
  {
    n := 0;
    while n < |stack| && stack[n] == ".."
      invariant n <= |stack| && forall i | 0 <= i < n :: stack[i] == ".."
    {
      n := n + 1;
    }
  }

  lemma {:induction false} WalkUps(place: seq<string>, ups: seq<string>)
    requires |place| <= 1 && ups != [] && forall i | 0 <= i < |ups| :: ups[i] == ".."
    ensures Walk(place, ups) == []
    decreases |ups|
  {
    if |ups| > 1 {
      WalkUps([], ups[1..]);
    } else {
      assert ups[1..] == [];
    }
  }

  lemma {:induction false} WalkJoin(place: seq<string>, a: seq<string>, b: seq<string>)
    ensures Walk(place, a + b) == Walk(Walk(place, a), b)
    decreases |a|
  {
    if a == [] {
      assert a + b == b;
    } else {
      assert (a + b)[1..] == a[1..] + b;
      var next := if a[0] == "" || a[0] == "." then place
                  else if a[0] == ".." then (if place == [] then [] else place[..|place| - 1])
                  else place + [a[0]];
      WalkJoin(next, a[1..], b);
    }
  }

  /** An entry name is accepted iff it is relative, has neither NUL nor backslash, and leads
      strictly below whatever directory the archive is extracted in. */
  lemma AcceptedIffStaysBelow(name: string)
    ensures CleanArchivePath(name) != "" <==>
      name != "" && '\0' !in name && '\\' !in name && name[0] != '/' && StaysBelow(Split(name))
  {
    var stack := Resolve([], Split(name));
    SegmentsHaveNoSlash(name);
    ResolveClimbs([], Split(name));
    forall place ensures Walk(place, Split(name)) == Walk(place, stack) {
      ResolveKeepsPlace(place, [], Split(name));
    }
    assert StaysBelow(Split(name)) <==> StaysBelow(stack);
    if stack == [] || stack[0] == ".." {
      ClimbingLeaves(stack);
      if stack != [] {
        ClimbingRefused(stack);
      }
    } else {
      assert forall i | 0 <= i < |stack| :: Plain(stack[i]);
      forall place ensures |place| < |Walk(place, stack)| && Walk(place, stack)[..|place|] == place {
        WalkPlain(place, stack);
      }
      JoinedStaysInside(stack);
    }
  }

  lemma ClimbingRefused(stack: seq<string>)
    requires Climbs(stack) && stack != [] && stack[0] == ".."
    ensures ClimbsOut(Join(stack))
  {
    if |stack| > 1 {
      ClimbingName(stack);
    }
  }
}
