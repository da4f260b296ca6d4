/**
 Resolving a working directory to a project, in the Unix form (`normalized_segments`, `is_prefix`,
 `resolve_project`).
 */
module Paths {
  import opened Outcomes

  // ---- segments of a path ----------------------------------------------------------------------

  /** The stretches between slashes, empty ones included. */
  function Split(path: string): (r: seq<string>)
    ensures r != []
  {
    if path == "" then [""]
    else
      var rest := Split(path[1..]);
      if path[0] == '/' then [""] + rest else [[path[0]] + rest[0]] + rest[1..]
  }

  predicate Plain(segment: string) {
    segment != "" && segment != "." && segment != ".."
  }

  /** One segment of a path read from left to right. */
  function Push(segments: seq<string>, segment: string, relative: bool): seq<string> {
    if segment == "" || segment == "." then segments
    else if segment == ".." then
      if segments != [] && segments[|segments| - 1] != ".." then segments[..|segments| - 1]
      else if relative then segments + [segment]
      else segments
    else segments + [segment]
  }

  function PushAll(segments: seq<string>, more: seq<string>, relative: bool): seq<string>
    decreases |more|
  {
    if more == [] then segments else PushAll(Push(segments, more[0], relative), more[1..], relative)
  }

  function Normal(path: string, relative: bool): seq<string> {
    PushAll([], Split(path), relative)
  }

  method NormalizedSegments(path: string, relative: bool) returns (segments: seq<string>)
    ensures segments == Normal(path, relative)
  {
    segments := [];
    var parts := Split(path);
    assert parts[0..] == parts;
    for i := 0 to |parts|
      invariant PushAll(segments, parts[i..], relative) == Normal(path, relative)
    {
      assert parts[i..][1..] == parts[i + 1..] && parts[i..][0] == parts[i];
      var segment := parts[i];
      if segment == "" || segment == "." {
      } else if segment == ".." && segments != [] && segments[|segments| - 1] != ".." {
        segments := segments[..|segments| - 1];
      } else if segment == ".." && relative {
        segments := segments + [segment];
      } else if segment == ".." {
      } else {
        segments := segments + [segment];
      }
    }
  }

  /** A path is rooted when it starts with a slash. */
  predicate Rooted(path: string) {
    path != "" && path[0] == '/'
  }

  predicate AllPlain(segments: seq<string>) {
    forall i :: 0 <= i < |segments| ==> Plain(segments[i])
  }

  lemma {:induction false} PushedArePlain(segments: seq<string>, more: seq<string>)
    requires AllPlain(segments)
    ensures AllPlain(PushAll(segments, more, false))
    decreases |more|
  {
    if more != [] {
      PushedArePlain(Push(segments, more[0], false), more[1..]);
    }
  }

  /** A rooted path normalises to plain segments: none is empty, a dot or a pair of dots. */
  lemma {:induction false} RootedIsPlain(path: string)
    ensures AllPlain(Normal(path, false))
  {
    PushedArePlain([], Split(path));
  }

  lemma {:induction false} PushPlain(segments: seq<string>, more: seq<string>, relative: bool)
    requires AllPlain(more)
    ensures PushAll(segments, more, relative) == segments + more
    decreases |more|
  {
    if more == [] {
      assert segments + more == segments;
    } else {
      PushPlain(segments + [more[0]], more[1..], relative);
      assert (segments + [more[0]]) + more[1..] == segments + more;
    }
  }

  lemma {:induction false} PushConcat(segments: seq<string>, a: seq<string>, b: seq<string>, relative: bool)
    ensures PushAll(segments, a + b, relative) == PushAll(PushAll(segments, a, relative), b, relative)
    decreases |a|
  {
    if a == [] {
      assert a + b == b;
    } else {
      assert (a + b)[1..] == a[1..] + b;
      PushConcat(Push(segments, a[0], relative), a[1..], b, relative);
    }
  }

  // ---- paths as texts ----------------------------------------------------------------------------------

  /** The rooted path with the given segments. */
  function Join(segments: seq<string>): string {
    if segments == [] then "" else "/" + (segments[0] + Join(segments[1..]))
  }

  predicate NoSlash(segment: string) {
    forall i :: 0 <= i < |segment| ==> segment[i] != '/'
  }

  predicate Slashless(segments: seq<string>) {
    forall i :: 0 <= i < |segments| ==> NoSlash(segments[i])
  }

  lemma {:induction false} SplitIsSlashless(path: string)
    ensures Slashless(Split(path))
  {
    if path != "" {
      SplitIsSlashless(path[1..]);
    }
  }

  lemma {:induction false} PushKeepsSlashless(segments: seq<string>, more: seq<string>, relative: bool)
    requires Slashless(segments) && Slashless(more)
    ensures Slashless(PushAll(segments, more, relative))
    decreases |more|
  {
    if more != [] {
      PushKeepsSlashless(Push(segments, more[0], relative), more[1..], relative);
    }
  }

  /** Splitting at a slash. */
  lemma {:induction false} SplitAt(segment: string, rest: string)
    requires NoSlash(segment)
    ensures Split(segment + ("/" + rest)) == [segment] + Split(rest)
    ensures Split(segment) == [segment]
  {
    if segment == "" {
      assert segment + ("/" + rest) == "/" + rest && ("/" + rest)[1..] == rest;
    } else {
      SplitAt(segment[1..], rest);
      assert (segment + ("/" + rest))[1..] == segment[1..] + ("/" + rest);
      assert [segment[0]] + segment[1..] == segment;
      assert ([segment[1..]] + Split(rest))[1..] == Split(rest);
    }
  }

  lemma {:induction false} SplitJoin(segments: seq<string>)
    requires Slashless(segments)
    ensures Split(Join(segments)) == [""] + segments
  {
    if segments != [] {
      var first, rest := segments[0], Join(segments[1..]);
      SplitJoin(segments[1..]);
      assert ("/" + (first + rest))[1..] == first + rest;
      if segments[1..] == [] {
        assert first + rest == first;
        SplitAt(first, "");
      } else {
        var tail := rest[1..];
        assert rest == "/" + tail;
        SplitAt(first, tail);
        assert Split(rest) == [""] + Split(tail);
        assert Split(tail) == ([""] + Split(tail))[1..] == ([""] + segments[1..])[1..] == segments[1..];
      }
      assert segments == [first] + segments[1..];
    }
  }

  /** Normalising is idempotent: the path of the normalised segments has just these segments. */
  lemma {:induction false} NormalIsStable(path: string)
    ensures Normal(Join(Normal(path, false)), false) == Normal(path, false)
  {
    var segments := Normal(path, false);
    RootedIsPlain(path);
    SplitIsSlashless(path);
    PushKeepsSlashless([], Split(path), false);
    SplitJoin(segments);
    assert ([""] + segments)[1..] == segments;
    PushPlain([], segments, false);
    assert [] + segments == segments;
  }

  /** A segment followed by a pair of dots has no effect, wherever it is inserted. */
  lemma {:induction false} DetourIsIgnored(before: seq<string>, x: string, after: seq<string>, relative: bool)
    requires Plain(x)
    ensures PushAll([], before + ([x, ".."] + after), relative) == PushAll([], before + after, relative)
  {
    var segments := PushAll([], before, relative);
    PushConcat([], before, [x, ".."] + after, relative);
    PushConcat([], before, after, relative);
    PushConcat(segments, [x, ".."], after, relative);
    assert [x, ".."][1..] == [".."] && [".."][1..] == [];
    var there := Push(segments, x, relative);
    assert PushAll(segments, [x, ".."], relative) == PushAll(there, [".."], relative) == PushAll(Push(there, "..", relative), [], relative);
    assert (segments + [x])[..|segments|] == segments;
  }

  /** An empty segment or a single dot has no effect, wherever it is inserted. */
  lemma {:induction false} DotIsIgnored(before: seq<string>, dot: string, after: seq<string>, relative: bool)
    requires dot == "" || dot == "."
    ensures PushAll([], before + ([dot] + after), relative) == PushAll([], before + after, relative)
  {
    var segments := PushAll([], before, relative);
    PushConcat([], before, [dot] + after, relative);
    PushConcat([], before, after, relative);
    assert ([dot] + after)[1..] == after;
  }

  function Climbs(n: nat): seq<string> {
    if n == 0 then [] else Climbs(n - 1) + [".."]
  }

  /** Pairs of dots at the start stay in a relative path, and lead nowhere in a rooted one. */
  lemma {:induction false} ClimbsStay(n: nat)
    ensures PushAll([], Climbs(n), true) == Climbs(n)
    ensures PushAll([], Climbs(n), false) == []
  {
    if n > 0 {
      ClimbsStay(n - 1);
      PushConcat([], Climbs(n - 1), [".."], true);
      PushConcat([], Climbs(n - 1), [".."], false);
      assert PushAll(Climbs(n - 1), [".."], true) == Push(Climbs(n - 1), "..", true);
    }
  }

  // ---- resolving -----------------------------------------------------------------------------------------

  datatype Normalized = Normalized(rooted: bool, segments: seq<string>)

  function NormalizedPath(path: string): Normalized {
    Normalized(Rooted(path), Normal(path, !Rooted(path)))
  }

  /** A whole-segment prefix with the same anchor. */
  predicate IsPrefix(root: Normalized, path: Normalized) {
    root.rooted == path.rooted && |root.segments| <= |path.segments| && path.segments[..|root.segments|] == root.segments
  }

  datatype Project = Project(id: nat, root: string, aliases: seq<string>)

  datatype Candidate = Candidate(project: nat, root: Normalized)

  function RootsOf(p: Project): seq<string> {
    [p.root] + p.aliases
  }

  function Candidates(id: nat, roots: seq<string>): seq<Candidate> {
    if roots == [] then [] else [Candidate(id, NormalizedPath(roots[0]))] + Candidates(id, roots[1..])
  }

  function AllCandidates(projects: seq<Project>): seq<Candidate> {
    if projects == [] then [] else Candidates(projects[0].id, RootsOf(projects[0])) + AllCandidates(projects[1..])
  }

  /** The last of the longest candidates that are prefixes. */
  function Longest(candidates: seq<Candidate>, path: Normalized): Option<Candidate> {
    if candidates == [] then None
    else
      var last, before := candidates[|candidates| - 1], Longest(candidates[..|candidates| - 1], path);
      if !IsPrefix(last.root, path) then before
      else if before.Some? && |before.value.root.segments| > |last.root.segments| then before
      else Some(last)
  }

  /** The project whose root or alias is the longest prefix of the working directory. */
  function Resolved(cwd: string, projects: seq<Project>): Option<nat> {
    var best := Longest(AllCandidates(projects), NormalizedPath(cwd));
    if best.Some? then Some(best.value.project) else None
  }

  method ResolveProject(cwd: string, projects: seq<Project>) returns (match': Option<nat>)
    ensures match' == Resolved(cwd, projects)
  {
    var path, candidates := NormalizedPath(cwd), AllCandidates(projects);
    var best: Option<Candidate> := None;
    for i := 0 to |candidates|
      invariant best == Longest(candidates[..i], path)
    {
      assert candidates[..i + 1][..i] == candidates[..i];
      var candidate := candidates[i];
      if IsPrefix(candidate.root, path) && (best.None? || |best.value.root.segments| <= |candidate.root.segments|) {
        best := Some(candidate);
      }
    }
    assert candidates[..|candidates|] == candidates;
    return if best.Some? then Some(best.value.project) else None;
  }

  lemma {:induction false} LongestIs(candidates: seq<Candidate>, path: Normalized)
    ensures var best := Longest(candidates, path);
      && (best.Some? ==> best.value in candidates && IsPrefix(best.value.root, path))
      && (forall c :: c in candidates && IsPrefix(c.root, path) ==> best.Some? && |c.root.segments| <= |best.value.root.segments|)
  {
    if candidates != [] {
      var n := |candidates| - 1;
      LongestIs(candidates[..n], path);
      assert candidates == candidates[..n] + [candidates[n]];
    }
  }

  lemma {:induction false} LongestConcat(a: seq<Candidate>, b: seq<Candidate>, path: Normalized)
    ensures var first, second := Longest(a, path), Longest(b, path);
      Longest(a + b, path) ==
        if second.None? || (first.Some? && |first.value.root.segments| > |second.value.root.segments|) then first else second
    decreases |b|
  {
    hide IsPrefix;
    if b == [] {
      assert a + b == a;
    } else {
      var n := |b| - 1;
      LongestConcat(a, b[..n], path);
      LongestIs(b[..n], path);
      assert (a + b)[..|a + b| - 1] == a + b[..n] && (a + b)[|a + b| - 1] == b[n];
    }
  }

  lemma {:induction false} CandidatesConcat(ps: seq<Project>, p: Project)
    ensures AllCandidates(ps + [p]) == AllCandidates(ps) + Candidates(p.id, RootsOf(p))
  {
    hide Candidates;
    if ps == [] {
      assert ([] + [p])[1..] == [] && AllCandidates([]) == [];
      assert Candidates(p.id, RootsOf(p)) + [] == [] + Candidates(p.id, RootsOf(p));
    } else {
      assert (ps + [p])[1..] == ps[1..] + [p] && (ps + [p])[0] == ps[0];
      CandidatesConcat(ps[1..], p);
      var head, rest := Candidates(ps[0].id, RootsOf(ps[0])), AllCandidates(ps[1..]);
      assert head + (rest + Candidates(p.id, RootsOf(p))) == (head + rest) + Candidates(p.id, RootsOf(p));
    }
  }

  lemma {:induction false} CandidateOf(id: nat, roots: seq<string>, c: Candidate)
    ensures c in Candidates(id, roots) <==> c.project == id && exists root :: root in roots && c.root == NormalizedPath(root)
  {
    hide NormalizedPath;
    if roots != [] {
      CandidateOf(id, roots[1..], c);
      assert roots == [roots[0]] + roots[1..];
    }
  }

  // ---- the project that is found ----------------------------------------------------------------------

  /** `root` is registered for project `i`, as its root or an alias. */
  predicate Registered(projects: seq<Project>, i: nat, root: string) {
    i < |projects| && (root == projects[i].root || root in projects[i].aliases)
  }

  /** The segments of a path: a relative path keeps the pairs of dots it starts with. */
  function Segments(path: string): seq<string> {
    Normal(path, path == "" || path[0] != '/')
  }

  /** Both paths are rooted or both are relative, and the segments of `path` start with those of `root`. */
  ghost predicate Under(root: string, path: string) {
    && (root != "" && root[0] == '/' <==> path != "" && path[0] == '/')
    && exists rest :: Segments(path) == Segments(root) + rest
  }

  lemma {:induction false} UnderIsPrefix(root: string, path: string)
    ensures Under(root, path) <==> IsPrefix(NormalizedPath(root), NormalizedPath(path))
    ensures NormalizedPath(root).segments == Segments(root)
  {
    var a, b := Segments(root), Segments(path);
    if |a| <= |b| && b[..|a|] == a {
      assert b == a + b[|a|..];
    }
    if exists rest :: b == a + rest {
      var rest :| b == a + rest;
      assert b[..|a|] == a;
    }
  }

  /** The longest of the roots of one project. */
  lemma {:induction false} LongestOfOne(p: Project, cwd: string)
    ensures var best := Longest(Candidates(p.id, RootsOf(p)), NormalizedPath(cwd));
      && (best.Some? ==> best.value.project == p.id && exists root :: Registered([p], 0, root) && best.value.root == NormalizedPath(root) && Under(root, cwd))
      && (forall root :: Registered([p], 0, root) && Under(root, cwd) ==>
            best.Some? && |Segments(root)| <= |best.value.root.segments|)
  {
    hide NormalizedPath, IsPrefix, Under, Segments, Candidates, Longest;
    var candidates, path := Candidates(p.id, RootsOf(p)), NormalizedPath(cwd);
    var best := Longest(candidates, path);
    LongestIs(candidates, path);
    if best.Some? {
      CandidateOf(p.id, RootsOf(p), best.value);
      var root :| root in RootsOf(p) && best.value.root == NormalizedPath(root);
      UnderIsPrefix(root, cwd);
      assert Registered([p], 0, root);
    }
    forall root | Registered([p], 0, root) && Under(root, cwd) ensures best.Some? && |Segments(root)| <= |best.value.root.segments| {
      UnderIsPrefix(root, cwd);
      var c := Candidate(p.id, NormalizedPath(root));
      assert root in RootsOf(p);
      CandidateOf(p.id, RootsOf(p), c);
    }
  }

  /** Project `i` wins with `root`: no root is longer, and none of a later project is as long. */
  ghost predicate Wins(projects: seq<Project>, cwd: string, i: nat, root: string) {
    && Registered(projects, i, root) && Under(root, cwd)
    && forall j: nat, other :: Registered(projects, j, other) && Under(other, cwd) ==>
         |Segments(other)| < |Segments(root)| || (|Segments(other)| == |Segments(root)| && j <= i)
  }

  /** The best candidate belongs to the project that wins, and there is none when nothing covers the directory. */
  ghost predicate Best(projects: seq<Project>, cwd: string, best: Option<Candidate>) {
    && (best.Some? ==> exists i: nat, root :: Wins(projects, cwd, i, root) && best.value == Candidate(projects[i].id, NormalizedPath(root)))
    && (best.None? ==> forall i: nat, root :: Registered(projects, i, root) ==> !Under(root, cwd))
  }

  lemma {:induction false} LaterProject(ps: seq<Project>, p: Project, i: nat, root: string)
    ensures Registered(ps + [p], i, root) <==> Registered(ps, i, root) || (i == |ps| && Registered([p], 0, root))
  {
  }

  lemma {:induction false} OneMoreProject(ps: seq<Project>, p: Project, cwd: string)
    requires Best(ps, cwd, Longest(AllCandidates(ps), NormalizedPath(cwd)))
    ensures Best(ps + [p], cwd, Longest(AllCandidates(ps + [p]), NormalizedPath(cwd)))
  {
    hide NormalizedPath, IsPrefix, Under, Segments, Candidates, Longest, AllCandidates, Registered;
    var path, all := NormalizedPath(cwd), ps + [p];
    var first, second := Longest(AllCandidates(ps), path), Longest(Candidates(p.id, RootsOf(p)), path);
    CandidatesConcat(ps, p);
    LongestConcat(AllCandidates(ps), Candidates(p.id, RootsOf(p)), path);
    LongestOfOne(p, cwd);
    forall i: nat, root ensures Registered(all, i, root) <==> Registered(ps, i, root) || (i == |ps| && Registered([p], 0, root)) {
      LaterProject(ps, p, i, root);
    }
    forall i: nat, root ensures Registered(ps, i, root) ==> i < |ps| {
      RegisteredWithin(ps, i, root);
    }
    if first.Some? {
      var i: nat, root :| Wins(ps, cwd, i, root) && first.value == Candidate(ps[i].id, NormalizedPath(root));
      UnderIsPrefix(root, cwd);
      if second.None? || |first.value.root.segments| > |second.value.root.segments| {
        assert Wins(all, cwd, i, root);
      }
    }
    if second.Some? {
      var root :| Registered([p], 0, root) && second.value.root == NormalizedPath(root) && Under(root, cwd);
      UnderIsPrefix(root, cwd);
      if first.None? || |first.value.root.segments| <= |second.value.root.segments| {
        assert Wins(all, cwd, |ps|, root);
      }
    }
  }

  lemma {:induction false} RegisteredWithin(ps: seq<Project>, i: nat, root: string)
    ensures Registered(ps, i, root) ==> i < |ps|
  {
  }

  lemma {:induction false} BestIsFound(projects: seq<Project>, cwd: string)
    ensures Best(projects, cwd, Longest(AllCandidates(projects), NormalizedPath(cwd)))
  {
    hide NormalizedPath, Under, Segments;
    if projects != [] {
      var n := |projects| - 1;
      BestIsFound(projects[..n], cwd);
      OneMoreProject(projects[..n], projects[n], cwd);
      assert projects == projects[..n] + [projects[n]];
    }
  }

  /**
   The resolved project has a root or alias whose segments the working directory starts with; none of
   these is longer, and none of a later project is as long.  No project is found exactly when there
   is no such root.
   */
  lemma {:induction false} ResolvesToLongestPrefix(cwd: string, projects: seq<Project>)
    ensures var id := Resolved(cwd, projects);
      && (id.Some? ==> exists i: nat, root :: Wins(projects, cwd, i, root) && id.value == projects[i].id)
      && (id.None? <==> forall i: nat, root :: Registered(projects, i, root) ==> !Under(root, cwd))
  {
    hide NormalizedPath, Under, Segments, Longest, AllCandidates;
    BestIsFound(projects, cwd);
  }
}
