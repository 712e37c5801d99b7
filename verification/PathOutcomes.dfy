/** Every answer of the path boundary, error by error, and what following a path in the tree means. */
module PathOutcomes {
  import opened Wrappers
  import opened Paths
  import opened PathProofs

  // ----- the raw string -----

  /** Not empty, and no character below U+0020. */
  predicate Usable(raw: string) {
    raw != "" && forall i :: 0 <= i < |raw| ==> raw[i] as int >= 0x20
  }

  lemma UsableIff(raw: string)
    ensures Usable(raw) <==> raw != "" && !HasControl(raw)
  {
    forall i | 0 <= i < |raw| ensures Control(raw[i]) <==> (raw[i] as int) < 0x20 {}
  }

  lemma HeadParse(x: string, y: string)
    requires '/' !in x
    ensures Parse(x + "/" + y) == (if x == "" || x == "." then [] else [x]) + Parse(y)
  {
    HeadBefore(x, y);
    var s := x + "/" + y;
    assert s[|x| + 1..] == y;
  }

  /** Joined to the root, a relative path goes below it; an absolute one stands for itself. */
  lemma CandidateIs(rest: string, root: Path)
    requires rest == "" || rest[0] != '/'
    ensures rest != "" ==> BuildCandidate(rest, root) == Candidate(false, root + Parse(rest))
    ensures BuildCandidate("/" + rest, root) == Candidate(false, Parse(rest))
    ensures BuildCandidate("//" + rest, root) == Candidate(true, Parse(rest))
    ensures BuildCandidate("///" + rest, root) == Candidate(false, Parse(rest))
  {
    HeadParse("", rest);
    HeadParse("", "/" + rest);
    HeadParse("", "//" + rest);
    assert "" + "/" + rest == "/" + rest && "" + "/" + ("/" + rest) == "//" + rest;
    assert "" + "/" + ("//" + rest) == "///" + rest;
  }

  // ----- what following a path means -----

  /** A link stands for its target, written out from its directory or from the root, for one step of the budget. */
  lemma LinkIsItsTarget(tree: Tree, lenient: bool, dir: Path, x: string, rest: Path, budget: nat)
    requires WellFormed(tree) && IsDir(tree, dir) && x != ".." && dir + [x] in tree && tree[dir + [x]].Link?
    ensures var target := tree[dir + [x]].target;
      Walk(tree, lenient, [], dir + ([x] + rest), budget, true) ==
        if budget == 0 then None
        else Walk(tree, lenient, [], (if target.absolute then [] else dir) + (target.parts + rest), budget - 1, true)
  {
    var target := tree[dir + [x]].target;
    WalkTo(tree, lenient, dir, [x] + rest, budget, true);
    LinkStep(tree, lenient, dir, x, rest, [x] + rest, budget);
    if budget > 0 {
      TargetFrom(tree, lenient, dir, target, target.parts + rest, budget - 1);
    }
  }

  lemma LinkStep(tree: Tree, lenient: bool, dir: Path, x: string, rest: Path, todo: Path, budget: nat)
    requires IsDir(tree, dir) && x != ".." && dir + [x] in tree && tree[dir + [x]].Link? && todo == [x] + rest
    ensures var target := tree[dir + [x]].target;
      Walk(tree, lenient, dir, todo, budget, true) ==
        if budget == 0 then None
        else Walk(tree, lenient, if target.absolute then [] else dir, target.parts + rest, budget - 1, true)
  {
    assert todo[1..] == rest;
  }

  lemma TargetFrom(tree: Tree, lenient: bool, dir: Path, target: Target, todo: Path, budget: nat)
    requires WellFormed(tree) && IsDir(tree, dir)
    ensures Walk(tree, lenient, if target.absolute then [] else dir, todo, budget, true) ==
            Walk(tree, lenient, [], (if target.absolute then [] else dir) + todo, budget, true)
  {
    if target.absolute {
      assert [] + todo == todo;
    } else {
      WalkTo(tree, lenient, dir, todo, budget, true);
    }
  }

  /** ".." goes to the parent of a directory, and the parent of the root is the root. */
  lemma ParentStep(tree: Tree, lenient: bool, dir: Path, rest: Path, budget: nat)
    requires WellFormed(tree) && IsDir(tree, dir)
    ensures Walk(tree, lenient, [], dir + ([".."] + rest), budget, true) ==
            Walk(tree, lenient, [], (if dir == [] then [] else dir[..|dir| - 1]) + rest, budget, true)
  {
    var up := if dir == [] then [] else dir[..|dir| - 1];
    WalkTo(tree, lenient, dir, [".."] + rest, budget, true);
    assert ([".."] + rest)[1..] == rest;
    WalkTo(tree, lenient, up, rest, budget, true);
  }

  /** Nothing is found below a file, or where the tree has nothing. */
  lemma NothingThere(tree: Tree, lenient: bool, p: Path, x: string, rest: Path, budget: nat)
    requires WellFormed(tree) && p in tree && !tree[p].Link? && x != ".." && (tree[p].File? || p + [x] !in tree)
    ensures Walk(tree, lenient, [], p + ([x] + rest), budget, true) == None
  {
    WalkTo(tree, lenient, p, [x] + rest, budget, true);
  }

  // ----- the answers -----

  /** A literal component below the root is a link. */
  ghost predicate MeetsLink(os: Os, root: Path, c: Candidate) {
    !c.doubled && root <= c.parts && exists n :: |root| < n <= |c.parts| && IsLink(os, c.parts[..n])
  }

  lemma MeetsLinkIff(os: Os, root: Path, c: Candidate)
    ensures MeetsLink(os, root, c) <==> ChainHasLink(os, root, c)
  {
    if Inside(c, root) {
      var rel := Rel(c, root);
      assert c.parts == root + rel;
      forall i | 0 < i <= |rel| ensures root + rel[..i] == c.parts[..|root| + i] {}
      if n :| |root| < n <= |c.parts| && IsLink(os, c.parts[..n]) {
        assert IsLink(os, root + rel[..n - |root|]);
      }
      if i :| 0 < i <= |rel| && IsLink(os, root + rel[..i]) { assert IsLink(os, c.parts[..|root| + i]); }
    }
  }

  /** A plain file with more than one name. */
  predicate ManyNames(os: Os, p: Path) {
    p in os.tree && os.tree[p].File? && os.tree[p].links > 1
  }

  lemma ResolvedIsReal(os: Os, parts: Path)
    requires WellFormed(os.tree) && Resolve(os, parts).Some?
    ensures var p := Resolve(os, parts).value;
      p in os.tree && !os.tree[p].Link? && (Hardlinked(os, p) <==> ManyNames(os, p))
  {
    WalkEnds(os.tree, os.lenient, [], parts, os.budget);
    WalkWhole(os.tree, false, Resolve(os, parts).value, os.budget, true);
  }

  /** What EXISTING answers: an error for each way in which the path is not a plain place below the root. */
  lemma ExistingIff(os: Os, root: Path, raw: string, c: Candidate)
    requires WellFormed(os.tree) && c == BuildCandidate(raw, root)
    ensures var r, q := ResolvePath(os, root, raw, Existing), Resolve(os, c.parts);
      var clear := Usable(raw) && !MeetsLink(os, root, c);
      && (r == Err(InvalidPath) <==> !Usable(raw) || (clear && q == Some(root)))
      && (r == Err(PathNotFound) <==> clear && q == None)
      && (r == Err(PathEscapes) <==> clear && q.Some? && q.value != root && !(root <= q.value))
      && (r == Err(SymlinkNotAllowed) <==>
            Usable(raw) && (MeetsLink(os, root, c) || (q.Some? && root < q.value && ManyNames(os, q.value))))
      && (r.Ok? <==> clear && q.Some? && root < q.value && !ManyNames(os, q.value))
      && (r.Ok? ==> r.value == q.value)
  {
    UsableIff(raw);
    MeetsLinkIff(os, root, c);
    if Resolve(os, c.parts).Some? { ResolvedIsReal(os, c.parts); }
  }

  /** What CREATE answers: the path as it is written below the root, whether or not it is there yet. */
  lemma CreateIff(os: Os, root: Path, raw: string, c: Candidate)
    requires WellFormed(os.tree) && IsDir(os.tree, root) && c == BuildCandidate(raw, root)
    ensures var r, inside := ResolvePath(os, root, raw, Create), !c.doubled && root <= c.parts;
      var clear := Usable(raw) && !MeetsLink(os, root, c);
      && (r == Err(InvalidPath) <==> !Usable(raw) || (inside && c.parts == root))
      && (r == Err(PathEscapes) <==> clear && (!inside || ".." in c.parts[|root|..]))
      && (r == Err(SymlinkNotAllowed) <==>
            Usable(raw) && (MeetsLink(os, root, c)
                            || (inside && ".." !in c.parts[|root|..] && ManyNames(os, c.parts) && c.parts != root)))
      && (r.Ok? <==> clear && inside && c.parts != root && ".." !in c.parts[|root|..] && !ManyNames(os, c.parts))
      && (r.Ok? ==> r.value == c.parts)
  {
    UsableIff(raw);
    MeetsLinkIff(os, root, c);
    if Usable(raw) && !MeetsLink(os, root, c) && Inside(c, root) {
      var rel := Rel(c, root);
      assert c.parts == root + rel;
      if rel == [] {
        assert c == Candidate(false, root);
      } else if ".." !in rel {
        NoEmptyPart(raw, root);
        CreateStraight(os, root, rel);
        StraightWhole(os, root, rel);
      }
    }
  }

  /** MAYBE_EXISTING answers as EXISTING where the path resolves, and as CREATE elsewhere. */
  lemma MaybeIsEither(os: Os, root: Path, raw: string)
    ensures ResolvePath(os, root, raw, MaybeExisting) ==
            ResolvePath(os, root, raw, if Resolve(os, BuildCandidate(raw, root).parts).Some? then Existing else Create)
  {
  }

  /** A pathspec is the accepted path below the root, its components joined; an error is passed on. */
  lemma PathspecIs(os: Os, root: Path, raw: string)
    requires WellFormed(os.tree) && IsDir(os.tree, root)
    ensures match ResolvePath(os, root, raw, MaybeExisting)
      case Err(e) => Pathspec(os, root, raw) == Err(e)
      case Ok(p) =>
        && root < p && Pathspec(os, root, raw) == Ok(AsPosix(p[|root|..]))
        && Parse(AsPosix(p[|root|..])) == p[|root|..]
  {
    if ResolvePath(os, root, raw, MaybeExisting).Ok? {
      var rel := AcceptedIsStraight(os, root, raw);
      assert (root + rel)[|root|..] == rel;
      ParseUndoesJoin(rel);
    }
  }
}
