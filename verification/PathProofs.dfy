/** What the path boundary guarantees, and when its modes agree. */
module PathProofs {
  import opened Wrappers
  import opened Paths

  // ----- walking real paths -----

  lemma {:induction false} RealPrefix(tree: Tree, p: Path, k: nat)
    requires WellFormed(tree) && p in tree && k < |p|
    ensures IsDir(tree, p[..k]) && p[..k + 1] in tree && Name(p[k])
    decreases |p| - k
  {
    var parent := p[..|p| - 1];
    if k == |p| - 1 {
      assert p[..k + 1] == p;
    } else {
      RealPrefix(tree, parent, k);
      assert parent[..k] == p[..k] && parent[..k + 1] == p[..k + 1];
    }
  }

  lemma WalkStep(tree: Tree, lenient: bool, cur: Path, x: string, rest: Path, budget: nat, follow: bool)
    requires IsDir(tree, cur) && x != ".." && cur + [x] in tree
    requires tree[cur + [x]].Link? ==> rest == [] && !follow
    ensures Walk(tree, lenient, cur, [x] + rest, budget, follow) == Walk(tree, lenient, cur + [x], rest, budget, follow)
  {
    assert ([x] + rest)[1..] == rest;
  }

  lemma NextPart<T>(p: seq<T>, k: nat, rest: seq<T>)
    requires k < |p|
    ensures p[..k] + [p[k]] == p[..k + 1]
    ensures p[k..] + rest == [p[k]] + (p[k + 1..] + rest)
    ensures p[k + 1..] + rest == [] ==> k + 1 == |p| && rest == [] && p[..k + 1] == p
  {
    if k + 1 == |p| { assert p[..k + 1] == p; }
  }

  /** Along a real path no link is met; only the node at its end may be one. */
  lemma {:induction false} WalkReal(tree: Tree, lenient: bool, p: Path, k: nat, rest: Path, budget: nat, follow: bool)
    requires WellFormed(tree) && p in tree && k <= |p|
    requires tree[p].Link? ==> rest == [] && !follow
    ensures Walk(tree, lenient, p[..k], p[k..] + rest, budget, follow) == Walk(tree, lenient, p, rest, budget, follow)
    decreases |p| - k
  {
    if k == |p| {
      assert p[..k] == p && p[k..] + rest == rest;
    } else {
      RealPrefix(tree, p, k);
      NextPart(p, k, rest);
      if k + 1 < |p| { RealPrefix(tree, p, k + 1); } else { assert p[..k + 1] == p; }
      WalkStep(tree, lenient, p[..k], p[k], p[k + 1..] + rest, budget, follow);
      WalkReal(tree, lenient, p, k + 1, rest, budget, follow);
    }
  }

  lemma WalkTo(tree: Tree, lenient: bool, p: Path, rest: Path, budget: nat, follow: bool)
    requires WellFormed(tree) && p in tree
    requires tree[p].Link? ==> rest == [] && !follow
    ensures Walk(tree, lenient, [], p + rest, budget, follow) == Walk(tree, lenient, p, rest, budget, follow)
  {
    WalkReal(tree, lenient, p, 0, rest, budget, follow);
    assert p[..0] == [] && p[0..] == p;
  }

  lemma WalkWhole(tree: Tree, lenient: bool, p: Path, budget: nat, follow: bool)
    requires WellFormed(tree) && p in tree && (tree[p].Link? ==> !follow)
    ensures Walk(tree, lenient, [], p, budget, follow) == Some(p)
  {
    WalkTo(tree, lenient, p, [], budget, follow);
    assert p + [] == p;
  }

  /** A walk that gets to the end gets through every prefix. */
  lemma {:induction false} WalkPrefix(tree: Tree, lenient: bool, cur: Path, a: Path, b: Path, budget: nat)
    requires Walk(tree, lenient, cur, a + b, budget, true).Some?
    ensures Walk(tree, lenient, cur, a, budget, true).Some?
    decreases budget, |a|
  {
    if a != [] {
      var todo := a + b;
      assert todo[0] == a[0] && todo[1..] == a[1..] + b;
      var p := cur + [a[0]];
      if a[0] == ".." {
        WalkPrefix(tree, lenient, Parent(cur), a[1..], b, budget);
      } else if tree[p].Link? {
        var t := tree[p].target;
        assert t.parts + (a[1..] + b) == (t.parts + a[1..]) + b;
        WalkPrefix(tree, lenient, if t.absolute then [] else cur, t.parts + a[1..], b, budget - 1);
      } else {
        WalkPrefix(tree, lenient, p, a[1..], b, budget);
      }
    }
  }

  /** A followed walk ends at a real node that is no link. */
  lemma {:induction false} WalkEnds(tree: Tree, lenient: bool, cur: Path, todo: Path, budget: nat)
    requires WellFormed(tree) && cur in tree && !tree[cur].Link?
    requires Walk(tree, lenient, cur, todo, budget, true).Some?
    ensures var p := Walk(tree, lenient, cur, todo, budget, true).value; p in tree && !tree[p].Link?
    decreases budget, |todo|
  {
    if todo != [] {
      var p := cur + [todo[0]];
      if todo[0] == ".." {
        WalkEnds(tree, lenient, Parent(cur), todo[1..], budget);
      } else if tree[p].Link? {
        var t := tree[p].target;
        WalkEnds(tree, lenient, if t.absolute then [] else cur, t.parts + todo[1..], budget - 1);
      } else {
        WalkEnds(tree, lenient, p, todo[1..], budget);
      }
    }
  }

  // ----- chains without links -----

  /** The root is a real directory, and below it `rel` has no ".." and meets no link. */
  ghost predicate Straight(os: Os, root: Path, rel: Path) {
    && WellFormed(os.tree) && IsDir(os.tree, root)
    && ".." !in rel && !LinkInChain(os, root, rel)
  }

  lemma RealLink(os: Os, p: Path)
    requires WellFormed(os.tree) && p in os.tree
    ensures IsLink(os, p) <==> os.tree[p].Link?
  {
    WalkWhole(os.tree, false, p, os.budget, false);
  }

  lemma NotALink(os: Os, root: Path, rel: Path, n: nat)
    requires Straight(os, root, rel) && n <= |rel| && root + rel[..n] in os.tree
    ensures !os.tree[root + rel[..n]].Link?
  {
    RealLink(os, root + rel[..n]);
    assert root + rel[..0] == root;
  }

  lemma MissingChild(os: Os, q: Path, x: string, lenient: bool)
    requires WellFormed(os.tree) && q in os.tree && !os.tree[q].Link? && x != ".." && q + [x] !in os.tree
    ensures Walk(os.tree, lenient, [], q + [x], os.budget, true) == None
  {
    WalkTo(os.tree, lenient, q, [x], os.budget, true);
  }

  lemma MissingParent(os: Os, q: Path, x: string, lenient: bool)
    requires Walk(os.tree, lenient, [], q, os.budget, true) == None
    ensures Walk(os.tree, lenient, [], q + [x], os.budget, true) == None
  {
    if Walk(os.tree, lenient, [], q + [x], os.budget, true).Some? {
      WalkPrefix(os.tree, lenient, [], q, [x], os.budget);
    }
  }

  /** Every prefix of a straight path resolves to itself or does not exist. */
  lemma {:induction false} StraightPrefix(os: Os, root: Path, rel: Path, n: nat, lenient: bool)
    requires Straight(os, root, rel) && n <= |rel|
    ensures Walk(os.tree, lenient, [], root + rel[..n], os.budget, true)
         == if root + rel[..n] in os.tree then Some(root + rel[..n]) else None
    decreases n
  {
    var p := root + rel[..n];
    assert root + rel[..0] == root;
    if p in os.tree {
      NotALink(os, root, rel, n);
      WalkWhole(os.tree, lenient, p, os.budget, true);
    } else {
      var q := root + rel[..n - 1];
      assert p == q + [rel[n - 1]];
      StraightPrefix(os, root, rel, n - 1, lenient);
      if q in os.tree {
        NotALink(os, root, rel, n - 1);
        MissingChild(os, q, rel[n - 1], lenient);
      } else {
        MissingParent(os, q, rel[n - 1], lenient);
      }
    }
  }

  lemma StraightWhole(os: Os, root: Path, rel: Path)
    requires Straight(os, root, rel)
    ensures Resolve(os, root + rel) == if root + rel in os.tree then Some(root + rel) else None
    ensures Exists(os, root + rel) <==> root + rel in os.tree
    ensures Hardlinked(os, root + rel) <==>
      root + rel in os.tree && os.tree[root + rel].File? && os.tree[root + rel].links > 1
  {
    StraightPrefix(os, root, rel, |rel|, os.lenient);
    StraightPrefix(os, root, rel, |rel|, false);
    assert rel[..|rel|] == rel;
  }

  /** On a straight path, what exists is what is in the tree. */
  lemma StraightAt(os: Os, root: Path, rel: Path, n: nat, p: Path)
    requires Straight(os, root, rel) && n <= |rel| && p == root + rel[..n]
    ensures Resolve(os, p) == if p in os.tree then Some(p) else None
    ensures Exists(os, p) <==> p in os.tree
  {
    StraightPrefix(os, root, rel, n, os.lenient);
    StraightPrefix(os, root, rel, n, false);
  }

  /** The existing prefix that CREATE finds resolves to itself. */
  lemma Ancestor(os: Os, root: Path, rel: Path, n: nat)
    requires Straight(os, root, rel) && n == ExistingFrom(os, root, rel, 0)
    ensures Resolve(os, root + rel[..n]) == Some(root + rel[..n])
  {
    StraightAt(os, root, rel, n, root + rel[..n]);
    assert root + rel[..0] == root;
  }

  /** Below a missing component nothing exists. */
  lemma MissingBelow(os: Os, root: Path, rel: Path, n: nat)
    requires Straight(os, root, rel) && n < |rel| && !Exists(os, root + rel[..n + 1])
    ensures root + rel !in os.tree
  {
    StraightAt(os, root, rel, n + 1, root + rel[..n + 1]);
    if root + rel in os.tree {
      RealPrefix(os.tree, root + rel, |root| + n);
      Cut(root, rel, n + 1);
    }
  }

  lemma Cut<T>(a: seq<T>, b: seq<T>, n: nat)
    requires n <= |b|
    ensures (a + b)[..|a| + n] == a + b[..n]
    ensures (a + b)[|a|..] == b
    ensures a + b[..n] + b[n..] == a + b
    ensures b != [] ==> a + b != a
    ensures n > 0 ==> a < a + b[..n]
  {
  }

  /** On a straight path, CREATE answers the path itself, unless a hardlinked file is there. */
  lemma CreateStraight(os: Os, root: Path, rel: Path)
    requires Straight(os, root, rel) && rel != [] && "" !in rel
    ensures CreatePath(os, root, Candidate(false, root + rel))
         == if Hardlinked(os, root + rel) then Err(SymlinkNotAllowed) else Ok(root + rel)
  {
    var c, n := Candidate(false, root + rel), ExistingFrom(os, root, rel, 0);
    Cut(root, rel, n);
    assert Inside(c, root) && Rel(c, root) == rel;
    Ancestor(os, root, rel, n);
    CreateUnfold(os, root, c, rel, n, root + rel[..n]);
    if n < |rel| {
      MissingBelow(os, root, rel, n);
      StraightWhole(os, root, rel);
    } else {
      assert rel[..n] == rel;
    }
  }

  lemma CreateUnfold(os: Os, root: Path, c: Candidate, rel: Path, n: nat, ancestor: Path)
    requires c != Candidate(false, root) && Inside(c, root) && rel == Rel(c, root)
    requires ".." !in rel && "" !in rel && n == ExistingFrom(os, root, rel, 0)
    requires Resolve(os, root + rel[..n]) == Some(ancestor) && root <= ancestor
    ensures n < |rel| ==> CreatePath(os, root, c) == Ok(ancestor + rel[n..])
    ensures n == |rel| ==>
      CreatePath(os, root, c) == if Hardlinked(os, ancestor) then Err(SymlinkNotAllowed) else Ok(ancestor)
  {
    if ancestor != root {
      assert root < ancestor;
    }
  }

  lemma CreateFacts(os: Os, root: Path, c: Candidate)
    requires WellFormed(os.tree) && IsDir(os.tree, root) && !ChainHasLink(os, root, c)
    requires CreatePath(os, root, c).Ok?
    ensures Inside(c, root) && Straight(os, root, Rel(c, root)) && Rel(c, root) != [] && "" !in Rel(c, root)
    ensures c == Candidate(false, root + Rel(c, root))
    ensures CreatePath(os, root, c) == Ok(c.parts) && !Hardlinked(os, c.parts)
  {
    var rel := Rel(c, root);
    assert c.parts == root + rel;
    CreateStraight(os, root, rel);
  }

  // ----- the guarantees -----

  /** Every accepted path is strictly below the root, in every mode. */
  lemma AcceptedIsBelow(os: Os, root: Path, raw: string, mode: Mode)
    requires WellFormed(os.tree) && IsDir(os.tree, root)
    requires ResolvePath(os, root, raw, mode).Ok?
    ensures Below(ResolvePath(os, root, raw, mode).value, root)
  {
    var c := BuildCandidate(raw, root);
    if mode.Create? || Resolve(os, c.parts).None? {
      CreateFacts(os, root, c);
    }
  }

  /** CREATE accepts exactly the link-free paths below the root without "..", as they are written. */
  lemma CreateIsLexical(os: Os, root: Path, raw: string, c: Candidate)
    requires WellFormed(os.tree) && IsDir(os.tree, root) && c == BuildCandidate(raw, root)
    ensures ResolvePath(os, root, raw, Create).Ok? <==>
      && raw != "" && !HasControl(raw)
      && Inside(c, root) && Rel(c, root) != [] && ".." !in Rel(c, root)
      && !LinkInChain(os, root, Rel(c, root)) && !Hardlinked(os, c.parts)
    ensures ResolvePath(os, root, raw, Create).Ok? ==> ResolvePath(os, root, raw, Create).value == c.parts
    ensures raw != "" && raw[0] != '/' ==> c.parts == root + Parse(raw)
  {
    if ResolvePath(os, root, raw, Create).Ok? {
      CreateFacts(os, root, c);
    } else if raw != "" && Inside(c, root) && ".." !in Rel(c, root) && Rel(c, root) != []
           && !LinkInChain(os, root, Rel(c, root)) {
      assert c.parts == root + Rel(c, root);
      NoEmptyPart(raw, root);
      CreateStraight(os, root, Rel(c, root));
    }
  }

  lemma NoEmptyPart(raw: string, root: Path)
    requires Inside(BuildCandidate(raw, root), root)
    ensures "" !in Rel(BuildCandidate(raw, root), root)
  {
    PartsOfRaw(raw, root);
  }

  /** For an existing target inside the root without "..", all modes give the same answer. */
  lemma ModesAgree(os: Os, root: Path, raw: string, c: Candidate)
    requires WellFormed(os.tree) && IsDir(os.tree, root) && c == BuildCandidate(raw, root)
    requires Inside(c, root) && ".." !in Rel(c, root) && Exists(os, c.parts)
    ensures ResolvePath(os, root, raw, Existing) == ResolvePath(os, root, raw, Create)
    ensures ResolvePath(os, root, raw, MaybeExisting) == ResolvePath(os, root, raw, Create)
  {
    var rel := Rel(c, root);
    assert c.parts == root + rel;
    if !LinkInChain(os, root, rel) {
      StraightWhole(os, root, rel);
      NoEmptyPart(raw, root);
      if rel == [] {
        assert c == Candidate(false, root);
      } else {
        CreateStraight(os, root, rel);
      }
    }
  }

  /** A path that EXISTING accepts is accepted alike by CREATE exactly when it is inside the root without "..". */
  lemma ModesAgreeIff(os: Os, root: Path, raw: string, c: Candidate)
    requires WellFormed(os.tree) && IsDir(os.tree, root) && c == BuildCandidate(raw, root)
    requires ResolvePath(os, root, raw, Existing).Ok?
    ensures ResolvePath(os, root, raw, MaybeExisting) == ResolvePath(os, root, raw, Existing)
    ensures ResolvePath(os, root, raw, Create) == ResolvePath(os, root, raw, Existing)
        <==> Inside(c, root) && ".." !in Rel(c, root)
  {
    if Inside(c, root) && ".." !in Rel(c, root) {
      assert c.parts == root + Rel(c, root);
      StraightWhole(os, root, Rel(c, root));
      ModesAgree(os, root, raw, c);
    }
  }

  /** For a missing target inside the root without "..", EXISTING refuses and the other two modes agree. */
  lemma MissingTarget(os: Os, root: Path, raw: string, c: Candidate)
    requires WellFormed(os.tree) && IsDir(os.tree, root) && c == BuildCandidate(raw, root)
    requires Inside(c, root) && ".." !in Rel(c, root) && !Exists(os, c.parts)
    ensures ResolvePath(os, root, raw, Existing).Err?
    ensures ResolvePath(os, root, raw, MaybeExisting) == ResolvePath(os, root, raw, Create)
  {
    if !LinkInChain(os, root, Rel(c, root)) {
      assert c.parts == root + Rel(c, root);
      StraightWhole(os, root, Rel(c, root));
    }
  }

  // ----- pathspecs -----

  predicate Part(s: string) {
    s != "" && s != "." && '/' !in s
  }

  lemma {:induction false} HeadAlone(x: string)
    requires '/' !in x
    ensures Head(x) == x
  {
    if x != "" {
      assert x[0] in x && forall c :: c in x[1..] ==> c in x;
      HeadAlone(x[1..]);
    }
  }

  lemma {:induction false} HeadBefore(x: string, y: string)
    requires '/' !in x
    ensures Head(x + "/" + y) == x
  {
    if x != "" {
      assert x[0] in x && forall c :: c in x[1..] ==> c in x;
      assert (x + "/" + y)[1..] == x[1..] + "/" + y;
      HeadBefore(x[1..], y);
    }
  }

  lemma ParseOne(x: string)
    requires Part(x)
    ensures Parse(x) == [x] && x[0] != '/'
  {
    HeadAlone(x);
    assert x[0] in x;
  }

  lemma ParseCons(x: string, y: string)
    requires Part(x)
    ensures Parse(x + "/" + y) == [x] + Parse(y)
    ensures x + "/" + y != "" && (x + "/" + y)[0] != '/'
  {
    HeadBefore(x, y);
    assert (x + "/" + y)[|x| + 1..] == y;
    assert x[0] in x && (x + "/" + y)[0] == x[0];
  }

  lemma {:induction false} ParseUndoesJoin(parts: Path)
    requires forall i :: 0 <= i < |parts| ==> Part(parts[i])
    ensures Parse(AsPosix(parts)) == parts
    ensures parts != [] ==> AsPosix(parts) != "" && AsPosix(parts)[0] != '/'
  {
    if |parts| == 1 {
      ParseOne(parts[0]);
    } else if |parts| > 1 {
      ParseUndoesJoin(parts[1..]);
      ParseCons(parts[0], AsPosix(parts[1..]));
      assert parts == [parts[0]] + parts[1..];
    }
  }

  /** A straight path that is not hardlinked is accepted as it is. */
  lemma StraightAccepted(os: Os, root: Path, rel: Path)
    requires Straight(os, root, rel) && rel != [] && "" !in rel && !Hardlinked(os, root + rel)
    ensures ResolveCandidate(os, root, Candidate(false, root + rel), MaybeExisting) == Ok(root + rel)
  {
    var c := Candidate(false, root + rel);
    assert Rel(c, root) == rel;
    assert root + rel != root;
    StraightWhole(os, root, rel);
    CreateStraight(os, root, rel);
  }

  /** A real path below the root is straight, and its components are names. */
  lemma RealIsStraight(os: Os, root: Path, rel: Path)
    requires WellFormed(os.tree) && IsDir(os.tree, root)
    requires root + rel in os.tree && !os.tree[root + rel].Link?
    ensures Straight(os, root, rel)
    ensures forall i :: 0 <= i < |rel| ==> Part(rel[i])
  {
    var p := root + rel;
    forall i | 0 <= i < |rel| ensures Name(rel[i]) {
      RealPrefix(os.tree, p, |root| + i);
      assert p[|root| + i] == rel[i];
    }
    forall i | 0 < i <= |rel| ensures !IsLink(os, root + rel[..i]) {
      RealPart(os, root, rel, i);
    }
  }

  lemma RealPart(os: Os, root: Path, rel: Path, i: nat)
    requires WellFormed(os.tree) && root + rel in os.tree && !os.tree[root + rel].Link? && 0 < i <= |rel|
    ensures !IsLink(os, root + rel[..i])
  {
    var p, q := root + rel, root + rel[..i];
    Cut(root, rel, i);
    if i < |rel| {
      RealPrefix(os.tree, p, |root| + i);
    } else {
      assert q == p;
    }
    RealLink(os, q);
  }

  /** What MAYBE_EXISTING accepts is a straight path of parts below the root. */
  lemma AcceptedIsStraight(os: Os, root: Path, raw: string) returns (rel: Path)
    requires WellFormed(os.tree) && IsDir(os.tree, root)
    requires ResolvePath(os, root, raw, MaybeExisting).Ok?
    ensures ResolvePath(os, root, raw, MaybeExisting) == Ok(root + rel)
    ensures Straight(os, root, rel) && rel != [] && !Hardlinked(os, root + rel)
    ensures forall i :: 0 <= i < |rel| ==> Part(rel[i])
  {
    var c := BuildCandidate(raw, root);
    var p := ResolvePath(os, root, raw, MaybeExisting).value;
    AcceptedIsBelow(os, root, raw, MaybeExisting);
    rel := p[|root|..];
    assert p == root + rel;
    if Resolve(os, c.parts).Some? {
      WalkEnds(os.tree, os.lenient, [], c.parts, os.budget);
      RealIsStraight(os, root, rel);
    } else {
      CreateFacts(os, root, c);
      PartsOfRaw(raw, root);
    }
  }

  lemma PartsOfRaw(raw: string, root: Path)
    requires Inside(BuildCandidate(raw, root), root)
    ensures forall i :: 0 <= i < |Rel(BuildCandidate(raw, root), root)| ==>
      Part(Rel(BuildCandidate(raw, root), root)[i]) && Rel(BuildCandidate(raw, root), root)[i] in Parse(raw)
  {
    var rel := Rel(BuildCandidate(raw, root), root);
    forall i | 0 <= i < |rel| ensures Part(rel[i]) && rel[i] in Parse(raw) {
      if raw != "" && raw[0] == '/' {
        assert rel[i] == Parse(raw)[|root| + i];
      } else {
        assert rel[i] == Parse(raw)[i];
      }
    }
  }

  predicate Printable(parts: Path) {
    forall i :: 0 <= i < |parts| ==> !HasControl(parts[i])
  }

  lemma ConsPrintable(h: string, rest: Path)
    requires !HasControl(h) && Printable(rest)
    ensures Printable([h] + rest)
  {
  }

  lemma {:induction false} ParseNoControl(s: string)
    requires !HasControl(s)
    ensures Printable(Parse(s))
  {
    if s != "" {
      var h := Head(s);
      SliceNoControl(s, 0, |h|);
      if |h| < |s| {
        SliceNoControl(s, |h| + 1, |s|);
        ParseNoControl(s[|h| + 1..]);
        ConsPrintable(h, Parse(s[|h| + 1..]));
      }
    }
  }

  lemma SliceNoControl(s: string, a: nat, b: nat)
    requires !HasControl(s) && a <= b <= |s|
    ensures !HasControl(s[a..b])
  {
    forall i | 0 <= i < b - a ensures !Control(s[a..b][i]) {
      assert !Control(s[a + i]);
    }
  }

  lemma ConcatNoControl(a: string, b: string)
    requires !HasControl(a) && !HasControl(b)
    ensures !HasControl(a + b)
  {
    forall i | 0 <= i < |a + b| ensures !Control((a + b)[i]) {
      assert (a + b)[i] == if i < |a| then a[i] else b[i - |a|];
    }
  }

  lemma {:induction false} JoinNoControl(parts: Path)
    requires Printable(parts)
    ensures !HasControl(AsPosix(parts))
  {
    if |parts| > 1 {
      JoinNoControl(parts[1..]);
      ConcatNoControl(parts[0], "/");
      ConcatNoControl(parts[0] + "/", AsPosix(parts[1..]));
    }
  }

  lemma {:induction false} JoinControl(parts: Path)
    requires !Printable(parts)
    ensures HasControl(AsPosix(parts))
  {
    if |parts| > 1 {
      var x, y := parts[0], AsPosix(parts[1..]);
      var i :| 0 <= i < |x + "/" + y| && (HasControl(x) ==> i < |x| && Control(x[i]));
      if HasControl(x) {
        assert (x + "/" + y)[i] == x[i];
      } else {
        assert !Printable(parts[1..]) by {
          var k :| 0 <= k < |parts| && HasControl(parts[k]);
          assert parts[1..][k - 1] == parts[k];
        }
        JoinControl(parts[1..]);
        var j :| 0 <= j < |y| && Control(y[j]);
        assert (x + "/" + y)[|x| + 1 + j] == y[j];
      }
    }
  }

  /** The components of `p` from the `n`th on have no control character. */
  predicate PrintableFrom(p: Path, n: nat) {
    forall i :: n <= i < |p| ==> !HasControl(p[i])
  }

  /** Resolving the answer again gives it back exactly if the answer has no control character. */
  lemma PrintableAnswer(os: Os, root: Path, raw: string, rel: Path)
    requires WellFormed(os.tree) && IsDir(os.tree, root) && Pathspec(os, root, raw) == Ok(AsPosix(rel))
    requires Straight(os, root, rel) && rel != [] && !Hardlinked(os, root + rel)
    requires forall i :: 0 <= i < |rel| ==> Part(rel[i])
    ensures Pathspec(os, root, AsPosix(rel)) == Ok(AsPosix(rel)) <==> Printable(rel)
  {
    if Printable(rel) {
      var s := AsPosix(rel);
      JoinNoControl(rel);
      ParseUndoesJoin(rel);
      StraightAccepted(os, root, rel);
      assert (root + rel)[|root|..] == rel;
      assert BuildCandidate(s, root) == Candidate(false, root + rel);
    } else {
      JoinControl(rel);
    }
  }

  /** What a path resolves to, below the root: the components of the node that exists, or else its own. */
  lemma AcceptedComponents(os: Os, root: Path, raw: string, rel: Path)
    requires WellFormed(os.tree) && IsDir(os.tree, root)
    requires ResolvePath(os, root, raw, MaybeExisting) == Ok(root + rel)
    ensures var resolved := Resolve(os, BuildCandidate(raw, root).parts);
      Printable(rel) <==> (resolved.Some? ==> PrintableFrom(resolved.value, |root|))
  {
    var c := BuildCandidate(raw, root);
    var resolved := Resolve(os, c.parts);
    if resolved.Some? {
      assert resolved.value == root + rel;
      assert forall i :: 0 <= i < |rel| ==> rel[i] == resolved.value[|root| + i];
      assert forall i :: |root| <= i < |resolved.value| ==> resolved.value[i] == rel[i - |root|];
    } else {
      CreateFacts(os, root, c);
      PartsOfRaw(raw, root);
      ParseNoControl(raw);
      assert (root + rel)[|root|..] == rel == Rel(c, root);
    }
  }

  /**
    Resolving a pathspec is idempotent exactly if what the path resolves to is missing, or has no
    component with a control character below the root.
   */
  lemma PathspecIdempotentIff(os: Os, root: Path, raw: string)
    requires WellFormed(os.tree) && IsDir(os.tree, root)
    requires Pathspec(os, root, raw).Ok?
    ensures var resolved := Resolve(os, BuildCandidate(raw, root).parts);
      Pathspec(os, root, Pathspec(os, root, raw).value) == Pathspec(os, root, raw) <==>
      (resolved.Some? ==> PrintableFrom(resolved.value, |root|))
  {
    var rel := AcceptedIsStraight(os, root, raw);
    assert (root + rel)[|root|..] == rel;
    PrintableAnswer(os, root, raw, rel);
    AcceptedComponents(os, root, raw, rel);
  }

  /** A vault with one file, whose name has a line break, and a link to it from outside the vault. */
  function BreakTree(): Tree {
    map[[] := Dir, ["v"] := Dir, ["v", "a\nb"] := File(1), ["l"] := Link(Target(true, ["v", "a\nb"]))]
  }

  lemma BreakFile(os: Os, strict: bool, b: nat)
    requires os.tree == BreakTree()
    ensures Walk(os.tree, strict, [], ["v", "a\nb"], b, true) == Some(["v", "a\nb"])
  {
    var p := ["v", "a\nb"];
    assert [] + ["v"] == ["v"] && ["v"] + ["a\nb"] == p && p[1..] == ["a\nb"] && ["a\nb"][1..] == [];
    assert Walk(os.tree, strict, p, [], b, true) == Some(p);
    assert Walk(os.tree, strict, ["v"], ["a\nb"], b, true) == Walk(os.tree, strict, p, [], b, true);
  }

  lemma BreakLink(os: Os)
    requires os.tree == BreakTree() && os.budget > 0
    ensures Resolve(os, ["l"]) == Some(["v", "a\nb"])
  {
    var p := ["v", "a\nb"];
    assert [] + ["l"] == ["l"] && ["l"][1..] == [] && p + [] == p;
    assert os.tree[["l"]] == Link(Target(true, p)) && IsDir(os.tree, []);
    assert Walk(os.tree, os.lenient, [], ["l"], os.budget, true)
        == Walk(os.tree, os.lenient, [], p + [], os.budget - 1, true);
    BreakFile(os, os.lenient, os.budget - 1);
  }

  lemma ParseLink()
    ensures Parse("/l") == ["l"] && !HasControl("/l")
  {
    assert "/l"[1..] == "l" && "l"[1..] == "" && [] + "" == "";
    assert Head("l") == "l" && Head("/l") == "";
    assert Parse("l") == ["l"];
  }

  lemma BreakTreeWellFormed()
    ensures WellFormed(BreakTree())
  {
    assert ["v"][..0] == [] && ["l"][..0] == [] && ["v", "a\nb"][..1] == ["v"];
    assert Name("v") && Name("l") && Name("a\nb");
  }

  /** Through that link the answer is a name that resolving refuses. */
  lemma BreakIsRefused(os: Os)
    requires os.tree == BreakTree() && os.budget > 0
    ensures WellFormed(os.tree) && IsDir(os.tree, ["v"])
    ensures Pathspec(os, ["v"], "/l") == Ok("a\nb")
    ensures Pathspec(os, ["v"], "a\nb") == Err(InvalidPath)
  {
    var root, p := ["v"], ["v", "a\nb"];
    BreakTreeWellFormed();
    ParseLink();
    BreakLink(os);
    BreakFile(os, false, os.budget);
    assert !Inside(Candidate(false, ["l"]), root) by { assert ["l"][0] != root[0]; }
    assert root < p && !Hardlinked(os, p);
    assert ResolvePath(os, root, "/l", MaybeExisting) == Accept(os, root, p) == Ok(p);
    assert p[1..] == ["a\nb"];
    assert Control("a\nb"[1]);
  }

  /** For a pathspec written inside the root without "..", resolving is always idempotent. */
  lemma PathspecIdempotent(os: Os, root: Path, raw: string, c: Candidate)
    requires WellFormed(os.tree) && IsDir(os.tree, root) && c == BuildCandidate(raw, root)
    requires Pathspec(os, root, raw).Ok? && Inside(c, root) && ".." !in Rel(c, root)
    ensures Pathspec(os, root, Pathspec(os, root, raw).value) == Pathspec(os, root, raw)
  {
    var rel := Rel(c, root);
    assert c.parts == root + rel;
    StraightWhole(os, root, rel);
    if Resolve(os, c.parts).None? { CreateFacts(os, root, c); }
    PartsOfRaw(raw, root);
    ParseNoControl(raw);
    JoinNoControl(rel);
    PathspecIdempotentIff(os, root, raw);
  }
}
