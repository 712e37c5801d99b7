/** The vault path boundary: which paths are accepted, over a static tree with symbolic links. */
module Paths {
  import opened Wrappers

  type Path = seq<string>

  // ----- the file system -----

  datatype Target = Target(absolute: bool, parts: Path)

  datatype Node = Dir | File(links: nat) | Link(target: Target)

  type Tree = map<Path, Node>

  /**
    An accessible tree, keyed by real paths. `lenient`: whether resolving a ".." after a plain
    file succeeds, which differs between Python versions; `budget`: how many links are followed.
   */
  datatype Os = Os(tree: Tree, lenient: bool, budget: nat)

  predicate Name(s: string) {
    s != "" && s != "." && s != ".." && '/' !in s
  }

  /** The root is a directory, and every other node has a name in a directory. */
  ghost predicate WellFormed(tree: Tree) {
    && [] in tree && tree[[]].Dir?
    && forall p :: p in tree && p != [] ==> Name(p[|p| - 1]) && IsDir(tree, p[..|p| - 1])
  }

  predicate IsDir(tree: Tree, p: Path) {
    p in tree && tree[p].Dir?
  }

  function Parent(p: Path): Path {
    if p == [] then [] else p[..|p| - 1]
  }

  /** Walks `todo` from the directory `cur`; `follow` says whether a link at the very end is followed. */
  function Walk(tree: Tree, lenient: bool, cur: Path, todo: Path, budget: nat, follow: bool): Option<Path>
    decreases budget, |todo|
  {
    if todo == [] then Some(cur)
    else if todo[0] == ".." then
      if lenient || IsDir(tree, cur) then Walk(tree, lenient, Parent(cur), todo[1..], budget, follow) else None
    else
      var p := cur + [todo[0]];
      if !IsDir(tree, cur) || p !in tree then None
      else if tree[p].Link? && (follow || |todo| > 1) then
        if budget == 0 then None
        else
          var t := tree[p].target;
          Walk(tree, lenient, if t.absolute then [] else cur, t.parts + todo[1..], budget - 1, follow)
      else Walk(tree, lenient, p, todo[1..], budget, follow)
  }

  /** os.path.realpath(..., strict=True) of an absolute path. */
  function Resolve(os: Os, parts: Path): Option<Path> {
    Walk(os.tree, os.lenient, [], parts, os.budget, true)
  }

  /** os.path.exists */
  predicate Exists(os: Os, parts: Path) {
    Walk(os.tree, false, [], parts, os.budget, true).Some?
  }

  /** os.path.islink */
  predicate IsLink(os: Os, parts: Path) {
    var p := Walk(os.tree, false, [], parts, os.budget, false);
    p.Some? && p.value in os.tree && os.tree[p.value].Link?
  }

  // ----- path strings -----

  /** The text up to the first slash. */
  function Head(s: string): (r: string)
    ensures r <= s && '/' !in r
    ensures |r| < |s| ==> s[|r|] == '/'
  {
    if s == "" || s[0] == '/' then "" else [s[0]] + Head(s[1..])
  }

  /** The components of a path string, without the empty ones and those that are a dot. */
  function Parse(s: string): (parts: Path)
    ensures forall i :: 0 <= i < |parts| ==> parts[i] != "" && parts[i] != "." && '/' !in parts[i]
  {
    if s == "" then []
    else
      var h := Head(s);
      var rest := if |h| < |s| then Parse(s[|h| + 1..]) else [];
      if h == "" || h == "." then rest else [h] + rest
  }

  function AsPosix(parts: Path): string {
    if parts == [] then "" else if |parts| == 1 then parts[0] else parts[0] + "/" + AsPosix(parts[1..])
  }

  /** An absolute path; exactly two leading slashes make a root of their own. */
  datatype Candidate = Candidate(doubled: bool, parts: Path)

  predicate Control(c: char) {
    c <= '\U{1f}'
  }

  predicate HasControl(s: string) {
    exists i :: 0 <= i < |s| && Control(s[i])
  }

  /** root / raw, where an absolute `raw` discards the root. */
  function BuildCandidate(raw: string, root: Path): Candidate {
    if raw != "" && raw[0] == '/' then
      Candidate(|raw| >= 2 && raw[1] == '/' && (|raw| == 2 || raw[2] != '/'), Parse(raw))
    else Candidate(false, root + Parse(raw))
  }

  /** Lexically at or below the root: relative_to does not raise. */
  predicate Inside(c: Candidate, root: Path) {
    !c.doubled && root <= c.parts
  }

  function Rel(c: Candidate, root: Path): Path
    requires Inside(c, root)
  {
    c.parts[|root|..]
  }

  // ----- the checks -----

  datatype Error = InvalidPath | SymlinkNotAllowed | PathEscapes | PathNotFound

  datatype Mode = Existing | Create | MaybeExisting

  predicate Below(p: Path, root: Path) {
    root < p
  }

  /** Some literal prefix below the root is a link. */
  predicate LinkInChain(os: Os, root: Path, rel: Path) {
    exists i :: 0 < i <= |rel| && IsLink(os, root + rel[..i])
  }

  predicate ChainHasLink(os: Os, root: Path, c: Candidate) {
    Inside(c, root) && LinkInChain(os, root, Rel(c, root))
  }

  predicate Hardlinked(os: Os, p: Path) {
    var q := Walk(os.tree, false, [], p, os.budget, true);
    q.Some? && q.value in os.tree && os.tree[q.value].File? && os.tree[q.value].links > 1
  }

  /** A resolved path must be strictly below the root and not hardlinked. */
  function Accept(os: Os, root: Path, resolved: Path): Result<Path, Error> {
    if resolved == root then Err(InvalidPath)
    else if !Below(resolved, root) then Err(PathEscapes)
    else if Hardlinked(os, resolved) then Err(SymlinkNotAllowed)
    else Ok(resolved)
  }

  /** How many components exist, from `k` on, before the first that does not. */
  function ExistingFrom(os: Os, root: Path, rel: Path, k: nat): (n: nat)
    requires k <= |rel|
    ensures k <= n <= |rel|
    ensures forall i :: k < i <= n ==> Exists(os, root + rel[..i])
    ensures n < |rel| ==> !Exists(os, root + rel[..n + 1])
    decreases |rel| - k
  {
    if k < |rel| && Exists(os, root + rel[..k + 1]) then ExistingFrom(os, root, rel, k + 1) else k
  }

  function CreatePath(os: Os, root: Path, c: Candidate): Result<Path, Error> {
    if c == Candidate(false, root) then Err(InvalidPath)
    else if !Inside(c, root) then Err(PathEscapes)
    else
      var rel := Rel(c, root);
      if ".." in rel then Err(PathEscapes)
      else if "" in rel then Err(InvalidPath)
      else
        var n := ExistingFrom(os, root, rel, 0);
        var ancestor := Resolve(os, root + rel[..n]);
        if ancestor.None? then Err(PathNotFound)
        else if ancestor.value != root && !Below(ancestor.value, root) then Err(PathEscapes)
        else if n < |rel| then Ok(ancestor.value + rel[n..])
        else if Hardlinked(os, ancestor.value) then Err(SymlinkNotAllowed)
        else Ok(ancestor.value)
  }

  function ResolveCandidate(os: Os, root: Path, c: Candidate, mode: Mode): Result<Path, Error> {
    if ChainHasLink(os, root, c) then Err(SymlinkNotAllowed)
    else if mode.Create? then CreatePath(os, root, c)
    else
      var resolved := Resolve(os, c.parts);
      if resolved.Some? then Accept(os, root, resolved.value)
      else if mode.Existing? then Err(PathNotFound)
      else CreatePath(os, root, c)
  }

  function ResolvePath(os: Os, root: Path, raw: string, mode: Mode): Result<Path, Error> {
    if raw == "" || HasControl(raw) then Err(InvalidPath)
    else ResolveCandidate(os, root, BuildCandidate(raw, root), mode)
  }

  // ----- the loops -----

  method CheckNoSymlinksInChain(os: Os, root: Path, c: Candidate) returns (ok: bool)
    ensures ok <==> !ChainHasLink(os, root, c)
  {
    if !Inside(c, root) {
      return true;
    }
    var rel := Rel(c, root);
    var current, k := root, 0;
    while k < |rel|
      invariant 0 <= k <= |rel| && current == root + rel[..k]
      invariant forall i :: 0 < i <= k ==> !IsLink(os, root + rel[..i])
    {
      current := current + [rel[k]];
      assert current == root + rel[..k + 1];
      if IsLink(os, current) {
        return false;
      }
      k := k + 1;
    }
    ok := true;
  }

  method ResolveCreateMode(os: Os, root: Path, c: Candidate) returns (r: Result<Path, Error>)
    ensures r == CreatePath(os, root, c)
  {
    if c == Candidate(false, root) {
      return Err(InvalidPath);
    }
    if !Inside(c, root) {
      return Err(PathEscapes);
    }
    var rel := Rel(c, root);
    if ".." in rel {
      return Err(PathEscapes);
    }
    if "" in rel {
      return Err(InvalidPath);
    }
    var existing, accumulated, found, k := root, root, 0, 0;
    while k < |rel|
      invariant 0 <= k <= |rel| && accumulated == existing == root + rel[..k] && found == k
      invariant ExistingFrom(os, root, rel, k) == ExistingFrom(os, root, rel, 0)
    {
      accumulated := accumulated + [rel[k]];
      assert accumulated == root + rel[..k + 1];
      if !Exists(os, accumulated) {
        break;
      }
      existing, found := accumulated, k + 1;
      k := k + 1;
    }
    assert found == ExistingFrom(os, root, rel, 0) && existing == root + rel[..found];
    var ancestor := Resolve(os, existing);
    if ancestor.None? {
      return Err(PathNotFound);
    }
    if ancestor.value != root && !Below(ancestor.value, root) {
      return Err(PathEscapes);
    }
    var final := ancestor.value + rel[found..];
    if found == |rel| {
      assert final == ancestor.value;
      if Hardlinked(os, final) {
        return Err(SymlinkNotAllowed);
      }
    }
    r := Ok(final);
  }

  method ResolveVaultPath(os: Os, root: Path, raw: string, mode: Mode) returns (r: Result<Path, Error>)
    ensures r == ResolvePath(os, root, raw, mode)
  {
    if raw == "" || HasControl(raw) {
      return Err(InvalidPath);
    }
    var c := BuildCandidate(raw, root);
    var ok := CheckNoSymlinksInChain(os, root, c);
    if !ok {
      return Err(SymlinkNotAllowed);
    }
    if mode.Create? {
      r := ResolveCreateMode(os, root, c);
      return;
    }
    var resolved := Resolve(os, c.parts);
    if resolved.Some? {
      return Accept(os, root, resolved.value);
    }
    if mode.Existing? {
      return Err(PathNotFound);
    }
    r := ResolveCreateMode(os, root, c);
  }

  /** The vault-relative string of an accepted path. */
  function Pathspec(os: Os, root: Path, raw: string): Result<string, Error> {
    var r := ResolvePath(os, root, raw, MaybeExisting);
    if r.Err? then Err(r.error) else Ok(AsPosix(if root <= r.value then r.value[|root|..] else r.value))
  }
}
