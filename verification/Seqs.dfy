/** What the components share about sequences: stable sorting as list.sort does it, places, filters, groups. */
module Seqs {

  lemma Regroup<T>(a: seq<T>, b: seq<T>, c: seq<T>)
    ensures a + b + c == a + (b + c)
  {
  }

  /** s[:n] */
  function Take<T>(s: seq<T>, n: nat): (r: seq<T>)
    ensures r <= s && |r| <= n
  {
    if n <= |s| then s[..n] else s
  }

  ghost predicate TotalPreorder<T(!new)>(le: (T, T) -> bool) {
    && (forall x, y :: le(x, y) || le(y, x))
    && (forall x, y, z :: le(x, y) && le(y, z) ==> le(x, z))
  }

  predicate SortedBy<T>(le: (T, T) -> bool, s: seq<T>) {
    forall i, j :: 0 <= i < j < |s| ==> le(s[i], s[j])
  }

  /** Puts `x` before the elements that it may precede. */
  function Insert<T>(le: (T, T) -> bool, x: T, s: seq<T>): (r: seq<T>)
    ensures |r| == |s| + 1
  {
    if s == [] || le(x, s[0]) then [x] + s else [s[0]] + Insert(le, x, s[1..])
  }

  function Sort<T>(le: (T, T) -> bool, s: seq<T>): (r: seq<T>)
    ensures |r| == |s|
  {
    if s == [] then [] else Insert(le, s[0], Sort(le, s[1..]))
  }

  lemma {:induction false} InsertContents<T>(le: (T, T) -> bool, x: T, s: seq<T>)
    ensures multiset(Insert(le, x, s)) == multiset{x} + multiset(s)
  {
    if s != [] && !le(x, s[0]) {
      InsertContents(le, x, s[1..]);
      assert s == [s[0]] + s[1..];
    }
  }

  lemma {:induction false} SortPermutes<T>(le: (T, T) -> bool, s: seq<T>)
    ensures multiset(Sort(le, s)) == multiset(s)
  {
    if s != [] {
      SortPermutes(le, s[1..]);
      InsertContents(le, s[0], Sort(le, s[1..]));
      assert s == [s[0]] + s[1..];
    }
  }

  lemma SameMembers<T>(a: seq<T>, b: seq<T>)
    requires multiset(a) == multiset(b)
    ensures |a| == |b| && forall x :: x in a <==> x in b
  {
    assert forall x :: x in a <==> x in multiset(a);
    assert forall x :: x in b <==> x in multiset(b);
    assert |a| == |multiset(a)| && |b| == |multiset(b)|;
  }

  lemma {:induction false} InsertSorts<T(!new)>(le: (T, T) -> bool, x: T, s: seq<T>)
    requires TotalPreorder(le) && SortedBy(le, s)
    ensures SortedBy(le, Insert(le, x, s))
  {
    if s != [] && !le(x, s[0]) {
      InsertSorts(le, x, s[1..]);
      var r := Insert(le, x, s[1..]);
      InsertContents(le, x, s[1..]);
      forall j | 0 <= j < |r| ensures le(s[0], r[j]) {
        assert r[j] in multiset(r);
        assert r[j] == x || r[j] in s[1..];
      }
    } else if s != [] {
      forall j | 0 <= j < |s| ensures le(x, s[j]) {
        assert j > 0 ==> le(s[0], s[j]);
      }
    }
  }

  lemma {:induction false} SortSorts<T(!new)>(le: (T, T) -> bool, s: seq<T>)
    requires TotalPreorder(le)
    ensures SortedBy(le, Sort(le, s))
  {
    if s != [] {
      SortSorts(le, s[1..]);
      InsertSorts(le, s[0], Sort(le, s[1..]));
    }
  }

  /** No two elements of `s` at different places are tied. */
  ghost predicate Untied<T>(le: (T, T) -> bool, s: seq<T>) {
    forall i, j :: 0 <= i < |s| && 0 <= j < |s| && le(s[i], s[j]) && le(s[j], s[i]) ==> s[i] == s[j]
  }

  lemma HeadIsLeast<T(!new)>(le: (T, T) -> bool, s: seq<T>, x: T)
    requires TotalPreorder(le) && SortedBy(le, s) && x in s
    ensures le(s[0], x)
  {
    var i :| 0 <= i < |s| && s[i] == x;
    if i == 0 { assert le(x, x); }
  }

  lemma SameHead<T(!new)>(le: (T, T) -> bool, a: seq<T>, b: seq<T>)
    requires TotalPreorder(le) && SortedBy(le, a) && SortedBy(le, b)
    requires |a| == |b| > 0 && (forall x :: x in a <==> x in b) && Untied(le, a)
    ensures a[0] == b[0]
  {
    assert a[0] in b && b[0] in a;
    HeadIsLeast(le, b, a[0]);
    HeadIsLeast(le, a, b[0]);
    var i :| 0 <= i < |a| && a[i] == b[0];
    assert le(a[0], a[i]) && le(a[i], a[0]);
  }

  lemma WithoutAt<T>(s: seq<T>, i: nat)
    requires i < |s|
    ensures multiset(s[..i] + s[i + 1..]) == multiset(s) - multiset{s[i]}
    ensures s == s[..i] + [s[i]] + s[i + 1..]
  {
    assert s == s[..i] + [s[i]] + s[i + 1..];
  }

  lemma SameTail<T>(a: seq<T>, b: seq<T>)
    requires a != [] && b != [] && a[0] == b[0] && multiset(a) == multiset(b)
    ensures multiset(a[1..]) == multiset(b[1..])
  {
    WithoutAt(a, 0);
    WithoutAt(b, 0);
    assert a[..0] + a[1..] == a[1..] && b[..0] + b[1..] == b[1..];
  }

  /** Without ties there is one sorted order: the input order makes no difference. */
  lemma {:induction false} SortedUnique<T(!new)>(le: (T, T) -> bool, a: seq<T>, b: seq<T>)
    requires TotalPreorder(le) && SortedBy(le, a) && SortedBy(le, b)
    requires multiset(a) == multiset(b) && Untied(le, a)
    ensures a == b
  {
    SameMembers(a, b);
    if a != [] {
      SameHead(le, a, b);
      SameTail(a, b);
      SortedUnique(le, a[1..], b[1..]);
      assert a == [a[0]] + a[1..] && b == [b[0]] + b[1..];
    }
  }

  // ----- places -----

  function Without<T>(s: seq<T>, i: nat): (r: seq<T>)
    requires i < |s|
    ensures |r| == |s| - 1
    ensures forall j :: 0 <= j < |r| ==> r[j] == s[if j < i then j else j + 1]
  {
    s[..i] + s[i + 1..]
  }

  lemma Place<T>(x: T, s: seq<T>) returns (i: nat)
    requires x in s
    ensures i < |s| && s[i] == x
  {
    i :| 0 <= i < |s| && s[i] == x;
  }

  lemma WithoutPermutes<T>(a: seq<T>, b: seq<T>, i: nat, k: nat)
    requires multiset(a) == multiset(b) && i < |a| && k < |b| && a[i] == b[k]
    ensures multiset(Without(a, i)) == multiset(Without(b, k))
  {
    WithoutAt(a, i);
    WithoutAt(b, k);
  }

  // ----- stability -----

  /** `x` stands somewhere before `y`. */
  ghost predicate Before<T>(s: seq<T>, x: T, y: T) {
    exists i, j :: 0 <= i < j < |s| && s[i] == x && s[j] == y
  }

  lemma BeforeIn<T>(a: seq<T>, x: T, b: seq<T>, y: T)
    requires y in b
    ensures Before(a + [x] + b, x, y)
  {
    var j :| 0 <= j < |b| && b[j] == y;
    var s := a + [x] + b;
    assert s[|a|] == x && s[|a| + 1 + j] == y;
  }

  lemma {:induction false} InsertBefore<T>(le: (T, T) -> bool, x: T, s: seq<T>, y: T)
    requires y in s && le(x, y)
    ensures Before(Insert(le, x, s), x, y)
  {
    if le(x, s[0]) {
      BeforeIn([], x, s, y);
      assert [] + [x] + s == [x] + s;
    } else {
      InsertBefore(le, x, s[1..], y);
      BeforeCons(s[0], Insert(le, x, s[1..]), x, y);
    }
  }

  lemma BeforeCons<T>(h: T, s: seq<T>, x: T, y: T)
    requires Before(s, x, y)
    ensures Before([h] + s, x, y)
  {
    var i, j :| 0 <= i < j < |s| && s[i] == x && s[j] == y;
    assert ([h] + s)[i + 1] == x && ([h] + s)[j + 1] == y;
  }

  lemma {:induction false} InsertMember<T>(le: (T, T) -> bool, z: T, s: seq<T>, y: T)
    requires y in s
    ensures y in Insert(le, z, s)
  {
    InsertContents(le, z, s);
    assert y in multiset(s) && y in multiset(Insert(le, z, s));
  }

  lemma {:induction false} InsertKeepsBefore<T>(le: (T, T) -> bool, z: T, s: seq<T>, x: T, y: T)
    requires Before(s, x, y)
    ensures Before(Insert(le, z, s), x, y)
  {
    if le(z, s[0]) {
      BeforeCons(z, s, x, y);
    } else {
      var i, j :| 0 <= i < j < |s| && s[i] == x && s[j] == y;
      var rest := Insert(le, z, s[1..]);
      if i == 0 {
        assert s[1..][j - 1] == y;
        InsertMember(le, z, s[1..], y);
        BeforeIn([], x, rest, y);
        assert [] + [x] + rest == [s[0]] + rest;
      } else {
        assert s[1..][i - 1] == x && s[1..][j - 1] == y;
        InsertKeepsBefore(le, z, s[1..], x, y);
        BeforeCons(s[0], rest, x, y);
      }
    }
  }

  /** An element that may precede a later one keeps its place before it. */
  lemma {:induction false} SortStable<T>(le: (T, T) -> bool, s: seq<T>, x: T, y: T)
    requires Before(s, x, y) && le(x, y)
    ensures Before(Sort(le, s), x, y)
  {
    var i, j :| 0 <= i < j < |s| && s[i] == x && s[j] == y;
    if i == 0 {
      SortPermutes(le, s[1..]);
      assert s[1..][j - 1] == y;
      assert y in multiset(s[1..]);
      InsertBefore(le, x, Sort(le, s[1..]), y);
    } else {
      assert s[1..][i - 1] == x && s[1..][j - 1] == y;
      SortStable(le, s[1..], x, y);
      InsertKeepsBefore(le, s[0], Sort(le, s[1..]), x, y);
    }
  }

  // ----- first occurrences -----

  /** The elements in the order in which they first occur. */
  function FirstTimes<T(==, !new)>(s: seq<T>): (r: seq<T>)
    ensures forall x :: x in r <==> x in s
    ensures forall i, j :: 0 <= i < j < |r| ==> r[i] != r[j]
  {
    if s == [] then []
    else
      var x, init := s[|s| - 1], FirstTimes(s[..|s| - 1]);
      assert s == s[..|s| - 1] + [x];
      if x in init then init else init + [x]
  }

  lemma FirstTimesNext<T(!new)>(s: seq<T>, x: T)
    ensures FirstTimes(s + [x]) == if x in s then FirstTimes(s) else FirstTimes(s) + [x]
  {
    assert (s + [x])[..|s|] == s;
  }

  lemma BeforeMore<T>(s: seq<T>, x: T, y: T, z: T)
    requires Before(s, x, y)
    ensures Before(s + [z], x, y)
  {
    var i, j :| 0 <= i < j < |s| && s[i] == x && s[j] == y;
    assert (s + [z])[i] == x && (s + [z])[j] == y;
  }

  /** What occurs earlier for the first time comes first. */
  lemma {:induction false} FirstTimesInOrder<T(!new)>(s: seq<T>, n: nat, x: T, y: T)
    requires n <= |s| && x in s[..n] && y !in s[..n] && y in s
    ensures Before(FirstTimes(s), x, y)
  {
    var init, z := s[..|s| - 1], s[|s| - 1];
    assert s == init + [z] && init[..n] == s[..n];
    FirstTimesNext(init, z);
    if y in init {
      FirstTimesInOrder(init, n, x, y);
      if z !in init { BeforeMore(FirstTimes(init), x, y, z); }
    } else {
      var i := Place(x, FirstTimes(init));
      assert FirstTimes(s)[i] == x && FirstTimes(s)[|FirstTimes(init)|] == y;
    }
  }

  // ----- filtering -----

  lemma TakeAll<T>(s: seq<T>)
    ensures s[..|s|] == s
  {
  }

  lemma TakeNext<T>(s: seq<T>, k: nat)
    requires k < |s|
    ensures s[..k + 1] == s[..k] + [s[k]]
  {
  }

  function Filter<T>(p: T -> bool, s: seq<T>): (r: seq<T>)
    ensures forall x :: x in r ==> x in s && p(x)
  {
    if s == [] then [] else (if p(s[0]) then [s[0]] else []) + Filter(p, s[1..])
  }

  lemma {:induction false} FilterSplit<T>(p: T -> bool, a: seq<T>, b: seq<T>)
    ensures Filter(p, a + b) == Filter(p, a) + Filter(p, b)
  {
    if a == [] {
      assert a + b == b;
    } else {
      assert (a + b)[0] == a[0] && (a + b)[1..] == a[1..] + b;
      FilterSplit(p, a[1..], b);
    }
  }

  lemma FilterKeeps<T>(p: T -> bool, s: seq<T>, i: nat)
    requires i < |s| && p(s[i])
    ensures s[i] in Filter(p, s)
  {
    WithoutAt(s, i);
    FilterSplit(p, s[..i] + [s[i]], s[i + 1..]);
    FilterSplit(p, s[..i], [s[i]]);
    assert s[i] in Filter(p, [s[i]]);
  }

  lemma FilterAround<T>(p: T -> bool, a: seq<T>, x: T, b: seq<T>)
    ensures multiset(Filter(p, a + [x] + b)) == multiset(Filter(p, [x])) + multiset(Filter(p, a + b))
  {
    FilterSplit(p, a, b);
    FilterSplit(p, a + [x], b);
    FilterSplit(p, a, [x]);
  }

  lemma {:induction false} FilterPermutes<T>(p: T -> bool, a: seq<T>, b: seq<T>)
    requires multiset(a) == multiset(b)
    ensures multiset(Filter(p, a)) == multiset(Filter(p, b))
  {
    SameMembers(a, b);
    if a != [] {
      assert a[0] in b;
      var i :| 0 <= i < |b| && b[i] == a[0];
      WithoutAt(a, 0);
      WithoutAt(b, i);
      assert a[..0] + [a[0]] + a[1..] == a && a[..0] + a[1..] == a[1..];
      FilterPermutes(p, a[1..], b[..i] + b[i + 1..]);
      FilterAround(p, b[..i], a[0], b[i + 1..]);
      FilterAround(p, a[..0], a[0], a[1..]);
    }
  }

  // ----- grouping by a key -----

  function WithKey<T>(key: T -> int, n: int): T -> bool {
    x => key(x) == n
  }

  function At<T>(groups: map<int, seq<T>>, n: int): seq<T> {
    if n in groups then groups[n] else []
  }

  function Adding<T>(key: T -> int, groups: map<int, seq<T>>, x: T): (r: map<int, seq<T>>)
    ensures r.Keys == groups.Keys + {key(x)}
  {
    groups[key(x) := At(groups, key(x)) + [x]]
  }

  /** `groups` is `s` by key. */
  ghost predicate Grouped<T>(key: T -> int, groups: map<int, seq<T>>, s: seq<T>) {
    && (forall n :: At(groups, n) == Filter(WithKey(key, n), s))
    && (forall n :: n in groups ==> groups[n] != [])
  }

  lemma AddingAt<T>(key: T -> int, groups: map<int, seq<T>>, s: seq<T>, x: T, n: int)
    requires At(groups, n) == Filter(WithKey(key, n), s)
    ensures At(Adding(key, groups, x), n) == Filter(WithKey(key, n), s + [x])
  {
    FilterSplit(WithKey(key, n), s, [x]);
    assert Filter(WithKey(key, n), [x]) == if key(x) == n then [x] else [];
  }

  lemma GroupedNext<T>(key: T -> int, groups: map<int, seq<T>>, s: seq<T>, k: nat)
    requires k < |s| && Grouped(key, groups, s[..k])
    ensures Grouped(key, Adding(key, groups, s[k]), s[..k + 1])
  {
    TakeNext(s, k);
    var more, longer := Adding(key, groups, s[k]), s[..k + 1];
    forall n ensures At(more, n) == Filter(WithKey(key, n), longer) {
      AddingAt(key, groups, s[..k], s[k], n);
    }
  }

  /** `keys` lists the elements of `domain` once each. */
  predicate Lists(keys: seq<int>, domain: set<int>) {
    && (forall n :: n in domain ==> n in keys)
    && (forall i :: 0 <= i < |keys| ==> keys[i] in domain)
    && (forall i, j :: 0 <= i < j < |keys| ==> keys[i] != keys[j])
  }

  lemma ListsNext(keys: seq<int>, domain: set<int>, n: int)
    requires Lists(keys, domain)
    ensures Lists(if n in domain then keys else keys + [n], domain + {n})
  {
    var more := if n in domain then keys else keys + [n];
    forall m | m in domain + {n} ensures m in more {
      if m in domain { assert m in keys; } else { assert more[|keys|] == n; }
    }
  }

  /** The elements numbered (from 1) in `done` are replaced by those of `image`. */
  predicate Replaced<T(==)>(now: seq<T>, before: seq<T>, image: seq<T>, done: seq<int>) {
    && |now| == |before| == |image|
    && forall i :: 0 <= i < |now| ==> now[i] == if i + 1 in done then image[i] else before[i]
  }

  lemma ReplacedNext<T>(now: seq<T>, before: seq<T>, image: seq<T>, keys: seq<int>, k: nat, next: seq<T>)
    requires k < |keys| && Replaced(now, before, image, keys[..k]) && keys[k] !in keys[..k]
    requires var i := keys[k] - 1; next == if 0 <= i < |now| then now[i := image[i]] else now
    ensures Replaced(next, before, image, keys[..k + 1])
  {
    TakeNext(keys, k);
  }
}
