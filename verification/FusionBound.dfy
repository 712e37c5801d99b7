/** What the fused ranking guarantees, and how far the two-lists-first rule reaches. */
module FusionBound {
  import opened Wrappers
  import opened Fusion
  import Seqs

  lemma HigherFirstOrders()
    ensures Seqs.TotalPreorder(HigherFirst())
  {
  }

  /** The result for a chunk. */
  function ResultOf(k: nat, votes: seq<Vote>, chunk: int): Fused {
    Fused(chunk, NoteOf(votes, chunk), Score(k, votes, chunk))
  }

  /** The fused list ranks every named chunk once, by descending score, ties by first vote. */
  lemma FusedRanking(k: nat, votes: seq<Vote>)
    ensures multiset(FuseVotes(k, votes)) == multiset(Results(k, votes, Chunks(votes)))
    ensures |FuseVotes(k, votes)| == |Chunks(votes)|
    ensures forall c :: ResultOf(k, votes, c) in FuseVotes(k, votes) <==> Named(votes, c)
    ensures forall i, j :: 0 <= i < j < |FuseVotes(k, votes)| ==>
      FuseVotes(k, votes)[i].score >= FuseVotes(k, votes)[j].score
  {
    var le, results := HigherFirst(), Results(k, votes, Chunks(votes));
    HigherFirstOrders();
    Seqs.SortSorts(le, results);
    Seqs.SortPermutes(le, results);
    Seqs.SameMembers(FuseVotes(k, votes), results);
    forall c ensures ResultOf(k, votes, c) in results <==> Named(votes, c) {
      if ResultOf(k, votes, c) in results {
        var i :| 0 <= i < |results| && results[i] == ResultOf(k, votes, c);
        assert Chunks(votes)[i] == c && c in Chunks(votes);
      }
      if c in Chunks(votes) {
        var i :| 0 <= i < |Chunks(votes)| && Chunks(votes)[i] == c;
        assert results[i] == ResultOf(k, votes, c);
      }
    }
    forall i, j | 0 <= i < j < |FuseVotes(k, votes)|
      ensures FuseVotes(k, votes)[i].score >= FuseVotes(k, votes)[j].score
    {
      assert le(FuseVotes(k, votes)[i], FuseVotes(k, votes)[j]);
    }
  }

  /** Chunks with equal scores keep the order of their first votes. */
  lemma TiesByFirstVote(k: nat, votes: seq<Vote>, a: int, b: int)
    requires Seqs.Before(Chunks(votes), a, b) && Score(k, votes, a) == Score(k, votes, b)
    ensures Seqs.Before(FuseVotes(k, votes), ResultOf(k, votes, a), ResultOf(k, votes, b))
  {
    var chunks, results := Chunks(votes), Results(k, votes, Chunks(votes));
    var i, j :| 0 <= i < j < |chunks| && chunks[i] == a && chunks[j] == b;
    assert results[i] == ResultOf(k, votes, a) && results[j] == ResultOf(k, votes, b);
    Seqs.SortStable(HigherFirst(), results, ResultOf(k, votes, a), ResultOf(k, votes, b));
  }

  /** A higher score comes first. */
  lemma HigherScoreFirst(k: nat, votes: seq<Vote>, a: int, b: int)
    requires Named(votes, a) && Named(votes, b) && Score(k, votes, a) > Score(k, votes, b)
    ensures Seqs.Before(FuseVotes(k, votes), ResultOf(k, votes, a), ResultOf(k, votes, b))
  {
    FusedRanking(k, votes);
    var fused := FuseVotes(k, votes);
    assert ResultOf(k, votes, a) in fused && ResultOf(k, votes, b) in fused;
    var i :| 0 <= i < |fused| && fused[i] == ResultOf(k, votes, a);
    var j :| 0 <= j < |fused| && fused[j] == ResultOf(k, votes, b);
    assert i < j;
  }

  // ----- scores are sums -----

  lemma {:induction false} ScoreSplit(k: nat, a: seq<Vote>, b: seq<Vote>, chunk: int)
    ensures Score(k, a + b, chunk) == Score(k, a, chunk) + Score(k, b, chunk)
  {
    if b == [] {
      assert a + b == a;
    } else {
      assert (a + b)[|a + b| - 1] == b[|b| - 1] && (a + b)[..|a + b| - 1] == a + b[..|b| - 1];
      ScoreSplit(k, a, b[..|b| - 1], chunk);
    }
  }

  /** A score is the sum of what the three lists give. */
  lemma ScoreOfLists(k: nat, first: int -> Option<int>, vector: seq<VectorHit>, keyword: seq<KeywordHit>,
                     title: seq<TitleHit>, chunk: int)
    ensures Score(k, Votes(first, vector, keyword, title), chunk)
         == Score(k, VectorVotes(vector), chunk) + Score(k, KeywordVotes(keyword), chunk)
          + Score(k, TitleVotes(first, title), chunk)
  {
    ScoreSplit(k, VectorVotes(vector) + KeywordVotes(keyword), TitleVotes(first, title), chunk);
    ScoreSplit(k, VectorVotes(vector), KeywordVotes(keyword), chunk);
  }

  function Gain(k: nat, v: Vote, chunk: int): real {
    if v.chunk == chunk then Weight(k, v.rank) else 0.0
  }

  lemma ScoreWithout(k: nat, votes: seq<Vote>, i: nat, chunk: int)
    requires i < |votes|
    ensures Score(k, votes, chunk) == Score(k, Seqs.Without(votes, i), chunk) + Gain(k, votes[i], chunk)
  {
    Seqs.WithoutAt(votes, i);
    ScoreSplit(k, votes[..i] + [votes[i]], votes[i + 1..], chunk);
    ScoreSplit(k, votes[..i], [votes[i]], chunk);
    ScoreSplit(k, votes[..i], votes[i + 1..], chunk);
    assert [votes[i]][..0] == [];
    assert Score(k, [], chunk) == 0.0;
  }

  /** The order of the votes makes no difference to a score. */
  lemma {:induction false} ScorePermutes(k: nat, a: seq<Vote>, b: seq<Vote>, chunk: int)
    requires multiset(a) == multiset(b)
    ensures Score(k, a, chunk) == Score(k, b, chunk)
    decreases |a|
  {
    Seqs.SameMembers(a, b);
    if a != [] {
      var i := Seqs.Place(a[0], b);
      Seqs.WithoutPermutes(a, b, 0, i);
      ScoreWithout(k, a, 0, chunk);
      ScoreWithout(k, b, i, chunk);
      ScorePermutes(k, Seqs.Without(a, 0), Seqs.Without(b, i), chunk);
    }
  }

  // ----- two lists first -----

  /** A list that names a chunk at most once, with ranks up to `most`. */
  predicate RankList(votes: seq<Vote>, most: int) {
    && (forall i :: 0 <= i < |votes| ==> votes[i].rank <= most)
    && (forall i, j :: 0 <= i < j < |votes| ==> votes[i].chunk != votes[j].chunk)
  }

  lemma {:induction false} ScoreInList(k: nat, votes: seq<Vote>, most: Rank, chunk: int)
    requires RankList(votes, most)
    ensures !Named(votes, chunk) ==> Score(k, votes, chunk) == 0.0
    ensures Named(votes, chunk) ==> Weight(k, most) <= Score(k, votes, chunk) <= Weight(k, 1)
  {
    if votes != [] {
      var n := |votes| - 1;
      var init, last := votes[..n], votes[n];
      assert init + [last] == votes;
      NamedNext(init, last, chunk);
      if last.chunk == chunk {
        forall i | 0 <= i < n ensures init[i].chunk != chunk { assert init[i] == votes[i]; }
        NeverNamed(k, init, chunk);
        WeightFalls(k, 1, last.rank);
        WeightFalls(k, last.rank, most);
      } else {
        ScoreInList(k, init, most, chunk);
      }
    }
  }

  lemma WeightFalls(k: nat, r: Rank, s: Rank)
    requires r <= s
    ensures 0.0 < Weight(k, s) <= Weight(k, r)
  {
    DivisionFalls((k + r) as real, (k + s) as real);
  }

  lemma DivisionFalls(x: real, y: real)
    requires 0.0 < x <= y
    ensures 0.0 < 1.0 / y <= 1.0 / x
  {
    var u, v := 1.0 / x, 1.0 / y;
    assert u * x == 1.0 && v * y == 1.0;
    if v > u {
      assert v * x > u * x;
      assert v * y >= v * x;
    }
  }

  lemma DivisionFallsStrictly(x: real, y: real)
    requires 0.0 < x < y
    ensures 1.0 / y < 1.0 / x
  {
    var u, v := 1.0 / x, 1.0 / y;
    assert u * x == 1.0 && v * y == 1.0;
    DivisionFalls(x, x);
    Product(u, y - x);
    assert (u - v) * y == u * (y - x);
    DivisionFalls(x, y);
    assert u != v;
  }

  lemma Product(a: real, b: real)
    requires a > 0.0 && b > 0.0
    ensures a * b > 0.0
  {
  }

  lemma Half(y: real)
    requires y > 0.0
    ensures 1.0 / (2.0 * y) + 1.0 / (2.0 * y) == 1.0 / y
  {
    var v := 1.0 / (2.0 * y);
    assert v * (2.0 * y) == 1.0;
    assert (v + v) * y == 1.0;
    assert (1.0 / y) * y == 1.0;
  }

  /** Twice the weight of rank k + 1 is above the weight of rank 1. */
  lemma TwoBeatOne(k: nat)
    ensures Weight(k, k + 1) + Weight(k, k + 1) > Weight(k, 1)
  {
    var x := k as real + 0.5;
    assert (k + (k + 1)) as real == 2.0 * x;
    Half(x);
    DivisionFallsStrictly(x, (k + 1) as real);
  }

  function InList(votes: seq<Vote>, chunk: int): nat {
    if Named(votes, chunk) then 1 else 0
  }

  function ListsNaming(a: seq<Vote>, b: seq<Vote>, c: seq<Vote>, chunk: int): nat {
    InList(a, chunk) + InList(b, chunk) + InList(c, chunk)
  }

  lemma NamedSplit(a: seq<Vote>, b: seq<Vote>, chunk: int)
    ensures Named(a + b, chunk) <==> Named(a, chunk) || Named(b, chunk)
  {
    if i :| 0 <= i < |a| && a[i].chunk == chunk { assert (a + b)[i].chunk == chunk; }
    if j :| 0 <= j < |b| && b[j].chunk == chunk { assert (a + b)[|a| + j].chunk == chunk; }
  }

  lemma ScoreOfThree(k: nat, a: seq<Vote>, b: seq<Vote>, c: seq<Vote>, chunk: int)
    requires RankList(a, k + 1) && RankList(b, k + 1) && RankList(c, k + 1)
    ensures ListsNaming(a, b, c, chunk) >= 2 ==> Score(k, a + b + c, chunk) >= Weight(k, k + 1) + Weight(k, k + 1)
    ensures ListsNaming(a, b, c, chunk) == 1 ==> Score(k, a + b + c, chunk) <= Weight(k, 1)
  {
    ScoreSplit(k, a + b, c, chunk);
    ScoreSplit(k, a, b, chunk);
    ScoreInList(k, a, k + 1, chunk);
    ScoreInList(k, b, k + 1, chunk);
    ScoreInList(k, c, k + 1, chunk);
    WeightFalls(k, k + 1, k + 1);
  }

  /** With ranks up to k + 1, a chunk in two or three lists precedes every chunk in one list. */
  lemma TwoListsFirst(k: nat, a: seq<Vote>, b: seq<Vote>, c: seq<Vote>, two: int, one: int)
    requires RankList(a, k + 1) && RankList(b, k + 1) && RankList(c, k + 1)
    requires ListsNaming(a, b, c, two) >= 2 && ListsNaming(a, b, c, one) == 1
    ensures Seqs.Before(FuseVotes(k, a + b + c), ResultOf(k, a + b + c, two), ResultOf(k, a + b + c, one))
  {
    ScoreOfThree(k, a, b, c, two);
    ScoreOfThree(k, a, b, c, one);
    TwoBeatOne(k);
    NamedSplit(a, b, two);
    NamedSplit(a, b, one);
    NamedSplit(a + b, c, two);
    NamedSplit(a + b, c, one);
    HigherScoreFirst(k, a + b + c, two, one);
  }

  /** Ranks are the positions of the hits. */
  predicate Positions(ranks: seq<int>) {
    forall i :: 0 <= i < |ranks| ==> ranks[i] == i + 1
  }

  function VectorRanks(hits: seq<VectorHit>): seq<int> {
    seq(|hits|, (i: int) requires 0 <= i < |hits| => hits[i].rank)
  }

  function TitleRanks(hits: seq<TitleHit>): seq<int> {
    seq(|hits|, (i: int) requires 0 <= i < |hits| => hits[i].rank)
  }

  /** Points without a chunk at the ranks from 2 to `n` + 1. */
  function DroppedPoints(n: nat): seq<VectorHit> {
    seq(n, (i: int) requires 0 <= i < n => VectorHit(None, 0, i + 2))
  }

  /** Titles of a note without chunks at the ranks from 1 to `n`. */
  function DroppedTitles(n: nat, note: int): seq<TitleHit> {
    seq(n, (i: int) requires 0 <= i < n => TitleHit(note, i + 1))
  }

  lemma {:induction false} PointsDrop(head: seq<VectorHit>, n: nat)
    ensures VectorVotes(head + DroppedPoints(n)) == VectorVotes(head)
  {
    if n == 0 {
      assert head + DroppedPoints(0) == head;
    } else {
      var hits := head + DroppedPoints(n);
      assert hits[..|hits| - 1] == head + DroppedPoints(n - 1);
      PointsDrop(head, n - 1);
    }
  }

  lemma {:induction false} TitlesDrop(first: int -> Option<int>, n: nat, note: int)
    requires first(note).None?
    ensures TitleVotes(first, DroppedTitles(n, note)) == []
  {
    if n > 0 {
      assert DroppedTitles(n, note)[..n - 1] == DroppedTitles(n - 1, note);
      TitlesDrop(first, n - 1, note);
    }
  }

  lemma TightVector(k: nat, one: int, two: int, noteOne: int, noteTwo: int) returns (vector: seq<VectorHit>)
    ensures |vector| == k + 2 && Positions(VectorRanks(vector))
    ensures VectorVotes(vector) == [Vote(one, noteOne, 1), Vote(two, noteTwo, k + 2)]
  {
    var head, last := [VectorHit(Some(one), noteOne, 1)], VectorHit(Some(two), noteTwo, k + 2);
    vector := head + DroppedPoints(k) + [last];
    assert vector[..|vector| - 1] == head + DroppedPoints(k);
    PointsDrop(head, k);
    assert head[..0] == [] && VectorVotes(head) == [Vote(one, noteOne, 1)];
  }

  lemma TightTitle(k: nat, first: int -> Option<int>, two: int, blank: int, noteTwo: int) returns (title: seq<TitleHit>)
    requires first(blank).None? && first(noteTwo) == Some(two)
    ensures |title| == k + 2 && Positions(TitleRanks(title))
    ensures TitleVotes(first, title) == [Vote(two, noteTwo, k + 2)]
  {
    title := DroppedTitles(k + 1, blank) + [TitleHit(noteTwo, k + 2)];
    assert title[..|title| - 1] == DroppedTitles(k + 1, blank);
    TitlesDrop(first, k + 1, blank);
  }

  /**
    With lists of k + 2 hits the rule fails: a chunk in one list ties with one in two, and was named first.
    Between them stand points without a chunk id and titles of a note without chunks.
   */
  lemma BoundIsTight(k: nat, first: int -> Option<int>, one: int, two: int, noteOne: int, noteTwo: int, blank: int)
    returns (vector: seq<VectorHit>, title: seq<TitleHit>)
    requires one != two && first(blank).None? && first(noteTwo) == Some(two)
    ensures |vector| == |title| == k + 2 && Positions(VectorRanks(vector)) && Positions(TitleRanks(title))
    ensures var a, c := VectorVotes(vector), TitleVotes(first, title);
      && RankList(a, k + 2) && RankList(c, k + 2)
      && ListsNaming(a, KeywordVotes([]), c, two) == 2 && ListsNaming(a, KeywordVotes([]), c, one) == 1
    ensures var votes := Votes(first, vector, [], title);
      Seqs.Before(FuseVotes(k, votes), ResultOf(k, votes, one), ResultOf(k, votes, two))
  {
    vector := TightVector(k, one, two, noteOne, noteTwo);
    title := TightTitle(k, first, two, blank, noteTwo);
    TightLists(k, one, two, noteOne, noteTwo);
    var votes := Votes(first, vector, [], title);
    assert votes == [Vote(one, noteOne, 1), Vote(two, noteTwo, k + 2), Vote(two, noteTwo, k + 2)];
    TightRanking(k, one, two, noteOne, noteTwo, votes);
  }

  lemma TightLists(k: nat, one: int, two: int, noteOne: int, noteTwo: int)
    requires one != two
    ensures var a, c := [Vote(one, noteOne, 1), Vote(two, noteTwo, k + 2)], [Vote(two, noteTwo, k + 2)];
      && RankList(a, k + 2) && RankList(c, k + 2)
      && ListsNaming(a, [], c, two) == 2 && ListsNaming(a, [], c, one) == 1
  {
    var a, c := [Vote(one, noteOne, 1), Vote(two, noteTwo, k + 2)], [Vote(two, noteTwo, k + 2)];
    assert a[0].chunk == one && a[1].chunk == two && c[0].chunk == two;
  }

  lemma TightRanking(k: nat, one: int, two: int, noteOne: int, noteTwo: int, votes: seq<Vote>)
    requires one != two && votes == [Vote(one, noteOne, 1), Vote(two, noteTwo, k + 2), Vote(two, noteTwo, k + 2)]
    ensures Seqs.Before(FuseVotes(k, votes), ResultOf(k, votes, one), ResultOf(k, votes, two))
  {
    TiedScores(k, one, two, noteOne, noteTwo, votes);
    FirstVotes(one, two, votes);
    TiesByFirstVote(k, votes, one, two);
  }

  lemma TiedScores(k: nat, one: int, two: int, noteOne: int, noteTwo: int, votes: seq<Vote>)
    requires one != two && votes == [Vote(one, noteOne, 1), Vote(two, noteTwo, k + 2), Vote(two, noteTwo, k + 2)]
    ensures Score(k, votes, one) == Score(k, votes, two)
  {
    var x, y := [Vote(one, noteOne, 1)], [Vote(two, noteTwo, k + 2)];
    assert votes == x + y + y;
    assert x[..0] == [] && y[..0] == [];
    forall c ensures Score(k, votes, c) == Gain(k, x[0], c) + Gain(k, y[0], c) + Gain(k, y[0], c) {
      ScoreSplit(k, x + y, y, c);
      ScoreSplit(k, x, y, c);
      assert Score(k, [], c) == 0.0;
    }
    assert (k + (k + 2)) as real == 2.0 * (k + 1) as real;
    Half((k + 1) as real);
  }

  lemma FirstVotes(one: int, two: int, votes: seq<Vote>)
    requires one != two && |votes| == 3 && votes[0].chunk == one && votes[1].chunk == votes[2].chunk == two
    ensures Seqs.Before(Chunks(votes), one, two)
  {
    ChunksNext([], votes[0]);
    ChunksNext([votes[0]], votes[1]);
    ChunksNext([votes[0], votes[1]], votes[2]);
    assert [] + [votes[0]] == [votes[0]] && [votes[0]] + [votes[1]] == [votes[0], votes[1]];
    assert votes == [votes[0], votes[1]] + [votes[2]];
    assert Chunks(votes)[0] == one && Chunks(votes)[1] == two;
  }

  lemma ChunksNext(votes: seq<Vote>, v: Vote)
    ensures Chunks(votes + [v]) == if v.chunk in Chunks(votes) then Chunks(votes) else Chunks(votes) + [v.chunk]
  {
    assert (votes + [v])[..|votes|] == votes;
  }
}
