/** The fused results, told by the hits of the three lists themselves. */
module FusionHits {
  import opened Wrappers
  import opened Fusion
  import opened FusionBound
  import Seqs

  /** One hit of any list: the chunk that it stands for, if there is one. */
  datatype Hit = Hit(chunk: Option<int>, note: int, rank: Rank)

  function OfVector(hits: seq<VectorHit>): (r: seq<Hit>)
    ensures |r| == |hits| && forall i :: 0 <= i < |r| ==> r[i] == Hit(hits[i].chunk, hits[i].note, hits[i].rank)
  {
    seq(|hits|, (i: int) requires 0 <= i < |hits| => Hit(hits[i].chunk, hits[i].note, hits[i].rank))
  }

  function OfKeyword(hits: seq<KeywordHit>): (r: seq<Hit>)
    ensures |r| == |hits| && forall i :: 0 <= i < |r| ==> r[i] == Hit(Some(hits[i].chunk), hits[i].note, hits[i].rank)
  {
    seq(|hits|, (i: int) requires 0 <= i < |hits| => Hit(Some(hits[i].chunk), hits[i].note, hits[i].rank))
  }

  function OfTitle(first: int -> Option<int>, hits: seq<TitleHit>): (r: seq<Hit>)
    ensures |r| == |hits| && forall i :: 0 <= i < |r| ==> r[i] == Hit(first(hits[i].note), hits[i].note, hits[i].rank)
  {
    seq(|hits|, (i: int) requires 0 <= i < |hits| => Hit(first(hits[i].note), hits[i].note, hits[i].rank))
  }

  /** All hits in the order in which they are taken. */
  function AllHits(first: int -> Option<int>, vector: seq<VectorHit>, keyword: seq<KeywordHit>, title: seq<TitleHit>)
    : seq<Hit>
  {
    OfVector(vector) + OfKeyword(keyword) + OfTitle(first, title)
  }

  /** The reciprocal ranks of all hits for a chunk, summed. */
  function Total(k: nat, hits: seq<Hit>, chunk: int): real {
    if hits == [] then 0.0
    else (if hits[0].chunk == Some(chunk) then 1.0 / (k + hits[0].rank) as real else 0.0) + Total(k, hits[1..], chunk)
  }

  /** Hit number `i` is the last one for the chunk. */
  predicate LastFor(hits: seq<Hit>, chunk: int, i: nat) {
    i < |hits| && hits[i].chunk == Some(chunk) && forall j :: i < j < |hits| ==> hits[j].chunk != Some(chunk)
  }

  predicate HasHit(hits: seq<Hit>, chunk: int) {
    exists i :: 0 <= i < |hits| && hits[i].chunk == Some(chunk)
  }

  // ----- votes are the hits with a chunk -----

  function VotesOf(hits: seq<Hit>): seq<Vote> {
    if hits == [] then []
    else
      var h := hits[|hits| - 1];
      VotesOf(hits[..|hits| - 1]) + if h.chunk.None? then [] else [Vote(h.chunk.value, h.note, h.rank)]
  }

  lemma {:induction false} VotesConcat(a: seq<Hit>, b: seq<Hit>)
    ensures VotesOf(a + b) == VotesOf(a) + VotesOf(b)
  {
    if b == [] {
      assert a + b == a;
    } else {
      var n := |b| - 1;
      assert (a + b)[..|a| + n] == a + b[..n];
      VotesConcat(a, b[..n]);
    }
  }

  lemma {:induction false} VectorIs(hits: seq<VectorHit>)
    ensures VectorVotes(hits) == VotesOf(OfVector(hits))
  {
    if hits != [] {
      var init := hits[..|hits| - 1];
      VectorIs(init);
      assert OfVector(hits)[..|init|] == OfVector(init);
    }
  }

  lemma {:induction false} KeywordIs(hits: seq<KeywordHit>)
    ensures KeywordVotes(hits) == VotesOf(OfKeyword(hits))
  {
    if hits != [] {
      var init := hits[..|hits| - 1];
      KeywordIs(init);
      assert OfKeyword(hits)[..|init|] == OfKeyword(init);
    }
  }

  lemma {:induction false} TitleIs(first: int -> Option<int>, hits: seq<TitleHit>)
    ensures TitleVotes(first, hits) == VotesOf(OfTitle(first, hits))
  {
    if hits != [] {
      var init := hits[..|hits| - 1];
      TitleIs(first, init);
      assert OfTitle(first, hits)[..|init|] == OfTitle(first, init);
    }
  }

  lemma VotesAreHits(first: int -> Option<int>, vector: seq<VectorHit>, keyword: seq<KeywordHit>, title: seq<TitleHit>)
    ensures Votes(first, vector, keyword, title) == VotesOf(AllHits(first, vector, keyword, title))
  {
    VectorIs(vector);
    KeywordIs(keyword);
    TitleIs(first, title);
    VotesConcat(OfVector(vector) + OfKeyword(keyword), OfTitle(first, title));
    VotesConcat(OfVector(vector), OfKeyword(keyword));
  }

  lemma {:induction false} TotalLast(k: nat, hits: seq<Hit>, h: Hit, chunk: int)
    ensures Total(k, hits + [h], chunk) ==
            Total(k, hits, chunk) + if h.chunk == Some(chunk) then 1.0 / (k + h.rank) as real else 0.0
  {
    if hits == [] {
      assert [h][1..] == [];
      assert hits + [h] == [h];
    } else {
      assert (hits + [h])[1..] == hits[1..] + [h];
      TotalLast(k, hits[1..], h, chunk);
    }
  }

  lemma NamedLast(votes: seq<Vote>, v: Vote, chunk: int)
    ensures NoteOf(votes + [v], chunk) == if v.chunk == chunk then v.note else NoteOf(votes, chunk)
  {
    assert (votes + [v])[..|votes|] == votes;
  }

  lemma ScoreLast(k: nat, votes: seq<Vote>, v: Vote, chunk: int)
    ensures Score(k, votes + [v], chunk) == Score(k, votes, chunk) + if v.chunk == chunk then Weight(k, v.rank) else 0.0
  {
    assert (votes + [v])[..|votes|] == votes;
  }

  lemma {:induction false} ScoreIsTotal(k: nat, hits: seq<Hit>, chunk: int)
    ensures Score(k, VotesOf(hits), chunk) == Total(k, hits, chunk)
  {
    if hits != [] {
      var init, h := hits[..|hits| - 1], hits[|hits| - 1];
      assert hits == init + [h];
      ScoreIsTotal(k, init, chunk);
      TotalLast(k, init, h, chunk);
      if h.chunk.Some? {
        ScoreLast(k, VotesOf(init), Vote(h.chunk.value, h.note, h.rank), chunk);
      } else {
        assert VotesOf(init) + [] == VotesOf(init);
      }
    }
  }

  lemma {:induction false} NoteIsLast(hits: seq<Hit>, chunk: int)
    ensures Named(VotesOf(hits), chunk) <==> HasHit(hits, chunk)
    ensures HasHit(hits, chunk) ==>
              exists i: nat :: LastFor(hits, chunk, i) && NoteOf(VotesOf(hits), chunk) == hits[i].note
  {
    if hits != [] {
      var init, h := hits[..|hits| - 1], hits[|hits| - 1];
      assert hits == init + [h];
      NoteIsLast(init, chunk);
      if h.chunk.Some? {
        var v := Vote(h.chunk.value, h.note, h.rank);
        NamedNext(VotesOf(init), v, chunk);
        NamedLast(VotesOf(init), v, chunk);
      } else {
        assert VotesOf(init) + [] == VotesOf(init);
      }
      HasHitLast(init, h, chunk);
      if h.chunk == Some(chunk) {
        assert LastFor(hits, chunk, |init|);
      } else if HasHit(init, chunk) {
        var i: nat :| LastFor(init, chunk, i) && NoteOf(VotesOf(init), chunk) == init[i].note;
        assert LastFor(hits, chunk, i);
      }
    }
  }

  lemma HasHitLast(hits: seq<Hit>, h: Hit, chunk: int)
    ensures HasHit(hits + [h], chunk) <==> HasHit(hits, chunk) || h.chunk == Some(chunk)
  {
    var more := hits + [h];
    assert more[|hits|] == h;
    if i :| 0 <= i < |hits| && hits[i].chunk == Some(chunk) { assert more[i].chunk == Some(chunk); }
  }

  /** A result for the chunk: its score is the sum over its hits, its note that of the last one. */
  ghost predicate ResultTold(k: nat, hits: seq<Hit>, r: Fused) {
    r.score == Total(k, hits, r.chunk) && exists i: nat :: LastFor(hits, r.chunk, i) && r.note == hits[i].note
  }

  lemma ResultIsTold(k: nat, hits: seq<Hit>, r: Fused)
    requires r in FuseVotes(k, VotesOf(hits))
    ensures HasHit(hits, r.chunk) && ResultTold(k, hits, r)
  {
    var votes := VotesOf(hits);
    FusedRanking(k, votes);
    Seqs.SameMembers(FuseVotes(k, votes), Results(k, votes, Chunks(votes)));
    var i := Seqs.Place(r, Results(k, votes, Chunks(votes)));
    assert Chunks(votes)[i] == r.chunk && r.chunk in Chunks(votes);
    ScoreIsTotal(k, hits, r.chunk);
    NoteIsLast(hits, r.chunk);
  }

  /** Every chunk that some hit stands for has a result and no other has; each tells the sum over its hits. */
  lemma FusedTells(k: nat, first: int -> Option<int>, vector: seq<VectorHit>, keyword: seq<KeywordHit>,
                   title: seq<TitleHit>, chunk: int)
    ensures var fused := FuseVotes(k, Votes(first, vector, keyword, title));
      var hits := AllHits(first, vector, keyword, title);
      && (HasHit(hits, chunk) <==> exists i :: 0 <= i < |fused| && fused[i].chunk == chunk)
      && (forall r :: r in fused ==> ResultTold(k, hits, r))
  {
    var votes, hits := Votes(first, vector, keyword, title), AllHits(first, vector, keyword, title);
    var fused := FuseVotes(k, votes);
    VotesAreHits(first, vector, keyword, title);
    forall r | r in fused ensures HasHit(hits, r.chunk) && ResultTold(k, hits, r) { ResultIsTold(k, hits, r); }
    NoteIsLast(hits, chunk);
    FusedRanking(k, votes);
    if HasHit(hits, chunk) {
      var i := Seqs.Place(ResultOf(k, votes, chunk), fused);
      assert fused[i].chunk == chunk;
    }
    if i :| 0 <= i < |fused| && fused[i].chunk == chunk { assert fused[i] in fused; }
  }
}
