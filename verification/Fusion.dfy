/** Reciprocal rank fusion of the vector, chunk-keyword and note-title rank lists, over exact reals. */
module Fusion {
  import opened Wrappers
  import Seqs

  /** The 1-based position in a result list. */
  type Rank = r: int | r >= 1 witness 1

  datatype VectorHit = VectorHit(chunk: Option<int>, note: int, rank: Rank)

  datatype KeywordHit = KeywordHit(chunk: int, note: int, rank: Rank)

  datatype TitleHit = TitleHit(note: int, rank: Rank)

  /** What a hit that is not dropped contributes. */
  datatype Vote = Vote(chunk: int, note: int, rank: Rank)

  datatype Fused = Fused(chunk: int, note: int, score: real)

  /** A point without a chunk id is dropped. */
  function VectorVotes(hits: seq<VectorHit>): seq<Vote> {
    if hits == [] then []
    else
      var h := hits[|hits| - 1];
      VectorVotes(hits[..|hits| - 1]) + if h.chunk.None? then [] else [Vote(h.chunk.value, h.note, h.rank)]
  }

  function KeywordVotes(hits: seq<KeywordHit>): seq<Vote> {
    if hits == [] then []
    else
      var h := hits[|hits| - 1];
      KeywordVotes(hits[..|hits| - 1]) + [Vote(h.chunk, h.note, h.rank)]
  }

  /** A title hit stands for the first chunk of its note; a note without chunks is dropped. */
  function TitleVotes(first: int -> Option<int>, hits: seq<TitleHit>): seq<Vote> {
    if hits == [] then []
    else
      var h := hits[|hits| - 1];
      TitleVotes(first, hits[..|hits| - 1]) +
      if first(h.note).None? then [] else [Vote(first(h.note).value, h.note, h.rank)]
  }

  function Votes(first: int -> Option<int>, vector: seq<VectorHit>, keyword: seq<KeywordHit>, title: seq<TitleHit>)
    : seq<Vote>
  {
    VectorVotes(vector) + KeywordVotes(keyword) + TitleVotes(first, title)
  }

  // ----- what the loops compute -----

  function Weight(k: nat, rank: Rank): real {
    1.0 / (k + rank) as real
  }

  /** The sum of the reciprocal ranks of a chunk. */
  function Score(k: nat, votes: seq<Vote>, chunk: int): real
  {
    if votes == [] then 0.0
    else
      var v := votes[|votes| - 1];
      Score(k, votes[..|votes| - 1], chunk) + if v.chunk == chunk then Weight(k, v.rank) else 0.0
  }

  /** The chunks, in the order of their first votes. */
  function Chunks(votes: seq<Vote>): (r: seq<int>)
    ensures forall c :: c in r <==> Named(votes, c)
    ensures forall i, j :: 0 <= i < j < |r| ==> r[i] != r[j]
  {
    if votes == [] then []
    else
      var init, c := votes[..|votes| - 1], votes[|votes| - 1].chunk;
      assert forall i :: 0 <= i < |init| ==> init[i] == votes[i];
      assert forall d :: Named(votes, d) ==> Named(init, d) || d == c;
      if c in Chunks(init) then Chunks(init) else Chunks(init) + [c]
  }

  predicate Named(votes: seq<Vote>, chunk: int) {
    exists i :: 0 <= i < |votes| && votes[i].chunk == chunk
  }

  /** The note of the last vote for a chunk. */
  function NoteOf(votes: seq<Vote>, chunk: int): int {
    if votes == [] then 0
    else if votes[|votes| - 1].chunk == chunk then votes[|votes| - 1].note
    else NoteOf(votes[..|votes| - 1], chunk)
  }

  function Results(k: nat, votes: seq<Vote>, chunks: seq<int>): (r: seq<Fused>)
    ensures |r| == |chunks|
    ensures forall i :: 0 <= i < |r| ==> r[i] == Fused(chunks[i], NoteOf(votes, chunks[i]), Score(k, votes, chunks[i]))
  {
    seq(|chunks|, (i: int) requires 0 <= i < |chunks| =>
      Fused(chunks[i], NoteOf(votes, chunks[i]), Score(k, votes, chunks[i])))
  }

  function HigherFirst(): (Fused, Fused) -> bool {
    (a: Fused, b: Fused) => a.score >= b.score
  }

  function FuseVotes(k: nat, votes: seq<Vote>): seq<Fused>
  {
    Seqs.Sort(HigherFirst(), Results(k, votes, Chunks(votes)))
  }

  // ----- the dictionaries -----

  lemma {:induction false} NeverNamed(k: nat, votes: seq<Vote>, chunk: int)
    ensures !Named(votes, chunk) ==> Score(k, votes, chunk) == 0.0
  {
    if votes != [] && !Named(votes, chunk) {
      var init := votes[..|votes| - 1];
      forall i | 0 <= i < |init| ensures init[i].chunk != chunk { assert init[i] == votes[i]; }
      assert votes[|votes| - 1].chunk != chunk;
      NeverNamed(k, init, chunk);
    }
  }

  predicate ScoreIs(k: nat, votes: seq<Vote>, scores: map<int, real>, c: int) {
    if Named(votes, c) then c in scores && scores[c] == Score(k, votes, c) else c !in scores
  }

  predicate NoteIs(votes: seq<Vote>, notes: map<int, int>, c: int) {
    if Named(votes, c) then c in notes && notes[c] == NoteOf(votes, c) else c !in notes
  }

  /** The two dictionaries hold what the votes say. */
  ghost predicate Tallied(k: nat, votes: seq<Vote>, scores: map<int, real>, notes: map<int, int>) {
    forall c :: ScoreIs(k, votes, scores, c) && NoteIs(votes, notes, c)
  }

  function Get(scores: map<int, real>, c: int): real {
    if c in scores then scores[c] else 0.0
  }

  lemma NamedNext(votes: seq<Vote>, v: Vote, c: int)
    ensures Named(votes + [v], c) <==> Named(votes, c) || c == v.chunk
  {
    var more := votes + [v];
    if Named(votes, c) {
      var i :| 0 <= i < |votes| && votes[i].chunk == c;
      assert more[i].chunk == c;
    }
    assert more[|votes|] == v;
  }

  lemma TallyNext(k: nat, votes: seq<Vote>, v: Vote, scores: map<int, real>, notes: map<int, int>)
    requires Tallied(k, votes, scores, notes)
    ensures Tallied(k, votes + [v], scores[v.chunk := Get(scores, v.chunk) + Weight(k, v.rank)],
                    notes[v.chunk := v.note])
    ensures Chunks(votes + [v]) == Chunks(votes) + if v.chunk in notes then [] else [v.chunk]
  {
    var more, scoresNext, notesNext :=
      votes + [v], scores[v.chunk := Get(scores, v.chunk) + Weight(k, v.rank)], notes[v.chunk := v.note];
    assert more[..|votes|] == votes;
    assert ScoreIs(k, votes, scores, v.chunk) && NoteIs(votes, notes, v.chunk);
    NeverNamed(k, votes, v.chunk);
    forall c ensures ScoreIs(k, more, scoresNext, c) && NoteIs(more, notesNext, c) {
      NamedNext(votes, v, c);
      assert ScoreIs(k, votes, scores, c) && NoteIs(votes, notes, c);
    }
  }

  /** The two dictionaries of the fusion; `chunks` is the insertion order of their keys. */
  class Scoreboard {
    var chunks: seq<int>
    var scores: map<int, real>
    var notes: map<int, int>

    ghost predicate Tallies(k: nat, votes: seq<Vote>)
      reads this
    {
      chunks == Chunks(votes) && Tallied(k, votes, scores, notes)
    }

    constructor ()
      ensures forall k: nat :: Tallies(k, [])
    {
      chunks, scores, notes := [], map[], map[];
    }

    method Add(k: nat, v: Vote, ghost votes: seq<Vote>)
      requires Tallies(k, votes)
      modifies this
      ensures Tallies(k, votes + [v])
    {
      TallyNext(k, votes, v, scores, notes);
      scores := scores[v.chunk := Get(scores, v.chunk) + 1.0 / (k + v.rank) as real];
      if v.chunk !in notes {
        chunks := chunks + [v.chunk];
      }
      notes := notes[v.chunk := v.note];
    }
  }

  method AddVector(board: Scoreboard, k: nat, hits: seq<VectorHit>)
    requires board.Tallies(k, [])
    modifies board
    ensures board.Tallies(k, VectorVotes(hits))
  {
    var i := 0;
    while i < |hits|
      invariant 0 <= i <= |hits| && board.Tallies(k, VectorVotes(hits[..i]))
    {
      Seqs.TakeNext(hits, i);
      assert hits[..i + 1][..i] == hits[..i];
      if hits[i].chunk.Some? {
        board.Add(k, Vote(hits[i].chunk.value, hits[i].note, hits[i].rank), VectorVotes(hits[..i]));
      } else {
        assert VectorVotes(hits[..i]) + [] == VectorVotes(hits[..i]);
      }
      i := i + 1;
    }
    Seqs.TakeAll(hits);
  }

  method AddKeyword(board: Scoreboard, k: nat, hits: seq<KeywordHit>, ghost votes: seq<Vote>)
    requires board.Tallies(k, votes)
    modifies board
    ensures board.Tallies(k, votes + KeywordVotes(hits))
  {
    var i := 0;
    assert votes + [] == votes;
    while i < |hits|
      invariant 0 <= i <= |hits| && board.Tallies(k, votes + KeywordVotes(hits[..i]))
    {
      Seqs.TakeNext(hits, i);
      assert hits[..i + 1][..i] == hits[..i];
      var v := Vote(hits[i].chunk, hits[i].note, hits[i].rank);
      board.Add(k, v, votes + KeywordVotes(hits[..i]));
      Seqs.Regroup(votes, KeywordVotes(hits[..i]), [v]);
      i := i + 1;
    }
    Seqs.TakeAll(hits);
  }

  method AddTitle(board: Scoreboard, k: nat, first: int -> Option<int>, hits: seq<TitleHit>, ghost votes: seq<Vote>)
    requires board.Tallies(k, votes)
    modifies board
    ensures board.Tallies(k, votes + TitleVotes(first, hits))
  {
    var i := 0;
    assert votes + [] == votes;
    while i < |hits|
      invariant 0 <= i <= |hits| && board.Tallies(k, votes + TitleVotes(first, hits[..i]))
    {
      TitleNext(first, hits, i, votes);
      var chunk := first(hits[i].note);
      if chunk.Some? {
        board.Add(k, Vote(chunk.value, hits[i].note, hits[i].rank), votes + TitleVotes(first, hits[..i]));
      }
      i := i + 1;
    }
    Seqs.TakeAll(hits);
  }

  lemma TitleNext(first: int -> Option<int>, hits: seq<TitleHit>, i: nat, votes: seq<Vote>)
    requires i < |hits|
    ensures var h, before := hits[i], votes + TitleVotes(first, hits[..i]);
      votes + TitleVotes(first, hits[..i + 1])
        == if first(h.note).None? then before else before + [Vote(first(h.note).value, h.note, h.rank)]
  {
    assert hits[..i + 1][..i] == hits[..i];
    var before := TitleVotes(first, hits[..i]);
    assert before + [] == before;
    if first(hits[i].note).Some? {
      Seqs.Regroup(votes, before, [Vote(first(hits[i].note).value, hits[i].note, hits[i].rank)]);
    }
  }

  /** The comprehension over the items of the dictionary. */
  method Items(k: nat, board: Scoreboard, ghost votes: seq<Vote>) returns (fused: seq<Fused>)
    requires board.Tallies(k, votes)
    ensures fused == Results(k, votes, Chunks(votes))
  {
    var chunks := board.chunks;
    fused := [];
    var i := 0;
    while i < |chunks|
      invariant 0 <= i <= |chunks| && fused == Results(k, votes, chunks[..i])
    {
      var c := chunks[i];
      assert c in Chunks(votes);
      assert ScoreIs(k, votes, board.scores, c) && NoteIs(votes, board.notes, c);
      fused := fused + [Fused(c, board.notes[c], board.scores[c])];
      i := i + 1;
    }
    Seqs.TakeAll(chunks);
  }

  method Fuse(first: int -> Option<int>, vector: seq<VectorHit>, keyword: seq<KeywordHit>, title: seq<TitleHit>, k: nat)
    returns (fused: seq<Fused>)
    ensures fused == FuseVotes(k, Votes(first, vector, keyword, title))
  {
    var board := new Scoreboard();
    AddVector(board, k, vector);
    AddKeyword(board, k, keyword, VectorVotes(vector));
    AddTitle(board, k, first, title, VectorVotes(vector) + KeywordVotes(keyword));
    fused := Items(k, board, Votes(first, vector, keyword, title));
    fused := Seqs.Sort(HigherFirst(), fused);
  }
}
