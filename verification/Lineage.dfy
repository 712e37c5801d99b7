/** The supersession graph that `get_lineage` reads off the provenance rows. */
module Lineage {
  import opened Wrappers
  import opened Knowledge

  /** Every merge's absorbed note is done: it is absorbed once and never acts in a later merge. */
  ghost predicate Forest(log: seq<Activity>) {
    && (forall k :: 0 <= k < |log| && log[k].supersedes.Some? ==> log[k].supersedes != Some(log[k].noteId))
    && (forall j, k :: 0 <= j < k < |log| && log[j].supersedes.Some? && log[k].supersedes.Some? ==>
          log[j].supersedes != log[k].supersedes && log[j].supersedes != Some(log[k].noteId))
  }

  /** The notes that some activity of `n` supersedes. */
  function Ancestors(log: seq<Activity>, n: nat): seq<nat> {
    if log == [] then []
    else
      var a := log[|log| - 1];
      Ancestors(log[..|log| - 1], n) + if a.noteId == n && a.supersedes.Some? then [a.supersedes.value] else []
  }

  /** The notes whose activity supersedes `n`. */
  function Descendants(log: seq<Activity>, n: nat): seq<nat> {
    if log == [] then []
    else
      var a := log[|log| - 1];
      Descendants(log[..|log| - 1], n) + if a.supersedes == Some(n) then [a.noteId] else []
  }

  /** The source notes of the derivation rows that belong to an activity of `n`. */
  function Sources(log: seq<Activity>, derivations: seq<Derivation>, n: nat): seq<nat> {
    if derivations == [] then []
    else
      var d := derivations[|derivations| - 1];
      Sources(log, derivations[..|derivations| - 1], n) +
      if d.provenanceId < |log| && log[d.provenanceId].noteId == n then [d.sourceNoteId] else []
  }

  /** Everything that get_lineage answers as an ancestor. */
  function AllAncestors(log: seq<Activity>, derivations: seq<Derivation>, n: nat): seq<nat> {
    Ancestors(log, n) + Sources(log, derivations, n)
  }

  method GetLineage(log: seq<Activity>, derivations: seq<Derivation>, n: nat)
    returns (ancestors: seq<nat>, descendants: seq<nat>)
    ensures ancestors == AllAncestors(log, derivations, n) && descendants == Descendants(log, n)
  {
    ancestors, descendants := [], [];
    for k := 0 to |log|
      invariant ancestors == Ancestors(log[..k], n) && descendants == Descendants(log[..k], n)
    {
      assert log[..k + 1][..k] == log[..k];
      if log[k].noteId == n && log[k].supersedes.Some? { ancestors := ancestors + [log[k].supersedes.value]; }
      if log[k].supersedes == Some(n) { descendants := descendants + [log[k].noteId]; }
    }
    assert log[..|log|] == log;
    for k := 0 to |derivations|
      invariant ancestors == Ancestors(log, n) + Sources(log, derivations[..k], n)
    {
      assert derivations[..k + 1][..k] == derivations[..k];
      var d := derivations[k];
      if d.provenanceId < |log| && log[d.provenanceId].noteId == n { ancestors := ancestors + [d.sourceNoteId]; }
    }
    assert derivations[..|derivations|] == derivations;
  }

  ghost predicate Absorbs(log: seq<Activity>, k: int, keep: nat, n: nat) {
    0 <= k < |log| && log[k].noteId == keep && log[k].supersedes == Some(n)
  }

  lemma {:induction false} DescendantsWitness(log: seq<Activity>, n: nat, c: nat)
    ensures c in Descendants(log, n) <==> exists k :: Absorbs(log, k, c, n)
    ensures n in Ancestors(log, c) <==> exists k :: Absorbs(log, k, c, n)
  {
    if log != [] {
      var init, last := log[..|log| - 1], |log| - 1;
      DescendantsWitness(init, n, c);
      if k :| Absorbs(init, k, c, n) { assert Absorbs(log, k, c, n); }
      if k :| Absorbs(log, k, c, n) { assert k == last || Absorbs(init, k, c, n); }
      if log[last].noteId == c && log[last].supersedes == Some(n) { assert Absorbs(log, last, c, n); }
    }
  }

  /** Some activity of `n` supersedes `a`. */
  ghost predicate SupersessionEdge(log: seq<Activity>, n: nat, a: nat) {
    exists k :: Absorbs(log, k, n, a)
  }

  ghost predicate SourceAt(log: seq<Activity>, derivations: seq<Derivation>, k: int, n: nat, a: nat) {
    && 0 <= k < |derivations| && derivations[k].sourceNoteId == a
    && derivations[k].provenanceId < |log| && log[derivations[k].provenanceId].noteId == n
  }

  /** Some activity of `n` has `a` as a source. */
  ghost predicate DerivationEdge(log: seq<Activity>, derivations: seq<Derivation>, n: nat, a: nat) {
    exists k :: SourceAt(log, derivations, k, n, a)
  }

  lemma {:induction false} SourcesWitness(log: seq<Activity>, derivations: seq<Derivation>, n: nat, a: nat)
    ensures a in Sources(log, derivations, n) <==> DerivationEdge(log, derivations, n, a)
  {
    if derivations != [] {
      var init, last := derivations[..|derivations| - 1], |derivations| - 1;
      SourcesWitness(log, init, n, a);
      if k :| SourceAt(log, init, k, n, a) { assert SourceAt(log, derivations, k, n, a); }
      if k :| SourceAt(log, derivations, k, n, a) { assert k == last || SourceAt(log, init, k, n, a); }
      assert a in Sources(log, derivations, n) <==>
             a in Sources(log, init, n) || SourceAt(log, derivations, last, n, a);
    }
  }

  /** A pair is an ancestor and a descendant of each other exactly if no derivation alone links the two. */
  lemma LineageConverseIff(log: seq<Activity>, derivations: seq<Derivation>, a: nat, n: nat)
    ensures (a in AllAncestors(log, derivations, n) <==> n in Descendants(log, a)) <==>
            (DerivationEdge(log, derivations, n, a) ==> SupersessionEdge(log, n, a))
    ensures n in Descendants(log, a) <==> SupersessionEdge(log, n, a)
  {
    DescendantsWitness(log, a, n);
    SourcesWitness(log, derivations, n, a);
  }

  /** A derivation gives an ancestor that has no descendant. */
  lemma DerivationIsOneWay(n: nat, a: nat)
    ensures var log, derivations := [Activity(n, Merge, None)], [Derivation(0, a)];
      a in AllAncestors(log, derivations, n) && Descendants(log, a) == []
  {
    var log, derivations := [Activity(n, Merge, None)], [Derivation(0, a)];
    assert SourceAt(log, derivations, 0, n, a);
    SourcesWitness(log, derivations, n, a);
    assert log[..0] == [];
  }

  /** A note turned into at most one other note, and never into itself. */
  lemma {:induction false} AtMostOneDescendant(log: seq<Activity>, n: nat)
    requires Forest(log)
    ensures |Descendants(log, n)| <= 1
    ensures n !in Descendants(log, n)
  {
    if log != [] {
      var init, last := log[..|log| - 1], log[|log| - 1];
      AtMostOneDescendant(init, n);
      if last.supersedes == Some(n) && Descendants(init, n) != [] {
        DescendantsWitness(init, n, Descendants(init, n)[0]);
        assert false;
      }
    }
  }

  /** `b` is what `a` became after `steps` merges. */
  ghost predicate Became(log: seq<Activity>, a: nat, b: nat, steps: nat)
    decreases steps
  {
    if steps == 0 then a == b
    else exists c :: c in Descendants(log, a) && Became(log, c, b, steps - 1)
  }

  /** The merge that absorbed a keeper comes after the merges in which it absorbed. */
  lemma EdgeLater(log: seq<Activity>, k: int, c: nat, a: nat, m: int)
    requires Forest(log) && Absorbs(log, k, c, a) && 0 <= m < |log| && log[m].supersedes == Some(c)
    ensures k < m
  {
    assert m != k;
  }

  /** A note is absorbed by one merge. */
  lemma OneMerge(log: seq<Activity>, k: int, a: nat, c: nat)
    requires Forest(log) && 0 <= k < |log| && log[k].supersedes == Some(a) && c in Descendants(log, a)
    ensures Absorbs(log, k, c, a)
  {
    DescendantsWitness(log, a, c);
    var j :| Absorbs(log, j, c, a);
    assert j == k;
  }

  /** Along the supersession edges the merges get later. */
  lemma {:induction false} BecameLater(log: seq<Activity>, a: nat, b: nat, steps: nat, k: int, m: int, keep: nat)
    requires Forest(log) && steps > 0 && Became(log, a, b, steps)
    requires 0 <= k < |log| && log[k].supersedes == Some(a)
    requires Absorbs(log, m, keep, b)
    ensures k < m
    decreases steps
  {
    var c :| c in Descendants(log, a) && Became(log, c, b, steps - 1);
    OneMerge(log, k, a, c);
    if steps == 1 {
      EdgeLater(log, k, c, a, m);
    } else {
      var d :| d in Descendants(log, c) && Became(log, d, b, steps - 2);
      DescendantsWitness(log, c, d);
      var j :| Absorbs(log, j, d, c);
      EdgeLater(log, k, c, a, j);
      BecameLater(log, c, b, steps - 1, j, m, keep);
    }
  }

  /** The supersession graph has no cycle. */
  lemma Acyclic(log: seq<Activity>, n: nat, steps: nat)
    requires Forest(log) && steps > 0
    ensures !Became(log, n, n, steps)
  {
    if Became(log, n, n, steps) {
      var c :| c in Descendants(log, n) && Became(log, c, n, steps - 1);
      DescendantsWitness(log, n, c);
      var k :| Absorbs(log, k, c, n);
      BecameLater(log, n, n, steps, k, k, c);
    }
  }

  /** The note that `n` has ended up in, following the merges from row `from` on. */
  function Root(log: seq<Activity>, n: nat, from: nat): nat
    requires from <= |log|
    decreases |log| - from
  {
    if from == |log| then n
    else Root(log, if log[from].supersedes == Some(n) then log[from].noteId else n, from + 1)
  }

  /** The next row moves a root on exactly if it absorbs it. */
  lemma {:induction false} RootAppend(log: seq<Activity>, a: Activity, n: nat, from: nat)
    requires from <= |log|
    ensures var r := Root(log, n, from);
      Root(log + [a], n, from) == if a.supersedes == Some(r) then a.noteId else r
    decreases |log| - from
  {
    var logNext := log + [a];
    if from == |log| {
      assert logNext[from] == a;
      assert Root(logNext, n, from) == Root(logNext, if a.supersedes == Some(n) then a.noteId else n, from + 1);
    } else {
      assert logNext[from] == log[from];
      RootAppend(log, a, if log[from].supersedes == Some(n) then log[from].noteId else n, from + 1);
    }
  }

  /** The root of a note is reached by its merges and has not been absorbed itself. */
  lemma {:induction false} RootIsLive(log: seq<Activity>, n: nat)
    requires Forest(log)
    ensures Descendants(log, Root(log, n, 0)) == []
    ensures exists steps :: Became(log, n, Root(log, n, 0), steps)
  {
    if log == [] {
      assert Became(log, n, n, 0);
    } else {
      var init, a := log[..|log| - 1], log[|log| - 1];
      assert log == init + [a];
      RootIsLive(init, n);
      RootAppend(init, a, n, 0);
      var r := Root(init, n, 0);
      var steps :| Became(init, n, r, steps);
      BecameGrows(init, a, n, r, steps);
      if a.supersedes == Some(r) {
        BecameOneMore(log, n, r, a.noteId, steps);
        NotAbsorbedBefore(log, a.noteId);
      }
    }
  }

  lemma {:induction false} BecameGrows(log: seq<Activity>, a: Activity, x: nat, y: nat, steps: nat)
    requires Became(log, x, y, steps)
    ensures Became(log + [a], x, y, steps)
    decreases steps
  {
    if steps > 0 {
      var c :| c in Descendants(log, x) && Became(log, c, y, steps - 1);
      BecameGrows(log, a, c, y, steps - 1);
      assert (log + [a])[..|log|] == log;
      assert c in Descendants(log + [a], x);
    }
  }

  lemma {:induction false} BecameOneMore(log: seq<Activity>, x: nat, y: nat, z: nat, steps: nat)
    requires Became(log, x, y, steps) && z in Descendants(log, y)
    ensures Became(log, x, z, steps + 1)
    decreases steps
  {
    if steps == 0 {
      assert Became(log, z, z, 0);
    } else {
      var c :| c in Descendants(log, x) && Became(log, c, y, steps - 1);
      BecameOneMore(log, c, y, z, steps - 1);
    }
  }

  /** The keeper of the last merge has not been absorbed. */
  lemma NotAbsorbedBefore(log: seq<Activity>, keep: nat)
    requires Forest(log) && log != [] && log[|log| - 1].supersedes.Some? && log[|log| - 1].noteId == keep
    ensures Descendants(log, keep) == []
  {
    if Descendants(log, keep) != [] {
      var c := Descendants(log, keep)[0];
      DescendantsWitness(log, keep, c);
      var k :| Absorbs(log, k, c, keep);
    }
  }
}
