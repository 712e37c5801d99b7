/** Words that come apart at whitespace, and which rows the keyword search answers. */
module SearchRows {
  import opened Wrappers
  import opened Text
  import opened Fusion
  import opened KeywordSearch
  import Seqs

  // ----- words -----

  /** The words with whitespace after each of them, where any but the last must have some. */
  function Spaced(words: seq<string>, gaps: seq<string>): string
    requires |gaps| == |words|
  {
    if words == [] then "" else words[0] + gaps[0] + Spaced(words[1..], gaps[1..])
  }

  lemma {:induction false} WordsAfterSpaces(spaces: string, s: string)
    requires AllSpace(spaces)
    ensures Words(spaces + s) == Words(s)
  {
    if spaces == "" {
      assert spaces + s == s;
    } else {
      assert (spaces + s)[1..] == spaces[1..] + s;
      WordsAfterSpaces(spaces[1..], s);
    }
  }

  lemma {:induction false} RunOfWord(word: string, s: string)
    requires (forall i :: 0 <= i < |word| ==> !IsSpace(word[i])) && (s == "" || IsSpace(s[0]))
    ensures FirstRun(word + s) == word
  {
    if word == "" {
      assert word + s == s;
    } else {
      assert (word + s)[1..] == word[1..] + s;
      RunOfWord(word[1..], s);
      assert [word[0]] + word[1..] == word;
    }
  }

  /** Words that whitespace separates come apart again, as they were. */
  lemma {:induction false} WordsOfSpaced(lead: string, words: seq<string>, gaps: seq<string>)
    requires |gaps| == |words| && AllSpace(lead) && forall i :: 0 <= i < |words| ==> Word(words[i]) && AllSpace(gaps[i])
    requires forall i :: 0 <= i < |words| - 1 ==> gaps[i] != ""
    ensures Words(lead + Spaced(words, gaps)) == words
    decreases |words|
  {
    WordsAfterSpaces(lead, Spaced(words, gaps));
    if words != [] {
      var word, gap, rest := words[0], gaps[0], Spaced(words[1..], gaps[1..]);
      Seqs.Regroup(word, gap, rest);
      WordsOfSpaced(gap, words[1..], gaps[1..]);
      if gap == "" { assert gap + rest == ""; }
      RunOfWord(word, gap + rest);
      assert (word + (gap + rest))[|word|..] == gap + rest;
      assert words == [word] + words[1..];
    }
  }

  // ----- which rows are answered -----

  /** The rows that the query fetches: as many as asked for, four times as many if tags are to be checked. */
  predicate Pool(tags: seq<string>, limit: int, rows: nat, n: nat) {
    n <= rows && (limit < 0 ==> n == rows) && (limit == 0 ==> n == 0)
    && (limit > 0 ==> var most := if tags == [] then limit else 4 * limit; n == most || (n == rows && rows <= most))
  }

  /** `places` are the places of the answered rows among the first `n`: the first `most` of them with all the tags. */
  ghost predicate Answers(matches: seq<ChunkMatch>, tags: seq<string>, n: nat, most: nat, places: seq<nat>) {
    && |places| <= most && n <= |matches|
    && (forall i :: 0 <= i < |places| ==> places[i] < n && AllTags(matches[places[i]], tags))
    && (forall i, j :: 0 <= i < j < |places| ==> places[i] < places[j])
    && (forall m :: 0 <= m < n && AllTags(matches[m], tags) && m !in places ==>
          |places| == most && forall i :: 0 <= i < |places| ==> places[i] < m)
  }

  ghost predicate AllTags(m: ChunkMatch, tags: seq<string>) {
    forall tag :: tag in tags ==> tag in Words(m.tagsText)
  }

  /** `places` are the places of the rows for which `p` holds. */
  ghost predicate PlacesOf<T>(p: T -> bool, rows: seq<T>, places: seq<nat>) {
    && (forall i :: 0 <= i < |places| ==> places[i] < |rows|)
    && (forall i, j :: 0 <= i < j < |places| ==> places[i] < places[j])
    && (forall m :: 0 <= m < |rows| ==> (p(rows[m]) <==> m in places))
  }

  lemma PlacesNext<T>(p: T -> bool, rows: seq<T>, row: T, places: seq<nat>)
    requires PlacesOf(p, rows, places)
    ensures PlacesOf(p, rows + [row], if p(row) then places + [|rows|] else places)
  {
    var more := if p(row) then places + [|rows|] else places;
    assert |rows| !in places;
    forall m | 0 <= m < |rows| + 1 ensures p((rows + [row])[m]) <==> m in more {
      assert m in more <==> m in places || (p(row) && m == |rows|);
    }
  }

  /** `kept` are the rows at the places. */
  ghost predicate RowsAt<T>(rows: seq<T>, places: seq<nat>, kept: seq<T>) {
    |places| == |kept| && forall i :: 0 <= i < |places| ==> places[i] < |rows| && rows[places[i]] == kept[i]
  }

  lemma RowsAtNext<T>(rows: seq<T>, row: T, places: seq<nat>, kept: seq<T>)
    requires RowsAt(rows, places, kept)
    ensures RowsAt(rows + [row], places, kept) && RowsAt(rows + [row], places + [|rows|], kept + [row])
  {
  }

  lemma FilterLast<T>(p: T -> bool, rows: seq<T>, row: T)
    ensures Seqs.Filter(p, rows + [row]) == if p(row) then Seqs.Filter(p, rows) + [row] else Seqs.Filter(p, rows)
  {
    Seqs.FilterSplit(p, rows, [row]);
    assert Seqs.Filter(p, [row]) == if p(row) then [row] else [];
  }

  lemma {:induction false} KeptPlaces<T>(p: T -> bool, rows: seq<T>) returns (places: seq<nat>)
    ensures PlacesOf(p, rows, places) && RowsAt(rows, places, Seqs.Filter(p, rows))
  {
    if rows == [] {
      places := [];
    } else {
      var init, row := rows[..|rows| - 1], rows[|rows| - 1];
      assert rows == init + [row];
      var before := KeptPlaces(p, init);
      PlacesNext(p, init, row, before);
      RowsAtNext(init, row, before, Seqs.Filter(p, init));
      FilterLast(p, init, row);
      places := if p(row) then before + [|init|] else before;
    }
  }

  /** Of the kept rows, the first `most`. */
  lemma FirstKept<T>(p: T -> bool, rows: seq<T>, most: nat) returns (places: seq<nat>)
    ensures RowsAt(rows, places, Seqs.Take(Seqs.Filter(p, rows), most)) && |places| <= most
    ensures forall i :: 0 <= i < |places| ==> places[i] < |rows| && p(rows[places[i]])
    ensures forall i, j :: 0 <= i < j < |places| ==> places[i] < places[j]
    ensures forall m :: 0 <= m < |rows| && p(rows[m]) && m !in places ==>
              |places| == most && forall i :: 0 <= i < |places| ==> places[i] < m
  {
    var all := KeptPlaces(p, rows);
    places := Seqs.Take(all, most);
    forall i | 0 <= i < |places| ensures p(rows[places[i]]) { assert all[i] in all; }
    forall m | 0 <= m < |rows| && p(rows[m]) && m !in places
      ensures |places| == most && forall i :: 0 <= i < |places| ==> places[i] < m
    {
      var j := Seqs.Place(m, all);
      assert forall i :: 0 <= i < |places| ==> places[i] == all[i];
    }
  }

  lemma TaggedIff(tags: seq<string>, m: ChunkMatch)
    ensures Tagged(tags, m) <==> AllTags(m, tags)
  {
    if AllTags(m, tags) { assert forall i :: 0 <= i < |tags| ==> tags[i] in tags; }
  }

  /**
    A search with any words answers, ranked from 1, the first rows of the pool that carry all tags, as many as
    asked for and at least one.
   */
  lemma SearchFinds(raw: string, matches: seq<ChunkMatch>, tags: seq<string>, limit: int)
    returns (n: nat, places: seq<nat>)
    requires !AllSpace(raw)
    ensures Pool(tags, limit, |matches|, n) && Answers(matches, tags, n, if limit < 1 then 1 else limit, places)
    ensures var hits := SearchResult(raw, matches, tags, limit);
      && |hits| == |places|
      && forall i :: 0 <= i < |hits| ==>
           hits[i] == KeywordHit(matches[places[i]].chunk, matches[places[i]].note, i + 1)
  {
    EmptyQueryIff(raw);
    var rows := Fetch(matches, FetchLimit(tags, limit));
    n := |rows|;
    forall m | 0 <= m < n ensures HasTags(tags)(rows[m]) <==> AllTags(matches[m], tags) { TaggedIff(tags, rows[m]); }
    places := FirstKept(HasTags(tags), rows, if limit < 1 then 1 else limit);
  }

  /** Nothing but whitespace finds nothing. */
  lemma BlankFindsNothing(raw: string, matches: seq<ChunkMatch>, tags: seq<string>, limit: int)
    requires AllSpace(raw)
    ensures SearchResult(raw, matches, tags, limit) == []
  {
    EmptyQueryIff(raw);
  }
}
