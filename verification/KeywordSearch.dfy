/** Quoting a query for FTS5, and the tag filter of the keyword search. */
module KeywordSearch {
  import opened Wrappers
  import opened Text
  import opened Fusion
  import FusionBound
  import Seqs

  // ----- str.split() -----

  predicate Word(s: string) {
    s != "" && forall i :: 0 <= i < |s| ==> !IsSpace(s[i])
  }

  /** The leading run of characters that are not whitespace. */
  function FirstRun(s: string): (r: string)
    ensures r <= s && (forall i :: 0 <= i < |r| ==> !IsSpace(r[i])) && (|r| < |s| ==> IsSpace(s[|r|]))
  {
    if s == "" || IsSpace(s[0]) then "" else [s[0]] + FirstRun(s[1..])
  }

  function Words(s: string): (r: seq<string>)
    ensures forall i :: 0 <= i < |r| ==> Word(r[i])
  {
    if s == "" then []
    else if IsSpace(s[0]) then Words(s[1..])
    else [FirstRun(s)] + Words(s[|FirstRun(s)|..])
  }

  /** The characters that are not whitespace. */
  function Visible(s: string): string {
    if s == "" then "" else (if IsSpace(s[0]) then "" else [s[0]]) + Visible(s[1..])
  }

  function Flatten(words: seq<string>): string {
    if words == [] then "" else words[0] + Flatten(words[1..])
  }

  lemma {:induction false} VisibleRun(run: string, rest: string)
    requires forall i :: 0 <= i < |run| ==> !IsSpace(run[i])
    ensures Visible(run + rest) == run + Visible(rest)
  {
    if run == "" {
      assert run + rest == rest;
    } else {
      assert (run + rest)[1..] == run[1..] + rest;
      VisibleRun(run[1..], rest);
      assert [run[0]] + (run[1..] + Visible(rest)) == run + Visible(rest);
    }
  }

  /** The words hold every visible character of the text, in order. */
  lemma {:induction false} WordsKeepText(s: string)
    ensures Flatten(Words(s)) == Visible(s)
    decreases |s|
  {
    if s != "" {
      if IsSpace(s[0]) {
        WordsKeepText(s[1..]);
      } else {
        var run := FirstRun(s);
        var rest := s[|run|..];
        WordsKeepText(rest);
        VisibleRun(run, rest);
        assert s == run + rest;
      }
    }
  }

  // ----- quoting -----

  /** word.replace('"', '""') */
  function Doubled(s: string): string {
    if s == "" then "" else (if s[0] == '"' then ['"', '"'] else [s[0]]) + Doubled(s[1..])
  }

  function Quoted(word: string): string {
    ['"'] + Doubled(word) + ['"']
  }

  /** " ".join(...) over the quoted words. */
  function JoinQuoted(words: seq<string>): string {
    if words == [] then ""
    else if |words| == 1 then Quoted(words[0])
    else Quoted(words[0]) + [' '] + JoinQuoted(words[1..])
  }

  function Sanitize(raw: string): string {
    if Words(raw) == [] then "" else JoinQuoted(Words(raw))
  }

  // ----- reading a query by section 3.1 of the SQLite FTS5 documentation -----

  predicate QuerySpace(c: char) {
    c == ' ' || c == '\t' || c == '\n' || c == '\r'
  }

  /** The string that starts after an opening quote: its value, and the text after its closing quote. */
  function ReadString(s: string): (r: Option<(string, string)>)
    ensures r.Some? ==> |r.value.1| < |s|
  {
    if s == "" then None
    else if s[0] != '"' then
      var rest := ReadString(s[1..]);
      if rest.None? then None else Some(([s[0]] + rest.value.0, rest.value.1))
    else if |s| > 1 && s[1] == '"' then
      var rest := ReadString(s[2..]);
      if rest.None? then None else Some((['"'] + rest.value.0, rest.value.1))
    else Some(("", s[1..]))
  }

  /** A query that is a list of quoted strings: their values. Anything else is None. */
  function ReadQuery(s: string): Option<seq<string>>
    decreases |s|
  {
    if s == "" then Some([])
    else if QuerySpace(s[0]) then ReadQuery(s[1..])
    else if s[0] != '"' then None
    else
      var first := ReadString(s[1..]);
      if first.None? then None
      else
        var rest := ReadQuery(first.value.1);
        if rest.None? then None else Some([first.value.0] + rest.value)
  }

  /** Reading a quoted text gives it back, up to a closing quote that no quote follows. */
  lemma {:induction false} ReadQuoted(word: string, rest: string)
    requires rest == "" || rest[0] != '"'
    ensures ReadString(Doubled(word) + ['"'] + rest) == Some((word, rest))
  {
    var s := Doubled(word) + ['"'] + rest;
    if word == "" {
      assert s[1..] == rest;
    } else {
      var t := Doubled(word[1..]) + ['"'] + rest;
      ReadQuoted(word[1..], rest);
      if word[0] == '"' {
        assert s[0] == '"' && s[1] == '"' && s[2..] == t;
      } else {
        assert s[0] == word[0] && s[1..] == t;
      }
      assert word == [word[0]] + word[1..];
    }
  }

  lemma ReadOne(word: string, rest: string)
    requires rest == "" || rest[0] != '"'
    requires ReadQuery(rest).Some?
    ensures ReadQuery(Quoted(word) + rest) == Some([word] + ReadQuery(rest).value)
  {
    var s := Quoted(word) + rest;
    assert s[0] == '"' && s[1..] == Doubled(word) + ['"'] + rest;
    ReadQuoted(word, rest);
  }

  lemma {:induction false} ReadJoined(words: seq<string>)
    ensures ReadQuery(JoinQuoted(words)) == Some(words)
  {
    if |words| == 1 {
      ReadOne(words[0], "");
      assert Quoted(words[0]) + "" == Quoted(words[0]);
      assert words == [words[0]] + [];
    } else if |words| > 1 {
      var rest := [' '] + JoinQuoted(words[1..]);
      ReadJoined(words[1..]);
      assert rest[1..] == JoinQuoted(words[1..]);
      ReadOne(words[0], rest);
      assert Quoted(words[0]) + [' '] + JoinQuoted(words[1..]) == Quoted(words[0]) + rest;
      assert words == [words[0]] + words[1..];
    }
  }

  /** Whatever the input, the query reads as exactly its words, all of them quoted strings. */
  lemma SanitizeRoundTrip(raw: string)
    ensures ReadQuery(Sanitize(raw)) == Some(Words(raw))
  {
    ReadJoined(Words(raw));
  }

  /** Only white space gives the empty query. */
  lemma {:induction false} EmptyQueryIff(raw: string)
    ensures Sanitize(raw) == "" <==> AllSpace(raw)
  {
    if raw != "" && IsSpace(raw[0]) {
      EmptyQueryIff(raw[1..]);
      assert AllSpace(raw) <==> AllSpace(raw[1..]);
    }
  }

  // ----- the tag filter -----

  datatype ChunkMatch = ChunkMatch(chunk: int, note: int, tagsText: string)

  predicate Tagged(tags: seq<string>, m: ChunkMatch) {
    forall i :: 0 <= i < |tags| ==> tags[i] in Words(m.tagsText)
  }

  function HasTags(tags: seq<string>): ChunkMatch -> bool {
    m => Tagged(tags, m)
  }

  /** LIMIT: over-fetched when rows are to be dropped; negative means none. */
  function FetchLimit(tags: seq<string>, limit: int): int {
    if tags == [] then limit else if limit * 4 > limit then limit * 4 else limit
  }

  function Fetch<T>(rows: seq<T>, limit: int): (r: seq<T>)
    ensures r <= rows
  {
    if 0 <= limit <= |rows| then rows[..limit] else rows
  }

  /** The ranked hits for the first `most` rows. */
  function Ranked(rows: seq<ChunkMatch>): (r: seq<KeywordHit>)
    ensures |r| == |rows|
    ensures forall i :: 0 <= i < |r| ==> r[i] == KeywordHit(rows[i].chunk, rows[i].note, i + 1)
  {
    seq(|rows|, (i: int) requires 0 <= i < |rows| => KeywordHit(rows[i].chunk, rows[i].note, i + 1))
  }

  /** `matches`: every row that matches the query, by score. */
  function SearchResult(raw: string, matches: seq<ChunkMatch>, tags: seq<string>, limit: int): seq<KeywordHit> {
    if Sanitize(raw) == "" then []
    else
      var rows := Fetch(matches, FetchLimit(tags, limit));
      Ranked(Seqs.Take(Seqs.Filter(HasTags(tags), rows), if limit < 1 then 1 else limit))
  }

  lemma FilterNext(tags: seq<string>, rows: seq<ChunkMatch>, i: nat)
    requires i < |rows|
    ensures Seqs.Filter(HasTags(tags), rows[..i + 1])
         == Seqs.Filter(HasTags(tags), rows[..i]) + if Tagged(tags, rows[i]) then [rows[i]] else []
  {
    Seqs.TakeNext(rows, i);
    Seqs.FilterSplit(HasTags(tags), rows[..i], [rows[i]]);
  }

  lemma {:induction false} FilterPrefix(tags: seq<string>, rows: seq<ChunkMatch>, i: nat)
    requires i <= |rows|
    ensures Seqs.Filter(HasTags(tags), rows[..i]) <= Seqs.Filter(HasTags(tags), rows)
  {
    assert rows == rows[..i] + rows[i..];
    Seqs.FilterSplit(HasTags(tags), rows[..i], rows[i..]);
  }

  lemma RankedNext(rows: seq<ChunkMatch>, m: ChunkMatch)
    ensures Ranked(rows + [m]) == Ranked(rows) + [KeywordHit(m.chunk, m.note, |rows| + 1)]
  {
  }

  lemma TakePrefix<T>(a: seq<T>, all: seq<T>, most: nat)
    requires a <= all && (|a| == most || (a == all && |a| <= most))
    ensures Seqs.Take(all, most) == a
  {
  }

  /** The loop that filters, ranks and cuts the rows. */
  method RankTagged(rows: seq<ChunkMatch>, tags: seq<string>, limit: int) returns (hits: seq<KeywordHit>)
    ensures hits == Ranked(Seqs.Take(Seqs.Filter(HasTags(tags), rows), if limit < 1 then 1 else limit))
  {
    hits := [];
    ghost var all, kept := Seqs.Filter(HasTags(tags), rows), [];
    var i := 0;
    while i < |rows|
      invariant 0 <= i <= |rows| && kept == Seqs.Filter(HasTags(tags), rows[..i]) && hits == Ranked(kept)
      invariant |hits| < limit || hits == []
    {
      FilterNext(tags, rows, i);
      if Tagged(tags, rows[i]) {
        RankedNext(kept, rows[i]);
        kept := kept + [rows[i]];
        hits := hits + [KeywordHit(rows[i].chunk, rows[i].note, |hits| + 1)];
        if |hits| >= limit {
          FilterPrefix(tags, rows, i + 1);
          TakePrefix(kept, all, if limit < 1 then 1 else limit);
          return;
        }
      }
      i := i + 1;
    }
    Seqs.TakeAll(rows);
    TakePrefix(kept, all, if limit < 1 then 1 else limit);
  }

  /** What the query matches is the database's answer. */
  method SearchChunks(raw: string, matches: seq<ChunkMatch>, tags: seq<string>, limit: int)
    returns (hits: seq<KeywordHit>)
    ensures hits == SearchResult(raw, matches, tags, limit)
  {
    if Sanitize(raw) == "" {
      return [];
    }
    hits := RankTagged(Fetch(matches, FetchLimit(tags, limit)), tags, limit);
  }

  // ----- what fusion needs -----

  lemma {:induction false} VotesOfHits(hits: seq<KeywordHit>)
    ensures |KeywordVotes(hits)| == |hits|
    ensures forall i :: 0 <= i < |hits| ==> KeywordVotes(hits)[i] == Vote(hits[i].chunk, hits[i].note, hits[i].rank)
  {
    if hits != [] { VotesOfHits(hits[..|hits| - 1]); }
  }

  /** A search of at most `k` + 1 rows, no chunk twice among them, is a rank list that the fusion bound covers. */
  lemma SearchFitsFusion(raw: string, matches: seq<ChunkMatch>, tags: seq<string>, limit: int, k: nat)
    requires 1 <= limit <= k + 1
    requires forall i, j :: 0 <= i < j < |matches| ==> matches[i].chunk != matches[j].chunk
    ensures FusionBound.RankList(KeywordVotes(SearchResult(raw, matches, tags, limit)), k + 1)
  {
    var hits := SearchResult(raw, matches, tags, limit);
    var rows := Fetch(matches, FetchLimit(tags, limit));
    VotesOfHits(hits);
    DistinctChunks(tags, rows);
  }

  lemma {:induction false} DistinctChunks(tags: seq<string>, rows: seq<ChunkMatch>)
    requires forall i, j :: 0 <= i < j < |rows| ==> rows[i].chunk != rows[j].chunk
    ensures forall i, j :: 0 <= i < j < |Seqs.Filter(HasTags(tags), rows)| ==>
      Seqs.Filter(HasTags(tags), rows)[i].chunk != Seqs.Filter(HasTags(tags), rows)[j].chunk
  {
    if rows != [] {
      DistinctChunks(tags, rows[1..]);
      var rest := Seqs.Filter(HasTags(tags), rows[1..]);
      forall j | 0 <= j < |rest| ensures rest[j].chunk != rows[0].chunk {
        assert rest[j] in rest;
        var m := Seqs.Place(rest[j], rows[1..]);
        assert rows[m + 1] == rest[j];
      }
    }
  }
}
