/** The string operations that several components share, with Python's whitespace. */
module Text {

  /** The characters that Python's str methods treat as whitespace. */
  predicate IsSpace(c: char) {
    || '\U{9}' <= c <= '\U{d}' || '\U{1c}' <= c <= '\U{20}' || c == '\U{85}' || c == '\U{a0}'
    || c == '\U{1680}' || '\U{2000}' <= c <= '\U{200a}' || c == '\U{2028}' || c == '\U{2029}'
    || c == '\U{202f}' || c == '\U{205f}' || c == '\U{3000}'
  }

  /** str.rstrip */
  function RStrip(s: string): (r: string)
    ensures r <= s
    ensures r != "" ==> !IsSpace(r[|r| - 1])
  {
    if s != "" && IsSpace(s[|s| - 1]) then RStrip(s[..|s| - 1]) else s
  }

  /** str.lstrip */
  function LStrip(s: string): (r: string)
    ensures |r| <= |s| && r == s[|s| - |r|..]
    ensures r != "" ==> !IsSpace(r[0])
  {
    if s != "" && IsSpace(s[0]) then LStrip(s[1..]) else s
  }

  /** str.strip */
  function Strip(s: string): string {
    RStrip(LStrip(s))
  }

  predicate AllSpace(s: string) {
    forall i :: 0 <= i < |s| ==> IsSpace(s[i])
  }

  predicate OccursAt(a: string, b: string, i: nat) {
    i + |a| <= |b| && b[i..i + |a|] == a
  }

  /** `a` is a contiguous part of `b`. */
  ghost predicate Infix(a: string, b: string) {
    exists i :: OccursAt(a, b, i)
  }

  lemma InfixIn(x: string, a: string, y: string)
    ensures Infix(a, x + a + y)
  {
    assert OccursAt(a, x + a + y, |x|);
  }

  lemma InfixTransitive(a: string, b: string, c: string)
    requires Infix(a, b) && Infix(b, c)
    ensures Infix(a, c)
  {
    var i: nat :| OccursAt(a, b, i);
    var j: nat :| OccursAt(b, c, j);
    forall k | 0 <= k < |a| ensures c[j + i + k] == a[k] {
      assert c[j..j + |b|][i + k] == b[i + k] == b[i..i + |a|][k];
    }
    assert OccursAt(a, c, j + i);
  }

  /** Trimming cuts whitespace only. */
  lemma {:induction false} RStripTail(s: string)
    ensures forall i :: |RStrip(s)| <= i < |s| ==> IsSpace(s[i])
  {
    if s != "" && IsSpace(s[|s| - 1]) {
      var init := s[..|s| - 1];
      RStripTail(init);
      assert forall i :: |RStrip(s)| <= i < |s| - 1 ==> s[i] == init[i];
    }
  }

  /** A trimmed part survives the trimming of the whole. */
  lemma TrimKeepsTrimmedPart(a: string, s: string)
    requires Infix(a, s) && RStrip(a) == a
    ensures Infix(a, RStrip(s))
  {
    var i: nat :| OccursAt(a, s, i);
    var r := RStrip(s);
    if a == "" {
      assert OccursAt(a, r, 0);
    } else {
      RStripTail(s);
      assert s[i..i + |a|][|a| - 1] == s[i + |a| - 1] == a[|a| - 1];
      assert r[i..i + |a|] == s[i..i + |a|];
      assert OccursAt(a, r, i);
    }
  }
}
