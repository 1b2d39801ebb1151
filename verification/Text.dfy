/** Byte strings as the service scans them: a `char` stands for one byte, and ASCII is 0..127. */
module Text {
  import opened Wrappers

  predicate Ascii(s: string) {
    forall i :: 0 <= i < |s| ==> s[i] < 128 as char
  }

  /** How far a scan runs before it meets a byte of `stops` or the end. */
  function Span(s: string, stops: set<char>): (k: nat)
    ensures k <= |s|
    ensures k < |s| ==> s[k] in stops
  {
    if s == "" || s[0] in stops then 0 else Span(s[1..], stops) + 1
  }

  predicate Free(s: string, stops: set<char>) {
    forall i :: 0 <= i < |s| ==> s[i] !in stops
  }

  /** What a scan runs over is free of its stops. */
  lemma {:induction false} SpanIsFree(s: string, stops: set<char>)
    ensures Free(s[..Span(s, stops)], stops)
  {
    if s != "" && s[0] !in stops {
      SpanIsFree(s[1..], stops);
      assert s[..Span(s, stops)] == [s[0]] + s[1..][..Span(s[1..], stops)];
    }
  }

  lemma FreeSnoc(s: string, c: char, stops: set<char>)
    requires Free(s, stops) && c !in stops
    ensures Free(s + [c], stops)
  {
  }

  lemma {:induction false} SpanIs(s: string, stops: set<char>, k: nat)
    requires k <= |s| && Free(s[..k], stops) && (k < |s| ==> s[k] in stops)
    ensures Span(s, stops) == k
  {
    if k > 0 {
      assert s[..k][0] == s[0] && s[1..][..k - 1] == s[..k][1..];
      SpanIs(s[1..], stops, k - 1);
    }
  }

  /** A scan over a stop-free text stops where the next text starts. */
  lemma SpanOver(a: string, b: string, stops: set<char>)
    requires Free(a, stops) && (b == "" || b[0] in stops)
    ensures Span(a + b, stops) == |a| && (a + b)[..|a|] == a && (a + b)[|a|..] == b
  {
    assert (a + b)[..|a|] == a && (a + b)[|a|..] == b;
    SpanIs(a + b, stops, |a|);
  }

  lemma DropDrop(s: string, i: nat, j: nat)
    requires i + j <= |s|
    ensures s[i..][j..] == s[i + j..] && (i + j < |s| ==> s[i..][j] == s[i + j])
  {
  }

  // ------------------------------------------------------------------ letter case

  function LowerChar(c: char): char {
    if 'A' <= c <= 'Z' then (c as int + 32) as char else c
  }

  function Lower(s: string): (r: string)
    ensures |r| == |s| && forall i :: 0 <= i < |s| ==> r[i] == LowerChar(s[i])
  {
    seq(|s|, i requires 0 <= i < |s| => LowerChar(s[i]))
  }

  predicate IsLower(s: string) {
    forall i :: 0 <= i < |s| ==> !('A' <= s[i] <= 'Z')
  }

  lemma LowerFixes(s: string)
    ensures IsLower(Lower(s))
    ensures Lower(s) == s <==> IsLower(s)
    ensures Lower(Lower(s)) == Lower(s)
  {
    if Lower(s) == s {
      forall i | 0 <= i < |s| ensures !('A' <= s[i] <= 'Z') {
        assert Lower(s)[i] == LowerChar(s[i]);
      }
    }
  }

  // ------------------------------------------------------------------ substring search

  predicate OccursAt(s: string, pat: string, i: nat) {
    i + |pat| <= |s| && s[i..i + |pat|] == pat
  }

  /** `std::string::find`: the first occurrence at or after `start`. */
  function Find(s: string, pat: string, start: nat): (r: Option<nat>)
    ensures r.Some? ==> start <= r.value && r.value + |pat| <= |s|
    decreases |s| - start
  {
    if start + |pat| > |s| then None
    else if OccursAt(s, pat, start) then Some(start)
    else Find(s, pat, start + 1)
  }

  lemma {:induction false} FindIsFirst(s: string, pat: string, start: nat)
    ensures var r := Find(s, pat, start);
            if r.Some? then OccursAt(s, pat, r.value) && forall i: nat :: start <= i < r.value ==> !OccursAt(s, pat, i)
            else forall i: nat :: start <= i ==> !OccursAt(s, pat, i)
    decreases |s| - start
  {
    if start + |pat| <= |s| && !OccursAt(s, pat, start) {
      FindIsFirst(s, pat, start + 1);
    }
  }

  predicate Contains(s: string, pat: string) {
    Find(s, pat, 0).Some?
  }

  lemma OccurrenceFound(s: string, pat: string, i: nat)
    requires OccursAt(s, pat, i)
    ensures Contains(s, pat)
  {
    FindIsFirst(s, pat, 0);
  }
}
