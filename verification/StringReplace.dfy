/** `replace_in_place`: every occurrence of one text, from a position on, becomes another. */
module StringReplace {
  import opened Wrappers
  import opened Text

  /** Leftmost, non-overlapping occurrences. */
  function ReplaceAll(s: string, from: string, to: string): string
    requires from != ""
    decreases |s|
  {
    match Find(s, from, 0)
    case None => s
    case Some(p) => s[..p] + (to + ReplaceAll(s[p + |from|..], from, to))
  }

  /** None stands for `std::out_of_range`: the start lies behind the end. */
  function Replaced(s: string, from: string, to: string, start: nat): Option<string> {
    if from == "" || from == to then Some(s)
    else if start > |s| then None
    else Some(s[..start] + ReplaceAll(s[start..], from, to))
  }

  lemma ReplacedFromStart(s: string, from: string, to: string)
    requires from != "" && from != to
    ensures Replaced(s, from, to, 0) == Some(ReplaceAll(s, from, to))
  {
    assert s[0..] == s && s[..0] + ReplaceAll(s, from, to) == ReplaceAll(s, from, to);
  }

  lemma OccursInSuffix(s: string, pat: string, start: nat, i: nat)
    requires start <= |s|
    ensures OccursAt(s, pat, start + i) <==> OccursAt(s[start..], pat, i)
  {
    if start + i + |pat| <= |s| {
      assert s[start + i..start + i + |pat|] == s[start..][i..i + |pat|];
    }
  }

  /** Searching on from a later position is searching the rest. */
  lemma {:induction false} FindInSuffix(s: string, pat: string, start: nat, i: nat)
    requires start <= |s|
    ensures Find(s, pat, start + i) ==
            match Find(s[start..], pat, i) { case None => None case Some(p) => Some(start + p) }
    decreases |s| - start - i
  {
    OccursInSuffix(s, pat, start, i);
    if start + i + |pat| <= |s| && !OccursAt(s, pat, start + i) {
      FindInSuffix(s, pat, start, i + 1);
    }
  }

  lemma Slices(s: string, start: nat, p: nat, q: nat)
    requires start <= p <= q <= |s|
    ensures s[start..p] == s[start..][..p - start] && s[q..] == s[start..][q - start..]
  {
  }

  lemma ReplaceFirst(r: string, from: string, to: string, q: nat, part: string, more: string)
    requires from != "" && Find(r, from, 0) == Some(q) && part == r[..q] && more == r[q + |from|..]
    ensures ReplaceAll(r, from, to) == part + (to + ReplaceAll(more, from, to))
  {
  }

  /** What is written, followed by what is left to replace. */
  function Written(text: string, s: string, from: string, to: string, start: nat): string
    requires from != "" && start <= |s|
  {
    text + ReplaceAll(s[start..], from, to)
  }

  lemma Appended(text: string, part: string, to: string, rest: string)
    ensures text + (part + (to + rest)) == (text + part + to) + rest
  {
  }

  /** One turn of the loop: there is an occurrence left ... */
  lemma ReplaceOne(text: string, s: string, from: string, to: string, start: nat, p: nat, part: string)
    requires from != "" && start <= |s| && Find(s, from, start) == Some(p) && part == s[start..p]
    ensures Written(text + part + to, s, from, to, p + |from|) == Written(text, s, from, to, start)
  {
    FindInSuffix(s, from, start, 0);
    Slices(s, start, p, p + |from|);
    ReplaceFirst(s[start..], from, to, p - start, part, s[p + |from|..]);
    Appended(text, part, to, ReplaceAll(s[p + |from|..], from, to));
  }

  /** ... or there is none. */
  lemma ReplaceNone(text: string, s: string, from: string, to: string, start: nat)
    requires from != "" && start <= |s| && Find(s, from, start) == None
    ensures Written(text, s, from, to, start) == text + s[start..]
  {
    FindInSuffix(s, from, start, 0);
  }

  method ReplaceInPlace(s: string, from: string, to: string, begin: nat) returns (result: Option<string>)
    ensures result == Replaced(s, from, to, begin)
  {
    if from == "" || from == to {
      return Some(s);
    }
    if begin > |s| {
      return None;
    }
    var text := ReplaceFrom(s[..begin], s, from, to, begin);
    result := Some(text);
  }

  /** The loop: appends to `before` what becomes of the text from `begin` on. */
  method ReplaceFrom(before: string, s: string, from: string, to: string, begin: nat) returns (text: string)
    requires from != "" && begin <= |s|
    ensures text == Written(before, s, from, to, begin)
  {
    var start := begin;
    text := before;
    ghost var wanted := Written(before, s, from, to, begin);
    var pos := Find(s, from, start);
    while pos.Some?
      invariant start <= |s| && pos == Find(s, from, start)
      invariant Written(text, s, from, to, start) == wanted
      decreases |s| - start
    {
      text, start := ReplaceNext(text, s, from, to, start, pos.value);
      pos := Find(s, from, start);
    }
    ReplaceNone(text, s, from, to, start);
    text := text + s[start..];
  }

  method ReplaceNext(before: string, s: string, from: string, to: string, start: nat, pos: nat)
    returns (text: string, next: nat)
    requires from != "" && start <= |s| && Find(s, from, start) == Some(pos)
    ensures start < next <= |s| && Written(text, s, from, to, next) == Written(before, s, from, to, start)
  {
    var part := s[start..pos];
    ReplaceOne(before, s, from, to, start, pos, part);
    text := before + part + to;
    next := pos + |from|;
  }

  /** Replacing by something shorter shortens a text that has an occurrence, and only such a text changes. */
  lemma {:induction false} ReplacingShortens(s: string, from: string, to: string)
    requires |to| < |from|
    ensures |ReplaceAll(s, from, to)| <= |s|
    ensures |ReplaceAll(s, from, to)| < |s| <==> Contains(s, from)
    ensures !Contains(s, from) ==> ReplaceAll(s, from, to) == s
    decreases |s|
  {
    var p := Find(s, from, 0);
    if p.Some? {
      ReplacingShortens(s[p.value + |from|..], from, to);
    }
  }

  // ------------------------------------------------------------------ which occurrences are replaced

  /** What stands between the occurrences that are replaced. */
  function Pieces(s: string, from: string): seq<string>
    requires from != ""
    decreases |s|
  {
    match Find(s, from, 0)
    case None => [s]
    case Some(p) => [s[..p]] + Pieces(s[p + |from|..], from)
  }

  /** The pieces with a text between each two. */
  function Glued(pieces: seq<string>, glue: string): string {
    if pieces == [] then ""
    else if |pieces| == 1 then pieces[0]
    else pieces[0] + (glue + Glued(pieces[1..], glue))
  }

  lemma GlueMore(piece: string, pieces: seq<string>, glue: string)
    requires pieces != []
    ensures Glued([piece] + pieces, glue) == piece + (glue + Glued(pieces, glue))
  {
    assert ([piece] + pieces)[1..] == pieces;
  }

  lemma CutOut(s: string, from: string, p: nat)
    requires OccursAt(s, from, p)
    ensures s == s[..p] + (from + s[p + |from|..])
  {
  }

  lemma PiecesUnfold(s: string, from: string, p: nat)
    requires from != "" && Find(s, from, 0) == Some(p)
    ensures Pieces(s, from) == [s[..p]] + Pieces(s[p + |from|..], from) && Pieces(s[p + |from|..], from) != []
  {
  }

  lemma {:induction false} PiecesGlueBack(s: string, from: string)
    requires from != ""
    ensures Glued(Pieces(s, from), from) == s
    decreases |s|
  {
    var found := Find(s, from, 0);
    if found.Some? {
      var p := found.value;
      FindIsFirst(s, from, 0);
      PiecesUnfold(s, from, p);
      PiecesGlueBack(s[p + |from|..], from);
      GlueMore(s[..p], Pieces(s[p + |from|..], from), from);
      CutOut(s, from, p);
    }
  }

  lemma {:induction false} PiecesGlueNew(s: string, from: string, to: string)
    requires from != ""
    ensures Glued(Pieces(s, from), to) == ReplaceAll(s, from, to)
    decreases |s|
  {
    var found := Find(s, from, 0);
    if found.Some? {
      var p := found.value;
      PiecesUnfold(s, from, p);
      PiecesGlueNew(s[p + |from|..], from, to);
      GlueMore(s[..p], Pieces(s[p + |from|..], from), to);
      ReplaceFirst(s, from, to, p, s[..p], s[p + |from|..]);
    }
  }

  /** The text is its pieces glued with the old text, and the result is the same pieces glued with the new one. */
  lemma PiecesAreGlued(s: string, from: string, to: string)
    requires from != ""
    ensures Glued(Pieces(s, from), from) == s && Glued(Pieces(s, from), to) == ReplaceAll(s, from, to)
  {
    PiecesGlueBack(s, from);
    PiecesGlueNew(s, from, to);
  }

  /** In a piece and the old text behind it, that text is found first where the piece ends: none is passed over. */
  lemma {:induction false} NoneIsPassedOver(s: string, from: string, k: nat)
    requires from != "" && k < |Pieces(s, from)|
    ensures var piece := Pieces(s, from)[k];
            if k + 1 < |Pieces(s, from)|
            then OccursAt(piece + from, from, |piece|) &&
                 forall i: nat :: i < |piece| ==> !OccursAt(piece + from, from, i)
            else forall i: nat :: !OccursAt(piece, from, i)
    decreases |s|
  {
    var found := Find(s, from, 0);
    FindIsFirst(s, from, 0);
    if found.Some? {
      var p := found.value;
      if k > 0 {
        NoneIsPassedOver(s[p + |from|..], from, k - 1);
      } else {
        FirstPieceEnds(s, from, p);
        PiecesUnfold(s, from, p);
      }
    }
  }

  lemma FirstPieceEnds(s: string, from: string, p: nat)
    requires OccursAt(s, from, p) && forall i: nat :: i < p ==> !OccursAt(s, from, i)
    ensures OccursAt(s[..p] + from, from, p) && forall i: nat :: i < p ==> !OccursAt(s[..p] + from, from, i)
  {
    var t := s[..p] + from;
    assert t == s[..p + |from|];
    forall i: nat | i < p ensures !OccursAt(t, from, i) {
      assert i + |from| <= |t| ==> t[i..i + |from|] == s[i..i + |from|];
      assert !OccursAt(s, from, i);
    }
    assert t[p..p + |from|] == from;
  }
}
