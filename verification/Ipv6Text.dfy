/**
 `trim_v6_string`: leading zeros and surplus colons are removed by replacing until nothing is left to
 replace. The loops compute what one pass from left to right does.
 */
module Ipv6Text {
  import opened Text
  import opened StringReplace

  // ------------------------------------------------------------------ one pass: zeros

  /** Without the zeros at the start of a block; `atStart` says whether the text starts one. */
  function WithoutZeros(s: string, atStart: bool): string {
    if s == "" then ""
    else if s[0] == '0' && atStart then WithoutZeros(s[1..], true)
    else [s[0]] + WithoutZeros(s[1..], s[0] == ':')
  }

  /** Whether what follows `s` starts a block, zeros not counted. */
  function EndsAtStart(s: string, atStart: bool): bool {
    if s == "" then atStart else EndsAtStart(s[1..], if s[0] == '0' then atStart else s[0] == ':')
  }

  predicate NoZeroBlock(s: string) {
    forall i :: 0 <= i < |s| - 1 && s[i] == ':' ==> s[i + 1] != '0'
  }

  lemma {:induction false} WithoutZerosConcat(a: string, b: string, atStart: bool)
    ensures WithoutZeros(a + b, atStart) == WithoutZeros(a, atStart) + WithoutZeros(b, EndsAtStart(a, atStart))
  {
    if a == "" {
      assert a + b == b;
    } else {
      assert (a + b)[1..] == a[1..] + b;
      WithoutZerosConcat(a[1..], b, if a[0] == '0' then atStart else a[0] == ':');
    }
  }

  /** Replacing ":0" by ":" does not change what is left once all zeros are gone. */
  lemma {:induction false} DroppingZerosKeeps(s: string, atStart: bool)
    ensures WithoutZeros(ReplaceAll(s, ":0", ":"), atStart) == WithoutZeros(s, atStart)
    decreases |s|
  {
    var found := Find(s, ":0", 0);
    if found.Some? {
      var p := found.value;
      var front, rest := s[..p], s[p + 2..];
      FindIsFirst(s, ":0", 0);
      assert s == front + (":0" + rest);
      WithoutZerosConcat(front, ":0" + rest, atStart);
      WithoutZerosConcat(front, ":" + ReplaceAll(rest, ":0", ":"), atStart);
      DroppingZerosKeeps(rest, true);
      ZeroBlock(rest, EndsAtStart(front, atStart));
      ColonFirst(ReplaceAll(rest, ":0", ":"), EndsAtStart(front, atStart));
    }
  }

  lemma ColonFirst(rest: string, atStart: bool)
    ensures WithoutZeros(":" + rest, atStart) == ":" + WithoutZeros(rest, true)
  {
    assert (":" + rest)[1..] == rest;
  }

  lemma ZeroBlock(rest: string, atStart: bool)
    ensures WithoutZeros(":0" + rest, atStart) == ":" + WithoutZeros(rest, true)
  {
    assert (":0" + rest)[1..] == "0" + rest && ("0" + rest)[1..] == rest;
  }

  /** Nothing left to replace means nothing left to drop. */
  lemma {:induction false} NothingToDrop(s: string, atStart: bool)
    requires NoZeroBlock(s) && (atStart && s != "" ==> s[0] != '0')
    ensures WithoutZeros(s, atStart) == s
  {
    if s != "" {
      NothingToDrop(s[1..], s[0] == ':');
      assert s == [s[0]] + s[1..];
    }
  }

  lemma {:induction false} ZerosAreGone(s: string, atStart: bool)
    ensures var t := WithoutZeros(s, atStart); NoZeroBlock(t) && (atStart && t != "" ==> t[0] != '0')
  {
    if s != "" {
      ZerosAreGone(s[1..], if s[0] == '0' && atStart then true else s[0] == ':');
    }
  }

  lemma ZeroBlockOccurs(s: string)
    ensures Contains(s, ":0") <==> !NoZeroBlock(s)
  {
    FindIsFirst(s, ":0", 0);
    if !NoZeroBlock(s) {
      var i :| 0 <= i < |s| - 1 && s[i] == ':' && s[i + 1] == '0';
      assert s[i..i + 2] == ":0";
      OccurrenceFound(s, ":0", i);
    }
    if Contains(s, ":0") {
      var p := Find(s, ":0", 0).value;
      assert s[p..p + 2] == ":0";
      assert s[p] == s[p..p + 2][0] && s[p + 1] == s[p..p + 2][1];
    }
  }

  // ------------------------------------------------------------------ one pass: colons

  /** Runs of colons cut down to two; `seen` colons (at most two) have just been written. */
  function AtMostTwo(s: string, seen: nat): string {
    if s == "" then ""
    else if s[0] != ':' then [s[0]] + AtMostTwo(s[1..], 0)
    else if seen >= 2 then AtMostTwo(s[1..], seen)
    else ":" + AtMostTwo(s[1..], seen + 1)
  }

  function SeenAfter(s: string, seen: nat): nat {
    if s == "" then seen
    else SeenAfter(s[1..], if s[0] != ':' then 0 else if seen >= 2 then seen else seen + 1)
  }

  predicate NoTriple(s: string) {
    forall i :: 0 <= i < |s| - 2 && s[i] == ':' && s[i + 1] == ':' ==> s[i + 2] != ':'
  }

  lemma {:induction false} AtMostTwoConcat(a: string, b: string, seen: nat)
    ensures AtMostTwo(a + b, seen) == AtMostTwo(a, seen) + AtMostTwo(b, SeenAfter(a, seen))
  {
    if a == "" {
      assert a + b == b;
    } else {
      assert (a + b)[1..] == a[1..] + b;
      AtMostTwoConcat(a[1..], b, if a[0] != ':' then 0 else if seen >= 2 then seen else seen + 1);
    }
  }

  lemma OneColon(rest: string, seen: nat)
    ensures AtMostTwo(":" + rest, seen) == if seen >= 2 then AtMostTwo(rest, seen) else ":" + AtMostTwo(rest, seen + 1)
  {
    assert (":" + rest)[1..] == rest;
  }

  lemma TwoColons(rest: string, seen: nat)
    requires seen <= 2
    ensures AtMostTwo("::" + rest, seen) == "::"[seen..] + AtMostTwo(rest, 2)
  {
    var t := AtMostTwo(rest, 2);
    assert "::" + rest == ":" + (":" + rest);
    OneColon(":" + rest, seen);
    OneColon(rest, if seen == 2 then 2 else seen + 1);
    assert "::"[0..] + t == ":" + (":" + t) && "::"[1..] + t == ":" + t && "::"[2..] + t == t;
  }

  lemma Triple(rest: string, seen: nat)
    requires seen <= 2
    ensures AtMostTwo(":::" + rest, seen) == AtMostTwo("::" + rest, seen)
  {
    TwoColons(rest, seen);
    TwoColons(":" + rest, seen);
    OneColon(rest, 2);
    assert ":::" + rest == "::" + (":" + rest);
  }

  lemma {:induction false} SeenIsSmall(s: string, seen: nat)
    requires seen <= 2
    ensures SeenAfter(s, seen) <= 2
  {
    if s != "" {
      SeenIsSmall(s[1..], if s[0] != ':' then 0 else if seen >= 2 then seen else seen + 1);
    }
  }

  /** Replacing ":::" by "::" does not change what is left once all runs are short. */
  lemma {:induction false} ShorteningRunsKeeps(s: string, seen: nat)
    requires seen <= 2
    ensures AtMostTwo(ReplaceAll(s, ":::", "::"), seen) == AtMostTwo(s, seen)
    decreases |s|
  {
    var found := Find(s, ":::", 0);
    if found.Some? {
      var p := found.value;
      var front, rest := s[..p], s[p + 3..];
      FindIsFirst(s, ":::", 0);
      assert s == front + (":::" + rest);
      AtMostTwoConcat(front, ":::" + rest, seen);
      AtMostTwoConcat(front, "::" + ReplaceAll(rest, ":::", "::"), seen);
      SeenIsSmall(front, seen);
      ShorteningRunsKeeps(rest, 2);
      Triple(rest, SeenAfter(front, seen));
      TwoColons(rest, SeenAfter(front, seen));
      TwoColons(ReplaceAll(rest, ":::", "::"), SeenAfter(front, seen));
    }
  }

  /** How many colons a text starts with, up to three. */
  function LeadingColons(s: string): nat {
    if s == "" || s[0] != ':' then 0
    else if |s| == 1 || s[1] != ':' then 1
    else if |s| == 2 || s[2] != ':' then 2
    else 3
  }

  lemma {:induction false} NothingToShorten(s: string, seen: nat)
    requires NoTriple(s) && seen + LeadingColons(s) <= 2
    ensures AtMostTwo(s, seen) == s
  {
    if s != "" {
      NothingToShorten(s[1..], if s[0] != ':' then 0 else seen + 1);
      assert s == [s[0]] + s[1..];
    }
  }

  lemma {:induction false} RunsAreShort(s: string, seen: nat)
    requires seen <= 2
    ensures NoTriple(AtMostTwo(s, seen)) && seen + LeadingColons(AtMostTwo(s, seen)) <= 2
  {
    if s != "" {
      RunsAreShort(s[1..], if s[0] != ':' then 0 else if seen >= 2 then seen else seen + 1);
    }
  }

  /** Shortening runs of colons brings no zero to the start of a block. */
  lemma {:induction false} ShorteningKeepsBlocks(s: string, seen: nat)
    requires NoZeroBlock(s)
    ensures var t := AtMostTwo(s, seen); NoZeroBlock(t) && (t != "" && t[0] == '0' ==> s[0] == '0')
  {
    if s != "" {
      ShorteningKeepsBlocks(s[1..], if s[0] != ':' then 0 else if seen >= 2 then seen else seen + 1);
    }
  }

  lemma TripleOccurs(s: string)
    ensures Contains(s, ":::") <==> !NoTriple(s)
  {
    FindIsFirst(s, ":::", 0);
    if !NoTriple(s) {
      var i :| 0 <= i < |s| - 2 && s[i] == ':' && s[i + 1] == ':' && s[i + 2] == ':';
      assert s[i..i + 3] == ":::";
      OccurrenceFound(s, ":::", i);
    }
    if Contains(s, ":::") {
      var p := Find(s, ":::", 0).value;
      assert s[p..p + 3] == ":::";
      assert s[p] == s[p..p + 3][0] && s[p + 1] == s[p..p + 3][1] && s[p + 2] == s[p..p + 3][2];
    }
  }

  // ------------------------------------------------------------------ the early return

  /** Occurrences of "::", counted from `start` on without overlap. */
  function DoubleColons(s: string, start: nat): nat
    decreases |s| - start
  {
    match Find(s, "::", start)
    case None => 0
    case Some(p) => 1 + DoubleColons(s, p + 2)
  }

  /** More than one "::" in the text, or a single colon at its end. */
  predicate LeftAlone(s: string) {
    DoubleColons(s, 0) > 1 || (|s| >= 2 && s[|s| - 1] == ':' && s[|s| - 2] != ':')
  }

  /** The count exceeds one exactly if two occurrences do not overlap. */
  lemma SeveralDoubleColons(s: string)
    ensures DoubleColons(s, 0) > 1 <==>
            exists i: nat, j: nat :: i + 2 <= j && OccursAt(s, "::", i) && OccursAt(s, "::", j)
  {
    FindIsFirst(s, "::", 0);
    var first := Find(s, "::", 0);
    if first.Some? {
      FindIsFirst(s, "::", first.value + 2);
      if DoubleColons(s, 0) > 1 {
        assert OccursAt(s, "::", Find(s, "::", first.value + 2).value);
      }
    }
  }

  // ------------------------------------------------------------------ the function

  /** Where all steps lead, computed in one pass. */
  function Swept(s: string): string {
    AtMostTwo(WithoutZeros(s, true), 0)
  }

  function Trimmed(s: string): string {
    if LeftAlone(s) then s else Swept(s)
  }

  method TrimV6String(addr: string) returns (text: string)
    ensures text == Trimmed(addr)
  {
    text := addr;
    var count := CountDoubleColons(addr);
    if count > 1 || (|text| >= 2 && text[|text| - 1] == ':' && text[|text| - 2] != ':') {
      return;
    }
    while text != "" && text[0] == '0'
      invariant WithoutZeros(text, true) == WithoutZeros(addr, true)
      decreases |text|
    {
      text := text[1..];
    }
    text := DropZeros(text);
    text := ShortenRuns(text);
  }

  method CountDoubleColons(text: string) returns (count: nat)
    ensures count == DoubleColons(text, 0)
  {
    count := 0;
    var pos := Find(text, "::", 0);
    while pos.Some?
      invariant pos.Some? ==> pos.value + 2 <= |text|
      invariant DoubleColons(text, 0) ==
                count + match pos { case None => 0 case Some(p) => 1 + DoubleColons(text, p + 2) }
      decreases if pos.Some? then |text| + 1 - pos.value else 0
    {
      count := count + 1;
      pos := Find(text, "::", pos.value + 2);
    }
  }

  method DropZeros(given: string) returns (text: string)
    requires given != "" ==> given[0] != '0'
    ensures text == WithoutZeros(given, true)
  {
    text := given;
    while Contains(text, ":0")
      invariant text != "" ==> text[0] != '0'
      invariant WithoutZeros(text, true) == WithoutZeros(given, true)
      decreases |text|
    {
      ReplacingShortens(text, ":0", ":");
      DroppingZerosKeeps(text, true);
      KeepsFirst(text);
      ReplacedFromStart(text, ":0", ":");
      var shorter := ReplaceInPlace(text, ":0", ":", 0);
      text := shorter.value;
    }
    ZeroBlockOccurs(text);
    NothingToDrop(text, true);
  }

  lemma KeepsFirst(s: string)
    requires s != "" ==> s[0] != '0'
    ensures var t := ReplaceAll(s, ":0", ":"); t != "" ==> t[0] != '0'
  {
    var found := Find(s, ":0", 0);
    if found.Some? {
      FindIsFirst(s, ":0", 0);
    }
  }

  method ShortenRuns(given: string) returns (text: string)
    ensures text == AtMostTwo(given, 0)
  {
    text := given;
    while Contains(text, ":::")
      invariant AtMostTwo(text, 0) == AtMostTwo(given, 0)
      decreases |text|
    {
      ReplacingShortens(text, ":::", "::");
      ShorteningRunsKeeps(text, 0);
      ReplacedFromStart(text, ":::", "::");
      var shorter := ReplaceInPlace(text, ":::", "::", 0);
      text := shorter.value;
    }
    TripleOccurs(text);
    NothingToShorten(text, 0);
  }

  // ------------------------------------------------------------------ what is promised

  /** Unless the text is left alone, no block starts with a zero and no three colons follow each other. */
  lemma TrimmedIsClean(s: string)
    requires !LeftAlone(s)
    ensures var t := Trimmed(s);
            (t != "" ==> t[0] != '0') && !Contains(t, ":0") && !Contains(t, ":::")
  {
    var t := WithoutZeros(s, true);
    ZerosAreGone(s, true);
    ShorteningKeepsBlocks(t, 0);
    RunsAreShort(t, 0);
    ZeroBlockOccurs(AtMostTwo(t, 0));
    TripleOccurs(AtMostTwo(t, 0));
  }

  lemma TrimmedIsStable(s: string)
    ensures Trimmed(Trimmed(s)) == Trimmed(s)
  {
    if !LeftAlone(s) {
      var t := AtMostTwo(WithoutZeros(s, true), 0);
      TrimmedIsClean(s);
      ZeroBlockOccurs(t);
      TripleOccurs(t);
      NothingToDrop(t, true);
      NothingToShorten(t, 0);
    }
  }

  // ------------------------------------------------------------------ which text comes out

  predicate DropsLeadingZero(s: string, t: string) {
    s != "" && s[0] == '0' && t == s[1..]
  }

  /** One occurrence of `from`, between `a` and `b`, becomes `to`. */
  predicate Rewrites(s: string, t: string, a: string, from: string, to: string, b: string) {
    s == a + (from + b) && t == a + (to + b)
  }

  /** A single step of the trimming: one character less. */
  ghost predicate TrimStep(s: string, t: string) {
    || DropsLeadingZero(s, t)
    || (exists a, b :: Rewrites(s, t, a, ":0", ":", b))
    || (exists a, b :: Rewrites(s, t, a, ":::", "::", b))
  }

  /** A finite sequence of steps. */
  ghost predicate IsChain(chain: seq<string>) {
    chain != [] && forall i :: 0 < i < |chain| ==> TrimStep(chain[i - 1], chain[i])
  }

  /** No step is left: no leading "0", no ":0" and no ":::". */
  predicate Clean(s: string) {
    (s != "" ==> s[0] != '0') && !Contains(s, ":0") && !Contains(s, ":::")
  }

  lemma CleanIsSwept(s: string)
    requires Clean(s)
    ensures Swept(s) == s
  {
    ZeroBlockOccurs(s);
    TripleOccurs(s);
    NothingToDrop(s, true);
    NothingToShorten(s, 0);
  }

  lemma ZeroStepKeeps(a: string, b: string)
    ensures Swept(a + (":0" + b)) == Swept(a + (":" + b))
  {
    WithoutZerosConcat(a, ":0" + b, true);
    WithoutZerosConcat(a, ":" + b, true);
    ZeroBlock(b, EndsAtStart(a, true));
    ColonFirst(b, EndsAtStart(a, true));
  }

  lemma ColonStepKeeps(a: string, b: string)
    ensures Swept(a + (":::" + b)) == Swept(a + ("::" + b))
  {
    var front, rest := WithoutZeros(a, true), WithoutZeros(b, true);
    WithoutZerosConcat(a, ":::" + b, true);
    WithoutZerosConcat(a, "::" + b, true);
    ColonsStay(b, EndsAtStart(a, true));
    AtMostTwoConcat(front, ":::" + rest, 0);
    AtMostTwoConcat(front, "::" + rest, 0);
    SeenIsSmall(front, 0);
    Triple(rest, SeenAfter(front, 0));
  }

  lemma ColonsStay(rest: string, atStart: bool)
    ensures WithoutZeros("::" + rest, atStart) == "::" + WithoutZeros(rest, true)
    ensures WithoutZeros(":::" + rest, atStart) == ":::" + WithoutZeros(rest, true)
  {
    ColonFirst(rest, true);
    ColonFirst(":" + rest, true);
    ColonFirst(":" + rest, atStart);
    ColonFirst("::" + rest, atStart);
    assert "::" + rest == ":" + (":" + rest) && ":::" + rest == ":" + ("::" + rest);
  }

  /** Every step keeps where all steps lead. */
  lemma StepKeepsSwept(s: string, t: string)
    requires TrimStep(s, t)
    ensures Swept(t) == Swept(s)
  {
    if DropsLeadingZero(s, t) {
      ZeroMayStart(t);
    } else if exists a, b :: Rewrites(s, t, a, ":0", ":", b) {
      var a, b :| Rewrites(s, t, a, ":0", ":", b);
      ZeroStepKeeps(a, b);
    } else {
      var a, b :| Rewrites(s, t, a, ":::", "::", b);
      ColonStepKeeps(a, b);
    }
  }

  lemma ZeroMayStart(t: string)
    ensures Swept("0" + t) == Swept(t)
  {
    assert ("0" + t)[1..] == t;
  }

  lemma {:induction false} ChainKeepsSwept(chain: seq<string>)
    requires IsChain(chain)
    ensures Swept(chain[|chain| - 1]) == Swept(chain[0])
  {
    var n := |chain| - 1;
    if n > 0 {
      assert IsChain(chain[..n]) by {
        forall i | 0 < i < n ensures TrimStep(chain[..n][i - 1], chain[..n][i]) {
          assert TrimStep(chain[i - 1], chain[i]);
        }
      }
      ChainKeepsSwept(chain[..n]);
      StepKeepsSwept(chain[n - 1], chain[n]);
    }
  }

  lemma StepFromOccurrence(s: string, from: string, to: string) returns (t: string)
    requires Contains(s, from) && |to| < |from|
    ensures |t| < |s| && exists a, b :: Rewrites(s, t, a, from, to, b)
  {
    FindIsFirst(s, from, 0);
    var i := Find(s, from, 0).value;
    var a, b := s[..i], s[i + |from|..];
    t := a + (to + b);
    assert s == a + (from + b);
    assert Rewrites(s, t, a, from, to, b);
  }

  /** From a text that is not clean there is a step. */
  lemma StepExists(s: string) returns (t: string)
    requires !Clean(s)
    ensures TrimStep(s, t) && |t| < |s|
  {
    if s != "" && s[0] == '0' {
      t := s[1..];
    } else if Contains(s, ":0") {
      t := StepFromOccurrence(s, ":0", ":");
    } else {
      t := StepFromOccurrence(s, ":::", "::");
    }
  }

  /** The steps lead from every text to a clean one. */
  lemma {:induction false} ChainToClean(s: string) returns (chain: seq<string>)
    ensures IsChain(chain) && chain[0] == s && chain[|chain| - 1] == Swept(s) && Clean(Swept(s))
    decreases |s|
  {
    if Clean(s) {
      chain := [s];
      CleanIsSwept(s);
    } else {
      var t := StepExists(s);
      var rest := ChainToClean(t);
      StepKeepsSwept(s, t);
      chain := [s] + rest;
      forall i | 0 < i < |chain| ensures TrimStep(chain[i - 1], chain[i]) {
        if i > 1 { assert chain[i - 1] == rest[i - 2] && chain[i] == rest[i - 1]; }
      }
    }
  }

  /** A text is left alone if it has two separate "::", or ends with a single colon behind something else. */
  lemma LeftAloneExactly(s: string)
    ensures LeftAlone(s) <==>
            (exists i: nat, j: nat :: i + 2 <= j && OccursAt(s, "::", i) && OccursAt(s, "::", j)) ||
            (|s| >= 2 && s[|s| - 1] == ':' && s[|s| - 2] != ':')
    ensures LeftAlone(s) ==> Trimmed(s) == s
  {
    SeveralDoubleColons(s);
  }

  /** Unless the text is left alone, its trimming is reached by steps. */
  lemma TrimmedIsReached(s: string) returns (chain: seq<string>)
    requires !LeftAlone(s)
    ensures IsChain(chain) && chain[0] == s && chain[|chain| - 1] == Trimmed(s) && Clean(Trimmed(s))
  {
    chain := ChainToClean(s);
  }

  /** And no other clean text is: however the steps are chosen, they end there. */
  lemma TrimmedIsTheOnlyEnd(chain: seq<string>)
    requires IsChain(chain) && !LeftAlone(chain[0]) && Clean(chain[|chain| - 1])
    ensures chain[|chain| - 1] == Trimmed(chain[0])
  {
    ChainKeepsSwept(chain);
    CleanIsSwept(chain[|chain| - 1]);
  }

  /** A clean text is its own trimming. */
  lemma CleanStays(s: string)
    requires Clean(s)
    ensures Trimmed(s) == s
  {
    CleanIsSwept(s);
  }

  lemma LoopbackStays()
    ensures Trimmed("::1") == "::1"
  {
    var s := "::1";
    ZeroBlockOccurs(s);
    TripleOccurs(s);
    CleanStays(s);
  }
}
