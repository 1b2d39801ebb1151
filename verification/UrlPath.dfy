/**
 Path segments and their normalisation. Compared with section 5.2.4 of RFC 3986 the code drops empty
 segments and keeps a leading ".." of a URL without a scheme even behind a leading slash.
 */
module UrlPath {
  import opened Text
  import opened Wrappers

  // ------------------------------------------------------------------ segments

  /** The segments found from here on, when `seg` has been collected of the current one. */
  function Collect(seg: string, path: string): seq<string>
    decreases |path|
  {
    if path == "" then Finished(seg)
    else if path[0] == '/' then Finished(seg) + Collect("", path[1..])
    else Collect(seg + [path[0]], path[1..])
  }

  function Finished(seg: string): seq<string> {
    if seg == "" then [] else [seg]
  }

  function Segments(path: string): seq<string> {
    Collect("", path)
  }

  method GetPathSegments(path: string) returns (segments: seq<string>)
    ensures segments == Segments(path)
  {
    segments := [];
    var seg, it := "", 0;
    assert path[0..] == path;
    while it != |path|
      invariant it <= |path|
      invariant Segments(path) == segments + Collect(seg, path[it..])
      decreases |path| - it
    {
      assert path[it..][1..] == path[it + 1..];
      if path[it] == '/' {
        if seg != "" {
          segments := segments + [seg];
          seg := "";
        }
      } else {
        seg := seg + [path[it]];
      }
      it := it + 1;
    }
    if seg != "" {
      segments := segments + [seg];
    }
  }

  predicate IsSegment(s: string) {
    s != "" && Free(s, {'/'})
  }

  predicate AreSegments(segs: seq<string>) {
    forall i :: 0 <= i < |segs| ==> IsSegment(segs[i])
  }

  lemma {:induction false} CollectFindsSegments(seg: string, path: string)
    requires Free(seg, {'/'})
    ensures AreSegments(Collect(seg, path))
    decreases |path|
  {
    if path != "" {
      if path[0] == '/' {
        CollectFindsSegments("", path[1..]);
      } else {
        CollectFindsSegments(seg + [path[0]], path[1..]);
      }
    }
  }

  lemma {:induction false} CollectOver(seg: string, text: string, path: string)
    requires Free(text, {'/'})
    ensures Collect(seg, text + path) == Collect(seg + text, path)
    decreases |text|
  {
    if text == "" {
      assert text + path == path && seg + text == seg;
    } else {
      assert (text + path)[1..] == text[1..] + path;
      CollectOver(seg + [text[0]], text[1..], path);
      assert seg + [text[0]] + text[1..] == seg + text;
    }
  }

  // ------------------------------------------------------------------ normalisation

  /** One step of the stack loop; at the root of an absolute URL there is nothing above. */
  function Push(stack: seq<string>, s: string, absolute: bool): seq<string> {
    if s == ".." then
      if stack != [] then
        if stack[|stack| - 1] == ".." then stack + [s] else stack[..|stack| - 1]
      else if !absolute then [s] else []
    else if s != "." then stack + [s]
    else stack
  }

  function Reduce(stack: seq<string>, segs: seq<string>, absolute: bool): seq<string>
    decreases |segs|
  {
    if segs == [] then stack else Reduce(Push(stack, segs[0], absolute), segs[1..], absolute)
  }

  function Normalized(segs: seq<string>, absolute: bool): seq<string> {
    Reduce([], segs, absolute)
  }

  function Join(segs: seq<string>): string {
    if segs == [] then "" else if |segs| == 1 then segs[0] else segs[0] + "/" + Join(segs[1..])
  }

  /** "./" keeps a first segment with a colon from reading as a scheme (section 4.2 of RFC 3986). */
  function Lead(segs: seq<string>, leadingSlash: bool, relative: bool): string {
    if segs == [] then ""
    else if leadingSlash then "/"
    else if relative && ':' in segs[0] then "./"
    else ""
  }

  function BuiltPath(segs: seq<string>, leadingSlash: bool, trailingSlash: bool, relative: bool): string {
    Lead(segs, leadingSlash, relative) + Join(segs) + if trailingSlash then "/" else ""
  }

  function NormalizedPath(path: string, relative: bool): string {
    if path == "" then ""
    else BuiltPath(Normalized(Segments(path), !relative), path[0] == '/', path[|path| - 1] == '/', relative)
  }

  method NormalizeSegments(segments: seq<string>, removeLeading: bool) returns (normalized: seq<string>)
    ensures normalized == Normalized(segments, removeLeading)
  {
    normalized := [];
    assert segments[0..] == segments;
    for i := 0 to |segments|
      invariant Reduce(normalized, segments[i..], removeLeading) == Normalized(segments, removeLeading)
    {
      var s := segments[i];
      assert segments[i..][1..] == segments[i + 1..];
      if s == ".." {
        if normalized != [] {
          if normalized[|normalized| - 1] == ".." {
            normalized := normalized + [s];
          } else {
            normalized := normalized[..|normalized| - 1];
          }
        } else if !removeLeading {
          normalized := normalized + [s];
          assert normalized == [s];
        }
      } else if s != "." {
        normalized := normalized + [s];
      }
    }
  }

  method BuildPath(segments: seq<string>, leadingSlash: bool, trailingSlash: bool, relative: bool)
    returns (path: string)
    ensures path == BuiltPath(segments, leadingSlash, trailingSlash, relative)
  {
    path := "";
    var first := true;
    for i := 0 to |segments|
      invariant first == (i == 0)
      invariant path == Begun(segments, i, leadingSlash, relative)
    {
      var s := segments[i];
      OneSegmentMore(segments, i, leadingSlash, relative);
      if first {
        first := false;
        if leadingSlash {
          path := path + "/";
        } else if relative && ':' in s {
          path := path + "./";
        }
      } else {
        path := path + "/";
      }
      path := path + s;
    }
    assert segments[..|segments|] == segments;
    AllBegun(segments, leadingSlash, relative);
    if trailingSlash {
      path := path + "/";
    }
  }

  /** The path built from the first `i` segments. */
  function Begun(segments: seq<string>, i: nat, leadingSlash: bool, relative: bool): string
    requires i <= |segments|
  {
    if i == 0 then "" else Lead(segments, leadingSlash, relative) + Join(segments[..i])
  }

  lemma OneSegmentMore(segments: seq<string>, i: nat, leadingSlash: bool, relative: bool)
    requires i < |segments|
    ensures Begun(segments, i + 1, leadingSlash, relative) ==
            (if i == 0 then Lead(segments, leadingSlash, relative)
             else Begun(segments, i, leadingSlash, relative) + "/") + segments[i]
  {
    assert segments[..i + 1] == segments[..i] + [segments[i]];
    JoinSnoc(segments[..i], segments[i]);
    SlashBetween(Lead(segments, leadingSlash, relative), Join(segments[..i]), segments[i]);
  }

  lemma SlashBetween(lead: string, front: string, s: string)
    ensures lead + (front + "/" + s) == (lead + front) + "/" + s
  {
  }

  lemma AllBegun(segments: seq<string>, leadingSlash: bool, relative: bool)
    ensures Begun(segments, |segments|, leadingSlash, relative) ==
            Lead(segments, leadingSlash, relative) + Join(segments)
  {
    assert segments[..|segments|] == segments;
    assert Join([]) == "" && "" + "" == "";
  }

  lemma {:induction false} JoinSnoc(segs: seq<string>, s: string)
    ensures Join(segs + [s]) == if segs == [] then s else Join(segs) + "/" + s
  {
    if |segs| > 0 {
      assert (segs + [s])[1..] == segs[1..] + [s];
      JoinSnoc(segs[1..], s);
    }
  }

  // ------------------------------------------------------------------ ASCII paths stay ASCII

  predicate AllAscii(segs: seq<string>) {
    forall i :: 0 <= i < |segs| ==> Ascii(segs[i])
  }

  lemma {:induction false} CollectAscii(seg: string, path: string)
    requires Ascii(seg) && Ascii(path)
    ensures AllAscii(Collect(seg, path))
    decreases |path|
  {
    if path != "" {
      if path[0] == '/' { CollectAscii("", path[1..]); } else { CollectAscii(seg + [path[0]], path[1..]); }
    }
  }

  lemma {:induction false} ReduceAscii(stack: seq<string>, segs: seq<string>, absolute: bool)
    requires AllAscii(stack) && AllAscii(segs)
    ensures AllAscii(Reduce(stack, segs, absolute))
    decreases |segs|
  {
    if segs != [] { ReduceAscii(Push(stack, segs[0], absolute), segs[1..], absolute); }
  }

  lemma {:induction false} JoinAscii(segs: seq<string>)
    requires AllAscii(segs)
    ensures Ascii(Join(segs))
  {
    if |segs| > 1 { JoinAscii(segs[1..]); }
  }

  lemma NormalizedPathIsAscii(path: string, relative: bool)
    requires Ascii(path)
    ensures Ascii(NormalizedPath(path, relative))
  {
    CollectAscii("", path);
    ReduceAscii([], Segments(path), !relative);
    JoinAscii(Normalized(Segments(path), !relative));
  }

  // ------------------------------------------------------------------ the shape of normalised segments

  /** A run of ".." followed by ordinary segments, without "."; for an absolute URL no ".." either. */
  predicate Normal(segs: seq<string>, absolute: bool) {
    && AreSegments(segs)
    && (forall i :: 0 <= i < |segs| ==> segs[i] != ".")
    && (forall i, j :: 0 <= i < j < |segs| && segs[j] == ".." ==> segs[i] == "..")
    && (absolute ==> forall i :: 0 <= i < |segs| ==> segs[i] != "..")
  }

  lemma {:induction false} ReduceIsNormal(stack: seq<string>, segs: seq<string>, absolute: bool)
    requires Normal(stack, absolute) && AreSegments(segs)
    ensures Normal(Reduce(stack, segs, absolute), absolute)
    decreases |segs|
  {
    if segs != [] {
      var next := Push(stack, segs[0], absolute);
      assert IsSegment(segs[0]);
      assert Normal(next, absolute);
      ReduceIsNormal(next, segs[1..], absolute);
    }
  }

  /** Pushing normal segments onto what they extend is appending them. */
  lemma {:induction false} ReduceNormal(stack: seq<string>, segs: seq<string>, absolute: bool)
    requires Normal(stack + segs, absolute)
    ensures Reduce(stack, segs, absolute) == stack + segs
    decreases |segs|
  {
    if segs == [] {
      assert stack + segs == stack;
    } else {
      var all := stack + segs;
      assert all[|stack|] == segs[0];
      if stack != [] && segs[0] == ".." { assert all[|stack| - 1] == ".."; }
      assert Push(stack, segs[0], absolute) == stack + [segs[0]];
      assert stack + [segs[0]] + segs[1..] == all;
      ReduceNormal(stack + [segs[0]], segs[1..], absolute);
    }
  }

  // ------------------------------------------------------------------ what a path means

  /** Entering one segment from a directory, given as the names from the root down. */
  function Move(dir: seq<string>, s: string): seq<string> {
    if s == "." then dir
    else if s == ".." then (if dir == [] then [] else dir[..|dir| - 1])
    else dir + [s]
  }

  function Walk(dir: seq<string>, segs: seq<string>): seq<string> {
    if segs == [] then dir else Move(Walk(dir, segs[..|segs| - 1]), segs[|segs| - 1])
  }

  lemma WalkSnoc(dir: seq<string>, segs: seq<string>, s: string)
    ensures Walk(dir, segs + [s]) == Move(Walk(dir, segs), s)
  {
    assert (segs + [s])[..|segs|] == segs;
  }

  lemma PushIsMove(dir: seq<string>, stack: seq<string>, s: string, absolute: bool)
    requires Normal(stack, absolute) && (absolute ==> dir == [])
    ensures Walk(dir, Push(stack, s, absolute)) == Move(Walk(dir, stack), s)
  {
    if s == ".." && stack != [] && stack[|stack| - 1] != ".." {
      var below := Walk(dir, stack[..|stack| - 1]);
      assert Walk(dir, stack) == below + [stack[|stack| - 1]];
      assert (below + [stack[|stack| - 1]])[..|below|] == below;
    } else if s == ".." && stack == [] && !absolute {
      WalkSnoc(dir, [], s);
      assert [] + [s] == [s];
    } else if s != "." {
      WalkSnoc(dir, stack, s);
    }
  }

  lemma {:induction false} WalkConcat(dir: seq<string>, a: seq<string>, b: seq<string>)
    ensures Walk(dir, a + b) == Walk(Walk(dir, a), b)
    decreases |b|
  {
    if b == [] {
      assert a + b == a;
    } else {
      var c := b[..|b| - 1];
      assert a + b == (a + c) + [b[|b| - 1]];
      WalkSnoc(dir, a + c, b[|b| - 1]);
      WalkConcat(dir, a, c);
    }
  }

  lemma {:induction false} ReduceWalksAlike(dir: seq<string>, stack: seq<string>, segs: seq<string>, absolute: bool)
    requires Normal(stack, absolute) && AreSegments(segs) && (absolute ==> dir == [])
    ensures Walk(dir, Reduce(stack, segs, absolute)) == Walk(Walk(dir, stack), segs)
    decreases |segs|
  {
    if segs != [] {
      var next := Push(stack, segs[0], absolute);
      ReduceIsNormal(stack, [segs[0]], absolute);
      assert Reduce(stack, [segs[0]], absolute) == next;
      PushIsMove(dir, stack, segs[0], absolute);
      ReduceWalksAlike(dir, next, segs[1..], absolute);
      WalkConcat(Walk(dir, stack), [segs[0]], segs[1..]);
      WalkSnoc(Walk(dir, stack), [], segs[0]);
      assert [] + [segs[0]] == [segs[0]] && [segs[0]] + segs[1..] == segs;
    }
  }

  /**
   Walking the normalised segments ends where walking the original ones does: from every directory
   for a relative URL, from the root for an absolute one.
   */
  lemma NormalizedWalksAlike(dir: seq<string>, path: string, absolute: bool)
    requires absolute ==> dir == []
    ensures Walk(dir, Normalized(Segments(path), absolute)) == Walk(dir, Segments(path))
    ensures Normal(Normalized(Segments(path), absolute), absolute)
  {
    CollectFindsSegments("", path);
    ReduceWalksAlike(dir, [], Segments(path), absolute);
    ReduceIsNormal([], Segments(path), absolute);
  }

  // ------------------------------------------------------------------ the rebuilt path

  /** Reading on behind a complete segment. */
  lemma SegmentThenSlash(s: string, rest: string)
    requires IsSegment(s)
    ensures Segments(s + ("/" + rest)) == [s] + Segments(rest)
  {
    CollectOver("", s, "/" + rest);
    assert "" + s == s && ("/" + rest)[1..] == rest;
  }

  lemma LoneSegment(s: string)
    requires IsSegment(s)
    ensures Segments(s) == [s] && Segments(s + "/") == [s]
  {
    CollectOver("", s, "");
    assert s + "" == s && "" + s == s;
    SegmentThenSlash(s, "");
    assert "/" + "" == "/";
  }

  lemma {:induction false} SegmentsOfJoin(segs: seq<string>, trailingSlash: bool)
    requires AreSegments(segs)
    ensures Segments(Join(segs) + if trailingSlash then "/" else "") == segs
  {
    var tail := if trailingSlash then "/" else "";
    if segs == [] {
      assert Join(segs) + tail == tail;
      assert Segments("/") == Collect("", "/"[1..]);
    } else {
      assert IsSegment(segs[0]);
      if |segs| == 1 {
        LoneSegment(segs[0]);
        assert segs[0] + "" == segs[0];
      } else {
        SegmentsOfJoin(segs[1..], trailingSlash);
        SegmentThenSlash(segs[0], Join(segs[1..]) + tail);
        assert Join(segs) + tail == segs[0] + ("/" + (Join(segs[1..]) + tail));
      }
    }
  }

  /** The rebuilt path has the segments it was built from, behind a "." if a colon had to be guarded. */
  lemma SegmentsOfBuilt(segs: seq<string>, leadingSlash: bool, trailingSlash: bool, relative: bool)
    requires AreSegments(segs)
    ensures Segments(BuiltPath(segs, leadingSlash, trailingSlash, relative))
         == (if Lead(segs, leadingSlash, relative) == "./" then ["."] else []) + segs
  {
    var body := Join(segs) + if trailingSlash then "/" else "";
    SegmentsOfJoin(segs, trailingSlash);
    var lead := Lead(segs, leadingSlash, relative);
    assert BuiltPath(segs, leadingSlash, trailingSlash, relative) == lead + body;
    if lead == "./" {
      SegmentThenSlash(".", body);
      assert lead + body == "." + ("/" + body);
    } else if lead == "/" {
      assert (lead + body)[1..] == body;
      assert [] + segs == segs;
    } else {
      assert lead + body == body && [] + segs == segs;
    }
  }

  lemma BuiltEnds(segs: seq<string>, leadingSlash: bool, trailingSlash: bool, relative: bool)
    requires AreSegments(segs)
    ensures var p := BuiltPath(segs, leadingSlash, trailingSlash, relative);
            if segs == [] then p == (if trailingSlash then "/" else "")
            else p != "" && (p[0] == '/' <==> leadingSlash) && (p[|p| - 1] == '/' <==> trailingSlash)
  {
    if segs != [] {
      assert IsSegment(segs[0]) && IsSegment(segs[|segs| - 1]);
      JoinEnds(segs);
    }
  }

  lemma {:induction false} JoinEnds(segs: seq<string>)
    requires AreSegments(segs) && segs != []
    ensures Join(segs) != "" && Join(segs)[0] == segs[0][0] && Join(segs)[|Join(segs)| - 1] != '/'
  {
    assert IsSegment(segs[0]);
    if |segs| > 1 {
      JoinEnds(segs[1..]);
    } else {
      assert segs[0][|segs[0]| - 1] !in {'/'};
    }
  }

  lemma SlashAlone()
    ensures Segments("/") == [] && forall relative: bool :: NormalizedPath("/", relative) == "/"
  {
    assert Segments("/") == Collect("", "/"[1..]);
  }

  /** Reading a rebuilt path and reducing it again gives the segments it was built from. */
  lemma Renormalized(segs: seq<string>, leadingSlash: bool, trailingSlash: bool, relative: bool)
    requires Normal(segs, !relative)
    ensures Normalized(Segments(BuiltPath(segs, leadingSlash, trailingSlash, relative)), !relative) == segs
  {
    SegmentsOfBuilt(segs, leadingSlash, trailingSlash, relative);
    assert [] + segs == segs;
    ReduceNormal([], segs, !relative);
    if Lead(segs, leadingSlash, relative) == "./" {
      assert (["."] + segs)[1..] == segs;
    }
  }

  /** Normalising twice changes nothing more. */
  lemma NormalizedPathIsStable(path: string, relative: bool)
    ensures NormalizedPath(NormalizedPath(path, relative), relative) == NormalizedPath(path, relative)
  {
    if path != "" {
      var segs := Normalized(Segments(path), !relative);
      var leading, trailing := path[0] == '/', path[|path| - 1] == '/';
      NormalizedWalksAlike([], path, !relative);
      SlashAlone();
      if segs != [] {
        Renormalized(segs, leading, trailing, relative);
      }
      BuiltEnds(segs, leading, trailing, relative);
    }
  }

  /** The directory a path denotes: a relative URL without a leading slash starts from `base`. */
  function Meaning(path: string, relative: bool, base: seq<string>): seq<string> {
    Walk(if relative && (path == "" || path[0] != '/') then base else [], Segments(path))
  }

  /** How far below its start a walk ends; nothing if it ever goes above it. */
  function Depth(segs: seq<string>): Option<nat> {
    if segs == [] then Some(0)
    else
      match Depth(segs[..|segs| - 1])
      case None => None
      case Some(d) =>
        var s := segs[|segs| - 1];
        if s == "." then Some(d) else if s != ".." then Some(d + 1) else if d > 0 then Some(d - 1) else None
  }

  lemma {:induction false} ReduceSnoc(stack: seq<string>, segs: seq<string>, s: string, absolute: bool)
    ensures Reduce(stack, segs + [s], absolute) == Push(Reduce(stack, segs, absolute), s, absolute)
    decreases |segs|
  {
    if segs == [] {
      assert [] + [s] == [s];
    } else {
      assert (segs + [s])[1..] == segs[1..] + [s];
      ReduceSnoc(Push(stack, segs[0], absolute), segs[1..], s, absolute);
    }
  }

  predicate NoneIsUp(stack: seq<string>) {
    forall i :: 0 <= i < |stack| ==> stack[i] != ".."
  }

  /** Without going above its start, a walk leaves a stack of its depth; otherwise ".." stays in front. */
  lemma {:induction false} DepthOfStack(segs: seq<string>)
    ensures var stack := Normalized(segs, false);
            match Depth(segs)
            case Some(d) => |stack| == d && NoneIsUp(stack)
            case None => stack != [] && stack[0] == ".."
  {
    if segs != [] {
      var front, s := segs[..|segs| - 1], segs[|segs| - 1];
      assert segs == front + [s];
      DepthOfStack(front);
      ReduceSnoc([], front, s, false);
    }
  }

  /** Segments cancel out entirely exactly when the walk returns to its start without going above it. */
  lemma CancelsExactlyAtDepthZero(segs: seq<string>)
    ensures Normalized(segs, false) == [] <==> Depth(segs) == Some(0)
  {
    DepthOfStack(segs);
  }

  /** The walk returns to its start without going above it, and exactly one end of the path is a slash. */
  predicate LosesItsRoot(path: string, relative: bool) {
    && relative && path != ""
    && Depth(Segments(path)) == Some(0)
    && (path[0] == '/') != (path[|path| - 1] == '/')
  }

  lemma MeaningOfBuilt(segs: seq<string>, leading: bool, trailing: bool, relative: bool, base: seq<string>)
    requires AreSegments(segs) && segs != []
    ensures Meaning(BuiltPath(segs, leading, trailing, relative), relative, base)
         == Walk(if relative && !leading then base else [], segs)
  {
    var start := if relative && !leading then base else [];
    BuiltEnds(segs, leading, trailing, relative);
    SegmentsOfBuilt(segs, leading, trailing, relative);
    assert [] + segs == segs;
    if Lead(segs, leading, relative) == "./" {
      WalkConcat(start, ["."], segs);
      assert Walk(start, ["."]) == start;
    }
  }

  /** What a normalised path denotes, in the two cases. */
  lemma MeaningOfNormalized(path: string, relative: bool, base: seq<string>)
    requires path != ""
    ensures !LosesItsRoot(path, relative) ==>
              Meaning(NormalizedPath(path, relative), relative, base) == Meaning(path, relative, base)
    ensures LosesItsRoot(path, relative) ==>
              Meaning(NormalizedPath(path, relative), relative, base) == (if path[0] == '/' then base else []) &&
              Meaning(path, relative, base) == if path[0] == '/' then [] else base
  {
    var segs := Normalized(Segments(path), !relative);
    var leading, trailing := path[0] == '/', path[|path| - 1] == '/';
    NormalizedWalksAlike(if relative && !leading then base else [], path, !relative);
    if relative { CancelsExactlyAtDepthZero(Segments(path)); }
    if segs == [] {
      BuiltEnds(segs, leading, trailing, relative);
      SlashAlone();
    } else {
      MeaningOfBuilt(segs, leading, trailing, relative, base);
    }
  }

  /**
   Normalising a path keeps what it denotes, from every base directory, except in one family: a
   relative URL whose segments all cancel out while it has a slash at one end only. There a leading
   slash is lost ("/a/.." becomes ""), or a trailing one ends up in front ("a/../" becomes "/").
   */
  lemma NormalizePreservesMeaning(path: string, relative: bool)
    ensures (forall base: seq<string> ::
              Meaning(NormalizedPath(path, relative), relative, base) == Meaning(path, relative, base))
       <==> !LosesItsRoot(path, relative)
  {
    if path != "" {
      forall base: seq<string>
        ensures LosesItsRoot(path, relative) ||
                Meaning(NormalizedPath(path, relative), relative, base) == Meaning(path, relative, base)
      {
        MeaningOfNormalized(path, relative, base);
      }
      MeaningOfNormalized(path, relative, ["a"]);
    }
  }

  /** Two members of the exceptional family. */
  lemma RootIsLost()
    ensures LosesItsRoot("/.", true) && NormalizedPath("/.", true) == ""
    ensures LosesItsRoot("./", true) && NormalizedPath("./", true) == "/"
  {
    LoneSegment(".");
    assert "/."[1..] == "." && "." + "/" == "./";
    assert Segments("/.") == Segments(".") == ["."] == Segments("./");
    assert Normalized(["."], false) == [] && ["."][..0] == [];
  }

  // ------------------------------------------------------------------ what segments and rebuilt paths are

  lemma {:induction false} CollectSplits(seg: string, a: string, b: string)
    ensures Collect(seg, a + ("/" + b)) == Collect(seg, a) + Collect("", b)
    decreases |a|
  {
    if a == "" {
      assert "" + ("/" + b) == "/" + b && ("/" + b)[1..] == b;
    } else {
      assert (a + ("/" + b))[1..] == a[1..] + ("/" + b);
      if a[0] == '/' {
        CollectSplits("", a[1..], b);
        var front, back := Collect("", a[1..]), Collect("", b);
        assert Finished(seg) + (front + back) == (Finished(seg) + front) + back;
      } else {
        CollectSplits(seg + [a[0]], a[1..], b);
      }
    }
  }

  /** A slash separates, a text without one is a segment, and nothing is none: this is all segments are. */
  lemma SegmentsSplitAtSlashes(a: string, b: string)
    ensures Segments(a + ("/" + b)) == Segments(a) + Segments(b)
    ensures Free(a, {'/'}) ==> Segments(a) == if a == "" then [] else [a]
  {
    CollectSplits("", a, b);
    if Free(a, {'/'}) && a != "" { LoneSegment(a); }
  }

  /** A path of normal segments, guarded if its first segment has a colon and no slash in front, is left as it is. */
  lemma CanonicalPathIsFixed(segs: seq<string>, leading: bool, trailing: bool, relative: bool)
    requires segs != [] && Normal(segs, !relative)
    ensures var path := (if leading then "/" else if relative && ':' in segs[0] then "./" else "")
                        + Join(segs) + (if trailing then "/" else "");
            NormalizedPath(path, relative) == path
  {
    var path := BuiltPath(segs, leading, trailing, relative);
    BuiltEnds(segs, leading, trailing, relative);
    Renormalized(segs, leading, trailing, relative);
  }

  /** Every path whose segments do not all cancel out becomes such a path, with the slashes it had at its ends. */
  lemma NormalizedIsCanonical(path: string, relative: bool)
    requires Normalized(Segments(path), !relative) != []
    ensures var segs := Normalized(Segments(path), !relative);
            Normal(segs, !relative) && path != "" &&
            NormalizedPath(path, relative) ==
            (if path[0] == '/' then "/" else if relative && ':' in segs[0] then "./" else "")
            + Join(segs) + (if path[|path| - 1] == '/' then "/" else "")
  {
    NormalizedWalksAlike([], path, !relative);
  }
}
