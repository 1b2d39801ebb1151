/** Well-formedness is not only enough for printing and parsing to cancel out: it is what they need. */
module UrlExactness {
  import opened Wrappers
  import opened Text
  import opened UrlCodec
  import opened UrlSyntax
  import opened UrlRoundTrip

  predicate RoundTrips(u: UrlValue) {
    Parse(ToString(u)).Ok? && Equals(Parse(ToString(u)).value, u)
  }

  // ------------------------------------------------------------------ what parsing can produce

  lemma TailIsTail(u: UrlValue)
    ensures Tail(u) == "" || Tail(u)[0] in PATH_STOPS
  {
  }

  /** Path, query and fragment are read without touching the rest, and the query ends before any '#'. */
  lemma ReadsOnlyItsParts(v: UrlValue, s: string)
    requires v.query == ""
    ensures var w := ParsePathQueryFragment(v, s);
            w.scheme == v.scheme && w.userInfo == v.userInfo && w.host == v.host && w.port == v.port &&
            Free(w.query, {'#'})
  {
    var rest := s[Span(s, PATH_STOPS)..];
    if rest != "" && rest[0] == '?' {
      SpanIsFree(rest[1..], {'#'});
    }
  }

  /** The path read from encoded text is the path that was encoded. */
  lemma ReadsThePath(v: UrlValue, path: string, tail: string)
    requires Ascii(path) && v.path == "" && (tail == "" || tail[0] in PATH_STOPS)
    ensures ParsePathQueryFragment(v, Encode(path, RESERVED_PATH) + tail).path == path
  {
    EncodedPathIsFree(path);
    EncodeEmptyOnly(path, RESERVED_PATH);
    DecodeUndoesEncode(path, RESERVED_PATH, false);
    SpanOver(Encode(path, RESERVED_PATH), tail, PATH_STOPS);
  }

  lemma PrintedSegmentIsFree(cut: string)
    requires Free(cut, {'/'})
    ensures Free(Encode(cut, RESERVED_PATH), AUTHORITY_STOPS)
  {
    var auth := Encode(cut, RESERVED_PATH);
    EncodeFree(cut, {'/'}, RESERVED_PATH);
    EncodedPathIsFree(cut);
    forall i | 0 <= i < |auth| ensures auth[i] !in AUTHORITY_STOPS {
      assert auth[i] !in {'/'} && auth[i] !in PATH_STOPS;
    }
  }

  lemma CutText(cut: string, kept: string, tail: string)
    requires (tail == "" || tail[0] in PATH_STOPS) && (kept == "" || kept[0] == '/')
    ensures var rest := Encode(kept, RESERVED_PATH) + tail;
            (rest == "" || rest[0] in AUTHORITY_STOPS) &&
            "//" + (Encode(cut + kept, RESERVED_PATH) + tail) == ("//" + Encode(cut, RESERVED_PATH)) + rest
  {
    EncodeConcat(cut, kept, RESERVED_PATH);
    Regroup("//", Encode(cut, RESERVED_PATH), Encode(kept, RESERVED_PATH), tail);
    if kept != "" { SlashPrints(kept); }
  }

  lemma Regroup(a: string, b: string, c: string, d: string)
    ensures a + ((b + c) + d) == (a + b) + (c + d)
  {
  }

  lemma CutReads(v: UrlValue, auth: string, kept: string, tail: string)
    requires Ascii(kept) && v.path == "" && (tail == "" || tail[0] in PATH_STOPS) && Free(auth, AUTHORITY_STOPS)
    requires var rest := Encode(kept, RESERVED_PATH) + tail; rest == "" || rest[0] in AUTHORITY_STOPS
    ensures var r := ParseHierarchy(v, ("//" + auth) + (Encode(kept, RESERVED_PATH) + tail));
            r.Ok? ==> r.value.path == kept
  {
    AuthorityIsCutOut(v, auth, Encode(kept, RESERVED_PATH) + tail);
    var r := ParseAuthority(v, auth);
    if r.Ok? {
      AuthorityKeepsPath(v, auth);
      ReadsThePath(r.value, kept, tail);
    }
  }

  /** An authority cut out of a printed path takes the path's beginning with it. */
  lemma CutLosesPath(v: UrlValue, cut: string, kept: string, tail: string)
    requires Ascii(kept) && v.path == "" && (tail == "" || tail[0] in PATH_STOPS)
    requires Free(cut, {'/'}) && (kept == "" || kept[0] == '/')
    ensures var r := ParseHierarchy(v, "//" + (Encode(cut + kept, RESERVED_PATH) + tail));
            r.Ok? ==> r.value.path == kept
  {
    PrintedSegmentIsFree(cut);
    CutText(cut, kept, tail);
    CutReads(v, Encode(cut, RESERVED_PATH), kept, tail);
  }

  /** So a path printed where an authority is expected does not come back unless it starts with a slash. */
  lemma UnrootedPathIsLost(v: UrlValue, path: string, tail: string)
    requires Ascii(path) && v.path == "" && (tail == "" || tail[0] in PATH_STOPS)
    ensures var r := ParseHierarchy(v, "//" + (Encode(path, RESERVED_PATH) + tail));
            r.Ok? ==> |r.value.path| <= |path| && (path != "" && path[0] != '/' ==> |r.value.path| < |path|)
  {
    var j := Span(path, {'/'});
    CutAtSlash(path, j);
    CutShortens(v, path, path[..j], path[j..], tail);
  }

  lemma CutAtSlash(path: string, j: nat)
    requires j == Span(path, {'/'})
    ensures path == path[..j] + path[j..] && Free(path[..j], {'/'}) && (path[j..] == "" || path[j..][0] == '/')
    ensures path != "" && path[0] != '/' ==> j > 0
  {
    SpanIsFree(path, {'/'});
  }

  lemma CutShortens(v: UrlValue, path: string, cut: string, kept: string, tail: string)
    requires Ascii(path) && v.path == "" && (tail == "" || tail[0] in PATH_STOPS) && path == cut + kept
    requires Free(cut, {'/'}) && (kept == "" || kept[0] == '/')
    ensures var r := ParseHierarchy(v, "//" + (Encode(path, RESERVED_PATH) + tail)); r.Ok? ==> |r.value.path| == |kept|
  {
    assert Ascii(kept) by {
      forall i | 0 <= i < |kept| ensures kept[i] < 128 as char { assert kept[i] == path[|cut| + i]; }
    }
    CutLosesPath(v, cut, kept, tail);
  }

  lemma AuthorityKeepsPath(v: UrlValue, auth: string)
    ensures ParseAuthority(v, auth).Ok? ==>
              var w := ParseAuthority(v, auth).value;
              w.path == v.path && w.query == v.query && w.fragment == v.fragment && w.scheme == v.scheme
  {
  }

  lemma {:induction false} SplitIsFree(user: string, auth: string, stops: set<char>)
    requires Free(user, stops + {'@'}) && Free(auth, stops)
    ensures var (u, p) := SplitUser(user, auth); Free(u, stops + {'@'}) && Free(p, stops + {'@'})
    decreases |auth|
  {
    var k := Span(auth, {'@'});
    SpanIsFree(auth, {'@'});
    assert Free(auth[..k], stops + {'@'});
    if k < |auth| {
      SplitIsFree(auth[..k], auth[k + 1..], stops);
    } else {
      assert auth[..k] == auth;
    }
  }

  // ------------------------------------------------------------------ the authority

  lemma FoldKeeps(x: string)
    ensures var h := FoldHost(x);
            |h| == |x| && (h == "" || h[0] == '%' || IsLower(h))
            && forall i :: 0 <= i < |x| ==> (x[i] == ':' <==> h[i] == ':')
  {
    LowerFixes(x);
  }

  lemma WithHostFolds(v: UrlValue, x: string, rest: string)
    ensures WithHost(v, x, rest).Ok? ==> WithHost(v, x, rest).value.host == FoldHost(x)
  {
  }

  /** Behind an opening bracket the address ends at the first closing one, if any. */
  lemma BracketedReads(v: UrlValue, part: string, k: nat)
    requires part != "" && part[0] == '[' && k == Span(part[1..], {']'}) && k < |part| - 1
    ensures ParseHostAndPort(v, part) == WithHost(v, part[1..][..k], part[1..][k + 1..])
  {
  }

  lemma BracketCut(part: string, host: string, rest: string, k: nat)
    requires part == host + ("]" + rest) && k == Span(part, {']'})
    ensures k < |part| && Free(part[..k], {']'}) && (k == |host| ==> part[..k] == host)
  {
    if k > |host| { assert part[..k][|host|] == ']'; }
    SpanIsFree(part, {']'});
  }

  lemma BracketedText(host: string, portText: string)
    ensures var part := "[" + host + "]" + portText; part[0] == '[' && part[1..] == host + ("]" + portText)
  {
  }

  /** A bracketed host only comes back if the bracket that closes it is the first one. */
  lemma BracketedHostExact(v: UrlValue, host: string, portText: string)
    requires var r := ParseHostAndPort(v, "[" + host + "]" + portText); r.Ok? && r.value.host == host
    ensures ']' !in host && (host == "" || host[0] == '%' || IsLower(host))
  {
    var part := "[" + host + "]" + portText;
    var k := Span(part[1..], {']'});
    BracketedText(host, portText);
    BracketCut(part[1..], host, portText, k);
    BracketedReads(v, part, k);
    WithHostFolds(v, part[1..][..k], part[1..][k + 1..]);
    FoldKeeps(part[1..][..k]);
  }

  /** An unbracketed host that starts like a bracketed one comes back cut or not at all. */
  lemma LooksBracketed(v: UrlValue, host: string, portText: string)
    requires ':' !in host && (portText == "" || portText[0] == ':') && host != "" && host[0] == '['
    ensures var r := ParseHostAndPort(v, host + portText); r.Ok? ==> r.value.host != host
  {
    var part := host + portText;
    var k := Span(part[1..], {']'});
    var x := part[1..][..k];
    FoldKeeps(x);
    WithHostFolds(v, x, if k < |part| - 1 then part[1..][k + 1..] else "");
    if k == |host| && k < |part| - 1 {
      assert x[k - 1] == part[k] == portText[0];
      assert FoldHost(x)[k - 1] == ':';
    }
  }

  lemma PlainHostExact(v: UrlValue, host: string, portText: string)
    requires ':' !in host && (portText == "" || portText[0] == ':') && host != ""
    requires var r := ParseHostAndPort(v, host + portText); r.Ok? && r.value.host == host
    ensures host[0] != '[' && (host[0] == '%' || IsLower(host))
  {
    if host[0] == '[' {
      LooksBracketed(v, host, portText);
    } else {
      SpanOver(host, portText, {':'});
      FoldKeeps(host);
      WithHostFolds(v, host, portText);
    }
  }

  lemma HostExact(u: UrlValue, v: UrlValue)
    requires var r := ParseHostAndPort(v, HostText(u) + PortText(u)); r.Ok? && r.value.host == u.host
    ensures HostOk(u.host)
  {
    if ':' in u.host {
      BracketedHostExact(v, u.host, PortText(u));
    } else if u.host != "" {
      PlainHostExact(v, u.host, PortText(u));
    }
  }

  lemma FoldFree(x: string, stops: set<char>)
    requires Free(x, stops) && stops == {'@', '/', '?', '#'}
    ensures Free(FoldHost(x), stops)
  {
  }

  /** Whatever text an authority is read from, user info and host come out without its delimiters. */
  lemma AuthorityRange(v: UrlValue, auth: string)
    requires Free(auth, AUTHORITY_STOPS) && v.host == ""
    ensures ParseAuthority(v, auth).Ok? ==>
              var w := ParseAuthority(v, auth).value;
              Free(w.userInfo, {'@', '/', '?', '#'}) && Free(w.host, {'@', '/', '?', '#'})
  {
    var stops := {'@', '/', '?', '#'};
    assert AUTHORITY_STOPS + {'@'} == stops;
    SplitIsFree("", auth, AUTHORITY_STOPS);
    var part := SplitUser("", auth).1;
    if ParseHostAndPort(v, part).Ok? && part != "" {
      HostRange(v, part, stops);
    }
  }

  lemma HostRange(v: UrlValue, part: string, stops: set<char>)
    requires Free(part, stops) && stops == {'@', '/', '?', '#'} && part != "" && ParseHostAndPort(v, part).Ok?
    ensures Free(ParseHostAndPort(v, part).value.host, stops)
  {
    if part[0] == '[' {
      var k := Span(part[1..], {']'});
      assert Free(part[1..], stops) && Free(part[1..][..k], stops);
      FoldFree(part[1..][..k], stops);
      WithHostFolds(v, part[1..][..k], part[1..][k + 1..]);
    } else {
      var k := Span(part, {':'});
      assert Free(part[..k], stops);
      FoldFree(part[..k], stops);
      WithHostFolds(v, part[..k], part[k..]);
    }
  }

  // ------------------------------------------------------------------ the whole URL

  /** However the text is cut, user info and host come back without delimiters. */
  lemma AuthorityComesBackFree(v: UrlValue, s: string)
    requires v.host == "" && v.query == "" && |s| >= 2 && s[0] == '/' && s[1] == '/' && ParseHierarchy(v, s).Ok?
    ensures DelimiterFree(ParseHierarchy(v, s).value)
  {
    var k := Span(s[2..], AUTHORITY_STOPS);
    var auth := s[2..][..k];
    SpanIsFree(s[2..], AUTHORITY_STOPS);
    AuthorityRange(v, auth);
    AuthorityKeepsPath(v, auth);
    ReadsOnlyItsParts(ParseAuthority(v, auth).value, s[2..][k..]);
  }

  /** Behind an authority, the path only comes back if it is empty before nothing, or rooted. */
  lemma PathExact(u: UrlValue, w: UrlValue)
    requires Ascii(u.path) && w.path == "" && AuthorityText(u) != ""
    requires ParsePathQueryFragment(w, PathText(u) + Tail(u)).path == u.path
    ensures PathOk(u)
  {
    TailIsTail(u);
    SlashEncodes("");
    SlashEncodes(u.path);
    if u.path == "" {
      assert Encode("/" + "", RESERVED_PATH) == "/";
      if u.query != "" || u.fragment != "" { ReadsThePath(w, "/" + "", Tail(u)); }
    } else if u.path[0] != '/' {
      ReadsThePath(w, "/" + u.path, Tail(u));
    }
  }

  lemma SlashEncodes(path: string)
    ensures Encode("/" + path, RESERVED_PATH) == "/" + Encode(path, RESERVED_PATH)
  {
    assert ("/" + path)[1..] == path;
  }

  /** With an authority printed and the text read back, everything behind "scheme:" is well-formed. */
  lemma AuthorityExact(u: UrlValue, v: UrlValue)
    requires Representable(u) && AuthorityText(u) != "" && v == EMPTY.(scheme := u.scheme)
    requires var r := ParseHierarchy(v, Slashes(u) + (PathText(u) + Tail(u))); r.Ok? && Equals(r.value, u)
    ensures AuthorityOk(u) && PathOk(u) && Free(u.query, {'#'})
  {
    var auth, rest := AuthorityText(u), PathText(u) + Tail(u);
    AuthorityComesBackFree(v, ("//" + auth) + rest);
    AuthorityFree(u);
    TailIsTail(u);
    if u.path != "" { SlashPrints(u.path); }
    AuthorityIsCutOut(v, auth, rest);
    AuthorityKeepsPath(v, auth);
    var w := ParseAuthority(v, auth).value;
    ReadsOnlyItsParts(w, rest);
    AuthoritySplits(u);
    HostExact(u, v);
    PathExact(u, w);
  }

  lemma HierarchyRange(v: UrlValue, s: string)
    requires v.query == "" && ParseHierarchy(v, s).Ok?
    ensures var w := ParseHierarchy(v, s).value; w.scheme == v.scheme && Free(w.query, {'#'})
  {
    if |s| >= 2 && s[0] == '/' && s[1] == '/' {
      var k := Span(s[2..], AUTHORITY_STOPS);
      AuthorityKeepsPath(v, s[2..][..k]);
      ReadsOnlyItsParts(ParseAuthority(v, s[2..][..k]).value, s[2..][k..]);
    } else {
      ReadsOnlyItsParts(v, s);
    }
  }

  /** A slash printed for an empty path comes back as a path. */
  lemma SlashComesBack(v: UrlValue, tail: string)
    requires v.path == "" && (tail == "" || tail[0] in PATH_STOPS)
    ensures var r := ParseHierarchy(v, "//" + (Encode("/", RESERVED_PATH) + tail)); r.Ok? ==> r.value.path == "/"
    ensures var r := ParseHierarchy(v, Encode("/", RESERVED_PATH) + tail); r.Ok? ==> r.value.path == "/"
  {
    CutLosesPath(v, "", "/", tail);
    assert "" + "/" == "/";
    SlashEncodes("");
    ReadsThePath(v, "/", tail);
  }

  /** Path, query and fragment as printed without an authority. */
  function BareText(path: string, tail: string): string {
    if path != "" then Encode(path, RESERVED_PATH) + tail
    else if tail != "" then Encode("/", RESERVED_PATH) + tail
    else ""
  }

  lemma PrintsBare(u: UrlValue)
    requires AuthorityText(u) == ""
    ensures PathText(u) + Tail(u) == BareText(u.path, Tail(u))
    ensures Tail(u) == "" <==> u.query == "" && u.fragment == ""
  {
    SlashEncodes("");
    assert "/" + "" == "/";
    BareParts(if u.path == "" then "" else Encode(u.path, RESERVED_PATH), Tail(u));
    TailIsNothing(u);
  }

  lemma BareParts(e: string, tail: string)
    ensures ("" + e) + tail == e + tail && "" + tail == tail
  {
  }

  lemma TailIsNothing(u: UrlValue)
    ensures Tail(u) == "" <==> u.query == "" && u.fragment == ""
  {
  }

  /** Behind an empty authority only a rooted path, or nothing at all, comes back. */
  lemma FileExact(v: UrlValue, path: string, tail: string)
    requires Ascii(path) && v.path == "" && (tail == "" || tail[0] in PATH_STOPS)
    requires var r := ParseHierarchy(v, "//" + BareText(path, tail)); r.Ok? && r.value.path == path
    ensures if path == "" then tail == "" else path[0] == '/'
  {
    if path != "" {
      UnrootedPathIsLost(v, path, tail);
    } else if tail != "" {
      SlashComesBack(v, tail);
    }
  }

  /** Without any authority the path must be there, and must not look like one. */
  lemma BareExact(v: UrlValue, path: string, tail: string)
    requires Ascii(path) && v.path == "" && (tail == "" || tail[0] in PATH_STOPS) && BareText(path, tail) != ""
    requires var r := ParseHierarchy(v, BareText(path, tail)); r.Ok? && r.value.path == path
    ensures path != "" && !(|path| >= 2 && path[0] == '/' && path[1] == '/')
  {
    if path == "" {
      SlashComesBack(v, tail);
    } else if |path| >= 2 && path[0] == '/' && path[1] == '/' {
      DoubleSlashIsLost(v, path, tail);
    }
  }

  lemma Reassociate(e: string, tail: string)
    ensures ("/" + ("/" + e)) + tail == "//" + (e + tail)
  {
  }

  lemma TwoSlashesPrint(path: string, tail: string)
    requires |path| >= 2 && path[0] == '/' && path[1] == '/'
    ensures Encode(path, RESERVED_PATH) + tail == "//" + (Encode(path[2..], RESERVED_PATH) + tail)
  {
    var rest := path[2..];
    assert path == "/" + ("/" + rest);
    SlashEncodes(rest);
    SlashEncodes("/" + rest);
    Reassociate(Encode(rest, RESERVED_PATH), tail);
  }

  lemma DoubleSlashIsLost(v: UrlValue, path: string, tail: string)
    requires Ascii(path) && v.path == "" && (tail == "" || tail[0] in PATH_STOPS)
    requires |path| >= 2 && path[0] == '/' && path[1] == '/'
    ensures var r := ParseHierarchy(v, Encode(path, RESERVED_PATH) + tail); r.Ok? ==> |r.value.path| < |path|
  {
    TwoSlashesPrint(path, tail);
    UnrootedPathIsLost(v, path[2..], tail);
  }

  /** Where a scan for a scheme meets a colon, what precedes it is taken for one. */
  lemma ColonIsAScheme(text: string, rest: string)
    requires Free(text, SCHEME_STOPS) && (text == "" || text[0] != '.')
    ensures ParseInto(EMPTY, text + (":" + rest)) ==
            if rest == "" then Err(NothingAfterScheme) else ParseHierarchy(EMPTY.(scheme := Lower(text)), rest)
  {
    var s := text + (":" + rest);
    SpanOver(text, ":" + rest, SCHEME_STOPS);
    assert s[|text| + 1..] == rest;
    if text != "" { assert s[0] == text[0] && text[0] !in SCHEME_STOPS; }
  }

  /** The text is not scanned for a scheme, or the scan finds none. */
  predicate WithoutScheme(s: string) {
    || s == "" || s[0] == '/' || s[0] == '.' || s[0] == '?' || s[0] == '#'
    || Span(s, SCHEME_STOPS) == |s| || s[Span(s, SCHEME_STOPS)] != ':'
  }

  lemma NoSchemeIsRead(s: string)
    requires WithoutScheme(s)
    ensures Parse(s).Ok? && Parse(s).value.scheme == "" && Parse(s).value.host == ""
  {
    ReadsOnlyItsParts(EMPTY, s);
  }

  lemma CutAtColon(s: string, k: nat)
    requires k < |s| && s[k] == ':'
    ensures s == s[..k] + (":" + s[k + 1..])
  {
  }

  lemma SchemeIsFree(s: string, k: nat)
    requires !WithoutScheme(s) && k == Span(s, SCHEME_STOPS)
    ensures Free(s[..k], SCHEME_STOPS) && (s[..k] == "" || s[..k][0] != '.')
  {
    SpanIsFree(s, SCHEME_STOPS);
  }

  lemma SchemeIsRead(s: string, k: nat)
    requires !WithoutScheme(s) && k == Span(s, SCHEME_STOPS)
    ensures Parse(s) == if k + 1 == |s| then Err(NothingAfterScheme)
                        else ParseHierarchy(EMPTY.(scheme := Lower(s[..k])), s[k + 1..])
  {
    CutAtColon(s, k);
    SchemeIsFree(s, k);
    ColonIsAScheme(s[..k], s[k + 1..]);
  }

  /** A scheme that has been read is the folded text in front of the first stop, a colon with text behind it. */
  lemma SchemeWasRead(s: string, w: UrlValue)
    requires Parse(s) == Ok(w) && w.scheme != ""
    ensures var k := Span(s, SCHEME_STOPS); !WithoutScheme(s) && k + 1 < |s| && w.scheme == Lower(s[..k])
  {
    if WithoutScheme(s) {
      NoSchemeIsRead(s);
    } else {
      var k := Span(s, SCHEME_STOPS);
      SchemeIsRead(s, k);
      if k + 1 < |s| { HierarchyRange(EMPTY.(scheme := Lower(s[..k])), s[k + 1..]); }
    }
  }

  lemma SchemeIsPrefix(scheme: string, rest: string, k: nat)
    requires k < |scheme + (":" + rest)| && Lower((scheme + (":" + rest))[..k]) == scheme
    ensures k == |scheme| && (scheme + (":" + rest))[..k] == scheme && |scheme + (":" + rest)| == k + 1 + |rest|
  {
  }

  /** The scheme that comes back is the one printed, so the scan for it ended where it ends. */
  lemma SchemeExact(u: UrlValue, rest: string)
    requires u.scheme != ""
    requires var r := ParseInto(EMPTY, u.scheme + (":" + rest)); r.Ok? && r.value.scheme == u.scheme
    ensures SchemeOk(u.scheme) && rest != ""
  {
    var s := u.scheme + (":" + rest);
    SchemeWasRead(s, Parse(s).value);
    SchemeIsPrefix(u.scheme, rest, Span(s, SCHEME_STOPS));
    SchemeIsFree(s, Span(s, SCHEME_STOPS));
    LowerFixes(u.scheme);
  }

  lemma AbsoluteExact(u: UrlValue)
    requires Representable(u) && u.scheme != "" && RoundTrips(u)
    ensures WellFormed(u)
  {
    var rest := Slashes(u) + (PathText(u) + Tail(u));
    var v := EMPTY.(scheme := u.scheme);
    SchemeExact(u, rest);
    SchemeIsCutOff(u.scheme, rest);
    HierarchyRange(v, rest);
    if AuthorityText(u) != "" {
      AuthorityExact(u, v);
    } else {
      NothingBeforePath(u);
      NothingPrinted(u);
      PrintsBare(u);
      TailIsTail(u);
      if u.scheme == "file" { FileExact(v, u.path, Tail(u)); } else { BareExact(v, u.path, Tail(u)); }
    }
  }

  lemma NothingPrinted(u: UrlValue)
    requires AuthorityText(u) == ""
    ensures Slashes(u) + (PathText(u) + Tail(u))
         == if u.scheme == "file" then "//" + (PathText(u) + Tail(u)) else PathText(u) + Tail(u)
  {
    assert "//" + "" == "//";
  }

  lemma NoSchemeNoPort()
    ensures DefaultPort("") == 0
  {
    LookupNothing(WELL_KNOWN_PORTS);
  }

  lemma ColonPrints(seg: string, more: string, tail: string)
    requires Free(seg, {':', '/'}) && (tail == "" || tail[0] in PATH_STOPS)
    ensures Encode(seg + (":" + more), RESERVED_PATH) + tail
         == Encode(seg, RESERVED_PATH) + (":" + (Encode(more, RESERVED_PATH) + tail))
  {
    FirstSegmentPrints(seg, ":" + more, tail);
    ColonEncodes(more);
    ColonThenTail(Encode(more, RESERVED_PATH), tail);
  }

  lemma ColonEncodes(more: string)
    ensures Encode(":" + more, RESERVED_PATH) == ":" + Encode(more, RESERVED_PATH)
  {
    assert (":" + more)[1..] == more;
  }

  lemma ColonThenTail(text: string, tail: string)
    ensures (":" + text) + tail == ":" + (text + tail)
  {
  }

  /** A relative path with a colon in its first segment reads back with that segment as its scheme. */
  lemma ColonReadsAsScheme(seg: string, more: string, tail: string)
    requires Ascii(more) && Free(seg, {':', '/'}) && (seg == "" || seg[0] != '.')
    requires tail == "" || tail[0] in PATH_STOPS
    ensures var r := ParseInto(EMPTY, Encode(seg + (":" + more), RESERVED_PATH) + tail);
            r.Ok? ==> r.value.scheme != "" || |r.value.path| <= |more|
  {
    var text, rest := Encode(seg, RESERVED_PATH), Encode(more, RESERVED_PATH) + tail;
    EncodedSegmentIsFree(seg);
    FirstPrintedByte(seg);
    ColonPrints(seg, more, tail);
    ColonIsAScheme(text, rest);
    var v := EMPTY.(scheme := Lower(text));
    if rest != "" && ParseHierarchy(v, rest).Ok? {
      HierarchyRange(v, rest);
      if text == "" { assert v == EMPTY; ColonPathIsLost(more, tail); }
    }
  }

  lemma FirstPrintedByte(seg: string)
    ensures var text := Encode(seg, RESERVED_PATH);
            if seg == "" then text == "" else text != "" && (text[0] == '.' <==> seg[0] == '.')
  {
  }

  /** What follows a leading colon is not the whole path. */
  lemma ColonPathIsLost(path: string, tail: string)
    requires Ascii(path) && (tail == "" || tail[0] in PATH_STOPS)
    ensures var r := ParseHierarchy(EMPTY, Encode(path, RESERVED_PATH) + tail); r.Ok? ==> |r.value.path| <= |path|
  {
    var s := Encode(path, RESERVED_PATH) + tail;
    if |s| >= 2 && s[0] == '/' && s[1] == '/' {
      if path != "" { EncodedStartsWithTwoSlashes(path, tail); }
      DoubleSlashIsLost(EMPTY, path, tail);
    } else {
      ReadsThePath(EMPTY, path, tail);
    }
  }

  lemma RelativePathExact(path: string, tail: string)
    requires Ascii(path) && !RelativePathOk(path) && (tail == "" || tail[0] in PATH_STOPS)
    ensures var r := ParseInto(EMPTY, Encode(path, RESERVED_PATH) + tail);
            r.Ok? ==> r.value.scheme != "" || r.value.path != path
  {
    var k := Span(path, {':', '/'});
    assert path == path[..k] + (":" + path[k + 1..]);
    SpanIsFree(path, {':', '/'});
    ColonReadsAsScheme(path[..k], path[k + 1..], tail);
  }

  lemma RelativeExact(u: UrlValue)
    requires Representable(u) && u.scheme == "" && RoundTrips(u)
    ensures WellFormed(u)
  {
    TailIsTail(u);
    NoSchemeNoPort();
    if !RelativePathOk(u.path) {
      RelativePathExact(u.path, Tail(u));
    } else {
      RelativeReadsAsPath(u.path, Tail(u));
      ReadsOnlyItsParts(EMPTY, Encode(u.path, RESERVED_PATH) + Tail(u));
    }
  }

  /** A URL with a 16-bit port and an ASCII path parses back from its text exactly when it is well-formed. */
  lemma RoundTripsExactlyWhenWellFormed(u: UrlValue)
    requires Representable(u)
    ensures RoundTrips(u) <==> WellFormed(u)
  {
    if WellFormed(u) { PrintedUrlParsesBack(u); }
    if RoundTrips(u) {
      if u.scheme == "" { RelativeExact(u); } else { AbsoluteExact(u); }
    }
  }

  /** A path with a colon in its first segment, the smallest URL that needs normalising before printing. */
  lemma UnguardedPathIsLost()
    ensures !RoundTrips(EMPTY.(path := "a:b"))
  {
    SpanIs("a:b", {':', '/'}, 1);
    RoundTripsExactlyWhenWellFormed(EMPTY.(path := "a:b"));
  }
}
