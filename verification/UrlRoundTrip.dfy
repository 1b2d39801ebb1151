/** Printing a URL and parsing the text: when that gives the same URL back. */
module UrlRoundTrip {
  import opened Wrappers
  import opened Text
  import opened Numbers
  import opened UrlCodec
  import opened UrlPath
  import opened UrlSyntax

  // ------------------------------------------------------------------ well-formed URLs

  /** A scheme that reads back as itself. */
  predicate SchemeOk(scheme: string) {
    scheme != "" && scheme[0] != '.' && IsLower(scheme) && Free(scheme, SCHEME_STOPS)
  }

  predicate HostOk(host: string) {
    && (host == "" || host[0] == '%' || IsLower(host))
    && (if ':' in host then ']' !in host else host == "" || host[0] != '[')
  }

  predicate AuthorityOk(u: UrlValue) {
    DelimiterFree(u) && HostOk(u.host)
  }

  /** No delimiter of the authority stands inside one of its parts. */
  predicate DelimiterFree(u: UrlValue) {
    Free(u.userInfo, {'@', '/', '?', '#'}) && Free(u.host, {'@', '/', '?', '#'})
  }

  /** An absolute URL's path: empty only before nothing, and rooted behind an authority. */
  predicate PathOk(u: UrlValue) {
    if AuthorityText(u) != "" || u.scheme == "file" then
      if u.path == "" then u.query == "" && u.fragment == "" else u.path[0] == '/'
    else
      u.path != "" && !(|u.path| >= 2 && u.path[0] == '/' && u.path[1] == '/')
  }

  /** A relative path whose first segment cannot be taken for a scheme. */
  predicate RelativePathOk(path: string) {
    path == "" || path[0] == '/' || path[0] == '.' || (
      var k := Span(path, {':', '/'});
      k == |path| || path[k] == '/')
  }

  predicate WellFormed(u: UrlValue) {
    && Free(u.query, {'#'})
    && if u.scheme == "" then u.userInfo == "" && u.host == "" && u.port == 0 && RelativePathOk(u.path)
       else SchemeOk(u.scheme) && AuthorityOk(u) && PathOk(u)
  }

  /** What the C++ types and the escaper are defined for: a 16-bit port and an ASCII path. */
  predicate Representable(u: UrlValue) {
    u.port < 65536 && Ascii(u.path)
  }

  // ------------------------------------------------------------------ path, query and fragment

  lemma TailReads(u: UrlValue, v: UrlValue)
    requires Free(u.query, {'#'}) && v.query == "" && v.fragment == ""
    ensures ParseFragment(ParseQuery(v, Tail(u)), AfterQuery(Tail(u))) == v.(query := u.query, fragment := u.fragment)
    ensures Tail(u) == "" || Tail(u)[0] in PATH_STOPS
  {
    var f := if u.fragment == "" then "" else "#" + u.fragment;
    if u.query == "" {
      assert Tail(u) == f;
    } else {
      assert Tail(u)[1..] == u.query + f;
      SpanOver(u.query, f, {'#'});
    }
    if u.fragment != "" { assert f[1..] == u.fragment; }
  }

  /** Encoded path text is free of the bytes that end a path. */
  lemma EncodedPathIsFree(path: string)
    ensures Free(Encode(path, RESERVED_PATH), PATH_STOPS)
  {
    EncodeIsPlain(path, RESERVED_PATH);
  }

  lemma {:induction false} EncodeEmptyOnly(s: string, reserved: set<char>)
    ensures Encode(s, reserved) == "" <==> s == ""
  {
  }

  lemma PathReads(u: UrlValue, v: UrlValue, path: string)
    requires Ascii(path) && Free(u.query, {'#'}) && v.path == "" && v.query == "" && v.fragment == ""
    ensures ParsePathQueryFragment(v, Encode(path, RESERVED_PATH) + Tail(u))
         == v.(path := path, query := u.query, fragment := u.fragment)
  {
    var text := Encode(path, RESERVED_PATH);
    EncodedPathIsFree(path);
    EncodeEmptyOnly(path, RESERVED_PATH);
    DecodeUndoesEncode(path, RESERVED_PATH, false);
    TailReads(u, v.(path := path));
    SpanOver(text, Tail(u), PATH_STOPS);
  }

  // ------------------------------------------------------------------ authority

  lemma PortReads(port: nat)
    requires port < 65536
    ensures ParsePort(if port == 0 then "" else ":" + Decimal(port)) == Ok(port)
  {
    if port != 0 {
      assert (":" + Decimal(port))[1..] == Decimal(port);
      DecimalRoundTrip(port);
    }
  }

  lemma BracketedHostReads(v: UrlValue, host: string, portText: string)
    requires ']' !in host
    ensures ParseHostAndPort(v, "[" + host + "]" + portText) == WithHost(v, host, portText)
  {
    var part, rest := "[" + host + "]" + portText, "]" + portText;
    assert part[0] == '[' && part[1..] == host + rest;
    SpanOver(host, rest, {']'});
    assert part[1..][|host| + 1..] == rest[1..] == portText;
  }

  lemma PlainHostReads(v: UrlValue, host: string, portText: string)
    requires ':' !in host && (host == "" || host[0] != '[') && (portText == "" || portText[0] == ':')
    requires host + portText != ""
    ensures ParseHostAndPort(v, host + portText) == WithHost(v, host, portText)
  {
    SpanOver(host, portText, {':'});
  }

  lemma HostReads(u: UrlValue, v: UrlValue)
    requires u.port < 65536 && HostOk(u.host) && v.host == "" && v.port == 0
    ensures ParseHostAndPort(v, HostText(u) + PortText(u)) == Ok(v.(host := u.host, port := GetPort(u)))
  {
    PortReads(GetPort(u));
    LowerFixes(u.host);
    if ':' in u.host {
      BracketedHostReads(v, u.host, PortText(u));
    } else if HostText(u) + PortText(u) != "" {
      PlainHostReads(v, u.host, PortText(u));
    }
  }

  lemma SplitReads(user: string, part: string)
    requires Free(user, {'@'}) && Free(part, {'@'})
    ensures SplitUser("", part) == ("", part)
    ensures SplitUser("", user + ("@" + part)) == (user, part)
  {
    SpanIs(part, {'@'}, |part|);
    SpanOver(user, "@" + part, {'@'});
    var all := user + ("@" + part);
    assert all[|user| + 1..] == part;
  }

  lemma DecimalFree(n: nat, stops: set<char>)
    requires forall c :: c in stops ==> !IsDigit(c)
    ensures Free(Decimal(n), stops)
  {
    DecimalIsDigits(n);
  }

  lemma FreeParts(a: string, b: string, stops: set<char>)
    ensures Free(a + b, stops) <==> Free(a, stops) && Free(b, stops)
  {
    if Free(a + b, stops) {
      forall i | 0 <= i < |a| ensures a[i] !in stops { assert (a + b)[i] == a[i]; }
      forall i | 0 <= i < |b| ensures b[i] !in stops { assert (a + b)[|a| + i] == b[i]; }
    }
  }

  lemma HostPortFree(u: UrlValue)
    requires Free(u.host, {'@', '/', '?', '#'})
    ensures Free(HostText(u) + PortText(u), {'@', '/', '?', '#'})
  {
    var stops := {'@', '/', '?', '#'};
    DecimalFree(GetPort(u), stops);
    FreeParts(":", Decimal(GetPort(u)), stops);
    FreeParts("[", u.host, stops);
    FreeParts("[" + u.host, "]", stops);
    FreeParts(HostText(u), PortText(u), stops);
  }

  lemma Sparser(s: string, stops: set<char>, fewer: set<char>)
    requires Free(s, stops) && fewer <= stops
    ensures Free(s, fewer)
  {
  }

  lemma AuthorityFree(u: UrlValue)
    requires DelimiterFree(u)
    ensures Free(AuthorityText(u), AUTHORITY_STOPS)
  {
    HostPortFree(u);
    Sparser(HostText(u) + PortText(u), {'@', '/', '?', '#'}, AUTHORITY_STOPS);
    Sparser(u.userInfo, {'@', '/', '?', '#'}, AUTHORITY_STOPS);
    FreeParts(u.userInfo, "@", AUTHORITY_STOPS);
    FreeParts(UserText(u), HostText(u) + PortText(u), AUTHORITY_STOPS);
  }

  lemma AuthorityReads(u: UrlValue, v: UrlValue)
    requires u.port < 65536 && AuthorityOk(u) && v.userInfo == "" && v.host == "" && v.port == 0
    ensures ParseAuthority(v, AuthorityText(u)) == Ok(v.(userInfo := u.userInfo, host := u.host, port := GetPort(u)))
  {
    AuthoritySplits(u);
    HostReads(u, v);
  }

  lemma AuthoritySplits(u: UrlValue)
    requires DelimiterFree(u)
    ensures SplitUser("", AuthorityText(u)) == (u.userInfo, HostText(u) + PortText(u))
  {
    var part := HostText(u) + PortText(u);
    HostPortFree(u);
    Sparser(part, {'@', '/', '?', '#'}, {'@'});
    Sparser(u.userInfo, {'@', '/', '?', '#'}, {'@'});
    SplitReads(u.userInfo, part);
    UserInFront(u.userInfo, part);
  }

  lemma UserInFront(user: string, part: string)
    ensures (user + "@") + part == user + ("@" + part) && "" + part == part
  {
  }

  // ------------------------------------------------------------------ the whole URL

  lemma {:induction false} EncodeFree(s: string, stops: set<char>, reserved: set<char>)
    requires Free(s, stops) && '%' !in stops && forall c :: c in stops ==> !Unreserved(c)
    ensures Free(Encode(s, reserved), stops)
  {
    if s != "" {
      EncodeFree(s[1..], stops, reserved);
      HexDigits((s[0] as int / 16) % 16);
      HexDigits(s[0] as int % 16);
      FreeParts(EncodeChar(s[0], reserved), Encode(s[1..], reserved), stops);
    }
  }

  /** A slash or a dot is printed as itself, and only a slash prints as one. */
  lemma SlashPrints(path: string)
    requires path != ""
    ensures var text := Encode(path, RESERVED_PATH);
            text != "" && (text[0] == '/' <==> path[0] == '/') && (path[0] == '.' ==> text[0] == '.')
            && (path[0] == '/' ==> text[1..] == Encode(path[1..], RESERVED_PATH))
  {
  }

  lemma EncodedStartsWithTwoSlashes(path: string, tail: string)
    requires path != "" && (tail == "" || tail[0] in PATH_STOPS)
    requires var text := Encode(path, RESERVED_PATH) + tail; |text| >= 2 && text[0] == '/' && text[1] == '/'
    ensures |path| >= 2 && path[0] == '/' && path[1] == '/'
  {
    SlashPrints(path);
    if |path| > 1 {
      SlashPrints(path[1..]);
    }
  }

  /** What a well-formed URL reads back as: itself, with the effective port made explicit. */
  function Explicit(u: UrlValue): UrlValue {
    if u.scheme == "" then u else u.(port := GetPort(u))
  }

  /** Behind "//" the authority ends where the path, the query or the fragment starts. */
  lemma AuthorityIsCutOut(v: UrlValue, auth: string, rest: string)
    requires Free(auth, AUTHORITY_STOPS) && (rest == "" || rest[0] in AUTHORITY_STOPS)
    ensures ParseHierarchy(v, ("//" + auth) + rest) ==
            match ParseAuthority(v, auth)
            case Ok(w) => Ok(ParsePathQueryFragment(w, rest))
            case Err(e) => Err(e)
  {
    var s := ("//" + auth) + rest;
    assert s[0] == '/' && s[1] == '/' && s[2..] == auth + rest;
    SpanOver(auth, rest, AUTHORITY_STOPS);
  }

  /** Behind an authority the path is printed as it is, and starts with a slash if there is anything. */
  lemma RootedPathText(u: UrlValue)
    requires PathOk(u) && (AuthorityText(u) != "" || u.scheme == "file")
    ensures PathText(u) == Encode(u.path, RESERVED_PATH)
    ensures var rest := PathText(u) + Tail(u); rest == "" || rest[0] in AUTHORITY_STOPS
  {
    if u.path != "" { SlashPrints(u.path); }
  }

  lemma HierarchyWithAuthority(u: UrlValue, v: UrlValue)
    requires Representable(u) && AuthorityOk(u) && PathOk(u) && Free(u.query, {'#'})
    requires AuthorityText(u) != "" || u.scheme == "file"
    requires v == EMPTY.(scheme := u.scheme)
    ensures ParseHierarchy(v, Slashes(u) + (PathText(u) + Tail(u))) == Ok(u.(port := GetPort(u)))
  {
    AuthorityFree(u);
    RootedPathText(u);
    AuthorityIsCutOut(v, AuthorityText(u), PathText(u) + Tail(u));
    AuthorityReads(u, v);
    PathReads(u, v.(userInfo := u.userInfo, host := u.host, port := GetPort(u)), u.path);
  }

  lemma HierarchyWithoutAuthority(u: UrlValue, v: UrlValue)
    requires Representable(u) && PathOk(u) && Free(u.query, {'#'})
    requires AuthorityText(u) == "" && u.scheme != "file"
    requires v == EMPTY.(scheme := u.scheme)
    ensures ParseHierarchy(v, Slashes(u) + (PathText(u) + Tail(u))) == Ok(u.(port := GetPort(u)))
  {
    var s := Encode(u.path, RESERVED_PATH) + Tail(u);
    BarePathText(u);
    if |s| >= 2 && s[0] == '/' && s[1] == '/' {
      EncodedStartsWithTwoSlashes(u.path, Tail(u));
    }
    PathReads(u, v, u.path);
    NothingBeforePath(u);
  }

  lemma BarePathText(u: UrlValue)
    requires PathOk(u) && AuthorityText(u) == "" && u.scheme != "file"
    ensures Slashes(u) + (PathText(u) + Tail(u)) == Encode(u.path, RESERVED_PATH) + Tail(u)
    ensures Tail(u) == "" || Tail(u)[0] in PATH_STOPS
  {
    NothingInFront(Encode(u.path, RESERVED_PATH), Tail(u));
  }

  lemma NothingInFront(text: string, tail: string)
    ensures "" + (("" + text) + tail) == text + tail
  {
  }

  lemma NothingBeforePath(u: UrlValue)
    requires AuthorityText(u) == ""
    ensures u.userInfo == "" && u.host == "" && GetPort(u) == 0 && u.port == 0
  {
  }

  lemma SchemeIsCutOff(scheme: string, rest: string)
    requires SchemeOk(scheme) && rest != ""
    ensures ParseInto(EMPTY, scheme + (":" + rest)) == ParseHierarchy(EMPTY.(scheme := scheme), rest)
  {
    var s := scheme + (":" + rest);
    SpanOver(scheme, ":" + rest, SCHEME_STOPS);
    LowerFixes(scheme);
    assert s[|scheme| + 1..] == rest;
    assert s[0] == scheme[0] && scheme[0] !in SCHEME_STOPS;
  }

  lemma SomethingFollows(u: UrlValue)
    requires PathOk(u)
    ensures Slashes(u) + (PathText(u) + Tail(u)) != ""
  {
    EncodeEmptyOnly(u.path, RESERVED_PATH);
  }

  lemma AbsoluteReadsBack(u: UrlValue)
    requires Representable(u) && WellFormed(u) && u.scheme != ""
    ensures Parse(ToString(u)) == Ok(Explicit(u))
  {
    SomethingFollows(u);
    SchemeIsCutOff(u.scheme, Slashes(u) + (PathText(u) + Tail(u)));
    if AuthorityText(u) != "" || u.scheme == "file" {
      HierarchyWithAuthority(u, EMPTY.(scheme := u.scheme));
    } else {
      HierarchyWithoutAuthority(u, EMPTY.(scheme := u.scheme));
    }
  }

  /** A text whose scan for a scheme ends anywhere but at a colon is all path, query and fragment. */
  lemma NotAScheme(text: string, rest: string)
    requires Free(text, SCHEME_STOPS) && (rest == "" || rest[0] in AUTHORITY_STOPS)
    ensures ParseInto(EMPTY, text + rest) == Ok(ParsePathQueryFragment(EMPTY, text + rest))
  {
    SpanOver(text, rest, SCHEME_STOPS);
    if text + rest == "" { assert ParsePathQueryFragment(EMPTY, "") == EMPTY; }
  }

  lemma EncodedSegmentIsFree(seg: string)
    requires Free(seg, {':', '/'})
    ensures Free(Encode(seg, RESERVED_PATH), SCHEME_STOPS)
  {
    EncodeFree(seg, {':', '/'}, RESERVED_PATH);
    EncodedPathIsFree(seg);
    var text := Encode(seg, RESERVED_PATH);
    forall i | 0 <= i < |text| ensures text[i] !in SCHEME_STOPS {
      assert text[i] !in {':', '/'} && text[i] !in PATH_STOPS;
    }
  }

  /** A printed path splits at the end of its first segment. */
  lemma FirstSegmentPrints(seg: string, more: string, tail: string)
    requires Free(seg, {':', '/'}) && (tail == "" || tail[0] in PATH_STOPS)
    ensures var rest := Encode(more, RESERVED_PATH) + tail;
            Free(Encode(seg, RESERVED_PATH), SCHEME_STOPS) &&
            Encode(seg + more, RESERVED_PATH) + tail == Encode(seg, RESERVED_PATH) + rest &&
            (more == "" || more[0] == '/' ==> rest == "" || rest[0] in AUTHORITY_STOPS)
  {
    EncodeConcat(seg, more, RESERVED_PATH);
    EncodedSegmentIsFree(seg);
    if more != "" { SlashPrints(more); }
  }

  lemma SegmentReadsAsPath(seg: string, more: string, tail: string)
    requires Free(seg, {':', '/'}) && (more == "" || more[0] == '/') && (tail == "" || tail[0] in PATH_STOPS)
    ensures ParseInto(EMPTY, Encode(seg + more, RESERVED_PATH) + tail)
         == Ok(ParsePathQueryFragment(EMPTY, Encode(seg + more, RESERVED_PATH) + tail))
  {
    FirstSegmentPrints(seg, more, tail);
    NotAScheme(Encode(seg, RESERVED_PATH), Encode(more, RESERVED_PATH) + tail);
  }

  lemma MarkedReadsAsPath(path: string, tail: string)
    requires path != "" && (path[0] == '/' || path[0] == '.')
    ensures ParseInto(EMPTY, Encode(path, RESERVED_PATH) + tail)
         == Ok(ParsePathQueryFragment(EMPTY, Encode(path, RESERVED_PATH) + tail))
  {
    SlashPrints(path);
  }

  lemma RelativeReadsAsPath(path: string, tail: string)
    requires RelativePathOk(path) && (tail == "" || tail[0] in PATH_STOPS)
    ensures ParseInto(EMPTY, Encode(path, RESERVED_PATH) + tail)
         == Ok(ParsePathQueryFragment(EMPTY, Encode(path, RESERVED_PATH) + tail))
  {
    if path != "" && (path[0] == '/' || path[0] == '.') {
      MarkedReadsAsPath(path, tail);
    } else {
      var k := Span(path, {':', '/'});
      assert path == path[..k] + path[k..];
      SpanIsFree(path, {':', '/'});
      SegmentReadsAsPath(path[..k], path[k..], tail);
    }
  }

  lemma RelativeReadsBack(u: UrlValue)
    requires Representable(u) && WellFormed(u) && u.scheme == ""
    ensures Parse(ToString(u)) == Ok(u)
  {
    TailReads(u, EMPTY);
    RelativeReadsAsPath(u.path, Tail(u));
    PathReads(u, EMPTY, u.path);
  }

  /** Every well-formed URL parses back from its own text. */
  lemma PrintedUrlParsesBack(u: UrlValue)
    requires Representable(u) && WellFormed(u)
    ensures Parse(ToString(u)) == Ok(Explicit(u)) && Equals(Explicit(u), u)
  {
    if u.scheme == "" { RelativeReadsBack(u); } else { AbsoluteReadsBack(u); }
  }

  /** Equal URLs print alike; well-formed URLs that print alike are equal. */
  lemma EqualExactlyWhenPrintedAlike(u: UrlValue, v: UrlValue)
    requires Representable(u) && WellFormed(u) && Representable(v) && WellFormed(v)
    ensures Equals(u, v) <==> ToString(u) == ToString(v)
  {
    PrintedUrlParsesBack(u);
    PrintedUrlParsesBack(v);
  }

  // ------------------------------------------------------------------ normalised relative URLs

  lemma NormalizedPathIsGuarded(path: string)
    ensures RelativePathOk(NormalizedPath(path, true))
  {
    if path != "" {
      var segs := Normalized(Segments(path), false);
      var leading, trailing := path[0] == '/', path[|path| - 1] == '/';
      NormalizedWalksAlike([], path, false);
      BuiltEnds(segs, leading, trailing, true);
      if segs != [] && Lead(segs, leading, true) == "" {
        FirstSegmentIsGuarded(segs, if trailing then "/" else "");
        assert "" + Join(segs) == Join(segs);
      }
    }
  }

  lemma FirstSegmentIsGuarded(segs: seq<string>, end: string)
    requires AreSegments(segs) && segs != [] && ':' !in segs[0] && (end == "" || end == "/")
    ensures RelativePathOk(Join(segs) + end)
  {
    var first := segs[0];
    assert IsSegment(first);
    var rest := (if |segs| == 1 then "" else "/" + Join(segs[1..])) + end;
    assert Join(segs) + end == first + rest;
    assert Free(first, {':', '/'}) by {
      forall i | 0 <= i < |first| ensures first[i] !in {':', '/'} { assert first[i] !in {'/'}; }
    }
    SpanOver(first, rest, {':', '/'});
  }

  /**
   The text of a normalised relative URL is never read as one with a scheme, and is not rejected
   (section 4.2 of RFC 3986); it reads back as that URL if nothing is stored that is not printed.
   */
  lemma NormalizedRelativeStaysRelative(u: UrlValue)
    requires u.scheme == "" && Ascii(u.path) && Free(u.query, {'#'})
    ensures var n := u.(path := NormalizedPath(u.path, true));
            Parse(ToString(n)).Ok? && Parse(ToString(n)).value.scheme == "" && Parse(ToString(n)).value.host == ""
            && (u.userInfo == "" && u.host == "" && u.port == 0 ==> Parse(ToString(n)) == Ok(n))
  {
    var n := u.(path := NormalizedPath(u.path, true));
    NormalizedPathIsGuarded(u.path);
    NormalizedPathIsAscii(u.path, true);
    TailReads(n, EMPTY);
    RelativeReadsAsPath(n.path, Tail(n));
    if u.userInfo == "" && u.host == "" && u.port == 0 {
      RelativeReadsBack(n);
    }
  }
}
