/**
 The URL grammar (section 3 of RFC 3986) from the outside: what a text composed of its parts reads as,
 and the order in which a URL prints them.
 */
module UrlGrammar {
  import opened Wrappers
  import opened Text
  import opened Numbers
  import opened UrlCodec
  import opened UrlSyntax
  import opened UrlRoundTrip
  import opened UrlExactness

  const CAPITALS := "ABCDEFGHIJKLMNOPQRSTUVWXYZ"
  const SMALL := "abcdefghijklmnopqrstuvwxyz"

  /** `d` is the small letter of the capital `c`, or `c` itself if that is no capital. */
  predicate Folds(c: char, d: char) {
    if c in CAPITALS then exists k :: 0 <= k < 26 && CAPITALS[k] == c && SMALL[k] == d else d == c
  }

  predicate FoldsTo(x: string, y: string) {
    |x| == |y| && forall i :: 0 <= i < |x| ==> Folds(x[i], y[i])
  }

  lemma LettersInOrder(k: nat)
    requires k < 26
    ensures CAPITALS[k] == 'A' + k as char && SMALL[k] == 'a' + k as char
  {
  }

  lemma CapitalsAreLetters(c: char)
    ensures c in CAPITALS <==> 'A' <= c <= 'Z'
  {
    if 'A' <= c <= 'Z' {
      LettersInOrder((c - 'A') as nat);
    }
    if c in CAPITALS {
      var k :| 0 <= k < |CAPITALS| && CAPITALS[k] == c;
      LettersInOrder(k);
    }
  }

  lemma FoldIsLower(c: char, d: char)
    requires Folds(c, d)
    ensures LowerChar(c) == d
  {
    CapitalsAreLetters(c);
    if 'A' <= c <= 'Z' {
      var k :| 0 <= k < 26 && CAPITALS[k] == c && SMALL[k] == d;
      LettersInOrder(k);
    }
  }

  lemma FoldsToLower(x: string, y: string)
    requires FoldsTo(x, y)
    ensures Lower(x) == y
  {
    forall i | 0 <= i < |x| ensures Lower(x)[i] == y[i] { FoldIsLower(x[i], y[i]); }
  }

  // ------------------------------------------------------------------ the parts of a text

  /** The parts of a URL text with an authority, as they are written. */
  datatype Parts = Parts(
    scheme: string, user: string, host: string, bracketed: bool, port: nat,
    path: string, query: string, fragment: string)

  function UserPart(p: Parts): string {
    if p.user == "" then "" else p.user + "@"
  }

  function HostPart(p: Parts): string {
    if p.bracketed then "[" + p.host + "]" else p.host
  }

  function PortPart(p: Parts): string {
    if p.port == 0 then "" else ":" + Decimal(p.port)
  }

  function TailPart(p: Parts): string {
    (if p.query == "" then "" else "?" + p.query) + (if p.fragment == "" then "" else "#" + p.fragment)
  }

  /** "scheme://user@host:port/path?query#fragment"; user, port, query and fragment may be missing. */
  function Composed(p: Parts): string {
    p.scheme + (":" + (("//" + (UserPart(p) + (HostPart(p) + PortPart(p)))) + (p.path + TailPart(p))))
  }

  /** No part has a delimiter in it that would end it. */
  predicate Separable(p: Parts) {
    && p.scheme != "" && p.scheme[0] != '.' && Free(p.scheme, {':', '?', '#', '/'})
    && Free(p.user, {'@', '/', '?', '#'}) && p.host != "" && Free(p.host, {'@', '/', '?', '#'})
    && (if p.bracketed then ']' !in p.host else ':' !in p.host && p.host[0] != '[')
    && p.port < 65536
    && (p.path == "" || p.path[0] == '/') && Free(p.path, {'?', '#'})
    && Free(p.query, {'#'})
  }

  lemma AuthorityPartIsFree(p: Parts)
    requires Separable(p)
    ensures Free(HostPart(p) + PortPart(p), {'@', '/', '?', '#'})
    ensures Free(UserPart(p) + (HostPart(p) + PortPart(p)), AUTHORITY_STOPS)
  {
    var stops := {'@', '/', '?', '#'};
    DecimalFree(p.port, stops);
    FreeParts(":", Decimal(p.port), stops);
    FreeParts("[", p.host, stops);
    FreeParts("[" + p.host, "]", stops);
    FreeParts(HostPart(p), PortPart(p), stops);
    Sparser(HostPart(p) + PortPart(p), stops, AUTHORITY_STOPS);
    Sparser(p.user, stops, AUTHORITY_STOPS);
    FreeParts(p.user, "@", AUTHORITY_STOPS);
    FreeParts(UserPart(p), HostPart(p) + PortPart(p), AUTHORITY_STOPS);
  }

  lemma UserPartSplits(p: Parts)
    requires Separable(p)
    ensures SplitUser("", UserPart(p) + (HostPart(p) + PortPart(p))) == (p.user, HostPart(p) + PortPart(p))
  {
    var part := HostPart(p) + PortPart(p);
    AuthorityPartIsFree(p);
    Sparser(part, {'@', '/', '?', '#'}, {'@'});
    Sparser(p.user, {'@', '/', '?', '#'}, {'@'});
    SplitReads(p.user, part);
    UserInFront(p.user, part);
  }

  lemma HostPartReads(p: Parts, v: UrlValue)
    requires Separable(p)
    ensures ParseHostAndPort(v, HostPart(p) + PortPart(p)) ==
            Ok(v.(host := if p.host[0] == '%' then p.host else Lower(p.host), port := p.port))
  {
    PortReads(p.port);
    if p.bracketed {
      BracketedHostReads(v, p.host, PortPart(p));
    } else {
      PlainHostReads(v, p.host, PortPart(p));
    }
  }

  lemma TailPartReads(p: Parts, v: UrlValue, path: string)
    requires Separable(p) && Decode(p.path) == Some(path) && v.path == "" && v.query == "" && v.fragment == ""
    ensures ParsePathQueryFragment(v, p.path + TailPart(p)) ==
            v.(path := path, query := p.query, fragment := p.fragment)
  {
    var u := EMPTY.(query := p.query, fragment := p.fragment);
    assert Tail(u) == TailPart(p);
    TailReads(u, v.(path := path));
    SpanOver(p.path, TailPart(p), PATH_STOPS);
  }

  lemma TailStops(p: Parts)
    requires Separable(p)
    ensures var rest := p.path + TailPart(p); rest == "" || rest[0] in AUTHORITY_STOPS
  {
  }

  lemma AuthorityPartReads(p: Parts, v: UrlValue)
    requires Separable(p) && v.userInfo == ""
    ensures ParseAuthority(v, UserPart(p) + (HostPart(p) + PortPart(p))) ==
            Ok(v.(userInfo := p.user, host := if p.host[0] == '%' then p.host else Lower(p.host), port := p.port))
  {
    UserPartSplits(p);
    HostPartReads(p, v);
  }

  /**
   A text composed of separable parts reads as these parts: scheme and host with their capitals folded
   (not a host that starts with a percent sign), the path decoded, everything else as it is.
   */
  lemma ComposedReads(p: Parts, scheme: string, host: string, path: string)
    requires Separable(p) && FoldsTo(p.scheme, scheme) && Decode(p.path) == Some(path)
    requires if p.host[0] == '%' then host == p.host else FoldsTo(p.host, host)
    ensures Parse(Composed(p)) == Ok(UrlValue(scheme, p.user, host, p.port, path, p.query, p.fragment))
  {
    var auth, rest := UserPart(p) + (HostPart(p) + PortPart(p)), p.path + TailPart(p);
    var v := EMPTY.(scheme := scheme);
    FoldsToLower(p.scheme, scheme);
    if p.host[0] != '%' { FoldsToLower(p.host, host); }
    ColonIsAScheme(p.scheme, ("//" + auth) + rest);
    AuthorityPartIsFree(p);
    TailStops(p);
    AuthorityIsCutOut(v, auth, rest);
    AuthorityPartReads(p, v);
    TailPartReads(p, v.(userInfo := p.user, host := host, port := p.port), path);
  }

  lemma FoldedIsFree(x: string, y: string)
    requires FoldsTo(x, y) && Free(x, {':', '?', '#', '/'}) && (x == "" || x[0] != '.')
    ensures Free(y, {':', '?', '#', '/'}) && (y == "" || y[0] != '.')
  {
    FoldsToLower(x, y);
    forall i | 0 <= i < |y| ensures y[i] !in {':', '?', '#', '/'} {
      assert y[i] == LowerChar(x[i]) && x[i] !in {':', '?', '#', '/'};
    }
    assert x != "" ==> y[0] == LowerChar(x[0]);
  }

  /** Whatever follows the colon, the case of the scheme does not matter. */
  lemma SchemeCaseDoesNotMatter(x: string, y: string, rest: string)
    requires FoldsTo(x, y) && Free(x, {':', '?', '#', '/'}) && (x == "" || x[0] != '.')
    ensures Parse(x + (":" + rest)) == Parse(y + (":" + rest))
    ensures Parse(x + (":" + rest)).Ok? ==> Parse(x + (":" + rest)).value.scheme == y
  {
    FoldedIsFree(x, y);
    FoldsToLower(x, y);
    LowerFixes(x);
    ColonIsAScheme(x, rest);
    ColonIsAScheme(y, rest);
    if rest != "" && ParseHierarchy(EMPTY.(scheme := y), rest).Ok? { HierarchyRange(EMPTY.(scheme := y), rest); }
  }

  /** A URL with a host prints its parts in this order; a missing path is a slash in front of a query or fragment. */
  lemma PrintsItsParts(u: UrlValue)
    requires u.scheme != "" && u.host != "" && (u.path == "" || u.path[0] == '/')
    ensures var path := if u.path != "" then Encode(u.path, RESERVED_PATH)
                        else if u.query != "" || u.fragment != "" then "/" else "";
            ToString(u) ==
            Composed(Parts(u.scheme, u.userInfo, u.host, ':' in u.host, GetPort(u), path, u.query, u.fragment))
  {
    assert HostText(u) != "";
    NoSlashPrinted(u);
  }

  lemma NoSlashPrinted(u: UrlValue)
    requires u.path == "" || u.path[0] == '/'
    ensures PathText(u) == if u.path != "" then Encode(u.path, RESERVED_PATH)
                           else if u.query != "" || u.fragment != "" then "/" else ""
  {
    assert "" + Encode(u.path, RESERVED_PATH) == Encode(u.path, RESERVED_PATH);
  }

  // ------------------------------------------------------------------ odd authorities

  /** Of several '@', the last one ends the user info, and the one before it starts it. */
  lemma UserIsBetweenTheLastTwo(front: string, user: string, part: string)
    requires Free(user, {'@'}) && Free(part, {'@'})
    ensures SplitUser("", front + ("@" + (user + ("@" + part)))) == (user, part)
  {
    UserBetween("", front, user, part);
  }

  lemma {:induction false} UserBetween(before: string, front: string, user: string, part: string)
    requires Free(user, {'@'}) && Free(part, {'@'})
    ensures SplitUser(before, front + ("@" + (user + ("@" + part)))) == (user, part)
    decreases |front|
  {
    var back := user + ("@" + part);
    var k := Span(front, {'@'});
    SpanIsFree(front, {'@'});
    if k == |front| {
      assert front[..k] == front;
      SplitAt(before, front, back);
      SplitAt(front, user, part);
      SpanIs(part, {'@'}, |part|);
    } else {
      var more := front[k + 1..];
      assert front + ("@" + back) == front[..k] + ("@" + (more + ("@" + back)));
      SplitAt(before, front[..k], more + ("@" + back));
      UserBetween(front[..k], more, user, part);
    }
  }

  lemma SplitAt(before: string, a: string, b: string)
    requires Free(a, {'@'})
    ensures SplitUser(before, a + ("@" + b)) == SplitUser(a, b)
  {
    SpanOver(a, "@" + b, {'@'});
    assert (a + ("@" + b))[|a| + 1..] == b;
  }

  /** A printed port is accepted exactly if it is between 1 and 65535. */
  lemma PortsInRange(n: nat)
    ensures ParsePort(":" + Decimal(n)) == if 0 < n < 65536 then Ok(n) else Err(BadPort)
    ensures ParsePort(":") == Ok(0) && ParsePort("") == Ok(0)
  {
    DecimalReadsWhole(n);
    assert (":" + Decimal(n))[1..] == Decimal(n);
  }
}
