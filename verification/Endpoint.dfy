/**
 A database endpoint of the configuration: what `validate` makes of its URL and credentials, and
 what `db_start` makes of the result.
 */
module Endpoint {
  import opened Wrappers
  import opened Text
  import opened Numbers
  import opened UrlCodec
  import opened UrlPath
  import opened UrlSyntax
  import opened UrlRoundTrip
  import opened UrlExactness
  import opened SocketAddress

  datatype Endpoint = Endpoint(url: string, login: string, password: string)

  const DEFAULT_URL := "postgresql://localhost:5432/postgres"
  const DEFAULT_DATABASE := "postgres"
  const DEFAULT_LOGIN := "postgres"
  const DEFAULT_PASSWORD := ""
  const DEFAULT_PORT: nat := 5432

  // ------------------------------------------------------------------ validation

  function WithScheme(url: string): string {
    if Contains(url, "://") then url else "postgresql://" + url
  }

  function SocketText(u: UrlValue): string {
    u.host + (":" + Decimal(u.port))
  }

  /** Everything that can throw: the URL, its scheme, and the resolution of host and port. */
  function Examine(r: Resolver, url: string): Resolution {
    match Parse(url)
    case Err(_) => OtherFailure
    case Ok(u) =>
      if u.scheme != "" && u.scheme != "postgresql" then OtherFailure
      else Resolve(r, SocketText(u))
  }

  /** The URL without credentials and fragment, with a port and a database. */
  function Repacked(u: UrlValue, socketPort: nat): UrlValue {
    u.(port := if socketPort == 0 then DEFAULT_PORT else u.port,
       fragment := "",
       path := if Segments(u.path) == [] then DEFAULT_DATABASE else u.path,
       userInfo := "")
  }

  /** "login:password", split at the first colon. */
  function Credentials(userInfo: string): (string, string) {
    var k := Span(userInfo, {':'});
    (userInfo[..k], if k < |userInfo| then userInfo[k + 1..] else "")
  }

  function FirstNonEmpty(a: string, b: string, c: string): string {
    if a != "" then a else if b != "" then b else c
  }

  function Validated(r: Resolver, e: Endpoint): Endpoint {
    var url := WithScheme(e.url);
    match Examine(r, url)
    case DnsFailure =>
      Endpoint(url, FirstNonEmpty(e.login, "", DEFAULT_LOGIN), FirstNonEmpty(e.password, "", DEFAULT_PASSWORD))
    case OtherFailure =>
      Endpoint(DEFAULT_URL, FirstNonEmpty(e.login, "", DEFAULT_LOGIN), FirstNonEmpty(e.password, "", DEFAULT_PASSWORD))
    case Resolved(port) =>
      var u := Parse(url).value;
      var (login, password) := Credentials(u.userInfo);
      Endpoint(ToString(Repacked(u, port)),
               FirstNonEmpty(e.login, login, DEFAULT_LOGIN),
               FirstNonEmpty(e.password, password, DEFAULT_PASSWORD))
  }

  /** The percent-escapes of the endpoint's path stand for ASCII bytes. */
  predicate AsciiPath(e: Endpoint) {
    Parse(WithScheme(e.url)).Ok? ==> Ascii(Parse(WithScheme(e.url)).value.path)
  }

  // ------------------------------------------------------------------ what parsing promises about a URL with a host

  lemma DecodeKeepsSlash(text: string)
    requires text != "" && text[0] == '/' && Decode(text).Some?
    ensures Decode(text).value != "" && Decode(text).value[0] == '/'
  {
  }

  lemma PortRange(rest: string)
    ensures ParsePort(rest).Ok? ==> ParsePort(rest).value < 65536
  {
  }

  /** The shape of a host that has been read, bracketed or not. */
  predicate HostShape(host: string) {
    && (host == "" || host[0] == '%' || IsLower(host))
    && (if ':' in host then ']' !in host else host != "" && host[0] == '[' ==> ']' !in host)
  }

  lemma FoldShape(x: string)
    requires ']' !in x || (':' !in x && (x == "" || x[0] != '['))
    ensures HostShape(FoldHost(x))
  {
    FoldKeeps(x);
    var h := FoldHost(x);
    forall i | 0 <= i < |x| ensures (h[i] == ']' <==> x[i] == ']') && (h[i] == '[' <==> x[i] == '[') {
    }
  }

  lemma HostAndPortShape(v: UrlValue, part: string)
    requires v.host == "" && v.port == 0
    ensures ParseHostAndPort(v, part).Ok? ==>
              HostShape(ParseHostAndPort(v, part).value.host) && ParseHostAndPort(v, part).value.port < 65536
  {
    if part != "" {
      if part[0] == '[' {
        var k := Span(part[1..], {']'});
        var x := part[1..][..k];
        if k < |part| - 1 {
          SpanIsFree(part[1..], {']'});
          FoldShape(x);
          WithHostFolds(v, x, part[1..][k + 1..]);
          PortRange(part[1..][k + 1..]);
        }
      } else {
        var k := Span(part, {':'});
        SpanIsFree(part, {':'});
        FoldShape(part[..k]);
        WithHostFolds(v, part[..k], part[k..]);
        PortRange(part[k..]);
      }
    }
  }

  /** Components as parsing leaves them behind an authority. */
  predicate Hosted(u: UrlValue) {
    && u.port < 65536 && DelimiterFree(u) && HostShape(u.host)
    && (u.path == "" || u.path[0] == '/')
    && Free(u.query, {'#'})
  }

  lemma PathIsRooted(w: UrlValue, rest: string)
    requires w.path == "" && (rest == "" || rest[0] in AUTHORITY_STOPS)
    ensures var p := ParsePathQueryFragment(w, rest).path; p == "" || p[0] == '/'
  {
    var k := Span(rest, PATH_STOPS);
    var text := rest[..k];
    if text != "" && Decode(text).Some? { DecodeKeepsSlash(text); }
  }

  lemma HostedHierarchy(v: UrlValue, s: string)
    requires v == EMPTY.(scheme := v.scheme) && ParseHierarchy(v, s).Ok? && ParseHierarchy(v, s).value.host != ""
    ensures Hosted(ParseHierarchy(v, s).value)
  {
    if |s| >= 2 && s[0] == '/' && s[1] == '/' {
      var k := Span(s[2..], AUTHORITY_STOPS);
      var auth, rest := s[2..][..k], s[2..][k..];
      AuthorityComesBackFree(v, s);
      AuthorityKeepsPath(v, auth);
      HostAndPortShape(v, SplitUser("", auth).1);
      var w := ParseAuthority(v, auth).value;
      PathIsRooted(w, rest);
      ReadsOnlyItsParts(w, rest);
    } else {
      ReadsOnlyItsParts(v, s);
    }
  }

  /** Only the branch that reads a scheme can produce a host. */
  lemma HostNeedsScheme(s: string, u: UrlValue)
    requires Parse(s) == Ok(u) && u.host != ""
    ensures !WithoutScheme(s) && Span(s, SCHEME_STOPS) + 1 < |s|
  {
    if WithoutScheme(s) { NoSchemeIsRead(s); } else { SchemeIsRead(s, Span(s, SCHEME_STOPS)); }
  }

  /** A URL that has a host was read with an authority; only a leading colon leaves its scheme empty. */
  lemma HostedUrl(s: string)
    requires Parse(s).Ok? && Parse(s).value.host != ""
    ensures Hosted(Parse(s).value) && s != "" && (Parse(s).value.scheme == "" <==> s[0] == ':')
  {
    HostNeedsScheme(s, Parse(s).value);
    var k := Span(s, SCHEME_STOPS);
    var v := EMPTY.(scheme := Lower(s[..k]));
    SchemeIsRead(s, k);
    HierarchyRange(v, s[k + 1..]);
    HostedHierarchy(v, s[k + 1..]);
    assert k > 0 ==> s[0] !in SCHEME_STOPS;
  }

  // ------------------------------------------------------------------ the validated URL

  /** What `db_start` relies on. */
  predicate NamesDatabase(u: UrlValue) {
    && u.scheme == "postgresql" && u.userInfo == "" && u.fragment == ""
    && 0 < u.port < 65536
    && u.path != "" && u.path[0] == '/' && Segments(u.path) != []
  }

  predicate IsDatabaseUrl(url: string) {
    Parse(url).Ok? && NamesDatabase(Parse(url).value)
  }

  /** The repacked URL with the slash that printing puts in front of the default database. */
  function Rooted(u: UrlValue): UrlValue {
    if u.path != "" && u.path[0] != '/' then u.(path := "/" + u.path) else u
  }

  lemma PostgresPort()
    ensures DefaultPort("postgresql") == DEFAULT_PORT
  {
    LookupFinds(WELL_KNOWN_PORTS, "postgresql", 20);
  }

  lemma SlashIsPrinted(u: UrlValue)
    requires AuthorityText(u) != "" && u.path != "" && u.path[0] != '/'
    ensures PathText(u.(path := "/" + u.path)) == PathText(u)
  {
    SlashEncodes(u.path);
  }

  lemma RootedPrintsAlike(u: UrlValue)
    requires u.scheme != "" && AuthorityText(u) != ""
    ensures ToString(Rooted(u)) == ToString(u)
  {
    if u.path != "" && u.path[0] != '/' {
      SlashIsPrinted(u);
      var v := u.(path := "/" + u.path);
      assert Slashes(v) == Slashes(u) && Tail(v) == Tail(u);
    }
  }

  lemma DatabaseSegment()
    ensures Segments("/" + DEFAULT_DATABASE) == [DEFAULT_DATABASE] && Ascii(DEFAULT_DATABASE)
  {
    LoneSegment(DEFAULT_DATABASE);
    assert ("/" + DEFAULT_DATABASE)[1..] == DEFAULT_DATABASE;
  }

  lemma EmptyHostFails(r: Resolver, u: UrlValue)
    requires u.host == ""
    ensures Resolve(r, SocketText(u)) == OtherFailure
  {
    assert SocketText(u) == ":" + Decimal(u.port);
    NoHostFails(r, Decimal(u.port));
  }

  /** A host that starts with a bracket has none that closes it. */
  lemma BracketStaysOpen(u: UrlValue)
    requires HostShape(u.host) && u.host != "" && u.host[0] == '['
    ensures SplitHostAndPort(SocketText(u)) == None
  {
    var t := SocketText(u);
    DecimalIsDigits(u.port);
    forall i | 0 <= i < |t| ensures t[i] != ']' {
      if i < |u.host| { assert t[i] == u.host[i]; } else if i > |u.host| { assert IsDigit(t[i]); }
    }
    OpenBracketFails(t);
  }

  /** A resolved socket text means a host that is not an unclosed bracket. */
  lemma ResolvedHost(r: Resolver, u: UrlValue)
    requires Resolve(r, SocketText(u)).Resolved? && HostShape(u.host)
    ensures u.host != "" && HostOk(u.host)
  {
    if u.host == "" {
      EmptyHostFails(r, u);
    } else if u.host[0] == '[' {
      BracketStaysOpen(u);
    }
  }

  lemma PostgresScheme()
    ensures SchemeOk("postgresql")
  {
    var s := "postgresql";
    forall i | 0 <= i < |s| ensures s[i] !in SCHEME_STOPS && !('A' <= s[i] <= 'Z') {
      assert 'e' <= s[i] <= 't';
    }
  }

  /** A repacked URL parses back, rooted, with its effective port, and names a database. */
  lemma RepackedReads(r: Resolver, u: UrlValue, p: nat)
    requires Hosted(u) && u.scheme == "postgresql" && Ascii(u.path) && Resolve(r, SocketText(u)) == Resolved(p)
    ensures var v := Explicit(Rooted(Repacked(u, p)));
            Parse(ToString(Repacked(u, p))) == Ok(v) && NamesDatabase(v)
  {
    ResolvedHost(r, u);
    var w := Rooted(Repacked(u, p));
    PostgresScheme();
    PostgresPort();
    DatabaseSegment();
    RepackedIsRooted(u, p);
    RootedPrintsAlike(Repacked(u, p));
    PrintedUrlParsesBack(w);
  }

  lemma RepackedIsRooted(u: UrlValue, p: nat)
    requires Hosted(u) && Ascii(u.path)
    ensures var w := Rooted(Repacked(u, p));
            w.path == (if Segments(u.path) == [] then "/" + DEFAULT_DATABASE else u.path) &&
            w.path != "" && w.path[0] == '/' && Ascii(w.path) && Segments(w.path) != []
  {
    DatabaseSegment();
  }
}
