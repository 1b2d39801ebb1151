/**
 What an endpoint is worth after validation: which database `db_start` connects to, and when
 validating again changes nothing.
 */
module ValidatedEndpoint {
  import opened Wrappers
  import opened Text
  import opened Numbers
  import opened UrlCodec
  import opened UrlPath
  import opened UrlSyntax
  import opened UrlRoundTrip
  import opened UrlExactness
  import opened SocketAddress
  import opened Endpoint

  /** Where a connection string points: host, port and database name. */
  datatype Target = Target(host: string, port: nat, database: string)

  /** As `db_start` reads a configured URL; nothing if an exception ends it (`substr(1)` needs a path). */
  function ConnectsTo(url: string): Option<Target> {
    match Parse(url)
    case Err(_) => None
    case Ok(u) => if u.path == "" then None else Some(Target(u.host, GetPort(u), u.path[1..]))
  }

  /** The text starts with a colon and is taken for a URL with an empty scheme. */
  predicate LeadingColon(url: string) {
    url != "" && url[0] == ':' && Contains(url, "://")
  }

  // ------------------------------------------------------------------ the default URL

  const DEFAULT_VALUE := UrlValue("postgresql", "", "localhost", DEFAULT_PORT, "/postgres", "", "")

  lemma {:induction false} PlainEncodesAsItself(s: string)
    requires forall i :: 0 <= i < |s| ==> 'a' <= s[i] <= 'z'
    ensures Encode(s, RESERVED_PATH) == s
  {
    if s != "" {
      PlainEncodesAsItself(s[1..]);
      assert s == [s[0]] + s[1..];
    }
  }

  lemma BarePrints(u: UrlValue)
    requires u.scheme != "" && u.userInfo == "" && ':' !in u.host && u.port != 0 && u.query == "" && u.fragment == ""
    requires u.path != "" && u.path[0] == '/'
    ensures ToString(u) ==
            u.scheme + (":" + (("//" + (u.host + (":" + Decimal(u.port)))) + Encode(u.path, RESERVED_PATH)))
  {
    var auth := u.host + (":" + Decimal(u.port));
    assert AuthorityText(u) == auth by { assert "" + auth == auth; }
    var path := Encode(u.path, RESERVED_PATH);
    assert PathText(u) + Tail(u) == path by { assert ("" + path) + ("" + "") == path; }
  }

  lemma DefaultPort5432()
    ensures Decimal(5432) == "5432"
  {
    assert Decimal(5) == "5" && Decimal(54) == "54" && Decimal(543) == "543";
  }

  lemma DefaultPath()
    ensures Encode("/postgres", RESERVED_PATH) == "/postgres" && "/" + DEFAULT_DATABASE == "/postgres"
  {
    PlainEncodesAsItself(DEFAULT_DATABASE);
    SlashEncodes(DEFAULT_DATABASE);
    assert "/" + DEFAULT_DATABASE == "/postgres";
  }

  lemma DefaultText(port: string, path: string)
    requires port == "5432" && path == "/postgres"
    ensures "postgresql" + (":" + (("//" + ("localhost" + (":" + port))) + path)) == DEFAULT_URL
  {
  }

  lemma DefaultHost()
    ensures ':' !in "localhost"
  {
    var s := "localhost";
    forall i | 0 <= i < |s| ensures s[i] != ':' { assert 'a' <= s[i] <= 't'; }
  }

  lemma DefaultPrints()
    ensures ToString(DEFAULT_VALUE) == DEFAULT_URL
  {
    var u := DEFAULT_VALUE;
    DefaultHost();
    BarePrints(u);
    DefaultPort5432();
    DefaultPath();
    DefaultText(Decimal(u.port), Encode(u.path, RESERVED_PATH));
  }

  lemma DefaultIsWellFormed()
    ensures WellFormed(DEFAULT_VALUE) && Representable(DEFAULT_VALUE)
  {
    PostgresScheme();
    assert DelimiterFree(DEFAULT_VALUE);
  }

  lemma DefaultReads()
    ensures Parse(DEFAULT_URL) == Ok(DEFAULT_VALUE) && NamesDatabase(DEFAULT_VALUE)
  {
    DefaultPrints();
    DefaultIsWellFormed();
    PrintedUrlParsesBack(DEFAULT_VALUE);
    DefaultPath();
    DatabaseSegment();
  }

  lemma SchemedContains(rest: string)
    ensures Contains("postgresql" + (":" + ("//" + rest)), "://")
  {
    var s := "postgresql" + (":" + ("//" + rest));
    assert s[10..13] == "://";
    OccurrenceFound(s, "://", 10);
  }

  lemma WithSchemeHasScheme(url: string)
    ensures var s := WithScheme(url);
            s != "" && Contains(s, "://") && (s[0] == ':' <==> LeadingColon(url))
  {
    if !Contains(url, "://") {
      SchemedContains(url);
      assert WithScheme(url) == "postgresql" + (":" + ("//" + url));
    }
  }

  // ------------------------------------------------------------------ what the validated URL reads back as

  /** The URL examined, once it has been found to resolve. */
  function Examined(r: Resolver, e: Endpoint): UrlValue
    requires Examine(r, WithScheme(e.url)).Resolved?
  {
    Parse(WithScheme(e.url)).value
  }

  lemma ResolvedIsHosted(r: Resolver, e: Endpoint)
    requires Examine(r, WithScheme(e.url)).Resolved?
    ensures var u := Examined(r, e);
            u.host != "" && Hosted(u) && (if LeadingColon(e.url) then u.scheme == "" else u.scheme == "postgresql")
  {
    var u := Examined(r, e);
    if u.host == "" {
      EmptyHostFails(r, u);
    }
    HostedUrl(WithScheme(e.url));
    WithSchemeHasScheme(e.url);
  }

  /** The reading of the URL that validation writes when the host resolves to port `p`. */
  function Accepted(u: UrlValue, p: nat): UrlValue {
    Explicit(Rooted(Repacked(u, p)))
  }

  lemma ResolvedReads(r: Resolver, e: Endpoint)
    requires AsciiPath(e) && Examine(r, WithScheme(e.url)).Resolved? && !LeadingColon(e.url)
    ensures var u := Examined(r, e); var v := Accepted(u, Examine(r, WithScheme(e.url)).port);
            Parse(Validated(r, e).url) == Ok(v) && NamesDatabase(v)
  {
    ResolvedIsHosted(r, e);
    RepackedReads(r, Examined(r, e), Examine(r, WithScheme(e.url)).port);
  }

  /**
   The URL written for an endpoint that resolves keeps host and query, has no user info and no
   fragment, and gets the default port and database where it had none.
   */
  lemma ResolvedReadsExactly(r: Resolver, e: Endpoint)
    requires AsciiPath(e) && Examine(r, WithScheme(e.url)).Resolved? && !LeadingColon(e.url)
    ensures var u := Examined(r, e); var p := Examine(r, WithScheme(e.url)).port;
            Parse(Validated(r, e).url) ==
            Ok(UrlValue("postgresql", "", u.host, if p == 0 || u.port == 0 then 5432 else u.port,
                        if Segments(u.path) == [] then "/postgres" else u.path, u.query, ""))
  {
    ResolvedIsHosted(r, e);
    ResolvedReads(r, e);
    AcceptedIs(Examined(r, e), Examine(r, WithScheme(e.url)).port);
  }

  lemma AcceptedIs(u: UrlValue, p: nat)
    requires Hosted(u) && Ascii(u.path) && u.scheme == "postgresql"
    ensures Accepted(u, p) ==
            UrlValue("postgresql", "", u.host, if p == 0 || u.port == 0 then 5432 else u.port,
                     if Segments(u.path) == [] then "/postgres" else u.path, u.query, "")
  {
    RepackedIsRooted(u, p);
    PostgresPort();
    DefaultPath();
  }

  /** Without resolution the URL stays as it is, but for a missing scheme. */
  lemma UnresolvedKeepsUrl(r: Resolver, e: Endpoint)
    requires Examine(r, WithScheme(e.url)).DnsFailure?
    ensures Validated(r, e).url == if Contains(e.url, "://") then e.url else "postgresql://" + e.url
  {
  }

  /** Without a scheme only path and query are printed. */
  lemma SchemelessReads(u: UrlValue)
    requires u.scheme == "" && u.fragment == "" && Ascii(u.path) && Free(u.query, {'#'})
    requires u.path == DEFAULT_DATABASE || (u.path != "" && u.path[0] == '/')
    ensures Parse(ToString(u)) == Ok(EMPTY.(path := u.path, query := u.query))
  {
    var w := EMPTY.(path := u.path, query := u.query);
    if u.path == DEFAULT_DATABASE { DefaultDatabaseIsRelative(u.path); }
    RelativeReadsBack(w);
    assert Tail(w) == Tail(u);
  }

  lemma DefaultDatabaseIsRelative(s: string)
    requires s == DEFAULT_DATABASE
    ensures RelativePathOk(s)
  {
    forall i | 0 <= i < |s| ensures s[i] !in {':', '/'} { assert 'e' <= s[i] <= 't'; }
    assert s[..|s|] == s;
    SpanIs(s, {':', '/'}, |s|);
  }

  /** A leading colon: what validation writes is a relative URL, its host and port lost. */
  lemma LeadingColonReads(r: Resolver, e: Endpoint)
    requires AsciiPath(e) && Examine(r, WithScheme(e.url)).Resolved? && LeadingColon(e.url)
    ensures var u := Examined(r, e);
            Parse(Validated(r, e).url) ==
            Ok(EMPTY.(path := if Segments(u.path) == [] then DEFAULT_DATABASE else u.path, query := u.query))
  {
    ResolvedIsHosted(r, e);
    DatabaseSegment();
    SchemelessReads(Repacked(Examined(r, e), Examine(r, WithScheme(e.url)).port));
  }

  /**
   Unless name resolution failed, validation leaves a URL that reads back with scheme "postgresql",
   no user info, no fragment, a port and a database - except when the endpoint starts with a colon
   and its host resolves.
   */
  lemma ValidatedNamesDatabase(r: Resolver, e: Endpoint)
    requires AsciiPath(e) && !Examine(r, WithScheme(e.url)).DnsFailure?
    ensures IsDatabaseUrl(Validated(r, e).url) <==> !(Examine(r, WithScheme(e.url)).Resolved? && LeadingColon(e.url))
  {
    match Examine(r, WithScheme(e.url))
    case OtherFailure => DefaultReads();
    case Resolved(_) =>
      if LeadingColon(e.url) { LeadingColonReads(r, e); } else { ResolvedReads(r, e); }
  }

  // ------------------------------------------------------------------ what `db_start` connects to

  /** The given database with the given or the default port. */
  lemma ResolvedConnects(r: Resolver, e: Endpoint)
    requires AsciiPath(e) && Examine(r, WithScheme(e.url)).Resolved? && !LeadingColon(e.url)
    ensures var u := Examined(r, e); var p := Examine(r, WithScheme(e.url)).port;
            ConnectsTo(Validated(r, e).url) ==
            Some(Target(u.host, if p == 0 || u.port == 0 then DEFAULT_PORT else u.port,
                        if Segments(u.path) == [] then DEFAULT_DATABASE else u.path[1..]))
  {
    var u, p := Examined(r, e), Examine(r, WithScheme(e.url)).port;
    ResolvedIsHosted(r, e);
    ResolvedReads(r, e);
    RepackedIsRooted(u, p);
    PostgresPort();
    assert ("/" + DEFAULT_DATABASE)[1..] == DEFAULT_DATABASE;
  }

  /** A rejected endpoint falls back to the default database on this host. */
  lemma RejectedConnects(r: Resolver, e: Endpoint)
    requires Examine(r, WithScheme(e.url)).OtherFailure?
    ensures ConnectsTo(Validated(r, e).url) == Some(Target("localhost", DEFAULT_PORT, DEFAULT_DATABASE))
  {
    DefaultConnects(Validated(r, e).url);
  }

  lemma DefaultConnects(url: string)
    requires url == DEFAULT_URL
    ensures ConnectsTo(url) == Some(Target("localhost", DEFAULT_PORT, DEFAULT_DATABASE))
  {
    DefaultReads();
    DefaultPath();
    WithoutSlash(DEFAULT_DATABASE);
  }

  lemma WithoutSlash(s: string)
    ensures ("/" + s)[1..] == s
  {
  }

  /** An unresolved host is kept as it is, and ends `db_start` with an exception if no path follows it. */
  lemma UnresolvedConnects(r: Resolver, e: Endpoint)
    requires Examine(r, WithScheme(e.url)).DnsFailure?
    ensures var u := Parse(WithScheme(e.url)).value;
            ConnectsTo(Validated(r, e).url) ==
            if u.path == "" then None else Some(Target(u.host, GetPort(u), u.path[1..]))
  {
  }

  /** With a leading colon there is no host, and without a path the default database loses a letter. */
  lemma LeadingColonConnects(r: Resolver, e: Endpoint)
    requires AsciiPath(e) && Examine(r, WithScheme(e.url)).Resolved? && LeadingColon(e.url)
    ensures var path := Examined(r, e).path;
            ConnectsTo(Validated(r, e).url) ==
            Some(Target("", 0, if Segments(path) == [] then "ostgres" else path[1..]))
  {
    LeadingColonReads(r, e);
    NoSchemeNoPort();
    assert DEFAULT_DATABASE[1..] == "ostgres";
  }

  /** The host does not resolve, and no path follows it. */
  predicate Pathless(r: Resolver, e: Endpoint) {
    Examine(r, WithScheme(e.url)).DnsFailure? && Parse(WithScheme(e.url)).value.path == ""
  }

  /** Whatever the endpoint: `db_start` can take the validated URL apart unless it is of that kind. */
  lemma ConnectsUnlessPathless(r: Resolver, e: Endpoint)
    requires AsciiPath(e)
    ensures ConnectsTo(Validated(r, e).url).Some? <==> !Pathless(r, e)
  {
    match Examine(r, WithScheme(e.url))
    case OtherFailure => RejectedConnects(r, e);
    case DnsFailure => UnresolvedConnects(r, e);
    case Resolved(_) =>
      if LeadingColon(e.url) { LeadingColonConnects(r, e); } else { ResolvedConnects(r, e); }
  }

  lemma BareHostReads(host: string)
    requires host != "" && forall i :: 0 <= i < |host| ==> 'a' <= host[i] <= 'z'
    ensures Parse("postgresql" + (":" + ("//" + host))) == Ok(EMPTY.(scheme := "postgresql", host := host))
  {
    var v := EMPTY.(scheme := "postgresql");
    PostgresScheme();
    SchemeIsCutOff("postgresql", "//" + host);
    assert ("//" + host) + "" == "//" + host && host + "" == host;
    AuthorityIsCutOut(v, host, "");
    BareAuthorityReads(v, host);
    NothingReads(v.(host := host));
  }

  lemma BareAuthorityReads(v: UrlValue, host: string)
    requires host != "" && (forall i :: 0 <= i < |host| ==> 'a' <= host[i] <= 'z') && v.port == 0 && v.userInfo == ""
    ensures ParseAuthority(v, host) == Ok(v.(host := host))
  {
    assert host + "" == host;
    SplitReads("", host);
    PlainHostReads(v, host, "");
    LowerFixes(host);
  }

  lemma NothingReads(u: UrlValue)
    ensures ParsePathQueryFragment(u, "") == u
  {
  }

  lemma SchemeNeedsColon(s: string)
    requires Contains(s, "://")
    ensures ':' in s
  {
    FindIsFirst(s, "://", 0);
    var i := Find(s, "://", 0).value;
    assert s[i] == s[i..i + 3][0] == ':';
  }

  /** A name that is all the endpoint consists of, and that does not resolve, is such an endpoint. */
  lemma BareHostIsPathless(r: Resolver, e: Endpoint)
    requires e.url != "" && (forall i :: 0 <= i < |e.url| ==> 'a' <= e.url[i] <= 'z') && r.hosts(e.url) == DnsError
    ensures Pathless(r, e) && ConnectsTo(Validated(r, e).url) == None
  {
    var u := EMPTY.(scheme := "postgresql", host := e.url);
    if Contains(e.url, "://") { SchemeNeedsColon(e.url); }
    assert WithScheme(e.url) == "postgresql" + (":" + ("//" + e.url));
    BareHostReads(e.url);
    SplitAtColon(e.url, Decimal(0));
    DecimalRoundTripUnsigned(0);
    assert Resolve(r, SocketText(u)) == DnsFailure;
    UnresolvedConnects(r, e);
  }

  lemma NoHostStops(r: Resolver)
    requires r.hosts("nohost") == DnsError
    ensures ConnectsTo(Validated(r, Endpoint("nohost", "", "")).url) == None
  {
    BareHostIsPathless(r, Endpoint("nohost", "", ""));
  }

  // ------------------------------------------------------------------ which host is looked up

  /** The endpoint's own host and port are looked up, exactly if the host is not a bracketed address. */
  lemma OwnHostIsLookedUp(u: UrlValue)
    requires Hosted(u) && u.host != ""
    ensures SplitHostAndPort(SocketText(u)) == Some((u.host, Decimal(u.port))) <==> ':' !in u.host && u.host[0] != '['
  {
    if u.host[0] == '[' {
      BracketStaysOpen(u);
    } else if ':' in u.host {
      ColonHostSplits(u.host, Decimal(u.port));
    } else {
      SplitAtColon(u.host, Decimal(u.port));
    }
  }

  /** An address that starts with a colon is rejected, whatever the name services answer. */
  lemma ColonAddressIsRejected(r: Resolver, u: UrlValue, e: Endpoint)
    requires Representable(u) && WellFormed(u) && u.scheme == "postgresql" && u.host != "" && u.host[0] == ':'
    requires e.url == ToString(u)
    ensures Validated(r, e).url == DEFAULT_URL
  {
    PrintedUrlParsesBack(u);
    UrlWithHostContains(u);
    var v := Explicit(u);
    ColonHostResolves(r, v.host, Decimal(v.port));
    SpanIs(v.host, {':'}, 0);
  }

  lemma UrlWithHostContains(u: UrlValue)
    requires u.scheme == "postgresql" && u.host != ""
    ensures Contains(ToString(u), "://")
  {
    var auth, tail := AuthorityText(u), PathText(u) + Tail(u);
    assert HostText(u) != "";
    assert ("//" + auth) + tail == "//" + (auth + tail);
    SchemedContains(auth + tail);
  }

  lemma LoopbackText(port: string, path: string)
    requires port == "5432" && path == "/d"
    ensures "postgresql" + (":" + (("//" + ("[::1]" + (":" + port))) + path)) == "postgresql://[::1]:5432/d"
  {
  }

  lemma LoopbackPrints(u: UrlValue)
    requires u == UrlValue("postgresql", "", "::1", 5432, "/d", "", "")
    ensures ToString(u) == "postgresql://[::1]:5432/d"
  {
    DefaultPort5432();
    SlashEncodes("d");
    assert "/" + "d" == "/d" && Encode("d", RESERVED_PATH) == "d";
    LoopbackAuthority(u);
    assert PathText(u) + Tail(u) == "/d" by { assert ("" + "/d") + ("" + "") == "/d"; }
    LoopbackText("5432", "/d");
  }

  lemma LoopbackAuthority(u: UrlValue)
    requires u.userInfo == "" && u.host == "::1" && u.port == 5432 && Decimal(u.port) == "5432"
    ensures AuthorityText(u) == "[::1]" + (":" + "5432")
  {
    assert u.host[0] == ':';
    assert HostText(u) == "[::1]" && PortText(u) == ":" + "5432";
  }

  lemma LoopbackHost(host: string)
    requires host == "::1"
    ensures HostOk(host) && Free(host, {'@', '/', '?', '#'}) && host != "" && host[0] == ':'
  {
    forall i | 0 <= i < |host| ensures '1' <= host[i] <= ':' {
    }
    assert ':' in host by { assert host[0] == ':'; }
  }

  lemma LoopbackIsWellFormed(u: UrlValue)
    requires u == UrlValue("postgresql", "", "::1", 5432, "/d", "", "")
    ensures WellFormed(u) && Representable(u) && u.host != "" && u.host[0] == ':'
  {
    PostgresScheme();
    LoopbackHost(u.host);
    assert AuthorityText(u) != "" by { assert PortText(u) != ""; }
  }

  /** The loopback address of IPv6 is one. */
  lemma LoopbackIsRejected(r: Resolver)
    ensures Validated(r, Endpoint("postgresql://[::1]:5432/d", "", "")).url == DEFAULT_URL
  {
    var u := UrlValue("postgresql", "", "::1", 5432, "/d", "", "");
    LoopbackPrints(u);
    LoopbackIsWellFormed(u);
    ColonAddressIsRejected(r, u, Endpoint("postgresql://[::1]:5432/d", "", ""));
  }

  // ------------------------------------------------------------------ where the credentials go

  lemma CredentialsComeApart(login: string, password: string)
    requires ':' !in login
    ensures Credentials(login + (":" + password)) == (login, password) && Credentials(login) == (login, "")
  {
    SpanOver(login, ":" + password, {':'});
    SpanIs(login, {':'}, |login|);
    assert login[..|login|] == login && (":" + password)[1..] == password;
    assert (login + (":" + password))[|login| + 1..] == (login + (":" + password))[|login|..][1..];
  }

  /** What was configured is kept, whatever becomes of the URL. */
  lemma OwnCredentialsWin(r: Resolver, e: Endpoint)
    ensures e.login != "" ==> Validated(r, e).login == e.login
    ensures e.password != "" ==> Validated(r, e).password == e.password
  {
  }

  /** Without credentials from a URL whose host resolves, what is missing becomes the default. */
  lemma DefaultsFillIn(r: Resolver, e: Endpoint)
    requires Examine(r, WithScheme(e.url)).Resolved? ==> Examined(r, e).userInfo == ""
    ensures e.login == "" ==> Validated(r, e).login == "postgres"
    ensures e.password == "" ==> Validated(r, e).password == ""
  {
  }

  /** A user info without a colon is a login; the password is then the default. */
  lemma LoginAlone(r: Resolver, e: Endpoint)
    requires Examine(r, WithScheme(e.url)).Resolved? && Examined(r, e).userInfo != "" && ':' !in Examined(r, e).userInfo
    ensures e.login == "" ==> Validated(r, e).login == Examined(r, e).userInfo
    ensures e.password == "" ==> Validated(r, e).password == ""
  {
    CredentialsComeApart(Examined(r, e).userInfo, "");
  }

  /** Whatever the user info is, it comes apart in one way: at its first colon, or nowhere. */
  predicate UserInfoIs(userInfo: string, login: string, password: string) {
    ':' !in login && (userInfo == login + (":" + password) || (userInfo == login && password == ""))
  }

  lemma UserInfoComesApart(userInfo: string) returns (login: string, password: string)
    ensures UserInfoIs(userInfo, login, password)
  {
    var k := Span(userInfo, {':'});
    SpanIsFree(userInfo, {':'});
    login, password := userInfo[..k], if k < |userInfo| then userInfo[k + 1..] else "";
    assert k == |userInfo| ==> login == userInfo;
  }

  /**
   The user info of a resolving URL moves out of it: login and password are each taken if they are
   there and none was configured, and the default is if they are not.
   */
  lemma CredentialsMove(r: Resolver, e: Endpoint, login: string, password: string)
    requires AsciiPath(e) && Examine(r, WithScheme(e.url)).Resolved?
    requires UserInfoIs(Examined(r, e).userInfo, login, password)
    ensures var v := Validated(r, e);
            v.login == (if e.login != "" then e.login else if login != "" then login else "postgres") &&
            v.password == (if e.password != "" then e.password else password) &&
            Parse(v.url).Ok? && Parse(v.url).value.userInfo == ""
  {
    CredentialsComeApart(login, password);
    if LeadingColon(e.url) { LeadingColonReads(r, e); } else { ResolvedReads(r, e); }
  }

  // ------------------------------------------------------------------ the exception

  /** A database URL but for its missing scheme, with or without a database. */
  predicate LacksScheme(u: UrlValue) {
    && u.scheme == "" && u.host != "" && ':' !in u.host && u.port != 0
    && Representable(u) && AuthorityOk(u) && PathOk(u) && Free(u.query, {'#'})
  }

  /** Its text, with a colon in place of the scheme. */
  function ColonText(u: UrlValue): string {
    ":" + (("//" + AuthorityText(u)) + (PathText(u) + Tail(u)))
  }

  lemma ColonSlashes(rest: string, front: string, back: string)
    requires rest == ("//" + front) + back
    ensures LeadingColon(":" + rest) && "" + (":" + rest) == ":" + rest
  {
    var s := ":" + rest;
    assert s[0..3] == "://";
    OccurrenceFound(s, "://", 0);
  }

  lemma ColonReads(u: UrlValue)
    requires LacksScheme(u)
    ensures LeadingColon(ColonText(u)) && Parse(ColonText(u)) == Ok(u)
  {
    var rest := ("//" + AuthorityText(u)) + (PathText(u) + Tail(u));
    assert PortText(u) != "";
    HierarchyWithAuthority(u, EMPTY);
    ColonIsAScheme("", rest);
    ColonSlashes(rest, AuthorityText(u), PathText(u) + Tail(u));
    assert Lower("") == "";
  }

  lemma PlainHostResolves(r: Resolver, u: UrlValue)
    requires HostOk(u.host) && u.host != "" && ':' !in u.host && u.port < 65536 && r.hosts(u.host) == Found
    requires u.host[0] != '/'
    ensures Resolve(r, SocketText(u)) == Resolved(u.port)
  {
    SplitAtColon(u.host, Decimal(u.port));
    DecimalRoundTripUnsigned(u.port);
  }

  lemma ColonResolves(r: Resolver, u: UrlValue)
    requires LacksScheme(u) && r.hosts(u.host) == Found
    ensures WithScheme(ColonText(u)) == ColonText(u) && Examine(r, ColonText(u)) == Resolved(u.port)
  {
    ColonReads(u);
    assert u.host[0] !in {'@', '/', '?', '#'};
    PlainHostResolves(r, u);
  }

  /** Any such text whose host resolves loses that host, and `db_start` connects to none. */
  lemma LeadingColonLosesHost(r: Resolver, u: UrlValue, e: Endpoint)
    requires LacksScheme(u) && r.hosts(u.host) == Found && e.url == ColonText(u)
    ensures ConnectsTo(Validated(r, e).url) ==
            Some(Target("", 0, if Segments(u.path) == [] then "ostgres" else u.path[1..]))
  {
    ColonReads(u);
    ColonResolves(r, u);
    LeadingColonConnects(r, e);
  }

  lemma SmallTexts()
    ensures Decimal(6432) == "6432" && Encode("/d", RESERVED_PATH) == "/d" && Segments("/d") == ["d"]
  {
    assert Decimal(6) == "6" && Decimal(64) == "64" && Decimal(643) == "643";
    SlashEncodes("d");
    assert "/" + "d" == "/d" && Encode("d", RESERVED_PATH) == "d";
    LoneSegment("d");
    assert "/d"[1..] == "d";
  }

  lemma SmallAuthority(u: UrlValue)
    requires u.userInfo == "" && u.host == "h" && u.port == 6432 && Decimal(u.port) == "6432"
    ensures AuthorityText(u) == "h:6432"
  {
    assert HostText(u) == "h" && PortText(u) == ":" + "6432";
  }

  lemma SmallText(authority: string, path: string)
    requires authority == "h:6432" && path == "/d"
    ensures ":" + (("//" + authority) + (path + "")) == "://h:6432/d"
  {
  }

  lemma SmallParts(u: UrlValue)
    requires u.userInfo == "" && u.host == "h" && u.port == 6432 && u.path == "/d" && u.query == "" && u.fragment == ""
    requires Decimal(u.port) == "6432" && Encode(u.path, RESERVED_PATH) == "/d"
    ensures ColonText(u) == "://h:6432/d"
  {
    SmallAuthority(u);
    assert PathText(u) == "/d" by { assert "" + "/d" == "/d"; }
    SmallText(AuthorityText(u), PathText(u));
  }

  lemma SmallPathless(u: UrlValue)
    requires u.userInfo == "" && u.host == "h" && u.port == 6432 && u.path == "" && u.query == "" && u.fragment == ""
    requires Decimal(u.port) == "6432"
    ensures ColonText(u) == "://h:6432"
  {
    SmallAuthority(u);
    assert PathText(u) == "" && Tail(u) == "";
    SmallPathlessText(AuthorityText(u), PathText(u) + Tail(u));
  }

  lemma SmallPathlessText(authority: string, rest: string)
    requires authority == "h:6432" && rest == ""
    ensures ":" + (("//" + authority) + rest) == "://h:6432"
  {
  }

  /** Without a path, `db_start` is even left with a database that nobody named. */
  lemma DatabaseIsGarbled(r: Resolver)
    requires r.hosts("h") == Found
    ensures ConnectsTo(Validated(r, Endpoint("://h:6432", "", "")).url) == Some(Target("", 0, "ostgres"))
  {
    var u := UrlValue("", "", "h", 6432, "", "", "");
    SmallTexts();
    SmallPathless(u);
    LeadingColonLosesHost(r, u, Endpoint("://h:6432", "", ""));
  }

  /** One such endpoint. */
  lemma HostIsLost(r: Resolver)
    requires r.hosts("h") == Found
    ensures ConnectsTo(Validated(r, Endpoint("://h:6432/d", "", "")).url) == Some(Target("", 0, "d"))
  {
    var u := UrlValue("", "", "h", 6432, "/d", "", "");
    SmallTexts();
    SmallParts(u);
    LeadingColonLosesHost(r, u, Endpoint("://h:6432/d", "", ""));
  }
}
