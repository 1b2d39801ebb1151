/** Validating a second time: exactly when does it leave URL and credentials as they are? */
module EndpointStability {
  import opened Wrappers
  import opened Text
  import opened Numbers
  import opened UrlSyntax
  import opened UrlRoundTrip
  import opened SocketAddress
  import opened Endpoint
  import opened ValidatedEndpoint

  // ------------------------------------------------------------------ a host that resolves keeps resolving

  lemma ServiceEndsAtColon(r: Resolver, name: string, a: string, b: string)
    requires OrdinaryServices(r)
    ensures ServicePort(r, name + (":" + a)) == ServicePort(r, name + (":" + b))
  {
    NumberEndsAtColon(name, a, b);
    assert (name + (":" + a))[|name|] == ':' && (name + (":" + b))[|name|] == ':';
  }

  lemma SplitsResolveAlike(r: Resolver, x: string, y: string, front: string, a: string, b: string)
    requires x != "" && y != "" && x[0] == y[0] && ServicePort(r, a) == ServicePort(r, b)
    requires SplitHostAndPort(x) == if front == "" then None else Some((front, a))
    requires SplitHostAndPort(y) == if front == "" then None else Some((front, b))
    ensures Resolve(r, x) == Resolve(r, y)
  {
  }

  lemma ColonHostParts(host: string, port: string, front: string, back: string)
    requires ':' in host && host[0] != '[' && front == host[..Span(host, {':'})]
    requires Span(host, {':'}) < |host| && back == host[Span(host, {':'}) + 1..]
    ensures var text := host + (":" + port);
            text != "" && text[0] == host[0] &&
            SplitHostAndPort(text) == if front == "" then None else Some((front, back + (":" + port)))
  {
    ColonHostSplits(host, port);
  }

  /** A bracketed host resolves, if at all, to a port inside the brackets, whatever port follows. */
  lemma ColonHostResolvesAlike(r: Resolver, host: string, a: string, b: string)
    requires OrdinaryServices(r) && ':' in host && host[0] != '['
    ensures Resolve(r, host + (":" + a)) == Resolve(r, host + (":" + b))
  {
    FirstColon(host);
    var k := Span(host, {':'});
    var front, back := host[..k], host[k + 1..];
    ColonHostParts(host, a, front, back);
    ColonHostParts(host, b, front, back);
    ServiceEndsAtColon(r, back, a, b);
    SplitsResolveAlike(r, host + (":" + a), host + (":" + b), front, back + (":" + a), back + (":" + b));
  }

  lemma PlainHostPort(r: Resolver, u: UrlValue, p: nat)
    requires ':' !in u.host && u.host != "" && u.host[0] != '[' && u.port < 65536
    requires Resolve(r, SocketText(u)) == Resolved(p)
    ensures p == u.port && u.host[0] != '/' && r.hosts(u.host) == Found
  {
    SplitAtColon(u.host, Decimal(u.port));
    DecimalRoundTripUnsigned(u.port);
  }

  lemma AcceptedPort(u: UrlValue, p: nat)
    requires u.scheme == "postgresql" && u.port < 65536
    ensures var v := Accepted(u, p);
            v.host == u.host && 0 < v.port < 65536 && (p == 0 ==> v.port == DEFAULT_PORT)
  {
    PostgresPort();
  }

  /** A host that resolved with one port resolves with any other: to that port, or as it did before. */
  lemma ResolvesAgain(r: Resolver, u: UrlValue, p: nat, v: UrlValue)
    requires OrdinaryServices(r) && HostShape(u.host) && u.port < 65536 && Resolve(r, SocketText(u)) == Resolved(p)
    requires v.host == u.host && 0 < v.port < 65536
    ensures Resolve(r, SocketText(v)).Resolved? && Resolve(r, SocketText(v)).port in {p, v.port}
  {
    ResolvedHost(r, u);
    BracketNeverResolves(r, u);
    if ':' in u.host {
      ColonHostResolvesAlike(r, u.host, Decimal(u.port), Decimal(v.port));
    } else {
      PlainHostPort(r, u, p);
      PlainHostResolves(r, v);
    }
  }

  /** The accepted URL resolves again, to the port the first resolution gave or to the default put in. */
  lemma AcceptedResolves(r: Resolver, u: UrlValue, p: nat)
    requires OrdinaryServices(r) && Hosted(u) && u.scheme == "postgresql" && Resolve(r, SocketText(u)) == Resolved(p)
    ensures var v := Accepted(u, p);
            Resolve(r, SocketText(v)).Resolved? &&
            (Resolve(r, SocketText(v)).port == 0 ==> v.port == DEFAULT_PORT)
  {
    AcceptedPort(u, p);
    ResolvesAgain(r, u, p, Accepted(u, p));
  }

  lemma BracketNeverResolves(r: Resolver, u: UrlValue)
    requires HostShape(u.host) && u.host != "" && Resolve(r, SocketText(u)).Resolved?
    ensures u.host[0] != '['
  {
    if u.host[0] == '[' { BracketStaysOpen(u); }
  }

  // ------------------------------------------------------------------ the accepted URL stays as it is

  /** Its text is that of a URL with a scheme and an authority. */
  lemma AcceptedText(u: UrlValue, p: nat)
    requires u.scheme == "postgresql" && u.host != ""
    ensures Contains(ToString(Repacked(u, p)), "://")
  {
    UrlWithHostContains(Repacked(u, p));
  }

  lemma AcceptedPrints(u: UrlValue, p: nat)
    requires Hosted(u) && Ascii(u.path) && u.scheme == "postgresql" && u.host != ""
    ensures var v := Accepted(u, p);
            ToString(v) == ToString(Repacked(u, p)) && Repacked(v, 1) == v
  {
    RepackedIsRooted(u, p);
    RootedPrintsAlike(Repacked(u, p));
    PostgresPort();
    ExplicitPrintsAlike(Rooted(Repacked(u, p)));
  }

  lemma ExplicitPrintsAlike(u: UrlValue)
    requires u.scheme != ""
    ensures ToString(Explicit(u)) == ToString(u)
  {
    assert AuthorityText(Explicit(u)) == AuthorityText(u);
  }

  // ------------------------------------------------------------------ the second validation

  lemma NoCredentials()
    ensures Credentials("") == ("", "")
  {
  }

  lemma UnresolvedIsStable(r: Resolver, e: Endpoint)
    requires Examine(r, WithScheme(e.url)).DnsFailure?
    ensures Validated(r, Validated(r, e)) == Validated(r, e)
  {
    WithSchemeHasScheme(e.url);
  }

  lemma DefaultStays(p: nat)
    ensures Repacked(DEFAULT_VALUE, p) == DEFAULT_VALUE
  {
    DefaultReads();
  }

  lemma DefaultContains()
    ensures Contains(DEFAULT_URL, "://")
  {
    DefaultStays(0);
    DefaultPrints();
    AcceptedText(DEFAULT_VALUE, 0);
  }

  /** A printed URL that repacking leaves alone stays put, unless it is rejected. */
  lemma StaysPut(r: Resolver, v: UrlValue, e: Endpoint)
    requires e.login != "" && Contains(e.url, "://")
    requires Parse(e.url) == Ok(v) && ToString(v) == e.url && v.userInfo == ""
    requires Examine(r, e.url).Resolved? ==> Repacked(v, Examine(r, e.url).port) == v
    ensures Validated(r, e) == if Examine(r, e.url).OtherFailure? then e.(url := DEFAULT_URL) else e
  {
    NoCredentials();
  }

  /** The default URL is validated as itself, whatever its host resolves to. */
  lemma DefaultIsStable(r: Resolver, e: Endpoint)
    requires e.url == DEFAULT_URL && e.login != ""
    ensures Validated(r, e) == e
  {
    DefaultContains();
    DefaultReads();
    DefaultPrints();
    if Examine(r, e.url).Resolved? { DefaultStays(Examine(r, e.url).port); }
    StaysPut(r, DEFAULT_VALUE, e);
  }

  lemma RejectedIsStable(r: Resolver, e: Endpoint)
    requires Examine(r, WithScheme(e.url)).OtherFailure?
    ensures Validated(r, Validated(r, e)) == Validated(r, e)
  {
    DefaultIsStable(r, Validated(r, e));
  }

  lemma AcceptedStays(r: Resolver, u: UrlValue, p: nat)
    requires OrdinaryServices(r) && Hosted(u) && Ascii(u.path) && u.scheme == "postgresql" && u.host != ""
    requires Resolve(r, SocketText(u)) == Resolved(p)
    ensures var v := Accepted(u, p); var again := Resolve(r, SocketText(v));
            again.Resolved? && Repacked(v, again.port) == v
  {
    AcceptedPrints(u, p);
    AcceptedResolves(r, u, p);
  }

  lemma AcceptedAgain(r: Resolver, v: UrlValue, e: Endpoint)
    requires e.login != "" && Contains(e.url, "://") && Parse(e.url) == Ok(v) && ToString(v) == e.url
    requires v.scheme == "postgresql" && v.userInfo == ""
    requires var again := Resolve(r, SocketText(v)); again.Resolved? && Repacked(v, again.port) == v
    ensures Validated(r, e) == e
  {
    assert Examine(r, e.url) == Resolve(r, SocketText(v));
    StaysPut(r, v, e);
  }

  /** What was printed for an accepted URL is validated as itself. */
  lemma PrintedStays(r: Resolver, u: UrlValue, p: nat, e: Endpoint)
    requires OrdinaryServices(r) && Hosted(u) && Ascii(u.path) && u.scheme == "postgresql" && u.host != ""
    requires Resolve(r, SocketText(u)) == Resolved(p)
    requires e.url == ToString(Repacked(u, p)) && e.login != "" && Parse(e.url) == Ok(Accepted(u, p))
    requires NamesDatabase(Accepted(u, p))
    ensures Validated(r, e) == e
  {
    AcceptedStays(r, u, p);
    AcceptedText(u, p);
    AcceptedPrints(u, p);
    AcceptedAgain(r, Accepted(u, p), e);
  }

  /** What validation writes for an endpoint that resolves. */
  lemma ResolvedWrites(r: Resolver, e: Endpoint)
    requires AsciiPath(e) && Examine(r, WithScheme(e.url)).Resolved?
    ensures Validated(r, e).url == ToString(Repacked(Examined(r, e), Examine(r, WithScheme(e.url)).port))
    ensures Validated(r, e).login != "" && Ascii(Examined(r, e).path)
    ensures Resolve(r, SocketText(Examined(r, e))) == Resolved(Examine(r, WithScheme(e.url)).port)
  {
  }

  lemma ResolvedIsStable(r: Resolver, e: Endpoint)
    requires OrdinaryServices(r) && AsciiPath(e)
    requires Examine(r, WithScheme(e.url)).Resolved? && !LeadingColon(e.url)
    ensures Validated(r, Validated(r, e)) == Validated(r, e)
  {
    ResolvedIsHosted(r, e);
    ResolvedReads(r, e);
    ResolvedWrites(r, e);
    PrintedStays(r, Examined(r, e), Examine(r, WithScheme(e.url)).port, Validated(r, e));
  }

  // ------------------------------------------------------------------ the exception

  lemma PrintedIsDifferent(u: UrlValue, p: nat, text: string)
    requires u.scheme == "postgresql" && u.host != "" && !Contains(text, "://")
    ensures ToString(Repacked(u, p)) != text
  {
    AcceptedText(u, p);
  }

  /** A relative URL never stays: it is rejected, or gets a scheme. */
  lemma RelativeChanges(r: Resolver, e: Endpoint)
    requires Parse(e.url).Ok? && Parse(e.url).value.scheme == "" && Parse(e.url).value.host == ""
    ensures Validated(r, e).url != e.url
  {
    DefaultReads();
    DefaultContains();
    if Contains(e.url, "://") {
      if Examine(r, e.url).Resolved? { ResolvedIsHosted(r, e); }
      var u := Parse(e.url).value;
      EmptyHostFails(r, u);
    } else {
      WithSchemeHasScheme(e.url);
      if Examine(r, WithScheme(e.url)).Resolved? {
        ResolvedIsHosted(r, e);
        PrintedIsDifferent(Examined(r, e), Examine(r, WithScheme(e.url)).port, e.url);
      }
    }
  }

  /**
   Validating again changes neither URL nor credentials, with one exception: an endpoint that starts
   with a colon and whose host resolves.
   */
  lemma ValidationIsStable(r: Resolver, e: Endpoint)
    requires OrdinaryServices(r) && AsciiPath(e)
    ensures Validated(r, Validated(r, e)) == Validated(r, e)
       <==> !(Examine(r, WithScheme(e.url)).Resolved? && LeadingColon(e.url))
  {
    match Examine(r, WithScheme(e.url))
    case DnsFailure => UnresolvedIsStable(r, e);
    case OtherFailure => RejectedIsStable(r, e);
    case Resolved(_) =>
      if LeadingColon(e.url) {
        LeadingColonReads(r, e);
        RelativeChanges(r, Validated(r, e));
      } else {
        ResolvedIsStable(r, e);
      }
  }
}
