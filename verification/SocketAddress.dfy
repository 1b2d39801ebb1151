/**
 Socket addresses as configuration validation uses them: does "host:port" resolve, and to which
 port. Name services are an oracle; cutting the text apart is the code's own.
 */
module SocketAddress {
  import opened Wrappers
  import opened Text
  import opened Numbers

  datatype HostOutcome = Found | DnsError | NoAddress

  /** The host's answers: the port of a named service, and what looking up a host name gives. */
  datatype Resolver = Resolver(services: string -> Option<nat>, hosts: string -> HostOutcome)

  /** A constructed address with its port, a `DnsException`, or another exception. */
  datatype Resolution = Resolved(port: nat) | DnsFailure | OtherFailure

  function PortPart(rest: string): string {
    if rest != "" && rest[0] == ':' then rest[1..] else ""
  }

  function SplitHostAndPort(text: string): Option<(string, string)> {
    if text == "" then None
    else
      var bracketed := text[0] == '[';
      var k := if bracketed then Span(text[1..], {']'}) else Span(text, {':'});
      if bracketed && k == |text| - 1 then None
      else
        var host := if bracketed then text[1..][..k] else text[..k];
        var port := PortPart(if bracketed then text[1..][k + 1..] else text[k..]);
        if host == "" || port == "" then None else Some((host, port))
  }

  /** A number up to 65535, or else the name of a service. */
  function ServicePort(r: Resolver, service: string): Option<nat> {
    match StoUInt(service)
    case Some(n) => if n <= 0xFFFF then Some(n) else r.services(service)
    case None => r.services(service)
  }

  function ResolveParts(r: Resolver, host: string, port: string): Resolution {
    match ServicePort(r, port)
    case None => DnsFailure
    case Some(n) =>
      match r.hosts(host)
      case Found => Resolved(n)
      case DnsError => DnsFailure
      case NoAddress => OtherFailure
  }

  function Resolve(r: Resolver, text: string): Resolution {
    if text != "" && text[0] == '/' then OtherFailure  // a UNIX address has no port number
    else
      match SplitHostAndPort(text)
      case None => OtherFailure
      case Some((host, port)) => ResolveParts(r, host, port)
  }

  /** No service is registered under a name with a colon in it. */
  ghost predicate OrdinaryServices(r: Resolver) {
    forall s: string :: ':' in s ==> r.services(s).None?
  }

  lemma SplitAtColon(front: string, back: string)
    requires ':' !in front && (front == "" || front[0] != '[')
    ensures SplitHostAndPort(front + (":" + back)) == if front == "" || back == "" then None else Some((front, back))
  {
    var text := front + (":" + back);
    SpanOver(front, ":" + back, {':'});
    assert (":" + back)[1..] == back;
    assert text[0] == if front == "" then ':' else front[0];
  }

  lemma FirstColon(host: string)
    requires ':' in host
    ensures var k := Span(host, {':'}); k < |host| && host[k] == ':' && ':' !in host[..k]
  {
    var i :| 0 <= i < |host| && host[i] == ':';
    assert host[i] in {':'};
  }

  lemma CutAndJoin(host: string, k: nat, port: string)
    requires k < |host| && host[k] == ':'
    ensures host + (":" + port) == host[..k] + (":" + (host[k + 1..] + (":" + port)))
  {
  }

  /** A host with a colon in it is cut there: the port is then read from the rest, up to the next colon. */
  lemma ColonHostSplits(host: string, port: string)
    requires ':' in host && host[0] != '['
    ensures var k := Span(host, {':'});
            k < |host| && SplitHostAndPort(host + (":" + port)) ==
            if k == 0 then None else Some((host[..k], host[k + 1..] + (":" + port)))
  {
    var k := Span(host, {':'});
    FirstColon(host);
    CutAndJoin(host, k, port);
    SplitAtColon(host[..k], host[k + 1..] + (":" + port));
  }

  lemma ColonHostResolves(r: Resolver, host: string, port: string)
    requires ':' in host && host[0] != '['
    ensures var k := Span(host, {':'});
            k < |host| && Resolve(r, host + (":" + port)) ==
            if host[0] == '/' || k == 0 then OtherFailure
            else ResolveParts(r, host[..k], host[k + 1..] + (":" + port))
  {
    ColonHostSplits(host, port);
    assert (host + (":" + port))[0] == host[0];
  }

  /** A text that opens a bracket and never closes it has no host and port. */
  lemma OpenBracketFails(text: string)
    requires text != "" && text[0] == '[' && ']' !in text
    ensures SplitHostAndPort(text) == None
  {
    SpanIs(text[1..], {']'}, |text| - 1);
  }

  /** An address without a host part is refused. */
  lemma NoHostFails(r: Resolver, back: string)
    ensures Resolve(r, ":" + back) == OtherFailure
  {
    SplitAtColon("", back);
    assert "" + (":" + back) == ":" + back;
  }

  /** "[address]:port": brackets keep the colons of an address from ending it. */
  lemma BracketedSplits(host: string, port: string)
    requires ']' !in host
    ensures SplitHostAndPort("[" + (host + ("]" + (":" + port)))) ==
            if host == "" || port == "" then None else Some((host, port))
  {
    var text, rest := "[" + (host + ("]" + (":" + port))), "]" + (":" + port);
    assert text[1..] == host + rest;
    SpanOver(host, rest, {']'});
    assert text[1..][|host| + 1..] == ":" + port && (":" + port)[1..] == port;
  }

  /** A number up to 65535 is the port itself; any other text is the name of a service. */
  lemma PortsAndServices(r: Resolver, n: nat, name: string)
    ensures n < 0x1_0000_0000 ==> ServicePort(r, Decimal(n)) == if n <= 65535 then Some(n) else r.services(Decimal(n))
    ensures (forall i :: 0 <= i < |name| ==> 'a' <= name[i] <= 'z') ==> ServicePort(r, name) == r.services(name)
  {
    if n < 0x1_0000_0000 { DecimalRoundTripUnsigned(n); }
  }
}
