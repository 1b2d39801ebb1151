/**
 The textual form of a URL (section 3 of RFC 3986 as the `Url` class understands it): what `parse`
 makes of a text and what `to_string` prints, as functions on the seven stored components.
 */
module UrlSyntax {
  import opened Wrappers
  import opened Text
  import opened Numbers
  import opened UrlCodec

  datatype UrlValue = UrlValue(
    scheme: string, userInfo: string, host: string, port: nat, path: string, query: string, fragment: string)

  const EMPTY := UrlValue("", "", "", 0, "", "", "")

  datatype UrlError = NothingAfterScheme | UnterminatedAddress | BadPort

  // ------------------------------------------------------------------ ports

  type PortEntry = e: (string, nat) | e.0 != "" && 0 < e.1 < 65536 witness ("http", 80)

  const WELL_KNOWN_PORTS: seq<PortEntry> := [
    ("ftp", 21), ("ssh", 22), ("telnet", 23), ("smtp", 25), ("dns", 53), ("http", 80), ("ws", 80),
    ("nntp", 119), ("imap", 143), ("ldap", 389), ("https", 443), ("wss", 443), ("smtps", 465),
    ("rtsp", 554), ("ldaps", 636), ("dnss", 853), ("imaps", 993), ("sip", 5060), ("sips", 5061),
    ("xmpp", 5222), ("postgresql", 5432), ("amqp", 5672)]

  function Lookup(table: seq<PortEntry>, key: string): (port: nat)
    ensures port < 65536
  {
    if table == [] then 0 else if table[0].0 == key then table[0].1 else Lookup(table[1..], key)
  }

  lemma {:induction false} LookupFinds(table: seq<PortEntry>, key: string, i: nat)
    requires i < |table| && table[i].0 == key && forall j :: 0 <= j < i ==> table[j].0 != key
    ensures Lookup(table, key) == table[i].1
  {
    if i > 0 {
      assert table[0].0 != key && table[1..][i - 1] == table[i];
      forall j | 0 <= j < i - 1 ensures table[1..][j].0 != key { assert table[1..][j] == table[j + 1]; }
      LookupFinds(table[1..], key, i - 1);
    }
  }

  lemma {:induction false} LookupNothing(table: seq<PortEntry>)
    ensures Lookup(table, "") == 0
  {
    if table != [] {
      LookupNothing(table[1..]);
    }
  }

  /** The well-known port of a scheme, or 0. */
  function DefaultPort(scheme: string): nat {
    Lookup(WELL_KNOWN_PORTS, scheme)
  }

  function GetPort(u: UrlValue): nat {
    if u.port != 0 then u.port else DefaultPort(u.scheme)
  }

  /** `operator==`: the ports compared are the effective ones. */
  predicate Equals(u: UrlValue, v: UrlValue) {
    && u.scheme == v.scheme && u.userInfo == v.userInfo && u.host == v.host
    && GetPort(u) == GetPort(v)
    && u.path == v.path && u.query == v.query && u.fragment == v.fragment
  }

  // ------------------------------------------------------------------ reading

  const PATH_STOPS: set<char> := {'?', '#'}
  const AUTHORITY_STOPS: set<char> := {'/', '?', '#'}
  const SCHEME_STOPS: set<char> := {':', '?', '#', '/'}

  function ParsePath(u: UrlValue, text: string): UrlValue {
    if text == "" then u
    else match Decode(text)
      case Some(path) => u.(path := path)
      case None => u
  }

  function ParseQuery(u: UrlValue, rest: string): UrlValue {
    if rest != "" && rest[0] == '?' then u.(query := rest[1..][..Span(rest[1..], {'#'})]) else u
  }

  function ParseFragment(u: UrlValue, rest: string): UrlValue {
    if rest != "" && rest[0] == '#' then u.(fragment := rest[1..]) else u
  }

  function AfterQuery(rest: string): string {
    if rest != "" && rest[0] == '?' then rest[1..][Span(rest[1..], {'#'})..] else rest
  }

  function ParsePathQueryFragment(u: UrlValue, s: string): UrlValue {
    var k := Span(s, PATH_STOPS);
    ParseFragment(ParseQuery(ParsePath(u, s[..k]), s[k..]), AfterQuery(s[k..]))
  }

  /** The text before the last '@' (back to the one before it), and the text after it. */
  function SplitUser(user: string, authority: string): (string, string)
    decreases |authority|
  {
    var k := Span(authority, {'@'});
    if k == |authority| then (user, authority) else SplitUser(authority[..k], authority[k + 1..])
  }

  function ParsePort(rest: string): Result<nat, UrlError> {
    if rest == "" || rest[0] != ':' || |rest| == 1 then Ok(0)
    else
      match StoI(rest[1..])
      case Some(n) => if 0 < n < 65536 then Ok(n) else Err(BadPort)
      case None => Err(BadPort)
  }

  function FoldHost(host: string): string {
    if host != "" && host[0] != '%' then Lower(host) else host
  }

  function WithHost(u: UrlValue, host: string, rest: string): Result<UrlValue, UrlError> {
    match ParsePort(rest)
    case Ok(port) => Ok(u.(host := FoldHost(host), port := port))
    case Err(e) => Err(e)
  }

  function ParseHostAndPort(u: UrlValue, part: string): Result<UrlValue, UrlError> {
    if part == "" then Ok(u)
    else if part[0] == '[' then
      var k := Span(part[1..], {']'});
      if k == |part| - 1 then Err(UnterminatedAddress) else WithHost(u, part[1..][..k], part[1..][k + 1..])
    else
      var k := Span(part, {':'});
      WithHost(u, part[..k], part[k..])
  }

  function ParseAuthority(u: UrlValue, authority: string): Result<UrlValue, UrlError> {
    var (user, part) := SplitUser("", authority);
    match ParseHostAndPort(u, part)
    case Ok(v) => Ok(v.(userInfo := user))
    case Err(e) => Err(e)
  }

  /** Behind "scheme:": an authority if the text goes on with "//", then path, query and fragment. */
  function ParseHierarchy(u: UrlValue, s: string): Result<UrlValue, UrlError> {
    if |s| >= 2 && s[0] == '/' && s[1] == '/' then
      var k := Span(s[2..], AUTHORITY_STOPS);
      match ParseAuthority(u, s[2..][..k])
      case Ok(v) => Ok(ParsePathQueryFragment(v, s[2..][k..]))
      case Err(e) => Err(e)
    else Ok(ParsePathQueryFragment(u, s))
  }

  function ParseInto(u: UrlValue, s: string): Result<UrlValue, UrlError> {
    if s == "" then Ok(u)
    else if s[0] == '/' || s[0] == '.' || s[0] == '?' || s[0] == '#' then Ok(ParsePathQueryFragment(u, s))
    else
      var k := Span(s, SCHEME_STOPS);
      if k < |s| && s[k] == ':' then
        if k + 1 == |s| then Err(NothingAfterScheme)
        else ParseHierarchy(u.(scheme := Lower(s[..k])), s[k + 1..])
      else Ok(ParsePathQueryFragment(u, s))
  }

  function Parse(s: string): Result<UrlValue, UrlError> {
    ParseInto(EMPTY, s)
  }

  // ------------------------------------------------------------------ printing

  function UserText(u: UrlValue): string {
    if u.userInfo == "" then "" else u.userInfo + "@"
  }

  function HostText(u: UrlValue): string {
    if ':' in u.host then "[" + u.host + "]" else u.host
  }

  function PortText(u: UrlValue): string {
    if GetPort(u) == 0 then "" else ":" + Decimal(GetPort(u))
  }

  function AuthorityText(u: UrlValue): string {
    UserText(u) + (HostText(u) + PortText(u))
  }

  function Tail(u: UrlValue): string {
    (if u.query == "" then "" else "?" + u.query) + (if u.fragment == "" then "" else "#" + u.fragment)
  }

  function PathText(u: UrlValue): string {
    if u.path != "" then
      (if AuthorityText(u) != "" && u.path[0] != '/' then "/" else "") + Encode(u.path, RESERVED_PATH)
    else if u.query != "" || u.fragment != "" then "/"
    else ""
  }

  /** What stands between "scheme:" and the path. */
  function Slashes(u: UrlValue): string {
    if AuthorityText(u) != "" || u.scheme == "file" then "//" + AuthorityText(u) else ""
  }

  function ToString(u: UrlValue): string {
    if u.scheme == "" then Encode(u.path, RESERVED_PATH) + Tail(u)
    else u.scheme + (":" + (Slashes(u) + (PathText(u) + Tail(u))))
  }
}
