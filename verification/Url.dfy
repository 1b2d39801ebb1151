/** The `Url` class: its fields, its iterator loops, and how they relate to the syntax functions. */
module Url {
  import opened Wrappers
  import opened Text
  import opened Numbers
  import opened UrlCodec
  import opened UrlPath
  import opened UrlSyntax
  import UrlQuery

  /** The loop every reader uses: copies bytes until a stop byte or the end. */
  method ReadUntil(text: string, start: nat, stops: set<char>) returns (part: string, it: nat)
    requires start <= |text|
    ensures it == start + Span(text[start..], stops) <= |text|
    ensures part == text[start..it] == text[start..][..it - start]
    ensures text[it..] == text[start..][it - start..]
  {
    it, part := start, "";
    while it != |text| && text[it] !in stops
      invariant start <= it <= |text|
      invariant part == text[start..it] && Free(part, stops)
      decreases |text| - it
    {
      FreeSnoc(part, text[it], stops);
      part := part + [text[it]];
      it := it + 1;
    }
    assert text[start..][..it - start] == text[start..it];
    SpanIs(text[start..], stops, it - start);
  }

  /** The authority loop: each '@' turns what was collected into the user info. */
  method ReadAuthority(text: string, start: nat) returns (user: string, part: string, it: nat)
    requires start <= |text|
    ensures it == start + Span(text[start..], AUTHORITY_STOPS) <= |text|
    ensures (user, part) == SplitUser("", text[start..][..it - start])
    ensures text[it..] == text[start..][it - start..]
  {
    user, part, it := "", "", start;
    while it != |text| && text[it] !in AUTHORITY_STOPS
      invariant start <= it <= |text|
      invariant Free(text[start..it], AUTHORITY_STOPS)
      invariant (user, part) == SplitUser("", text[start..it])
      decreases |text| - it
    {
      OneByteMore(text, start, it);
      SplitSnoc("", text[start..it], text[it]);
      if text[it] == '@' {
        user := part;
        part := "";
      } else {
        part := part + [text[it]];
      }
      it := it + 1;
    }
    AuthorityEnds(text, start, it);
  }

  lemma OneByteMore(text: string, start: nat, it: nat)
    requires start <= it < |text| && Free(text[start..it], AUTHORITY_STOPS) && text[it] !in AUTHORITY_STOPS
    ensures text[start..it + 1] == text[start..it] + [text[it]] && Free(text[start..it + 1], AUTHORITY_STOPS)
  {
    assert text[start..it + 1] == text[start..it] + [text[it]];
    FreeSnoc(text[start..it], text[it], AUTHORITY_STOPS);
  }

  lemma AuthorityEnds(text: string, start: nat, it: nat)
    requires start <= it <= |text| && Free(text[start..it], AUTHORITY_STOPS)
    requires it < |text| ==> text[it] in AUTHORITY_STOPS
    ensures Span(text[start..], AUTHORITY_STOPS) == it - start
    ensures text[start..][..it - start] == text[start..it] && text[start..][it - start..] == text[it..]
  {
    assert text[start..][..it - start] == text[start..it];
    DropDrop(text, start, it - start);
    SpanIs(text[start..], AUTHORITY_STOPS, it - start);
  }

  lemma {:induction false} SplitSnoc(user: string, authority: string, c: char)
    ensures var (u, p) := SplitUser(user, authority);
            SplitUser(user, authority + [c]) == if c == '@' then (p, "") else (u, p + [c])
    decreases |authority|
  {
    var k := Span(authority, {'@'});
    if k < |authority| {
      FirstAtStays(authority, c, k);
      SplitSnoc(authority[..k], authority[k + 1..], c);
    } else {
      assert authority[..k] == authority;
      SpanIsFree(authority, {'@'});
      SplitSnocFree(user, authority, c);
    }
  }

  lemma FirstAtStays(authority: string, c: char, k: nat)
    requires k == Span(authority, {'@'}) < |authority|
    ensures var all := authority + [c];
            Span(all, {'@'}) == k && all[..k] == authority[..k] && all[k + 1..] == authority[k + 1..] + [c]
  {
    SnocSlices(authority, c, k);
    SpanIsFree(authority, {'@'});
    SpanIs(authority + [c], {'@'}, k);
  }

  lemma SnocSlices(s: string, c: char, k: nat)
    requires k < |s|
    ensures (s + [c])[..k] == s[..k] && (s + [c])[k] == s[k] && (s + [c])[k + 1..] == s[k + 1..] + [c]
  {
  }

  lemma SplitSnocFree(user: string, authority: string, c: char)
    requires Free(authority, {'@'})
    ensures SplitUser(user, authority) == (user, authority)
    ensures SplitUser(user, authority + [c]) == if c == '@' then (authority, "") else (user, authority + [c])
  {
    assert authority[..|authority|] == authority;
    SpanIs(authority, {'@'}, |authority|);
    if c == '@' {
      SpanOver(authority, "@", {'@'});
      assert (authority + "@")[|authority| + 1..] == "";
    } else {
      FreeSnoc(authority, c, {'@'});
      assert (authority + [c])[..|authority| + 1] == authority + [c];
      SpanIs(authority + [c], {'@'}, |authority| + 1);
    }
  }

  /** A bracketed address, or the text before the port's colon; `u` is the URL being read. */
  method ReadHost(part: string, ghost u: UrlValue) returns (found: string, it: nat, terminated: bool)
    requires part != ""
    ensures it <= |part|
    ensures terminated ==> ParseHostAndPort(u, part) == WithHost(u, found, part[it..])
    ensures !terminated ==> ParseHostAndPort(u, part) == Err(UnterminatedAddress)
  {
    assert part[0..] == part;
    terminated := true;
    if part[0] == '[' {
      found, it := ReadUntil(part, 1, {']'});
      if it == |part| {
        terminated := false;
      } else {
        assert part[1..][it - 1 + 1..] == part[it + 1..];
        it := it + 1;
      }
    } else {
      found, it := ReadUntil(part, 0, {':'});
    }
  }

  method ReadPort(part: string, it: nat) returns (number: Option<nat>)
    requires it <= |part|
    ensures ParsePort(part[it..]) == if number.Some? then Ok(number.value) else Err(BadPort)
  {
    number := Some(0);
    if it != |part| && part[it] == ':' {
      var text := part[it + 1..];
      assert part[it..][1..] == text;
      if text != "" {
        var n := StoI(text);
        number := if n.Some? && 0 < n.value < 65536 then Some(n.value) else None;
      }
    }
  }

  lemma AuthorityJoins(auth: string, user: string, host: string, port: string)
    requires auth == (user + host) + port
    ensures auth == user + (host + port)
  {
  }

  lemma TextJoins(scheme: string, slashes: string, path: string, tail: string)
    ensures ((("" + (scheme + ":")) + slashes) + path) + tail == scheme + (":" + (slashes + (path + tail)))
  {
  }

  lemma SlashJoins(before: string, text: string)
    ensures (before + "/") + text == before + ("/" + text) && before + text == before + ("" + text)
  {
  }

  /** Where a path stops at once, none is read. */
  lemma NoPathHere(u: UrlValue, s: string)
    requires s == "" || s[0] in PATH_STOPS
    ensures Span(s, PATH_STOPS) == 0 && ParsePath(u, s[..0]) == u && s[0..] == s
  {
  }

  class Url {
    var scheme: string
    var userInfo: string
    var host: string
    var port: nat
    var path: string
    var query: string
    var fragment: string

    function Value(): UrlValue
      reads this
    {
      UrlValue(scheme, userInfo, host, port, path, query, fragment)
    }

    constructor ()
      ensures Value() == EMPTY
    {
      scheme, userInfo, host, port, path, query, fragment := "", "", "", 0, "", "", "";
    }

    method Clear()
      modifies this
      ensures Value() == EMPTY
    {
      scheme, userInfo, host, port, path, query, fragment := "", "", "", 0, "", "", "";
    }

    // ---------------------------------------------------------------- reading

    /** Assignment from text; an error stands for the exception, after which only the scheme may be set. */
    method Assign(url: string) returns (error: Option<UrlError>)
      modifies this
      ensures error.None? ==> Parse(url) == Ok(Value())
      ensures error.Some? ==> Parse(url) == Err(error.value)
      ensures error == Some(NothingAfterScheme) ==> Value() == EMPTY
      ensures error.Some? && error.value != NothingAfterScheme ==>
                Value() == EMPTY.(scheme := Lower(url[..Span(url, SCHEME_STOPS)]))
    {
      Clear();
      error := ParseText(url);
    }

    method ParseText(url: string) returns (error: Option<UrlError>)
      modifies this
      ensures error.None? ==> ParseInto(old(Value()), url) == Ok(Value())
      ensures error.Some? ==> ParseInto(old(Value()), url) == Err(error.value)
      ensures error == Some(NothingAfterScheme) ==> Value() == old(Value())
      ensures error.Some? && error.value != NothingAfterScheme ==>
                Value() == old(Value()).(scheme := Lower(url[..Span(url, SCHEME_STOPS)]))
    {
      if url == "" {
        return None;
      }
      assert url[0..] == url;
      if url[0] != '/' && url[0] != '.' && url[0] != '?' && url[0] != '#' {
        var found, it := ReadUntil(url, 0, SCHEME_STOPS);
        if it != |url| && url[it] == ':' {
          it := it + 1;
          if it == |url| {
            return Some(NothingAfterScheme);
          }
          SetScheme(found);
          error := ParseHierarchyAt(url, it);
        } else {
          ParsePathQueryFragmentAt(url, 0);
          error := None;
        }
      } else {
        ParsePathQueryFragmentAt(url, 0);
        error := None;
      }
    }

    method ParseHierarchyAt(url: string, start: nat) returns (error: Option<UrlError>)
      requires start < |url|
      modifies this
      ensures error.None? ==> ParseHierarchy(old(Value()), url[start..]) == Ok(Value())
      ensures error.Some? ==> ParseHierarchy(old(Value()), url[start..]) == Err(error.value) && Value() == old(Value())
      ensures error != Some(NothingAfterScheme)
    {
      var it := start;
      if url[it] == '/' && it + 1 != |url| && url[it + 1] == '/' {
        it := it + 2;
        assert url[start..][2..] == url[it..];
        error, it := ParseAuthorityAt(url, it);
        if error.Some? {
          return;
        }
      }
      ParsePathQueryFragmentAt(url, it);
      error := None;
    }

    method ParseAuthorityAt(url: string, start: nat) returns (error: Option<UrlError>, it: nat)
      requires start <= |url|
      modifies this`userInfo, this`host, this`port
      ensures it == start + Span(url[start..], AUTHORITY_STOPS) <= |url| && url[it..] == url[start..][it - start..]
      ensures error.None? ==> ParseAuthority(old(Value()), url[start..][..it - start]) == Ok(Value())
      ensures error.Some? ==>
                ParseAuthority(old(Value()), url[start..][..it - start]) == Err(error.value) && Value() == old(Value())
      ensures error != Some(NothingAfterScheme)
    {
      var user, part;
      user, part, it := ReadAuthority(url, start);
      error := ParseHostAndPortOf(part);
      if error.None? {
        userInfo := user;
      }
    }

    method ParseHostAndPortOf(part: string) returns (error: Option<UrlError>)
      modifies this`host, this`port
      ensures error.None? ==> ParseHostAndPort(old(Value()), part) == Ok(Value())
      ensures error.Some? ==> ParseHostAndPort(old(Value()), part) == Err(error.value) && Value() == old(Value())
      ensures error != Some(NothingAfterScheme)
    {
      if part == "" {
        return None;
      }
      var found, it, terminated := ReadHost(part, Value());
      if !terminated {
        return Some(UnterminatedAddress);
      }
      var number := ReadPort(part, it);
      if number.None? {
        return Some(BadPort);
      }
      port := number.value;
      host := found;
      if host != "" && host[0] != '%' {
        host := Lower(host);
      }
      error := None;
    }

    method ParsePathQueryFragmentAt(url: string, start: nat)
      requires start <= |url|
      modifies this`path, this`query, this`fragment
      ensures Value() == ParsePathQueryFragment(old(Value()), url[start..])
    {
      var it := ParsePathAt(url, start);
      it := ParseQueryAt(url, it);
      if it != |url| && url[it] == '#' {
        fragment := url[it + 1..];
        assert url[it..][1..] == fragment;
      }
    }

    method ParsePathAt(url: string, start: nat) returns (it: nat)
      requires start <= |url|
      modifies this`path
      ensures start <= it <= |url|
      ensures var s := url[start..]; var k := Span(s, PATH_STOPS);
              url[it..] == s[k..] && Value() == ParsePath(old(Value()), s[..k])
    {
      it := start;
      if it != |url| && url[it] != '?' && url[it] != '#' {
        var text;
        text, it := ReadUntil(url, it, PATH_STOPS);
        assert text != "" by { assert url[start..][0] == url[start]; }
        var decoded := DecodeText(text, false);
        if decoded.Some? {
          path := decoded.value;
        }
      } else {
        NoPathHere(Value(), url[start..]);
      }
    }

    method ParseQueryAt(url: string, start: nat) returns (it: nat)
      requires start <= |url|
      modifies this`query
      ensures start <= it <= |url|
      ensures url[it..] == AfterQuery(url[start..]) && Value() == ParseQuery(old(Value()), url[start..])
    {
      it := start;
      if it != |url| && url[it] == '?' {
        assert url[start..][1..] == url[it + 1..];
        query, it := ReadUntil(url, it + 1, {'#'});
      }
    }

    // ---------------------------------------------------------------- printing

    method GetAuthority() returns (auth: string)
      ensures auth == AuthorityText(Value())
    {
      auth := "";
      if userInfo != "" {
        auth := auth + (userInfo + "@");
      }
      assert auth == UserText(Value());
      if ':' in host {
        auth := auth + ("[" + host + "]");
      } else {
        auth := auth + host;
      }
      assert auth == UserText(Value()) + HostText(Value());
      if port != 0 {
        auth := auth + (":" + Decimal(port));
      } else if DefaultPort(scheme) != 0 {
        auth := auth + (":" + Decimal(DefaultPort(scheme)));
      }
      AuthorityJoins(auth, UserText(Value()), HostText(Value()), PortText(Value()));
    }

    method ToText() returns (url: string)
      ensures url == ToString(Value())
    {
      url := "";
      if scheme == "" {
        url := EncodeOnto(path, RESERVED_PATH, url);
      } else {
        url := AbsoluteText();
        TextJoins(scheme, Slashes(Value()), PathText(Value()), Tail(Value()));
      }
      url := TailOnto(url);
    }

    method AbsoluteText() returns (url: string)
      ensures url == (("" + (scheme + ":")) + Slashes(Value())) + PathText(Value())
    {
      url := "" + (scheme + ":");
      var auth := GetAuthority();
      if auth != "" || scheme == "file" {
        url := url + ("//" + auth);
      }
      url := PathOnto(url, auth);
    }

    method PathOnto(before: string, auth: string) returns (url: string)
      requires auth == AuthorityText(Value())
      ensures url == before + PathText(Value())
    {
      url := before;
      if path != "" {
        url := RootedOnto(before, auth);
      } else if query != "" || fragment != "" {
        url := url + "/";
      }
    }

    /** The path, behind a slash if it needs one to be told from the authority. */
    method RootedOnto(before: string, auth: string) returns (url: string)
      requires path != ""
      ensures url == before + ((if auth != "" && path[0] != '/' then "/" else "") + Encode(path, RESERVED_PATH))
    {
      url := before;
      if auth != "" && path[0] != '/' {
        url := url + "/";
      }
      url := EncodeOnto(path, RESERVED_PATH, url);
      SlashJoins(before, Encode(path, RESERVED_PATH));
    }

    method TailOnto(before: string) returns (url: string)
      ensures url == before + Tail(Value())
    {
      url := before;
      if query != "" {
        url := url + ("?" + query);
      }
      if fragment != "" {
        url := url + ("#" + fragment);
      }
    }

    // ---------------------------------------------------------------- the other operations

    method Normalize()
      modifies this`path
      ensures path == NormalizedPath(old(path), scheme == "")
    {
      if path == "" {
        return;
      }
      var removeLeading := scheme != "";
      var leadingSlash := path[0] == '/';
      var trailingSlash := path[|path| - 1] == '/';
      var segments := GetPathSegments(path);
      var normalized := NormalizeSegments(segments, removeLeading);
      path := BuildPath(normalized, leadingSlash, trailingSlash, scheme == "");
    }

    method SetScheme(text: string)
      modifies this`scheme
      ensures scheme == Lower(text)
    {
      scheme := Lower(text);
    }

    /** The setters decode; malformed text leaves the component empty. */
    method SetUserInfo(text: string)
      modifies this`userInfo
      ensures userInfo == UrlQuery.OrEmpty(Decode(text))
    {
      var decoded := DecodeText(text, false);
      userInfo := UrlQuery.OrEmpty(decoded);
    }

    method SetPath(text: string)
      modifies this`path
      ensures path == UrlQuery.OrEmpty(Decode(text))
    {
      var decoded := DecodeText(text, false);
      path := UrlQuery.OrEmpty(decoded);
    }

    method SetFragment(text: string)
      modifies this`fragment
      ensures fragment == Encode(text, RESERVED_FRAGMENT)
    {
      fragment := EncodeOnto(text, RESERVED_FRAGMENT, "");
      assert "" + Encode(text, RESERVED_FRAGMENT) == Encode(text, RESERVED_FRAGMENT);
    }

    method SetPort(number: nat)
      modifies this`port
      ensures port == number
    {
      port := number;
    }

    method SetQueryParameters(params: seq<UrlQuery.Param>)
      modifies this`query
      ensures query == UrlQuery.AddAll("", params)
    {
      query := UrlQuery.SetQueryParameters(params);
    }

    method GetQueryParameters(plusIsSpace: bool) returns (params: seq<UrlQuery.Param>)
      ensures params == UrlQuery.Parse(query, plusIsSpace)
    {
      params := UrlQuery.GetQueryParameters(query, plusIsSpace);
    }
  }
}
