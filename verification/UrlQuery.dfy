/** Query parameters: `set_query_parameters` and `get_query_parameters` of the `Url` class. */
module UrlQuery {
  import opened Wrappers
  import opened Text
  import opened UrlCodec
  import opened UrlEscapes

  type Param = (string, string)

  function EncodedParam(p: Param): string {
    Encode(p.0, RESERVED_QUERY_PARAM) + "=" + Encode(p.1, RESERVED_QUERY_PARAM)
  }

  /** What `add_query_parameter` makes of the query text. */
  function Add(query: string, p: Param): string {
    (if query == "" then "" else query + "&") + EncodedParam(p)
  }

  function AddAll(query: string, params: seq<Param>): string
    decreases |params|
  {
    if params == [] then query else AddAll(Add(query, params[0]), params[1..])
  }

  /** Text as the reader collects it: with `plusIsSpace`, plus signs become spaces. */
  function Spaced(s: string, plusIsSpace: bool): (r: string)
    ensures |r| == |s| && forall i :: 0 <= i < |s| ==> r[i] == if plusIsSpace && s[i] == '+' then ' ' else s[i]
  {
    seq(|s|, i requires 0 <= i < |s| => if plusIsSpace && s[i] == '+' then ' ' else s[i])
  }

  /** A name or value as stored; malformed text leaves the result variable empty. */
  function Component(s: string, plusIsSpace: bool): string {
    OrEmpty(Decode(Spaced(s, plusIsSpace)))
  }

  function OrEmpty(decoded: Option<string>): string {
    if decoded.Some? then decoded.value else ""
  }

  function NameEnd(query: string): (k: nat)
    ensures k <= |query|
  {
    Span(query, {'=', '&'})
  }

  predicate HasValue(query: string) {
    NameEnd(query) < |query| && query[NameEnd(query)] == '='
  }

  function ValueText(query: string): (v: string)
    ensures HasValue(query) ==> NameEnd(query) + 1 + |v| <= |query|
  {
    if HasValue(query) then
      var rest := query[NameEnd(query) + 1..];
      rest[..Span(rest, {'&'})]
    else ""
  }

  /** What is left after the first parameter and its separator. */
  function Next(query: string): (next: string)
    ensures query != "" ==> |next| < |query|
  {
    var end := NameEnd(query) + (if HasValue(query) then 1 + |ValueText(query)| else 0);
    if end < |query| then query[end + 1..] else ""
  }

  function FirstParam(query: string, plusIsSpace: bool): Param {
    (Component(query[..NameEnd(query)], plusIsSpace), Component(ValueText(query), plusIsSpace))
  }

  function Parse(query: string, plusIsSpace: bool): seq<Param>
    decreases |query|
  {
    if query == "" then [] else [FirstParam(query, plusIsSpace)] + Parse(Next(query), plusIsSpace)
  }

  // ------------------------------------------------------------------ the loops

  method SetQueryParameters(params: seq<Param>) returns (query: string)
    ensures query == AddAll("", params)
  {
    query := "";
    assert params[0..] == params;
    for i := 0 to |params|
      invariant AddAll(query, params[i..]) == AddAll("", params)
    {
      assert params[i..][1..] == params[i + 1..];
      query := AddQueryParameter(query, params[i]);
    }
  }

  method AddQueryParameter(before: string, p: Param) returns (query: string)
    ensures query == Add(before, p)
  {
    query := before;
    if query != "" {
      query := query + "&";
    }
    ghost var front := query;
    query := EncodeOnto(p.0, RESERVED_QUERY_PARAM, query);
    query := query + "=";
    query := EncodeOnto(p.1, RESERVED_QUERY_PARAM, query);
    ParamAppended(front, Encode(p.0, RESERVED_QUERY_PARAM), Encode(p.1, RESERVED_QUERY_PARAM));
  }

  lemma ParamAppended(front: string, name: string, value: string)
    ensures ((front + name) + "=") + value == front + (name + "=" + value)
  {
  }

  /** One of the two inner loops: copies up to a stop byte, turning plus signs into spaces if asked. */
  method ReadComponent(query: string, start: nat, stops: set<char>, plusIsSpace: bool) returns (text: string, it: nat)
    requires start <= |query|
    ensures it == start + Span(query[start..], stops) <= |query|
    ensures text == Spaced(query[start..][..it - start], plusIsSpace)
  {
    it, text := start, "";
    while it != |query| && query[it] !in stops
      invariant start <= it <= |query|
      invariant Free(query[start..it], stops)
      invariant text == Spaced(query[start..it], plusIsSpace)
      decreases |query| - it
    {
      assert query[start..it + 1] == query[start..it] + [query[it]];
      FreeSnoc(query[start..it], query[it], stops);
      text := text + (if plusIsSpace && query[it] == '+' then " " else [query[it]]);
      it := it + 1;
    }
    assert query[start..][..it - start] == query[start..it];
    SpanIs(query[start..], stops, it - start);
  }

  /** The value, if an equals sign stands here. */
  method ReadValue(query: string, start: nat, plusIsSpace: bool) returns (value: string, it: nat)
    requires start <= |query|
    ensures var text := ValueAt(query, start);
            value == Spaced(text, plusIsSpace) &&
            it == start + (if EqualsSign(query, start) then 1 + |text| else 0) <= |query|
  {
    it, value := start, "";
    if it != |query| && query[it] == '=' {
      value, it := ReadComponent(query, it + 1, {'&'}, plusIsSpace);
    }
  }

  predicate EqualsSign(query: string, it: nat) {
    it < |query| && query[it] == '='
  }

  function ValueAt(query: string, it: nat): string {
    if EqualsSign(query, it) then query[it + 1..][..Span(query[it + 1..], {'&'})] else ""
  }

  lemma ValueStandsAt(query: string, start: nat, it: nat)
    requires start <= it <= |query| && it - start == NameEnd(query[start..])
    ensures HasValue(query[start..]) <==> EqualsSign(query, it)
    ensures ValueText(query[start..]) == ValueAt(query, it)
  {
    DropDrop(query, start, it - start);
    if it < |query| { DropDrop(query, start, it - start + 1); }
  }

  method ReadParameter(query: string, start: nat, plusIsSpace: bool) returns (name: string, value: string, it: nat)
    requires start < |query|
    ensures start < it <= |query| && query[it..] == Next(query[start..])
    ensures name == Spaced(query[start..][..NameEnd(query[start..])], plusIsSpace)
    ensures value == Spaced(ValueText(query[start..]), plusIsSpace)
  {
    name, it := ReadComponent(query, start, {'=', '&'}, plusIsSpace);
    ValueStandsAt(query, start, it);
    value, it := ReadValue(query, it, plusIsSpace);
    NextStandsAt(query, start, it);
    if it != |query| && query[it] == '&' {
      it := it + 1;
    }
  }

  lemma NextStandsAt(query: string, start: nat, it: nat)
    requires start <= it <= |query|
    requires var q := query[start..]; it - start == NameEnd(q) + (if HasValue(q) then 1 + |ValueText(q)| else 0)
    ensures Next(query[start..]) == if it < |query| then query[it + 1..] else ""
    ensures it < |query| ==> query[it] == '&'
  {
    NextStartsAt(query[start..], it - start);
    DropDrop(query, start, it - start);
    if it < |query| { DropDrop(query, start, it - start + 1); }
  }

  lemma NextStartsAt(query: string, end: nat)
    requires end == NameEnd(query) + (if HasValue(query) then 1 + |ValueText(query)| else 0) <= |query|
    ensures Next(query) == if end < |query| then query[end + 1..] else ""
    ensures end < |query| ==> query[end] == '&'
  {
    var k := NameEnd(query);
    if HasValue(query) && end < |query| {
      DropDrop(query, k + 1, |ValueText(query)|);
    } else if end < |query| {
      assert query[k] in {'=', '&'};
    }
  }

  lemma ParseOnto(result: seq<Param>, query: string, plusIsSpace: bool)
    requires query != ""
    ensures result + Parse(query, plusIsSpace)
         == (result + [FirstParam(query, plusIsSpace)]) + Parse(Next(query), plusIsSpace)
  {
  }

  method GetQueryParameters(query: string, plusIsSpace: bool) returns (result: seq<Param>)
    ensures result == Parse(query, plusIsSpace)
  {
    result := [];
    var it := 0;
    assert query[0..] == query;
    while it != |query|
      invariant it <= |query|
      invariant Parse(query, plusIsSpace) == result + Parse(query[it..], plusIsSpace)
      decreases |query| - it
    {
      ParseOnto(result, query[it..], plusIsSpace);
      var p;
      p, it := ReadDecoded(query, it, plusIsSpace);
      result := result + [p];
    }
  }

  method ReadDecoded(query: string, start: nat, plusIsSpace: bool) returns (p: Param, it: nat)
    requires start < |query|
    ensures start < it <= |query| && query[it..] == Next(query[start..])
    ensures p == FirstParam(query[start..], plusIsSpace)
  {
    var name, value;
    name, value, it := ReadParameter(query, start, plusIsSpace);
    var decodedName := DecodeText(name, false);
    var decodedValue := DecodeText(value, false);
    p := (OrEmpty(decodedName), OrEmpty(decodedValue));
  }

  // ------------------------------------------------------------------ round trip

  /** The query text with the separators made explicit. */
  function Joined(params: seq<Param>): string
    requires params != []
  {
    if |params| == 1 then EncodedParam(params[0]) else EncodedParam(params[0]) + "&" + Joined(params[1..])
  }

  lemma AddNotEmpty(query: string, p: Param)
    ensures Add(query, p) != ""
  {
    assert |EncodedParam(p)| > 0;
  }

  lemma AddJoins(query: string, p: Param, joined: string)
    ensures Add(query, p) + "&" + joined == (if query == "" then "" else query + "&") + (EncodedParam(p) + "&" + joined)
  {
  }

  lemma {:induction false} AddAllJoins(query: string, params: seq<Param>)
    requires params != []
    decreases |params|
    ensures AddAll(query, params) == (if query == "" then "" else query + "&") + Joined(params)
  {
    if |params| > 1 {
      AddNotEmpty(query, params[0]);
      AddAllJoins(Add(query, params[0]), params[1..]);
      AddJoins(query, params[0], Joined(params[1..]));
    }
  }

  lemma AddAllOntoNothing(params: seq<Param>)
    requires params != []
    ensures AddAll("", params) == Joined(params)
  {
    AddAllJoins("", params);
    assert "" + Joined(params) == Joined(params);
  }

  /** Encoded parameter text contains no separator and no plus sign. */
  lemma EncodedIsSafe(s: string)
    ensures Free(Encode(s, RESERVED_QUERY_PARAM), {'=', '&'}) && Free(Encode(s, RESERVED_QUERY_PARAM), {'&', '+'})
  {
    var e := Encode(s, RESERVED_QUERY_PARAM);
    EncodeIsPlain(s, RESERVED_QUERY_PARAM);
    forall i | 0 <= i < |e| ensures e[i] != '=' && e[i] != '&' && e[i] != '+' {
      assert Plain(e[i], RESERVED_QUERY_PARAM);
    }
  }

  lemma ComponentUndoes(s: string, plusIsSpace: bool)
    requires Ascii(s)
    ensures Component(Encode(s, RESERVED_QUERY_PARAM), plusIsSpace) == s
  {
    var e := Encode(s, RESERVED_QUERY_PARAM);
    EncodedIsSafe(s);
    DecodeUndoesEncode(s, RESERVED_QUERY_PARAM, false);
    assert Spaced(e, plusIsSpace) == e by {
      forall i | 0 <= i < |e| ensures e[i] != '+' { assert e[i] !in {'&', '+'}; }
    }
  }

  lemma NameOfText(name: string, rest: string)
    requires Free(name, {'=', '&'})
    ensures var query := name + ("=" + rest);
            NameEnd(query) == |name| && HasValue(query) && query[..|name|] == name && query[|name| + 1..] == rest
  {
    SpanOver(name, "=" + rest, {'=', '&'});
    assert ("=" + rest)[1..] == rest;
    assert (name + ("=" + rest))[|name| + 1..] == (name + ("=" + rest))[|name|..][1..];
  }

  lemma SplitText(name: string, value: string, tail: string)
    requires Free(name, {'=', '&'}) && Free(value, {'&'}) && (tail == "" || tail[0] == '&')
    ensures var query := name + ("=" + (value + tail));
            NameEnd(query) == |name| && query[..|name|] == name && ValueText(query) == value
            && Next(query) == if tail == "" then "" else tail[1..]
  {
    var query := name + ("=" + (value + tail));
    NameOfText(name, value + tail);
    SpanOver(value, tail, {'&'});
    if tail != "" {
      assert query[|name| + 1 + |value| + 1..] == query[|name| + 1..][|value|..][1..];
    }
  }

  lemma ParseUnfolds(query: string, name: string, value: string, rest: string, plusIsSpace: bool)
    requires query != "" && query[..NameEnd(query)] == name && ValueText(query) == value && Next(query) == rest
    ensures Parse(query, plusIsSpace) ==
            [(Component(name, plusIsSpace), Component(value, plusIsSpace))] + Parse(rest, plusIsSpace)
  {
  }

  lemma ParamText(name: string, value: string, tail: string)
    ensures (name + "=" + value) + tail == name + ("=" + (value + tail))
  {
  }

  /** The first parameter is read back, and reading goes on behind its separator. */
  lemma ParseFirst(p: Param, tail: string, plusIsSpace: bool)
    requires Ascii(p.0) && Ascii(p.1) && (tail == "" || tail[0] == '&')
    ensures Parse(EncodedParam(p) + tail, plusIsSpace) == [p] + Parse(if tail == "" then "" else tail[1..], plusIsSpace)
  {
    var name, value := Encode(p.0, RESERVED_QUERY_PARAM), Encode(p.1, RESERVED_QUERY_PARAM);
    EncodedIsSafe(p.0);
    EncodedIsSafe(p.1);
    NoSeparator(value);
    SplitText(name, value, tail);
    ParamText(name, value, tail);
    ComponentUndoes(p.0, plusIsSpace);
    ComponentUndoes(p.1, plusIsSpace);
    ParseUnfolds(name + ("=" + (value + tail)), name, value, if tail == "" then "" else tail[1..], plusIsSpace);
  }

  lemma NoSeparator(value: string)
    requires Free(value, {'=', '&'})
    ensures Free(value, {'&'})
  {
    forall i | 0 <= i < |value| ensures value[i] !in {'&'} { assert value[i] !in {'=', '&'}; }
  }

  lemma Separated(first: string, rest: string)
    ensures first + "&" + rest == first + ("&" + rest) && ("&" + rest)[1..] == rest
    ensures first + "" == first
  {
  }

  lemma JoinedTail(params: seq<Param>)
    requires params != []
    ensures var tail := if |params| == 1 then "" else "&" + Joined(params[1..]);
            Joined(params) == EncodedParam(params[0]) + tail && (|params| > 1 ==> tail[1..] == Joined(params[1..]))
  {
    Separated(EncodedParam(params[0]), if |params| == 1 then "" else Joined(params[1..]));
  }

  lemma {:induction false} ParseUndoesJoin(params: seq<Param>, plusIsSpace: bool)
    requires params != [] && forall i :: 0 <= i < |params| ==> Ascii(params[i].0) && Ascii(params[i].1)
    ensures Parse(Joined(params), plusIsSpace) == params
  {
    var tail := if |params| == 1 then "" else "&" + Joined(params[1..]);
    JoinedTail(params);
    ParseFirst(params[0], tail, plusIsSpace);
    if |params| > 1 { ParseUndoesJoin(params[1..], plusIsSpace); }
    assert [params[0]] + params[1..] == params;
  }

  /** Reading back what was set yields the same list, whether or not a plus sign stands for a space. */
  lemma ParameterRoundTrip(params: seq<Param>, plusIsSpace: bool)
    requires forall i :: 0 <= i < |params| ==> Ascii(params[i].0) && Ascii(params[i].1)
    ensures Parse(AddAll("", params), plusIsSpace) == params
  {
    if params != [] {
      ParseUndoesJoin(params, plusIsSpace);
      AddAllOntoNothing(params);
    }
  }

  // ------------------------------------------------------------------ what arbitrary text reads as

  lemma SpacedKeepsEscapes(s: string, plusIsSpace: bool)
    ensures WellEscaped(Spaced(s, plusIsSpace)) <==> WellEscaped(s)
  {
    var t := Spaced(s, plusIsSpace);
    forall i | 0 <= i < |s| ensures (t[i] == '%' <==> s[i] == '%') && (IsHex(t[i]) <==> IsHex(s[i])) {
    }
  }

  lemma SpacedSplits(c: char, rest: string, plusIsSpace: bool)
    ensures Spaced([c] + rest, plusIsSpace) == [if plusIsSpace && c == '+' then ' ' else c] + Spaced(rest, plusIsSpace)
  {
  }

  /** Each plus sign as a space decodes as each plus sign as "%20" does. */
  lemma {:induction false} SpacedDecodes(s: string, inQuery: bool)
    requires WellEscaped(s)
    ensures Decode(Spaced(s, true), false, inQuery) == Decode(PlusEscaped(s), false, inQuery)
    decreases |s|
  {
    if s != "" {
      var rest := s[1..];
      assert s == [s[0]] + rest;
      if s[0] == '%' {
        var more := s[3..];
        assert s == ['%', s[1], s[2]] + more;
        WellEscapedTail(s, 3);
        SpacedDecodes(more, inQuery);
        EscapeDecodesAlike(s[1], s[2], more, inQuery);
      } else {
        WellEscapedTail(s, 1);
        SpacedDecodes(rest, inQuery || s[0] == '?');
        ByteDecodesAlike(s[0], rest, inQuery);
      }
    }
  }

  lemma SpacedEscape(h: char, l: char, rest: string)
    requires IsHex(h) && IsHex(l)
    ensures Spaced(['%', h, l] + rest, true) == ['%', h, l] + Spaced(rest, true)
  {
  }

  lemma EscapeDecodesAlike(h: char, l: char, rest: string, inQuery: bool)
    requires IsHex(h) && IsHex(l)
    requires Decode(Spaced(rest, true), false, inQuery) == Decode(PlusEscaped(rest), false, inQuery)
    ensures Decode(Spaced(['%', h, l] + rest, true), false, inQuery)
         == Decode(PlusEscaped(['%', h, l] + rest), false, inQuery)
  {
    SpacedEscape(h, l, rest);
    EscapeIsKept(h, l, rest);
    SameEscape(h, l, Spaced(rest, true), PlusEscaped(rest), inQuery);
  }

  lemma ByteDecodesAlike(c: char, rest: string, inQuery: bool)
    requires c != '%'
    requires var q := inQuery || c == '?'; Decode(Spaced(rest, true), false, q) == Decode(PlusEscaped(rest), false, q)
    ensures Decode(Spaced([c] + rest, true), false, inQuery) == Decode(PlusEscaped([c] + rest), false, inQuery)
  {
    SpacedSplits(c, rest, true);
    assert ([c] + rest)[1..] == rest;
    if c == '+' {
      ByteStandsForItself(' ', Spaced(rest, true), false, inQuery);
      EscapeStandsForByte(32, '2', '0', PlusEscaped(rest), false, inQuery);
      assert "%20" == ['%', '2', '0'];
    } else {
      ByteStandsForItself(c, Spaced(rest, true), false, inQuery);
      ByteStandsForItself(c, PlusEscaped(rest), false, inQuery);
    }
  }

  lemma SameEscape(h: char, l: char, a: string, b: string, inQuery: bool)
    requires IsHex(h) && IsHex(l) && Decode(a, false, inQuery) == Decode(b, false, inQuery)
    ensures Decode(['%', h, l] + a, false, inQuery) == Decode(['%', h, l] + b, false, inQuery)
  {
    assert (['%', h, l] + a)[3..] == a && (['%', h, l] + b)[3..] == b;
    assert (['%', h, l] + a)[..3] == ['%', h, l] == (['%', h, l] + b)[..3];
  }

  /**
   Any text as a name or value: its decoding, with each plus sign read as "%20" if plus signs stand
   for spaces, and as itself otherwise; nothing at all if it is not well escaped.
   */
  lemma ComponentReads(s: string, plusIsSpace: bool)
    ensures !WellEscaped(s) ==> Component(s, plusIsSpace) == ""
    ensures WellEscaped(s) ==>
              Decode(s).Some? && Decode(PlusEscaped(s)).Some? &&
              Component(s, plusIsSpace) == Decode(if plusIsSpace then PlusEscaped(s) else s).value
  {
    SpacedKeepsEscapes(s, plusIsSpace);
    DecodesExactlyWhenWellEscaped(Spaced(s, plusIsSpace), false, false);
    DecodesExactlyWhenWellEscaped(s, false, false);
    if WellEscaped(s) {
      SpacedKeepsEscapes(s, true);
      DecodesExactlyWhenWellEscaped(Spaced(s, true), false, false);
      SpacedDecodes(s, false);
    }
    assert !plusIsSpace ==> Spaced(s, plusIsSpace) == s;
  }

  /** "name=value", up to the next separator, is read as that pair, and reading goes on behind the separator. */
  lemma PairReads(name: string, value: string, tail: string, plusIsSpace: bool)
    requires Free(name, {'=', '&'}) && Free(value, {'&'}) && (tail == "" || tail[0] == '&')
    ensures Parse(name + ("=" + (value + tail)), plusIsSpace) ==
            [(Component(name, plusIsSpace), Component(value, plusIsSpace))]
            + Parse(if tail == "" then "" else tail[1..], plusIsSpace)
  {
    SplitText(name, value, tail);
    ParseUnfolds(name + ("=" + (value + tail)), name, value, if tail == "" then "" else tail[1..], plusIsSpace);
  }

  /** A name without an equals sign is read with an empty value. */
  lemma NameAloneReads(name: string, tail: string, plusIsSpace: bool)
    requires Free(name, {'=', '&'}) && (tail == "" || tail[0] == '&') && name + tail != ""
    ensures Parse(name + tail, plusIsSpace) ==
            [(Component(name, plusIsSpace), "")] + Parse(if tail == "" then "" else tail[1..], plusIsSpace)
  {
    SpanOver(name, tail, {'=', '&'});
    var query := name + tail;
    assert tail != "" ==> query[|name|] == '&' && query[|name| + 1..] == tail[1..];
    ComponentReads("", plusIsSpace);
    ParseUnfolds(query, name, "", if tail == "" then "" else tail[1..], plusIsSpace);
  }

  lemma PlainDecodes(a: char, b: char, c: char)
    requires a != '%' && b != '%' && c != '%'
    ensures Decode([a, b, c]) == Some([a, b, c])
  {
    ByteStandsForItself(c, "", false, a == '?' || b == '?');
    ByteStandsForItself(b, [c], false, a == '?');
    ByteStandsForItself(a, [b, c], false, false);
    assert [c] + "" == [c] && [b] + [c] == [b, c] && [a] + [b, c] == [a, b, c];
  }

  lemma PlusBetween(a: char, b: char)
    requires a != '%' && b != '%' && a != '+' && b != '+'
    ensures Component([a, '+', b], true) == [a, ' ', b] && Component([a, '+', b], false) == [a, '+', b]
  {
    assert Spaced([a, '+', b], true) == [a, ' ', b] && Spaced([a, '+', b], false) == [a, '+', b];
    PlainDecodes(a, ' ', b);
    PlainDecodes(a, '+', b);
  }

  /** The shortest example with a plus sign in the name and one in the value. */
  lemma PlusSignsRead()
    ensures Parse("a+b=c+d", true) == [("a b", "c d")] && Parse("a+b=c+d", false) == [("a+b", "c+d")]
  {
    ShortPairReads("a+b", "c+d", true);
    ShortPairReads("a+b", "c+d", false);
    PlusBetween('a', 'b');
    PlusBetween('c', 'd');
    assert ['a', '+', 'b'] == "a+b" && ['c', '+', 'd'] == "c+d" && ['a', ' ', 'b'] == "a b" && ['c', ' ', 'd'] == "c d";
  }

  lemma ShortPairReads(name: string, value: string, plusIsSpace: bool)
    requires name == "a+b" && value == "c+d"
    ensures Parse("a+b=c+d", plusIsSpace) == [(Component(name, plusIsSpace), Component(value, plusIsSpace))]
  {
    PairReads(name, value, "", plusIsSpace);
    assert name + ("=" + (value + "")) == "a+b=c+d";
  }
}
