/** Percent-encoding (section 2.1 of RFC 3986) and the query-parameter codec of the `Url` class. */
module UrlCodec {
  import opened Wrappers
  import opened Text

  const RESERVED_PATH: set<char> := {'?', '#'}
  const RESERVED_QUERY: set<char> := {'?', '#', '/', ':', ';', '+', '@'}
  const RESERVED_QUERY_PARAM: set<char> := RESERVED_QUERY + {'&', '='}
  const RESERVED_FRAGMENT: set<char> := {}
  const ILLEGAL: set<char> :=
    {'%', '<', '>', '{', '}', '|', '\\', '"', '^', '`', '!', '*', '\'', '(', ')', '$', ',', '[', ']'}

  predicate Unreserved(c: char) {
    'a' <= c <= 'z' || 'A' <= c <= 'Z' || '0' <= c <= '9' || c == '-' || c == '_' || c == '.' || c == '~'
  }

  predicate NeedsEscape(c: char, reserved: set<char>) {
    !Unreserved(c) && (c <= 32 as char || c >= 127 as char || c in ILLEGAL || c in reserved)
  }

  function HexDigit(n: nat): char
    requires n < 16
  {
    "0123456789abcdef"[n]
  }

  function HexValue(c: char): Option<nat> {
    if '0' <= c <= '9' then Some((c - '0') as int)
    else if 'A' <= c <= 'F' then Some((c - 'A') as int + 10)
    else if 'a' <= c <= 'f' then Some((c - 'a') as int + 10)
    else None
  }

  /** One byte of encoded text; two lower-case digits for an escaped one. */
  function EncodeChar(c: char, reserved: set<char>): string {
    if NeedsEscape(c, reserved) then ['%', HexDigit((c as int / 16) % 16), HexDigit(c as int % 16)] else [c]
  }

  function Encode(s: string, reserved: set<char>): string {
    if s == "" then "" else EncodeChar(s[0], reserved) + Encode(s[1..], reserved)
  }

  /** None: the text is malformed, and the caller's variable keeps its value. */
  function Decode(s: string, plusAsSpace: bool := false, inQuery: bool := false): Option<string> {
    if s == "" then Some("")
    else
      var inQuery' := inQuery || s[0] == '?';
      if inQuery' && plusAsSpace && s[0] == '+' then Prepend(' ', Decode(s[1..], plusAsSpace, inQuery'))
      else if s[0] != '%' then Prepend(s[0], Decode(s[1..], plusAsSpace, inQuery'))
      else if |s| < 3 || HexValue(s[1]).None? || HexValue(s[2]).None? then None
      else Prepend((16 * HexValue(s[1]).value + HexValue(s[2]).value) as char, Decode(s[3..], plusAsSpace, inQuery'))
  }

  function Prepend(c: char, rest: Option<string>): Option<string> {
    if rest.None? then None else Some([c] + rest.value)
  }

  // ------------------------------------------------------------------ the loops of encode and decode

  method EncodeOnto(str: string, reserved: set<char>, before: string) returns (encoded: string)
    ensures encoded == before + Encode(str, reserved)
  {
    encoded := before;
    for i := 0 to |str|
      invariant encoded == before + Encode(str[..i], reserved)
    {
      var c := str[i];
      EncodeSnoc(str[..i], c, reserved);
      assert str[..i + 1] == str[..i] + [c];
      if Unreserved(c) {
        encoded := encoded + [c];
      } else if c <= 32 as char || c >= 127 as char || c in ILLEGAL || c in reserved {
        encoded := encoded + ['%', HexDigit((c as int / 16) % 16), HexDigit(c as int % 16)];
      } else {
        encoded := encoded + [c];
      }
    }
    assert str[..|str|] == str;
  }

  method DecodeText(str: string, plusAsSpace: bool) returns (decoded: Option<string>)
    ensures decoded == Decode(str, plusAsSpace)
  {
    var inQuery, invalid, result, it := false, false, "", 0;
    assert str[0..] == str;
    OntoNothing(Decode(str, plusAsSpace));
    while it != |str|
      invariant it <= |str| && !invalid
      invariant Decode(str, plusAsSpace) == Onto(result, Decode(str[it..], plusAsSpace, inQuery))
      decreases |str| - it
    {
      var c := str[it];
      ghost var rest := str[it..];
      assert rest[1..] == str[it + 1..];
      it := it + 1;
      if c == '?' {
        inQuery := true;
      }
      if inQuery && plusAsSpace && c == '+' {
        c := ' ';
      } else if c == '%' {
        if it == |str| {
          assert Decode(str, plusAsSpace).None?;
          invalid := true;
          break;
        }
        var hi := str[it];
        it := it + 1;
        if it == |str| {
          assert Decode(str, plusAsSpace).None?;
          invalid := true;
          break;
        }
        var lo := str[it];
        it := it + 1;
        assert rest[3..] == str[it..];
        var c1 := HexValue(hi);
        if c1.None? {
          assert Decode(str, plusAsSpace).None?;
          invalid := true;
          break;
        }
        var c2 := HexValue(lo);
        if c2.None? {
          assert Decode(str, plusAsSpace).None?;
          invalid := true;
          break;
        }
        c := (16 * c1.value + c2.value) as char;
      }
      OntoPrepend(result, c, Decode(str[it..], plusAsSpace, inQuery));
      result := result + [c];
    }
    assert !invalid ==> str[it..] == "" && result + "" == result;
    return if invalid then None else Some(result);
  }

  function Onto(done: string, rest: Option<string>): Option<string> {
    if rest.None? then None else Some(done + rest.value)
  }

  lemma OntoNothing(r: Option<string>)
    ensures Onto("", r) == r
  {
    if r.Some? { assert "" + r.value == r.value; }
  }

  lemma OntoPrepend(done: string, c: char, rest: Option<string>)
    ensures Onto(done, Prepend(c, rest)) == Onto(done + [c], rest)
  {
    if rest.Some? { assert done + ([c] + rest.value) == (done + [c]) + rest.value; }
  }

  lemma EncodeSnoc(s: string, c: char, reserved: set<char>)
    ensures Encode(s + [c], reserved) == Encode(s, reserved) + EncodeChar(c, reserved)
  {
    EncodeConcat(s, [c], reserved);
    assert Encode([c], reserved) == EncodeChar(c, reserved) + Encode([c][1..], reserved);
  }

  // ------------------------------------------------------------------ what the codec guarantees

  /** Encoding works byte by byte. */
  lemma {:induction false} EncodeConcat(s: string, t: string, reserved: set<char>)
    ensures Encode(s + t, reserved) == Encode(s, reserved) + Encode(t, reserved)
  {
    if s == "" {
      assert s + t == t;
    } else {
      assert (s + t)[1..] == s[1..] + t;
      EncodeConcat(s[1..], t, reserved);
    }
  }

  lemma HexDigits(n: nat)
    requires n < 16
    ensures HexValue(HexDigit(n)) == Some(n) && Unreserved(HexDigit(n))
  {
    assert HexDigit(n) == if n < 10 then '0' + n as char else 'a' + (n - 10) as char;
  }

  lemma DecodeEscape(c: char, rest: string, inQuery: bool)
    requires c < 128 as char
    ensures Decode(['%', HexDigit((c as int / 16) % 16), HexDigit(c as int % 16)] + rest, false, inQuery)
         == Prepend(c, Decode(rest, false, inQuery))
  {
    var hi, lo := (c as int / 16) % 16, c as int % 16;
    HexDigits(hi);
    HexDigits(lo);
    DecodeTriple(HexDigit(hi), HexDigit(lo), rest, hi, lo, inQuery);
    assert 16 * hi + lo == c as int;
  }

  lemma DecodeTriple(h: char, l: char, rest: string, hi: nat, lo: nat, inQuery: bool)
    requires HexValue(h) == Some(hi) && HexValue(l) == Some(lo) && hi < 16 && lo < 16
    ensures Decode(['%', h, l] + rest, false, inQuery) == Prepend((16 * hi + lo) as char, Decode(rest, false, inQuery))
  {
    var all := ['%', h, l] + rest;
    assert all[0] == '%' && all[1] == h && all[2] == l && all[3..] == rest;
  }

  lemma DecodeEncodedChar(c: char, reserved: set<char>, rest: string, inQuery: bool)
    requires c < 128 as char
    ensures Decode(EncodeChar(c, reserved) + rest, false, inQuery)
         == Prepend(c, Decode(rest, false, inQuery || (c == '?' && !NeedsEscape(c, reserved))))
  {
    if NeedsEscape(c, reserved) {
      DecodeEscape(c, rest, inQuery);
    } else {
      assert ([c] + rest)[1..] == rest;
    }
  }

  /** Decoding undoes encoding, whatever set is reserved. */
  lemma {:induction false} DecodeUndoesEncode(s: string, reserved: set<char>, inQuery: bool)
    requires Ascii(s)
    ensures Decode(Encode(s, reserved), false, inQuery) == Some(s)
  {
    if s != "" {
      DecodeEncodedChar(s[0], reserved, Encode(s[1..], reserved), inQuery);
      DecodeUndoesEncode(s[1..], reserved, inQuery || (s[0] == '?' && !NeedsEscape(s[0], reserved)));
      assert [s[0]] + s[1..] == s;
    }
  }

  /** Bytes that may occur in encoded text. */
  predicate Plain(c: char, reserved: set<char>) {
    c == '%' || Unreserved(c) || (32 as char < c < 127 as char && c !in ILLEGAL && c !in reserved)
  }

  predicate PlainText(s: string, reserved: set<char>) {
    forall i :: 0 <= i < |s| ==> Plain(s[i], reserved)
  }

  /** The byte at `i` is not the start of a broken escape. */
  predicate EscapeAt(s: string, i: nat)
    requires i < |s|
  {
    s[i] == '%' ==> i + 2 < |s| && HexValue(s[i + 1]).Some? && HexValue(s[i + 2]).Some?
  }

  lemma EncodeCharIsPlain(c: char, reserved: set<char>)
    ensures PlainText(EncodeChar(c, reserved), reserved)
    ensures forall i: nat :: i < |EncodeChar(c, reserved)| ==> EscapeAt(EncodeChar(c, reserved), i)
  {
    HexDigits((c as int / 16) % 16);
    HexDigits(c as int % 16);
  }

  /** Encoded text has no byte of the reserved or illegal sets except the '%' of an escape. */
  lemma {:induction false} EncodeIsPlain(s: string, reserved: set<char>)
    ensures PlainText(Encode(s, reserved), reserved)
  {
    if s != "" {
      EncodeIsPlain(s[1..], reserved);
      EncodeCharIsPlain(s[0], reserved);
    }
  }

  /** Every '%' in encoded text stands in front of two hexadecimal digits. */
  lemma {:induction false} EncodeEscapesWell(s: string, reserved: set<char>)
    ensures forall i: nat :: i < |Encode(s, reserved)| ==> EscapeAt(Encode(s, reserved), i)
  {
    if s != "" {
      EncodeEscapesWell(s[1..], reserved);
      EncodeCharIsPlain(s[0], reserved);
      EscapesJoin(EncodeChar(s[0], reserved), Encode(s[1..], reserved));
    }
  }

  lemma EscapesJoin(a: string, b: string)
    requires forall i: nat :: i < |a| ==> EscapeAt(a, i)
    requires forall i: nat :: i < |b| ==> EscapeAt(b, i)
    ensures forall i: nat :: i < |a + b| ==> EscapeAt(a + b, i)
  {
    forall i: nat | i < |a + b| ensures EscapeAt(a + b, i) {
      if i < |a| { assert EscapeAt(a, i); } else { assert EscapeAt(b, i - |a|); }
    }
  }

  /** Two different ASCII texts never have the same encoding. */
  lemma EncodeIsInjective(s: string, t: string, reserved: set<char>)
    requires Ascii(s) && Ascii(t) && Encode(s, reserved) == Encode(t, reserved)
    ensures s == t
  {
    DecodeUndoesEncode(s, reserved, false);
    DecodeUndoesEncode(t, reserved, false);
  }
}
