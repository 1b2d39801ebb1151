/**
 Percent-encoding byte by byte (section 2.1 of RFC 3986): which bytes are printed as themselves, what
 each escape stands for, and which texts decode at all.
 */
module UrlEscapes {
  import opened Wrappers
  import opened UrlCodec

  const LOWER_HEX := "0123456789abcdef"
  const UPPER_HEX := "0123456789ABCDEF"

  predicate IsHex(c: char) {
    '0' <= c <= '9' || 'a' <= c <= 'f' || 'A' <= c <= 'F'
  }

  /** The digit of the value `n`, in either case. */
  predicate DigitOf(c: char, n: nat) {
    n < 16 && (c == LOWER_HEX[n] || c == UPPER_HEX[n])
  }

  lemma HexDigitsInOrder(n: nat)
    requires n < 16
    ensures LOWER_HEX[n] == if n < 10 then '0' + n as char else 'a' + (n - 10) as char
    ensures UPPER_HEX[n] == if n < 10 then '0' + n as char else 'A' + (n - 10) as char
  {
  }

  lemma DigitHasValue(c: char, n: nat)
    requires DigitOf(c, n)
    ensures HexValue(c) == Some(n) && IsHex(c)
  {
    HexDigitsInOrder(n);
  }

  // ------------------------------------------------------------------ decoding

  /** Two digits of either case stand for the byte they spell. */
  lemma EscapeStandsForByte(n: nat, h: char, l: char, rest: string, plusAsSpace: bool, inQuery: bool)
    requires n < 256 && DigitOf(h, n / 16) && DigitOf(l, n % 16)
    ensures Decode(['%', h, l] + rest, plusAsSpace, inQuery) == Prepend(n as char, Decode(rest, plusAsSpace, inQuery))
  {
    DigitHasValue(h, n / 16);
    DigitHasValue(l, n % 16);
    var all := ['%', h, l] + rest;
    assert all[0] == '%' && all[1] == h && all[2] == l && all[3..] == rest;
    assert 16 * (n / 16) + n % 16 == n;
  }

  /** Every other byte stands for itself, unless it is a plus sign and those stand for spaces. */
  lemma ByteStandsForItself(c: char, rest: string, plusAsSpace: bool, inQuery: bool)
    requires c != '%' && (plusAsSpace ==> c != '+')
    ensures Decode([c] + rest, plusAsSpace, inQuery) == Prepend(c, Decode(rest, plusAsSpace, inQuery || c == '?'))
  {
    assert ([c] + rest)[1..] == rest;
  }

  /** An upper-case escape of a slash. */
  lemma UpperCaseSlash()
    ensures Decode("/a%2Fb") == Some("/a/b")
  {
    EscapeStandsForByte(47, '2', 'F', "b", false, false);
    ByteStandsForItself('b', "", false, false);
    ByteStandsForItself('a', "%2Fb", false, false);
    ByteStandsForItself('/', "a%2Fb", false, false);
    assert ['%', '2', 'F'] + "b" == "%2Fb" && ['a'] + "%2Fb" == "a%2Fb" && ['/'] + "a%2Fb" == "/a%2Fb";
    assert ['b'] + "" == "b" && 47 as char == '/';
    assert ['/'] + (['a'] + (['/'] + (['b'] + ""))) == "/a/b";
  }

  /** Every percent sign stands in front of two hexadecimal digits. */
  predicate WellEscaped(s: string) {
    forall i :: 0 <= i < |s| && s[i] == '%' ==> i + 2 < |s| && IsHex(s[i + 1]) && IsHex(s[i + 2])
  }

  lemma WellEscapedTail(s: string, k: nat)
    requires k <= |s| && forall i :: 0 < i < k ==> s[i] != '%'
    requires k > 0 && (s[0] == '%' ==> 2 < |s| && IsHex(s[1]) && IsHex(s[2]))
    ensures WellEscaped(s[k..]) <==> WellEscaped(s)
  {
    if WellEscaped(s[k..]) {
      forall i | 0 <= i < |s| && s[i] == '%' ensures i + 2 < |s| && IsHex(s[i + 1]) && IsHex(s[i + 2]) {
        if i >= k { assert s[k..][i - k] == '%'; }
      }
    }
    if WellEscaped(s) {
      forall i | 0 <= i < |s[k..]| && s[k..][i] == '%'
        ensures i + 2 < |s[k..]| && IsHex(s[k..][i + 1]) && IsHex(s[k..][i + 2])
      {
        assert s[k + i] == '%';
      }
    }
  }

  /** A text decodes if and only if it is well escaped. */
  lemma {:induction false} DecodesExactlyWhenWellEscaped(s: string, plusAsSpace: bool, inQuery: bool)
    ensures Decode(s, plusAsSpace, inQuery).Some? <==> WellEscaped(s)
    decreases |s|
  {
    if s != "" {
      var inQuery' := inQuery || s[0] == '?';
      if s[0] != '%' {
        DecodesExactlyWhenWellEscaped(s[1..], plusAsSpace, inQuery');
        WellEscapedTail(s, 1);
      } else if |s| >= 3 && IsHex(s[1]) && IsHex(s[2]) {
        DecodesExactlyWhenWellEscaped(s[3..], plusAsSpace, inQuery');
        WellEscapedTail(s, 3);
      } else {
        BrokenAtStart(s);
      }
    }
  }

  lemma BrokenAtStart(s: string)
    requires s != "" && s[0] == '%' && !(|s| >= 3 && IsHex(s[1]) && IsHex(s[2]))
    ensures !WellEscaped(s)
  {
  }

  /** Each plus sign written as an escaped space. */
  function PlusEscaped(s: string): string {
    if s == "" then "" else (if s[0] == '+' then "%20" else [s[0]]) + PlusEscaped(s[1..])
  }

  /** Where plus signs stand for spaces, that is behind a question mark, they read as "%20" does. */
  lemma {:induction false} PlusReadsAsSpace(s: string, inQuery: bool)
    ensures WellEscaped(s) ==> Decode(s, true, true) == Decode(PlusEscaped(s), false, inQuery)
    decreases |s|
  {
    if s != "" {
      assert s == [s[0]] + s[1..];
      if s[0] == '+' {
        PlusReadsAsSpace(s[1..], inQuery);
        EscapeStandsForByte(32, '2', '0', PlusEscaped(s[1..]), false, inQuery);
        assert "%20" == ['%', '2', '0'];
        if WellEscaped(s) { WellEscapedTail(s, 1); }
      } else if s[0] != '%' {
        PlusReadsAsSpace(s[1..], inQuery || s[0] == '?');
        ByteStandsForItself(s[0], s[1..], true, true);
        ByteStandsForItself(s[0], PlusEscaped(s[1..]), false, inQuery);
        if WellEscaped(s) { WellEscapedTail(s, 1); }
      } else if WellEscaped(s) {
        PlusReadsAsSpace(s[3..], inQuery);
        WellEscapedTail(s, 3);
        EscapeIsKept(s[1], s[2], s[3..]);
        assert s == ['%', s[1], s[2]] + s[3..];
        assert PlusEscaped(s)[3..] == PlusEscaped(s[3..]);
      }
    }
  }

  lemma ByteIsKept(c: char, rest: string)
    requires c != '+'
    ensures PlusEscaped([c] + rest) == [c] + PlusEscaped(rest)
  {
    assert ([c] + rest)[1..] == rest;
  }

  lemma EscapeIsKept(h: char, l: char, rest: string)
    requires IsHex(h) && IsHex(l)
    ensures PlusEscaped(['%', h, l] + rest) == ['%', h, l] + PlusEscaped(rest)
  {
    ByteIsKept(l, rest);
    ByteIsKept(h, [l] + rest);
    ByteIsKept('%', [h] + ([l] + rest));
    assert ['%', h, l] + rest == ['%'] + ([h] + ([l] + rest));
    assert ['%', h, l] + PlusEscaped(rest) == ['%'] + ([h] + ([l] + PlusEscaped(rest)));
  }

  /** In front of a question mark they stand for themselves. */
  lemma {:induction false} PlusStaysInFront(s: string)
    requires '?' !in s
    ensures Decode(s, true) == Decode(s, false)
    decreases |s|
  {
    if s != "" {
      PlusStaysInFront(s[1..]);
      if |s| >= 3 { PlusStaysInFront(s[3..]); }
    }
  }

  // ------------------------------------------------------------------ encoding

  predicate AlphaNumeric(c: char) {
    'a' <= c <= 'z' || 'A' <= c <= 'Z' || '0' <= c <= '9'
  }

  /** The punctuation that each part of a URL shows as it is. */
  function Shown(reserved: set<char>): set<char> {
    if reserved == RESERVED_PATH then {'-', '_', '.', '~', '&', '+', '/', ':', ';', '=', '@'}
    else if reserved == RESERVED_QUERY then {'-', '_', '.', '~', '&', '='}
    else if reserved == RESERVED_QUERY_PARAM then {'-', '_', '.', '~'}
    else {'-', '_', '.', '~', '&', '+', '/', ':', ';', '=', '@', '?', '#'}
  }

  lemma ShownEverywhere(c: char)
    ensures Unreserved(c) <==> AlphaNumeric(c) || c in {'-', '_', '.', '~'}
  {
  }

  lemma ShownInSome(c: char)
    requires 32 as char < c < 127 as char && !Unreserved(c)
    ensures c !in ILLEGAL <==> c in {'&', '+', '/', ':', ';', '=', '@', '?', '#'}
  {
  }

  lemma ShownExactly(c: char, reserved: set<char>)
    requires c < 128 as char
    requires reserved in {RESERVED_PATH, RESERVED_QUERY, RESERVED_QUERY_PARAM, RESERVED_FRAGMENT}
    ensures NeedsEscape(c, reserved) <==> !AlphaNumeric(c) && c !in Shown(reserved)
  {
    ShownEverywhere(c);
    if 32 as char < c < 127 as char && !Unreserved(c) { ShownInSome(c); }
    assert ':' !in RESERVED_PATH && ':' in RESERVED_QUERY && '&' !in RESERVED_QUERY && '&' in RESERVED_QUERY_PARAM;
    assert '?' in RESERVED_PATH && '?' !in RESERVED_FRAGMENT;
  }

  /** Letters, digits and that punctuation are printed as they are; everything else as its two lower-case digits. */
  lemma EncodesExactly(c: char, reserved: set<char>)
    requires c < 128 as char
    requires reserved in {RESERVED_PATH, RESERVED_QUERY, RESERVED_QUERY_PARAM, RESERVED_FRAGMENT}
    ensures Encode([c], reserved) ==
            if AlphaNumeric(c) || c in Shown(reserved) then [c]
            else ['%', LOWER_HEX[c as int / 16], LOWER_HEX[c as int % 16]]
  {
    assert [c][1..] == "";
    assert EncodeChar(c, reserved) + "" == EncodeChar(c, reserved);
    ShownExactly(c, reserved);
  }
}
