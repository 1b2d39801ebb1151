/** Decimal text: printing by `std::format` and reading by `std::stoi`. */
module Numbers {
  import opened Wrappers

  function Digit(d: nat): char
    requires d < 10
  {
    '0' + d as char
  }

  function Decimal(n: nat): (s: string)
    ensures s != ""
  {
    if n < 10 then [Digit(n)] else Decimal(n / 10) + [Digit(n % 10)]
  }

  predicate IsDigit(c: char) {
    '0' <= c <= '9'
  }

  predicate IsSpace(c: char) {
    c == ' ' || 9 as char <= c <= 13 as char
  }

  function SkipSpace(s: string): string {
    if s != "" && IsSpace(s[0]) then SkipSpace(s[1..]) else s
  }

  /** The value of the digits at the front, read onto `acc`. */
  function LeadingDigits(s: string, acc: nat): nat {
    if s == "" || !IsDigit(s[0]) then acc else LeadingDigits(s[1..], 10 * acc + (s[0] - '0') as nat)
  }

  /** `std::stoi`: leading space, an optional sign, at least one digit; what follows is ignored. */
  function StoI(s: string): Option<int> {
    var t := SkipSpace(s);
    var signed := t != "" && (t[0] == '-' || t[0] == '+');
    var digits := if signed then t[1..] else t;
    if digits == "" || !IsDigit(digits[0]) then None
    else
      var n := LeadingDigits(digits, 0);
      var v: int := if signed && t[0] == '-' then 0 - n else n;
      if -0x8000_0000 <= v < 0x8000_0000 then Some(v) else None
  }

  const ULONG_LIMIT: nat := 0x1_0000_0000_0000_0000
  const UINT_LIMIT: nat := 0x1_0000_0000

  /** `std::stoul` narrowed to 32 bits: a minus sign wraps around, and only overflow of 64 bits fails. */
  function StoUInt(s: string): Option<nat> {
    var t := SkipSpace(s);
    var signed := t != "" && (t[0] == '-' || t[0] == '+');
    var digits := if signed then t[1..] else t;
    if digits == "" || !IsDigit(digits[0]) then None
    else
      var n := LeadingDigits(digits, 0);
      if n >= ULONG_LIMIT then None
      else if signed && t[0] == '-' then Some((ULONG_LIMIT - n) % UINT_LIMIT)
      else Some(n % UINT_LIMIT)
  }

  lemma {:induction false} DecimalReads(n: nat, tail: string)
    ensures LeadingDigits(Decimal(n) + tail, 0) == LeadingDigits(tail, n)
  {
    if n < 10 {
      assert ([Digit(n)] + tail)[1..] == tail;
    } else {
      var rest := [Digit(n % 10)] + tail;
      assert Decimal(n) + tail == Decimal(n / 10) + rest;
      DecimalReads(n / 10, rest);
      assert rest[1..] == tail;
    }
  }

  lemma {:induction false} DecimalIsDigits(n: nat)
    ensures forall i :: 0 <= i < |Decimal(n)| ==> IsDigit(Decimal(n)[i])
  {
    if n >= 10 {
      DecimalIsDigits(n / 10);
    }
  }

  lemma DecimalReadsWhole(n: nat)
    ensures LeadingDigits(Decimal(n), 0) == n && IsDigit(Decimal(n)[0]) && SkipSpace(Decimal(n)) == Decimal(n)
  {
    DecimalReads(n, "");
    DecimalIsDigits(n);
    assert Decimal(n) + "" == Decimal(n);
    assert IsDigit(Decimal(n)[0]);
  }

  /** Reading back a printed number of the `int` range gives that number. */
  lemma DecimalRoundTrip(n: nat)
    requires n < 0x8000_0000
    ensures StoI(Decimal(n)) == Some(n)
  {
    DecimalReadsWhole(n);
  }

  lemma DecimalRoundTripUnsigned(n: nat)
    requires n < UINT_LIMIT
    ensures StoUInt(Decimal(n)) == Some(n)
  {
    DecimalReadsWhole(n);
  }

  lemma {:induction false} LeadingDigitsStop(s: string, a: string, b: string, acc: nat)
    ensures LeadingDigits(s + (":" + a), acc) == LeadingDigits(s + (":" + b), acc)
  {
    if s == "" {
      assert "" + (":" + a) == ":" + a && "" + (":" + b) == ":" + b;
    } else {
      assert (s + (":" + a))[1..] == s[1..] + (":" + a);
      assert (s + (":" + b))[1..] == s[1..] + (":" + b);
      if IsDigit(s[0]) { LeadingDigitsStop(s[1..], a, b, 10 * acc + (s[0] - '0') as nat); }
    }
  }

  lemma {:induction false} SkipSpaceStops(s: string, a: string)
    ensures SkipSpace(s + (":" + a)) == SkipSpace(s) + (":" + a)
  {
    if s == "" {
      assert "" + (":" + a) == ":" + a;
    } else {
      var all := s + (":" + a);
      assert all[0] == s[0] && all[1..] == s[1..] + (":" + a);
      if IsSpace(s[0]) { SkipSpaceStops(s[1..], a); }
    }
  }

  /** What follows a colon has no influence on the number read in front of it. */
  lemma NumberEndsAtColon(s: string, a: string, b: string)
    ensures StoUInt(s + (":" + a)) == StoUInt(s + (":" + b))
  {
    SkipSpaceStops(s, a);
    SkipSpaceStops(s, b);
    var t := SkipSpace(s);
    if t != "" {
      assert (t + (":" + a))[1..] == t[1..] + (":" + a) && (t + (":" + b))[1..] == t[1..] + (":" + b);
      LeadingDigitsStop(t, a, b, 0);
      LeadingDigitsStop(t[1..], a, b, 0);
    }
  }

  // ------------------------------------------------------------------ what a text reads as

  /** The number that digits spell. */
  function ValueOf(digits: string): nat
    requires forall i :: 0 <= i < |digits| ==> IsDigit(digits[i])
  {
    if digits == "" then 0
    else
      var n := |digits| - 1;
      assert IsDigit(digits[n]);
      10 * ValueOf(digits[..n]) + (digits[n] - '0') as nat
  }

  lemma {:induction false} DigitsRead(digits: string, rest: string)
    requires forall i :: 0 <= i < |digits| ==> IsDigit(digits[i])
    ensures LeadingDigits(digits + rest, 0) == LeadingDigits(rest, ValueOf(digits))
  {
    if digits == "" {
      assert "" + rest == rest;
    } else {
      var n := |digits| - 1;
      var more := [digits[n]] + rest;
      DigitsRead(digits[..n], more);
      assert digits[..n] + more == digits + rest && more[1..] == rest;
    }
  }

  /** Space, sign, digits, and anything that does not start with a digit. */
  predicate Spelled(space: string, sign: string, digits: string, tail: string) {
    && (forall i :: 0 <= i < |space| ==> IsSpace(space[i]))
    && (sign == "" || sign == "+" || sign == "-")
    && digits != "" && (forall i :: 0 <= i < |digits| ==> IsDigit(digits[i]))
    && (tail == "" || !IsDigit(tail[0]))
  }

  lemma {:induction false} SpaceIsSkipped(space: string, rest: string)
    requires (forall i :: 0 <= i < |space| ==> IsSpace(space[i])) && (rest == "" || !IsSpace(rest[0]))
    ensures SkipSpace(space + rest) == rest
  {
    if space == "" {
      assert "" + rest == rest;
    } else {
      assert (space + rest)[1..] == space[1..] + rest;
      SpaceIsSkipped(space[1..], rest);
    }
  }

  lemma SpelledReads(space: string, sign: string, digits: string, tail: string)
    requires Spelled(space, sign, digits, tail)
    ensures SkipSpace(space + (sign + (digits + tail))) == sign + (digits + tail)
    ensures (sign + (digits + tail))[|sign|..] == digits + tail && (sign == "" || [(sign + (digits + tail))[0]] == sign)
    ensures LeadingDigits(digits + tail, 0) == ValueOf(digits)
  {
    var rest := sign + (digits + tail);
    assert rest[0] == if sign == "" then digits[0] else sign[0];
    SpaceIsSkipped(space, rest);
    DigitsRead(digits, tail);
  }

  /** `std::stoi` reads the number spelled, sign included, if it fits an `int`; what follows is ignored. */
  lemma StoIReads(space: string, sign: string, digits: string, tail: string)
    requires Spelled(space, sign, digits, tail)
    ensures var v: int := if sign == "-" then 0 - ValueOf(digits) else ValueOf(digits);
            StoI(space + (sign + (digits + tail))) == if -0x8000_0000 <= v < 0x8000_0000 then Some(v) else None
  {
    SpelledReads(space, sign, digits, tail);
  }

  /** `std::stoul` wraps a negative number around, and what is left is cut to 32 bits. */
  lemma StoUIntReads(space: string, sign: string, digits: string, tail: string)
    requires Spelled(space, sign, digits, tail)
    ensures var v := ValueOf(digits);
            StoUInt(space + (sign + (digits + tail))) ==
            if v >= 0x1_0000_0000_0000_0000 then None
            else if sign == "-" then Some((0x1_0000_0000_0000_0000 - v) % 0x1_0000_0000)
            else Some(v % 0x1_0000_0000)
  {
    SpelledReads(space, sign, digits, tail);
  }

  /** Without a digit behind space and sign, nothing is read. */
  lemma NothingSpelled(space: string, sign: string, tail: string)
    requires (forall i :: 0 <= i < |space| ==> IsSpace(space[i])) && (sign == "" || sign == "+" || sign == "-")
    requires tail == "" || !(IsDigit(tail[0]) || (sign == "" && (IsSpace(tail[0]) || tail[0] == '+' || tail[0] == '-')))
    ensures StoI(space + (sign + tail)) == None && StoUInt(space + (sign + tail)) == None
  {
    var rest := sign + tail;
    assert rest != "" ==> rest[0] == if sign == "" then tail[0] else sign[0];
    assert rest[|sign|..] == tail;
    SpaceIsSkipped(space, rest);
  }
}
