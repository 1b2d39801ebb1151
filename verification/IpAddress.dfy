/**
 IP addresses as byte strings: the increment with its carry, and the comparison operators, against
 the numbers the bytes stand for in network order.
 */
module IpAddress {
  import opened Arithmetic

  type Byte = b: int | 0 <= b < 256

  datatype Family = V4 | V6

  /** `AF_INET` and `AF_INET6`. */
  function Af(f: Family): int {
    if f.V4? then 2 else 10
  }

  function Length(f: Family): nat {
    if f.V4? then 4 else 16
  }

  datatype Bytes = Bytes(family: Family, bytes: seq<Byte>)

  /** An address by what its operators look at: the family and that family's significant bytes. */
  type Address = a: Bytes | |a.bytes| == Length(a.family) witness Bytes(V4, [0, 0, 0, 0])

  // ------------------------------------------------------------------ network order

  function Power(n: nat): (p: nat)
    ensures p > 0
  {
    if n == 0 then 1 else 256 * Power(n - 1)
  }

  function Number(bytes: seq<Byte>): (v: nat)
    ensures v < Power(|bytes|)
  {
    if bytes == [] then 0 else 256 * Number(bytes[..|bytes| - 1]) + bytes[|bytes| - 1]
  }

  // ------------------------------------------------------------------ increment

  function Incremented(bytes: seq<Byte>): (r: seq<Byte>)
    ensures |r| == |bytes|
  {
    if bytes == [] then []
    else
      var front, last := bytes[..|bytes| - 1], bytes[|bytes| - 1];
      if last == 255 then Incremented(front) + [0] else front + [last + 1]
  }

  function IncrementedTimes(bytes: seq<Byte>, k: nat): (r: seq<Byte>)
    ensures |r| == |bytes|
  {
    if k == 0 then bytes else Incremented(IncrementedTimes(bytes, k - 1))
  }

  /** The carry at one byte. */
  lemma IncrementLast(bytes: seq<Byte>, i: nat)
    requires i < |bytes|
    ensures bytes[..i + 1] == bytes[..i] + [bytes[i]]
    ensures Incremented(bytes[..i + 1]) ==
            if bytes[i] == 255 then Incremented(bytes[..i]) + [0] else bytes[..i] + [bytes[i] + 1]
  {
    assert bytes[..i + 1][..i] == bytes[..i];
  }

  /** Bytes from `i` on are done; what is left to do is to carry into the first `i`, or nothing. */
  predicate CarriedTo(before: seq<Byte>, now: seq<Byte>, i: nat, carry: bool)
    requires |now| == |before| && i <= |now|
  {
    if carry then now[..i] == before[..i] && Incremented(before) == Incremented(before[..i]) + now[i..]
    else now == Incremented(before)
  }

  lemma NothingCarried(bytes: seq<Byte>)
    ensures CarriedTo(bytes, bytes, |bytes|, true)
  {
    assert bytes[..|bytes|] == bytes && Incremented(bytes) + [] == Incremented(bytes);
  }

  lemma CarryOn(before: seq<Byte>, now: seq<Byte>, i: nat)
    requires i < |now| == |before| && CarriedTo(before, now, i + 1, true)
    ensures CarriedTo(before, now[i := if now[i] == 255 then 0 else now[i] + 1], i, now[i] == 255)
  {
    IncrementLast(before, i);
    assert now[i] == now[..i + 1][i] == before[i] && now[..i] == now[..i + 1][..i];
    var x: Byte := if now[i] == 255 then 0 else now[i] + 1;
    assert now[i := x][i..] == [x] + now[i + 1..];
    assert now[i := x] == now[..i] + ([x] + now[i + 1..]);
  }

  lemma {:induction false} IncrementAddsOne(bytes: seq<Byte>)
    ensures Number(Incremented(bytes)) == (Number(bytes) + 1) % Power(|bytes|)
  {
    if bytes == [] {
      ModSmall(1, 1);
    } else {
      var front, last := bytes[..|bytes| - 1], bytes[|bytes| - 1];
      IncrementAddsOne(front);
      Carries(front, last, Incremented(bytes));
    }
  }

  lemma Carries(front: seq<Byte>, last: Byte, r: seq<Byte>)
    requires Number(Incremented(front)) == (Number(front) + 1) % Power(|front|)
    requires r == if last == 255 then Incremented(front) + [0] else front + [last + 1]
    ensures Number(r) == (256 * Number(front) + last + 1) % (256 * Power(|front|))
  {
    CarryArithmetic(Number(front), last, Power(|front|));
    assert r[..|r| - 1] == if last == 255 then Incremented(front) else front;
  }

  lemma CarryArithmetic(v: nat, last: Byte, p: nat)
    requires v < p
    ensures (256 * v + last + 1) % (256 * p) == if last == 255 then 256 * ((v + 1) % p) else 256 * v + last + 1
  {
    ModSmall(v + 1, p);
    ModSmall(256 * v + last + 1, 256 * p);
  }

  /** Counting `k` addresses on takes the number `v` to `v + k`, modulo the size of the address space. */
  lemma {:induction false} IncrementsAdd(bytes: seq<Byte>, k: nat)
    ensures Number(IncrementedTimes(bytes, k)) == (Number(bytes) + k) % Power(|bytes|)
  {
    if k == 0 {
      ModSmall(Number(bytes), Power(|bytes|));
    } else {
      IncrementsAdd(bytes, k - 1);
      IncrementAddsOne(IncrementedTimes(bytes, k - 1));
      AddModulo(Number(bytes) + (k - 1), 1, Power(|bytes|));
    }
  }

  // ------------------------------------------------------------------ comparison

  /** `memcmp`: the sign of the first difference. */
  function Compare(a: seq<Byte>, b: seq<Byte>): int
    requires |a| == |b|
  {
    if a == [] then 0 else if a[0] != b[0] then a[0] - b[0] else Compare(a[1..], b[1..])
  }

  predicate Equal(a: Address, b: Address) {
    a.family == b.family && Compare(a.bytes, b.bytes) == 0
  }

  predicate Greater(a: Address, b: Address) {
    Af(a.family) > Af(b.family) || (a.family == b.family && Compare(a.bytes, b.bytes) > 0)
  }

  predicate Less(a: Address, b: Address) {
    !Equal(a, b) && !Greater(a, b)
  }

  lemma {:induction false} NumberFromFront(x: Byte, rest: seq<Byte>)
    ensures Number([x] + rest) == x * Power(|rest|) + Number(rest)
  {
    var all := [x] + rest;
    if rest == [] {
      assert all[..0] == [];
    } else {
      var front, last := rest[..|rest| - 1], rest[|rest| - 1];
      assert all[..|all| - 1] == [x] + front && all[|all| - 1] == last;
      NumberFromFront(x, front);
      assert 256 * (x * Power(|front|)) == x * Power(|rest|);
    }
  }

  lemma LeadingByteDecides(x: nat, y: nat, v: nat, w: nat, p: nat)
    requires v < p && x < y
    ensures x * p + v < y * p + w
  {
    var d := y - x - 1;
    assert y * p == (x + 1 + d) * p == x * p + p + d * p;
    assert d * p >= 0;
  }

  /** The first difference decides as the numbers do. */
  lemma {:induction false} CompareIsNumeric(a: seq<Byte>, b: seq<Byte>)
    requires |a| == |b|
    ensures Compare(a, b) < 0 <==> Number(a) < Number(b)
    ensures Compare(a, b) == 0 <==> Number(a) == Number(b)
    ensures Compare(a, b) == 0 <==> a == b
  {
    if a != [] {
      assert a == [a[0]] + a[1..] && b == [b[0]] + b[1..];
      NumberFromFront(a[0], a[1..]);
      NumberFromFront(b[0], b[1..]);
      CompareIsNumeric(a[1..], b[1..]);
      var p := Power(|a| - 1);
      if a[0] < b[0] { LeadingByteDecides(a[0], b[0], Number(a[1..]), Number(b[1..]), p); }
      if b[0] < a[0] { LeadingByteDecides(b[0], a[0], Number(b[1..]), Number(a[1..]), p); }
    }
  }

  /** IPv4 before IPv6, and within a family the numbers decide. */
  predicate Before(a: Address, b: Address) {
    (a.family.V4? && b.family.V6?) || (a.family == b.family && Number(a.bytes) < Number(b.bytes))
  }

  lemma OperatorsAreNumeric(a: Address, b: Address)
    ensures Equal(a, b) <==> a == b
    ensures Less(a, b) <==> Before(a, b)
    ensures Greater(a, b) <==> Before(b, a)
  {
    if a.family == b.family {
      CompareIsNumeric(a.bytes, b.bytes);
    }
  }

  /** A strict total order. */
  lemma LessIsTotalOrder(a: Address, b: Address, c: Address)
    ensures !Less(a, a)
    ensures Less(a, b) && Less(b, c) ==> Less(a, c)
    ensures Less(a, b) || Less(b, a) || a == b
  {
    OperatorsAreNumeric(a, a);
    OperatorsAreNumeric(a, b);
    OperatorsAreNumeric(b, a);
    OperatorsAreNumeric(b, c);
    OperatorsAreNumeric(a, c);
  }

  function Next(a: Address): Address {
    Bytes(a.family, Incremented(a.bytes))
  }

  /** The next address is greater, except behind the last one, which wraps around to zero. */
  lemma NextIsGreater(a: Address)
    ensures Greater(Next(a), a) <==> Number(a.bytes) + 1 < Power(Length(a.family))
    ensures !Greater(Next(a), a) ==> Number(Next(a).bytes) == 0
  {
    IncrementAddsOne(a.bytes);
    OperatorsAreNumeric(Next(a), a);
    ModSmall(Number(a.bytes) + 1, Power(Length(a.family)));
  }

  // ------------------------------------------------------------------ the object

  /** 16 bytes are stored; an IPv4 address uses the first four. */
  class IpAddress {
    var family: Family
    const data: array<Byte>

    ghost predicate Valid() {
      data.Length == 16
    }

    function View(): Address
      requires Valid()
      reads this, data
    {
      Bytes(family, data[..Length(family)])
    }

    /** The wildcard IPv4 address. */
    constructor ()
      ensures Valid() && fresh(data) && View() == Bytes(V4, [0, 0, 0, 0])
    {
      family := V4;
      data := new Byte[16](_ => 0);
    }

    method Increment() returns (done: bool)
      requires Valid()
      modifies data
      ensures done && View() == Next(old(View()))
      ensures data[Length(family)..] == old(data[Length(family)..])
    {
      var n := Length(family);
      var overflow, sum: nat, i := false, 0, n - 1;
      ghost var before, bytes := data[..n], data[..n];
      NothingCarried(before);
      while i >= 0
        invariant -1 <= i < n
        invariant data[..n] == bytes && data[n..] == old(data[n..])
        invariant |bytes| == n && CarriedTo(before, bytes, i + 1, i == n - 1 || overflow)
      {
        if i == n - 1 {
          sum := data[i] as nat + 1;
        } else if overflow {
          sum := data[i] as nat + 1;
        } else {
          break;
        }
        assert bytes[i] == data[i];
        CarryOn(before, bytes, i);
        bytes := bytes[i := if bytes[i] == 255 then 0 else bytes[i] + 1];
        if (sum / 0x100) % 2 == 1 {
          overflow := true;
          data[i] := 0;
        } else {
          overflow := false;
          data[i] := sum % 0x100;
        }
        i := i - 1;
      }
      done := true;
    }
  }
}
