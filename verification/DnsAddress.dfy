/** `remove_duplicates`: compacting a vector in place, with an ordered set of the values seen. */
module DnsAddress {
  import opened IpAddress

  ghost predicate Irreflexive<T(!new)>(less: (T, T) -> bool) {
    forall x :: !less(x, x)
  }

  ghost predicate Transitive<T(!new)>(less: (T, T) -> bool) {
    forall x, y, z :: less(x, y) && less(y, z) ==> less(x, z)
  }

  predicate Equivalent<T>(less: (T, T) -> bool, x: T, y: T) {
    !less(x, y) && !less(y, x)
  }

  /** What `std::set` demands of its ordering. */
  ghost predicate StrictWeakOrder<T(!new)>(less: (T, T) -> bool) {
    && Irreflexive(less) && Transitive(less)
    && forall x, y, z :: Equivalent(less, x, y) && Equivalent(less, y, z) ==> Equivalent(less, x, z)
  }

  /** No earlier entry is equivalent. */
  predicate IsFirst<T>(less: (T, T) -> bool, s: seq<T>, i: nat)
    requires i < |s|
  {
    forall j :: 0 <= j < i ==> !Equivalent(less, s[j], s[i])
  }

  /** The first occurrences, in their order. */
  function FirstOccurrences<T>(less: (T, T) -> bool, s: seq<T>): seq<T> {
    if s == [] then []
    else
      var n := |s| - 1;
      FirstOccurrences(less, s[..n]) + if IsFirst(less, s, n) then [s[n]] else []
  }

  /** `insert(v).second`: is no equivalent value in the set yet? */
  predicate IsNew<T(==)>(less: (T, T) -> bool, seen: seq<T>, v: T) {
    forall j :: 0 <= j < |seen| ==> !Equivalent(less, seen[j], v)
  }

  /** Where the first occurrences stand. */
  function FirstIndices<T>(less: (T, T) -> bool, s: seq<T>): (r: seq<nat>)
    ensures forall k :: 0 <= k < |r| ==> r[k] < |s|
  {
    if s == [] then []
    else
      var n := |s| - 1;
      FirstIndices(less, s[..n]) + if IsFirst(less, s, n) then [n] else []
  }

  /** The result is the input at increasing positions ... */
  lemma {:induction false} FirstOccurrencesInOrder<T>(less: (T, T) -> bool, s: seq<T>)
    ensures var at := FirstIndices(less, s); var r := FirstOccurrences(less, s);
            |r| == |at| && (forall k :: 0 <= k < |at| ==> r[k] == s[at[k]]) &&
            (forall k, l :: 0 <= k < l < |at| ==> at[k] < at[l])
  {
    if s != [] {
      var n := |s| - 1;
      FirstOccurrencesInOrder(less, s[..n]);
      var at, was := FirstIndices(less, s), FirstIndices(less, s[..n]);
      assert forall k :: 0 <= k < |was| ==> at[k] == was[k] && was[k] < n;
    }
  }

  /** ... and these are the positions of the first occurrences. */
  lemma {:induction false} FirstIndicesAreFirst<T>(less: (T, T) -> bool, s: seq<T>, i: nat)
    requires i < |s|
    ensures i in FirstIndices(less, s) <==> IsFirst(less, s, i)
  {
    var n := |s| - 1;
    if i < n {
      FirstIndicesAreFirst(less, s[..n], i);
      assert IsFirst(less, s[..n], i) <==> IsFirst(less, s, i) by {
        assert forall j :: 0 <= j <= i ==> s[..n][j] == s[j];
      }
    }
  }

  /** Every entry has an equivalent one among the first occurrences. */
  lemma {:induction false} Represented<T(!new)>(less: (T, T) -> bool, s: seq<T>, i: nat)
    requires StrictWeakOrder(less) && i < |s|
    ensures exists k :: 0 <= k < |FirstOccurrences(less, s)| && Equivalent(less, FirstOccurrences(less, s)[k], s[i])
  {
    var n := |s| - 1;
    var front, all := FirstOccurrences(less, s[..n]), FirstOccurrences(less, s);
    if i < n {
      Represented(less, s[..n], i);
      var k :| 0 <= k < |front| && Equivalent(less, front[k], s[i]);
      assert all[k] == front[k];
    } else if IsFirst(less, s, n) {
      assert all[|front|] == s[n];
    } else {
      var j :| 0 <= j < n && Equivalent(less, s[j], s[n]);
      Represented(less, s[..n], j);
      var k :| 0 <= k < |front| && Equivalent(less, front[k], s[j]);
      assert all[k] == front[k] && Equivalent(less, all[k], s[n]);
    }
  }

  /** No two entries of the result are equivalent. */
  lemma NoDuplicates<T(!new)>(less: (T, T) -> bool, s: seq<T>, k: nat, l: nat)
    requires k < l < |FirstOccurrences(less, s)|
    ensures !Equivalent(less, FirstOccurrences(less, s)[k], FirstOccurrences(less, s)[l])
  {
    FirstOccurrencesInOrder(less, s);
    var at := FirstIndices(less, s);
    assert at[l] in at && at[k] < at[l];
    FirstIndicesAreFirst(less, s, at[l]);
  }

  /** A value is new to the set of first occurrences exactly if it is new to the list. */
  lemma NewToTheSet<T(!new)>(less: (T, T) -> bool, s: seq<T>, n: nat)
    requires StrictWeakOrder(less) && n < |s|
    ensures IsNew(less, FirstOccurrences(less, s[..n]), s[n]) <==> IsFirst(less, s, n)
  {
    var seen := FirstOccurrences(less, s[..n]);
    if IsNew(less, seen, s[n]) {
      forall j | 0 <= j < n ensures !Equivalent(less, s[j], s[n]) {
        Represented(less, s[..n], j);
        var k :| 0 <= k < |seen| && Equivalent(less, seen[k], s[..n][j]);
        assert !Equivalent(less, seen[k], s[n]);
      }
    }
    if IsFirst(less, s, n) {
      FirstOccurrencesInOrder(less, s[..n]);
      var at := FirstIndices(less, s[..n]);
      forall k | 0 <= k < |seen| ensures !Equivalent(less, seen[k], s[n]) {
        assert seen[k] == s[at[k]];
      }
    }
  }

  lemma NextOccurrence<T(!new)>(less: (T, T) -> bool, s: seq<T>, i: nat)
    requires StrictWeakOrder(less) && i < |s|
    ensures var seen := FirstOccurrences(less, s[..i]);
            FirstOccurrences(less, s[..i + 1]) == if IsNew(less, seen, s[i]) then seen + [s[i]] else seen
  {
    assert s[..i + 1][..i] == s[..i];
    NewToTheSet(less, s[..i + 1], i);
  }

  /** `erase(remove_if(…))`: entries move to the front, and the new length is returned. */
  method RemoveDuplicates<T(==,!new)>(list: array<T>, less: (T, T) -> bool) returns (length: nat)
    requires StrictWeakOrder(less)
    modifies list
    ensures length <= list.Length && list[..length] == FirstOccurrences(less, old(list[..]))
  {
    length := 0;
    var seen := [];
    ghost var given := list[..];
    for i := 0 to list.Length
      invariant length <= i && list[i..] == given[i..]
      invariant list[..length] == seen == FirstOccurrences(less, given[..i])
    {
      var v := list[i];
      assert v == list[i..][0] == given[i];
      NextOccurrence(less, given, i);
      if IsNew(less, seen, v) {
        seen := seen + [v];
        list[length] := v;
        length := length + 1;
      }
    }
    assert given[..list.Length] == given;
  }

  // ------------------------------------------------------------------ lists of addresses

  /** The address operators order a set, whose equivalence is equality. */
  lemma AddressesAreOrdered()
    ensures StrictWeakOrder(Less) && forall a: Address, b: Address :: Equivalent(Less, a, b) <==> a == b
  {
    forall a: Address, b: Address, c: Address
      ensures !Less(a, a) && (Less(a, b) && Less(b, c) ==> Less(a, c)) && (Equivalent(Less, a, b) <==> a == b)
    {
      LessIsTotalOrder(a, b, c);
    }
  }

  method RemoveDuplicateAddresses(list: array<Address>) returns (length: nat)
    modifies list
    ensures length <= list.Length && list[..length] == FirstOccurrences(Less, old(list[..]))
  {
    AddressesAreOrdered();
    length := RemoveDuplicates(list, Less);
  }

  /** For addresses: the same addresses as before, each once. */
  lemma EachAddressOnce(s: seq<Address>)
    ensures var r := FirstOccurrences(Less, s);
            (forall a :: a in r <==> a in s) && forall k, l :: 0 <= k < l < |r| ==> r[k] != r[l]
  {
    var r := FirstOccurrences(Less, s);
    AddressesAreOrdered();
    FirstOccurrencesInOrder(Less, s);
    forall i: nat | i < |s| ensures s[i] in r {
      Represented(Less, s, i);
    }
    forall k: nat, l: nat | k < l < |r| ensures r[k] != r[l] {
      NoDuplicates(Less, s, k, l);
    }
  }
}
