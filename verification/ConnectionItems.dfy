/**
 The connection strings handed to the database library: items "key=value", separated by spaces. What
 reading an item gives back, and when every item reads back as it was written.
 */
module ConnectionItems {
  import opened Wrappers
  import opened Text

  type Item = (string, string)

  function ItemText(item: Item): string {
    item.0 + ("=" + item.1)
  }

  /** The items as they are written. */
  function Written(items: seq<Item>): string {
    if items == [] then ""
    else if |items| == 1 then ItemText(items[0])
    else ItemText(items[0]) + (" " + Written(items[1..]))
  }

  /** The value of the first item with the given key. */
  function Read(text: string, key: string): Option<string>
    decreases |text|
  {
    var k := Span(text, {' '});
    var item := text[..k];
    var m := Span(item, {'='});
    if m < k && item[..m] == key then Some(item[m + 1..])
    else if k < |text| then Read(text[k + 1..], key)
    else None
  }

  /** Keys are words, and no two are alike. */
  predicate Keyed(items: seq<Item>) {
    && (forall i :: 0 <= i < |items| ==> Free(items[i].0, {' ', '='}))
    && (forall i, j :: 0 <= i < j < |items| ==> items[i].0 != items[j].0)
  }

  /** The first `n` values are words. */
  predicate SpaceFreeUpTo(items: seq<Item>, n: nat)
    requires n <= |items|
  {
    forall i :: 0 <= i < n ==> Free(items[i].1, {' '})
  }

  predicate SpaceFree(items: seq<Item>) {
    SpaceFreeUpTo(items, |items|)
  }

  predicate ReadsBack(items: seq<Item>, i: nat)
    requires i < |items|
  {
    Read(Written(items), items[i].0) == Some(items[i].1)
  }

  lemma WordInItem(key: string, value: string)
    requires Free(key, {' ', '='}) && Free(value, {' '})
    ensures Free(ItemText((key, value)), {' '})
    ensures Span(ItemText((key, value)), {'='}) == |key|
    ensures ItemText((key, value))[..|key|] == key && ItemText((key, value))[|key| + 1..] == value
  {
    forall i | 0 <= i < |key| ensures key[i] !in {'='} && key[i] !in {' '} {
      assert key[i] !in {' ', '='};
    }
    SpanOver(key, "=" + value, {'='});
    var item := ItemText((key, value));
    forall i | 0 <= i < |item| ensures item[i] !in {' '} {
      if i < |key| { assert item[i] == key[i]; } else if i > |key| { assert item[i] == value[i - |key| - 1]; }
    }
  }

  /** Reading past a well-formed item, or in it. */
  lemma ReadFirst(key: string, value: string, rest: string, wanted: string)
    requires Free(key, {' ', '='}) && Free(value, {' '}) && (rest == "" || rest[0] == ' ')
    ensures Read(ItemText((key, value)) + rest, wanted) ==
            if key == wanted then Some(value) else if rest == "" then None else Read(rest[1..], wanted)
  {
    var item := ItemText((key, value));
    WordInItem(key, value);
    SpanOver(item, rest, {' '});
    assert rest != "" ==> (item + rest)[|item| + 1..] == rest[1..];
  }

  /** A value with a space in it is cut there. */
  lemma ReadCut(key: string, value: string, rest: string)
    requires Free(key, {' ', '='}) && !Free(value, {' '})
    ensures var k := Span(value, {' '});
            k < |value| && Read(ItemText((key, value)) + rest, key) == Some(value[..k])
  {
    var k := Span(value, {' '});
    assert k == |value| ==> value[..k] == value;
    SpanIsFree(value, {' '});
    CutValue(key, value, rest, k);
    ReadFirst(key, value[..k], value[k..] + rest, key);
  }

  lemma CutValue(key: string, value: string, rest: string, k: nat)
    requires k <= |value|
    ensures ItemText((key, value)) + rest == ItemText((key, value[..k])) + (value[k..] + rest)
  {
    assert value == value[..k] + value[k..];
  }

  lemma WrittenSplits(items: seq<Item>)
    requires items != []
    ensures var rest := if |items| == 1 then "" else " " + Written(items[1..]);
            Written(items) == ItemText(items[0]) + rest && (rest == "" || rest[0] == ' ') &&
            (|items| > 1 ==> rest != "" && rest[1..] == Written(items[1..]))
  {
    assert ItemText(items[0]) + "" == ItemText(items[0]);
  }

  /** Behind a first item without a space in it, reading goes on with the others. */
  lemma ReadsOnward(items: seq<Item>, i: nat)
    requires Keyed(items) && 0 < i < |items| && Free(items[0].1, {' '})
    ensures Keyed(items[1..])
    ensures ReadsBack(items, i) <==> ReadsBack(items[1..], i - 1)
  {
    var (key, value) := items[0];
    WrittenSplits(items);
    ReadFirst(key, value, " " + Written(items[1..]), items[i].0);
  }

  lemma SpaceFreeBehind(items: seq<Item>, n: nat)
    requires 0 < n <= |items| && SpaceFreeUpTo(items, n)
    ensures Free(items[0].1, {' '}) && SpaceFreeUpTo(items[1..], n - 1)
  {
  }

  /** An item reads back if no value up to it has a space. */
  lemma {:induction false} ReadsItem(items: seq<Item>, i: nat)
    requires Keyed(items) && i < |items| && SpaceFreeUpTo(items, i + 1)
    ensures ReadsBack(items, i)
  {
    SpaceFreeBehind(items, i + 1);
    if i > 0 {
      ReadsOnward(items, i);
      ReadsItem(items[1..], i - 1);
    } else {
      WrittenSplits(items);
      ReadFirst(items[0].0, items[0].1, if |items| == 1 then "" else " " + Written(items[1..]), items[0].0);
    }
  }

  lemma LosesFirst(items: seq<Item>, key: string, value: string)
    requires items != [] && items[0] == (key, value) && Free(key, {' ', '='}) && !Free(value, {' '})
    ensures Read(Written(items), key) != Some(value)
  {
    WrittenSplits(items);
    ReadCut(key, value, if |items| == 1 then "" else " " + Written(items[1..]));
  }

  /** The first item whose value has a space does not. */
  lemma {:induction false} LosesItem(items: seq<Item>, i: nat)
    requires Keyed(items) && i < |items| && SpaceFreeUpTo(items, i) && !Free(items[i].1, {' '})
    ensures !ReadsBack(items, i)
  {
    if i > 0 {
      SpaceFreeBehind(items, i);
      ReadsOnward(items, i);
      var rest := items[1..];
      assert rest[i - 1] == items[i];
      LosesItem(rest, i - 1);
    } else {
      LosesFirst(items, items[0].0, items[0].1);
    }
  }

  /** Every item reads back if and only if no value has a space in it. */
  lemma AllReadBackExactlyWhenSpaceFree(items: seq<Item>)
    requires Keyed(items)
    ensures (forall i: nat :: i < |items| ==> ReadsBack(items, i)) <==> SpaceFree(items)
  {
    if SpaceFree(items) {
      forall i: nat | i < |items| ensures ReadsBack(items, i) { ReadsItem(items, i); }
    } else {
      var i := FirstWithSpace(items);
      LosesItem(items, i);
    }
  }

  ghost function FirstWithSpace(items: seq<Item>): (i: nat)
    requires !SpaceFree(items)
    ensures i < |items| && !Free(items[i].1, {' '}) && SpaceFreeUpTo(items, i)
  {
    FirstFrom(items, 0)
  }

  ghost function FirstFrom(items: seq<Item>, n: nat): (i: nat)
    requires n <= |items| && SpaceFreeUpTo(items, n) && !SpaceFree(items)
    ensures i < |items| && !Free(items[i].1, {' '}) && SpaceFreeUpTo(items, i)
    decreases |items| - n
  {
    if Free(items[n].1, {' '}) then FirstFrom(items, n + 1) else n
  }
}
