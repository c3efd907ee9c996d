/** Length-type-value items: the length that is announced, and the bytes that are written. */
module Ltv {
  import opened Bytes

  const TYPES := 32

  /** LTV_ATTR_GET: a type with or without its two callbacks, and what they answer. */
  datatype Attr = Attr(typ: nat, hasSize: bool, size: nat, hasData: bool, data: seq<byte>)

  /** Sizes are bytes, and the data is as long as they say. */
  predicate ValidAttr(a: Attr) { a.size < 256 && (a.hasSize && a.hasData ==> a.size <= |a.data|) }

  predicate ValidTable(table: seq<Attr>) { forall k :: 0 <= k < |table| ==> ValidAttr(table[k]) }

  predicate Masked(mask: bv32, i: nat)
    requires i < TYPES
  {
    mask & ((1 as bv32) << i) != 0
  }

  /** The mask halved i times is odd. */
  predicate OddAfter(mask: bv32, i: nat) {
    if i == 0 then mask % 2 == 1 else OddAfter(mask / 2, i - 1)
  }

  /** Type i belongs to the bit that is worth 2 to the i. */
  lemma {:induction false} MaskedBit(mask: bv32, i: nat)
    requires i < TYPES
    ensures Masked(mask, i) <==> OddAfter(mask, i)
    decreases i
  {
    if i > 0 {
      MaskedHalf(mask, i);
      MaskedBit(mask / 2, i - 1);
    }
  }

  lemma MaskedHalf(mask: bv32, i: nat)
    requires 0 < i < TYPES
    ensures Masked(mask, i) <==> Masked(mask / 2, i - 1)
  {
  }

  /** get_attr_ptr_by_type: the first attribute of that type from k on, or the end of the table. */
  function AttrOf(table: seq<Attr>, typ: nat, k: nat): (r: nat)
    requires k <= |table|
    ensures k <= r <= |table|
    ensures r < |table| ==> table[r].typ == typ
    ensures forall j :: k <= j < r ==> table[j].typ != typ
    decreases |table| - k
  {
    if k == |table| || table[k].typ == typ then k else AttrOf(table, typ, k + 1)
  }

  /** Type i is asked for and has a size callback. */
  predicate Sized(mask: bv32, table: seq<Attr>, i: nat)
    requires i < TYPES
  {
    Masked(mask, i) && AttrOf(table, i, 0) < |table| && table[AttrOf(table, i, 0)].hasSize
  }

  /** Type i is asked for and has both callbacks. */
  predicate Known(mask: bv32, table: seq<Attr>, i: nat)
    requires i < TYPES
  {
    Sized(mask, table, i) && table[AttrOf(table, i, 0)].hasData
  }

  function SizeOf(table: seq<Attr>, i: nat): nat {
    var k := AttrOf(table, i, 0);
    if k < |table| then table[k].size else 0
  }

  /** What ltv_attr_total_len_get adds up from type i on. */
  function TotalLen(mask: bv32, table: seq<Attr>, i: nat): nat
    requires i <= TYPES
    decreases TYPES - i
  {
    if i == TYPES then 0 else (if Sized(mask, table, i) then SizeOf(table, i) + 2 else 0) + TotalLen(mask, table, i + 1)
  }

  datatype Item = Item(typ: byte, data: seq<byte>)

  function ItemOf(table: seq<Attr>, i: nat): Item
    requires i < TYPES
  {
    var k := AttrOf(table, i, 0);
    if k < |table| && table[k].size <= |table[k].data| then Item(i as byte, table[k].data[..table[k].size]) else Item(i as byte, [])
  }

  /** The items that are asked for and known, from type i on, in ascending order. */
  function Items(mask: bv32, table: seq<Attr>, i: nat): seq<Item>
    requires i <= TYPES
    decreases TYPES - i
  {
    if i == TYPES then [] else (if Known(mask, table, i) then [ItemOf(table, i)] else []) + Items(mask, table, i + 1)
  }

  /** One type further. */
  lemma {:induction false} ItemsStep(mask: bv32, table: seq<Attr>, i: nat, items: seq<Item>, rest: seq<Item>)
    requires i < TYPES && ValidTable(table) && items == Items(mask, table, i) && rest == Items(mask, table, i + 1)
    ensures !Known(mask, table, i) ==> items == rest
    ensures Known(mask, table, i) ==>
      items != [] && items[0] == ItemOf(table, i) && items[1..] == rest && items[0].typ as nat == i && |items[0].data| == SizeOf(table, i) < 256
  {
    if Known(mask, table, i) { assert ValidAttr(table[AttrOf(table, i, 0)]); }
  }

  lemma {:induction false} LenStep(mask: bv32, table: seq<Attr>, i: nat)
    requires i < TYPES
    ensures TotalLen(mask, table, i) == (if Sized(mask, table, i) then SizeOf(table, i) + 2 else 0) + TotalLen(mask, table, i + 1)
  {
  }

  // ---- the bytes ----

  /** One item as it is written: a length byte that counts the type, the type, the data. */
  function Written(it: Item): (b: seq<byte>)
    ensures |b| == |it.data| + 2
  {
    [((|it.data| + 1) % 256) as byte, it.typ] + it.data
  }

  /** The length bytes can count the data. */
  predicate Small(items: seq<Item>) { forall k :: 0 <= k < |items| ==> |items[k].data| <= 254 }

  function Encode(items: seq<Item>): seq<byte> {
    if items == [] then [] else Written(items[0]) + Encode(items[1..])
  }

  datatype Parsed = Parsed(items: seq<Item>) | Malformed

  /** Reading items back by their length bytes. */
  function Decode(b: seq<byte>): Parsed {
    if b == [] then Parsed([])
    else if b[0] == 0 || |b| < b[0] as nat + 1 then Malformed
    else
      match Decode(b[b[0] as nat + 1..])
      case Malformed => Malformed
      case Parsed(items) => Parsed([Item(b[1], b[2..b[0] as nat + 1])] + items)
  }

  lemma {:induction false} RoundTrip(items: seq<Item>)
    requires Small(items)
    ensures Decode(Encode(items)) == Parsed(items)
  {
    if items != [] {
      RoundTrip(items[1..]);
      DecodeFirst(items[0], Encode(items[1..]), items[1..]);
      assert [items[0]] + items[1..] == items;
    }
  }

  lemma {:induction false} DecodeFirst(it: Item, more: seq<byte>, items: seq<Item>)
    requires |it.data| <= 254 && Decode(more) == Parsed(items)
    ensures Decode(Written(it) + more) == Parsed([it] + items)
  {
    var b := Written(it) + more;
    assert b[0] as nat == |it.data| + 1;
    assert b[b[0] as nat + 1..] == more;
    assert b[2..b[0] as nat + 1] == it.data;
  }

  // ---- filling a buffer ----

  function Paste(buf: seq<byte>, pos: nat, b: seq<byte>): (r: seq<byte>)
    requires pos + |b| <= |buf|
    ensures |r| == |buf|
  {
    buf[..pos] + b + buf[pos + |b|..]
  }

  /** The cursor behind an item: it goes on by the length byte. */
  function Next(pos: nat, it: Item): (next: nat)
    ensures next <= pos + |it.data| + 2
  {
    pos + (|it.data| + 1) % 256 + 1
  }

  function Space(items: seq<Item>): nat {
    if items == [] then 0 else |items[0].data| + 2 + Space(items[1..])
  }

  /** The buffer and the cursor after the items have been written from pos on. */
  function Filled(buf: seq<byte>, pos: nat, items: seq<Item>): (seq<byte>, nat)
    requires pos + Space(items) <= |buf|
    decreases |items|
  {
    if items == [] then (buf, pos) else Filled(Paste(buf, pos, Written(items[0])), Next(pos, items[0]), items[1..])
  }

  /** The items of a valid table fit the announced length. */
  lemma {:induction false} ItemsFit(mask: bv32, table: seq<Attr>, i: nat, items: seq<Item>)
    requires i <= TYPES && ValidTable(table) && items == Items(mask, table, i)
    ensures Space(items) <= TotalLen(mask, table, i)
    decreases TYPES - i
  {
    if i < TYPES {
      var rest := Items(mask, table, i + 1);
      ItemsStep(mask, table, i, items, rest);
      LenStep(mask, table, i);
      ItemsFit(mask, table, i + 1, rest);
    }
  }

  /** ltv_attr_total_len_get */
  method AttrTotalLenGet(mask: bv32, table: seq<Attr>) returns (total: nat)
    ensures total == TotalLen(mask, table, 0)
  {
    if mask == 0 {
      NoBits(mask, table, 0);
      return 0;
    }
    total := 0;
    var i := 0;
    while i < TYPES
      invariant i <= TYPES && total + TotalLen(mask, table, i) == TotalLen(mask, table, 0)
    {
      LenStep(mask, table, i);
      if Masked(mask, i) {
        var k := GetAttrPtrByType(table, i);
        if k < |table| && table[k].hasSize {
          total := total + (table[k].size + 2);
        }
      }
      i := i + 1;
    }
  }

  lemma {:induction false} NoBits(mask: bv32, table: seq<Attr>, i: nat)
    requires mask == 0 && i <= TYPES
    ensures TotalLen(mask, table, i) == 0
    decreases TYPES - i
  {
    if i < TYPES { NoBits(mask, table, i + 1); }
  }

  method GetAttrPtrByType(table: seq<Attr>, typ: nat) returns (k: nat)
    ensures k == AttrOf(table, typ, 0)
  {
    k := 0;
    while k < |table|
      invariant k <= |table| && AttrOf(table, typ, k) == AttrOf(table, typ, 0)
    {
      if table[k].typ == typ {
        return;
      }
      k := k + 1;
    }
  }

  /** ltv_attr_fill: writes the known items into a buffer of the announced length. */
  method AttrFill(mask: bv32, table: seq<Attr>, fillBuf: array?<byte>) returns (ok: bool)
    requires ValidTable(table) && (fillBuf != null ==> TotalLen(mask, table, 0) <= fillBuf.Length)
    modifies fillBuf
    ensures ok == (fillBuf != null)
    ensures ok ==> Space(Items(mask, table, 0)) <= fillBuf.Length && fillBuf[..] == Filled(old(fillBuf[..]), 0, Items(mask, table, 0)).0
  {
    if fillBuf == null {
      return false;
    }
    ghost var items := Items(mask, table, 0);
    ItemsFit(mask, table, 0, items);
    ghost var goal := Filled(fillBuf[..], 0, items);
    var ptr: nat, i := 0, 0;
    while i < TYPES
      invariant i <= TYPES && items == Items(mask, table, i) && ptr + Space(items) <= fillBuf.Length
      invariant Filled(fillBuf[..], ptr, items) == goal
    {
      ghost var rest := Items(mask, table, i + 1);
      ptr := FillType(mask, table, fillBuf, ptr, i, items, rest);
      items := rest;
      i := i + 1;
    }
    return true;
  }

  /** One type: written if it is asked for and known. */
  method FillType(mask: bv32, table: seq<Attr>, buf: array<byte>, ptr: nat, i: nat, ghost items: seq<Item>, ghost rest: seq<Item>) returns (next: nat)
    requires i < TYPES && ValidTable(table) && items == Items(mask, table, i) && rest == Items(mask, table, i + 1)
    requires ptr + Space(items) <= buf.Length
    modifies buf
    ensures next + Space(rest) <= buf.Length && Filled(buf[..], next, rest) == Filled(old(buf[..]), ptr, items)
  {
    ItemsStep(mask, table, i, items, rest);
    next := ptr;
    if Masked(mask, i) {
      var k := GetAttrPtrByType(table, i);
      if k < |table| && table[k].hasSize && table[k].hasData {
        next := WriteItem(buf, ptr, i, table[k], items);
      }
    }
  }

  method WriteItem(buf: array<byte>, ptr: nat, typ: nat, a: Attr, ghost items: seq<Item>) returns (next: nat)
    requires typ < TYPES && a.size < 256 && a.size <= |a.data| && ptr + Space(items) <= buf.Length
    requires items != [] && items[0] == Item(typ as byte, a.data[..a.size])
    modifies buf
    ensures next + Space(items[1..]) <= buf.Length && Filled(buf[..], next, items[1..]) == Filled(old(buf[..]), ptr, items)
  {
    ghost var before, b := buf[..], Written(items[0]);
    buf[ptr] := ((a.size + 1) % 256) as byte;
    buf[ptr + 1] := typ as byte;
    forall k | 0 <= k < a.size {
      buf[ptr + 2 + k] := a.data[k];
    }
    next := ptr + buf[ptr] as nat + 1;
    forall k | 0 <= k < buf.Length ensures buf[k] == Paste(before, ptr, b)[k] {
      if ptr + 2 <= k < ptr + 2 + a.size {
        assert buf[k] == a.data[k - ptr - 2] == b[k - ptr];
      } else if k < ptr || ptr + 2 + a.size <= k {
        assert buf[k] == before[k];
      }
    }
    assert buf[..] == Paste(before, ptr, b);
  }

  // ---- when length and bytes agree ----

  /** Type i has a size callback but no data callback, or a size that its length byte cannot count. */
  predicate Awkward(mask: bv32, table: seq<Attr>, i: nat)
    requires i < TYPES
  {
    Sized(mask, table, i) && (!Known(mask, table, i) || SizeOf(table, i) == 255)
  }

  predicate NoneAwkward(mask: bv32, table: seq<Attr>, i: nat)
    requires i <= TYPES
    decreases TYPES - i
  {
    i == TYPES || (!Awkward(mask, table, i) && NoneAwkward(mask, table, i + 1))
  }

  /** The announced length is where the cursor ends, if and only if no type is awkward. */
  lemma {:induction false} LengthAgrees(mask: bv32, table: seq<Attr>, i: nat, items: seq<Item>, buf: seq<byte>, pos: nat)
    requires i <= TYPES && ValidTable(table) && items == Items(mask, table, i) && pos + Space(items) <= |buf|
    ensures Filled(buf, pos, items).1 <= pos + TotalLen(mask, table, i)
    ensures Filled(buf, pos, items).1 == pos + TotalLen(mask, table, i) <==> NoneAwkward(mask, table, i)
    decreases TYPES - i
  {
    if i < TYPES {
      var rest := Items(mask, table, i + 1);
      ItemsStep(mask, table, i, items, rest);
      LenStep(mask, table, i);
      if Known(mask, table, i) {
        var next := Next(pos, items[0]);
        CursorStep(pos, items[0]);
        LengthAgrees(mask, table, i + 1, rest, Paste(buf, pos, Written(items[0])), next);
      } else {
        LengthAgrees(mask, table, i + 1, rest, buf, pos);
      }
    }
  }

  /** How much more is announced for the types from i on than the cursor moves: a size callback alone is announced and
      not written, and the length byte of 255 bytes wraps. */
  function Gap(mask: bv32, table: seq<Attr>, i: nat): nat
    requires i <= TYPES
    decreases TYPES - i
  {
    if i == TYPES then 0
    else
      (if !Sized(mask, table, i) then 0
       else if !Known(mask, table, i) then SizeOf(table, i) + 2
       else if SizeOf(table, i) == 255 then 256
       else 0) + Gap(mask, table, i + 1)
  }

  /** The announced length is off by exactly that. */
  lemma {:induction false} LengthGap(mask: bv32, table: seq<Attr>, i: nat, items: seq<Item>, buf: seq<byte>, pos: nat)
    requires i <= TYPES && ValidTable(table) && items == Items(mask, table, i) && pos + Space(items) <= |buf|
    ensures Filled(buf, pos, items).1 + Gap(mask, table, i) == pos + TotalLen(mask, table, i)
    decreases TYPES - i
  {
    if i < TYPES {
      var rest := Items(mask, table, i + 1);
      ItemsStep(mask, table, i, items, rest);
      LenStep(mask, table, i);
      if Known(mask, table, i) {
        var next := Next(pos, items[0]);
        CursorStep(pos, items[0]);
        LengthGap(mask, table, i + 1, rest, Paste(buf, pos, Written(items[0])), next);
      } else {
        LengthGap(mask, table, i + 1, rest, buf, pos);
      }
    }
  }

  lemma CursorStep(pos: nat, it: Item)
    requires |it.data| < 256
    ensures Next(pos, it) == if |it.data| == 255 then pos + 1 else pos + |it.data| + 2
  {
  }

  /** Without awkward types the buffer gets exactly the encoded items. */
  lemma {:induction false} FilledEncodes(buf: seq<byte>, pos: nat, items: seq<Item>)
    requires pos + Space(items) <= |buf| && Small(items)
    ensures |Encode(items)| == Space(items)
    ensures Filled(buf, pos, items) == (Paste(buf, pos, Encode(items)), pos + Space(items))
    decreases |items|
  {
    if items != [] {
      var b := Written(items[0]);
      CursorStep(pos, items[0]);
      FilledEncodes(Paste(buf, pos, b), Next(pos, items[0]), items[1..]);
      PasteBoth(buf, pos, b, Encode(items[1..]));
    } else {
      assert Paste(buf, pos, []) == buf;
    }
  }

  lemma PasteBoth(buf: seq<byte>, pos: nat, a: seq<byte>, b: seq<byte>)
    requires pos + |a| + |b| <= |buf|
    ensures Paste(Paste(buf, pos, a), pos + |a|, b) == Paste(buf, pos, a + b)
  {
  }

  /** The item of a masked known type. */
  predicate IsItem(mask: bv32, table: seq<Attr>, it: Item) {
    it.typ as nat < TYPES && Known(mask, table, it.typ as nat) && it == ItemOf(table, it.typ as nat)
  }

  /** Items of masked known types from that one on, ascending, each with its data. */
  predicate Ascending(mask: bv32, table: seq<Attr>, from: nat, items: seq<Item>)
    decreases |items|
  {
    items == [] ||
    (from <= items[0].typ as nat && IsItem(mask, table, items[0]) && Ascending(mask, table, items[0].typ as nat + 1, items[1..]))
  }

  lemma {:induction false} ItemsAscend(mask: bv32, table: seq<Attr>, i: nat, items: seq<Item>)
    requires i <= TYPES && ValidTable(table) && items == Items(mask, table, i)
    ensures Ascending(mask, table, i, items)
    decreases TYPES - i
  {
    if i < TYPES {
      var rest := Items(mask, table, i + 1);
      ItemsStep(mask, table, i, items, rest);
      ItemsAscend(mask, table, i + 1, rest);
    }
  }

  /** No masked known type is missing. */
  lemma {:induction false} ItemsComplete(mask: bv32, table: seq<Attr>, i: nat, items: seq<Item>, t: nat)
    requires i <= t < TYPES && ValidTable(table) && items == Items(mask, table, i) && Known(mask, table, t)
    ensures ItemOf(table, t) in items
    decreases TYPES - i
  {
    var rest := Items(mask, table, i + 1);
    ItemsStep(mask, table, i, items, rest);
    if t == i {
      assert items[0] == ItemOf(table, t);
    } else {
      ItemsComplete(mask, table, i + 1, rest, t);
      assert forall it :: it in rest ==> it in items;
    }
  }

  /** Items of types that are not awkward are small. */
  lemma {:induction false} ItemsSmall(mask: bv32, table: seq<Attr>, i: nat, items: seq<Item>)
    requires i <= TYPES && ValidTable(table) && items == Items(mask, table, i) && NoneAwkward(mask, table, i)
    ensures Small(items)
    decreases TYPES - i
  {
    if i < TYPES {
      var rest := Items(mask, table, i + 1);
      ItemsStep(mask, table, i, items, rest);
      ItemsSmall(mask, table, i + 1, rest);
      assert Known(mask, table, i) ==> items == [items[0]] + rest;
    }
  }

  lemma PasteFront(buf: seq<byte>, b: seq<byte>)
    requires |b| <= |buf|
    ensures Paste(buf, 0, b) == b + buf[|b|..] && (b + buf[|b|..])[..|b|] == b
  {
  }

  /** Without awkward types from type i on, the announced number of bytes decode to the masked known items,
      and nothing behind them is written. */
  lemma {:induction false} FillDecodes(mask: bv32, table: seq<Attr>, i: nat, items: seq<Item>, buf: seq<byte>, n: nat)
    requires i <= TYPES && ValidTable(table) && items == Items(mask, table, i)
    requires n == TotalLen(mask, table, i) <= |buf| && NoneAwkward(mask, table, i)
    ensures Space(items) == n && Filled(buf, 0, items) == (Encode(items) + buf[n..], n) && |Encode(items)| == n
    ensures Decode(Filled(buf, 0, items).0[..n]) == Parsed(items)
  {
    ItemsFit(mask, table, i, items);
    LengthAgrees(mask, table, i, items, buf, 0);
    ItemsSmall(mask, table, i, items);
    FilledEncodes(buf, 0, items);
    RoundTrip(items);
    PasteFront(buf, Encode(items));
  }
}
