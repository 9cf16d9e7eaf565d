/** The walker and the gateway's encoder as they run, and that they agree with the
    generator's encoder. */
module NbtWalker {
  import opened Prelude
  import opened Bits
  import opened Mutf8
  import opened Nbt

  // --------------------------------------------------------- positions in a text

  /** The bytes p are at position i of b. */
  ghost predicate Has(b: seq<Byte>, i: nat, p: seq<Byte>) {
    i + |p| <= |b| && b[i..i + |p|] == p
  }

  lemma Split(b: seq<Byte>, i: nat, p: seq<Byte>, q: seq<Byte>)
    requires Has(b, i, p + q)
    ensures Has(b, i, p) && Has(b, i + |p|, q)
  {
    var s := b[i..i + |p + q|];
    assert s[..|p|] == p && s[|p|..] == q;
  }

  lemma ReadTag(b: seq<Byte>, i: nat, t: Type)
    requires Has(b, i, [TagId(t)])
    ensures IndexAt(b, i) == Some(TagId(t)) && TypeAt(b, i) == Some(t)
  {
    assert b[i] == b[i..i + 1][0];
  }

  lemma ReadU16(b: seq<Byte>, i: nat, n: nat)
    requires Has(b, i, U16(n)) && n < 0x1_0000
    ensures U16At(b, i) == Some(n)
  {
    var s := b[i..i + 2];
    assert s[0] == b[i] && s[1] == b[i + 1];
  }

  lemma FourDigits(n: nat)
    requires n < 0x1_0000_0000
    ensures
      n / 0x1_0000 / 0x100 % 0x100 * 0x100_0000 + n / 0x1_0000 % 0x100 * 0x1_0000
      + n / 0x100 % 0x100 * 0x100 + n % 0x100
      == n
  {
    var hi, lo := n / 0x1_0000, n % 0x1_0000;
    assert hi / 0x100 * 0x100 + hi % 0x100 == hi && hi / 0x100 < 0x100;
    assert lo / 0x100 * 0x100 + lo % 0x100 == lo && lo / 0x100 < 0x100;
    assert n / 0x100 == hi * 0x100 + lo / 0x100;
  }

  /** Every int32, negative ones included, is read back from its four bytes. */
  lemma IntReadsBack(b: seq<Byte>, i: nat, n: int)
    requires -0x8000_0000 <= n < 0x8000_0000 && Has(b, i, U32(n))
    ensures I32At(b, i) == Some(n)
  {
    var s := b[i..i + 4];
    assert s[0] == b[i] && s[1] == b[i + 1] && s[2] == b[i + 2] && s[3] == b[i + 3];
    if n < 0 { WrapAround(n); }
    FourDigits(if n < 0 then n + 0x1_0000_0000 else n);
  }

  lemma WrapAround(n: int)
    ensures U32(n) == U32(n + 0x1_0000_0000)
  {
    var hi, lo := n / 0x1_0000, n % 0x1_0000;
    assert (n + 0x1_0000_0000) / 0x1_0000 == hi + 0x1_0000;
    U16Wraps(hi, 1);
    U16Wraps(n, 0x1_0000);
  }

  lemma U16Wraps(n: int, k: int)
    ensures U16(n + 0x1_0000 * k) == U16(n)
  {
    assert (n + 0x1_0000 * k) / 0x100 == n / 0x100 + 0x100 * k;
    LowByteWraps(n / 0x100, k);
    LowByteWraps(n, 0x100 * k);
  }

  lemma LowByteWraps(n: int, k: int)
    ensures (n + 0x100 * k) % 0x100 == n % 0x100
  {
  }

  // ------------------------------------------------- the walker and the encoder

  lemma StringWalks(b: seq<Byte>, i: nat, s: seq<Rune>)
    requires Has(b, i, StringBytes(s))
    ensures SkipString(b, i) == At(i + |StringBytes(s)|)
  {
    var enc := Encoded(Utf16(s));
    var cut := if |enc| > MAX_STRING then enc[..MAX_STRING] else enc;
    Split(b, i, U16(|cut|), cut);
    ReadU16(b, i, |cut|);
  }

  lemma ArrayWalks(b: seq<Byte>, i: nat, n: nat, width: nat, data: seq<Byte>)
    requires Has(b, i, U32(n) + data) && n < MAX_LENGTH && |data| == n * width
    ensures SkipArray(b, i, width) == At(i + |U32(n) + data|)
  {
    Split(b, i, U32(n), data);
    IntReadsBack(b, i, n);
  }

  // The layout of a tree in the bytes, from position i to position end: what the
  // encoder produces and all that the walker looks at.

  ghost predicate LaidOut(b: seq<Byte>, i: nat, v: Tree, end: nat)
    decreases v
  {
    && i < end
    && match v
       case List(et, items) =>
         && TypeAt(b, i) == Some(et) && I32At(b, i + 1) == Some(|items|)
         && ItemsLaidOut(b, i + 5, et, items, end)
       case Compound(entries) => EntriesLaidOut(b, i, entries, end)
       case _ => SkipLeaf(TypeOf(v), b, i) == At(end)
  }

  ghost predicate ItemsLaidOut(b: seq<Byte>, i: nat, et: Type, items: seq<Tree>, end: nat)
    decreases items
  {
    if items == [] then i == end
    else
      && TypeOf(items[0]) == et
      && exists next: nat :: next <= end && LaidOut(b, i, items[0], next) && ItemsLaidOut(b, next, et, items[1..], end)
  }

  ghost predicate EntryLaidOut(b: seq<Byte>, i: nat, e: Entry, end: nat)
    decreases e
  {
    && IndexAt(b, i).Some? && IndexAt(b, i).value != 0 && TypeAt(b, i) == Some(TypeOf(e.value))
    && exists value: nat :: i < value < end && SkipString(b, i + 1) == At(value) && LaidOut(b, value, e.value, end)
  }

  ghost predicate EntriesLaidOut(b: seq<Byte>, i: nat, entries: seq<Entry>, end: nat)
    decreases entries
  {
    if entries == [] then IndexAt(b, i) == Some(0) && end == i + 1
    else exists next: nat ::
      i < next < end && EntryLaidOut(b, i, entries[0], next) && EntriesLaidOut(b, next, entries[1..], end)
  }

  // The encoder produces the layout.

  lemma LeafIsLaidOut(b: seq<Byte>, i: nat, v: Tree)
    requires !v.List? && !v.Compound? && Shaped(v) && Has(b, i, Payload(v))
    ensures |Payload(v)| > 0 && SkipLeaf(TypeOf(v), b, i) == At(i + |Payload(v)|)
  {
    match v
    case Str(s) => StringWalks(b, i, s);
    case ByteArray(bytes) => ArrayWalks(b, i, |bytes|, 1, LowBytes(bytes));
    case IntArray(ints) => ArrayWalks(b, i, |ints|, 4, IntsBytes(ints));
    case LongArray(longs) => ArrayWalks(b, i, |longs|, 8, LongsBytes(longs));
    case _ =>
  }

  lemma ListHead(b: seq<Byte>, i: nat, et: Type, n: nat, data: seq<Byte>)
    requires Has(b, i, [TagId(et)] + (U32(n) + data)) && n < MAX_LENGTH
    ensures TypeAt(b, i) == Some(et) && I32At(b, i + 1) == Some(n) && Has(b, i + 5, data)
  {
    Split(b, i, [TagId(et)], U32(n) + data);
    ReadTag(b, i, et);
    Split(b, i + 1, U32(n), data);
    IntReadsBack(b, i + 1, n);
  }

  lemma EntryHead(b: seq<Byte>, i: nat, t: Type, name: seq<Rune>, value: seq<Byte>)
    requires Has(b, i, [TagId(t)] + (StringBytes(name) + value)) && t != TEnd
    ensures IndexAt(b, i).Some? && IndexAt(b, i).value != 0 && TypeAt(b, i) == Some(t)
    ensures SkipString(b, i + 1) == At(i + 1 + |StringBytes(name)|)
    ensures Has(b, i + 1 + |StringBytes(name)|, value)
  {
    Split(b, i, [TagId(t)], StringBytes(name) + value);
    ReadTag(b, i, t);
    Split(b, i + 1, StringBytes(name), value);
    StringWalks(b, i + 1, name);
  }

  lemma {:induction false} ValueIsLaidOut(b: seq<Byte>, i: nat, v: Tree)
    requires Shaped(v) && Has(b, i, Payload(v))
    ensures LaidOut(b, i, v, i + |Payload(v)|)
    decreases v
  {
    match v
    case List(et, items) =>
      ListHead(b, i, et, |items|, ItemsPayload(items));
      ItemsAreLaidOut(b, i + 5, et, items);
    case Compound(entries) => EntriesAreLaidOut(b, i, entries);
    case _ => LeafIsLaidOut(b, i, v);
  }

  lemma {:induction false} ItemsAreLaidOut(b: seq<Byte>, i: nat, et: Type, items: seq<Tree>)
    requires ShapedItems(et, items) && Has(b, i, ItemsPayload(items))
    ensures ItemsLaidOut(b, i, et, items, i + |ItemsPayload(items)|)
    decreases items
  {
    if items != [] {
      var head := Payload(items[0]);
      Split(b, i, head, ItemsPayload(items[1..]));
      ValueIsLaidOut(b, i, items[0]);
      ItemsAreLaidOut(b, i + |head|, et, items[1..]);
    }
  }

  lemma {:induction false} EntryIsLaidOut(b: seq<Byte>, i: nat, e: Entry)
    requires ShapedEntry(e) && Has(b, i, EntryPayload(e))
    ensures EntryLaidOut(b, i, e, i + |EntryPayload(e)|)
    decreases e
  {
    var value, end := i + 1 + |StringBytes(e.name)|, i + |EntryPayload(e)|;
    EntryHead(b, i, TypeOf(e.value), e.name, Payload(e.value));
    ValueIsLaidOut(b, value, e.value);
    assert end == value + |Payload(e.value)|;
    assert i < value < end && LaidOut(b, value, e.value, end);
  }

  lemma {:induction false} EntriesAreLaidOut(b: seq<Byte>, i: nat, entries: seq<Entry>)
    requires ShapedEntries(entries) && Has(b, i, EntriesPayload(entries))
    ensures EntriesLaidOut(b, i, entries, i + |EntriesPayload(entries)|)
    decreases entries
  {
    if entries == [] {
      ReadTag(b, i, TEnd);
    } else {
      var head := EntryPayload(entries[0]);
      Split(b, i, head, EntriesPayload(entries[1..]));
      EntryIsLaidOut(b, i, entries[0]);
      EntriesAreLaidOut(b, i + |head|, entries[1..]);
    }
  }

  // The walker follows the layout. Each of its turns takes a byte, so a little
  // more fuel than there are bytes is enough.

  lemma {:induction false} ValueWalks(b: seq<Byte>, i: nat, v: Tree, fuel: nat, end: nat)
    requires LaidOut(b, i, v, end) && end - i < fuel
    ensures Skip(TypeOf(v), b, i, fuel) == At(end)
    decreases v
  {
    match v
    case List(et, items) => ItemsWalk(b, i + 5, et, items, fuel - 1, end);
    case Compound(entries) => EntriesWalk(b, i, entries, fuel - 1, end);
    case _ =>
  }

  lemma {:induction false} ItemsWalk(b: seq<Byte>, i: nat, et: Type, items: seq<Tree>, fuel: nat, end: nat)
    requires ItemsLaidOut(b, i, et, items, end) && end - i < fuel
    ensures SkipItems(et, b, i, |items|, fuel) == At(end)
    decreases items
  {
    if items != [] {
      var next: nat :| next <= end && LaidOut(b, i, items[0], next) && ItemsLaidOut(b, next, et, items[1..], end);
      ValueWalks(b, i, items[0], fuel, next);
      ItemsWalk(b, next, et, items[1..], fuel, end);
    }
  }

  lemma {:induction false} EntryWalks(b: seq<Byte>, i: nat, e: Entry, fuel: nat, end: nat)
    requires EntryLaidOut(b, i, e, end) && end - i <= fuel
    ensures SkipEntry(b, i, fuel) == At(end)
    decreases e
  {
    var value: nat :| i < value < end && SkipString(b, i + 1) == At(value) && LaidOut(b, value, e.value, end);
    ValueWalks(b, value, e.value, fuel, end);
  }

  lemma {:induction false} EntriesWalk(b: seq<Byte>, i: nat, entries: seq<Entry>, fuel: nat, end: nat)
    requires EntriesLaidOut(b, i, entries, end) && end - i <= fuel
    ensures SkipEntries(b, i, fuel) == At(end)
    decreases entries
  {
    if entries != [] {
      var next: nat :|
        i < next < end && EntryLaidOut(b, i, entries[0], next) && EntriesLaidOut(b, next, entries[1..], end);
      EntryWalks(b, i, entries[0], fuel - 1, next);
      EntriesWalk(b, next, entries[1..], fuel - 1, end);
    }
  }

  // --------------------------------------------------------- the code as it runs

  /** skip of gen.py, with its two loops. */
  method Walker(t: Type, b: seq<Byte>, start: int, fuel: nat) returns (r: Walk)
    ensures r == Skip(t, b, start, fuel)
    decreases fuel
  {
    match t
    case TByte => r := At(start + 1);
    case TShort => r := At(start + 2);
    case TInt => r := At(start + 4);
    case TLong => r := At(start + 8);
    case TFloat => r := At(start + 4);
    case TDouble => r := At(start + 8);
    case TString => r := SkipString(b, start);
    case TByteArray => r := SkipArray(b, start, 1);
    case TIntArray => r := SkipArray(b, start, 4);
    case TLongArray => r := SkipArray(b, start, 8);
    case TEnd => r := Raised;
    case TList =>
      if fuel == 0 { return OutOfFuel; }
      var et, n := TypeAt(b, start), I32At(b, start + 1);
      if et.None? || n.None? { return Raised; }
      var i, todo := start + 5, n.value;
      while todo > 0
        invariant SkipItems(et.value, b, i, todo, fuel - 1) == Skip(t, b, start, fuel)
      {
        var item := Walker(et.value, b, i, fuel - 1);
        if !item.At? { return item; }
        i, todo := item.i, todo - 1;
      }
      r := At(i);
    case TCompound =>
      if fuel == 0 { return OutOfFuel; }
      var i, left := start, fuel - 1;
      while left > 0
        invariant 0 <= left < fuel && SkipEntries(b, i, left) == Skip(t, b, start, fuel)
      {
        var tag := IndexAt(b, i);
        if tag.None? { return Raised; }
        if tag.value == 0 { return At(i + 1); }
        var name := SkipString(b, i + 1);
        if !name.At? || TypeAt(b, i).None? { return Raised; }
        var value := Walker(TypeAt(b, i).value, b, name.i, left - 1);
        if !value.At? { return value; }
        i, left := value.i, left - 1;
      }
      r := OutOfFuel;
  }

  method AppendString(b: seq<Byte>, s: seq<Rune>) returns (r: seq<Byte>)
    ensures r == b + StringBytes(s)
  {
    var enc := Mutf8.Mutf8(s);
    if |enc| > MAX_STRING { enc := enc[..MAX_STRING]; }
    r := b + U16(|enc|);
    r := r + enc;
  }

  /** appendNBT of nbt.go: for every value, homogeneous lists or not, it writes what
      the generator would write for the corresponding tree. */
  method AppendNbt(b: seq<Byte>, v: GoValue) returns (r: seq<Byte>)
    ensures r == b + Payload(ToTree(v))
    decreases v
  {
    match v
    case GoString(s) => r := AppendString(b, s);
    case GoInt(n) => r := b + U32(n);
    case GoBool(flag) => r := b + [if flag then 1 else 0];
    case GoCompound(fields) => r := AppendFields(b, fields);
    case GoList(items) => r := AppendList(b, items);
    case GoLongs(longs) =>
      r := b + U32(|longs|);
      r := AppendLongs(r, longs);
      Assoc(b, U32(|longs|), LongsBytes(ToLongs(longs)));
  }

  method AppendList(b: seq<Byte>, items: seq<GoValue>) returns (r: seq<Byte>)
    ensures r == b + Payload(ToTree(GoList(items)))
    decreases items, 1
  {
    ghost var data := ItemsPayload(ToTrees(items));
    if |items| == 0 {
      r := b + [TagId(TEnd)];
      r := r + U32(0);
      assert data == [];
      Assoc(b, [TagId(TEnd)], U32(0));
    } else {
      var tag := [TagId(GoType(items[0]))];
      r := b + tag;
      r := r + U32(|items|);
      r := AppendItems(r, items);
      Assoc(b + tag, U32(|items|), data);
      Assoc(b, tag, U32(|items|) + data);
    }
  }

  method AppendFields(b: seq<Byte>, fields: seq<GoField>) returns (r: seq<Byte>)
    ensures r == b + EntriesPayload(ToEntries(fields))
    decreases fields
  {
    r := b;
    for k := 0 to |fields|
      invariant r + EntriesPayload(ToEntries(fields[k..])) == b + EntriesPayload(ToEntries(fields))
    {
      ghost var rest := EntriesPayload(ToEntries(fields[k + 1..]));
      FieldsFrom(fields, k);
      Assoc(r, EntryPayload(ToEntry(fields[k])), rest);
      r := AppendField(r, fields[k]);
    }
    r := r + [TagId(TEnd)];
  }

  method AppendField(b: seq<Byte>, f: GoField) returns (r: seq<Byte>)
    ensures r == b + EntryPayload(ToEntry(f))
    decreases f
  {
    r := b + [TagId(GoType(f.value))];
    r := AppendString(r, f.name);
    r := AppendNbt(r, f.value);
  }

  method AppendItems(b: seq<Byte>, items: seq<GoValue>) returns (r: seq<Byte>)
    ensures r == b + ItemsPayload(ToTrees(items))
    decreases items, 0
  {
    r := b;
    for k := 0 to |items|
      invariant r + ItemsPayload(ToTrees(items[k..])) == b + ItemsPayload(ToTrees(items))
    {
      ghost var rest := ItemsPayload(ToTrees(items[k + 1..]));
      ItemsFrom(items, k);
      Assoc(r, Payload(ToTree(items[k])), rest);
      r := AppendNbt(r, items[k]);
    }
  }

  method AppendLongs(b: seq<Byte>, longs: seq<int>) returns (r: seq<Byte>)
    ensures r == b + LongsBytes(ToLongs(longs))
  {
    r := b;
    for k := 0 to |longs|
      invariant r + LongsBytes(ToLongs(longs[k..])) == b + LongsBytes(ToLongs(longs))
    {
      ghost var rest := LongsBytes(ToLongs(longs[k + 1..]));
      assert longs[k..][1..] == longs[k + 1..];
      assert ToLongs(longs[k..])[1..] == ToLongs(longs[k + 1..]);
      Assoc(r, U64(longs[k]), rest);
      r := r + U64(longs[k]);
    }
  }

  lemma ItemsFrom(items: seq<GoValue>, k: nat)
    requires k < |items|
    ensures ItemsPayload(ToTrees(items[k..])) == Payload(ToTree(items[k])) + ItemsPayload(ToTrees(items[k + 1..]))
  {
    assert items[k..][1..] == items[k + 1..];
    assert ToTrees(items[k..])[1..] == ToTrees(items[k + 1..]);
  }

  lemma FieldsFrom(fields: seq<GoField>, k: nat)
    requires k < |fields|
    ensures
      EntriesPayload(ToEntries(fields[k..]))
      == EntryPayload(ToEntry(fields[k])) + EntriesPayload(ToEntries(fields[k + 1..]))
  {
    assert fields[k..][1..] == fields[k + 1..];
    assert ToEntries(fields[k..])[1..] == ToEntries(fields[k + 1..]);
  }

  method NetworkNbt(v: GoValue) returns (out: seq<Byte>)
    ensures out == [TagId(GoType(v))] + Payload(ToTree(v))
  {
    out := AppendNbt([TagId(GoType(v))], v);
  }

  method NamedRootNbt(fields: seq<GoField>) returns (out: seq<Byte>)
    ensures out == [TagId(TCompound), 0, 0] + Payload(ToTree(GoCompound(fields)))
  {
    out := AppendNbt([TagId(TCompound), 0, 0], GoCompound(fields));
  }

  // ----------------------------------------------------------------- theorems

  /** For every well-typed tree, at any offset and with any bytes behind it, the
      walker consumes exactly the encoder's output, cut strings included. */
  lemma WalkerConsumesPayload(before: seq<Byte>, v: Tree, after: seq<Byte>, fuel: nat)
    requires Shaped(v) && |Payload(v)| < fuel
    ensures Skip(TypeOf(v), before + Payload(v) + after, |before|, fuel) == At(|before| + |Payload(v)|)
  {
    assert Has(before + Payload(v) + after, |before|, Payload(v));
    ValueIsLaidOut(before + Payload(v) + after, |before|, v);
    ValueWalks(before + Payload(v) + after, |before|, v, fuel, |before| + |Payload(v)|);
  }

  /** What the gateway encodes has the shape the walker needs exactly when its
      lists are homogeneous (and shorter than 2^31). */
  lemma {:induction false} HomogeneousIsShaped(v: GoValue)
    ensures Shaped(ToTree(v)) <==> Homogeneous(v)
    decreases v
  {
    match v
    case GoList(items) => if items != [] { ItemsAreShaped(GoType(items[0]), items); }
    case GoCompound(fields) => FieldsAreShaped(fields);
    case _ =>
  }

  lemma {:induction false} ItemsAreShaped(t: Type, items: seq<GoValue>)
    ensures ShapedItems(t, ToTrees(items)) <==> AllOf(t, items)
    decreases items
  {
    if items != [] {
      HomogeneousIsShaped(items[0]);
      ItemsAreShaped(t, items[1..]);
      assert ToTrees(items)[1..] == ToTrees(items[1..]);
    }
  }

  lemma {:induction false} FieldIsShaped(f: GoField)
    ensures ShapedEntry(ToEntry(f)) <==> HomogeneousField(f)
    decreases f
  {
    HomogeneousIsShaped(f.value);
  }

  lemma {:induction false} FieldsAreShaped(fields: seq<GoField>)
    ensures ShapedEntries(ToEntries(fields)) <==> HomogeneousFields(fields)
    decreases fields
  {
    if fields != [] {
      FieldIsShaped(fields[0]);
      FieldsAreShaped(fields[1..]);
      assert ToEntries(fields)[1..] == ToEntries(fields[1..]);
    }
  }

  /** The walker consumes the gateway's network NBT after its tag, and the older
      form with an empty root name after the name, to the last byte. */
  lemma WalkerConsumesGateway(v: GoValue)
    requires Homogeneous(v)
    ensures
      var out := [TagId(GoType(v))] + Payload(ToTree(v));
      TypeAt(out, 0) == Some(GoType(v)) && Skip(GoType(v), out, 1, |out|) == At(|out|)
    ensures
      var out := [TagId(TCompound), 0, 0] + Payload(ToTree(v));
      v.GoCompound? ==> SkipString(out, 1) == At(3) && Skip(TCompound, out, 3, |out|) == At(|out|)
  {
    HomogeneousIsShaped(v);
    var p := Payload(ToTree(v));
    WalkerConsumesPayload([TagId(GoType(v))], ToTree(v), [], |p| + 1);
    WalkerConsumesPayload([TagId(TCompound), 0, 0], ToTree(v), [], |p| + 3);
    assert [TagId(GoType(v))] + p + [] == [TagId(GoType(v))] + p;
    assert [TagId(TCompound), 0, 0] + p + [] == [TagId(TCompound), 0, 0] + p;
  }

  /** Two strings of code points that fit are written alike exactly when they are the
      same. */
  lemma StringsAreInjective(s: seq<Rune>, t: seq<Rune>)
    requires Scalar(s) && Scalar(t) && |Encoded(Utf16(s))| <= MAX_STRING && |Encoded(Utf16(t))| <= MAX_STRING
    ensures StringBytes(s) == StringBytes(t) <==> s == t
  {
    assert StringBytes(s)[2..] == Encoded(Utf16(s)) && StringBytes(t)[2..] == Encoded(Utf16(t));
    EncodingIsInjective(s, t);
  }
}
