/** What NBT means: a reader of its own, by the tag numbers and the byte order of the
    format, and that both encoders (tools/limbogen/gen.py, internal/proto/nbt.go) write
    what it reads back. */
module NbtReader {
  import opened Prelude
  import opened Bits
  import opened Mutf8
  import opened Nbt
  import NbtWalker

  /** A value as the client has it: signed numbers, floats as their bits, strings as
      UTF-16, a list with the tag of its items. */
  datatype Value =
    | VByte(n: int) | VShort(n: int) | VInt(n: int) | VLong(n: int)
    | VFloat(bits: nat) | VDouble(bits: nat)
    | VBytes(ns: seq<int>) | VInts(ns: seq<int>) | VLongs(ns: seq<int>)
    | VString(units: seq<Unit>)
    | VList(tag: int, items: seq<Value>)
    | VCompound(fields: seq<Field>)

  datatype Field = Field(name: seq<Unit>, value: Value)

  // ------------------------------------------------------------------- reader

  function BigEndian(b: seq<Byte>): nat {
    if b == [] then 0 else 256 * BigEndian(b[..|b| - 1]) + b[|b| - 1]
  }

  /** 2^(8 * width) for the widths there are. */
  function Span(width: nat): nat {
    if width == 1 then 0x100 else if width == 2 then 0x1_0000 else if width == 4 then 0x1_0000_0000
    else 0x1_0000_0000_0000_0000
  }

  /** Two's complement. */
  function Signed(n: nat, width: nat): int {
    if n < Span(width) / 2 then n else n - Span(width)
  }

  function ReadInt(b: seq<Byte>, width: nat): Option<(int, seq<Byte>)>
    requires width > 0
  {
    if |b| < width then None else Some((Signed(BigEndian(b[..width]), width), b[width..]))
  }

  function ReadInts(b: seq<Byte>, n: nat, width: nat): Option<(seq<int>, seq<Byte>)>
    requires width > 0
  {
    if n == 0 then Some(([], b))
    else
      var first := ReadInt(b, width);
      if first.None? then None
      else
        var more := ReadInts(first.value.1, n - 1, width);
        if more.None? then None else Some(([first.value.0] + more.value.0, more.value.1))
  }

  /** Numbers behind their count. */
  function ReadArray(b: seq<Byte>, width: nat): (r: Option<(seq<int>, seq<Byte>)>)
    requires width > 0
  {
    var n := ReadInt(b, 4);
    if n.None? || n.value.0 < 0 then None else ReadInts(n.value.1, n.value.0, width)
  }

  /** Modified UTF-8 behind its length. */
  function ReadText(b: seq<Byte>): (r: Option<(seq<Unit>, seq<Byte>)>)
    ensures r.Some? ==> |r.value.1| < |b|
  {
    if |b| < 2 then None else TextOf(BigEndian(b[..2]), b[2..])
  }

  function TextOf(n: nat, b: seq<Byte>): (r: Option<(seq<Unit>, seq<Byte>)>)
    ensures r.Some? ==> |r.value.1| <= |b|
  {
    if |b| < n || Units(b[..n]).None? then None else Some((Units(b[..n]).value, b[n..]))
  }

  /** A payload without payloads in it, by its tag. */
  function ReadLeaf(tag: int, b: seq<Byte>): Option<(Value, seq<Byte>)> {
    if tag in {1, 2, 3, 4} then
      var n := ReadInt(b, if tag == 1 then 1 else if tag == 2 then 2 else if tag == 3 then 4 else 8);
      if n.None? then None
      else Some((if tag == 1 then VByte(n.value.0) else if tag == 2 then VShort(n.value.0)
                 else if tag == 3 then VInt(n.value.0) else VLong(n.value.0), n.value.1))
    else if tag == 5 then
      if |b| < 4 then None else Some((VFloat(BigEndian(b[..4])), b[4..]))
    else if tag == 6 then
      if |b| < 8 then None else Some((VDouble(BigEndian(b[..8])), b[8..]))
    else if tag == 8 then
      var text := ReadText(b);
      if text.None? then None else Some((VString(text.value.0), text.value.1))
    else if tag in {7, 11, 12} then
      var ns := ReadArray(b, if tag == 7 then 1 else if tag == 11 then 4 else 8);
      if ns.None? then None
      else Some((if tag == 7 then VBytes(ns.value.0) else if tag == 11 then VInts(ns.value.0) else VLongs(ns.value.0),
                 ns.value.1))
    else None
  }

  /** The payload of a tag, and the bytes behind it. */
  function ReadPayload(tag: int, b: seq<Byte>): Option<(Value, seq<Byte>)>
    decreases |b|, 2
  {
    if tag == 9 then
      if |b| < 5 then None
      else
        var n := ReadInt(b[1..], 4);
        if n.value.0 < 0 then None
        else
          var items := ReadItems(b[0], n.value.1, n.value.0);
          if items.None? then None else Some((VList(b[0], items.value.0), items.value.1))
    else if tag == 10 then
      var fields := ReadFields(b);
      if fields.None? then None else Some((VCompound(fields.value.0), fields.value.1))
    else ReadLeaf(tag, b)
  }

  function ReadItems(tag: int, b: seq<Byte>, n: nat): Option<(seq<Value>, seq<Byte>)>
    decreases |b|, n + 3
  {
    if n == 0 then Some(([], b))
    else
      var first := ReadPayload(tag, b);
      if first.None? || |first.value.1| > |b| then None
      else
        var more := ReadItems(tag, first.value.1, n - 1);
        if more.None? then None else Some(([first.value.0] + more.value.0, more.value.1))
  }

  /** The fields up to the end tag. */
  function ReadFields(b: seq<Byte>): Option<(seq<Field>, seq<Byte>)>
    decreases |b|, 1
  {
    if b == [] then None
    else if b[0] == 0 then Some(([], b[1..]))
    else
      var first := ReadField(b[0], b[1..]);
      if first.None? || |first.value.1| >= |b| then None
      else
        var more := ReadFields(first.value.1);
        if more.None? then None else Some(([first.value.0] + more.value.0, more.value.1))
  }

  /** A name and a payload. */
  function ReadField(tag: int, b: seq<Byte>): Option<(Field, seq<Byte>)>
    decreases |b|, 3
  {
    var name := ReadText(b);
    if name.None? then None
    else
      var value := ReadPayload(tag, name.value.1);
      if value.None? then None else Some((Field(name.value.0, value.value.0), value.value.1))
  }

  // ------------------------------------------------------- what trees mean

  /** A number written in so many bytes. */
  function Wrapped(n: int, width: nat): int {
    Signed(n % Span(width), width)
  }

  function AllWrapped(ns: seq<int>, width: nat): seq<int> {
    if ns == [] then [] else [Wrapped(ns[0], width)] + AllWrapped(ns[1..], width)
  }

  function LongMeant(l: Long64): int {
    match l
    case Whole(n) => Wrapped(n, 8)
    case Halves(hi, lo) => Signed(hi % 0x1_0000_0000 * 0x1_0000_0000 + lo % 0x1_0000_0000, 8)
  }

  function LongsMeant(longs: seq<Long64>): seq<int> {
    if longs == [] then [] else [LongMeant(longs[0])] + LongsMeant(longs[1..])
  }

  function Meant(v: Tree): Value
    decreases v
  {
    match v
    case Int8(n) => VByte(Wrapped(n, 1))
    case Int16(n) => VShort(Wrapped(n, 2))
    case Int32(n) => VInt(Wrapped(n, 4))
    case Int64(l) => VLong(LongMeant(l))
    case Float32(bits) => VFloat(bits % Span(4))
    case Float64(bits) => VDouble(bits % Span(8))
    case ByteArray(bytes) => VBytes(AllWrapped(bytes, 1))
    case Str(s) => VString(Utf16(s))
    case List(et, items) => VList(TagId(et), ItemsMeant(items))
    case Compound(entries) => VCompound(EntriesMeant(entries))
    case IntArray(ints) => VInts(AllWrapped(ints, 4))
    case LongArray(longs) => VLongs(LongsMeant(longs))
  }

  function ItemsMeant(items: seq<Tree>): seq<Value>
    decreases items
  {
    if items == [] then [] else [Meant(items[0])] + ItemsMeant(items[1..])
  }

  function EntryMeant(e: Entry): Field
    decreases e
  {
    Field(Utf16(e.name), Meant(e.value))
  }

  function EntriesMeant(entries: seq<Entry>): seq<Field>
    decreases entries
  {
    if entries == [] then [] else [EntryMeant(entries[0])] + EntriesMeant(entries[1..])
  }

  predicate TextFits(s: seq<Rune>) {
    |Encoded(Utf16(s))| <= MAX_STRING
  }

  /** No string of the tree is too long to be written whole. */
  predicate TextsFit(v: Tree)
    decreases v
  {
    match v
    case Str(s) => TextFits(s)
    case List(_, items) => forall k :: 0 <= k < |items| ==> TextsFit(items[k])
    case Compound(entries) => forall k :: 0 <= k < |entries| ==> EntryFits(entries[k])
    case _ => true
  }

  predicate EntryFits(e: Entry)
    decreases e
  {
    TextFits(e.name) && TextsFit(e.value)
  }

  // ------------------------------------------------------- numbers are read back

  lemma BigEndianAppend(a: seq<Byte>, b: Byte)
    ensures BigEndian(a + [b]) == 256 * BigEndian(a) + b
  {
    assert (a + [b])[..|a|] == a;
  }

  lemma BigEndianU16(a: seq<Byte>, n: int)
    ensures BigEndian(a + U16(n)) == 0x1_0000 * BigEndian(a) + n % 0x1_0000
  {
    var hi, lo := n / 0x100 % 0x100, n % 0x100;
    BigEndianAppend(a, hi);
    BigEndianAppend(a + [hi], lo);
    assert a + U16(n) == a + [hi] + [lo];
    Read16Of(n);
  }

  lemma BigEndianU32(a: seq<Byte>, n: int)
    ensures BigEndian(a + U32(n)) == 0x1_0000_0000 * BigEndian(a) + n % 0x1_0000_0000
  {
    BigEndianU16(a, n / 0x1_0000);
    BigEndianU16(a + U16(n / 0x1_0000), n);
    assert a + U32(n) == a + U16(n / 0x1_0000) + U16(n);
    Halves32(n);
  }

  lemma BigEndianU64(n: int)
    ensures BigEndian(U64(n)) == n % 0x1_0000_0000_0000_0000
  {
    BigEndianU32([], n / 0x1_0000_0000);
    BigEndianU32(U32(n / 0x1_0000_0000), n);
    assert [] + U32(n / 0x1_0000_0000) == U32(n / 0x1_0000_0000);
    Halves64(n);
  }

  lemma HeadReads(p: seq<Byte>, rest: seq<Byte>)
    ensures (p + rest)[..|p|] == p && (p + rest)[|p|..] == rest
  {
  }

  lemma ByteReads(n: int, rest: seq<Byte>)
    ensures ReadInt([n % 0x100] + rest, 1) == Some((Wrapped(n, 1), rest))
  {
    BigEndianAppend([], n % 0x100);
    assert [] + [n % 0x100] == [n % 0x100];
    HeadReads([n % 0x100], rest);
  }

  lemma ShortReads(n: int, rest: seq<Byte>)
    ensures ReadInt(U16(n) + rest, 2) == Some((Wrapped(n, 2), rest))
  {
    BigEndianU16([], n);
    assert [] + U16(n) == U16(n);
    HeadReads(U16(n), rest);
  }

  lemma IntReads(n: int, rest: seq<Byte>)
    ensures BigEndian(U32(n)) == n % Span(4)
    ensures ReadInt(U32(n) + rest, 4) == Some((Wrapped(n, 4), rest))
  {
    BigEndianU32([], n);
    assert [] + U32(n) == U32(n);
    HeadReads(U32(n), rest);
  }

  lemma LongReads(l: Long64, rest: seq<Byte>)
    ensures ReadInt(LongBytes(l) + rest, 8) == Some((LongMeant(l), rest))
  {
    HeadReads(LongBytes(l), rest);
    match l
    case Whole(n) => BigEndianU64(n);
    case Halves(hi, lo) =>
      BigEndianU32([], hi);
      BigEndianU32(U32(hi), lo);
      assert [] + U32(hi) == U32(hi);
  }

  lemma CountReads(n: nat, rest: seq<Byte>)
    requires n < MAX_LENGTH
    ensures ReadInt(U32(n) + rest, 4) == Some((n as int, rest))
  {
    IntReads(n, rest);
  }

  lemma LengthReads(n: nat, s: seq<Byte>)
    requires n <= MAX_STRING
    ensures ReadText(U16(n) + s) == TextOf(n, s)
  {
    BigEndianU16([], n);
    assert [] + U16(n) == U16(n);
    HeadReads(U16(n), s);
  }

  lemma UnitsRead(enc: seq<Byte>, units: seq<Unit>, rest: seq<Byte>)
    requires Units(enc) == Some(units)
    ensures TextOf(|enc|, enc + rest) == Some((units, rest))
  {
    HeadReads(enc, rest);
  }

  lemma TextReads(s: seq<Rune>, rest: seq<Byte>)
    requires TextFits(s)
    ensures ReadText(StringBytes(s) + rest) == Some((Utf16(s), rest))
  {
    EncodedReads(Utf16(s));
    var enc := Encoded(Utf16(s));
    Assoc(U16(|enc|), enc, rest);
    LengthReads(|enc|, enc + rest);
    UnitsRead(enc, Utf16(s), rest);
  }

  lemma {:induction false} BytesRead(bytes: seq<int>, rest: seq<Byte>)
    ensures
      ReadInts(LowBytes(bytes) + rest, |bytes|, 1)
      == Some((AllWrapped(bytes, 1), rest))
  {
    if bytes == [] {
      assert LowBytes(bytes) + rest == rest;
    } else {
      var more := LowBytes(bytes[1..]);
      Assoc([bytes[0] % 0x100], more, rest);
      ByteReads(bytes[0], more + rest);
      BytesRead(bytes[1..], rest);
    }
  }

  lemma {:induction false} IntsRead(ints: seq<int>, rest: seq<Byte>)
    ensures
      ReadInts(IntsBytes(ints) + rest, |ints|, 4)
      == Some((AllWrapped(ints, 4), rest))
  {
    if ints == [] {
      assert IntsBytes(ints) + rest == rest;
    } else {
      var more := IntsBytes(ints[1..]);
      Assoc(U32(ints[0]), more, rest);
      IntReads(ints[0], more + rest);
      IntsRead(ints[1..], rest);
    }
  }

  lemma {:induction false} LongsRead(longs: seq<Long64>, rest: seq<Byte>)
    ensures
      ReadInts(LongsBytes(longs) + rest, |longs|, 8)
      == Some((LongsMeant(longs), rest))
  {
    if longs == [] {
      assert LongsBytes(longs) + rest == rest;
    } else {
      var more := LongsBytes(longs[1..]);
      Assoc(LongBytes(longs[0]), more, rest);
      LongReads(longs[0], more + rest);
      LongsRead(longs[1..], rest);
    }
  }

  // ------------------------------------------------------- trees are read back

  lemma NumberLeafReads(v: Tree, rest: seq<Byte>)
    requires v.Int8? || v.Int16? || v.Int32? || v.Int64? || v.Float32? || v.Float64?
    ensures ReadLeaf(TagId(TypeOf(v)), LeafPayload(v) + rest) == Some((Meant(v), rest))
  {
    match v
    case Int8(n) => ByteReads(n, rest);
    case Int16(n) => ShortReads(n, rest);
    case Int32(n) => IntReads(n, rest);
    case Int64(l) => LongReads(l, rest);
    case Float32(bits) =>
      IntReads(bits, rest);
      HeadReads(U32(bits), rest);
    case Float64(bits) =>
      BigEndianU64(bits);
      HeadReads(U64(bits), rest);
  }

  lemma ArrayReads(n: nat, width: nat, data: seq<Byte>, ns: seq<int>, rest: seq<Byte>)
    requires n < MAX_LENGTH && width > 0 && ReadInts(data + rest, n, width) == Some((ns, rest))
    ensures ReadArray(U32(n) + data + rest, width) == Some((ns, rest))
  {
    Assoc(U32(n), data, rest);
    CountReads(n, data + rest);
  }

  lemma LeafReads(v: Tree, rest: seq<Byte>)
    requires !v.List? && !v.Compound? && Shaped(v) && TextsFit(v)
    ensures ReadLeaf(TagId(TypeOf(v)), LeafPayload(v) + rest) == Some((Meant(v), rest))
  {
    match v
    case Str(s) => TextReads(s, rest);
    case ByteArray(bytes) =>
      BytesRead(bytes, rest);
      ArrayReads(|bytes|, 1, LowBytes(bytes), AllWrapped(bytes, 1), rest);
    case IntArray(ints) =>
      IntsRead(ints, rest);
      ArrayReads(|ints|, 4, IntsBytes(ints), AllWrapped(ints, 4), rest);
    case LongArray(longs) =>
      LongsRead(longs, rest);
      ArrayReads(|longs|, 8, LongsBytes(longs), LongsMeant(longs), rest);
    case _ => NumberLeafReads(v, rest);
  }

  lemma ListText(et: Type, n: nat, data: seq<Byte>, rest: seq<Byte>)
    requires n < MAX_LENGTH
    ensures
      var b := [TagId(et)] + (U32(n) + data) + rest;
      |b| >= 5 && b[0] == TagId(et) && ReadInt(b[1..], 4) == Some((n as int, data + rest))
  {
    var b := [TagId(et)] + (U32(n) + data) + rest;
    assert b[1..] == U32(n) + (data + rest);
    CountReads(n, data + rest);
  }

  lemma ListStep(b: seq<Byte>, n: nat, data: seq<Byte>)
    requires |b| >= 5 && ReadInt(b[1..], 4) == Some((n as int, data))
    ensures
      var items := ReadItems(b[0], data, n);
      ReadPayload(9, b) == if items.None? then None else Some((VList(b[0], items.value.0), items.value.1))
  {
  }

  lemma CompoundStep(b: seq<Byte>)
    ensures
      var fields := ReadFields(b);
      ReadPayload(10, b) == if fields.None? then None else Some((VCompound(fields.value.0), fields.value.1))
  {
  }

  lemma LeafStep(t: Type, b: seq<Byte>)
    requires t != TList && t != TCompound
    ensures ReadPayload(TagId(t), b) == ReadLeaf(TagId(t), b)
  {
  }

  /** Whatever well-typed tree the encoder writes, the reader gives its meaning back
      and leaves what follows. */
  lemma {:induction false} TreeReads(v: Tree, rest: seq<Byte>)
    requires Shaped(v) && TextsFit(v)
    ensures ReadPayload(TagId(TypeOf(v)), Payload(v) + rest) == Some((Meant(v), rest))
    decreases v
  {
    match v
    case List(et, items) =>
      var data := ItemsPayload(items);
      ItemsRead(et, items, rest);
      ListText(et, |items|, data, rest);
      ListStep([TagId(et)] + (U32(|items|) + data) + rest, |items|, data + rest);
    case Compound(entries) =>
      EntriesRead(entries, rest);
      CompoundStep(EntriesPayload(entries) + rest);
    case _ =>
      LeafReads(v, rest);
      LeafStep(TypeOf(v), LeafPayload(v) + rest);
  }

  lemma {:induction false} ItemsRead(et: Type, items: seq<Tree>, rest: seq<Byte>)
    requires ShapedItems(et, items) && forall k :: 0 <= k < |items| ==> TextsFit(items[k])
    ensures
      ReadItems(TagId(et), ItemsPayload(items) + rest, |items|)
      == Some((ItemsMeant(items), rest))
    decreases items
  {
    if items == [] {
      assert ItemsPayload(items) + rest == rest;
    } else {
      var more := ItemsPayload(items[1..]);
      Assoc(Payload(items[0]), more, rest);
      TreeReads(items[0], more + rest);
      ItemsRead(et, items[1..], rest);
    }
  }

  lemma FieldsStep(b: seq<Byte>, field: Field, more: seq<Byte>, fields: seq<Field>, rest: seq<Byte>)
    requires b != [] && b[0] != 0 && |more| < |b|
    requires ReadField(b[0], b[1..]) == Some((field, more)) && ReadFields(more) == Some((fields, rest))
    ensures ReadFields(b) == Some(([field] + fields, rest))
  {
  }

  lemma EntryText(e: Entry, more: seq<Byte>)
    requires TextFits(e.name)
    ensures
      var b := EntryPayload(e) + more;
      && b != [] && b[0] == TagId(TypeOf(e.value)) != 0 && |more| < |b|
      && ReadText(b[1..]) == Some((Utf16(e.name), Payload(e.value) + more))
  {
    var b := EntryPayload(e) + more;
    assert b[1..] == StringBytes(e.name) + (Payload(e.value) + more);
    TextReads(e.name, Payload(e.value) + more);
  }

  lemma {:induction false} EntryReads(e: Entry, more: seq<Byte>)
    requires ShapedEntry(e) && EntryFits(e)
    ensures
      var b := EntryPayload(e) + more;
      && b != [] && b[0] != 0 && |more| < |b| && ReadField(b[0], b[1..]) == Some((EntryMeant(e), more))
    decreases e
  {
    EntryText(e, more);
    TreeReads(e.value, more);
  }

  /** The entries of a compound, up to the end tag. */
  lemma {:induction false} EntriesRead(entries: seq<Entry>, rest: seq<Byte>)
    requires ShapedEntries(entries) && forall k :: 0 <= k < |entries| ==> EntryFits(entries[k])
    ensures ReadFields(EntriesPayload(entries) + rest) == Some((EntriesMeant(entries), rest))
    decreases entries
  {
    if entries == [] {
      HeadReads([TagId(TEnd)], rest);
    } else {
      var e, more := entries[0], EntriesPayload(entries[1..]) + rest;
      Assoc(EntryPayload(e), EntriesPayload(entries[1..]), rest);
      EntryReads(e, more);
      EntriesRead(entries[1..], rest);
      FieldsStep(EntryPayload(e) + more, EntryMeant(e), more, EntriesMeant(entries[1..]), rest);
    }
  }

  // ------------------------------------------------------- the gateway's values

  /** The tag of a value, by its number. */
  function GoTag(v: GoValue): int {
    match v
    case GoBool(_) => 1
    case GoInt(_) => 3
    case GoString(_) => 8
    case GoList(_) => 9
    case GoCompound(_) => 10
    case GoLongs(_) => 12
  }

  /** What a value of the gateway should be to the client. */
  function GoMeant(v: GoValue): Value
    decreases v
  {
    match v
    case GoBool(flag) => VByte(if flag then 1 else 0)
    case GoInt(n) => VInt(n)
    case GoString(s) => VString(Utf16(s))
    case GoLongs(longs) => VLongs(longs)
    case GoList(items) => VList(if items == [] then 0 else GoTag(items[0]), GoItemsMeant(items))
    case GoCompound(fields) => VCompound(GoFieldsMeant(fields))
  }

  function GoItemsMeant(items: seq<GoValue>): seq<Value>
    decreases items
  {
    if items == [] then [] else [GoMeant(items[0])] + GoItemsMeant(items[1..])
  }

  function GoFieldMeant(f: GoField): Field
    decreases f
  {
    Field(Utf16(f.name), GoMeant(f.value))
  }

  function GoFieldsMeant(fields: seq<GoField>): seq<Field>
    decreases fields
  {
    if fields == [] then [] else [GoFieldMeant(fields[0])] + GoFieldsMeant(fields[1..])
  }

  /** Numbers are in the range of their type, and no string is cut. */
  predicate GoFits(v: GoValue)
    decreases v
  {
    match v
    case GoInt(n) => -0x8000_0000 <= n < 0x8000_0000
    case GoString(s) => TextFits(s)
    case GoLongs(longs) => forall k :: 0 <= k < |longs| ==> -0x8000_0000_0000_0000 <= longs[k] < 0x8000_0000_0000_0000
    case GoList(items) => forall k :: 0 <= k < |items| ==> GoFits(items[k])
    case GoCompound(fields) => forall k :: 0 <= k < |fields| ==> GoFieldFits(fields[k])
    case _ => true
  }

  predicate GoFieldFits(f: GoField)
    decreases f
  {
    TextFits(f.name) && GoFits(f.value)
  }

  lemma WrappedIsSame(n: int, width: nat)
    requires width in {1, 2, 4, 8} && -(Span(width) as int) <= 2 * n < Span(width)
    ensures Wrapped(n, width) == n
  {
    if n < 0 { assert (n + Span(width)) % Span(width) == n + Span(width); }
  }

  lemma {:induction false} GoLongsMean(longs: seq<int>)
    requires forall k :: 0 <= k < |longs| ==> -0x8000_0000_0000_0000 <= longs[k] < 0x8000_0000_0000_0000
    ensures LongsMeant(ToLongs(longs)) == longs
  {
    if longs != [] {
      WrappedIsSame(longs[0], 8);
      GoLongsMean(longs[1..]);
      assert ToLongs(longs)[1..] == ToLongs(longs[1..]);
    }
  }

  /** The tree that the encoder writes means what the value should. */
  lemma {:induction false} GoMeans(v: GoValue)
    requires GoFits(v)
    ensures Meant(ToTree(v)) == GoMeant(v) && TextsFit(ToTree(v)) && TagId(GoType(v)) == GoTag(v)
    decreases v
  {
    match v
    case GoInt(n) => WrappedIsSame(n, 4);
    case GoLongs(longs) => GoLongsMean(longs);
    case GoList(items) =>
      GoItemsMean(items);
      if items != [] { GoMeans(items[0]); }
    case GoCompound(fields) => GoFieldsMean(fields);
    case _ =>
  }

  lemma {:induction false} GoItemsMean(items: seq<GoValue>)
    requires forall k :: 0 <= k < |items| ==> GoFits(items[k])
    ensures ItemsMeant(ToTrees(items)) == GoItemsMeant(items)
    ensures forall k :: 0 <= k < |items| ==> TextsFit(ToTrees(items)[k])
    decreases items
  {
    if items != [] {
      GoMeans(items[0]);
      GoItemsMean(items[1..]);
      assert ToTrees(items)[1..] == ToTrees(items[1..]);
    }
  }

  lemma {:induction false} GoFieldMeans(f: GoField)
    requires GoFieldFits(f)
    ensures EntryMeant(ToEntry(f)) == GoFieldMeant(f) && EntryFits(ToEntry(f))
    decreases f
  {
    GoMeans(f.value);
  }

  lemma {:induction false} GoFieldsMean(fields: seq<GoField>)
    requires forall k :: 0 <= k < |fields| ==> GoFieldFits(fields[k])
    ensures EntriesMeant(ToEntries(fields)) == GoFieldsMeant(fields)
    ensures forall e <- ToEntries(fields) :: EntryFits(e)
    decreases fields
  {
    if fields != [] {
      GoFieldMeans(fields[0]);
      GoFieldsMean(fields[1..]);
      assert ToEntries(fields)[1..] == ToEntries(fields[1..]);
    }
  }

  /** Whatever homogeneous value the gateway encodes, the reader has that value back
      and leaves what follows: true is the byte 1, numbers keep their sign, strings
      their text, items and fields their order. */
  lemma GatewayIsRead(v: GoValue, rest: seq<Byte>)
    requires Homogeneous(v) && GoFits(v)
    ensures ReadPayload(GoTag(v), Payload(ToTree(v)) + rest) == Some((GoMeant(v), rest))
  {
    NbtWalker.HomogeneousIsShaped(v);
    GoMeans(v);
    TreeReads(ToTree(v), rest);
  }

  /** So for both forms of a whole document: the tag and the payload, and the compound
      tag, an empty name and the payload. */
  lemma DocumentsAreRead(v: GoValue)
    requires Homogeneous(v) && GoFits(v)
    ensures
      var out := [TagId(GoType(v))] + Payload(ToTree(v));
      out[0] == GoTag(v) && ReadPayload(out[0], out[1..]) == Some((GoMeant(v), []))
    ensures
      var out := [TagId(TCompound), 0, 0] + Payload(ToTree(v));
      v.GoCompound? ==>
        && out[0] == 10 && ReadText(out[1..]) == Some(([], out[3..]))
        && ReadPayload(10, out[3..]) == Some((GoMeant(v), []))
  {
    var p := Payload(ToTree(v));
    GoMeans(v);
    GatewayIsRead(v, []);
    assert p + [] == p;
    HeadReads([TagId(GoType(v))], p);
    var named := [TagId(TCompound), 0, 0] + p;
    assert named[1..] == U16(0) + p && named[3..] == p;
    LengthReads(0, p);
    assert p[..0] == [] && p[0..] == p;
  }
}
