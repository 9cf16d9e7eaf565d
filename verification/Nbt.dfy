/** NBT as the generator's encoder (tools/limbogen/gen.py) and the gateway's
    (internal/proto/nbt.go) write it. */
module Nbt {
  import opened Prelude
  import opened Bits
  import opened Mutf8

  datatype Type =
    | TEnd | TByte | TShort | TInt | TLong | TFloat | TDouble | TByteArray
    | TString | TList | TCompound | TIntArray | TLongArray

  /** A long of the JSON source: a number, or a pair of halves. */
  datatype Long64 = Whole(n: int) | Halves(hi: int, lo: int)

  /** A value with its type; floats are their bits. */
  datatype Tree =
    | Int8(n: int)
    | Int16(n: int)
    | Int32(n: int)
    | Int64(v: Long64)
    | Float32(bits: nat)
    | Float64(bits: nat)
    | ByteArray(bytes: seq<int>)
    | Str(s: seq<Rune>)
    | List(et: Type, items: seq<Tree>)
    | Compound(entries: seq<Entry>)
    | IntArray(ints: seq<int>)
    | LongArray(longs: seq<Long64>)

  datatype Entry = Entry(name: seq<Rune>, value: Tree)

  const MAX_STRING := 0xFFFF
  const MAX_LENGTH := 0x8000_0000

  function TagId(t: Type): Byte {
    match t
    case TEnd => 0 case TByte => 1 case TShort => 2 case TInt => 3 case TLong => 4
    case TFloat => 5 case TDouble => 6 case TByteArray => 7 case TString => 8
    case TList => 9 case TCompound => 10 case TIntArray => 11 case TLongArray => 12
  }

  function TypeOf(v: Tree): Type {
    match v
    case Int8(_) => TByte case Int16(_) => TShort case Int32(_) => TInt case Int64(_) => TLong
    case Float32(_) => TFloat case Float64(_) => TDouble case ByteArray(_) => TByteArray
    case Str(_) => TString case List(_, _) => TList case Compound(_) => TCompound
    case IntArray(_) => TIntArray case LongArray(_) => TLongArray
  }

  function LongBytes(v: Long64): (s: seq<Byte>)
    ensures |s| == 8
  {
    match v
    case Whole(n) => U64(n)
    case Halves(hi, lo) => U32(hi) + U32(lo)
  }

  // ------------------------------------------------------------------ payloads

  /** A string: its encoding behind its length. The gateway cuts it at the largest
      length that can be written; the generator stops with an error instead. */
  function StringBytes(s: seq<Rune>): seq<Byte> {
    var enc := Encoded(Utf16(s));
    var cut := if |enc| > MAX_STRING then enc[..MAX_STRING] else enc;
    U16(|cut|) + cut
  }

  function LowBytes(b: seq<int>): (s: seq<Byte>)
    ensures |s| == |b|
  {
    if b == [] then [] else [b[0] % 0x100] + LowBytes(b[1..])
  }

  function IntsBytes(b: seq<int>): (s: seq<Byte>)
    ensures |s| == 4 * |b|
  {
    if b == [] then [] else U32(b[0]) + IntsBytes(b[1..])
  }

  function LongsBytes(b: seq<Long64>): (s: seq<Byte>)
    ensures |s| == 8 * |b|
  {
    if b == [] then [] else LongBytes(b[0]) + LongsBytes(b[1..])
  }

  function LeafPayload(v: Tree): seq<Byte>
    requires !v.List? && !v.Compound?
  {
    match v
    case Int8(n) => [n % 0x100]
    case Int16(n) => U16(n)
    case Int32(n) => U32(n)
    case Int64(l) => LongBytes(l)
    case Float32(bits) => U32(bits)
    case Float64(bits) => U64(bits)
    case ByteArray(bytes) => U32(|bytes|) + LowBytes(bytes)
    case Str(s) => StringBytes(s)
    case IntArray(ints) => U32(|ints|) + IntsBytes(ints)
    case LongArray(longs) => U32(|longs|) + LongsBytes(longs)
  }

  function Payload(v: Tree): seq<Byte>
    decreases v
  {
    match v
    case List(et, items) => [TagId(et)] + (U32(|items|) + ItemsPayload(items))
    case Compound(entries) => EntriesPayload(entries)
    case _ => LeafPayload(v)
  }

  function ItemsPayload(items: seq<Tree>): seq<Byte>
    decreases items
  {
    if items == [] then [] else Payload(items[0]) + ItemsPayload(items[1..])
  }

  function EntryPayload(e: Entry): seq<Byte>
    decreases e
  {
    [TagId(TypeOf(e.value))] + (StringBytes(e.name) + Payload(e.value))
  }

  function EntriesPayload(entries: seq<Entry>): seq<Byte>
    decreases entries
  {
    if entries == [] then [TagId(TEnd)] else EntryPayload(entries[0]) + EntriesPayload(entries[1..])
  }

  /** The lists of a tree hold what they say, and lengths fit an int32. */
  predicate Shaped(v: Tree)
    decreases v
  {
    match v
    case ByteArray(bytes) => |bytes| < MAX_LENGTH
    case IntArray(ints) => |ints| < MAX_LENGTH
    case LongArray(longs) => |longs| < MAX_LENGTH
    case List(et, items) => |items| < MAX_LENGTH && ShapedItems(et, items)
    case Compound(entries) => ShapedEntries(entries)
    case _ => true
  }

  predicate ShapedItems(et: Type, items: seq<Tree>)
    decreases items
  {
    items == [] || (TypeOf(items[0]) == et && Shaped(items[0]) && ShapedItems(et, items[1..]))
  }

  predicate ShapedEntry(e: Entry)
    decreases e
  {
    Shaped(e.value)
  }

  predicate ShapedEntries(entries: seq<Entry>)
    decreases entries
  {
    entries == [] || (ShapedEntry(entries[0]) && ShapedEntries(entries[1..]))
  }

  // ------------------------------------------------------------------- walker

  /** Where the walker got to; it raises on malformed input. Fuel stands for time:
      a malformed input can lead the walker round in circles. */
  datatype Walk = At(i: int) | Raised | OutOfFuel

  /** b[i] in Python: a negative index counts from the end. */
  function IndexAt(b: seq<Byte>, i: int): Option<Byte> {
    var k := if i < 0 then i + |b| else i;
    if 0 <= k < |b| then Some(b[k]) else None
  }

  function U16At(b: seq<Byte>, i: int): Option<nat> {
    var k := if i < 0 then i + |b| else i;
    if 0 <= k && k + 2 <= |b| then Some((b[k] as int) * 0x100 + b[k + 1]) else None
  }

  function I32At(b: seq<Byte>, i: int): Option<int> {
    var k := if i < 0 then i + |b| else i;
    if 0 <= k && k + 4 <= |b| then
      var u := (b[k] as int) * 0x100_0000 + (b[k + 1] as int) * 0x1_0000 + (b[k + 2] as int) * 0x100 + b[k + 3];
      Some(if u < MAX_LENGTH then u else u - 0x1_0000_0000)
    else None
  }

  function TypeAt(b: seq<Byte>, i: int): Option<Type> {
    var id := IndexAt(b, i);
    if id.None? then None else TypeOfId(id.value)
  }

  function TypeOfId(id: Byte): Option<Type> {
    if id == 0 then Some(TEnd) else if id == 1 then Some(TByte) else if id == 2 then Some(TShort)
    else if id == 3 then Some(TInt) else if id == 4 then Some(TLong) else if id == 5 then Some(TFloat)
    else if id == 6 then Some(TDouble) else if id == 7 then Some(TByteArray) else if id == 8 then Some(TString)
    else if id == 9 then Some(TList) else if id == 10 then Some(TCompound) else if id == 11 then Some(TIntArray)
    else if id == 12 then Some(TLongArray) else None
  }

  function SkipString(b: seq<Byte>, i: int): Walk {
    var n := U16At(b, i);
    if n.None? then Raised else At(i + 2 + n.value)
  }

  function SkipArray(b: seq<Byte>, i: int, width: nat): Walk {
    var n := I32At(b, i);
    if n.None? then Raised else At(i + 4 + n.value * width)
  }

  /** A payload whose end does not depend on another payload's. */
  function SkipLeaf(t: Type, b: seq<Byte>, i: int): Walk {
    match t
    case TByte => At(i + 1)
    case TShort => At(i + 2)
    case TInt => At(i + 4)
    case TLong => At(i + 8)
    case TFloat => At(i + 4)
    case TDouble => At(i + 8)
    case TString => SkipString(b, i)
    case TByteArray => SkipArray(b, i, 1)
    case TIntArray => SkipArray(b, i, 4)
    case TLongArray => SkipArray(b, i, 8)
    case _ => Raised
  }

  function Skip(t: Type, b: seq<Byte>, i: int, fuel: nat): Walk
    decreases fuel, 0
  {
    if t == TList then
      if fuel == 0 then OutOfFuel
      else if TypeAt(b, i).None? || I32At(b, i + 1).None? then Raised
      else SkipItems(TypeAt(b, i).value, b, i + 5, I32At(b, i + 1).value, fuel - 1)
    else if t == TCompound then
      if fuel == 0 then OutOfFuel else SkipEntries(b, i, fuel - 1)
    else SkipLeaf(t, b, i)
  }

  function SkipItems(et: Type, b: seq<Byte>, i: int, n: int, fuel: nat): Walk
    decreases fuel, if n > 0 then n else 0
  {
    if n <= 0 then At(i)
    else
      var r := Skip(et, b, i, fuel);
      if r.At? then SkipItems(et, b, r.i, n - 1, fuel) else r
  }

  function SkipEntries(b: seq<Byte>, i: int, fuel: nat): Walk
    decreases fuel, 0
  {
    if fuel == 0 then OutOfFuel
    else if IndexAt(b, i).None? then Raised
    else if IndexAt(b, i).value == 0 then At(i + 1)
    else
      var r := SkipEntry(b, i, fuel - 1);
      if r.At? then SkipEntries(b, r.i, fuel - 1) else r
  }

  /** A name and a value, of the type whose tag is at i. */
  function SkipEntry(b: seq<Byte>, i: int, fuel: nat): Walk
    decreases fuel, 1
  {
    var name := SkipString(b, i + 1);
    if !name.At? || TypeAt(b, i).None? then Raised
    else Skip(TypeAt(b, i).value, b, name.i, fuel)
  }

  // ----------------------------------------------------------- gateway encoder

  /** The values that the gateway's encoder accepts; a string is the code points that
      ranging over it gives (see GoStrings). */
  datatype GoValue =
    | GoString(s: seq<Rune>)
    | GoInt(n: int)
    | GoBool(b: bool)
    | GoCompound(fields: seq<GoField>)
    | GoList(items: seq<GoValue>)
    | GoLongs(longs: seq<int>)

  datatype GoField = GoField(name: seq<Rune>, value: GoValue)

  function GoType(v: GoValue): Type {
    match v
    case GoString(_) => TString
    case GoInt(_) => TInt
    case GoBool(_) => TByte
    case GoCompound(_) => TCompound
    case GoList(_) => TList
    case GoLongs(_) => TLongArray
  }

  /** The same value for the generator: a list takes its type from its first item. */
  function ToTree(v: GoValue): (t: Tree)
    ensures TypeOf(t) == GoType(v)
    decreases v
  {
    match v
    case GoString(s) => Str(s)
    case GoInt(n) => Int32(n)
    case GoBool(b) => Int8(if b then 1 else 0)
    case GoCompound(fields) => Compound(ToEntries(fields))
    case GoList(items) => List(if items == [] then TEnd else GoType(items[0]), ToTrees(items))
    case GoLongs(longs) => LongArray(ToLongs(longs))
  }

  function ToTrees(items: seq<GoValue>): (t: seq<Tree>)
    ensures |t| == |items|
    decreases items
  {
    if items == [] then [] else [ToTree(items[0])] + ToTrees(items[1..])
  }

  function ToEntry(f: GoField): Entry
    decreases f
  {
    Entry(f.name, ToTree(f.value))
  }

  function ToEntries(fields: seq<GoField>): seq<Entry>
    decreases fields
  {
    if fields == [] then [] else [ToEntry(fields[0])] + ToEntries(fields[1..])
  }

  function ToLongs(longs: seq<int>): (l: seq<Long64>)
    ensures |l| == |longs|
  {
    if longs == [] then [] else [Whole(longs[0])] + ToLongs(longs[1..])
  }

  /** The lists are homogeneous, as the encoder relies on. */
  predicate Homogeneous(v: GoValue)
    decreases v
  {
    match v
    case GoList(items) => |items| < MAX_LENGTH && (items == [] || AllOf(GoType(items[0]), items))
    case GoCompound(fields) => HomogeneousFields(fields)
    case GoLongs(longs) => |longs| < MAX_LENGTH
    case _ => true
  }

  predicate AllOf(t: Type, items: seq<GoValue>)
    decreases items
  {
    items == [] || (GoType(items[0]) == t && Homogeneous(items[0]) && AllOf(t, items[1..]))
  }

  predicate HomogeneousField(f: GoField)
    decreases f
  {
    Homogeneous(f.value)
  }

  predicate HomogeneousFields(fields: seq<GoField>)
    decreases fields
  {
    fields == [] || (HomogeneousField(fields[0]) && HomogeneousFields(fields[1..]))
  }
}
