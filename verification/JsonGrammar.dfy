/** The language that the jar's JSON reader accepts (Json.java), as a grammar of its
    own, unit by unit: what is a gap, a string, a number, a list and an object, and
    what each means. JsonLanguage proves that the reader accepts exactly this. */
module JsonGrammar {
  import opened Prelude
  import opened Json

  // --------------------------------------------------------------------- gaps

  /** A blank, a comment to the end of its line, or a comment between its marks. */
  datatype Piece = Blank(c: Unit) | Line(body: Text) | Block(body: Text)

  type Gap = seq<Piece>

  predicate NoEnd(s: Text, n: nat) {
    forall k :: 0 <= k < n && k + 1 < |s| ==> !(s[k] == 0x2A && s[k + 1] == 0x2F)
  }

  predicate PieceOk(p: Piece) {
    match p
    case Blank(c) => c in {0x20, 0x09, 0x0A, 0x0D, 0xFEFF}
    case Line(body) => 0x0A !in body
    case Block(body) => NoEnd(body + [0x2A, 0x2F], |body|)
  }

  function PieceText(p: Piece): Text {
    match p
    case Blank(c) => [c]
    case Line(body) => [0x2F, 0x2F] + (body + [0x0A])
    case Block(body) => [0x2F, 0x2A] + (body + [0x2A, 0x2F])
  }

  predicate GapOk(g: Gap) {
    forall k :: 0 <= k < |g| ==> PieceOk(g[k])
  }

  function GapText(g: Gap): Text {
    if g == [] then [] else PieceText(g[0]) + GapText(g[1..])
  }

  /** A comment that the end of the text cuts off, if any. */
  datatype Tail = Closed | OpenLine(body: Text) | OpenBlock(body: Text)

  predicate TailOk(t: Tail) {
    match t
    case Closed => true
    case OpenLine(body) => 0x0A !in body
    case OpenBlock(body) => NoEnd(body, |body|)
  }

  function TailText(t: Tail): Text {
    match t
    case Closed => []
    case OpenLine(body) => [0x2F, 0x2F] + body
    case OpenBlock(body) => [0x2F, 0x2A] + body
  }

  // ------------------------------------------------------------------- digits

  type Sixteen = d: nat | d < 16

  datatype Digit = Digit(d: Sixteen, upper: bool)

  predicate DigitsOk(ds: seq<Digit>, base: nat) {
    forall k :: 0 <= k < |ds| ==> ds[k].d < base
  }

  function DigitText(x: Digit): Unit
  {
    if x.d < 10 then 0x30 + x.d else if x.upper then 0x41 + (x.d - 10) else 0x61 + (x.d - 10)
  }

  function DigitsText(ds: seq<Digit>): Text
  {
    seq(|ds|, k requires 0 <= k < |ds| => DigitText(ds[k]))
  }

  function NumberOf(ds: seq<Digit>, base: nat): nat {
    if ds == [] then 0 else NumberOf(ds[..|ds| - 1], base) * base + ds[|ds| - 1].d
  }

  // ------------------------------------------------------------------ strings

  /** A unit of a string: itself, behind a backslash, or by its number. Integer.parseInt
      reads that number, so a sign may stand for its first digit. */
  datatype Char = Raw(c: Unit) | Short(e: Unit) | Hex(ds: seq<Digit>) | SignedHex(minus: bool, ds: seq<Digit>)

  predicate CharOk(x: Char) {
    match x
    case Raw(c) => c != 0x22 && c != 0x5C
    case Short(e) => e != 0x75
    case Hex(ds) => |ds| == 4
    case SignedHex(_, ds) => |ds| == 3
  }

  function CharText(x: Char): Text
  {
    match x
    case Raw(c) => [c]
    case Short(e) => [0x5C, e]
    case Hex(ds) => [0x5C, 0x75] + DigitsText(ds)
    case SignedHex(minus, ds) => [0x5C, 0x75] + ([if minus then 0x2D else 0x2B] + DigitsText(ds))
  }

  /** Section 7 of RFC 8259 for its escapes; behind a backslash any other unit stands
      for itself. */
  function CharMeant(x: Char): Unit
  {
    match x
    case Raw(c) => c
    case Short(e) =>
      if e == 0x62 then 0x08 else if e == 0x66 then 0x0C else if e == 0x6E then 0x0A
      else if e == 0x72 then 0x0D else if e == 0x74 then 0x09 else e
    case Hex(ds) => NumberOf(ds, 16) % 0x1_0000
    case SignedHex(minus, ds) => (if minus then 0x1_0000 - NumberOf(ds, 16) else NumberOf(ds, 16)) % 0x1_0000
  }

  predicate CharsOk(cs: seq<Char>) {
    forall k :: 0 <= k < |cs| ==> CharOk(cs[k])
  }

  function CharsText(cs: seq<Char>): Text
  {
    if cs == [] then [] else CharText(cs[0]) + CharsText(cs[1..])
  }

  function CharsMeant(cs: seq<Char>): Text
  {
    if cs == [] then [] else [CharMeant(cs[0])] + CharsMeant(cs[1..])
  }

  // ------------------------------------------------------------------ numbers

  datatype Sign = NoSign | Plus | Minus

  datatype Exponent = Exponent(e: Unit, sign: Sign, ds: seq<Digit>)

  datatype Number = Number(sign: Sign, whole: seq<Digit>, fraction: Option<seq<Digit>>, exponent: Option<Exponent>)

  function SignText(s: Sign): Text {
    match s case NoSign => [] case Plus => [0x2B] case Minus => [0x2D]
  }

  /** At least one digit before the exponent, and one in it. */
  predicate NumberOk(x: Number) {
    && DigitsOk(x.whole, 10)
    && (x.fraction.Some? ==> DigitsOk(x.fraction.value, 10))
    && (x.whole != [] || (x.fraction.Some? && x.fraction.value != []))
    && (x.exponent.Some? ==>
          && x.exponent.value.e in {0x45, 0x65} && x.exponent.value.ds != [] && DigitsOk(x.exponent.value.ds, 10))
  }

  function FractionText(f: Option<seq<Digit>>): Text
  {
    if f.Some? then [0x2E] + DigitsText(f.value) else []
  }

  function ExponentText(e: Option<Exponent>): Text
  {
    if e.Some? then [e.value.e] + (SignText(e.value.sign) + DigitsText(e.value.ds)) else []
  }

  function NumberText(x: Number): Text
  {
    SignText(x.sign) + (DigitsText(x.whole) + (FractionText(x.fraction) + ExponentText(x.exponent)))
  }

  /** Digits alone are a long if they are in its range; every other number is a
      double. */
  function NumberMeant(x: Number): Tree
  {
    var n: int := if x.sign.Minus? then -(NumberOf(x.whole, 10) as int) else NumberOf(x.whole, 10);
    if x.fraction.None? && x.exponent.None? && -0x8000_0000_0000_0000 <= n < 0x8000_0000_0000_0000 then Long(n)
    else Double(NumberText(x))
  }

  // ------------------------------------------------------------------- values

  /** A value with everything that its text holds. In a list or an object `tail` is
      what stands between a last comma (or the opening bracket) and the closing one;
      there is none if the last item is followed by the bracket itself. */
  datatype Spelling =
    | SNull | STrue | SFalse
    | SNumber(x: Number)
    | SString(cs: seq<Char>)
    | SList(items: seq<Item>, tail: Option<Gap>)
    | SObject(members: seq<Field>, tail: Option<Gap>)

  datatype Item = Item(before: Gap, value: Spelling, behind: Gap)

  datatype Field = Field(before: Gap, key: seq<Char>, afterKey: Gap, afterColon: Gap, value: Spelling, behind: Gap)

  /** The parts are what they should be, and lists and objects are nested at most
      `room` deep. */
  predicate SpellOk(v: Spelling, room: int)
    decreases v
  {
    match v
    case SNumber(x) => NumberOk(x)
    case SString(cs) => CharsOk(cs)
    case SList(items, tail) => room > 0 && (tail.Some? ==> GapOk(tail.value)) && ItemsOk(items, room - 1)
    case SObject(members, tail) => room > 0 && (tail.Some? ==> GapOk(tail.value)) && FieldsOk(members, room - 1)
    case _ => true
  }

  predicate ItemsOk(items: seq<Item>, room: int)
    decreases items
  {
    items == [] || (ItemOk(items[0], room) && ItemsOk(items[1..], room))
  }

  predicate ItemOk(i: Item, room: int)
    decreases i
  {
    GapOk(i.before) && SpellOk(i.value, room) && GapOk(i.behind)
  }

  predicate FieldsOk(fields: seq<Field>, room: int)
    decreases fields
  {
    fields == [] || (FieldOk(fields[0], room) && FieldsOk(fields[1..], room))
  }

  predicate FieldOk(f: Field, room: int)
    decreases f
  {
    && GapOk(f.before) && CharsOk(f.key) && GapOk(f.afterKey) && GapOk(f.afterColon)
    && SpellOk(f.value, room) && GapOk(f.behind)
  }

  function Spell(v: Spelling): Text
    decreases v
  {
    match v
    case SNull => [0x6E, 0x75, 0x6C, 0x6C]
    case STrue => [0x74, 0x72, 0x75, 0x65]
    case SFalse => [0x66, 0x61, 0x6C, 0x73, 0x65]
    case SNumber(x) => NumberText(x)
    case SString(cs) => [0x22] + (CharsText(cs) + [0x22])
    case SList(items, tail) => [0x5B] + SpellItems(items, tail)
    case SObject(members, tail) => [0x7B] + SpellFields(members, tail)
  }

  /** What stands behind the opening bracket or a comma. */
  function SpellItems(items: seq<Item>, tail: Option<Gap>): Text
    decreases items
  {
    if items == [] then (if tail.Some? then GapText(tail.value) else []) + [0x5D]
    else
      SpellItem(items[0])
      + if |items| == 1 && tail.None? then [0x5D] else [0x2C] + SpellItems(items[1..], tail)
  }

  function SpellItem(i: Item): Text
    decreases i
  {
    GapText(i.before) + (Spell(i.value) + GapText(i.behind))
  }

  function SpellFields(fields: seq<Field>, tail: Option<Gap>): Text
    decreases fields
  {
    if fields == [] then (if tail.Some? then GapText(tail.value) else []) + [0x7D]
    else
      SpellField(fields[0])
      + if |fields| == 1 && tail.None? then [0x7D] else [0x2C] + SpellFields(fields[1..], tail)
  }

  function SpellField(f: Field): Text
    decreases f
  {
    GapText(f.before) + ([0x22] + (CharsText(f.key) + ([0x22] + (GapText(f.afterKey) + ([0x3A]
      + (GapText(f.afterColon) + (Spell(f.value) + GapText(f.behind))))))))
  }

  function Meaning(v: Spelling): Tree
    decreases v
  {
    match v
    case SNull => Null
    case STrue => Bool(true)
    case SFalse => Bool(false)
    case SNumber(x) => NumberMeant(x)
    case SString(cs) => Str(CharsMeant(cs))
    case SList(items, _) => List(ItemsMeaning(items))
    case SObject(members, _) => Object(FieldsMeaning(members, []))
  }

  function ItemsMeaning(items: seq<Item>): seq<Tree>
    decreases items
  {
    if items == [] then [] else [ItemMeaning(items[0])] + ItemsMeaning(items[1..])
  }

  function ItemMeaning(i: Item): Tree
    decreases i
  {
    Meaning(i.value)
  }

  function FieldMeaning(f: Field): Member
    decreases f
  {
    Member(CharsMeant(f.key), Meaning(f.value))
  }

  /** Fields are put into the map one by one: a repeated key keeps its place and takes
      the new value. */
  function FieldsMeaning(fields: seq<Field>, m: seq<Member>): seq<Member>
    decreases fields
  {
    if fields == [] then m
    else
      var f := FieldMeaning(fields[0]);
      FieldsMeaning(fields[1..], Put(m, f.key, f.value))
  }

  /** The text spells the value, with gaps around it. */
  ghost predicate Denotes(text: Text, value: Tree) {
    exists before, v, behind, tail :: Spells(text, before, v, behind, tail) && Meaning(v) == value
  }

  predicate Spells(text: Text, before: Gap, v: Spelling, behind: Gap, tail: Tail) {
    && GapOk(before) && SpellOk(v, 128) && GapOk(behind) && TailOk(tail)
    && text == GapText(before) + (Spell(v) + (GapText(behind) + TailText(tail)))
  }
}
