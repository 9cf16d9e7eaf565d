/** The values and the text format of the jar's JSON reader and writer
    (Json.java). Text is UTF-16 code units, lone surrogates included. */
module Json {
  import opened Prelude

  type Unit = x: int | 0 <= x < 0x1_0000
  type Text = seq<Unit>

  /** A Java long. */
  type Int64 = x: int | -0x8000_0000_0000_0000 <= x < 0x8000_0000_0000_0000

  /** An object keeps its members in insertion order, as LinkedHashMap does. A
      double is left as the text that Double.parseDouble reads. */
  datatype Tree =
    | Null
    | Bool(b: bool)
    | Long(n: Int64)
    | Double(text: Text)
    | Str(s: Text)
    | List(items: seq<Tree>)
    | Object(members: seq<Member>)

  datatype Member = Member(key: Text, value: Tree)

  datatype Error =
    | TrailingData | UnexpectedEnd | UnexpectedCharacter | NestingTooDeep
    | UnterminatedObject | ExpectedKey | ExpectedColon | ExpectedCommaOrBrace
    | UnterminatedArray | ExpectedCommaOrBracket
    | UnterminatedString | UnterminatedEscape | BadUnicodeEscape | BadNumber

  const MAX_DEPTH := 128

  // Units that the format gives a meaning to.
  const TAB: Unit := 0x09
  const NEWLINE: Unit := 0x0A
  const RETURN: Unit := 0x0D
  const SPACE: Unit := 0x20
  const QUOTE: Unit := 0x22
  const STAR: Unit := 0x2A
  const PLUS: Unit := 0x2B
  const COMMA: Unit := 0x2C
  const MINUS: Unit := 0x2D
  const DOT: Unit := 0x2E
  const SLASH: Unit := 0x2F
  const ZERO: Unit := 0x30
  const COLON: Unit := 0x3A
  const BACKSLASH: Unit := 0x5C
  const OPEN_BRACKET: Unit := 0x5B
  const CLOSE_BRACKET: Unit := 0x5D
  const OPEN_BRACE: Unit := 0x7B
  const CLOSE_BRACE: Unit := 0x7D
  const BOM: Unit := 0xFEFF
  const TRUE: Text := [0x74, 0x72, 0x75, 0x65]
  const FALSE: Text := [0x66, 0x61, 0x6C, 0x73, 0x65]
  const NULL: Text := [0x6E, 0x75, 0x6C, 0x6C]

  // ------------------------------------------------------------------- writer

  function HexDigit(d: nat): Unit
    requires d < 16
  {
    if d < 10 then ZERO + d else 0x61 + (d - 10)
  }

  /** One unit of a string as the writer puts it. */
  function Escaped(c: Unit): Text {
    if c == QUOTE then [BACKSLASH, QUOTE]
    else if c == BACKSLASH then [BACKSLASH, BACKSLASH]
    else if c == NEWLINE then [BACKSLASH, 0x6E]
    else if c == RETURN then [BACKSLASH, 0x72]
    else if c == TAB then [BACKSLASH, 0x74]
    else if c < 0x20 then [BACKSLASH, 0x75, ZERO, ZERO, HexDigit(c / 16), HexDigit(c % 16)]
    else [c]
  }

  function EscapedAll(s: Text): Text {
    if s == [] then [] else Escaped(s[0]) + EscapedAll(s[1..])
  }

  function Quoted(s: Text): Text {
    [QUOTE] + EscapedAll(s) + [QUOTE]
  }

  function Decimal(n: nat): (t: Text)
    ensures t != [] && forall k :: 0 <= k < |t| ==> ZERO <= t[k] < ZERO + 10
  {
    if n < 10 then [ZERO + n] else Decimal(n / 10) + [ZERO + n % 10]
  }

  /** Long.toString */
  function WrittenLong(n: Int64): Text {
    var m: int := n;
    if m < 0 then [MINUS] + Decimal(-m) else Decimal(m)
  }

  function Written(v: Tree): Text
    decreases v
  {
    match v
    case Null => NULL
    case Bool(b) => if b then TRUE else FALSE
    case Long(n) => WrittenLong(n)
    case Double(text) => text
    case Str(s) => Quoted(s)
    case List(items) => [OPEN_BRACKET] + WrittenItems(items) + [CLOSE_BRACKET]
    case Object(members) => [OPEN_BRACE] + WrittenMembers(members) + [CLOSE_BRACE]
  }

  function WrittenItems(items: seq<Tree>): Text
    decreases items
  {
    if items == [] then [] else Written(items[0]) + MoreItems(items[1..])
  }

  /** The items after the first. */
  function MoreItems(items: seq<Tree>): Text
    decreases items
  {
    if items == [] then [] else [COMMA] + (Written(items[0]) + MoreItems(items[1..]))
  }

  function WrittenMember(m: Member): Text
    decreases m
  {
    Quoted(m.key) + ([COLON] + Written(m.value))
  }

  function WrittenMembers(members: seq<Member>): Text
    decreases members
  {
    if members == [] then [] else WrittenMember(members[0]) + MoreMembers(members[1..])
  }

  function MoreMembers(members: seq<Member>): Text
    decreases members
  {
    if members == [] then [] else [COMMA] + (WrittenMember(members[0]) + MoreMembers(members[1..]))
  }

  // ------------------------------------------------------------------- reader

  /** What a part of the reader made of a text: a value and what is left. */
  datatype Parsed<+T> = Got(value: T, rest: Text) | Fail(error: Error)

  predicate IsSpace(c: Unit) {
    c == SPACE || c == TAB || c == NEWLINE || c == RETURN || c == BOM
  }

  predicate StartsWith(s: Text, word: Text) {
    word <= s
  }

  function LineEnd(s: Text): (r: Text)
    ensures |r| <= |s| && (s != [] && s[0] != NEWLINE ==> |r| < |s|)
  {
    if s == [] || s[0] == NEWLINE then s else LineEnd(s[1..])
  }

  function CommentEnd(s: Text): (r: Text)
    ensures |r| <= |s|
  {
    if |s| < 2 then []
    else if s[0] == STAR && s[1] == SLASH then s[2..]
    else CommentEnd(s[1..])
  }

  function SkipSpace(s: Text): (r: Text)
    ensures |r| <= |s|
    decreases |s|
  {
    if s == [] then s
    else if IsSpace(s[0]) then SkipSpace(s[1..])
    else if StartsWith(s, [SLASH, SLASH]) then SkipSpace(LineEnd(s))
    else if StartsWith(s, [SLASH, STAR]) then SkipSpace(CommentEnd(s[2..]))
    else s
  }

  function ReadLiteral(s: Text, word: Text, v: Tree): Parsed<Tree> {
    if StartsWith(s, word) then Got(v, s[|word|..]) else Fail(UnexpectedCharacter)
  }

  function DigitValue(c: Unit): Option<nat> {
    if ZERO <= c < ZERO + 10 then Some(c - ZERO)
    else if 0x61 <= c < 0x67 then Some(c - 0x61 + 10)
    else if 0x41 <= c < 0x47 then Some(c - 0x41 + 10)
    else None
  }

  /** The digits of a number in the given base, most significant first. */
  function Digits(t: Text, base: nat): Option<nat> {
    if t == [] then Some(0)
    else
      var high, d := Digits(t[..|t| - 1], base), DigitValue(t[|t| - 1]);
      if high.None? || d.None? || d.value >= base then None else Some(high.value * base + d.value)
  }

  /** A number with an optional sign: Integer.parseInt and Long.parseLong before
      they look at the range. */
  function Signed(t: Text, base: nat): Option<int> {
    if t == [] then None
    else if t[0] == MINUS || t[0] == PLUS then
      var d := Digits(t[1..], base);
      if |t| == 1 || d.None? then None
      else
        var n: int := d.value;
        Some(if t[0] == MINUS then -n else n)
    else Digits(t, base)
  }

  /** The unit that follows a backslash, other than u. */
  function Unescaped(e: Unit): Unit {
    if e == 0x6E then NEWLINE
    else if e == 0x74 then TAB
    else if e == 0x72 then RETURN
    else if e == 0x62 then 0x08
    else if e == 0x66 then 0x0C
    else e
  }

  /** The rest of a string, after `b` of it. */
  function ReadString(s: Text, b: Text): (r: Parsed<Text>)
    ensures r.Got? ==> |r.rest| < |s|
    decreases |s|
  {
    if s == [] then Fail(UnterminatedString)
    else if s[0] == QUOTE then Got(b, s[1..])
    else if s[0] != BACKSLASH then ReadString(s[1..], b + [s[0]])
    else if |s| == 1 then Fail(UnterminatedEscape)
    else if s[1] != 0x75 then ReadString(s[2..], b + [Unescaped(s[1])])
    else if |s| < 6 || Signed(s[2..6], 16).None? then Fail(BadUnicodeEscape)
    else ReadString(s[6..], b + [Signed(s[2..6], 16).value % 0x1_0000])
  }

  predicate NumberUnit(c: Unit) {
    c == PLUS || c == MINUS || ZERO <= c < ZERO + 10 || c == DOT || c == 0x65 || c == 0x45
  }

  function NumberLen(s: Text): (k: nat)
    ensures k <= |s|
  {
    if s == [] || !NumberUnit(s[0]) then 0 else 1 + NumberLen(s[1..])
  }

  function DigitCount(s: Text): (k: nat)
    ensures k <= |s|
  {
    if s == [] || !(ZERO <= s[0] < ZERO + 10) then 0 else 1 + DigitCount(s[1..])
  }

  function DropSign(s: Text): Text {
    if s != [] && (s[0] == PLUS || s[0] == MINUS) then s[1..] else s
  }

  /** Double.parseDouble accepts the text, which has only number units. */
  predicate IsDouble(t: Text) {
    var s := DropSign(t);
    var whole := DigitCount(s);
    var afterWhole := s[whole..];
    var point := afterWhole != [] && afterWhole[0] == DOT;
    var fraction := if point then DigitCount(afterWhole[1..]) else 0;
    var exponent := if point then afterWhole[1..][fraction..] else afterWhole;
    && whole + fraction > 0
    && (exponent == [] ||
          (&& (exponent[0] == 0x65 || exponent[0] == 0x45)
           && var e := DropSign(exponent[1..]);
              e != [] && DigitCount(e) == |e|))
  }

  function ParseNumber(t: Text): Result<Tree, Error> {
    var n := Signed(t, 10);
    if n.Some? && -0x8000_0000_0000_0000 <= n.value < 0x8000_0000_0000_0000 then Ok(Long(n.value))
    else if IsDouble(t) then Ok(Double(t))
    else Err(BadNumber)
  }

  function ReadNumber(s: Text): (r: Parsed<Tree>)
    ensures r.Got? ==> |r.rest| < |s| && (r.value.Long? || r.value.Double?)
  {
    var k := NumberLen(s);
    if k == 0 then Fail(UnexpectedCharacter)
    else
      var v := ParseNumber(s[..k]);
      if v.Err? then Fail(v.error) else Got(v.value, s[k..])
  }

  /** LinkedHashMap.put: a key that is there keeps its place. */
  function Put(m: seq<Member>, key: Text, value: Tree): seq<Member> {
    if m == [] then [Member(key, value)]
    else if m[0].key == key then [Member(key, value)] + m[1..]
    else [m[0]] + Put(m[1..], key, value)
  }

  function ReadValue(s: Text, depth: nat): (r: Parsed<Tree>)
    ensures r.Got? ==> |r.rest| < |s|
    decreases |s|, 2
  {
    if s == [] then Fail(UnexpectedEnd)
    else if s[0] == OPEN_BRACE then ReadObject(s, depth)
    else if s[0] == OPEN_BRACKET then ReadList(s, depth)
    else if s[0] == QUOTE then
      var text := ReadString(s[1..], []);
      if text.Fail? then Fail(text.error) else Got(Str(text.value), text.rest)
    else if s[0] == TRUE[0] then ReadLiteral(s, TRUE, Bool(true))
    else if s[0] == FALSE[0] then ReadLiteral(s, FALSE, Bool(false))
    else if s[0] == NULL[0] then ReadLiteral(s, NULL, Null)
    else ReadNumber(s)
  }

  function ReadObject(s: Text, depth: nat): (r: Parsed<Tree>)
    requires s != []
    ensures r.Got? ==> |r.rest| < |s|
    decreases |s|, 1
  {
    if depth + 1 > MAX_DEPTH then Fail(NestingTooDeep) else ReadMembers(s[1..], depth + 1, [])
  }

  /** What one turn of the loop of a list or an object did: more may follow, the
      end was read, or it failed. */
  datatype Turn<+T> = More(value: T, rest: Text) | Done(value: T, rest: Text) | Broken(error: Error)

  /** The rest of an object, after the members m. */
  function ReadMembers(s: Text, depth: nat, m: seq<Member>): (r: Parsed<Tree>)
    ensures r.Got? ==> |r.rest| < |s|
    decreases |s|, 4
  {
    match MembersTurn(s, depth, m)
    case More(m', rest) => ReadMembers(rest, depth, m')
    case Done(m', rest) => Got(Object(m'), rest)
    case Broken(error) => Fail(error)
  }

  function MembersTurn(s: Text, depth: nat, m: seq<Member>): (r: Turn<seq<Member>>)
    ensures !r.Broken? ==> |r.rest| < |s|
    decreases |s|, 3
  {
    var s1 := SkipSpace(s);
    if s1 == [] then Broken(UnterminatedObject)
    else if s1[0] == CLOSE_BRACE then Done(m, s1[1..])
    else
      var entry := ReadMember(s1, depth);
      if entry.Fail? then Broken(entry.error)
      else
        var s2 := SkipSpace(entry.rest);
        var m' := Put(m, entry.value.key, entry.value.value);
        if s2 != [] && s2[0] == COMMA then More(m', s2[1..])
        else if s2 != [] && s2[0] == CLOSE_BRACE then Done(m', s2[1..])
        else Broken(ExpectedCommaOrBrace)
  }

  /** A key, a colon and a value. */
  function ReadMember(s: Text, depth: nat): (r: Parsed<Member>)
    requires s != []
    ensures r.Got? ==> |r.rest| < |s|
    decreases |s|, 0
  {
    if s[0] != QUOTE then Fail(ExpectedKey)
    else
      var key := ReadString(s[1..], []);
      if key.Fail? then Fail(key.error)
      else
        var s1 := SkipSpace(key.rest);
        if s1 == [] || s1[0] != COLON then Fail(ExpectedColon)
        else
          var v := ReadValue(SkipSpace(s1[1..]), depth);
          if v.Fail? then Fail(v.error) else Got(Member(key.value, v.value), v.rest)
  }

  function ReadList(s: Text, depth: nat): (r: Parsed<Tree>)
    requires s != []
    ensures r.Got? ==> |r.rest| < |s|
    decreases |s|, 1
  {
    if depth + 1 > MAX_DEPTH then Fail(NestingTooDeep) else ReadItems(s[1..], depth + 1, [])
  }

  /** The rest of a list, after the items in `list`. */
  function ReadItems(s: Text, depth: nat, list: seq<Tree>): (r: Parsed<Tree>)
    ensures r.Got? ==> |r.rest| < |s|
    decreases |s|, 4
  {
    match ItemsTurn(s, depth, list)
    case More(list', rest) => ReadItems(rest, depth, list')
    case Done(list', rest) => Got(List(list'), rest)
    case Broken(error) => Fail(error)
  }

  function ItemsTurn(s: Text, depth: nat, list: seq<Tree>): (r: Turn<seq<Tree>>)
    ensures !r.Broken? ==> |r.rest| < |s|
    decreases |s|, 3
  {
    var s1 := SkipSpace(s);
    if s1 == [] then Broken(UnterminatedArray)
    else if s1[0] == CLOSE_BRACKET then Done(list, s1[1..])
    else
      var v := ReadValue(s1, depth);
      if v.Fail? then Broken(v.error)
      else
        var s2 := SkipSpace(v.rest);
        if s2 != [] && s2[0] == COMMA then More(list + [v.value], s2[1..])
        else if s2 != [] && s2[0] == CLOSE_BRACKET then Done(list + [v.value], s2[1..])
        else Broken(ExpectedCommaOrBracket)
  }

  function Parse(text: Text): Result<Tree, Error> {
    var v := ReadValue(SkipSpace(text), 0);
    if v.Fail? then Err(v.error)
    else if SkipSpace(v.rest) != [] then Err(TrailingData)
    else Ok(v.value)
  }
}
