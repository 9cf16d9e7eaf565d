/** The jar's JSON reader accepts exactly the language of JsonGrammar, and gives every
    text its meaning there. */
module JsonLanguage {
  import opened Prelude
  import opened Json
  import opened JsonRoundTrip
  import opened JsonGrammar

  // ------------------------------------------------------------ gaps are skipped

  lemma {:induction false} LineEndOf(t: Text, s: Text)
    requires 0x0A !in t
    ensures LineEnd(t + ([0x0A] + s)) == [0x0A] + s
  {
    if t == [] {
      assert t + ([0x0A] + s) == [0x0A] + s;
    } else {
      LineEndOf(t[1..], s);
      assert (t + ([0x0A] + s))[1..] == t[1..] + ([0x0A] + s);
    }
  }

  lemma {:induction false} LineEndNone(t: Text)
    requires 0x0A !in t
    ensures LineEnd(t) == []
  {
    if t != [] { LineEndNone(t[1..]); }
  }

  lemma {:induction false} CommentEndOf(body: Text, s: Text)
    requires NoEnd(body + [0x2A, 0x2F], |body|)
    ensures CommentEnd(body + ([0x2A, 0x2F] + s)) == s
  {
    var t := body + ([0x2A, 0x2F] + s);
    if body == [] {
      assert t[2..] == s;
    } else {
      var b := body + [0x2A, 0x2F];
      assert b[0] == t[0] && b[1] == t[1];
      assert body[1..] + [0x2A, 0x2F] == b[1..];
      CommentEndOf(body[1..], s);
      assert t[1..] == body[1..] + ([0x2A, 0x2F] + s);
    }
  }

  lemma {:induction false} CommentEndNone(body: Text)
    requires NoEnd(body, |body|)
    ensures CommentEnd(body) == []
  {
    if |body| >= 2 {
      assert !(body[0] == 0x2A && body[1] == 0x2F);
      CommentEndNone(body[1..]);
    }
  }

  lemma LineStep(s: Text)
    requires |s| >= 2 && s[0] == 0x2F && s[1] == 0x2F
    ensures SkipSpace(s) == SkipSpace(LineEnd(s))
  {
    assert StartsWith(s, [SLASH, SLASH]);
  }

  lemma BlockStep(s: Text)
    requires |s| >= 2 && s[0] == 0x2F && s[1] == 0x2A
    ensures SkipSpace(s) == SkipSpace(CommentEnd(s[2..]))
  {
    var lines: Text := [SLASH, SLASH];
    assert lines[1] != s[1];
    assert StartsWith(s, [SLASH, STAR]);
  }

  lemma BlankStep(c: Unit, s: Text)
    requires c in {0x20, 0x09, 0x0A, 0x0D, 0xFEFF}
    ensures SkipSpace([c] + s) == SkipSpace(s)
  {
    assert ([c] + s)[1..] == s;
  }

  lemma LineSkipped(body: Text, s: Text)
    requires 0x0A !in body
    ensures SkipSpace([0x2F, 0x2F] + body + ([0x0A] + s)) == SkipSpace(s)
  {
    var u := [0x2F, 0x2F] + body;
    LineStep(u + ([0x0A] + s));
    LineEndOf(u, s);
    BlankStep(0x0A, s);
  }

  lemma BlockSkipped(body: Text, s: Text)
    requires NoEnd(body + [0x2A, 0x2F], |body|)
    ensures SkipSpace([0x2F, 0x2A] + (body + ([0x2A, 0x2F] + s))) == SkipSpace(s)
  {
    var t := [0x2F, 0x2A] + (body + ([0x2A, 0x2F] + s));
    BlockStep(t);
    assert t[2..] == body + ([0x2A, 0x2F] + s);
    CommentEndOf(body, s);
  }

  lemma PieceSkipped(p: Piece, s: Text)
    requires PieceOk(p)
    ensures SkipSpace(PieceText(p) + s) == SkipSpace(s)
  {
    match p
    case Blank(c) => BlankStep(c, s);
    case Line(body) =>
      LineSkipped(body, s);
      AllAround([0x2F, 0x2F], body, [0x0A], s);
    case Block(body) =>
      BlockSkipped(body, s);
      AllAround([0x2F, 0x2A], body, [0x2A, 0x2F], s);
  }

  lemma AllAround(a: Text, b: Text, c: Text, s: Text)
    ensures a + (b + c) + s == a + b + (c + s) == a + (b + (c + s))
  {
  }

  lemma {:induction false} GapSkipped(g: Gap, s: Text)
    requires GapOk(g)
    ensures SkipSpace(GapText(g) + s) == SkipSpace(s)
  {
    if g == [] {
      assert GapText(g) + s == s;
    } else {
      Assoc(PieceText(g[0]), GapText(g[1..]), s);
      PieceSkipped(g[0], GapText(g[1..]) + s);
      GapSkipped(g[1..], s);
    }
  }

  lemma TailSkipped(t: Tail)
    requires TailOk(t)
    ensures SkipSpace(TailText(t)) == []
  {
    var s := TailText(t);
    match t
    case Closed =>
    case OpenLine(body) =>
      LineStep(s);
      LineEndNone(s);
    case OpenBlock(body) =>
      BlockStep(s);
      CommentEndNone(body);
      assert s[2..] == body;
  }

  lemma GapEnds(g: Gap, s: Text)
    requires GapOk(g) && Ends(s)
    ensures Ends(GapText(g) + s)
  {
    if g != [] {
      assert (GapText(g) + s)[0] == PieceText(g[0])[0];
    } else {
      assert GapText(g) + s == s;
    }
  }

  lemma TailEnds(t: Tail)
    ensures Ends(TailText(t))
  {
  }

  /** A gap in front of a text changes nothing, errors included. */
  lemma LeadingGap(g: Gap, text: Text)
    requires GapOk(g)
    ensures Parse(GapText(g) + text) == Parse(text)
  {
    GapSkipped(g, text);
  }

  // ------------------------------------------------------------ strings are read

  lemma DigitReads(x: Digit)
    ensures DigitValue(DigitText(x)) == Some(x.d as nat)
  {
  }

  lemma {:induction false} DigitsRead(ds: seq<Digit>, base: nat)
    requires DigitsOk(ds, base)
    ensures Digits(DigitsText(ds), base) == Some(NumberOf(ds, base))
  {
    var t := DigitsText(ds);
    if ds != [] {
      DigitsRead(ds[..|ds| - 1], base);
      assert t[..|t| - 1] == DigitsText(ds[..|ds| - 1]);
      DigitReads(ds[|ds| - 1]);
    }
  }

  lemma HexReads4(ds: seq<Digit>)
    requires |ds| == 4
    ensures Signed(DigitsText(ds), 16) == Some(NumberOf(ds, 16) as int)
  {
    DigitsRead(ds, 16);
  }

  lemma SignedReads(minus: bool, ds: seq<Digit>, base: nat)
    requires ds != [] && DigitsOk(ds, base)
    ensures
      Signed([if minus then 0x2D else 0x2B] + DigitsText(ds), base)
      == Some(if minus then -(NumberOf(ds, base) as int) else NumberOf(ds, base))
  {
    var t := [if minus then 0x2D else 0x2B] + DigitsText(ds);
    DigitsRead(ds, base);
    assert t[1..] == DigitsText(ds);
  }

  lemma NumberStepReads(s: Text, code: int, b: Text)
    requires |s| >= 6 && s[0] == 0x5C && s[1] == 0x75 && Signed(s[2..6], 16) == Some(code)
    ensures ReadString(s, b) == ReadString(s[6..], b + [code % 0x1_0000])
  {
  }

  lemma CharReads(x: Char, s: Text, b: Text)
    requires CharOk(x)
    ensures ReadString(CharText(x) + s, b) == ReadString(s, b + [CharMeant(x)])
  {
    var t := CharText(x) + s;
    match x
    case Raw(c) => assert t[1..] == s;
    case Short(e) => assert t[2..] == s;
    case Hex(ds) =>
      assert t[2..6] == DigitsText(ds) && t[6..] == s;
      HexReads4(ds);
      NumberStepReads(t, NumberOf(ds, 16), b);
    case SignedHex(minus, ds) =>
      var n: int := if minus then -(NumberOf(ds, 16) as int) else NumberOf(ds, 16);
      assert t[2..6] == [if minus then 0x2D else 0x2B] + DigitsText(ds) && t[6..] == s;
      SignedReads(minus, ds, 16);
      NumberStepReads(t, n, b);
      NegativeWraps(NumberOf(ds, 16));
  }

  lemma NegativeWraps(n: nat)
    ensures -(n as int) % 0x1_0000 == (0x1_0000 - n) % 0x1_0000
  {
  }

  lemma {:induction false} CharsRead(cs: seq<Char>, rest: Text, b: Text)
    requires CharsOk(cs)
    ensures ReadString(CharsText(cs) + ([0x22] + rest), b) == Got(b + CharsMeant(cs), rest)
    decreases |cs|
  {
    var end := [0x22] + rest;
    if cs == [] {
      assert CharsText(cs) + end == end && end[1..] == rest && b + CharsMeant(cs) == b;
    } else {
      Assoc(CharText(cs[0]), CharsText(cs[1..]), end);
      CharReads(cs[0], CharsText(cs[1..]) + end, b);
      CharsRead(cs[1..], rest, b + [CharMeant(cs[0])]);
      Assoc(b, [CharMeant(cs[0])], CharsMeant(cs[1..]));
    }
  }

  // ------------------------------------------------------------ numbers are read

  lemma {:induction false} OnlyDigits(t: Text, k: nat)
    requires k < |t| && (DigitValue(t[k]).None? || DigitValue(t[k]).value >= 10)
    ensures Digits(t, 10) == None
    decreases |t|
  {
    if k < |t| - 1 { OnlyDigits(t[..|t| - 1], k); }
  }

  lemma {:induction false} DigitCountOf(ds: seq<Digit>, s: Text)
    requires DigitsOk(ds, 10) && (s == [] || !(0x30 <= s[0] <= 0x39))
    ensures DigitCount(DigitsText(ds) + s) == |ds|
    decreases |ds|
  {
    var t := DigitsText(ds) + s;
    if ds == [] {
      assert t == s;
    } else {
      DigitCountOf(ds[1..], s);
      assert t[1..] == DigitsText(ds[1..]) + s;
    }
  }

  lemma SignDrops(sign: Sign, s: Text)
    requires s != [] && s[0] != 0x2B && s[0] != 0x2D
    ensures DropSign(SignText(sign) + s) == s
  {
    if sign.NoSign? {
      assert SignText(sign) + s == s;
    } else {
      assert (SignText(sign) + s)[1..] == s;
    }
  }

  lemma ExponentReads(e: Exponent)
    requires e.e in {0x45, 0x65} && e.ds != [] && DigitsOk(e.ds, 10)
    ensures
      var t := ExponentText(Some(e));
      && t != [] && (t[0] == 0x65 || t[0] == 0x45)
      && var d := DropSign(t[1..]); d != [] && DigitCount(d) == |d|
  {
    var t := ExponentText(Some(e));
    assert t[1..] == SignText(e.sign) + DigitsText(e.ds);
    SignDrops(e.sign, DigitsText(e.ds));
    DigitCountOf(e.ds, []);
    assert DigitsText(e.ds) + [] == DigitsText(e.ds);
  }

  /** parseDouble's text, part by part. */
  lemma DoubleFromParts(t: Text, whole: nat, afterWhole: Text, fraction: nat, exponent: Text)
    requires DigitCount(DropSign(t)) == whole && DropSign(t)[whole..] == afterWhole
    requires
      if afterWhole != [] && afterWhole[0] == DOT
      then DigitCount(afterWhole[1..]) == fraction && afterWhole[1..][fraction..] == exponent
      else fraction == 0 && afterWhole == exponent
    requires whole + fraction > 0
    requires exponent == [] || exponent[0] == 0x65 || exponent[0] == 0x45
    requires
      exponent != [] ==>
        var d := DropSign(exponent[1..]); d != [] && DigitCount(d) == |d|
    ensures IsDouble(t)
  {
  }

  lemma NumberIsDouble(x: Number)
    requires NumberOk(x)
    ensures IsDouble(NumberText(x))
  {
    var exponent := ExponentText(x.exponent);
    var afterWhole := FractionText(x.fraction) + exponent;
    var s := DigitsText(x.whole) + afterWhole;
    var n := if x.fraction.Some? then |x.fraction.value| else 0;
    if x.exponent.Some? { ExponentReads(x.exponent.value); }
    if x.fraction.Some? {
      Assoc([0x2E], DigitsText(x.fraction.value), exponent);
      AfterFirst(0x2E, DigitsText(x.fraction.value) + exponent);
      DigitCountOf(x.fraction.value, exponent);
      assert afterWhole[1..][n..] == exponent;
    } else {
      assert afterWhole == exponent;
    }
    DigitCountOf(x.whole, afterWhole);
    assert s[|x.whole|..] == afterWhole;
    HeadIsNoSign(x, s);
    SignDrops(x.sign, s);
    DoubleFromParts(NumberText(x), |x.whole|, afterWhole, n, exponent);
  }

  lemma HeadIsNoSign(x: Number, s: Text)
    requires NumberOk(x) && s == DigitsText(x.whole) + (FractionText(x.fraction) + ExponentText(x.exponent))
    ensures s != [] && s[0] != 0x2B && s[0] != 0x2D
  {
  }

  predicate Integral(x: Number) {
    x.fraction.None? && x.exponent.None?
  }

  lemma IntegralReads(x: Number)
    requires NumberOk(x) && Integral(x)
    ensures
      Signed(NumberText(x), 10)
      == Some(if x.sign.Minus? then -(NumberOf(x.whole, 10) as int) else NumberOf(x.whole, 10))
  {
    assert DigitsText(x.whole) + ([] + []) == DigitsText(x.whole);
    if x.sign.NoSign? {
      assert NumberText(x) == DigitsText(x.whole);
      DigitsRead(x.whole, 10);
    } else {
      SignedReads(x.sign.Minus?, x.whole, 10);
    }
  }

  lemma UnitAt(d: Text, r: Text)
    requires r != []
    ensures (d + r)[|d|] == r[0]
  {
  }

  lemma SignedNone(sign: Sign, s: Text)
    requires s != [] && s[0] != 0x2B && s[0] != 0x2D && Digits(s, 10) == None
    ensures Signed(SignText(sign) + s, 10) == None
  {
    if sign.NoSign? {
      assert SignText(sign) + s == s;
    } else {
      assert (SignText(sign) + s)[1..] == s;
    }
  }

  lemma BehindDigits(x: Number)
    requires NumberOk(x) && !Integral(x)
    ensures
      var r := FractionText(x.fraction) + ExponentText(x.exponent);
      r != [] && (r[0] == 0x2E || r[0] == 0x45 || r[0] == 0x65)
  {
  }

  lemma OthersAreNotIntegral(x: Number)
    requires NumberOk(x) && !Integral(x)
    ensures Signed(NumberText(x), 10) == None
  {
    var d, r := DigitsText(x.whole), FractionText(x.fraction) + ExponentText(x.exponent);
    BehindDigits(x);
    UnitAt(d, r);
    OnlyDigits(d + r, |d|);
    HeadIsNoSign(x, d + r);
    SignedNone(x.sign, d + r);
  }

  lemma ParsesAsInteger(t: Text, n: int)
    requires IsDouble(t) && Signed(t, 10) == Some(n)
    ensures
      ParseNumber(t) == Ok(if -0x8000_0000_0000_0000 <= n < 0x8000_0000_0000_0000 then Long(n) else Double(t))
  {
  }

  lemma ParsesAsDouble(t: Text)
    requires IsDouble(t) && Signed(t, 10) == None
    ensures ParseNumber(t) == Ok(Double(t))
  {
  }

  lemma IntegralParses(x: Number)
    requires NumberOk(x) && Integral(x)
    ensures ParseNumber(NumberText(x)) == Ok(NumberMeant(x))
  {
    var n: int := if x.sign.Minus? then -(NumberOf(x.whole, 10) as int) else NumberOf(x.whole, 10);
    NumberIsDouble(x);
    IntegralReads(x);
    ParsesAsInteger(NumberText(x), n);
  }

  lemma NumberParses(x: Number)
    requires NumberOk(x)
    ensures ParseNumber(NumberText(x)) == Ok(NumberMeant(x))
  {
    if Integral(x) {
      IntegralParses(x);
    } else {
      NumberIsDouble(x);
      OthersAreNotIntegral(x);
      ParsesAsDouble(NumberText(x));
    }
  }

  lemma DigitsAreUnits(ds: seq<Digit>)
    requires DigitsOk(ds, 10)
    ensures forall k :: 0 <= k < |DigitsText(ds)| ==> NumberUnit(DigitsText(ds)[k])
  {
  }

  lemma NumberUnits(x: Number)
    requires NumberOk(x)
    ensures NumberText(x) != [] && forall k :: 0 <= k < |NumberText(x)| ==> NumberUnit(NumberText(x)[k])
  {
    DigitsAreUnits(x.whole);
    if x.fraction.Some? { DigitsAreUnits(x.fraction.value); }
    if x.exponent.Some? { DigitsAreUnits(x.exponent.value.ds); }
  }

  lemma NumberReads(x: Number, depth: nat, rest: Text)
    requires NumberOk(x) && Ends(rest)
    ensures ReadValue(NumberText(x) + rest, depth) == Got(NumberMeant(x), rest)
  {
    var t := NumberText(x);
    NumberUnits(x);
    NumberParses(x);
    NumberLenAtEnd(t, rest);
    assert (t + rest)[..|t|] == t && (t + rest)[|t|..] == rest;
    NumberStep(t + rest, depth);
  }

  // ------------------------------------------------------------ values are read

  lemma SpellHead(v: Spelling, room: int)
    requires SpellOk(v, room)
    ensures Spell(v) != [] && Solid(Spell(v)[0]) && Spell(v)[0] != CLOSE_BRACKET
  {
    if v.SNumber? { NumberUnits(v.x); }
  }

  lemma StringSpelled(cs: seq<Char>, rest: Text)
    requires CharsOk(cs)
    ensures
      var t := [0x22] + (CharsText(cs) + [0x22]) + rest;
      t[0] == QUOTE && ReadString(t[1..], []) == Got(CharsMeant(cs), rest)
  {
    assert ([0x22] + (CharsText(cs) + [0x22]) + rest)[1..] == CharsText(cs) + ([0x22] + rest);
    CharsRead(cs, rest, []);
    assert [] + CharsMeant(cs) == CharsMeant(cs);
  }

  // One turn of each loop, whatever gaps are in it.

  lemma ItemsTo(s: Text, depth: nat, list: seq<Tree>, s1: Text, v: Tree, x: Text, more: Text)
    requires SkipSpace(s) == s1 && s1 != [] && s1[0] != CLOSE_BRACKET
    requires ReadValue(s1, depth) == Got(v, x) && SkipSpace(x) == more && more != []
    ensures more[0] == COMMA ==> ReadItems(s, depth, list) == ReadItems(more[1..], depth, list + [v])
    ensures more[0] == CLOSE_BRACKET ==> ReadItems(s, depth, list) == Got(List(list + [v]), more[1..])
  {
  }

  lemma ItemsOver(s: Text, depth: nat, list: seq<Tree>, rest: Text)
    requires SkipSpace(s) == [CLOSE_BRACKET] + rest
    ensures ReadItems(s, depth, list) == Got(List(list), rest)
  {
    assert ([CLOSE_BRACKET] + rest)[1..] == rest;
  }

  lemma MembersTo(s: Text, depth: nat, m: seq<Member>, s1: Text, entry: Member, x: Text, more: Text)
    requires SkipSpace(s) == s1 && s1 != [] && s1[0] == QUOTE
    requires ReadMember(s1, depth) == Got(entry, x) && SkipSpace(x) == more && more != []
    ensures
      var m' := Put(m, entry.key, entry.value);
      && (more[0] == COMMA ==> ReadMembers(s, depth, m) == ReadMembers(more[1..], depth, m'))
      && (more[0] == CLOSE_BRACE ==> ReadMembers(s, depth, m) == Got(Object(m'), more[1..]))
  {
  }

  lemma MembersOver(s: Text, depth: nat, m: seq<Member>, rest: Text)
    requires SkipSpace(s) == [CLOSE_BRACE] + rest
    ensures ReadMembers(s, depth, m) == Got(Object(m), rest)
  {
    assert ([CLOSE_BRACE] + rest)[1..] == rest;
  }

  lemma MemberTo(s: Text, depth: nat, key: Text, afterKey: Text, afterColon: Text, value: Text, v: Tree, rest: Text)
    requires s != [] && s[0] == QUOTE && ReadString(s[1..], []) == Got(key, afterKey)
    requires SkipSpace(afterKey) == [COLON] + afterColon && SkipSpace(afterColon) == value
    requires ReadValue(value, depth) == Got(v, rest)
    ensures ReadMember(s, depth) == Got(Member(key, v), rest)
  {
    assert ([COLON] + afterColon)[1..] == afterColon;
  }

  /** A mark behind a gap. */
  lemma MarkBehind(g: Gap, mark: Unit, s: Text)
    requires GapOk(g) && Solid(mark) && !NumberUnit(mark)
    ensures SkipSpace(GapText(g) + ([mark] + s)) == [mark] + s
    ensures Ends(GapText(g) + ([mark] + s))
  {
    GapSkipped(g, [mark] + s);
    NoSpace([mark] + s);
    GapEnds(g, [mark] + s);
  }

  lemma ValueBehind(g: Gap, v: Spelling, room: int, s: Text)
    requires GapOk(g) && SpellOk(v, room)
    ensures SkipSpace(GapText(g) + (Spell(v) + s)) == Spell(v) + s
  {
    SpellHead(v, room);
    GapSkipped(g, Spell(v) + s);
    NoSpace(Spell(v) + s);
  }

  function TailGap(tail: Option<Gap>): Gap {
    if tail.Some? then tail.value else []
  }

  lemma ItemText(i: Item, more: Text)
    ensures SpellItem(i) + more == GapText(i.before) + (Spell(i.value) + (GapText(i.behind) + more))
  {
  }

  lemma QuoteStep(s: Text, depth: nat, t: Text, rest: Text)
    requires s != [] && s[0] == QUOTE && ReadString(s[1..], []) == Got(t, rest)
    ensures ReadValue(s, depth) == Got(Str(t), rest)
  {
  }

  lemma ScalarSpelled(v: Spelling, depth: nat, rest: Text)
    requires !v.SList? && !v.SObject? && SpellOk(v, MAX_DEPTH - depth) && (v.SNumber? ==> Ends(rest))
    ensures ReadValue(Spell(v) + rest, depth) == Got(Meaning(v), rest)
  {
    match v
    case SNull => LiteralStep(Null, depth, rest);
    case STrue => LiteralStep(Bool(true), depth, rest);
    case SFalse => LiteralStep(Bool(false), depth, rest);
    case SNumber(x) => NumberReads(x, depth, rest);
    case SString(cs) =>
      StringSpelled(cs, rest);
      QuoteStep(Spell(v) + rest, depth, CharsMeant(cs), rest);
  }

  /** Everything that spells a value is read as what it means. */
  lemma {:induction false} SpelledReads(v: Spelling, depth: nat, rest: Text)
    requires SpellOk(v, MAX_DEPTH - depth) && (v.SNumber? ==> Ends(rest))
    ensures ReadValue(Spell(v) + rest, depth) == Got(Meaning(v), rest)
    decreases v
  {
    match v
    case SList(items, tail) =>
      ListSpelled(items, tail, depth, rest);
      Assoc([0x5B], SpellItems(items, tail), rest);
    case SObject(members, tail) =>
      ObjectSpelled(members, tail, depth, rest);
      Assoc([0x7B], SpellFields(members, tail), rest);
    case _ => ScalarSpelled(v, depth, rest);
  }

  lemma {:induction false} ListSpelled(items: seq<Item>, tail: Option<Gap>, depth: nat, rest: Text)
    requires depth < MAX_DEPTH && ItemsOk(items, MAX_DEPTH - (depth + 1)) && (tail.Some? ==> GapOk(tail.value))
    ensures ReadValue([0x5B] + (SpellItems(items, tail) + rest), depth) == Got(List(ItemsMeaning(items)), rest)
    decreases items, 1
  {
    ItemsSpelled(items, tail, depth + 1, [], rest);
    NothingBefore(ItemsMeaning(items));
    ListFrom(SpellItems(items, tail) + rest, depth, List(ItemsMeaning(items)), rest);
  }

  lemma ListFrom(t: Text, depth: nat, v: Tree, rest: Text)
    requires depth < MAX_DEPTH && ReadItems(t, depth + 1, []) == Got(v, rest)
    ensures ReadValue([0x5B] + t, depth) == Got(v, rest)
  {
    ListStep(t, depth);
  }

  lemma ObjectFrom(t: Text, depth: nat, v: Tree, rest: Text)
    requires depth < MAX_DEPTH && ReadMembers(t, depth + 1, []) == Got(v, rest)
    ensures ReadValue([0x7B] + t, depth) == Got(v, rest)
  {
    ObjectStep(t, depth);
  }

  lemma {:induction false} ObjectSpelled(members: seq<Field>, tail: Option<Gap>, depth: nat, rest: Text)
    requires depth < MAX_DEPTH && FieldsOk(members, MAX_DEPTH - (depth + 1)) && (tail.Some? ==> GapOk(tail.value))
    ensures
      ReadValue([0x7B] + (SpellFields(members, tail) + rest), depth) == Got(Object(FieldsMeaning(members, [])), rest)
    decreases members, 1
  {
    FieldsSpelled(members, tail, depth + 1, [], rest);
    ObjectFrom(SpellFields(members, tail) + rest, depth, Object(FieldsMeaning(members, [])), rest);
  }

  lemma {:induction false} ItemSpelled(i: Item, depth: nat, list: seq<Tree>, mark: Unit, s: Text)
    requires ItemOk(i, MAX_DEPTH - depth) && (mark == COMMA || mark == CLOSE_BRACKET)
    ensures
      ReadItems(SpellItem(i) + ([mark] + s), depth, list)
      == if mark == COMMA then ReadItems(s, depth, list + [ItemMeaning(i)]) else Got(List(list + [ItemMeaning(i)]), s)
    decreases i
  {
    var more := [mark] + s;
    var x := GapText(i.behind) + more;
    ItemText(i, more);
    ValueBehind(i.before, i.value, MAX_DEPTH - depth, x);
    SpellHead(i.value, MAX_DEPTH - depth);
    MarkBehind(i.behind, mark, s);
    SpelledReads(i.value, depth, x);
    ItemsTo(SpellItem(i) + more, depth, list, Spell(i.value) + x, Meaning(i.value), x, more);
    AfterFirst(mark, s);
  }

  lemma {:induction false} ItemsSpelled(items: seq<Item>, tail: Option<Gap>, depth: nat, list: seq<Tree>, rest: Text)
    requires ItemsOk(items, MAX_DEPTH - depth) && (tail.Some? ==> GapOk(tail.value))
    ensures ReadItems(SpellItems(items, tail) + rest, depth, list) == Got(List(list + ItemsMeaning(items)), rest)
    decreases items, 0
  {
    if items == [] {
      var g := TailGap(tail);
      Assoc(GapText(g), [CLOSE_BRACKET], rest);
      MarkBehind(g, CLOSE_BRACKET, rest);
      ItemsOver(SpellItems(items, tail) + rest, depth, list, rest);
      assert list + ItemsMeaning(items) == list;
    } else {
      var i, others := items[0], items[1..];
      Assoc(list, [ItemMeaning(i)], ItemsMeaning(others));
      if |items| == 1 && tail.None? {
        Assoc(SpellItem(i), [CLOSE_BRACKET], rest);
        ItemSpelled(i, depth, list, CLOSE_BRACKET, rest);
        assert list + [ItemMeaning(i)] + ItemsMeaning(others) == list + [ItemMeaning(i)];
      } else {
        var s := SpellItems(others, tail);
        Assoc(SpellItem(i), [COMMA] + s, rest);
        Assoc([COMMA], s, rest);
        ItemSpelled(i, depth, list, COMMA, s + rest);
        ItemsSpelled(others, tail, depth, list + [ItemMeaning(i)], rest);
      }
    }
  }

  /** The parts of a field, the first unit first. */
  lemma FieldText(f: Field, more: Text)
    ensures
      var value := Spell(f.value) + (GapText(f.behind) + more);
      var afterColon := GapText(f.afterColon) + value;
      var afterKey := GapText(f.afterKey) + ([0x3A] + afterColon);
      SpellField(f) + more == GapText(f.before) + ([0x22] + (CharsText(f.key) + [0x22]) + afterKey)
  {
    var s := Spell(f.value) + GapText(f.behind);
    Assoc(Spell(f.value), GapText(f.behind), more);
    Regrouped(GapText(f.before), CharsText(f.key), GapText(f.afterKey), GapText(f.afterColon), s, more);
  }

  lemma Regrouped(before: Text, key: Text, afterKey: Text, afterColon: Text, s: Text, more: Text)
    ensures
      before + ([0x22] + (key + ([0x22] + (afterKey + ([0x3A] + (afterColon + s)))))) + more
      == before + ([0x22] + (key + [0x22]) + (afterKey + ([0x3A] + (afterColon + (s + more)))))
  {
  }

  lemma {:induction false} FieldReads(f: Field, depth: nat, x: Text)
    requires FieldOk(f, MAX_DEPTH - depth) && Ends(x)
    ensures
      var s := [0x22] + (CharsText(f.key) + [0x22])
               + (GapText(f.afterKey) + ([0x3A] + (GapText(f.afterColon) + (Spell(f.value) + x))));
      s != [] && s[0] == QUOTE && ReadMember(s, depth) == Got(FieldMeaning(f), x)
    decreases f, 0
  {
    var value := Spell(f.value) + x;
    var afterColon := GapText(f.afterColon) + value;
    var afterKey := GapText(f.afterKey) + ([0x3A] + afterColon);
    StringSpelled(f.key, afterKey);
    MarkBehind(f.afterKey, COLON, afterColon);
    ValueBehind(f.afterColon, f.value, MAX_DEPTH - depth, x);
    SpelledReads(f.value, depth, x);
    MemberTo([0x22] + (CharsText(f.key) + [0x22]) + afterKey, depth, CharsMeant(f.key), afterKey, afterColon, value,
             Meaning(f.value), x);
  }

  lemma {:induction false} FieldSpelled(f: Field, depth: nat, m: seq<Member>, mark: Unit, s: Text)
    requires FieldOk(f, MAX_DEPTH - depth) && (mark == COMMA || mark == CLOSE_BRACE)
    ensures
      var e := FieldMeaning(f);
      var m' := Put(m, e.key, e.value);
      ReadMembers(SpellField(f) + ([mark] + s), depth, m)
      == if mark == COMMA then ReadMembers(s, depth, m') else Got(Object(m'), s)
    decreases f, 1
  {
    var more := [mark] + s;
    var x := GapText(f.behind) + more;
    var s1 := [0x22] + (CharsText(f.key) + [0x22])
              + (GapText(f.afterKey) + ([0x3A] + (GapText(f.afterColon) + (Spell(f.value) + x))));
    FieldText(f, more);
    MarkBehind(f.behind, mark, s);
    FieldReads(f, depth, x);
    GapSkipped(f.before, s1);
    NoSpace(s1);
    MembersTo(SpellField(f) + more, depth, m, s1, FieldMeaning(f), x, more);
    AfterFirst(mark, s);
  }

  lemma {:induction false} FieldsSpelled(fields: seq<Field>, tail: Option<Gap>, depth: nat, m: seq<Member>, rest: Text)
    requires FieldsOk(fields, MAX_DEPTH - depth) && (tail.Some? ==> GapOk(tail.value))
    ensures ReadMembers(SpellFields(fields, tail) + rest, depth, m) == Got(Object(FieldsMeaning(fields, m)), rest)
    decreases fields, 0
  {
    if fields == [] {
      var g := TailGap(tail);
      Assoc(GapText(g), [CLOSE_BRACE], rest);
      MarkBehind(g, CLOSE_BRACE, rest);
      MembersOver(SpellFields(fields, tail) + rest, depth, m, rest);
    } else {
      var f, others := fields[0], fields[1..];
      var e := FieldMeaning(f);
      if |fields| == 1 && tail.None? {
        Assoc(SpellField(f), [CLOSE_BRACE], rest);
        FieldSpelled(f, depth, m, CLOSE_BRACE, rest);
      } else {
        var s := SpellFields(others, tail);
        Assoc(SpellField(f), [COMMA] + s, rest);
        Assoc([COMMA], s, rest);
        FieldSpelled(f, depth, m, COMMA, s + rest);
        FieldsSpelled(others, tail, depth, Put(m, e.key, e.value), rest);
      }
    }
  }

  // ------------------------------------------------- whatever is read is spelled

  lemma {:induction false} LineEndIs(s: Text)
    ensures
      var r := LineEnd(s);
      |r| <= |s| && s[|s| - |r|..] == r && 0x0A !in s[..|s| - |r|] && (r == [] || r[0] == 0x0A)
  {
    if s != [] && s[0] != NEWLINE {
      LineEndIs(s[1..]);
      var n := |s| - |LineEnd(s)|;
      assert s[..n] == [s[0]] + s[1..][..n - 1];
    }
  }

  /** What a comment holds, if it ends. */
  lemma {:induction false} CommentEndIs(s: Text) returns (body: Option<Text>)
    ensures
      match body
      case Some(t) => NoEnd(t + [0x2A, 0x2F], |t|) && s == t + ([0x2A, 0x2F] + CommentEnd(s))
      case None => NoEnd(s, |s|) && CommentEnd(s) == []
  {
    if |s| < 2 {
      body := None;
    } else if s[0] == STAR && s[1] == SLASH {
      assert s == [] + ([0x2A, 0x2F] + s[2..]);
      body := Some([]);
    } else {
      var more := CommentEndIs(s[1..]);
      if more.None? {
        body := None;
      } else {
        var t := [s[0]] + more.value;
        var u := t + [0x2A, 0x2F];
        assert s == t + ([0x2A, 0x2F] + CommentEnd(s));
        assert u[1..] == more.value + [0x2A, 0x2F];
        assert u[1] == s[1];
        forall k | 0 <= k < |t| && k + 1 < |u| ensures !(u[k] == 0x2A && u[k + 1] == 0x2F) {
          if k > 0 { assert u[k] == u[1..][k - 1] && u[k + 1] == u[1..][k]; }
        }
        body := Some(t);
      }
    }
  }

  lemma LinePiece(s: Text, r: Text)
    requires |r| + 2 <= |s| && s[|s| - |r|..] == r && r != [] && r[0] == 0x0A
    requires s[0] == 0x2F && s[1] == 0x2F && 0x0A !in s[..|s| - |r|]
    ensures PieceOk(Line(s[2..|s| - |r|])) && s == PieceText(Line(s[2..|s| - |r|])) + r[1..]
  {
    var n := |s| - |r|;
    forall k | 0 <= k < n - 2 ensures s[2..n][k] != 0x0A { assert s[2..n][k] == s[..n][k + 2]; }
    assert r == [0x0A] + r[1..];
    InThree(s, 2, n);
    assert s[..2] == [0x2F, 0x2F];
    Around([0x2F, 0x2F], s[2..n], [0x0A], r[1..]);
  }

  lemma NewlineStep(s: Text)
    requires s != [] && s[0] == 0x0A
    ensures SkipSpace(s) == SkipSpace(s[1..])
  {
  }

  lemma InThree(s: Text, i: nat, j: nat)
    requires i <= j <= |s|
    ensures s == s[..i] + (s[i..j] + s[j..])
  {
  }

  lemma Around(a: Text, b: Text, c: Text, d: Text)
    ensures a + (b + (c + d)) == a + (b + c) + d
  {
  }

  lemma BlockPiece(s: Text, body: Text, rest: Text)
    requires |s| >= 2 && s[0] == 0x2F && s[1] == 0x2A && s[2..] == body + ([0x2A, 0x2F] + rest)
    ensures s == PieceText(Block(body)) + rest
  {
    assert s == [0x2F, 0x2A] + s[2..];
  }

  lemma Whole(s: Text)
    ensures s == [] + (s + []) && s == [] + ([] + s)
  {
  }

  /** What SkipSpace skips is a gap, and at the end of the text maybe a comment that is
      cut off. */
  lemma {:induction false} GapFor(s: Text) returns (g: Gap, t: Tail)
    ensures GapOk(g) && TailOk(t) && (SkipSpace(s) != [] ==> t.Closed?)
    ensures s == GapText(g) + (TailText(t) + SkipSpace(s))
    decreases |s|
  {
    g, t := [], Closed;
    if s == [] {
    } else if IsSpace(s[0]) {
      g, t := GapFor(s[1..]);
      g := OnePiece(Blank(s[0]), g, TailText(t) + SkipSpace(s), s);
    } else if |s| >= 2 && s[0] == 0x2F && s[1] == 0x2F {
      LineStep(s);
      LineEndIs(s);
      var r := LineEnd(s);
      var n := |s| - |r|;
      if r == [] {
        OpenTail(s);
        Whole(s);
        t := OpenLine(s[2..]);
      } else {
        LinePiece(s, r);
        NewlineStep(r);
        g, t := GapFor(r[1..]);
        g := OnePiece(Line(s[2..n]), g, TailText(t) + SkipSpace(s), s);
      }
    } else if |s| >= 2 && s[0] == 0x2F && s[1] == 0x2A {
      BlockStep(s);
      var body := CommentEndIs(s[2..]);
      if body.None? {
        OpenTail(s);
        Whole(s);
        t := OpenBlock(s[2..]);
      } else {
        var rest := CommentEnd(s[2..]);
        BlockPiece(s, body.value, rest);
        g, t := GapFor(rest);
        g := OnePiece(Block(body.value), g, TailText(t) + SkipSpace(s), s);
      }
    } else {
      NoComment(s);
      Whole(s);
    }
  }

  lemma OpenTail(s: Text)
    requires |s| >= 2 && s[0] == 0x2F
    ensures s[1] == 0x2F && 0x0A !in s ==> s == TailText(OpenLine(s[2..])) && 0x0A !in s[2..]
    ensures s[1] == 0x2A ==> s == TailText(OpenBlock(s[2..]))
  {
    assert s == [s[0], s[1]] + s[2..];
  }

  lemma NoComment(s: Text)
    requires !(|s| >= 2 && s[0] == 0x2F && (s[1] == 0x2F || s[1] == 0x2A))
    ensures !StartsWith(s, [SLASH, SLASH]) && !StartsWith(s, [SLASH, STAR])
  {
    var line: Text, block: Text := [SLASH, SLASH], [SLASH, STAR];
    assert line[0] == SLASH && line[1] == SLASH && block[0] == SLASH && block[1] == STAR;
  }

  lemma OnePiece(p: Piece, g: Gap, rest: Text, s: Text) returns (g': Gap)
    requires PieceOk(p) && GapOk(g) && s == PieceText(p) + (GapText(g) + rest)
    ensures g' == [p] + g && GapOk(g') && s == GapText(g') + rest
  {
    g' := [p] + g;
    assert g'[1..] == g;
    Assoc(PieceText(p), GapText(g), rest);
  }

  lemma {:induction false} DigitsFor(t: Text, base: nat) returns (ds: seq<Digit>)
    requires base <= 16 && Digits(t, base).Some?
    ensures DigitsOk(ds, base) && DigitsText(ds) == t
    decreases |t|
  {
    ds := [];
    if t != [] {
      var c := t[|t| - 1];
      var high := DigitsFor(t[..|t| - 1], base);
      ds := high + [Digit(DigitValue(c).value, 0x41 <= c < 0x47)];
      assert t == t[..|t| - 1] + [c];
      assert DigitsText(ds) == DigitsText(high) + [c];
    }
  }

  lemma SignedFor(t: Text, base: nat) returns (sign: Sign, ds: seq<Digit>)
    requires base <= 16 && Signed(t, base).Some?
    ensures DigitsOk(ds, base) && ds != [] && t == SignText(sign) + DigitsText(ds)
  {
    if t[0] == MINUS || t[0] == PLUS {
      ds := DigitsFor(t[1..], base);
      sign := if t[0] == MINUS then Minus else Plus;
      assert t == [t[0]] + t[1..];
    } else {
      ds := DigitsFor(t, base);
      sign := NoSign;
      assert t == [] + t;
    }
  }

  /** The character at the head of a string that is read. */
  lemma CharFor(s: Text, b: Text) returns (x: Char, more: Text)
    requires ReadString(s, b).Got? && s[0] != QUOTE
    ensures CharOk(x) && s == CharText(x) + more && |more| < |s|
  {
    if s[0] != BACKSLASH {
      x, more := Raw(s[0]), s[1..];
    } else if s[1] != 0x75 {
      x, more := Short(s[1]), s[2..];
      assert s == [0x5C, s[1]] + s[2..];
    } else {
      var sign, ds := SignedFor(s[2..6], 16);
      more := s[6..];
      assert s == [0x5C, 0x75] + s[2..6] + s[6..];
      assert |s[2..6]| == 4;
      x := if sign.NoSign? then Hex(ds) else SignedHex(sign.Minus?, ds);
      assert CharText(x) == [0x5C, 0x75] + s[2..6];
    }
  }

  lemma {:induction false} CharsFor(s: Text, b: Text) returns (cs: seq<Char>)
    requires ReadString(s, b).Got?
    ensures CharsOk(cs) && s == CharsText(cs) + ([0x22] + ReadString(s, b).rest)
    decreases |s|
  {
    cs := [];
    if s[0] == QUOTE {
      assert s == [] + ([0x22] + s[1..]);
    } else {
      var x, more := CharFor(s, b);
      CharReads(x, more, b);
      var others := CharsFor(more, b + [CharMeant(x)]);
      cs := [x] + others;
      assert cs[1..] == others;
      Assoc(CharText(x), CharsText(others), [0x22] + ReadString(s, b).rest);
    }
  }

  /** The digits at the head of a text. */
  lemma {:induction false} CountedDigits(s: Text) returns (ds: seq<Digit>)
    ensures DigitsOk(ds, 10) && |ds| == DigitCount(s) && s[..DigitCount(s)] == DigitsText(ds)
    decreases |s|
  {
    ds := [];
    if s != [] && ZERO <= s[0] < ZERO + 10 {
      var others := CountedDigits(s[1..]);
      ds := [Digit(s[0] - ZERO, false)] + others;
      assert s[..DigitCount(s)] == [s[0]] + s[1..][..DigitCount(s[1..])];
      assert DigitsText(ds) == [s[0]] + DigitsText(others);
    }
  }

  lemma SignFor(t: Text) returns (sign: Sign)
    ensures t == SignText(sign) + DropSign(t)
  {
    sign := if t != [] && t[0] == PLUS then Plus else if t != [] && t[0] == MINUS then Minus else NoSign;
    if sign.NoSign? {
      assert [] + t == t;
    } else {
      assert t == [t[0]] + t[1..];
    }
  }

  lemma ExponentFor(t: Text) returns (e: Option<Exponent>)
    requires t == [] || (t[0] == 0x65 || t[0] == 0x45)
    requires t != [] ==> DropSign(t[1..]) != [] && DigitCount(DropSign(t[1..])) == |DropSign(t[1..])|
    ensures t == ExponentText(e)
    ensures e.Some? ==> e.value.e in {0x45, 0x65} && e.value.ds != [] && DigitsOk(e.value.ds, 10)
  {
    e := None;
    if t != [] {
      var d := DropSign(t[1..]);
      var sign := SignFor(t[1..]);
      var ds := CountedDigits(d);
      assert d[..|d|] == d;
      assert t == [t[0]] + t[1..];
      e := Some(Exponent(t[0], sign, ds));
    }
  }

  lemma FractionFor(t: Text) returns (f: Option<seq<Digit>>, exponent: Text)
    ensures f.Some? ==> DigitsOk(f.value, 10)
    ensures t == FractionText(f) + exponent
    ensures
      if t != [] && t[0] == DOT
      then f.Some? && |f.value| == DigitCount(t[1..]) && exponent == t[1..][|f.value|..]
      else f.None? && exponent == t
  {
    if t != [] && t[0] == DOT {
      var ds := CountedDigits(t[1..]);
      f, exponent := Some(ds), t[1..][|ds|..];
      assert t == [0x2E] + (t[1..][..|ds|] + exponent);
    } else {
      f, exponent := None, t;
      assert [] + t == t;
    }
  }

  /** What IsDouble says about the parts. */
  lemma ExponentOf(t: Text, s: Text, whole: nat, afterWhole: Text, f: Option<seq<Digit>>, exponent: Text)
    requires IsDouble(t) && s == DropSign(t) && whole == DigitCount(s) && afterWhole == s[whole..]
    requires
      if afterWhole != [] && afterWhole[0] == DOT
      then f.Some? && |f.value| == DigitCount(afterWhole[1..]) && exponent == afterWhole[1..][|f.value|..]
      else f.None? && exponent == afterWhole
    ensures whole > 0 || (f.Some? && f.value != [])
    ensures exponent == [] || exponent[0] == 0x65 || exponent[0] == 0x45
    ensures exponent != [] ==> DropSign(exponent[1..]) != []
    ensures exponent != [] ==> DigitCount(DropSign(exponent[1..])) == |DropSign(exponent[1..])|
  {
  }

  lemma DoubleFor(t: Text) returns (x: Number)
    requires IsDouble(t)
    ensures NumberOk(x) && NumberText(x) == t
  {
    var s := DropSign(t);
    var sign := SignFor(t);
    var whole := CountedDigits(s);
    var afterWhole := s[|whole|..];
    assert s == DigitsText(whole) + afterWhole;
    var fraction, exponent := FractionFor(afterWhole);
    ExponentOf(t, s, |whole|, afterWhole, fraction, exponent);
    var e := ExponentFor(exponent);
    x := Number(sign, whole, fraction, e);
  }

  lemma NumberFor(t: Text) returns (x: Number)
    requires ParseNumber(t).Ok?
    ensures NumberOk(x) && NumberText(x) == t
  {
    if IsDouble(t) {
      x := DoubleFor(t);
    } else {
      var sign, ds := SignedFor(t, 10);
      x := Number(sign, ds, None, None);
      assert DigitsText(ds) + ([] + []) == DigitsText(ds);
    }
  }

  lemma {:induction false} NumberEnds(s: Text)
    ensures Ends(s[NumberLen(s)..])
  {
    if s != [] && NumberUnit(s[0]) {
      NumberEnds(s[1..]);
      assert s[NumberLen(s)..] == s[1..][NumberLen(s[1..])..];
    }
  }

  lemma StringFor(s: Text) returns (cs: seq<Char>)
    requires s != [] && s[0] == QUOTE && ReadString(s[1..], []).Got?
    ensures CharsOk(cs) && s == [0x22] + (CharsText(cs) + [0x22]) + ReadString(s[1..], []).rest
  {
    cs := CharsFor(s[1..], []);
    assert s == [0x22] + s[1..];
  }

  lemma WordFor(s: Text, word: Text)
    requires StartsWith(s, word)
    ensures s == word + s[|word|..]
  {
  }

  /** A value that is no list and no object. */
  lemma ScalarFor(s: Text, depth: nat) returns (v: Spelling)
    requires ReadValue(s, depth).Got? && s[0] != OPEN_BRACE && s[0] != OPEN_BRACKET
    ensures SpellOk(v, MAX_DEPTH - depth) && s == Spell(v) + ReadValue(s, depth).rest
    ensures v.SNumber? ==> Ends(ReadValue(s, depth).rest)
  {
    if s[0] == QUOTE {
      var cs := StringFor(s);
      v := SString(cs);
    } else if s[0] == TRUE[0] {
      WordFor(s, TRUE);
      v := STrue;
    } else if s[0] == FALSE[0] {
      WordFor(s, FALSE);
      v := SFalse;
    } else if s[0] == NULL[0] {
      WordFor(s, NULL);
      v := SNull;
    } else {
      var k := NumberLen(s);
      var x := NumberFor(s[..k]);
      NumberEnds(s);
      assert s == s[..k] + s[k..];
      v := SNumber(x);
    }
  }

  lemma ReadsMembers(s: Text, depth: nat)
    requires s != [] && s[0] == OPEN_BRACE && ReadValue(s, depth).Got?
    ensures depth < MAX_DEPTH && ReadValue(s, depth) == ReadMembers(s[1..], depth + 1, [])
  {
  }

  lemma ReadsItems(s: Text, depth: nat)
    requires s != [] && s[0] == OPEN_BRACKET && ReadValue(s, depth).Got?
    ensures depth < MAX_DEPTH && ReadValue(s, depth) == ReadItems(s[1..], depth + 1, [])
  {
  }

  lemma Bracketed(s: Text, mark: Unit, t: Text, rest: Text)
    requires s != [] && s[0] == mark && s[1..] == t + rest
    ensures s == [mark] + t + rest
  {
    assert s == [mark] + s[1..];
  }

  lemma {:induction false} ValueFor(s: Text, depth: nat) returns (v: Spelling)
    requires depth <= MAX_DEPTH && ReadValue(s, depth).Got?
    ensures SpellOk(v, MAX_DEPTH - depth) && s == Spell(v) + ReadValue(s, depth).rest
    ensures v.SNumber? ==> Ends(ReadValue(s, depth).rest)
    decreases |s|, 2
  {
    if s[0] == OPEN_BRACE {
      ReadsMembers(s, depth);
      var members, tail := FieldsFor(s[1..], depth + 1, []);
      v := SObject(members, tail);
      Bracketed(s, 0x7B, SpellFields(members, tail), ReadValue(s, depth).rest);
    } else if s[0] == OPEN_BRACKET {
      ReadsItems(s, depth);
      var items, tail := ItemsFor(s[1..], depth + 1, []);
      v := SList(items, tail);
      Bracketed(s, 0x5B, SpellItems(items, tail), ReadValue(s, depth).rest);
    } else {
      v := ScalarFor(s, depth);
    }
  }

  /** A gap, and what is behind it. */
  lemma GapBefore(s: Text) returns (g: Gap)
    requires SkipSpace(s) != []
    ensures GapOk(g) && s == GapText(g) + SkipSpace(s)
  {
    var t;
    g, t := GapFor(s);
    assert TailText(t) + SkipSpace(s) == SkipSpace(s);
  }

  /** One item with the gaps around it. */
  lemma {:induction false} ItemFor(s: Text, depth: nat) returns (i: Item)
    requires depth <= MAX_DEPTH && SkipSpace(s) != [] && ReadValue(SkipSpace(s), depth).Got?
    requires SkipSpace(ReadValue(SkipSpace(s), depth).rest) != []
    ensures ItemOk(i, MAX_DEPTH - depth) && s == SpellItem(i) + SkipSpace(ReadValue(SkipSpace(s), depth).rest)
    decreases |s|, 3
  {
    var x := ReadValue(SkipSpace(s), depth).rest;
    var before := GapBefore(s);
    var v := ValueFor(SkipSpace(s), depth);
    var behind := GapBefore(x);
    i := Item(before, v, behind);
    ItemText(i, SkipSpace(x));
  }

  lemma {:induction false} ItemsFor(s: Text, depth: nat, list: seq<Tree>) returns (items: seq<Item>, tail: Option<Gap>)
    requires depth <= MAX_DEPTH && ReadItems(s, depth, list).Got?
    ensures ItemsOk(items, MAX_DEPTH - depth) && (tail.Some? ==> GapOk(tail.value)) && (items == [] ==> tail.Some?)
    ensures s == SpellItems(items, tail) + ReadItems(s, depth, list).rest
    decreases |s|, 4
  {
    var s1 := SkipSpace(s);
    if s1[0] == CLOSE_BRACKET {
      var g := GapBefore(s);
      items, tail := [], Some(g);
      assert s1 == [0x5D] + s1[1..];
      Assoc(GapText(g), [0x5D], s1[1..]);
    } else {
      var read := ReadValue(s1, depth);
      var i := ItemFor(s, depth);
      var s2 := SkipSpace(read.rest);
      if s2[0] == COMMA {
        var others;
        others, tail := ItemsFor(s2[1..], depth, list + [read.value]);
        items := [i] + others;
        ItemsCons(i, others, tail, MAX_DEPTH - depth);
        Joined(SpellItem(i), SpellItems(others, tail), s2, ReadItems(s2[1..], depth, list + [read.value]).rest);
      } else {
        items, tail := [i], None;
        assert s2 == [0x5D] + s2[1..];
        Assoc(SpellItem(i), [0x5D], s2[1..]);
      }
    }
  }

  lemma ItemsCons(i: Item, others: seq<Item>, tail: Option<Gap>, room: int)
    requires others == [] ==> tail.Some?
    ensures SpellItems([i] + others, tail) == SpellItem(i) + ([0x2C] + SpellItems(others, tail))
    ensures ItemOk(i, room) && ItemsOk(others, room) ==> ItemsOk([i] + others, room)
  {
    assert ([i] + others)[1..] == others;
  }

  lemma Joined(a: Text, t: Text, s: Text, rest: Text)
    requires s != [] && s[0] == COMMA && s[1..] == t + rest
    ensures a + s == a + ([0x2C] + t) + rest
  {
    assert s == [0x2C] + s[1..];
  }

  /** A key, a colon and a value. */
  lemma {:induction false} MemberFor(s: Text, depth: nat, before: Gap) returns (f: Field)
    requires depth <= MAX_DEPTH && s != [] && ReadMember(s, depth).Got? && GapOk(before)
    ensures
      && f.before == before && f.behind == [] && FieldOk(f, MAX_DEPTH - depth)
      && GapText(before) + s == SpellField(f) + ReadMember(s, depth).rest
      && var x := ReadMember(s, depth).rest;
         s == [0x22] + (CharsText(f.key) + [0x22])
              + (GapText(f.afterKey) + ([0x3A] + (GapText(f.afterColon) + (Spell(f.value) + x))))
    decreases |s|, 1
  {
    var rest := ReadMember(s, depth).rest;
    var key := StringFor(s);
    var afterKey := ReadString(s[1..], []).rest;
    var s1 := SkipSpace(afterKey);
    var g := GapBefore(afterKey);
    var s2 := SkipSpace(s1[1..]);
    var g2 := GapBefore(s1[1..]);
    var v := ValueFor(s2, depth);
    f := Field(before, key, g, g2, v, []);
    MemberText(f, s, afterKey, s1, s2, rest);
  }

  lemma MemberText(f: Field, s: Text, afterKey: Text, s1: Text, s2: Text, rest: Text)
    requires f.behind == [] && s == [0x22] + (CharsText(f.key) + [0x22]) + afterKey
    requires afterKey == GapText(f.afterKey) + s1 && s1 != [] && s1[0] == 0x3A
    requires s1[1..] == GapText(f.afterColon) + s2 && s2 == Spell(f.value) + rest
    ensures GapText(f.before) + s == SpellField(f) + rest
    ensures
      s == [0x22] + (CharsText(f.key) + [0x22])
           + (GapText(f.afterKey) + ([0x3A] + (GapText(f.afterColon) + (Spell(f.value) + rest))))
  {
    assert s1 == [0x3A] + s1[1..];
    assert GapText([]) + rest == rest;
    FieldText(f, rest);
  }

  /** One field with the gaps around it. */
  lemma {:induction false} FieldFor(s: Text, depth: nat) returns (f: Field)
    requires depth <= MAX_DEPTH && SkipSpace(s) != [] && ReadMember(SkipSpace(s), depth).Got?
    requires SkipSpace(ReadMember(SkipSpace(s), depth).rest) != []
    ensures FieldOk(f, MAX_DEPTH - depth) && s == SpellField(f) + SkipSpace(ReadMember(SkipSpace(s), depth).rest)
    decreases |s|, 3
  {
    var x := ReadMember(SkipSpace(s), depth).rest;
    var before := GapBefore(s);
    var g := MemberFor(SkipSpace(s), depth, before);
    var behind := GapBefore(x);
    f := Behind(g, behind, SkipSpace(x), x);
  }

  lemma {:induction false} FieldsFor(s: Text, depth: nat, m: seq<Member>)
      returns (fields: seq<Field>, tail: Option<Gap>)
    requires depth <= MAX_DEPTH && ReadMembers(s, depth, m).Got?
    ensures FieldsOk(fields, MAX_DEPTH - depth) && (tail.Some? ==> GapOk(tail.value)) && (fields == [] ==> tail.Some?)
    ensures s == SpellFields(fields, tail) + ReadMembers(s, depth, m).rest
    decreases |s|, 4
  {
    var s1 := SkipSpace(s);
    if s1[0] == CLOSE_BRACE {
      var g := GapBefore(s);
      fields, tail := [], Some(g);
      assert s1 == [0x7D] + s1[1..];
      Assoc(GapText(g), [0x7D], s1[1..]);
    } else {
      var entry := ReadMember(s1, depth);
      var f := FieldFor(s, depth);
      var s2 := SkipSpace(entry.rest);
      var m' := Put(m, entry.value.key, entry.value.value);
      if s2[0] == COMMA {
        var others;
        others, tail := FieldsFor(s2[1..], depth, m');
        fields := [f] + others;
        FieldsCons(f, others, tail, MAX_DEPTH - depth);
        Joined(SpellField(f), SpellFields(others, tail), s2, ReadMembers(s2[1..], depth, m').rest);
      } else {
        fields, tail := [f], None;
        assert s2 == [0x7D] + s2[1..];
        Assoc(SpellField(f), [0x7D], s2[1..]);
      }
    }
  }

  lemma FieldsCons(f: Field, others: seq<Field>, tail: Option<Gap>, room: int)
    requires others == [] ==> tail.Some?
    ensures SpellFields([f] + others, tail) == SpellField(f) + ([0x2C] + SpellFields(others, tail))
    ensures FieldOk(f, room) && FieldsOk(others, room) ==> FieldsOk([f] + others, room)
  {
    assert ([f] + others)[1..] == others;
  }

  /** The gap behind the value belongs to the field. */
  lemma Behind(f: Field, behind: Gap, more: Text, rest: Text) returns (f': Field)
    requires f.behind == [] && GapOk(behind) && rest == GapText(behind) + more
    ensures f' == f.(behind := behind) && SpellField(f') + more == SpellField(f) + rest
  {
    f' := f.(behind := behind);
    FieldText(f, rest);
    FieldText(f', more);
    assert GapText([]) + rest == rest;
  }

  // -------------------------------------------------------- what an object holds

  function Find(m: seq<Member>, key: Text): Option<Tree> {
    if m == [] then None else if m[0].key == key then Some(m[0].value) else Find(m[1..], key)
  }

  function KeysOf(m: seq<Member>): seq<Text> {
    if m == [] then [] else [m[0].key] + KeysOf(m[1..])
  }

  /** A map takes the last value of each key, and keeps the keys in the order in which
      they first came. */
  lemma {:induction false} PutFinds(m: seq<Member>, key: Text, value: Tree, other: Text)
    ensures Find(Put(m, key, value), other) == if other == key then Some(value) else Find(m, other)
    ensures KeysOf(Put(m, key, value)) == if HasKey(m, key) then KeysOf(m) else KeysOf(m) + [key]
  {
    var p := Put(m, key, value);
    if m == [] {
      assert p[1..] == [];
    } else {
      HeadOrTail(m, key);
      if m[0].key == key {
        assert p[1..] == m[1..];
      } else {
        PutFinds(m[1..], key, value, other);
        assert p[1..] == Put(m[1..], key, value);
        Assoc([m[0].key], KeysOf(m[1..]), [key]);
      }
    }
  }

  // ----------------------------------------------------------------- theorems

  /** Whatever spells a value, with gaps anywhere between its tokens, trailing commas,
      repeated keys, escapes of any kind and raw control characters, is parsed to what
      it means. */
  lemma SpellingsAreRead(text: Text, before: Gap, v: Spelling, behind: Gap, tail: Tail)
    requires Spells(text, before, v, behind, tail)
    ensures Parse(text) == Ok(Meaning(v))
  {
    var end := GapText(behind) + TailText(tail);
    TailEnds(tail);
    GapEnds(behind, TailText(tail));
    ValueBehind(before, v, 128, end);
    SpelledReads(v, 0, end);
    GapSkipped(behind, TailText(tail));
    TailSkipped(tail);
  }

  /** And nothing else is parsed. */
  lemma OnlySpellingsAreRead(text: Text) returns (before: Gap, v: Spelling, behind: Gap, tail: Tail)
    requires Parse(text).Ok?
    ensures Spells(text, before, v, behind, tail)
  {
    var s := SkipSpace(text);
    before := GapBefore(text);
    v := ValueFor(s, 0);
    var end := ReadValue(s, 0).rest;
    behind, tail := GapFor(end);
    assert TailText(tail) + [] == TailText(tail);
  }

  /** The language of the reader, exactly: a text is parsed to a value if and only if
      it spells that value. */
  lemma LanguageIsExact(text: Text, value: Tree)
    ensures Parse(text) == Ok(value) <==> Denotes(text, value)
  {
    if Parse(text) == Ok(value) {
      var before, v, behind, tail := OnlySpellingsAreRead(text);
      SpellingsAreRead(text, before, v, behind, tail);
    }
    if Denotes(text, value) {
      var before, v, behind, tail :| Spells(text, before, v, behind, tail) && Meaning(v) == value;
      SpellingsAreRead(text, before, v, behind, tail);
    }
  }
}
