/** Reading what the writer wrote gives the same value (Json.java). */
module JsonRoundTrip {
  import opened Prelude
  import opened Json

  // -------------------------------------------------------- which values, which texts

  /** The keys of one object are distinct, as in every Java map. */
  predicate DistinctKeys(m: seq<Member>) {
    forall i, j :: 0 <= i < j < |m| ==> m[i].key != m[j].key
  }

  predicate HasKey(m: seq<Member>, key: Text) {
    exists i :: 0 <= i < |m| && m[i].key == key
  }

  /** A text that the reader takes for a double. */
  predicate DoubleText(t: Text) {
    t != [] && (forall k :: 0 <= k < |t| ==> NumberUnit(t[k])) && ParseNumber(t) == Ok(Double(t))
  }

  /** Objects are maps, they and lists are nested at most `room` deep, and doubles
      have a text that can be read. */
  predicate Fits(v: Tree, room: int)
    decreases v
  {
    match v
    case Double(text) => DoubleText(text)
    case List(items) => room > 0 && forall k :: 0 <= k < |items| ==> Fits(items[k], room - 1)
    case Object(members) => room > 0 && MembersFit(members, room - 1)
    case _ => true
  }

  predicate MembersFit(members: seq<Member>, room: int)
    decreases members
  {
    DistinctKeys(members) && forall k :: 0 <= k < |members| ==> MemberFits(members[k], room)
  }

  predicate MemberFits(m: Member, room: int)
    decreases m
  {
    Fits(m.value, room)
  }

  /** A text at which a number ends. */
  predicate Ends(s: Text) {
    s == [] || !NumberUnit(s[0])
  }

  /** A unit that is neither space nor the start of a comment. */
  predicate Solid(c: Unit) {
    !IsSpace(c) && c != SLASH
  }

  lemma NoSpace(s: Text)
    requires s != [] && Solid(s[0])
    ensures SkipSpace(s) == s
  {
  }

  // ------------------------------------------------------------------ strings

  lemma EscapedReads(c: Unit, s: Text, b: Text)
    ensures ReadString(Escaped(c) + s, b) == ReadString(s, b + [c])
  {
    var e := Escaped(c);
    var t := e + s;
    if |e| == 6 {
      HexReads(c);
      assert t[2..6] == e[2..];
      assert t[6..] == s;
    } else if |e| == 2 {
      assert t[2..] == s;
    } else {
      assert t[1..] == s;
    }
  }

  lemma HexReads(c: Unit)
    requires c < 0x20
    ensures Signed([ZERO, ZERO, HexDigit(c / 16), HexDigit(c % 16)], 16) == Some(c as int)
  {
    var a, b := HexDigit(c / 16), HexDigit(c % 16);
    var t := [ZERO, ZERO, a, b];
    assert t[..3] == [ZERO, ZERO, a] && t[..3][..2] == [ZERO, ZERO] && t[..2][..1] == [ZERO] && t[..1][..0] == [];
    assert Digits([], 16) == Some(0);
    assert Digits([ZERO], 16) == Some(0);
    assert [ZERO, ZERO][..1] == [ZERO];
    assert Digits([ZERO, ZERO], 16) == Some(0);
    assert DigitValue(a) == Some(c / 16) && DigitValue(b) == Some(c % 16);
    assert Digits(t[..3], 16) == Some(c / 16);
  }

  lemma {:induction false} StringReads(s: Text, rest: Text, b: Text)
    ensures ReadString(EscapedAll(s) + ([QUOTE] + rest), b) == Got(b + s, rest)
    decreases |s|
  {
    var end := [QUOTE] + rest;
    if s == [] {
      assert EscapedAll(s) + end == end && end[1..] == rest && b + s == b;
    } else {
      assert EscapedAll(s) + end == Escaped(s[0]) + (EscapedAll(s[1..]) + end);
      EscapedReads(s[0], EscapedAll(s[1..]) + end, b);
      StringReads(s[1..], rest, b + [s[0]]);
      assert b + [s[0]] + s[1..] == b + s;
    }
  }

  /** Every string, lone surrogates included, is read back unit by unit. */
  lemma QuotedReads(s: Text, rest: Text)
    ensures var t := Quoted(s) + rest; t[0] == QUOTE && ReadString(t[1..], []) == Got(s, rest)
  {
    assert (Quoted(s) + rest)[1..] == EscapedAll(s) + ([QUOTE] + rest);
    StringReads(s, rest, []);
    assert [] + s == s;
  }

  /** The strings of section 7 of RFC 8259, between the quotation marks. */
  predicate Rfc8259Chars(s: Text)
    decreases |s|
  {
    if s == [] then true
    else if s[0] != BACKSLASH then s[0] >= 0x20 && s[0] != QUOTE && Rfc8259Chars(s[1..])
    else if |s| < 2 then false
    else if s[1] in {QUOTE, BACKSLASH, SLASH, 0x62, 0x66, 0x6E, 0x72, 0x74} then Rfc8259Chars(s[2..])
    else |s| >= 6 && s[1] == 0x75 && (forall k :: 2 <= k < 6 ==> DigitValue(s[k]).Some?) && Rfc8259Chars(s[6..])
  }

  lemma EscapedIsRfc8259(c: Unit, s: Text)
    requires Rfc8259Chars(s)
    ensures Rfc8259Chars(Escaped(c) + s)
  {
    var e := Escaped(c);
    var t := e + s;
    assert t[|e|..] == s;
    if |e| == 6 {
      assert DigitValue(t[4]).Some? && DigitValue(t[5]).Some?;
    }
  }

  /** What the writer puts between quotation marks is a string of RFC 8259: no raw
      quotation mark, reverse solidus or control character, and only its escapes. */
  lemma {:induction false} WriterFollowsRfc8259(s: Text)
    ensures Rfc8259Chars(EscapedAll(s))
  {
    if s != [] {
      WriterFollowsRfc8259(s[1..]);
      EscapedIsRfc8259(s[0], EscapedAll(s[1..]));
    }
  }

  // ------------------------------------------------------------------ numbers

  lemma {:induction false} DecimalReads(n: nat)
    ensures Digits(Decimal(n), 10) == Some(n)
  {
    var t := Decimal(n);
    assert DigitValue(ZERO + n % 10) == Some(n % 10);
    if n < 10 {
      assert t[..0] == [];
    } else {
      DecimalReads(n / 10);
      assert t[..|t| - 1] == Decimal(n / 10);
    }
  }

  lemma {:induction false} NumberLenAtEnd(t: Text, rest: Text)
    requires (forall k :: 0 <= k < |t| ==> NumberUnit(t[k])) && Ends(rest)
    ensures NumberLen(t + rest) == |t|
  {
    if t == [] {
      assert t + rest == rest;
    } else {
      NumberLenAtEnd(t[1..], rest);
      assert (t + rest)[1..] == t[1..] + rest;
    }
  }

  lemma LongParses(n: Int64)
    ensures ParseNumber(WrittenLong(n)) == Ok(Long(n))
  {
    var t := WrittenLong(n);
    var m: int := n;
    if m < 0 {
      DecimalReads(-m);
      assert t[1..] == Decimal(-m);
    } else {
      DecimalReads(m);
    }
  }

  lemma LongReads(n: Int64, rest: Text)
    requires Ends(rest)
    ensures ReadNumber(WrittenLong(n) + rest) == Got(Long(n), rest)
  {
    var t := WrittenLong(n);
    forall k | 0 <= k < |t| ensures NumberUnit(t[k]) {}
    NumberLenAtEnd(t, rest);
    LongParses(n);
    assert (t + rest)[..|t|] == t && (t + rest)[|t|..] == rest;
  }

  lemma DoubleReads(t: Text, rest: Text)
    requires DoubleText(t) && Ends(rest)
    ensures ReadNumber(t + rest) == Got(Double(t), rest)
  {
    NumberLenAtEnd(t, rest);
    var s := t + rest;
    assert s[..|t|] == t && s[|t|..] == rest;
  }

  // -------------------------------------------------------------------- trees

  lemma WrittenIsSolid(v: Tree)
    requires v.Double? ==> DoubleText(v.text)
    ensures Written(v) != [] && Solid(Written(v)[0]) && Written(v)[0] != CLOSE_BRACKET
  {
  }

  lemma {:induction false} PutNew(m: seq<Member>, key: Text, value: Tree)
    requires !HasKey(m, key)
    ensures Put(m, key, value) == m + [Member(key, value)]
  {
    if m != [] {
      assert m[0].key != key;
      forall i | 0 <= i < |m[1..]| ensures m[1..][i].key != key { assert m[1..][i] == m[i + 1]; }
      PutNew(m[1..], key, value);
    }
  }

  // One step of each reader, at a text without space.

  lemma LiteralStep(v: Tree, depth: nat, rest: Text)
    requires v.Null? || v.Bool?
    ensures ReadValue(Written(v) + rest, depth) == Got(v, rest)
  {
    assert (Written(v) + rest)[|Written(v)|..] == rest;
  }

  lemma NumberStep(s: Text, depth: nat)
    requires s != [] && NumberUnit(s[0])
    ensures ReadValue(s, depth) == ReadNumber(s)
  {
  }

  lemma LongStep(n: Int64, depth: nat, rest: Text)
    requires Ends(rest)
    ensures ReadValue(WrittenLong(n) + rest, depth) == Got(Long(n), rest)
  {
    LongReads(n, rest);
    NumberStep(WrittenLong(n) + rest, depth);
  }

  lemma DoubleStep(t: Text, depth: nat, rest: Text)
    requires DoubleText(t) && Ends(rest)
    ensures ReadValue(t + rest, depth) == Got(Double(t), rest)
  {
    DoubleReads(t, rest);
    NumberStep(t + rest, depth);
  }

  lemma StringStep(t: Text, depth: nat, rest: Text)
    ensures ReadValue(Quoted(t) + rest, depth) == Got(Str(t), rest)
  {
    QuotedReads(t, rest);
  }

  lemma ListStep(t: Text, depth: nat)
    requires depth < MAX_DEPTH
    ensures ReadValue([OPEN_BRACKET] + t, depth) == ReadItems(t, depth + 1, [])
  {
    assert ([OPEN_BRACKET] + t)[1..] == t;
  }

  lemma ObjectStep(t: Text, depth: nat)
    requires depth < MAX_DEPTH
    ensures ReadValue([OPEN_BRACE] + t, depth) == ReadMembers(t, depth + 1, [])
  {
    assert ([OPEN_BRACE] + t)[1..] == t;
  }

  lemma ItemsStep(s: Text, depth: nat, list: seq<Tree>, v: Tree, more: Text)
    requires s != [] && Solid(s[0]) && s[0] != CLOSE_BRACKET
    requires ReadValue(s, depth) == Got(v, more) && more != [] && Solid(more[0])
    ensures more[0] == COMMA ==> ReadItems(s, depth, list) == ReadItems(more[1..], depth, list + [v])
    ensures more[0] == CLOSE_BRACKET ==> ReadItems(s, depth, list) == Got(List(list + [v]), more[1..])
  {
    NoSpace(s);
    NoSpace(more);
  }

  lemma ItemsEnd(rest: Text, depth: nat, list: seq<Tree>)
    ensures ReadItems([CLOSE_BRACKET] + rest, depth, list) == Got(List(list), rest)
  {
    NoSpace([CLOSE_BRACKET] + rest);
    assert ([CLOSE_BRACKET] + rest)[1..] == rest;
  }

  lemma MemberStep(s: Text, depth: nat, key: Text, afterKey: Text, v: Tree, rest: Text)
    requires s != [] && s[0] == QUOTE && ReadString(s[1..], []) == Got(key, afterKey)
    requires |afterKey| > 1 && afterKey[0] == COLON && Solid(afterKey[1])
    requires ReadValue(afterKey[1..], depth) == Got(v, rest)
    ensures ReadMember(s, depth) == Got(Member(key, v), rest)
  {
    NoSpace(afterKey);
    NoSpace(afterKey[1..]);
  }

  lemma MembersStep(s: Text, depth: nat, m: seq<Member>, entry: Member, more: Text)
    requires s != [] && s[0] == QUOTE
    requires ReadMember(s, depth) == Got(entry, more) && more != [] && Solid(more[0])
    ensures
      var m' := Put(m, entry.key, entry.value);
      && (more[0] == COMMA ==> ReadMembers(s, depth, m) == ReadMembers(more[1..], depth, m'))
      && (more[0] == CLOSE_BRACE ==> ReadMembers(s, depth, m) == Got(Object(m'), more[1..]))
  {
    NoSpace(s);
    NoSpace(more);
  }

  lemma MembersEnd(rest: Text, depth: nat, m: seq<Member>)
    ensures ReadMembers([CLOSE_BRACE] + rest, depth, m) == Got(Object(m), rest)
  {
    NoSpace([CLOSE_BRACE] + rest);
    assert ([CLOSE_BRACE] + rest)[1..] == rest;
  }

  // How the written text falls into parts.

  lemma ListText(items: seq<Tree>, rest: Text)
    ensures Written(List(items)) + rest == [OPEN_BRACKET] + (WrittenItems(items) + ([CLOSE_BRACKET] + rest))
  {
  }

  lemma ObjectText(members: seq<Member>, rest: Text)
    ensures Written(Object(members)) + rest == [OPEN_BRACE] + (WrittenMembers(members) + ([CLOSE_BRACE] + rest))
  {
  }

  lemma ItemsText(items: seq<Tree>, end: Text)
    requires items != []
    ensures WrittenItems(items) + end == Written(items[0]) + (MoreItems(items[1..]) + end)
  {
  }

  lemma MoreItemsText(items: seq<Tree>, end: Text)
    ensures MoreItems(items) + end == if items == [] then end else [COMMA] + (WrittenItems(items) + end)
  {
  }

  lemma MemberText(m: Member, rest: Text)
    ensures WrittenMember(m) + rest == Quoted(m.key) + ([COLON] + (Written(m.value) + rest))
  {
  }

  lemma MembersText(members: seq<Member>, end: Text)
    requires members != []
    ensures WrittenMembers(members) + end == WrittenMember(members[0]) + (MoreMembers(members[1..]) + end)
  {
  }

  lemma MoreMembersText(members: seq<Member>, end: Text)
    ensures MoreMembers(members) + end == if members == [] then end else [COMMA] + (WrittenMembers(members) + end)
  {
  }

  lemma NothingBefore<T>(s: seq<T>)
    ensures [] + s == s
  {
  }

  lemma Snoc<T>(s: seq<T>, t: seq<T>)
    requires t != []
    ensures s + t == s + [t[0]] + t[1..]
  {
  }

  lemma AfterFirst(c: Unit, t: Text)
    ensures ([c] + t)[1..] == t
  {
  }

  // The same steps, for what the writer wrote.

  lemma {:induction false} ValueReads(v: Tree, depth: nat, rest: Text)
    requires Fits(v, MAX_DEPTH - depth) && Ends(rest)
    ensures ReadValue(Written(v) + rest, depth) == Got(v, rest)
    decreases v, 1
  {
    match v
    case Long(n) => LongStep(n, depth, rest);
    case Double(t) => DoubleStep(t, depth, rest);
    case Str(t) => StringStep(t, depth, rest);
    case List(items) => ListReads(items, depth, rest);
    case Object(members) => ObjectReads(v, depth, rest);
    case _ => LiteralStep(v, depth, rest);
  }

  lemma {:induction false} ListReads(items: seq<Tree>, depth: nat, rest: Text)
    requires depth < MAX_DEPTH && forall k :: 0 <= k < |items| ==> Fits(items[k], MAX_DEPTH - (depth + 1))
    ensures ReadValue(Written(List(items)) + rest, depth) == Got(List(items), rest)
    decreases items, 1
  {
    ListText(items, rest);
    ListStep(WrittenItems(items) + ([CLOSE_BRACKET] + rest), depth);
    NothingBefore(items);
    ItemsRead(items, depth + 1, [], rest);
  }

  lemma {:induction false} ObjectReads(v: Tree, depth: nat, rest: Text)
    requires v.Object? && Fits(v, MAX_DEPTH - depth)
    ensures ReadValue(Written(v) + rest, depth) == Got(v, rest)
    decreases v, 0
  {
    ObjectText(v.members, rest);
    ObjectStep(WrittenMembers(v.members) + ([CLOSE_BRACE] + rest), depth);
    NothingBefore(v.members);
    MembersRead(v.members, depth + 1, [], rest);
  }

  lemma {:induction false} ItemsRead(items: seq<Tree>, depth: nat, list: seq<Tree>, rest: Text)
    requires forall k :: 0 <= k < |items| ==> Fits(items[k], MAX_DEPTH - depth)
    ensures ReadItems(WrittenItems(items) + ([CLOSE_BRACKET] + rest), depth, list) == Got(List(list + items), rest)
    decreases items, 0
  {
    var end := [CLOSE_BRACKET] + rest;
    if items == [] {
      ItemsEnd(rest, depth, list);
      assert WrittenItems(items) + end == end && list + items == list;
    } else {
      var first, others := items[0], items[1..];
      var more := MoreItems(others) + end;
      WrittenIsSolid(first);
      MoreItemsText(others, end);
      ValueReads(first, depth, more);
      ItemsStep(Written(first) + more, depth, list, first, more);
      ItemsText(items, end);
      Snoc(list, items);
      if others == [] {
        AfterFirst(CLOSE_BRACKET, rest);
        assert list + [first] + others == list + [first];
      } else {
        AfterFirst(COMMA, WrittenItems(others) + end);
        ItemsRead(others, depth, list + [first], rest);
      }
    }
  }

  lemma {:induction false} MemberReads(m: Member, depth: nat, rest: Text)
    requires MemberFits(m, MAX_DEPTH - depth) && Ends(rest)
    ensures
      var s := WrittenMember(m) + rest;
      s != [] && s[0] == QUOTE && ReadMember(s, depth) == Got(m, rest)
    decreases m
  {
    var value := Written(m.value) + rest;
    var afterKey := [COLON] + value;
    AfterFirst(COLON, value);
    WrittenIsSolid(m.value);
    ValueReads(m.value, depth, rest);
    QuotedReads(m.key, afterKey);
    MemberStep(Quoted(m.key) + afterKey, depth, m.key, afterKey, m.value, rest);
    MemberText(m, rest);
  }

  lemma {:induction false} MembersRead(members: seq<Member>, depth: nat, m: seq<Member>, rest: Text)
    requires forall k :: 0 <= k < |members| ==> MemberFits(members[k], MAX_DEPTH - depth)
    requires DistinctKeys(m + members)
    ensures ReadMembers(WrittenMembers(members) + ([CLOSE_BRACE] + rest), depth, m) == Got(Object(m + members), rest)
    decreases members
  {
    var end := [CLOSE_BRACE] + rest;
    if members == [] {
      MembersEnd(rest, depth, m);
      assert WrittenMembers(members) + end == end && m + members == m;
    } else {
      var first, others := members[0], members[1..];
      var more := MoreMembers(others) + end;
      MoreMembersText(others, end);
      MemberReads(first, depth, more);
      MembersStep(WrittenMember(first) + more, depth, m, first, more);
      MembersText(members, end);
      NewKey(m, members);
      PutNew(m, first.key, first.value);
      assert Member(first.key, first.value) == first;
      Snoc(m, members);
      if others == [] {
        AfterFirst(CLOSE_BRACE, rest);
        assert m + [first] + others == m + [first];
      } else {
        AfterFirst(COMMA, WrittenMembers(others) + end);
        MembersRead(others, depth, m + [first], rest);
      }
    }
  }

  lemma NewKey(m: seq<Member>, members: seq<Member>)
    requires members != [] && DistinctKeys(m + members)
    ensures !HasKey(m, members[0].key)
  {
    forall i | 0 <= i < |m| ensures m[i].key != members[0].key {
      assert (m + members)[i] == m[i] && (m + members)[|m|] == members[0];
    }
  }

  // ---------------------------------------------------------- what parsing gives

  lemma HeadOrTail(m: seq<Member>, k: Text)
    requires m != []
    ensures HasKey(m, k) <==> m[0].key == k || HasKey(m[1..], k)
  {
    if HasKey(m, k) {
      var i :| 0 <= i < |m| && m[i].key == k;
      assert i == 0 || m[1..][i - 1].key == k;
    }
    if HasKey(m[1..], k) {
      var i :| 0 <= i < |m[1..]| && m[1..][i].key == k;
      assert m[i + 1].key == k;
    }
  }

  lemma {:induction false} PutKeys(m: seq<Member>, key: Text, value: Tree, k: Text)
    ensures HasKey(Put(m, key, value), k) <==> HasKey(m, k) || k == key
  {
    var p := Put(m, key, value);
    HeadOrTail(p, k);
    if m == [] {
      assert p[1..] == [];
    } else {
      HeadOrTail(m, k);
      if m[0].key != key {
        PutKeys(m[1..], key, value, k);
        assert p[1..] == Put(m[1..], key, value);
      } else {
        assert p[1..] == m[1..];
      }
    }
  }

  lemma {:induction false} PutFits(m: seq<Member>, key: Text, value: Tree, room: int)
    requires MembersFit(m, room) && Fits(value, room)
    ensures MembersFit(Put(m, key, value), room)
  {
    assert MemberFits(Member(key, value), room);
    if m != [] && m[0].key != key {
      var rest := Put(m[1..], key, value);
      PutFits(m[1..], key, value, room);
      PutKeys(m[1..], key, value, m[0].key);
      assert !HasKey(m[1..], m[0].key) by {
        forall i | 0 <= i < |m[1..]| ensures m[1..][i].key != m[0].key { assert m[1..][i] == m[i + 1]; }
      }
      forall i | 0 <= i < |rest| ensures rest[i].key != m[0].key { assert !HasKey(rest, m[0].key); }
    }
  }

  lemma {:induction false} UnitsOfNumber(s: Text, k: nat)
    requires k < NumberLen(s)
    ensures NumberUnit(s[k])
    decreases k
  {
    if k > 0 { UnitsOfNumber(s[1..], k - 1); }
  }

  lemma NumberFits(s: Text)
    requires ReadNumber(s).Got? && ReadNumber(s).value.Double?
    ensures DoubleText(ReadNumber(s).value.text)
  {
    var t := s[..NumberLen(s)];
    forall k | 0 <= k < |t| ensures NumberUnit(t[k]) { UnitsOfNumber(s, k); }
  }

  /** The reader gives only maps, nothing nested deeper than it allows, and doubles by
      a text that it takes for one. */
  lemma {:induction false} ReadFits(s: Text, depth: nat)
    requires depth <= MAX_DEPTH && ReadValue(s, depth).Got?
    ensures Fits(ReadValue(s, depth).value, MAX_DEPTH - depth)
    decreases |s|, 2
  {
    if s[0] == OPEN_BRACE {
      ReadMembersFit(s[1..], depth + 1, []);
    } else if s[0] == OPEN_BRACKET {
      ReadItemsFit(s[1..], depth + 1, []);
    } else if s[0] != QUOTE && ReadValue(s, depth).value.Double? {
      NumberFits(s);
    }
  }

  lemma {:induction false} ReadItemsFit(s: Text, depth: nat, list: seq<Tree>)
    requires 0 < depth <= MAX_DEPTH && ReadItems(s, depth, list).Got?
    requires forall k :: 0 <= k < |list| ==> Fits(list[k], MAX_DEPTH - depth)
    ensures Fits(ReadItems(s, depth, list).value, MAX_DEPTH - depth + 1)
    decreases |s|, 3
  {
    var s1 := SkipSpace(s);
    if s1[0] != CLOSE_BRACKET {
      var v := ReadValue(s1, depth);
      ReadFits(s1, depth);
      var s2 := SkipSpace(v.rest);
      if s2[0] == COMMA {
        ReadItemsFit(s2[1..], depth, list + [v.value]);
      }
    }
  }

  lemma {:induction false} ReadMembersFit(s: Text, depth: nat, m: seq<Member>)
    requires 0 < depth <= MAX_DEPTH && ReadMembers(s, depth, m).Got?
    requires MembersFit(m, MAX_DEPTH - depth)
    ensures Fits(ReadMembers(s, depth, m).value, MAX_DEPTH - depth + 1)
    decreases |s|, 3
  {
    var s1 := SkipSpace(s);
    if s1[0] != CLOSE_BRACE {
      var entry := ReadMember(s1, depth);
      var t := SkipSpace(SkipSpace(ReadString(s1[1..], []).rest)[1..]);
      ReadFits(t, depth);
      PutFits(m, entry.value.key, entry.value.value, MAX_DEPTH - depth);
      var s2 := SkipSpace(entry.rest);
      if s2[0] == COMMA {
        ReadMembersFit(s2[1..], depth, Put(m, entry.value.key, entry.value.value));
      }
    }
  }

  // ----------------------------------------------------------------- theorems

  /** Parsing what the writer wrote gives the same value, for every tree, if and only
      if objects have distinct keys, as Java maps do, nesting is at most 128 deep, and
      every double is written as a text that the reader takes for one. */
  lemma RoundTrip(v: Tree)
    ensures Parse(Written(v)) == Ok(v) <==> Fits(v, MAX_DEPTH)
  {
    if Fits(v, MAX_DEPTH) {
      WrittenIsSolid(v);
      NoSpace(Written(v));
      ValueReads(v, 0, []);
      assert Written(v) + [] == Written(v);
    } else if ReadValue(SkipSpace(Written(v)), 0).Got? {
      ReadFits(SkipSpace(Written(v)), 0);
    }
  }

  /** Whatever lenient text a value was read from (comments, spaces, trailing
      commas, repeated keys, raw control characters), writing it out strictly and
      reading that gives the value again, when doubles are written as they were
      read. */
  lemma ReadWriteRead(text: Text)
    requires Parse(text).Ok?
    ensures Parse(Written(Parse(text).value)) == Parse(text)
  {
    ReadFits(SkipSpace(text), 0);
    RoundTrip(Parse(text).value);
  }

  // Java writes a double in a form of its own: `form` stands for what Double.toString
  // makes of what Double.parseDouble makes of a text.

  function Formed(form: Text -> Text, v: Tree): Tree
    decreases v
  {
    match v
    case Double(text) => Double(form(text))
    case List(items) => List(seq(|items|, k requires 0 <= k < |items| => Formed(form, items[k])))
    case Object(members) => Object(seq(|members|, k requires 0 <= k < |members| => FormedMember(form, members[k])))
    case _ => v
  }

  function FormedMember(form: Text -> Text, m: Member): Member
    decreases m
  {
    Member(m.key, Formed(form, m.value))
  }

  /** Every double in the tree is written as a text that the reader takes for one. */
  predicate Numeric(form: Text -> Text, v: Tree)
    decreases v
  {
    match v
    case Double(text) => DoubleText(form(text))
    case List(items) => forall k :: 0 <= k < |items| ==> Numeric(form, items[k])
    case Object(members) => forall k :: 0 <= k < |members| ==> NumericMember(form, members[k])
    case _ => true
  }

  predicate NumericMember(form: Text -> Text, m: Member)
    decreases m
  {
    Numeric(form, m.value)
  }

  lemma {:induction false} FormedFits(form: Text -> Text, v: Tree, room: int)
    requires Fits(v, room)
    ensures Fits(Formed(form, v), room) <==> Numeric(form, v)
    decreases v
  {
    match v
    case List(items) =>
      var formed := Formed(form, v).items;
      forall k | 0 <= k < |items| ensures Fits(formed[k], room - 1) <==> Numeric(form, items[k]) {
        FormedFits(form, items[k], room - 1);
      }
    case Object(members) =>
      var formed := Formed(form, v).members;
      forall k | 0 <= k < |members| ensures MemberFits(formed[k], room - 1) <==> NumericMember(form, members[k]) {
        FormedMemberFits(form, members[k], room - 1);
      }
    case _ =>
  }

  lemma {:induction false} FormedMemberFits(form: Text -> Text, m: Member, room: int)
    requires MemberFits(m, room)
    ensures MemberFits(FormedMember(form, m), room) <==> NumericMember(form, m)
    decreases m
  {
    FormedFits(form, m.value, room);
  }

  /** Whatever text a value was read from, and in whatever form Java writes doubles:
      what it writes is read as what it wrote if and only if every double of the
      value is written as a text that the reader takes for one. */
  lemma ReadWriteReadExactly(text: Text, form: Text -> Text)
    requires Parse(text).Ok?
    ensures
      var written := Formed(form, Parse(text).value);
      Parse(Written(written)) == Ok(written) <==> Numeric(form, Parse(text).value)
  {
    ReadFits(SkipSpace(text), 0);
    FormedFits(form, Parse(text).value, MAX_DEPTH);
    RoundTrip(Formed(form, Parse(text).value));
  }

  /** 1e999 and Infinity. */
  const TOO_LARGE: Text := [0x31, 0x65, 0x39, 0x39, 0x39]
  const INFINITY: Text := [0x49, 0x6E, 0x66, 0x69, 0x6E, 0x69, 0x74, 0x79]

  /** The exception occurs: the reader accepts 1e999, which Java takes for infinity and
      writes by name, and refuses that name. */
  lemma InfinityIsNotReadBack()
    ensures Parse(TOO_LARGE) == Ok(Double(TOO_LARGE)) && Parse(INFINITY) == Err(UnexpectedCharacter)
  {
    TooLargeIsDouble();
    RoundTrip(Double(TOO_LARGE));
    InfinityIsRefused();
  }

  lemma InfinityIsRefused()
    ensures Parse(INFINITY) == Err(UnexpectedCharacter)
  {
    var s := INFINITY;
    NoSpace(s);
    assert s[0] == 0x49 && !NumberUnit(s[0]);
    assert ReadValue(s, 0) == ReadNumber(s);
  }

  lemma TooLargeIsDouble()
    ensures DoubleText(TOO_LARGE)
  {
    var t: Text, two: Text, three: Text, four: Text, e: Text :=
      TOO_LARGE, [0x31, 0x65], [0x31, 0x65, 0x39], [0x31, 0x65, 0x39, 0x39], [0x39, 0x39, 0x39];
    assert Digits(two, 10) == None;
    assert three[..2] == two;
    assert Digits(three, 10) == None;
    assert four[..3] == three;
    assert Digits(four, 10) == None;
    assert t[..4] == four;
    assert Digits(t, 10) == None;
    assert DigitCount([0x39]) == 1;
    assert e[1..][1..] == [0x39];
    assert DigitCount(e) == 3;
    assert t[1..][0] == 0x65 && t[1..][1..] == e;
    assert DigitCount(t) == 1;
    assert DropSign(t) == t && DropSign(e) == e;
    assert IsDouble(t);
  }
}
