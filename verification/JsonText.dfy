/** The reader and the writer of Json.java as they run: a cursor over the text, and
    a builder that text is appended to, proved against the functions of Json. */
module JsonText {
  import opened Prelude
  import opened Json

  // ------------------------------------------------------------------- writer

  method WriteQuoted(b: Text, s: Text) returns (r: Text)
    ensures r == b + Quoted(s)
  {
    r := b + [QUOTE];
    for k := 0 to |s|
      invariant r + EscapedAll(s[k..]) == b + [QUOTE] + EscapedAll(s)
    {
      var c := s[k];
      assert s[k..][1..] == s[k + 1..];
      assert r + EscapedAll(s[k..]) == r + Escaped(c) + EscapedAll(s[k + 1..]);
      if c == QUOTE { r := r + [BACKSLASH, QUOTE]; }
      else if c == BACKSLASH { r := r + [BACKSLASH, BACKSLASH]; }
      else if c == NEWLINE { r := r + [BACKSLASH, 0x6E]; }
      else if c == RETURN { r := r + [BACKSLASH, 0x72]; }
      else if c == TAB { r := r + [BACKSLASH, 0x74]; }
      else if c < 0x20 { r := r + [BACKSLASH, 0x75, ZERO, ZERO, HexDigit(c / 16), HexDigit(c % 16)]; }
      else { r := r + [c]; }
    }
    assert r == b + [QUOTE] + EscapedAll(s);
    r := r + [QUOTE];
    assert r == b + Quoted(s);
  }

  method Write(b: Text, v: Tree) returns (r: Text)
    ensures r == b + Written(v)
    decreases v
  {
    match v
    case Null => r := b + NULL;
    case Str(s) => r := WriteQuoted(b, s);
    case Long(_) => r := b + WrittenLong(v.n);
    case Double(text) => r := b + text;
    case Bool(flag) => r := b + if flag then TRUE else FALSE;
    case Object(members) =>
      r := WriteMembers(b + [OPEN_BRACE], members);
      r := r + [CLOSE_BRACE];
    case List(items) =>
      r := WriteItems(b + [OPEN_BRACKET], items);
      r := r + [CLOSE_BRACKET];
  }

  method WriteItems(b: Text, items: seq<Tree>) returns (r: Text)
    ensures r == b + WrittenItems(items)
    decreases items
  {
    r := b;
    var first := true;
    for k := 0 to |items|
      invariant first == (k == 0)
      invariant r + (if first then WrittenItems(items[k..]) else MoreItems(items[k..])) == b + WrittenItems(items)
    {
      ghost var todo, before := items[k..], r;
      assert todo[0] == items[k] && todo[1..] == items[k + 1..];
      if !first {
        r := r + [COMMA];
        Assoc(before, [COMMA], Written(items[k]) + MoreItems(items[k + 1..]));
      }
      first := false;
      assert r + (Written(items[k]) + MoreItems(items[k + 1..])) == b + WrittenItems(items);
      before := r;
      r := Write(r, items[k]);
      Assoc(before, Written(items[k]), MoreItems(items[k + 1..]));
    }
  }

  method WriteMember(b: Text, m: Member) returns (r: Text)
    ensures r == b + WrittenMember(m)
    decreases m
  {
    r := WriteQuoted(b, m.key);
    r := r + [COLON];
    r := Write(r, m.value);
  }

  method WriteMembers(b: Text, members: seq<Member>) returns (r: Text)
    ensures r == b + WrittenMembers(members)
    decreases members
  {
    r := b;
    var first := true;
    for k := 0 to |members|
      invariant first == (k == 0)
      invariant
        r + (if first then WrittenMembers(members[k..]) else MoreMembers(members[k..]))
        == b + WrittenMembers(members)
    {
      ghost var todo, before := members[k..], r;
      assert todo[0] == members[k] && todo[1..] == members[k + 1..];
      if !first {
        r := r + [COMMA];
        Assoc(before, [COMMA], WrittenMember(members[k]) + MoreMembers(members[k + 1..]));
      }
      first := false;
      assert r + (WrittenMember(members[k]) + MoreMembers(members[k + 1..])) == b + WrittenMembers(members);
      before := r;
      r := WriteMember(r, members[k]);
      Assoc(before, WrittenMember(members[k]), MoreMembers(members[k + 1..]));
    }
  }

  // ------------------------------------------------------------------- reader

  class Reader {
    const s: Text
    var i: nat
    var depth: nat

    ghost predicate Valid() reads this { i <= |s| }

    ghost function Rest(): Text
      reads this
      requires Valid()
    {
      s[i..]
    }

    /** The reader has done, from the text `was` on, what the function says. */
    ghost predicate Did<T>(parsed: Parsed<T>, r: Result<T, Error>)
      reads this
    {
      && Valid()
      && match parsed
         case Got(v, rest) => r == Ok(v) && Rest() == rest
         case Fail(e) => r == Err(e)
    }

    /** One turn of a loop has done what the function says. */
    ghost predicate Took<T>(turn: Turn<T>, r: Result<(T, bool), Error>)
      reads this
    {
      && Valid()
      && match turn
         case More(v, rest) => r == Ok((v, true)) && Rest() == rest
         case Done(v, rest) => r == Ok((v, false)) && Rest() == rest
         case Broken(e) => r == Err(e)
    }

    /** i++ */
    method Advance()
      requires Valid() && i < |s|
      modifies this`i
      ensures Valid() && i == old(i) + 1 && Rest() == old(Rest())[1..]
    {
      i := i + 1;
    }

    constructor (s: Text)
      ensures Valid() && this.s == s && i == 0 && depth == 0
    {
      this.s := s;
      i, depth := 0, 0;
    }

    /** ws */
    method Space()
      requires Valid()
      modifies this`i
      ensures Valid() && old(i) <= i && Rest() == SkipSpace(old(Rest()))
    {
      while i < |s|
        invariant Valid() && old(i) <= i && SkipSpace(Rest()) == SkipSpace(old(Rest()))
      {
        ghost var t := Rest();
        var c := s[i];
        if IsSpace(c) {
          i := i + 1;
          assert Rest() == t[1..];
        } else if c == SLASH && i + 1 < |s| && s[i + 1] == SLASH {
          SkipLine();
        } else if c == SLASH && i + 1 < |s| && s[i + 1] == STAR {
          SkipComment();
        } else {
          return;
        }
      }
    }

    method SkipLine()
      requires Valid() && i < |s| && s[i] != NEWLINE
      modifies this`i
      ensures Valid() && old(i) < i && Rest() == LineEnd(old(Rest()))
    {
      while i < |s| && s[i] != NEWLINE
        invariant Valid() && old(i) <= i && LineEnd(Rest()) == LineEnd(old(Rest()))
        invariant i == old(i) ==> i < |s| && s[i] != NEWLINE
      {
        assert s[i..][1..] == s[i + 1..];
        i := i + 1;
      }
    }

    /** To the end of a block comment, or of the text when it has none. */
    method SkipComment()
      requires Valid() && i + 1 < |s|
      modifies this`i
      ensures Valid() && old(i) < i && Rest() == CommentEnd(old(Rest())[2..])
    {
      i := i + 2;
      assert Rest() == old(Rest())[2..];
      while i + 1 < |s| && !(s[i] == STAR && s[i + 1] == SLASH)
        invariant Valid() && old(i) < i && CommentEnd(Rest()) == CommentEnd(old(Rest())[2..])
      {
        assert s[i..][1..] == s[i + 1..];
        i := i + 1;
      }
      i := if i + 1 < |s| then i + 2 else |s|;
    }

    method Literal(word: Text, v: Tree) returns (r: Result<Tree, Error>)
      requires Valid()
      modifies this`i
      ensures old(i) <= i && Did(ReadLiteral(old(Rest()), word, v), r)
    {
      if i + |word| > |s| || s[i..i + |word|] != word {
        assert !(word <= Rest());
        return Err(UnexpectedCharacter);
      }
      assert word <= Rest();
      i := i + |word|;
      r := Ok(v);
    }

    /** string, from the opening quotation mark on. */
    method Text() returns (r: Result<Text, Error>)
      requires Valid() && i < |s|
      modifies this`i
      ensures old(i) <= i && Did(ReadString(old(Rest())[1..], []), r)
    {
      i := i + 1;
      ghost var goal := ReadString(Rest(), []);
      var b: Text := [];
      while true
        invariant Valid() && old(i) < i && ReadString(Rest(), b) == goal
        decreases |s| - i
      {
        ghost var t := Rest();
        if i >= |s| { return Err(UnterminatedString); }
        var c := s[i];
        i := i + 1;
        assert Rest() == t[1..];
        if c == QUOTE { return Ok(b); }
        if c != BACKSLASH {
          b := b + [c];
          continue;
        }
        if i >= |s| { return Err(UnterminatedEscape); }
        var e := s[i];
        i := i + 1;
        assert Rest() == t[2..];
        if e == 0x75 {
          if i + 4 > |s| { return Err(BadUnicodeEscape); }
          assert s[i..i + 4] == t[2..6];
          var code := Signed(s[i..i + 4], 16);
          if code.None? { return Err(BadUnicodeEscape); }
          b := b + [code.value % 0x1_0000];
          i := i + 4;
          assert Rest() == t[6..];
        } else {
          b := b + [Unescaped(e)];
        }
      }
    }

    method Number() returns (r: Result<Tree, Error>)
      requires Valid()
      modifies this`i
      ensures old(i) <= i && Did(ReadNumber(old(Rest())), r)
    {
      var start := i;
      while i < |s| && NumberUnit(s[i])
        invariant start <= i <= |s| && NumberLen(s[start..]) == i - start + NumberLen(s[i..])
      {
        assert s[i..][1..] == s[i + 1..];
        i := i + 1;
      }
      ghost var t, k := s[start..], i - start;
      assert NumberLen(t) == k;
      if start == i { return Err(UnexpectedCharacter); }
      assert s[start..i] == t[..k] && Rest() == t[k..];
      r := ParseNumber(s[start..i]);
    }

    method Value() returns (r: Result<Tree, Error>)
      requires Valid()
      modifies this
      ensures old(i) <= i && Did(ReadValue(old(Rest()), old(depth)), r)
      ensures r.Ok? ==> depth == old(depth)
      decreases |s| - i, 2
    {
      ghost var t := Rest();
      if i >= |s| { return Err(UnexpectedEnd); }
      var c := s[i];
      if c == OPEN_BRACE { r := ObjectValue(); }
      else if c == OPEN_BRACKET { r := ListValue(); }
      else if c == QUOTE {
        var text := Text();
        r := if text.Ok? then Ok(Str(text.value)) else Err(text.error);
      }
      else if c == TRUE[0] { r := Literal(TRUE, Bool(true)); }
      else if c == FALSE[0] { r := Literal(FALSE, Bool(false)); }
      else if c == NULL[0] { r := Literal(NULL, Null); }
      else { r := Number(); }
    }

    /** array */
    method ListValue() returns (r: Result<Tree, Error>)
      requires Valid() && i < |s|
      modifies this
      ensures old(i) <= i && Did(ReadList(old(Rest()), old(depth)), r)
      ensures r.Ok? ==> depth == old(depth)
      decreases |s| - i, 1
    {
      depth := depth + 1;
      if depth > MAX_DEPTH { return Err(NestingTooDeep); }
      ghost var start := i;
      assert s[i..][1..] == s[i + 1..];
      i := i + 1;
      ghost var goal := ReadItems(Rest(), depth, []);
      var list: seq<Tree>, more := [], true;
      while more
        invariant Valid() && start < i && depth == old(depth) + 1
        invariant (if more then ReadItems(Rest(), depth, list) else Got(List(list), Rest())) == goal
        decreases more, |s| - i
      {
        var turn := ItemTurn(list);
        if turn.Err? { return Err(turn.error); }
        list, more := turn.value.0, turn.value.1;
      }
      depth := depth - 1;
      r := Ok(List(list));
    }

    /** One turn of the loop of array, and whether another one follows. */
    method ItemTurn(list: seq<Tree>) returns (r: Result<(seq<Tree>, bool), Error>)
      requires Valid()
      modifies this
      ensures old(i) <= i && Took(ItemsTurn(old(Rest()), old(depth), list), r)
      ensures r.Ok? ==> depth == old(depth)
      decreases |s| - i, 3
    {
      Space();
      if i >= |s| { return Err(UnterminatedArray); }
      if s[i] == CLOSE_BRACKET {
        Advance();
        return Ok((list, false));
      }
      var v := Value();
      if v.Err? { return Err(v.error); }
      Space();
      if i < |s| && s[i] == COMMA {
        Advance();
        return Ok((list + [v.value], true));
      }
      if i < |s| && s[i] == CLOSE_BRACKET {
        Advance();
        return Ok((list + [v.value], false));
      }
      r := Err(ExpectedCommaOrBracket);
    }

    /** object */
    method ObjectValue() returns (r: Result<Tree, Error>)
      requires Valid() && i < |s|
      modifies this
      ensures old(i) <= i && Did(ReadObject(old(Rest()), old(depth)), r)
      ensures r.Ok? ==> depth == old(depth)
      decreases |s| - i, 1
    {
      depth := depth + 1;
      if depth > MAX_DEPTH { return Err(NestingTooDeep); }
      ghost var start := i;
      assert s[i..][1..] == s[i + 1..];
      i := i + 1;
      ghost var goal := ReadMembers(Rest(), depth, []);
      var m: seq<Member>, more := [], true;
      while more
        invariant Valid() && start < i && depth == old(depth) + 1
        invariant (if more then ReadMembers(Rest(), depth, m) else Got(Object(m), Rest())) == goal
        decreases more, |s| - i
      {
        var turn := MemberTurn(m);
        if turn.Err? { return Err(turn.error); }
        m, more := turn.value.0, turn.value.1;
      }
      depth := depth - 1;
      r := Ok(Object(m));
    }

    /** One turn of the loop of object, and whether another one follows. */
    method MemberTurn(m: seq<Member>) returns (r: Result<(seq<Member>, bool), Error>)
      requires Valid()
      modifies this
      ensures old(i) <= i && Took(MembersTurn(old(Rest()), old(depth), m), r)
      ensures r.Ok? ==> depth == old(depth)
      decreases |s| - i, 3
    {
      Space();
      if i >= |s| { return Err(UnterminatedObject); }
      if s[i] == CLOSE_BRACE {
        Advance();
        return Ok((m, false));
      }
      var entry := KeyAndValue();
      if entry.Err? { return Err(entry.error); }
      var m' := Put(m, entry.value.key, entry.value.value);
      Space();
      if i < |s| && s[i] == COMMA {
        Advance();
        return Ok((m', true));
      }
      if i < |s| && s[i] == CLOSE_BRACE {
        Advance();
        return Ok((m', false));
      }
      r := Err(ExpectedCommaOrBrace);
    }

    /** The key, the colon and the value of one turn of the loop of object. */
    method KeyAndValue() returns (r: Result<Member, Error>)
      requires Valid() && i < |s|
      modifies this
      ensures old(i) <= i && Did(ReadMember(old(Rest()), old(depth)), r)
      ensures r.Ok? ==> depth == old(depth)
      decreases |s| - i, 0
    {
      if s[i] != QUOTE { return Err(ExpectedKey); }
      var key := Text();
      if key.Err? { return Err(key.error); }
      Space();
      if i >= |s| || s[i] != COLON { return Err(ExpectedColon); }
      Advance();
      Space();
      var v := Value();
      if v.Err? { return Err(v.error); }
      r := Ok(Member(key.value, v.value));
    }
  }

  method ParseText(text: Text) returns (r: Result<Tree, Error>)
    ensures r == Parse(text)
  {
    var p := new Reader(text);
    assert p.Rest() == text;
    p.Space();
    r := p.Value();
    if r.Err? { return; }
    p.Space();
    if p.i < |p.s| { return Err(TrailingData); }
  }
}
