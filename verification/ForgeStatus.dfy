/** What a Forge server's status says about its mods (ForgeData.Decode of
    internal/proto/status.go): plain lists, or the payload of the `d` string, from the
    packed chars to the lists of mods and channels. Strings are their UTF-8 bytes. */
module ForgeStatus {
  import opened Prelude
  import opened Bits
  import opened Codec
  import ForgeBits

  type Bytes = seq<Byte>

  const MAX_STRING := 32767
  const COLON: Byte := 0x3A

  datatype Channel = Channel(name: Bytes, version: Bytes, acceptsAbsent: bool)

  datatype Mod = Mod(id: Bytes, version: Bytes)

  datatype Lists = Lists(mods: seq<Mod>, channels: seq<Channel>)

  /** A part was read, or an error ended the reading; what was read stays. */
  datatype Progress = Read(lists: Lists, rest: Bytes) | Stopped(lists: Lists, error: Error)

  datatype Answer =
    | Decoded(lists: Lists, truncated: bool, failed: Option<Error>)
    | Unpackable(error: ForgeBits.Error)

  datatype PlainChannel = PlainChannel(res: Bytes, version: Bytes, required: bool)

  datatype PlainMod = PlainMod(modId: Bytes, marker: Bytes)

  /** The `forgeData` object of a status. */
  datatype ForgeData = ForgeData(channels: seq<PlainChannel>, mods: seq<PlainMod>, truncated: bool,
                                 d: seq<ForgeBits.Rune>)

  // ------------------------------------------------------------------ decoding

  function ReadChannel(s: Bytes): Result<(Channel, Bytes), Error> {
    var name := StringOf(s, MAX_STRING);
    if name.Err? then Err(name.error)
    else
      var s1 := s[name.value.1..];
      var version := StringOf(s1, MAX_STRING);
      if version.Err? then Err(version.error)
      else
        var s2 := s1[version.value.1..];
        if s2 == [] then Err(UnexpectedEnd) else Ok((Channel(name.value.0, version.value.0, s2[0] != 0), s2[1..]))
  }

  /** The count for what is left after one. */
  function OneLess(n: nat): nat
    requires n > 0
  {
    n - 1
  }

  /** n channels, each name behind the given prefix. */
  function ReadChannels(s: Bytes, n: nat, prefix: Bytes, lists: Lists): Progress
    decreases n
  {
    if n == 0 then Read(lists, s)
    else
      var c := ReadChannel(s);
      if c.Err? then Stopped(lists, c.error)
      else ReadChannels(c.value.1, OneLess(n), prefix, WithChannel(lists, prefix, c.value.0))
  }

  function WithChannel(lists: Lists, prefix: Bytes, c: Channel): Lists {
    lists.(channels := lists.channels + [c.(name := prefix + c.name)])
  }

  /** The flags say how many channels follow, and in their lowest bit that there is
      no version. */
  function ReadMod(s: Bytes, lists: Lists): Progress {
    var flags := VarIntOf(s);
    if flags.Err? then Stopped(lists, flags.error)
    else
      var s1, bits := s[Span(s, 5)..], ToUint32(flags.value);
      var id := StringOf(s1, MAX_STRING);
      if id.Err? then Stopped(lists, id.error)
      else ReadVersion(s1[id.value.1..], bits % 2 == 0, bits / 2, id.value.0, lists)
  }

  function ReadVersion(s: Bytes, versioned: bool, n: nat, id: Bytes, lists: Lists): Progress {
    if !versioned then ReadChannels(s, n, id + [COLON], WithMod(lists, id, []))
    else
      var version := StringOf(s, MAX_STRING);
      if version.Err? then Stopped(lists, version.error)
      else ReadChannels(s[version.value.1..], n, id + [COLON], WithMod(lists, id, version.value.0))
  }

  function WithMod(lists: Lists, id: Bytes, version: Bytes): Lists {
    lists.(mods := lists.mods + [Mod(id, version)])
  }

  function ReadMods(s: Bytes, n: nat, lists: Lists): Progress
    decreases n
  {
    if n == 0 then Read(lists, s)
    else
      var p := ReadMod(s, lists);
      if p.Stopped? then p else ReadMods(p.rest, OneLess(n), p.lists)
  }

  /** The channels of no mod: a count, then that many; none if it is negative. */
  function ReadOthers(s: Bytes, lists: Lists): Progress {
    var n := VarIntOf(s);
    if n.Err? then Stopped(lists, n.error)
    else ReadChannels(s[Span(s, 5)..], if n.value < 0 then 0 else n.value, [], lists)
  }

  const NOTHING := Lists([], [])

  function DecodedPayload(data: Bytes): Answer {
    if data == [] then Decoded(NOTHING, false, Some(UnexpectedEnd))
    else if |data| < 3 then Decoded(NOTHING, false, Some(UnexpectedEnd))
    else
      var truncated := data[0] != 0;
      var mods := ReadMods(data[3..], Word(data[1], data[2]), NOTHING);
      var all := if mods.Stopped? then mods else ReadOthers(mods.rest, mods.lists);
      Decoded(all.lists, truncated, if all.Stopped? then Some(all.error) else None)
  }

  function DecodedString(d: seq<ForgeBits.Rune>): Answer {
    var data := ForgeBits.Unpacked(d);
    if data.Err? then Unpackable(data.error) else DecodedPayload(data.value)
  }

  /** Each list in its order, field by field. */
  function PlainLists(f: ForgeData): Lists {
    Lists(seq(|f.mods|, i requires 0 <= i < |f.mods| => Mod(f.mods[i].modId, f.mods[i].marker)),
          seq(|f.channels|, i requires 0 <= i < |f.channels| =>
                Channel(f.channels[i].res, f.channels[i].version, f.channels[i].required)))
  }

  /** The plain lists count only when there is no packed string. */
  function DecodedData(f: ForgeData): Answer {
    if f.d == [] then Decoded(PlainLists(f), f.truncated, None) else DecodedString(f.d)
  }

  // ------------------------------------------------------------ the code's loops

  lemma ChannelFrom(s: Bytes, s1: Bytes, s2: Bytes)
    requires StringOf(s, MAX_STRING).Ok? && s1 == s[StringOf(s, MAX_STRING).value.1..]
    requires StringOf(s1, MAX_STRING).Ok? && s2 == s1[StringOf(s1, MAX_STRING).value.1..]
    ensures
      var name, version := StringOf(s, MAX_STRING).value.0, StringOf(s1, MAX_STRING).value.0;
      ReadChannel(s) == if s2 == [] then Err(UnexpectedEnd) else Ok((Channel(name, version, s2[0] != 0), s2[1..]))
  {
  }

  method ReadOneChannel(b: Buffer) returns (r: Result<Channel, Error>)
    requires b.Valid()
    modifies b
    ensures b.Valid()
    ensures ReadChannel(old(b.Rest())) == if r.Ok? then Ok((r.value, b.Rest())) else Err(r.error)
  {
    ghost var s := b.Rest();
    var name := b.ReadString(MAX_STRING);
    if name.Err? { return Err(name.error); }
    ghost var s1 := s[StringOf(s, MAX_STRING).value.1..];
    assert b.Rest() == s1;
    var version := b.ReadString(MAX_STRING);
    if version.Err? { return Err(version.error); }
    ghost var s2 := s1[StringOf(s1, MAX_STRING).value.1..];
    assert b.Rest() == s2;
    ChannelFrom(s, s1, s2);
    var flag := b.ReadByte();
    if flag.Err? { return Err(flag.error); }
    assert b.Rest() == s2[1..];
    r := Ok(Channel(name.value, version.value, flag.value != 0));
  }

  /** A part of the code did what the function says. */
  ghost predicate Did(p: Progress, b: Buffer, lists: Lists, failed: Option<Error>)
    reads b
  {
    b.Valid() && p == if failed.Some? then Stopped(lists, failed.value) else Read(lists, b.Rest())
  }

  method AppendChannels(b: Buffer, n: nat, prefix: Bytes, lists: Lists) returns (lists': Lists, failed: Option<Error>)
    requires b.Valid()
    modifies b
    ensures Did(ReadChannels(old(b.Rest()), n, prefix, lists), b, lists', failed)
  {
    lists', failed := lists, None;
    ghost var goal, left := ReadChannels(b.Rest(), n, prefix, lists), n;
    for j := 0 to n
      invariant b.Valid() && left + j == n
      invariant ReadChannels(b.Rest(), left, prefix, lists') == goal
    {
      var c := ReadOneChannel(b);
      if c.Err? { return lists', Some(c.error); }
      lists', left := WithChannel(lists', prefix, c.value), OneLess(left);
    }
  }

  method AppendMod(b: Buffer, lists: Lists) returns (lists': Lists, failed: Option<Error>)
    requires b.Valid()
    modifies b
    ensures Did(ReadMod(old(b.Rest()), lists), b, lists', failed)
  {
    lists' := lists;
    ghost var s := b.Rest();
    var flags := b.ReadVarInt();
    if flags.Err? { return lists, Some(flags.error); }
    ghost var s1 := s[Span(s, 5)..];
    assert b.Rest() == s1;
    var id := b.ReadString(MAX_STRING);
    if id.Err? { return lists, Some(id.error); }
    assert b.Rest() == s1[StringOf(s1, MAX_STRING).value.1..];
    lists', failed := AppendVersion(b, ToUint32(flags.value) % 2 == 0, ToUint32(flags.value) / 2, id.value, lists);
  }

  method AppendVersion(b: Buffer, versioned: bool, n: nat, id: Bytes, lists: Lists)
      returns (lists': Lists, failed: Option<Error>)
    requires b.Valid()
    modifies b
    ensures Did(ReadVersion(old(b.Rest()), versioned, n, id, lists), b, lists', failed)
  {
    var text: Bytes := [];
    if versioned {
      ghost var s := b.Rest();
      var version := b.ReadString(MAX_STRING);
      if version.Err? { return lists, Some(version.error); }
      assert b.Rest() == s[StringOf(s, MAX_STRING).value.1..];
      text := version.value;
    }
    lists', failed := AppendChannels(b, n, id + [COLON], WithMod(lists, id, text));
  }

  method AppendMods(b: Buffer, n: nat, lists: Lists) returns (lists': Lists, failed: Option<Error>)
    requires b.Valid()
    modifies b
    ensures Did(ReadMods(old(b.Rest()), n, lists), b, lists', failed)
  {
    lists', failed := lists, None;
    ghost var goal, left := ReadMods(b.Rest(), n, lists), n;
    for i := 0 to n
      invariant b.Valid() && failed == None && left + i == n
      invariant ReadMods(b.Rest(), left, lists') == goal
    {
      lists', failed := AppendMod(b, lists');
      if failed.Some? { return; }
      left := OneLess(left);
    }
  }

  method AppendOthers(b: Buffer, lists: Lists) returns (lists': Lists, failed: Option<Error>)
    requires b.Valid()
    modifies b
    ensures Did(ReadOthers(old(b.Rest()), lists), b, lists', failed)
  {
    ghost var s := b.Rest();
    var n := b.ReadVarInt();
    if n.Err? { return lists, Some(n.error); }
    assert b.Rest() == s[Span(s, 5)..];
    lists', failed := AppendChannels(b, if n.value < 0 then 0 else n.value, [], lists);
  }

  method DecodePayload(data: Bytes) returns (r: Answer)
    ensures r == DecodedPayload(data)
  {
    var b := new Buffer(data);
    assert b.Rest() == data;
    var flag := b.ReadByte();
    if flag.Err? { return Decoded(NOTHING, false, Some(flag.error)); }
    assert b.Rest() == data[1..];
    var count := b.Uint16();
    if count.Err? { return Decoded(NOTHING, false, Some(count.error)); }
    assert b.Rest() == data[3..];
    var lists, failed := AppendMods(b, count.value, NOTHING);
    if failed.None? { lists, failed := AppendOthers(b, lists); }
    r := Decoded(lists, flag.value != 0, failed);
  }

  method Decode(f: ForgeData) returns (r: Answer)
    ensures r == DecodedData(f)
  {
    if f.d == [] {
      var mods: seq<Mod>, channels: seq<Channel> := [], [];
      for i := 0 to |f.mods|
        invariant mods == PlainLists(f).mods[..i]
      {
        mods := mods + [Mod(f.mods[i].modId, f.mods[i].marker)];
      }
      for i := 0 to |f.channels|
        invariant channels == PlainLists(f).channels[..i]
      {
        channels := channels + [Channel(f.channels[i].res, f.channels[i].version, f.channels[i].required)];
      }
      return Decoded(Lists(mods, channels), f.truncated, None);
    }
    var data := ForgeBits.Decode(f.d);
    if data.Err? { return Unpackable(data.error); }
    r := DecodePayload(data.value);
  }

  // ------------------------------------------------------------ what servers send

  /** A mod of the server; no version stands for IGNORESERVERONLY. */
  datatype ServerMod = ServerMod(id: Bytes, version: Option<Bytes>, channels: seq<Channel>)

  datatype ServerLists = ServerLists(truncated: bool, mods: seq<ServerMod>, others: seq<Channel>)

  function TextBytes(s: Bytes): Bytes {
    VarIntBytes(Truncate32(|s|)) + s
  }

  function FlagByte(flag: bool): Bytes {
    [if flag then 1 else 0]
  }

  function ChannelBytes(c: Channel): Bytes {
    TextBytes(c.name) + (TextBytes(c.version) + FlagByte(c.acceptsAbsent))
  }

  function ChannelsBytes(cs: seq<Channel>): Bytes {
    if cs == [] then [] else ChannelBytes(cs[0]) + ChannelsBytes(cs[1..])
  }

  function Flags(m: ServerMod): nat {
    2 * |m.channels| + if m.version.None? then 1 else 0
  }

  function VersionBytes(m: ServerMod): Bytes {
    (if m.version.Some? then TextBytes(m.version.value) else []) + ChannelsBytes(m.channels)
  }

  function ModBytes(m: ServerMod): Bytes {
    VarIntBytes(Truncate32(Flags(m))) + (TextBytes(m.id) + VersionBytes(m))
  }

  function ModsBytes(mods: seq<ServerMod>): Bytes {
    if mods == [] then [] else ModBytes(mods[0]) + ModsBytes(mods[1..])
  }

  function PayloadBytes(l: ServerLists): Bytes {
    FlagByte(l.truncated) + U16(|l.mods|)
      + (ModsBytes(l.mods) + (VarIntBytes(Truncate32(|l.others|)) + ChannelsBytes(l.others)))
  }

  // What the format can carry.

  predicate ChannelFits(c: Channel) {
    ValidString(c.name, 32767) && ValidString(c.version, 32767)
  }

  predicate ModFits(m: ServerMod) {
    && ValidString(m.id, 32767) && (m.version.Some? ==> ValidString(m.version.value, 32767))
    && |m.channels| < 0x8000_0000 && forall c <- m.channels :: ChannelFits(c)
  }

  predicate ListsFit(l: ServerLists) {
    && |l.mods| < 0x1_0000 && |l.others| < 0x8000_0000
    && (forall m <- l.mods :: ModFits(m)) && (forall c <- l.others :: ChannelFits(c))
  }

  // What the gateway should learn.

  function AddChannels(lists: Lists, prefix: Bytes, cs: seq<Channel>): Lists
    decreases |cs|
  {
    if cs == [] then lists else AddChannels(WithChannel(lists, prefix, cs[0]), prefix, cs[1..])
  }

  function VersionText(m: ServerMod): Bytes {
    if m.version.Some? then m.version.value else []
  }

  function AddMod(lists: Lists, m: ServerMod): Lists {
    AddChannels(WithMod(lists, m.id, VersionText(m)), m.id + [COLON], m.channels)
  }

  function AddMods(lists: Lists, mods: seq<ServerMod>): Lists
    decreases |mods|
  {
    if mods == [] then lists else AddMods(AddMod(lists, mods[0]), mods[1..])
  }

  // ------------------------------------------------------------------- round trip

  lemma TextReads(s: Bytes, rest: Bytes)
    requires ValidString(s, MAX_STRING)
    ensures StringOf(TextBytes(s) + rest, MAX_STRING) == Ok((s, |TextBytes(s)|))
    ensures (TextBytes(s) + rest)[|TextBytes(s)|..] == rest
  {
    ArrayRoundTrip(s, rest, 3 * MAX_STRING);
  }

  lemma ChannelReads(c: Channel, rest: Bytes)
    requires ChannelFits(c)
    ensures ReadChannel(ChannelBytes(c) + rest) == Ok((c, rest))
  {
    var flag, version := FlagByte(c.acceptsAbsent), TextBytes(c.version);
    Assoc(TextBytes(c.name), version + flag, rest);
    Assoc(version, flag, rest);
    TextReads(c.name, version + (flag + rest));
    TextReads(c.version, flag + rest);
    assert (flag + rest)[1..] == rest;
  }

  lemma {:induction false} ChannelsRead(cs: seq<Channel>, prefix: Bytes, lists: Lists, rest: Bytes)
    requires forall c <- cs :: ChannelFits(c)
    ensures ReadChannels(ChannelsBytes(cs) + rest, |cs|, prefix, lists) == Read(AddChannels(lists, prefix, cs), rest)
    decreases |cs|
  {
    if cs == [] {
      assert ChannelsBytes(cs) + rest == rest;
    } else {
      Assoc(ChannelBytes(cs[0]), ChannelsBytes(cs[1..]), rest);
      ChannelReads(cs[0], ChannelsBytes(cs[1..]) + rest);
      ChannelsRead(cs[1..], prefix, WithChannel(lists, prefix, cs[0]), rest);
    }
  }

  /** A count survives its way through an int32, the sign bit included. */
  lemma CountReads(n: nat, rest: Bytes)
    requires n < 0x1_0000_0000
    ensures
      var p := VarIntBytes(Truncate32(n));
      && VarIntOf(p + rest) == Ok(Truncate32(n)) && ToUint32(Truncate32(n)) == n
      && (p + rest)[Span(p + rest, 5)..] == rest
  {
    SmallMod(n);
    VarIntRoundTrip(Truncate32(n), rest);
  }

  lemma VersionStep(m: ServerMod, n: nat, lists: Lists, rest: Bytes)
    requires ModFits(m)
    ensures
      ReadVersion(VersionBytes(m) + rest, m.version.Some?, n, m.id, lists)
      == ReadChannels(ChannelsBytes(m.channels) + rest, n, m.id + [COLON], WithMod(lists, m.id, VersionText(m)))
  {
    if m.version.Some? {
      Assoc(TextBytes(m.version.value), ChannelsBytes(m.channels), rest);
      TextReads(m.version.value, ChannelsBytes(m.channels) + rest);
    } else {
      assert [] + ChannelsBytes(m.channels) == ChannelsBytes(m.channels);
    }
  }

  lemma VersionReads(m: ServerMod, lists: Lists, rest: Bytes)
    requires ModFits(m)
    ensures
      ReadVersion(VersionBytes(m) + rest, m.version.Some?, |m.channels|, m.id, lists)
      == Read(AddMod(lists, m), rest)
  {
    VersionStep(m, |m.channels|, lists, rest);
    ChannelsRead(m.channels, m.id + [COLON], WithMod(lists, m.id, VersionText(m)), rest);
  }

  lemma FlagsReadBack(m: ServerMod)
    ensures (Flags(m) % 2 == 0 <==> m.version.Some?) && Flags(m) / 2 == |m.channels|
  {
  }

  lemma ModReads(m: ServerMod, lists: Lists, rest: Bytes)
    requires ModFits(m)
    ensures ReadMod(ModBytes(m) + rest, lists) == Read(AddMod(lists, m), rest)
  {
    var flags, id, version := VarIntBytes(Truncate32(Flags(m))), TextBytes(m.id), VersionBytes(m);
    Assoc(flags, id + version, rest);
    Assoc(id, version, rest);
    CountReads(Flags(m), id + (version + rest));
    TextReads(m.id, version + rest);
    FlagsReadBack(m);
    VersionReads(m, lists, rest);
  }

  lemma {:induction false} ModsRead(mods: seq<ServerMod>, lists: Lists, rest: Bytes)
    requires forall m <- mods :: ModFits(m)
    ensures ReadMods(ModsBytes(mods) + rest, |mods|, lists) == Read(AddMods(lists, mods), rest)
    decreases |mods|
  {
    if mods == [] {
      assert ModsBytes(mods) + rest == rest;
    } else {
      Assoc(ModBytes(mods[0]), ModsBytes(mods[1..]), rest);
      ModReads(mods[0], lists, ModsBytes(mods[1..]) + rest);
      ModsRead(mods[1..], AddMod(lists, mods[0]), rest);
    }
  }

  lemma OthersRead(cs: seq<Channel>, lists: Lists)
    requires |cs| < 0x8000_0000 && forall c <- cs :: ChannelFits(c)
    ensures ReadOthers(VarIntBytes(Truncate32(|cs|)) + ChannelsBytes(cs), lists) == Read(AddChannels(lists, [], cs), [])
  {
    CountReads(|cs|, ChannelsBytes(cs));
    ChannelsRead(cs, [], lists, []);
    assert ChannelsBytes(cs) + [] == ChannelsBytes(cs);
  }

  /** The payload of a server's lists decodes to those lists, each mod's channels
      under the mod's id, and without an error. */
  lemma PayloadRoundTrip(l: ServerLists)
    requires ListsFit(l)
    ensures
      DecodedPayload(PayloadBytes(l))
      == Decoded(AddChannels(AddMods(NOTHING, l.mods), [], l.others), l.truncated, None)
  {
    var others := VarIntBytes(Truncate32(|l.others|)) + ChannelsBytes(l.others);
    PayloadHead(l.truncated, |l.mods|, ModsBytes(l.mods) + others);
    ModsRead(l.mods, NOTHING, others);
    OthersRead(l.others, AddMods(NOTHING, l.mods));
  }

  lemma PayloadHead(truncated: bool, n: nat, body: Bytes)
    requires n < 0x1_0000
    ensures
      var data := FlagByte(truncated) + U16(n) + body;
      |data| >= 3 && (data[0] != 0 <==> truncated) && Word(data[1], data[2]) == n && data[3..] == body
  {
  }

  /** The whole way from a Forge server's lists to the gateway's, through the
      15-bit packing, for every payload below 2^30 bytes, whatever the plain fields
      beside it hold. */
  lemma StatusRoundTrip(l: ServerLists, f: ForgeData)
    requires f.d == ForgeBits.Packed(PayloadBytes(l))
    ensures
      ListsFit(l) && |PayloadBytes(l)| < 0x4000_0000
      ==> DecodedData(f)
          == Decoded(AddChannels(AddMods(NOTHING, l.mods), [], l.others), l.truncated, None)
  {
    if ListsFit(l) && |PayloadBytes(l)| < 0x4000_0000 {
      ForgeBits.RoundTrip(PayloadBytes(l));
      PayloadRoundTrip(l);
    }
  }

  /** A server without a packed string is believed as it stands: every mod with its id
      and its marker, every channel with its name, its version and its flag, each in
      its place. */
  lemma PlainListsAreCopied(f: ForgeData)
    requires f.d == []
    ensures
      var r := DecodedData(f);
      && r.Decoded? && r.failed == None && r.truncated == f.truncated
      && |r.lists.mods| == |f.mods| && |r.lists.channels| == |f.channels|
      && (forall i :: 0 <= i < |f.mods| ==>
            r.lists.mods[i].id == f.mods[i].modId && r.lists.mods[i].version == f.mods[i].marker)
      && (forall i :: 0 <= i < |f.channels| ==>
            var c := r.lists.channels[i];
            && c.name == f.channels[i].res && c.version == f.channels[i].version
            && c.acceptsAbsent == f.channels[i].required)
  {
  }

  /** What a mod's channels are called in the gateway's list, and that nothing else
      is added: the i-th channel of a mod is listed as id:name. */
  lemma {:induction false} AddedChannels(lists: Lists, prefix: Bytes, cs: seq<Channel>)
    ensures
      var r := AddChannels(lists, prefix, cs);
      && r.mods == lists.mods && |r.channels| == |lists.channels| + |cs| && lists.channels <= r.channels
      && forall i :: 0 <= i < |cs| ==> r.channels[|lists.channels| + i] == cs[i].(name := prefix + cs[i].name)
    decreases |cs|
  {
    if cs != [] {
      var next := WithChannel(lists, prefix, cs[0]);
      AddedChannels(next, prefix, cs[1..]);
      var r := AddChannels(lists, prefix, cs);
      assert r.channels[|lists.channels|] == next.channels[|lists.channels|];
      forall i | 0 <= i < |cs| ensures r.channels[|lists.channels| + i] == cs[i].(name := prefix + cs[i].name) {
        if i > 0 { assert cs[i] == cs[1..][i - 1]; }
      }
    }
  }

  /** The channels of one mod, by name: its id, a colon, the channel's own name. */
  lemma ModChannels(lists: Lists, m: ServerMod)
    ensures
      var r := AddMod(lists, m);
      && |r.channels| == |lists.channels| + |m.channels|
      && forall i :: 0 <= i < |m.channels| ==>
           var c := r.channels[|lists.channels| + i];
           c.name == m.id + [0x3A] + m.channels[i].name && c.version == m.channels[i].version
           && c.acceptsAbsent == m.channels[i].acceptsAbsent
  {
    AddedChannels(WithMod(lists, m.id, VersionText(m)), m.id + [COLON], m.channels);
  }

  /** The gateway learns every mod, in the server's order, with its version. */
  lemma {:induction false} AddedMods(lists: Lists, mods: seq<ServerMod>)
    ensures
      var r := AddMods(lists, mods);
      && |r.mods| == |lists.mods| + |mods| && lists.mods <= r.mods
      && forall i :: 0 <= i < |mods| ==>
           r.mods[|lists.mods| + i] == Mod(mods[i].id, VersionText(mods[i]))
    decreases |mods|
  {
    if mods != [] {
      var m := mods[0];
      AddedChannels(WithMod(lists, m.id, VersionText(m)), m.id + [COLON], m.channels);
      AddedMods(AddMod(lists, m), mods[1..]);
      forall i | 0 <= i < |mods|
        ensures AddMods(lists, mods).mods[|lists.mods| + i] == Mod(mods[i].id, VersionText(mods[i]))
      {
        if i > 0 { assert mods[i] == mods[1..][i - 1]; }
      }
    }
  }

  // ------------------------------------------------------------- broken payloads

  /** `after` has all that `before` has, in its place, and maybe more. */
  predicate Extends(before: Lists, after: Lists) {
    before.mods <= after.mods && before.channels <= after.channels
  }

  lemma {:induction false} ChannelsExtend(s: Bytes, n: nat, prefix: Bytes, lists: Lists)
    ensures Extends(lists, ReadChannels(s, n, prefix, lists).lists)
    ensures ReadChannels(s, n, prefix, lists).lists.mods == lists.mods
    decreases n
  {
    if n > 0 {
      var c := ReadChannel(s);
      if c.Ok? { ChannelsExtend(c.value.1, OneLess(n), prefix, WithChannel(lists, prefix, c.value.0)); }
    }
  }

  lemma ModExtends(s: Bytes, lists: Lists)
    ensures Extends(lists, ReadMod(s, lists).lists)
  {
    var flags := VarIntOf(s);
    if flags.Ok? {
      var s1, bits := s[Span(s, 5)..], ToUint32(flags.value);
      var id := StringOf(s1, MAX_STRING);
      if id.Ok? { VersionExtends(s1[id.value.1..], bits % 2 == 0, bits / 2, id.value.0, lists); }
    }
  }

  lemma VersionExtends(s: Bytes, versioned: bool, n: nat, id: Bytes, lists: Lists)
    ensures Extends(lists, ReadVersion(s, versioned, n, id, lists).lists)
  {
    if !versioned {
      ChannelsExtend(s, n, id + [COLON], WithMod(lists, id, []));
    } else {
      var version := StringOf(s, MAX_STRING);
      if version.Ok? {
        ChannelsExtend(s[version.value.1..], n, id + [COLON], WithMod(lists, id, version.value.0));
      }
    }
  }

  lemma {:induction false} ModsExtend(s: Bytes, n: nat, lists: Lists)
    ensures Extends(lists, ReadMods(s, n, lists).lists)
    decreases n
  {
    if n > 0 {
      var p := ReadMod(s, lists);
      ModExtends(s, lists);
      if p.Read? { ModsExtend(p.rest, OneLess(n), p.lists); }
    }
  }

  /** What was read before an error stays: whatever bytes follow the mods of a server,
      the gateway has every one of them. */
  lemma ModsStay(mods: seq<ServerMod>, truncated: bool, n: nat, rest: Bytes)
    requires |mods| <= n < 0x1_0000 && forall m <- mods :: ModFits(m)
    ensures
      var r := DecodedPayload(FlagByte(truncated) + U16(n) + (ModsBytes(mods) + rest));
      r.Decoded? && r.truncated == truncated && Extends(AddMods(NOTHING, mods), r.lists)
  {
    PayloadHead(truncated, n, ModsBytes(mods) + rest);
    SomeModsRead(mods, n, NOTHING, rest);
    DecodedFrom(FlagByte(truncated) + U16(n) + (ModsBytes(mods) + rest), n, ModsBytes(mods) + rest);
  }

  lemma DecodedFrom(data: Bytes, n: nat, body: Bytes)
    requires |data| >= 3 && Word(data[1], data[2]) == n && data[3..] == body
    ensures
      var r := DecodedPayload(data);
      r.Decoded? && r.truncated == (data[0] != 0) && Extends(ReadMods(body, n, NOTHING).lists, r.lists)
  {
    var p := ReadMods(body, n, NOTHING);
    if p.Read? { OthersExtend(p.rest, p.lists); }
  }

  lemma {:induction false} SomeModsRead(mods: seq<ServerMod>, n: nat, lists: Lists, rest: Bytes)
    requires |mods| <= n && forall m <- mods :: ModFits(m)
    ensures Extends(AddMods(lists, mods), ReadMods(ModsBytes(mods) + rest, n, lists).lists)
    decreases |mods|
  {
    if mods == [] {
      assert ModsBytes(mods) + rest == rest;
      ModsExtend(rest, n, lists);
    } else {
      Assoc(ModBytes(mods[0]), ModsBytes(mods[1..]), rest);
      ModReads(mods[0], lists, ModsBytes(mods[1..]) + rest);
      SomeModsRead(mods[1..], OneLess(n), AddMod(lists, mods[0]), rest);
    }
  }

  lemma OthersExtend(s: Bytes, lists: Lists)
    ensures Extends(lists, ReadOthers(s, lists).lists)
  {
    var n := VarIntOf(s);
    if n.Ok? { ChannelsExtend(s[Span(s, 5)..], if n.value < 0 then 0 else n.value, [], lists); }
  }

  /** A negative count of further channels stands for none. */
  lemma NegativeCountIsNone(v: Int32, rest: Bytes, lists: Lists)
    requires v < 0
    ensures ReadOthers(VarIntBytes(v) + rest, lists) == Read(lists, rest)
  {
    VarIntRoundTrip(v, rest);
    assert (VarIntBytes(v) + rest)[|VarIntBytes(v)|..] == rest;
  }

  /** Less than the flag and the count gives nothing, and is an error. */
  lemma ShortPayload(data: Bytes)
    ensures
      |data| < 3 <==> DecodedPayload(data) == Decoded(Lists([], []), false, Some(UnexpectedEnd)) && |data| <= 2
    ensures |data| == 3 && data[1] == 0 && data[2] == 0 ==>
      DecodedPayload(data) == Decoded(Lists([], []), data[0] != 0, Some(UnexpectedEnd))
  {
    if |data| == 3 && data[1] == 0 && data[2] == 0 { assert data[3..] == []; }
  }
}
