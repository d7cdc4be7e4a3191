/** Which bytes the decoder of the control trace accepts: those the encoder writes, and no others. */
module TraceAccepts {
  import opened Options
  import opened Frames
  import opened Bytes
  import opened TraceCodec
  import opened TraceDecode
  import opened TraceFile

  // ---------------------------------------------------------------- words and fields

  lemma {:induction false} WrittenBack(bytes: seq<Byte>)
    ensures LE(FromLE(bytes), |bytes|) == bytes
    decreases |bytes|
  {
    if bytes != [] {
      WrittenBack(bytes[1..]);
      HeadTail(bytes);
    }
  }

  lemma {:induction false} NumbersWrittenBack(bytes: seq<Byte>, n: nat)
    requires |bytes| == 8 * n
    ensures LEs(FromLEs(bytes, n)) == bytes
    decreases n
  {
    hide LE, FromLE;
    if n > 0 {
      FromLEBound(bytes[..8]);
      WordSizes();
      WrittenBack(bytes[..8]);
      NumbersWrittenBack(bytes[8..], n - 1);
      assert bytes == bytes[..8] + bytes[8..];
    }
  }

  lemma FieldWrittenBack(fmt: Format, bytes: seq<Byte>)
    requires |bytes| == Size(fmt)
    ensures Encode(Decode(fmt, bytes)) == bytes
  {
    hide LE, FromLE, LEs, FromLEs;
    FromLEBound(bytes);
    WordSizes();
    WrittenBack(bytes);
    if fmt.FDoubles? {
      NumbersWrittenBack(bytes, fmt.n);
    }
  }

  lemma OneFieldRead(fmt: Format, data: seq<Byte>, offset: nat, rest: seq<Field>, end: nat)
    requires offset + Size(fmt) <= end <= |data| && Holds(data, offset + Size(fmt), EncodeAll(rest))
    requires end == offset + Size(fmt) + |EncodeAll(rest)|
    ensures var fs := [Decode(fmt, data[offset..offset + Size(fmt)])] + rest;
            Holds(data, offset, EncodeAll(fs)) && end == offset + |EncodeAll(fs)|
  {
    hide Decode, Encode, EncodeAll;
    var mid := offset + Size(fmt);
    FieldWrittenBack(fmt, data[offset..mid]);
    OneFieldFirst(Decode(fmt, data[offset..mid]), rest);
    assert data[offset..end] == data[offset..mid] + data[mid..end];
  }

  /** What has been read is what encodes to the bytes it was read from. */
  lemma {:induction false} ReadIsThere(fmts: seq<Format>, data: seq<Byte>, offset: nat)
    requires offset <= |data| && ReadAll(fmts, data, offset).Some?
    ensures var (fs, end) := ReadAll(fmts, data, offset).value;
            Holds(data, offset, EncodeAll(fs)) && end == offset + |EncodeAll(fs)|
    decreases |fmts|
  {
    hide Decode, Encode, FormatsOf, Size, EncodeAll;
    if fmts == [] {
      NothingEncoded();
    } else {
      var mid := offset + Size(fmts[0]);
      ReadIsThere(fmts[1..], data, mid);
      var (rest, end) := ReadAll(fmts[1..], data, mid).value;
      OneFieldRead(fmts[0], data, offset, rest, end);
    }
  }

  lemma NothingEncoded()
    ensures EncodeAll([]) == []
  {
  }

  // ---------------------------------------------------------------- commands

  /** The C int whose 32 bits these are. */
  function AsInt(word: U32): (n: Int32)
    ensures ToU32(n) == word
  {
    if word < 0x8000_0000 then word else word - WORD32
  }

  const NO_MTB := Mtb(0, [0, 0, 0])
  const NO_WHEEL := Wheel(0, [0, 0, 0, 0])
  const NO_THRUSTER := Thruster(0, [0, 0, 0], [0, 0, 0])
  const NO_SET_MODE := SetMode(0, 0, 0, [0, 0, 0, 0], [0, 0, 0], [0, 0, 0], 0, 0, 0)

  lemma FieldsAre(fs: seq<Field>, fmts: seq<Format>)
    requires FormatsOf(fs) == fmts
    ensures |fs| == |fmts| && forall k :: 0 <= k < |fs| ==> FormatOf(fs[k]) == fmts[k]
  {
  }

  /** Head and body of a known type are those of some command. */
  lemma SomeCommand(head: seq<Field>, body: seq<Field>) returns (c: Command)
    requires FormatsOf(head) == HEAD_FORMATS
    requires head[0].Word? && Known(head[0].word) && FormatsOf(body) == BodyFormats(head[0].word)
    ensures ValidCommand(c) && Known(c.kind) && HeadFields(c) == head && BodyFields(c) == body
  {
    hide FormatsOf;
    FieldsAre(head, HEAD_FORMATS);
    FieldsAre(body, BodyFormats(head[0].word));
    var kind := head[0].word;
    c := Command(kind, AsInt(head[1].word), AsInt(head[2].word), NO_MTB, NO_WHEEL, NO_THRUSTER, NO_SET_MODE);
    if kind == 1 {
      c := c.(mtb := Mtb(AsInt(body[0].word), body[1].values));
    } else if kind == 2 {
      c := c.(wheel := Wheel(AsInt(body[0].word), body[1].values));
    } else if kind == 3 {
      c := c.(thruster := Thruster(AsInt(body[0].word), body[1].values, body[2].values));
    } else if kind == 4 {
      c := c.(setMode := SetMode(AsInt(body[0].word), AsInt(body[1].word), AsInt(body[2].word), body[3].values,
                                 body[4].values, body[5].values, AsInt(body[6].word), AsInt(body[7].word),
                                 AsInt(body[8].word)));
    }
    assert ToU32(c.kind) == kind;
  }

  lemma CommandIsThere(data: seq<Byte>, offset: nat) returns (c: Command)
    requires offset <= |data| && ReadCommand(data, offset).Ok?
    ensures ValidCommand(c) && Known(c.kind)
    ensures var bytes := EncodeAll(HeadFields(c) + BodyFields(c));
            Holds(data, offset, bytes) && ReadCommand(data, offset).value.1 == offset + |bytes|
  {
    hide ReadAll, FormatsOf, EncodeAll, BodyFormats, BodyFrom, HeadFields, BodyFields, ValidCommand;
    var (head, mid) := ReadAll(HEAD_FORMATS, data, offset).value;
    FieldsAre(head, HEAD_FORMATS);
    assert FormatOf(head[0]) == FWord;
    ReadIsThere(HEAD_FORMATS, data, offset);
    var (body, end) := ReadAll(BodyFormats(head[0].word), data, mid).value;
    ReadIsThere(BodyFormats(head[0].word), data, mid);
    c := SomeCommand(head, body);
    EncodeAllConcat(head, body);
    SideBySide(data, offset, EncodeAll(head), EncodeAll(body));
  }

  lemma SideBySide(data: seq<Byte>, offset: nat, a: seq<Byte>, b: seq<Byte>)
    requires Holds(data, offset, a) && Holds(data, offset + |a|, b)
    ensures Holds(data, offset, a + b)
  {
    var mid, end := offset + |a|, offset + |a| + |b|;
    assert data[offset..end] == data[offset..mid] + data[mid..end];
  }

  ghost predicate AllValid(cs: seq<Command>) {
    forall k :: 0 <= k < |cs| ==> ValidCommand(cs[k])
  }

  lemma FirstCommand(c: Command, rest: seq<Command>)
    ensures AllValid([c] + rest) <==> ValidCommand(c) && AllValid(rest)
    ensures AllKnown([c] + rest) <==> Known(c.kind) && AllKnown(rest)
    ensures EncodeAll(CommandsFields([c] + rest))
            == EncodeAll(HeadFields(c) + BodyFields(c)) + EncodeAll(CommandsFields(rest))
  {
    hide HeadFields, BodyFields, ValidCommand, Known, EncodeAll;
    var all := [c] + rest;
    assert all[0] == c && all[1..] == rest && forall k :: 0 <= k < |rest| ==> all[k + 1] == rest[k];
    EncodeAllConcat(HeadFields(c) + BodyFields(c), CommandsFields(rest));
  }

  lemma {:induction false} CommandsAreThere(data: seq<Byte>, offset: nat, count: nat) returns (cs: seq<Command>)
    requires offset <= |data| && ReadCommands(data, offset, count).Ok?
    ensures |cs| == count && AllValid(cs) && AllKnown(cs)
    ensures var bytes := EncodeAll(CommandsFields(cs));
            Holds(data, offset, bytes) && ReadCommands(data, offset, count).value.1 == offset + |bytes|
    decreases count
  {
    hide ReadCommand, EncodeAll, CommandsFields, HeadFields, BodyFields, ValidCommand, Known;
    if count == 0 {
      cs := [];
      NoCommands();
    } else {
      var c := CommandIsThere(data, offset);
      var mid := ReadCommand(data, offset).value.1;
      var rest := CommandsAreThere(data, mid, count - 1);
      cs := [c] + rest;
      FirstCommand(c, rest);
      SideBySide(data, offset, EncodeAll(HeadFields(c) + BodyFields(c)), EncodeAll(CommandsFields(rest)));
    }
  }

  lemma NoCommands()
    ensures EncodeAll(CommandsFields([])) == [] && AllValid([]) && AllKnown([])
  {
  }

  // ---------------------------------------------------------------- records

  lemma LengthsAt(k: nat)
    requires 2 <= k <= 12 || k == 14 || k == 20
    ensures |STATE_FORMATS| == 22
    ensures STATE_FORMATS[k] == if k == 2 then FDoubles(4) else if k == 20 then FText(40) else FDoubles(3)
  {
    StateFormatsAt(k);
  }

  lemma LengthsOf(fs: seq<Field>)
    requires FormatsOf(fs) == STATE_FORMATS
    ensures |fs| == 22
    ensures fs[2].Doubles? && |fs[2].values| == 4
    ensures forall k :: 3 <= k <= 12 || k == 14 ==> fs[k].Doubles? && |fs[k].values| == 3
    ensures fs[20].Text? && |fs[20].bytes| == 40
  {
    hide *;
    FieldsAre(fs, STATE_FORMATS);
    FormatTells(fs, 2);
    FormatTells(fs, 20);
    forall k | 3 <= k <= 12 || k == 14
      ensures fs[k].Doubles? && |fs[k].values| == 3
    {
      FormatTells(fs, k);
    }
  }

  lemma FormatTells(fs: seq<Field>, k: nat)
    requires FormatsOf(fs) == STATE_FORMATS && (2 <= k <= 12 || k == 14 || k == 20)
    ensures |fs| == 22
    ensures k == 20 ==> fs[k].Text? && |fs[k].bytes| == 40
    ensures k == 2 ==> fs[k].Doubles? && |fs[k].values| == 4
    ensures 2 < k < 20 ==> fs[k].Doubles? && |fs[k].values| == 3
  {
    hide FormatsOf;
    LengthsAt(k);
    FieldsAre(fs, STATE_FORMATS);
    assert FormatOf(fs[k]) == STATE_FORMATS[k];
  }

  function StateOf(fs: seq<Field>): State
    requires FormatsOf(fs) == STATE_FORMATS
  {
    StateFieldsAre(fs);
    State(fs[0].values[0], fs[1].values[0], fs[2].values, fs[3].values, fs[4].values, fs[5].values, fs[6].values,
          fs[7].values, fs[8].values, fs[9].values, fs[10].values, fs[11].values, fs[12].values, fs[13].values[0],
          fs[14].values, fs[15].values, AsInt(fs[16].word), fs[17].values[0], AsInt(fs[18].word), AsInt(fs[19].word),
          fs[20].bytes, AsInt(fs[21].word))
  }

  lemma SomeState(fs: seq<Field>)
    requires FormatsOf(fs) == STATE_FORMATS
    ensures ValidState(StateOf(fs)) && StateFields(StateOf(fs)) == fs
  {
    hide FormatsOf;
    StateFieldsAre(fs);
    LengthsOf(fs);
    var s := StateOf(fs);
    TimesBack(s, fs);
    MassesBack(s, fs);
    StatusBack(s, fs);
    assert VectorFields(s) == fs[2..13];
    assert fs == fs[..2] + fs[2..13] + fs[13..16] + fs[16..];
  }

  lemma TimesBack(s: State, fs: seq<Field>)
    requires |fs| == 22 && fs[0] == Doubles([s.simTime]) && fs[1] == Doubles([s.dynTime])
    ensures TimeFields(s) == fs[..2]
  {
  }

  lemma MassesBack(s: State, fs: seq<Field>)
    requires |fs| == 22 && fs[13] == Doubles([s.mass]) && fs[14] == Doubles(s.cm) && fs[15] == Doubles(s.inertia)
    ensures MassFields(s) == fs[13..16]
  {
  }

  lemma StatusBack(s: State, fs: seq<Field>)
    requires |fs| == 22 && fs[16] == Word(ToU32(s.eclipse)) && fs[17] == Doubles([s.atmoDensity])
    requires fs[18] == Word(ToU32(s.spacecraftId)) && fs[19] == Word(ToU32(s.present))
    requires fs[20] == Text(s.name) && fs[21] == Word(ToU32(s.valid))
    ensures StatusFields(s) == fs[16..]
  {
  }

  /** What the decoder accepts is the record of a tick, command types of the enumeration only. */
  lemma TickIsThere(data: seq<Byte>) returns (t: Tick)
    requires DecodeTick(data).Ok?
    ensures ValidTick(t) && AllKnown(t.commands) && EncodeTick(t) == data
  {
    hide ReadAll, FormatsOf, EncodeAll, ReadCommands, StateFrom, StateOf, StateFields, CommandsFields, ValidState,
         ValidCommand, AllKnown;
    var (fields, offset) := ReadAll(PREAMBLE_FORMATS, data, 0).value;
    ReadIsThere(PREAMBLE_FORMATS, data, 0);
    PreambleFieldsAre(fields);
    var count := fields[24].word;
    var cs := CommandsAreThere(data, offset, count);
    SomeState(fields[2..24]);
    t := Tick(fields[0].long, fields[1].long, StateOf(fields[2..24]), cs);
    assert PreambleFields(t) == fields;
    SideBySide(data, 0, EncodeAll(fields), EncodeAll(CommandsFields(cs)));
    EncodeAllConcat(fields, CommandsFields(cs));
    assert data == data[0..|data|];
  }

  ghost predicate IsRecordOf(data: seq<Byte>, t: Tick) {
    ValidTick(t) && AllKnown(t.commands) && data == EncodeTick(t)
  }

  /** The decoder accepts exactly the records the encoder writes for ticks whose command types are of the enumeration:
      anything cut, anything longer, and any other count or type is refused. */
  lemma RecordAcceptedExactly(data: seq<Byte>)
    ensures DecodeTick(data).Ok? <==> exists t :: IsRecordOf(data, t)
  {
    hide DecodeTick, EncodeTick, ValidTick, AllKnown;
    if DecodeTick(data).Ok? {
      var t := TickIsThere(data);
      assert IsRecordOf(data, t);
    }
    if t :| IsRecordOf(data, t) {
      TickRoundTrip(t);
    }
  }

  // ---------------------------------------------------------------- files

  lemma FirstTick(t: Tick, rest: seq<Tick>)
    requires ValidTick(t) && ValidTicks(rest)
    ensures ValidTicks([t] + rest)
    ensures FramedAll(EncodeTicks([t] + rest)) == Framed(EncodeTick(t)) + FramedAll(EncodeTicks(rest))
  {
    hide EncodeTick, Framed, ValidTick;
    var all := [t] + rest;
    assert all[0] == t && all[1..] == rest && forall k :: 0 <= k < |rest| ==> all[k + 1] == rest[k];
    assert EncodeTicks(all)[1..] == EncodeTicks(rest);
  }

  ghost predicate AllOfKnown(ticks: seq<Tick>) {
    forall k :: 0 <= k < |ticks| ==> AllKnown(ticks[k].commands)
  }

  lemma FrameIsThere(file: seq<Byte>, offset: nat, length: nat)
    requires offset + 4 + length <= |file| && length == FromLE(file[offset..offset + 4])
    ensures file[offset..] == Framed(file[offset + 4..offset + 4 + length]) + file[offset + 4 + length..]
  {
    hide LE, FromLE;
    WrittenBack(file[offset..offset + 4]);
    var start := offset + 4;
    assert file[offset..] == file[offset..start] + file[start..start + length] + file[start + length..];
  }

  lemma {:induction false} TicksAreThere(file: seq<Byte>, offset: nat) returns (ticks: seq<Tick>)
    requires offset <= |file| && DecodeFrom(file, offset).error.None?
    ensures ValidTicks(ticks) && AllOfKnown(ticks) && file[offset..] == FramedAll(EncodeTicks(ticks))
    decreases |file| - offset
  {
    hide FromLE, DecodeTick, EncodeTick, ValidTick, AllKnown, Framed, EncodeTicks, FramedAll;
    if offset == |file| {
      ticks := [];
      NoTicks();
    } else {
      var length := FromLE(file[offset..offset + 4]);
      var start, end := offset + 4, offset + 4 + length;
      var t := TickIsThere(file[start..end]);
      var rest := TicksAreThere(file, end);
      FrameIsThere(file, offset, length);
      FirstTick(t, rest);
      ticks := [t] + rest;
      assert forall k :: 0 <= k < |rest| ==> ticks[k + 1] == rest[k];
    }
  }

  lemma NoTicks()
    ensures ValidTicks([]) && FramedAll(EncodeTicks([])) == []
  {
  }

  ghost predicate IsFileOf(file: seq<Byte>, ticks: seq<Tick>) {
    ValidTicks(ticks) && AllOfKnown(ticks) && file == FileOf(EncodeTicks(ticks))
  }

  /** The reader gets through a file without an error exactly if a trace writer could have made it. */
  lemma FileAcceptedExactly(file: seq<Byte>)
    ensures DecodeFile(file).error.None? <==> exists ticks :: IsFileOf(file, ticks)
  {
    hide DecodeFrom, EncodeTicks, FramedAll, ValidTicks, AllOfKnown;
    if DecodeFile(file).error.None? {
      var ticks := TicksAreThere(file, 8);
      assert file == file[..8] + file[8..];
      assert IsFileOf(file, ticks);
    }
    if ticks :| IsFileOf(file, ticks) {
      KnownTicks(ticks);
      FileRoundTrip(ticks);
    }
  }

  lemma KnownTicks(ticks: seq<Tick>)
    requires AllOfKnown(ticks)
    ensures forall k :: 0 <= k < |ticks| ==> AllKnown(ticks[k].commands)
  {
  }

  // ---------------------------------------------------------------- damage

  /** Reading from an offset is reading what is there. */
  lemma {:induction false} FromThere(file: seq<Byte>, tail: seq<Byte>, a: nat, b: nat)
    requires a <= |file| && b <= |tail| && file[a..] == tail[b..]
    ensures DecodeFrom(file, a) == DecodeFrom(tail, b)
    decreases |file| - a
  {
    hide FromLE, DecodeTick;
    assert |file| - a == |file[a..]| == |tail[b..]| == |tail| - b;
    if a + 4 <= |file| {
      SliceOfSlice(file, a, |file|, 0, 4);
      SliceOfSlice(tail, b, |tail|, 0, 4);
      assert file[a..|file|] == file[a..] && tail[b..|tail|] == tail[b..];
      var length := FromLE(file[a..a + 4]);
      if a + 4 + length <= |file| {
        SliceOfSlice(file, a, |file|, 4, 4 + length);
        SliceOfSlice(tail, b, |tail|, 4, 4 + length);
        assert file[a + 4 + length..] == file[a..][4 + length..] == tail[b..][4 + length..];
        assert tail[b + 4 + length..] == tail[b..][4 + length..];
        if length > 0 {
          FromThere(file, tail, a + 4 + length, b + 4 + length);
        }
      }
    }
  }

  lemma {:induction false} TicksThenTail(ticks: seq<Tick>, tail: seq<Byte>, data: seq<Byte>, offset: nat)
    requires ValidTicks(ticks) && AllOfKnown(ticks) && offset <= |data|
    requires data[offset..] == FramedAll(EncodeTicks(ticks)) + tail
    ensures DecodeFrom(data, offset)
            == Outcome(ViewTicks(ticks) + DecodeFrom(tail, 0).yielded, DecodeFrom(tail, 0).error)
    decreases |ticks|
  {
    hide EncodeTick, DecodeTick, ViewTick, FromLE, Framed, DecodeFrom, ValidTick, AllKnown;
    if ticks == [] {
      NoTicks();
      assert data[offset..] == tail == tail[0..];
      FromThere(data, tail, offset, 0);
      assert [] + DecodeFrom(tail, 0).yielded == DecodeFrom(tail, 0).yielded;
    } else {
      AllFirst(ticks);
      FirstFramed(ticks);
      var first, rest := Framed(EncodeTick(ticks[0])), FramedAll(EncodeTicks(ticks[1..]));
      assert (first + rest) + tail == first + (rest + tail);
      WholeRecord(ticks[0], data, offset, rest + tail);
      TicksThenTail(ticks[1..], tail, data, offset + 4 + |EncodeTick(ticks[0])|);
    }
  }

  /** Whatever follows whole records, the reader yields those first and then goes on as if at a start. */
  lemma DamageIsLocal(ticks: seq<Tick>, tail: seq<Byte>)
    requires ValidTicks(ticks) && AllOfKnown(ticks)
    ensures DecodeFile(FileOf(EncodeTicks(ticks)) + tail)
            == Outcome(ViewTicks(ticks) + DecodeFrom(tail, 0).yielded, DecodeFrom(tail, 0).error)
  {
    hide EncodeTicks, ViewTicks, DecodeFrom, FramedAll, ValidTicks, AllOfKnown;
    var file := FileOf(EncodeTicks(ticks)) + tail;
    assert file[..8] == HEADER && file[8..] == FramedAll(EncodeTicks(ticks)) + tail;
    TicksThenTail(ticks, tail, file, 8);
  }

  function LeastFirst(a: nat, b: nat, c: nat, d: nat): nat {
    a + 256 * b + 65536 * c + 16777216 * d
  }

  /** How a tail is refused: its first four bytes, the least significant one first, have to be a length from 476 to
      16384, that many bytes have to follow, and they have to be a record. */
  lemma TailIsRefused(tail: seq<Byte>)
    requires tail != []
    ensures |tail| < 4 ==> DecodeFrom(tail, 0) == Outcome([], Some(TruncatedLength))
    ensures |tail| >= 4 ==>
              var n := LeastFirst(tail[0], tail[1], tail[2], tail[3]);
              && (n < 476 || n > 16384 ==> DecodeFrom(tail, 0) == Outcome([], Some(BadLength)))
              && (476 <= n <= 16384 && |tail| < 4 + n ==> DecodeFrom(tail, 0) == Outcome([], Some(TruncatedRecord)))
              && (476 <= n <= 16384 && |tail| >= 4 + n && DecodeTick(tail[4..4 + n]).Err? ==>
                    DecodeFrom(tail, 0) == Outcome([], Some(DecodeTick(tail[4..4 + n]).error)))
  {
    hide DecodeTick;
    if |tail| >= 4 {
      FourBytes(tail[0..4]);
    }
  }

  lemma FourBytes(bytes: seq<Byte>)
    requires |bytes| == 4
    ensures FromLE(bytes) == LeastFirst(bytes[0], bytes[1], bytes[2], bytes[3])
  {
    var one, two, three := bytes[1..], bytes[2..], bytes[3..];
    assert one[1..] == two && two[1..] == three && three[1..] == [];
    assert FromLE(three) == bytes[3];
    assert FromLE(two) == bytes[2] + 256 * FromLE(three);
    assert FromLE(one) == bytes[1] + 256 * FromLE(two);
  }

  /** Every file starts with the magic and version 1, or nothing of it is read. */
  lemma HeaderIsTested(file: seq<Byte>)
    ensures |file| < 8 || file[..8] != [0x53, 0x48, 0x43, 0x54, 1, 0, 0, 0] ==>
              DecodeFile(file) == Outcome([], Some(BadMagic))
    ensures |file| >= 8 && file[..8] == [0x53, 0x48, 0x43, 0x54, 1, 0, 0, 0] ==> DecodeFile(file) == DecodeFrom(file, 8)
  {
    hide DecodeFrom;
  }

  // ---------------------------------------------------------------- what comes back

  /** The two's complement of 32 bits. */
  predicate SameBits(word: U32, n: Int32) {
    word == if n >= 0 then n else n + 0x1_0000_0000
  }

  lemma WordsAreBits()
    ensures forall n: Int32 :: SameBits(ToU32(n), n)
  {
  }

  /** A label of 40 bytes up to its first NUL. */
  predicate IsLabel(text: seq<Byte>, bytes: seq<Byte>) {
    text <= bytes && 0 !in text && (text == bytes || bytes[|text|] == 0)
  }

  lemma {:induction false} LabelOf(bytes: seq<Byte>)
    ensures IsLabel(UpToNul(bytes), bytes)
  {
    if bytes != [] && bytes[0] != 0 {
      LabelOf(bytes[1..]);
    }
  }

  lemma {:induction false} CommandsBack(cs: seq<Command>, k: nat)
    requires k < |cs|
    ensures ViewCommands(cs)[k] == ViewCommand(cs[k])
  {
    if k > 0 {
      CommandsBack(cs[1..], k - 1);
    }
  }

  /** Field by field, what the decoder makes of a recorded state. */
  lemma StateComesBack(t: Tick)
    requires ValidTick(t) && AllKnown(t.commands)
    ensures DecodeTick(EncodeTick(t)).Ok?
    ensures var v := DecodeTick(EncodeTick(t)).value;
            && v.sequence == t.sequence && v.timeNs == t.timeNs && |v.commands| == |t.commands|
            && v.state.simTime == t.state.simTime && v.state.dynTime == t.state.dynTime
            && v.state.qn == t.state.qn && v.state.wn == t.state.wn
            && v.state.posN == t.state.posN && v.state.velN == t.state.velN
            && v.state.posR == t.state.posR && v.state.velR == t.state.velR
            && v.state.sunBody == t.state.sunBody && v.state.magBody == t.state.magBody
            && v.state.sunInertial == t.state.sunInertial && v.state.magInertial == t.state.magInertial
            && v.state.hvb == t.state.hvb && v.state.mass == t.state.mass && v.state.cm == t.state.cm
            && |v.state.inertia| == 3
            && v.state.inertia[0] + v.state.inertia[1] + v.state.inertia[2] == t.state.inertia
            && (forall row :: 0 <= row < 3 ==> |v.state.inertia[row]| == 3)
            && SameBits(v.state.eclipse, t.state.eclipse) && v.state.atmoDensity == t.state.atmoDensity
            && SameBits(v.state.spacecraftId, t.state.spacecraftId) && SameBits(v.state.present, t.state.present)
            && IsLabel(v.state.name, t.state.name) && SameBits(v.state.valid, t.state.valid)
  {
    hide DecodeTick, EncodeTick, AllKnown, UpToNul, ToU32, SameBits, IsLabel;
    TickRoundTrip(t);
    WordsAreBits();
    LabelOf(t.state.name);
  }

  /** And of each of its commands: only the body its type calls for. */
  lemma CommandComesBack(t: Tick, k: nat)
    requires ValidTick(t) && AllKnown(t.commands) && k < |t.commands|
    ensures DecodeTick(EncodeTick(t)).Ok? && |DecodeTick(EncodeTick(t)).value.commands| == |t.commands|
    ensures var (c, v) := (t.commands[k], DecodeTick(EncodeTick(t)).value.commands[k]);
            && v.kind == c.kind && SameBits(v.spacecraftId, c.spacecraftId) && SameBits(v.valid, c.valid)
            && (c.kind == 1 <==> v.body.MtbView?) && (c.kind == 2 <==> v.body.WheelView?)
            && (c.kind == 3 <==> v.body.ThrusterView?) && (c.kind == 4 <==> v.body.SetModeView?)
            && (v.body.MtbView? ==>
                  SameBits(v.body.enableMask, c.mtb.enableMask) && v.body.dipole == c.mtb.dipole)
            && (v.body.WheelView? ==>
                  SameBits(v.body.enableMask, c.wheel.enableMask) && v.body.torque == c.wheel.torque)
            && (v.body.ThrusterView? ==>
                  && SameBits(v.body.enableMask, c.thruster.enableMask)
                  && v.body.thrust == c.thruster.thrust && v.body.torque == c.thruster.torque)
            && (v.body.SetModeView? ==>
                  && SameBits(v.body.mode, c.setMode.mode) && SameBits(v.body.parm, c.setMode.parm)
                  && SameBits(v.body.frame, c.setMode.frame) && v.body.qrn == c.setMode.qrn
                  && v.body.priW == c.setMode.priW && v.body.secW == c.setMode.secW
                  && SameBits(v.body.havePri, c.setMode.havePri) && SameBits(v.body.haveSec, c.setMode.haveSec)
                  && SameBits(v.body.haveQrn, c.setMode.haveQrn))
  {
    hide DecodeTick, EncodeTick, AllKnown, ViewState, ToU32, SameBits;
    TickRoundTrip(t);
    WordsAreBits();
    CommandsBack(t.commands, k);
    assert Known(t.commands[k].kind) by { KnownAt(t.commands, k); }
    KindBack(t.commands[k].kind);
  }

  lemma KindBack(kind: Int32)
    requires Known(kind)
    ensures ToU32(kind) == kind
  {
  }

  lemma KnownAt(cs: seq<Command>, k: nat)
    requires AllKnown(cs) && k < |cs|
    ensures Known(cs[k].kind)
  {
  }
}
