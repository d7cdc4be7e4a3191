/** The Python reader of control-trace records, and the round trip through the C encoder. */
module TraceDecode {
  import opened Options
  import opened Frames
  import opened Bytes
  import opened TraceCodec

  datatype Error = TooShort | TooManyCommands | UnknownKind | UnexpectedBytes
                 | BadMagic | TruncatedLength | BadLength | TruncatedRecord

  datatype Result<+T> = Ok(value: T) | Err(error: Error)

  /** The decoded state: integers as the unsigned words on disk, the label cut at its first NUL. */
  datatype StateView = StateView(
    simTime: U64, dynTime: U64,
    qn: Bits, wn: Bits, posN: Bits, velN: Bits, posR: Bits, velR: Bits,
    sunBody: Bits, magBody: Bits, sunInertial: Bits, magInertial: Bits, hvb: Bits,
    mass: U64, cm: Bits, inertia: seq<Bits>,
    eclipse: U32, atmoDensity: U64, spacecraftId: U32, present: U32, name: seq<Byte>, valid: U32)

  datatype BodyView =
    | NoBody
    | MtbView(enableMask: U32, dipole: Bits)
    | WheelView(enableMask: U32, torque: Bits)
    | ThrusterView(enableMask: U32, thrust: Bits, torque: Bits)
    | SetModeView(mode: U32, parm: U32, frame: U32, qrn: Bits, priW: Bits, secW: Bits,
                  havePri: U32, haveSec: U32, haveQrn: U32)

  datatype CommandView = CommandView(kind: U32, spacecraftId: U32, valid: U32, body: BodyView)

  datatype TickView = TickView(sequence: U64, timeNs: U64, state: StateView, commands: seq<CommandView>)

  function UpToNul(bytes: seq<Byte>): seq<Byte> {
    if bytes == [] || bytes[0] == 0 then [] else [bytes[0]] + UpToNul(bytes[1..])
  }

  // ---------------------------------------------------------------- what a recorded tick should look like

  function ViewState(s: State): StateView
    requires |s.inertia| == 9
  {
    StateView(s.simTime, s.dynTime, s.qn, s.wn, s.posN, s.velN, s.posR, s.velR, s.sunBody, s.magBody,
              s.sunInertial, s.magInertial, s.hvb, s.mass, s.cm,
              [s.inertia[..3], s.inertia[3..6], s.inertia[6..]],
              ToU32(s.eclipse), s.atmoDensity, ToU32(s.spacecraftId), ToU32(s.present), UpToNul(s.name),
              ToU32(s.valid))
  }

  function ViewBody(c: Command): BodyView {
    if c.kind == 1 then MtbView(ToU32(c.mtb.enableMask), c.mtb.dipole)
    else if c.kind == 2 then WheelView(ToU32(c.wheel.enableMask), c.wheel.torque)
    else if c.kind == 3 then ThrusterView(ToU32(c.thruster.enableMask), c.thruster.thrust, c.thruster.torque)
    else if c.kind == 4 then
      SetModeView(ToU32(c.setMode.mode), ToU32(c.setMode.parm), ToU32(c.setMode.frame), c.setMode.qrn,
                  c.setMode.priW, c.setMode.secW, ToU32(c.setMode.havePri), ToU32(c.setMode.haveSec),
                  ToU32(c.setMode.haveQrn))
    else NoBody
  }

  function ViewCommand(c: Command): CommandView {
    CommandView(ToU32(c.kind), ToU32(c.spacecraftId), ToU32(c.valid), ViewBody(c))
  }

  function ViewCommands(cs: seq<Command>): (vs: seq<CommandView>)
    ensures |vs| == |cs|
  {
    if cs == [] then [] else [ViewCommand(cs[0])] + ViewCommands(cs[1..])
  }

  function ViewTick(t: Tick): TickView
    requires |t.state.inertia| == 9
  {
    TickView(t.sequence, t.timeNs, ViewState(t.state), ViewCommands(t.commands))
  }

  /** The command types of the enumeration, 0..5. */
  predicate Known(kind: int) {
    0 <= kind <= 5
  }

  predicate AllKnown(cs: seq<Command>) {
    forall k :: 0 <= k < |cs| ==> Known(cs[k].kind)
  }

  // ---------------------------------------------------------------- decoding

  function StateFrom(fs: seq<Field>): StateView
    requires FormatsOf(fs) == STATE_FORMATS
  {
    StateFieldsAre(fs);
    StateView(fs[0].values[0], fs[1].values[0], fs[2].values, fs[3].values, fs[4].values, fs[5].values,
              fs[6].values, fs[7].values, fs[8].values, fs[9].values, fs[10].values, fs[11].values, fs[12].values,
              fs[13].values[0], fs[14].values, [fs[15].values[..3], fs[15].values[3..6], fs[15].values[6..]],
              fs[16].word, fs[17].values[0], fs[18].word, fs[19].word, UpToNul(fs[20].bytes), fs[21].word)
  }

  lemma StateFormatsAt(k: nat)
    requires k < 22
    ensures |STATE_FORMATS| == 22
    ensures k <= 1 ==> STATE_FORMATS[k] == FDoubles(1)
    ensures 2 <= k <= 12 ==> STATE_FORMATS[k] == VECTOR_FORMATS[k - 2] && STATE_FORMATS[k].FDoubles?
    ensures 13 <= k <= 15 ==> STATE_FORMATS[k] == MASS_FORMATS[k - 13]
    ensures 16 <= k ==> STATE_FORMATS[k] == STATUS_FORMATS[k - 16]
  {
    var vectors := TIME_FORMATS + VECTOR_FORMATS;
    var masses := vectors + MASS_FORMATS;
    assert STATE_FORMATS == masses + STATUS_FORMATS;
    if k < 16 {
      assert STATE_FORMATS[k] == masses[k];
      if k < 13 {
        assert masses[k] == vectors[k];
      }
    }
  }

  lemma StateFieldIs(fs: seq<Field>, k: nat)
    requires FormatsOf(fs) == STATE_FORMATS && k < 22
    ensures |fs| == 22
    ensures k <= 1 || k == 13 || k == 17 ==> fs[k].Doubles? && |fs[k].values| == 1
    ensures 2 <= k <= 12 || k == 14 ==> fs[k].Doubles?
    ensures k == 15 ==> fs[k].Doubles? && |fs[k].values| == 9
    ensures k == 16 || k == 18 || k == 19 || k == 21 ==> fs[k].Word?
    ensures k == 20 ==> fs[k].Text?
  {
    StateFormatsAt(k);
    assert FormatOf(fs[k]) == STATE_FORMATS[k];
  }

  lemma StateFieldsAre(fs: seq<Field>)
    requires FormatsOf(fs) == STATE_FORMATS
    ensures |fs| == 22
    ensures forall k :: 0 <= k < 22 ==>
              && (k <= 1 || k == 13 || k == 17 ==> fs[k].Doubles? && |fs[k].values| == 1)
              && (2 <= k <= 12 || k == 14 ==> fs[k].Doubles?)
              && (k == 15 ==> fs[k].Doubles? && |fs[k].values| == 9)
              && (k == 16 || k == 18 || k == 19 || k == 21 ==> fs[k].Word?)
              && (k == 20 ==> fs[k].Text?)
  {
    StateFieldIs(fs, 0);
    forall k | 0 <= k < 22
      ensures && (k <= 1 || k == 13 || k == 17 ==> fs[k].Doubles? && |fs[k].values| == 1)
              && (2 <= k <= 12 || k == 14 ==> fs[k].Doubles?)
              && (k == 15 ==> fs[k].Doubles? && |fs[k].values| == 9)
              && (k == 16 || k == 18 || k == 19 || k == 21 ==> fs[k].Word?)
              && (k == 20 ==> fs[k].Text?)
    {
      StateFieldIs(fs, k);
    }
  }

  function BodyFrom(kind: int, fs: seq<Field>): BodyView
    requires FormatsOf(fs) == BodyFormats(kind)
  {
    if kind == 1 then MtbView(fs[0].word, fs[1].values)
    else if kind == 2 then WheelView(fs[0].word, fs[1].values)
    else if kind == 3 then ThrusterView(fs[0].word, fs[1].values, fs[2].values)
    else if kind == 4 then
      SetModeView(fs[0].word, fs[1].word, fs[2].word, fs[3].values, fs[4].values, fs[5].values, fs[6].word,
                  fs[7].word, fs[8].word)
    else NoBody
  }

  /** read_command: the three head words, then the body its type calls for. */
  function ReadCommand(data: seq<Byte>, offset: nat): Result<(CommandView, nat)> {
    match ReadAll(HEAD_FORMATS, data, offset)
    case None => Err(TooShort)
    case Some((head, mid)) =>
      var kind := head[0].word;
      match ReadAll(BodyFormats(kind), data, mid)
      case None => Err(TooShort)
      case Some((body, end)) =>
        if !Known(kind) then Err(UnknownKind)
        else Ok((CommandView(kind, head[1].word, head[2].word, BodyFrom(kind, body)), end))
  }

  function ReadCommands(data: seq<Byte>, offset: nat, count: nat): (r: Result<(seq<CommandView>, nat)>)
    ensures r.Ok? ==> |r.value.0| == count
    decreases count
  {
    if count == 0 then Ok(([], offset))
    else
      match ReadCommand(data, offset)
      case Err(e) => Err(e)
      case Ok((first, mid)) =>
        match ReadCommands(data, mid, count - 1)
        case Err(e) => Err(e)
        case Ok((rest, end)) => Ok(([first] + rest, end))
  }

  function PreambleFrom(fs: seq<Field>): (U64, U64, StateView, U32)
    requires FormatsOf(fs) == PREAMBLE_FORMATS
  {
    PreambleFieldsAre(fs);
    (fs[0].long, fs[1].long, StateFrom(fs[2..24]), fs[24].word)
  }

  lemma Middle<T>(a: seq<T>, b: seq<T>, c: seq<T>, whole: seq<T>)
    requires whole == a + b + c
    ensures |whole| == |a| + |b| + |c| && whole[|a|..|a| + |b|] == b
    ensures forall k :: 0 <= k < |a| ==> whole[k] == a[k]
    ensures forall k :: 0 <= k < |c| ==> whole[|a| + |b| + k] == c[k]
  {
  }

  lemma FormatsOfSlice(fs: seq<Field>, from: nat, to: nat)
    requires from <= to <= |fs|
    ensures FormatsOf(fs[from..to]) == FormatsOf(fs)[from..to]
  {
  }

  lemma Sandwiched(fs: seq<Field>, state: seq<Format>)
    requires |state| == 22 && FormatsOf(fs) == [FLong, FLong] + state + [FWord]
    ensures |fs| == 25 && fs[0].Long? && fs[1].Long? && fs[24].Word?
    ensures FormatsOf(fs[2..24]) == state
  {
    Middle([FLong, FLong], state, [FWord], FormatsOf(fs));
    FormatsOfSlice(fs, 2, 24);
    assert FormatOf(fs[0]) == FLong && FormatOf(fs[1]) == FLong;
    assert FormatOf(fs[24]) == FWord;
  }

  lemma PreambleFieldsAre(fs: seq<Field>)
    requires FormatsOf(fs) == PREAMBLE_FORMATS
    ensures |fs| == 25 && fs[0].Long? && fs[1].Long? && fs[24].Word?
    ensures FormatsOf(fs[2..24]) == STATE_FORMATS
  {
    StateFormatsAt(0);
    Sandwiched(fs, STATE_FORMATS);
  }

  /** The body of the loop of records: one record's data, or the exception it raises. */
  function DecodeTick(data: seq<Byte>): Result<TickView> {
    match ReadAll(PREAMBLE_FORMATS, data, 0)
    case None => Err(TooShort)
    case Some((fields, offset)) =>
      var preamble := PreambleFrom(fields);
      if preamble.3 > MAX_COMMANDS then Err(TooManyCommands)
      else
        match ReadCommands(data, offset, preamble.3)
        case Err(e) => Err(e)
        case Ok((commands, end)) =>
          if end != |data| then Err(UnexpectedBytes)
          else Ok(TickView(preamble.0, preamble.1, preamble.2, commands))
  }

  // ---------------------------------------------------------------- the round trip

  lemma StateFromFields(s: State)
    requires ValidState(s)
    ensures FormatsOf(StateFields(s)) == STATE_FORMATS && StateFrom(StateFields(s)) == ViewState(s)
  {
    StateFormats(s);
    var fs := StateFields(s);
    assert fs[0] == TimeFields(s)[0] && fs[1] == TimeFields(s)[1];
    assert forall k :: 2 <= k <= 12 ==> fs[k] == VectorFields(s)[k - 2];
    assert forall k :: 13 <= k <= 15 ==> fs[k] == MassFields(s)[k - 13];
    assert forall k :: 16 <= k <= 21 ==> fs[k] == StatusFields(s)[k - 16];
  }

  lemma PreambleFromFields(t: Tick)
    requires ValidTick(t)
    ensures FormatsOf(PreambleFields(t)) == PREAMBLE_FORMATS
    ensures PreambleFrom(PreambleFields(t)) == (t.sequence, t.timeNs, ViewState(t.state), |t.commands|)
  {
    PreambleSize(t);
    StateFromFields(t.state);
    var fs := PreambleFields(t);
    assert |StateFields(t.state)| == 22;
    assert fs[2..24] == StateFields(t.state);
  }

  lemma KnownIffKnownWord(kind: Int32)
    ensures Known(kind) <==> Known(ToU32(kind))
    ensures Known(kind) ==> ToU32(kind) == kind
    ensures BodyFormats(ToU32(kind)) == BodyFormats(kind)
  {
  }

  lemma BodyFromFields(c: Command)
    requires ValidCommand(c)
    ensures FormatsOf(BodyFields(c)) == BodyFormats(c.kind) == BodyFormats(ToU32(c.kind))
    ensures BodyFrom(ToU32(c.kind), BodyFields(c)) == ViewBody(c)
  {
    CommandFormats(c);
    KnownIffKnownWord(c.kind);
  }

  /** read_command undoes encode_command, and refuses exactly the types outside the enumeration. */
  lemma CommandRoundTrip(c: Command, data: seq<Byte>, offset: nat)
    requires ValidCommand(c)
    requires var bytes := EncodeAll(HeadFields(c) + BodyFields(c));
             offset + |bytes| <= |data| && data[offset..offset + |bytes|] == bytes
    ensures ReadCommand(data, offset) ==
            if Known(c.kind) then Ok((ViewCommand(c), offset + CommandSize(c.kind))) else Err(UnknownKind)
  {
    hide BodyFields, BodyFrom, ViewBody, BodyFormats, Encode, EncodeAll, ReadAll, ReadCommand, CommandSize;
    var head, body := HeadFields(c), BodyFields(c);
    EncodeAllConcat(head, body);
    SliceSplit(data, offset, EncodeAll(head), EncodeAll(body));
    CommandFormats(c);
    CommandFieldsSize(c);
    ReadAllInverse(head, data, offset);
    ReadAllInverse(body, data, offset + |EncodeAll(head)|);
    KnownIffKnownWord(c.kind);
    BodyFromFields(c);
    assert head[0].word == ToU32(c.kind);
    ReadCommandIs(data, offset, head, body, offset + |EncodeAll(head)|, offset + CommandSize(c.kind));
  }

  lemma ReadCommandIs(data: seq<Byte>, offset: nat, head: seq<Field>, body: seq<Field>, mid: nat, end: nat)
    requires ReadAll(HEAD_FORMATS, data, offset) == Some((head, mid))
    requires FormatsOf(head) == HEAD_FORMATS && FormatsOf(body) == BodyFormats(head[0].word)
    requires ReadAll(BodyFormats(head[0].word), data, mid) == Some((body, end))
    ensures ReadCommand(data, offset) ==
            if Known(head[0].word)
            then Ok((CommandView(head[0].word, head[1].word, head[2].word, BodyFrom(head[0].word, body)), end))
            else Err(UnknownKind)
  {
  }

  lemma AllKnownSplit(cs: seq<Command>)
    requires cs != []
    ensures AllKnown(cs) <==> Known(cs[0].kind) && AllKnown(cs[1..])
  {
    assert forall k :: 1 <= k < |cs| ==> cs[k] == cs[1..][k - 1];
  }

  lemma {:induction false} CommandsRoundTrip(cs: seq<Command>, data: seq<Byte>, offset: nat)
    requires forall k :: 0 <= k < |cs| ==> ValidCommand(cs[k])
    requires var bytes := EncodeAll(CommandsFields(cs));
             offset + |bytes| <= |data| && data[offset..offset + |bytes|] == bytes
    ensures ReadCommands(data, offset, |cs|) ==
            if AllKnown(cs) then Ok((ViewCommands(cs), offset + |EncodeAll(CommandsFields(cs))|))
            else Err(UnknownKind)
    decreases |cs|
  {
    hide BodyFields, HeadFields, Encode, ReadAll, ReadCommand, CommandSize, ViewCommand, ValidCommand;
    if cs == [] {
      assert EncodeAll(CommandsFields(cs)) == [];
    } else {
      var fields := HeadFields(cs[0]) + BodyFields(cs[0]);
      var first, rest := EncodeAll(fields), EncodeAll(CommandsFields(cs[1..]));
      EncodeAllConcat(fields, CommandsFields(cs[1..]));
      SliceSplit(data, offset, first, rest);
      CommandFieldsSize(cs[0]);
      CommandRoundTrip(cs[0], data, offset);
      var mid := offset + |first|;
      CommandsRoundTrip(cs[1..], data, mid);
      AllKnownSplit(cs);
      var head, tail := ReadCommand(data, offset), ReadCommands(data, mid, |cs| - 1);
      ReadCommandsIs(data, offset, |cs|, mid, head, tail);
      if AllKnown(cs) {
        assert head == Ok((ViewCommand(cs[0]), mid)) && tail == Ok((ViewCommands(cs[1..]), mid + |rest|));
        assert ViewCommands(cs) == [ViewCommand(cs[0])] + ViewCommands(cs[1..]);
      }
    }
  }

  lemma ReadCommandsIs(data: seq<Byte>, offset: nat, count: nat, mid: nat, first: Result<(CommandView, nat)>,
                       rest: Result<(seq<CommandView>, nat)>)
    requires count > 0 && first == ReadCommand(data, offset) && rest == ReadCommands(data, mid, count - 1)
    requires first.Ok? ==> first.value.1 == mid
    ensures ReadCommands(data, offset, count) ==
            if first.Err? then Err(first.error)
            else if rest.Err? then Err(rest.error)
            else Ok(([first.value.0] + rest.value.0, rest.value.1))
  {
  }

  lemma DecodeTickIs(data: seq<Byte>, fields: seq<Field>, offset: nat)
    requires FormatsOf(fields) == PREAMBLE_FORMATS && ReadAll(PREAMBLE_FORMATS, data, 0) == Some((fields, offset))
    requires PreambleFrom(fields).3 <= MAX_COMMANDS
    ensures var commands, p := ReadCommands(data, offset, PreambleFrom(fields).3), PreambleFrom(fields);
            DecodeTick(data) ==
            if commands.Err? then Err(commands.error)
            else if commands.value.1 != |data| then Err(UnexpectedBytes)
            else Ok(TickView(p.0, p.1, p.2, commands.value.0))
  {
  }

  lemma PreambleRoundTrip(t: Tick, data: seq<Byte>)
    requires ValidTick(t) && data == EncodeTick(t)
    ensures |EncodeAll(PreambleFields(t))| <= |data|
    ensures data[|EncodeAll(PreambleFields(t))|..] == EncodeAll(CommandsFields(t.commands))
    ensures ReadAll(PREAMBLE_FORMATS, data, 0) == Some((PreambleFields(t), |EncodeAll(PreambleFields(t))|))
  {
    var preamble, commands := EncodeAll(PreambleFields(t)), EncodeAll(CommandsFields(t.commands));
    EncodeAllConcat(PreambleFields(t), CommandsFields(t.commands));
    assert data == preamble + commands;
    assert data[0..0 + |preamble|] == preamble;
    PreambleSize(t);
    ReadAllInverse(PreambleFields(t), data, 0);
  }

  /** Decoding an encoded tick gives back its fields and ends exactly at the record's end, if and only if every
      command has a type of the enumeration. */
  lemma TickRoundTrip(t: Tick)
    requires ValidTick(t)
    ensures DecodeTick(EncodeTick(t)) == if AllKnown(t.commands) then Ok(ViewTick(t)) else Err(UnknownKind)
  {
    hide EncodeAll, PreambleFields, CommandsFields, StateFields, ReadAll, ReadCommands, DecodeTick, PreambleFrom,
         ViewCommands, ViewState;
    var data, fields := EncodeTick(t), PreambleFields(t);
    var start := |EncodeAll(fields)|;
    PreambleRoundTrip(t, data);
    assert data[start..start + |EncodeAll(CommandsFields(t.commands))|] == data[start..];
    CommandsRoundTrip(t.commands, data, start);
    PreambleFromFields(t);
    DecodeTickIs(data, fields, start);
  }
}
