/** Version 1 control-trace records: the C encoder, the Python decoder, and their agreement. */
module TraceCodec {
  import opened Frames
  import opened Bytes

  const CAPACITY: nat := 16384
  const MAX_COMMANDS: nat := 64

  type Bits = seq<U64>   // an array of doubles, by bit pattern
  type Int32 = x: int | -0x8000_0000 <= x < 0x8000_0000

  /** (uint32_t) of a C int. */
  function ToU32(x: Int32): U32 {
    x % WORD32
  }

  // ---------------------------------------------------------------- what is recorded

  datatype State = State(
    simTime: U64, dynTime: U64,
    qn: Bits, wn: Bits, posN: Bits, velN: Bits, posR: Bits, velR: Bits,
    sunBody: Bits, magBody: Bits, sunInertial: Bits, magInertial: Bits, hvb: Bits,
    mass: U64, cm: Bits, inertia: Bits,
    eclipse: Int32, atmoDensity: U64, spacecraftId: Int32, present: Int32, name: seq<Byte>, valid: Int32)

  /** The array lengths the C struct declares. */
  ghost predicate ValidState(s: State) {
    && |s.qn| == 4 && |s.wn| == 3 && |s.posN| == 3 && |s.velN| == 3 && |s.posR| == 3 && |s.velR| == 3
    && |s.sunBody| == 3 && |s.magBody| == 3 && |s.sunInertial| == 3 && |s.magInertial| == 3 && |s.hvb| == 3
    && |s.cm| == 3 && |s.inertia| == 9 && |s.name| == 40
  }

  /** The union members a command can carry; `kind` says which one is meant. */
  datatype Command = Command(
    kind: Int32, spacecraftId: Int32, valid: Int32,
    mtb: Mtb, wheel: Wheel, thruster: Thruster, setMode: SetMode)

  datatype Mtb = Mtb(enableMask: Int32, dipole: Bits)
  datatype Wheel = Wheel(enableMask: Int32, torque: Bits)
  datatype Thruster = Thruster(enableMask: Int32, thrust: Bits, torque: Bits)
  datatype SetMode = SetMode(mode: Int32, parm: Int32, frame: Int32, qrn: Bits, priW: Bits, secW: Bits,
                             havePri: Int32, haveSec: Int32, haveQrn: Int32)

  ghost predicate ValidCommand(c: Command) {
    && |c.mtb.dipole| == 3 && |c.wheel.torque| == 4 && |c.thruster.thrust| == 3 && |c.thruster.torque| == 3
    && |c.setMode.qrn| == 4 && |c.setMode.priW| == 3 && |c.setMode.secW| == 3
  }

  datatype Tick = Tick(sequence: U64, timeNs: U64, state: State, commands: seq<Command>)

  ghost predicate ValidTick(t: Tick) {
    && ValidState(t.state)
    && |t.commands| <= MAX_COMMANDS
    && forall k :: 0 <= k < |t.commands| ==> ValidCommand(t.commands[k])
  }

  // ---------------------------------------------------------------- the record format

  function TimeFields(s: State): seq<Field> {
    [Doubles([s.simTime]), Doubles([s.dynTime])]
  }

  function VectorFields(s: State): seq<Field> {
    [Doubles(s.qn), Doubles(s.wn), Doubles(s.posN), Doubles(s.velN), Doubles(s.posR), Doubles(s.velR),
     Doubles(s.sunBody), Doubles(s.magBody), Doubles(s.sunInertial), Doubles(s.magInertial), Doubles(s.hvb)]
  }

  function MassFields(s: State): seq<Field> {
    [Doubles([s.mass]), Doubles(s.cm), Doubles(s.inertia)]
  }

  function StatusFields(s: State): seq<Field> {
    [Word(ToU32(s.eclipse)), Doubles([s.atmoDensity]), Word(ToU32(s.spacecraftId)), Word(ToU32(s.present)),
     Text(s.name), Word(ToU32(s.valid))]
  }

  function StateFields(s: State): seq<Field> {
    TimeFields(s) + VectorFields(s) + MassFields(s) + StatusFields(s)
  }

  function HeadFields(c: Command): seq<Field> {
    [Word(ToU32(c.kind)), Word(ToU32(c.spacecraftId)), Word(ToU32(c.valid))]
  }

  function BodyFields(c: Command): seq<Field> {
    if c.kind == 1 then [Word(ToU32(c.mtb.enableMask)), Doubles(c.mtb.dipole)]
    else if c.kind == 2 then [Word(ToU32(c.wheel.enableMask)), Doubles(c.wheel.torque)]
    else if c.kind == 3 then
      [Word(ToU32(c.thruster.enableMask)), Doubles(c.thruster.thrust), Doubles(c.thruster.torque)]
    else if c.kind == 4 then
      [Word(ToU32(c.setMode.mode)), Word(ToU32(c.setMode.parm)), Word(ToU32(c.setMode.frame)),
       Doubles(c.setMode.qrn), Doubles(c.setMode.priW), Doubles(c.setMode.secW),
       Word(ToU32(c.setMode.havePri)), Word(ToU32(c.setMode.haveSec)), Word(ToU32(c.setMode.haveQrn))]
    else []
  }

  function CommandsFields(cs: seq<Command>): seq<Field> {
    if cs == [] then [] else HeadFields(cs[0]) + BodyFields(cs[0]) + CommandsFields(cs[1..])
  }

  function StampFields(t: Tick): seq<Field> {
    [Long(t.sequence), Long(t.timeNs)]
  }

  function PreambleFields(t: Tick): seq<Field>
    requires |t.commands| < WORD32
  {
    StampFields(t) + StateFields(t.state) + [Word(|t.commands|)]
  }

  /** The bytes of one tick's record. */
  function EncodeTick(t: Tick): seq<Byte>
    requires |t.commands| < WORD32
  {
    EncodeAll(PreambleFields(t) + CommandsFields(t.commands))
  }

  /** 12, 40, 48, 64 or 116 bytes a command. */
  function CommandSize(kind: int): nat {
    if kind == 1 then 40 else if kind == 2 then 48 else if kind == 3 then 64 else if kind == 4 then 116 else 12
  }

  function CommandsSize(cs: seq<Command>): nat {
    if cs == [] then 0 else CommandSize(cs[0].kind) + CommandsSize(cs[1..])
  }

  function FormatsSize(fmts: seq<Format>): nat {
    if fmts == [] then 0 else Size(fmts[0]) + FormatsSize(fmts[1..])
  }

  lemma {:induction false} EncodeAllSize(fs: seq<Field>)
    ensures |EncodeAll(fs)| == FormatsSize(FormatsOf(fs))
  {
    if fs != [] {
      EncodeAllSize(fs[1..]);
      assert FormatsOf(fs)[1..] == FormatsOf(fs[1..]);
    }
  }

  lemma {:induction false} FormatsSizeConcat(xs: seq<Format>, ys: seq<Format>)
    ensures FormatsSize(xs + ys) == FormatsSize(xs) + FormatsSize(ys)
  {
    if xs == [] {
      assert xs + ys == ys;
    } else {
      FormatsSizeConcat(xs[1..], ys);
      assert (xs + ys)[1..] == xs[1..] + ys;
    }
  }

  const TIME_FORMATS: seq<Format> := [FDoubles(1), FDoubles(1)]
  const VECTOR_FORMATS: seq<Format> := 
    [FDoubles(4), FDoubles(3), FDoubles(3), FDoubles(3), FDoubles(3), FDoubles(3), FDoubles(3), FDoubles(3),
     FDoubles(3), FDoubles(3), FDoubles(3)]
  const MASS_FORMATS: seq<Format> := [FDoubles(1), FDoubles(3), FDoubles(9)]
  const STATUS_FORMATS: seq<Format> := [FWord, FDoubles(1), FWord, FWord, FText(40), FWord]
  const STATE_FORMATS: seq<Format> := TIME_FORMATS + VECTOR_FORMATS + MASS_FORMATS + STATUS_FORMATS
  const STAMP_FORMATS: seq<Format> := [FLong, FLong]
  const PREAMBLE_FORMATS: seq<Format> := STAMP_FORMATS + STATE_FORMATS + [FWord]

  const HEAD_FORMATS: seq<Format> := [FWord, FWord, FWord]

  function BodyFormats(kind: int): seq<Format> {
    if kind == 1 then [FWord, FDoubles(3)]
    else if kind == 2 then [FWord, FDoubles(4)]
    else if kind == 3 then [FWord, FDoubles(3), FDoubles(3)]
    else if kind == 4 then [FWord, FWord, FWord, FDoubles(4), FDoubles(3), FDoubles(3), FWord, FWord, FWord]
    else []
  }

  lemma FormatsAre(fs: seq<Field>, fmts: seq<Format>)
    requires |fs| == |fmts| && forall k :: 0 <= k < |fs| ==> FormatOf(fs[k]) == fmts[k]
    ensures FormatsOf(fs) == fmts
  {
  }

  lemma FormatsOfConcat(xs: seq<Field>, ys: seq<Field>)
    ensures FormatsOf(xs + ys) == FormatsOf(xs) + FormatsOf(ys)
  {
  }

  lemma StateFormats(s: State)
    requires ValidState(s)
    ensures FormatsOf(StateFields(s)) == STATE_FORMATS
  {
    FormatsAre(TimeFields(s), TIME_FORMATS);
    FormatsAre(VectorFields(s), VECTOR_FORMATS);
    FormatsAre(MassFields(s), MASS_FORMATS);
    FormatsAre(StatusFields(s), STATUS_FORMATS);
    FormatsOfConcat(TimeFields(s), VectorFields(s));
    FormatsOfConcat(TimeFields(s) + VectorFields(s), MassFields(s));
    FormatsOfConcat(TimeFields(s) + VectorFields(s) + MassFields(s), StatusFields(s));
  }

  lemma CommandFormats(c: Command)
    requires ValidCommand(c)
    ensures FormatsOf(HeadFields(c)) == HEAD_FORMATS
    ensures FormatsOf(BodyFields(c)) == BodyFormats(c.kind)
  {
    FormatsAre(HeadFields(c), HEAD_FORMATS);
    FormatsAre(BodyFields(c), BodyFormats(c.kind));
  }

  lemma CommandFieldsSize(c: Command)
    requires ValidCommand(c)
    ensures |EncodeAll(HeadFields(c) + BodyFields(c))| == CommandSize(c.kind)
  {
    CommandFormats(c);
    EncodeAllConcat(HeadFields(c), BodyFields(c));
    EncodeAllSize(HeadFields(c));
    EncodeAllSize(BodyFields(c));
    Unrolled(HEAD_FORMATS);
    Unrolled(BodyFormats(c.kind));
  }

  lemma SizeFrom(fmts: seq<Format>, k: nat)
    requires k < |fmts|
    ensures FormatsSize(fmts[k..]) == Size(fmts[k]) + FormatsSize(fmts[k + 1..])
  {
    assert fmts[k..][1..] == fmts[k + 1..];
  }

  /** The size of a few formats, written out. */
  lemma Unrolled(fmts: seq<Format>)
    ensures |fmts| == 0 ==> FormatsSize(fmts) == 0
    ensures |fmts| == 1 ==> FormatsSize(fmts) == Size(fmts[0])
    ensures |fmts| == 2 ==> FormatsSize(fmts) == Size(fmts[0]) + Size(fmts[1])
    ensures |fmts| == 3 ==> FormatsSize(fmts) == Size(fmts[0]) + Size(fmts[1]) + Size(fmts[2])
    ensures |fmts| == 6 ==> FormatsSize(fmts) == Size(fmts[0]) + Size(fmts[1]) + Size(fmts[2]) + Size(fmts[3])
                            + Size(fmts[4]) + Size(fmts[5])
    ensures |fmts| == 9 ==> FormatsSize(fmts) == Size(fmts[0]) + Size(fmts[1]) + Size(fmts[2]) + Size(fmts[3])
                            + Size(fmts[4]) + Size(fmts[5]) + Size(fmts[6]) + Size(fmts[7]) + Size(fmts[8])
  {
    forall k | 0 <= k < |fmts|
      ensures FormatsSize(fmts[k..]) == Size(fmts[k]) + FormatsSize(fmts[k + 1..])
    {
      SizeFrom(fmts, k);
    }
    assert fmts[0..] == fmts;
  }

  lemma {:induction false} TriplesSize(fmts: seq<Format>)
    requires forall k :: 0 <= k < |fmts| ==> fmts[k] == FDoubles(3)
    ensures FormatsSize(fmts) == 24 * |fmts|
  {
    if fmts != [] {
      TriplesSize(fmts[1..]);
    }
  }

  lemma StateSize()
    ensures FormatsSize(STATE_FORMATS) == 456
  {
    var triples := VECTOR_FORMATS[1..];
    assert VECTOR_FORMATS == [FDoubles(4)] + triples;
    FormatsSizeConcat([FDoubles(4)], triples);
    Unrolled([FDoubles(4)]);
    TriplesSize(triples);
    FormatsSizeConcat(TIME_FORMATS, VECTOR_FORMATS);
    Unrolled(TIME_FORMATS);
    FormatsSizeConcat(TIME_FORMATS + VECTOR_FORMATS, MASS_FORMATS);
    Unrolled(MASS_FORMATS);
    FormatsSizeConcat(TIME_FORMATS + VECTOR_FORMATS + MASS_FORMATS, STATUS_FORMATS);
    Unrolled(STATUS_FORMATS);
  }

  lemma {:induction false} CommandsFieldsSize(cs: seq<Command>)
    requires forall k :: 0 <= k < |cs| ==> ValidCommand(cs[k])
    ensures |EncodeAll(CommandsFields(cs))| == CommandsSize(cs) <= 116 * |cs|
  {
    if cs != [] {
      CommandsFieldsSize(cs[1..]);
      CommandFieldsSize(cs[0]);
      EncodeAllConcat(HeadFields(cs[0]) + BodyFields(cs[0]), CommandsFields(cs[1..]));
    }
  }

  lemma PreambleSize(t: Tick)
    requires ValidTick(t)
    ensures FormatsOf(PreambleFields(t)) == PREAMBLE_FORMATS
    ensures |EncodeAll(PreambleFields(t))| == 476
  {
    var count: seq<Field> := [Word(|t.commands|)];
    StateFormats(t.state);
    FormatsAre(StampFields(t), STAMP_FORMATS);
    FormatsAre(count, [FWord]);
    FormatsOfConcat(StampFields(t), StateFields(t.state));
    FormatsOfConcat(StampFields(t) + StateFields(t.state), count);
    EncodeAllSize(PreambleFields(t));
    FormatsSizeConcat(STAMP_FORMATS + STATE_FORMATS, [FWord]);
    FormatsSizeConcat(STAMP_FORMATS, STATE_FORMATS);
    Unrolled(STAMP_FORMATS);
    Unrolled([FWord]);
    StateSize();
  }

  /** 476 bytes plus those of the commands: never above 7900, so every write of the encoder stays in its
      16384-byte buffer, and the decoder's length test accepts it. */
  lemma RecordSize(t: Tick)
    requires ValidTick(t)
    ensures |EncodeTick(t)| == 476 + CommandsSize(t.commands)
    ensures 476 <= |EncodeTick(t)| <= 7900 < CAPACITY
  {
    PreambleSize(t);
    EncodeAllConcat(PreambleFields(t), CommandsFields(t.commands));
    CommandsFieldsSize(t.commands);
  }
}
