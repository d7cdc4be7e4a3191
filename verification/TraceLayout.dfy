/** Where everything is in a record of the control trace, byte by byte. */
module TraceLayout {
  import opened Frames
  import opened Bytes
  import opened TraceCodec

  /** These bytes, from this offset on. */
  predicate At(data: seq<Byte>, offset: nat, bytes: seq<Byte>) {
    offset + |bytes| <= |data| && data[offset..offset + |bytes|] == bytes
  }

  /** n numbers of eight bytes, each least significant byte first. */
  predicate NumbersAt(data: seq<Byte>, offset: nat, numbers: seq<U64>) {
    && offset + 8 * |numbers| <= |data|
    && forall i, b :: 0 <= i < |numbers| && 0 <= b < 8 ==>
         data[offset + 8 * i + b] == ShiftBytes(numbers[i], b) % 256
  }

  /** Two's complement of 32 bits. */
  function Unsigned(n: Int32): nat {
    if n >= 0 then n else n + 0x1_0000_0000
  }

  /** A C int in four bytes, least significant byte first. */
  predicate IntAt(data: seq<Byte>, offset: nat, n: Int32) {
    offset + 4 <= |data| && forall b :: 0 <= b < 4 ==> data[offset + b] == ShiftBytes(Unsigned(n), b) % 256
  }

  lemma {:induction false} NumbersOfLEs(data: seq<Byte>, offset: nat, numbers: seq<U64>)
    requires At(data, offset, LEs(numbers))
    ensures NumbersAt(data, offset, numbers)
    decreases |numbers|
  {
    hide LE, ShiftBytes;
    if numbers != [] {
      var first, rest := LE(numbers[0], 8), LEs(numbers[1..]);
      SliceSplit(data, offset, first, rest);
      NumbersOfLEs(data, offset + 8, numbers[1..]);
      forall i, b | 0 <= i < |numbers| && 0 <= b < 8
        ensures data[offset + 8 * i + b] == ShiftBytes(numbers[i], b) % 256
      {
        if i == 0 {
          LEIndex(numbers[0], 8, b);
          assert data[offset..offset + 8][b] == first[b];
        } else {
          assert data[offset + 8 + 8 * (i - 1) + b] == ShiftBytes(numbers[1..][i - 1], b) % 256;
        }
      }
    }
  }

  lemma LongIs(data: seq<Byte>, offset: nat, long: U64)
    requires At(data, offset, LE(long, 8))
    ensures NumbersAt(data, offset, [long])
  {
    assert LEs([long]) == LE(long, 8) + LEs([]);
    NumbersOfLEs(data, offset, [long]);
  }

  lemma IntIs(data: seq<Byte>, offset: nat, n: Int32)
    requires At(data, offset, LE(ToU32(n), 4))
    ensures IntAt(data, offset, n)
  {
    hide LE, ShiftBytes;
    assert Unsigned(n) == ToU32(n);
    forall b | 0 <= b < 4
      ensures data[offset + b] == ShiftBytes(Unsigned(n), b) % 256
    {
      LEIndex(ToU32(n), 4, b);
      assert data[offset..offset + 4][b] == LE(ToU32(n), 4)[b];
    }
  }

  /** Field k, where the fields from k on begin. */
  lemma NextField(fs: seq<Field>, k: nat, data: seq<Byte>, offset: nat)
    requires k < |fs| && At(data, offset, EncodeAll(fs[k..]))
    ensures At(data, offset, Encode(fs[k])) && At(data, offset + |Encode(fs[k])|, EncodeAll(fs[k + 1..]))
  {
    hide Encode;
    assert fs[k..][1..] == fs[k + 1..];
    assert EncodeAll(fs[k..]) == Encode(fs[k]) + EncodeAll(fs[k + 1..]);
    SliceSplit(data, offset, Encode(fs[k]), EncodeAll(fs[k + 1..]));
  }

  lemma TwoGroups(xs: seq<Field>, ys: seq<Field>, data: seq<Byte>, offset: nat)
    requires At(data, offset, EncodeAll(xs + ys))
    ensures At(data, offset, EncodeAll(xs)) && At(data, offset + |EncodeAll(xs)|, EncodeAll(ys))
  {
    hide EncodeAll;
    EncodeAllConcat(xs, ys);
    SliceSplit(data, offset, EncodeAll(xs), EncodeAll(ys));
  }

  // ---------------------------------------------------------------- the state

  lemma Stamps(t: Tick, data: seq<Byte>, o: nat)
    requires At(data, o, EncodeAll(StampFields(t)))
    ensures NumbersAt(data, o, [t.sequence]) && NumbersAt(data, o + 8, [t.timeNs])
    ensures |EncodeAll(StampFields(t))| == 16
  {
    hide EncodeAll, NumbersAt, LE;
    var fs := StampFields(t);
    assert fs[0..] == fs;
    NextField(fs, 0, data, o);
    NextField(fs, 1, data, o + 8);
    LongIs(data, o, t.sequence);
    LongIs(data, o + 8, t.timeNs);
    SizeOfTwo(fs);
  }

  lemma SizeOfTwo(fs: seq<Field>)
    requires |fs| == 2
    ensures |EncodeAll(fs)| == |Encode(fs[0])| + |Encode(fs[1])|
  {
    hide Encode;
    assert fs[1..][1..] == [] && EncodeAll(fs[1..]) == Encode(fs[1]) + EncodeAll([]);
  }

  lemma Times(s: State, data: seq<Byte>, o: nat)
    requires At(data, o, EncodeAll(TimeFields(s)))
    ensures NumbersAt(data, o, [s.simTime]) && NumbersAt(data, o + 8, [s.dynTime])
    ensures |EncodeAll(TimeFields(s))| == 16
  {
    hide EncodeAll, NumbersAt, LEs;
    var fs := TimeFields(s);
    assert fs[0..] == fs;
    NextField(fs, 0, data, o);
    NextField(fs, 1, data, o + 8);
    NumbersOfLEs(data, o, [s.simTime]);
    NumbersOfLEs(data, o + 8, [s.dynTime]);
    SizeOfTwo(fs);
  }

  /** Vectors and matrices one behind the other. */
  lemma {:induction false} DoublesInARow(fs: seq<Field>, k: nat, data: seq<Byte>, o: nat, j: nat, at: nat)
    requires k <= j < |fs| && (forall i :: 0 <= i < |fs| ==> fs[i].Doubles?) && At(data, o, EncodeAll(fs[k..]))
    requires at == o + 8 * Lengths(fs, k, j)
    ensures NumbersAt(data, at, fs[j].values)
    decreases j - k
  {
    hide EncodeAll, NumbersAt, LEs;
    NextField(fs, k, data, o);
    if k == j {
      NumbersOfLEs(data, o, fs[j].values);
    } else {
      DoublesInARow(fs, k + 1, data, o + 8 * |fs[k].values|, j, at);
    }
  }

  function Lengths(fs: seq<Field>, k: nat, j: nat): nat
    requires k <= j <= |fs| && forall i :: 0 <= i < |fs| ==> fs[i].Doubles?
    decreases j - k
  {
    if k == j then 0 else |fs[k].values| + Lengths(fs, k + 1, j)
  }

  lemma {:induction false} LengthsOfTriples(fs: seq<Field>, k: nat, j: nat)
    requires 1 <= k <= j <= |fs| && (forall i :: 0 <= i < |fs| ==> fs[i].Doubles?)
    requires forall i :: 1 <= i < |fs| ==> |fs[i].values| == 3
    ensures Lengths(fs, k, j) == 3 * (j - k)
    decreases j - k
  {
    if k < j {
      LengthsOfTriples(fs, k + 1, j);
    }
  }

  lemma Vectors(s: State, data: seq<Byte>, o: nat)
    requires ValidState(s) && At(data, o, EncodeAll(VectorFields(s)))
    ensures NumbersAt(data, o, s.qn)
    ensures NumbersAt(data, o + 32, s.wn) && NumbersAt(data, o + 56, s.posN) && NumbersAt(data, o + 80, s.velN)
    ensures NumbersAt(data, o + 104, s.posR) && NumbersAt(data, o + 128, s.velR)
    ensures NumbersAt(data, o + 152, s.sunBody) && NumbersAt(data, o + 176, s.magBody)
    ensures NumbersAt(data, o + 200, s.sunInertial) && NumbersAt(data, o + 224, s.magInertial)
    ensures NumbersAt(data, o + 248, s.hvb)
  {
    hide EncodeAll, NumbersAt, LEs;
    var fs := VectorFields(s);
    assert fs[0..] == fs;
    forall j | 0 <= j < |fs|
      ensures NumbersAt(data, o + (if j == 0 then 0 else 8 + 24 * j), fs[j].values)
    {
      if j > 0 {
        LengthsOfTriples(fs, 1, j);
      }
      DoublesInARow(fs, 0, data, o, j, o + (if j == 0 then 0 else 8 + 24 * j));
    }
    assert fs[0].values == s.qn && fs[1].values == s.wn && fs[2].values == s.posN && fs[3].values == s.velN;
    assert fs[4].values == s.posR && fs[5].values == s.velR && fs[6].values == s.sunBody;
    assert fs[7].values == s.magBody && fs[8].values == s.sunInertial && fs[9].values == s.magInertial;
    assert fs[10].values == s.hvb;
  }

  lemma Masses(s: State, data: seq<Byte>, o: nat)
    requires ValidState(s) && At(data, o, EncodeAll(MassFields(s)))
    ensures NumbersAt(data, o, [s.mass]) && NumbersAt(data, o + 8, s.cm) && NumbersAt(data, o + 32, s.inertia)
  {
    hide EncodeAll, NumbersAt, LEs;
    var fs := MassFields(s);
    assert fs[0..] == fs;
    NextField(fs, 0, data, o);
    NextField(fs, 1, data, o + 8);
    NextField(fs, 2, data, o + 32);
    NumbersOfLEs(data, o, [s.mass]);
    NumbersOfLEs(data, o + 8, s.cm);
    NumbersOfLEs(data, o + 32, s.inertia);
  }

  lemma Statuses(s: State, data: seq<Byte>, o: nat)
    requires ValidState(s) && At(data, o, EncodeAll(StatusFields(s)))
    ensures IntAt(data, o, s.eclipse) && NumbersAt(data, o + 4, [s.atmoDensity])
    ensures IntAt(data, o + 12, s.spacecraftId) && IntAt(data, o + 16, s.present)
    ensures At(data, o + 20, s.name) && IntAt(data, o + 60, s.valid)
  {
    hide EncodeAll, NumbersAt, LEs, LE, IntAt, ToU32;
    var fs := StatusFields(s);
    assert fs[0..] == fs;
    NextField(fs, 0, data, o);
    NextField(fs, 1, data, o + 4);
    NextField(fs, 2, data, o + 12);
    NextField(fs, 3, data, o + 16);
    NextField(fs, 4, data, o + 20);
    NextField(fs, 5, data, o + 60);
    IntIs(data, o, s.eclipse);
    NumbersOfLEs(data, o + 4, [s.atmoDensity]);
    IntIs(data, o + 12, s.spacecraftId);
    IntIs(data, o + 16, s.present);
    IntIs(data, o + 60, s.valid);
  }

  lemma GroupSizes(s: State)
    requires ValidState(s)
    ensures |EncodeAll(TimeFields(s))| == 16 && |EncodeAll(VectorFields(s))| == 272 && |EncodeAll(MassFields(s))| == 104
    ensures |EncodeAll(StatusFields(s))| == 64
  {
    hide EncodeAll;
    FormatsAre(TimeFields(s), TIME_FORMATS);
    VectorsSize(s);
    FormatsAre(MassFields(s), MASS_FORMATS);
    FormatsAre(StatusFields(s), STATUS_FORMATS);
    EncodeAllSize(TimeFields(s));
    EncodeAllSize(MassFields(s));
    EncodeAllSize(StatusFields(s));
    Unrolled(TIME_FORMATS);
    Unrolled(MASS_FORMATS);
    Unrolled(STATUS_FORMATS);
  }

  lemma VectorsSize(s: State)
    requires ValidState(s)
    ensures |EncodeAll(VectorFields(s))| == 272
  {
    hide EncodeAll;
    FormatsAre(VectorFields(s), VECTOR_FORMATS);
    EncodeAllSize(VectorFields(s));
    var triples := VECTOR_FORMATS[1..];
    assert VECTOR_FORMATS == [FDoubles(4)] + triples;
    FormatsSizeConcat([FDoubles(4)], triples);
    Unrolled([FDoubles(4)]);
    TriplesSize(triples);
  }

  /** The record of a tick: every field at its own place, numbers least significant byte first, doubles as their bit
      patterns, ints in two's complement, and the commands behind byte 476. */
  lemma RecordLayout(t: Tick)
    requires ValidTick(t)
    ensures var (r, s) := (EncodeTick(t), t.state);
            && NumbersAt(r, 0, [t.sequence]) && NumbersAt(r, 8, [t.timeNs])
            && NumbersAt(r, 16, [s.simTime]) && NumbersAt(r, 24, [s.dynTime])
            && NumbersAt(r, 32, s.qn) && NumbersAt(r, 64, s.wn)
            && NumbersAt(r, 88, s.posN) && NumbersAt(r, 112, s.velN)
            && NumbersAt(r, 136, s.posR) && NumbersAt(r, 160, s.velR)
            && NumbersAt(r, 184, s.sunBody) && NumbersAt(r, 208, s.magBody)
            && NumbersAt(r, 232, s.sunInertial) && NumbersAt(r, 256, s.magInertial) && NumbersAt(r, 280, s.hvb)
            && NumbersAt(r, 304, [s.mass]) && NumbersAt(r, 312, s.cm) && NumbersAt(r, 336, s.inertia)
            && IntAt(r, 408, s.eclipse) && NumbersAt(r, 412, [s.atmoDensity])
            && IntAt(r, 420, s.spacecraftId) && IntAt(r, 424, s.present) && At(r, 428, s.name) && IntAt(r, 468, s.valid)
            && IntAt(r, 472, |t.commands|)
            && |r| >= 476 && r[476..] == EncodeAll(CommandsFields(t.commands))
  {
    hide EncodeAll, NumbersAt, IntAt, ValidState, StampFields, TimeFields, VectorFields, MassFields, StatusFields, LE,
         CommandsFields;
    var r, s := EncodeTick(t), t.state;
    var count: seq<Field> := [Word(|t.commands|)];
    assert r[0..0 + |r|] == r;
    PreambleSize(t);
    TwoGroups(PreambleFields(t), CommandsFields(t.commands), r, 0);
    TwoGroups(StampFields(t) + StateFields(s), count, r, 0);
    TwoGroups(StampFields(t), StateFields(s), r, 0);
    EncodeAllConcat(StampFields(t), StateFields(s));
    Stamps(t, r, 0);
    StateLayout(s, r, 16);
    CountIs(t, r, 472);
    EncodeAllConcat(PreambleFields(t), CommandsFields(t.commands));
  }

  lemma StateLayout(s: State, r: seq<Byte>, o: nat)
    requires ValidState(s) && At(r, o, EncodeAll(StateFields(s))) && o == 16
    ensures NumbersAt(r, 16, [s.simTime]) && NumbersAt(r, 24, [s.dynTime])
    ensures NumbersAt(r, 32, s.qn) && NumbersAt(r, 64, s.wn) && NumbersAt(r, 88, s.posN) && NumbersAt(r, 112, s.velN)
    ensures NumbersAt(r, 136, s.posR) && NumbersAt(r, 160, s.velR)
    ensures NumbersAt(r, 184, s.sunBody) && NumbersAt(r, 208, s.magBody)
    ensures NumbersAt(r, 232, s.sunInertial) && NumbersAt(r, 256, s.magInertial) && NumbersAt(r, 280, s.hvb)
    ensures NumbersAt(r, 304, [s.mass]) && NumbersAt(r, 312, s.cm) && NumbersAt(r, 336, s.inertia)
    ensures IntAt(r, 408, s.eclipse) && NumbersAt(r, 412, [s.atmoDensity])
    ensures IntAt(r, 420, s.spacecraftId) && IntAt(r, 424, s.present) && At(r, 428, s.name) && IntAt(r, 468, s.valid)
    ensures |EncodeAll(StateFields(s))| == 456
  {
    hide EncodeAll, NumbersAt, IntAt, ValidState, TimeFields, VectorFields, MassFields, StatusFields;
    GroupSizes(s);
    var (a, b, c, d) := (TimeFields(s), VectorFields(s), MassFields(s), StatusFields(s));
    TwoGroups(a + b + c, d, r, 16);
    TwoGroups(a + b, c, r, 16);
    TwoGroups(a, b, r, 16);
    EncodeAllConcat(a + b + c, d);
    EncodeAllConcat(a + b, c);
    EncodeAllConcat(a, b);
    Times(s, r, 16);
    Vectors(s, r, 32);
    Masses(s, r, 304);
    Statuses(s, r, 408);
  }

  lemma CountIs(t: Tick, r: seq<Byte>, o: nat)
    requires |t.commands| <= MAX_COMMANDS && At(r, o, EncodeAll([Word(|t.commands|)]))
    ensures IntAt(r, o, |t.commands|)
  {
    hide LE, IntAt;
    assert EncodeAll([Word(|t.commands|)]) == LE(|t.commands|, 4);
    IntIs(r, o, |t.commands|);
  }

  // ---------------------------------------------------------------- commands

  lemma Heads(c: Command, data: seq<Byte>, o: nat)
    requires At(data, o, EncodeAll(HeadFields(c)))
    ensures IntAt(data, o, c.kind) && IntAt(data, o + 4, c.spacecraftId) && IntAt(data, o + 8, c.valid)
  {
    hide EncodeAll, LE, IntAt, ToU32;
    var fs := HeadFields(c);
    assert fs[0..] == fs;
    NextField(fs, 0, data, o);
    NextField(fs, 1, data, o + 4);
    NextField(fs, 2, data, o + 8);
    IntIs(data, o, c.kind);
    IntIs(data, o + 4, c.spacecraftId);
    IntIs(data, o + 8, c.valid);
  }

  /** A mask and one or two vectors. */
  lemma MaskAndVectors(mask: Int32, a: Bits, rest: seq<Field>, fs: seq<Field>, data: seq<Byte>, o: nat)
    requires fs == [Word(ToU32(mask)), Doubles(a)] + rest && At(data, o, EncodeAll(fs))
    ensures IntAt(data, o, mask) && NumbersAt(data, o + 4, a) && At(data, o + 4 + 8 * |a|, EncodeAll(rest))
  {
    hide EncodeAll, LE, LEs, IntAt, NumbersAt, ToU32;
    assert fs[0..] == fs && fs[2..] == rest;
    NextField(fs, 0, data, o);
    NextField(fs, 1, data, o + 4);
    IntIs(data, o, mask);
    NumbersOfLEs(data, o + 4, a);
  }

  lemma ModeBody(c: Command, data: seq<Byte>, o: nat)
    requires ValidCommand(c) && c.kind == 4 && At(data, o, EncodeAll(BodyFields(c)))
    ensures IntAt(data, o, c.setMode.mode) && IntAt(data, o + 4, c.setMode.parm) && IntAt(data, o + 8, c.setMode.frame)
    ensures NumbersAt(data, o + 12, c.setMode.qrn) && NumbersAt(data, o + 44, c.setMode.priW)
    ensures NumbersAt(data, o + 68, c.setMode.secW)
    ensures IntAt(data, o + 92, c.setMode.havePri) && IntAt(data, o + 96, c.setMode.haveSec)
    ensures IntAt(data, o + 100, c.setMode.haveQrn)
  {
    hide EncodeAll, LE, LEs, IntAt, NumbersAt, ToU32;
    var fs := BodyFields(c);
    assert |fs| == 9 && fs[0..] == fs;
    NextField(fs, 0, data, o);
    NextField(fs, 1, data, o + 4);
    NextField(fs, 2, data, o + 8);
    NextField(fs, 3, data, o + 12);
    NextField(fs, 4, data, o + 44);
    NextField(fs, 5, data, o + 68);
    NextField(fs, 6, data, o + 92);
    NextField(fs, 7, data, o + 96);
    NextField(fs, 8, data, o + 100);
    IntIs(data, o, c.setMode.mode);
    IntIs(data, o + 4, c.setMode.parm);
    IntIs(data, o + 8, c.setMode.frame);
    NumbersOfLEs(data, o + 12, c.setMode.qrn);
    NumbersOfLEs(data, o + 44, c.setMode.priW);
    NumbersOfLEs(data, o + 68, c.setMode.secW);
    IntIs(data, o + 92, c.setMode.havePri);
    IntIs(data, o + 96, c.setMode.haveSec);
    IntIs(data, o + 100, c.setMode.haveQrn);
  }

  /** A command: type, spacecraft and valid flag, and behind them what its type has. */
  lemma CommandLayout(c: Command, data: seq<Byte>, o: nat)
    requires ValidCommand(c) && At(data, o, EncodeAll(HeadFields(c) + BodyFields(c)))
    ensures IntAt(data, o, c.kind) && IntAt(data, o + 4, c.spacecraftId) && IntAt(data, o + 8, c.valid)
    ensures c.kind == 1 ==> IntAt(data, o + 12, c.mtb.enableMask) && NumbersAt(data, o + 16, c.mtb.dipole)
    ensures c.kind == 2 ==> IntAt(data, o + 12, c.wheel.enableMask) && NumbersAt(data, o + 16, c.wheel.torque)
    ensures c.kind == 3 ==>
              && IntAt(data, o + 12, c.thruster.enableMask)
              && NumbersAt(data, o + 16, c.thruster.thrust) && NumbersAt(data, o + 40, c.thruster.torque)
    ensures c.kind == 4 ==>
              var (b, m) := (o + 12, c.setMode);
              && IntAt(data, b, m.mode) && IntAt(data, b + 4, m.parm) && IntAt(data, b + 8, m.frame)
              && NumbersAt(data, b + 12, m.qrn) && NumbersAt(data, b + 44, m.priW) && NumbersAt(data, b + 68, m.secW)
              && IntAt(data, b + 92, m.havePri) && IntAt(data, b + 96, m.haveSec) && IntAt(data, b + 100, m.haveQrn)
  {
    hide EncodeAll, IntAt, NumbersAt, ToU32, LEs, HeadFields;
    TwoGroups(HeadFields(c), BodyFields(c), data, o);
    Heads(c, data, o);
    CommandFormats(c);
    EncodeAllSize(HeadFields(c));
    Unrolled(HEAD_FORMATS);
    var b := o + 12;
    if c.kind == 1 {
      MaskAndVectors(c.mtb.enableMask, c.mtb.dipole, [], BodyFields(c), data, b);
    } else if c.kind == 2 {
      MaskAndVectors(c.wheel.enableMask, c.wheel.torque, [], BodyFields(c), data, b);
    } else if c.kind == 3 {
      MaskAndVectors(c.thruster.enableMask, c.thruster.thrust, [Doubles(c.thruster.torque)], BodyFields(c), data, b);
      OneVector(c.thruster.torque, data, b + 28);
    } else if c.kind == 4 {
      ModeBody(c, data, b);
    }
  }

  lemma OneVector(a: Bits, data: seq<Byte>, o: nat)
    requires At(data, o, EncodeAll([Doubles(a)]))
    ensures NumbersAt(data, o, a)
  {
    assert EncodeAll([Doubles(a)]) == LEs(a);
    NumbersOfLEs(data, o, a);
  }

  /** The commands of a record one behind the other, each 12, 40, 48, 64 or 116 bytes. */
  lemma {:induction false} CommandsLayout(cs: seq<Command>, data: seq<Byte>, o: nat, k: nat)
    requires (forall j :: 0 <= j < |cs| ==> ValidCommand(cs[j])) && k < |cs|
    requires At(data, o, EncodeAll(CommandsFields(cs)))
    ensures At(data, o + CommandsSize(cs[..k]), EncodeAll(HeadFields(cs[k]) + BodyFields(cs[k])))
    decreases |cs|
  {
    hide EncodeAll, HeadFields, BodyFields, CommandSize;
    TwoGroups(HeadFields(cs[0]) + BodyFields(cs[0]), CommandsFields(cs[1..]), data, o);
    CommandFieldsSize(cs[0]);
    if k > 0 {
      CommandsLayout(cs[1..], data, o + CommandSize(cs[0].kind), k - 1);
      assert cs[..k][1..] == cs[1..][..k - 1] && cs[..k][0] == cs[0];
    } else {
      assert cs[..0] == [];
    }
  }
}
