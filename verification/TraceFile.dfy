/** Whole control-trace files: the record reader, the faster scanner of dyn_time, and the byte comparison. */
module TraceFile {
  import opened Options
  import opened Frames
  import opened Bytes
  import opened TraceCodec
  import opened TraceDecode

  /** "SHCT" and the version, 1. */
  const HEADER: seq<Byte> := [83, 72, 67, 84, 1, 0, 0, 0]

  const TICK_NS: nat := 10_000_000

  // ---------------------------------------------------------------- the file format

  /** What the writer thread appends for one record. */
  function Framed(record: seq<Byte>): seq<Byte> {
    LE(|record|, 4) + record
  }

  function FramedAll(records: seq<seq<Byte>>): seq<Byte> {
    if records == [] then [] else Framed(records[0]) + FramedAll(records[1..])
  }

  function FileOf(records: seq<seq<Byte>>): seq<Byte> {
    HEADER + FramedAll(records)
  }

  lemma {:induction false} FramedAllAppend(records: seq<seq<Byte>>, record: seq<Byte>)
    ensures FramedAll(records + [record]) == FramedAll(records) + Framed(record)
  {
    if records == [] {
      assert FramedAll([record]) == Framed(record) + FramedAll([]);
    } else {
      FramedAllAppend(records[1..], record);
      assert (records + [record])[1..] == records[1..] + [record];
    }
  }

  ghost predicate ValidTicks(ticks: seq<Tick>) {
    forall k :: 0 <= k < |ticks| ==> ValidTick(ticks[k])
  }

  function EncodeTicks(ticks: seq<Tick>): (records: seq<seq<Byte>>)
    requires ValidTicks(ticks)
    ensures |records| == |ticks|
    ensures forall k :: 0 <= k < |ticks| ==> records[k] == EncodeTick(ticks[k])
  {
    if ticks == [] then [] else [EncodeTick(ticks[0])] + EncodeTicks(ticks[1..])
  }

  ghost predicate Short(records: seq<seq<Byte>>) {
    forall k :: 0 <= k < |records| ==> |records[k]| < WORD32
  }

  lemma FrameHead(record: seq<Byte>, rest: seq<Byte>)
    requires |record| < WORD32
    ensures var bytes := Framed(record) + rest;
            && |bytes| == 4 + |record| + |rest| && FromLE(bytes[..4]) == |record|
            && bytes[4..4 + |record|] == record && bytes[4 + |record|..] == rest
  {
    WordSizes();
    FromLEInverse(|record|, 4);
    assert (Framed(record) + rest)[..4] == LE(|record|, 4);
  }

  /** The framing is self-delimiting: equal bytes come from equal lists of records. */
  lemma {:induction false} FramingIsInjective(a: seq<seq<Byte>>, b: seq<seq<Byte>>)
    requires Short(a) && Short(b)
    ensures FramedAll(a) == FramedAll(b) <==> a == b
    decreases |a|
  {
    if a != [] && b != [] {
      FrameHead(a[0], FramedAll(a[1..]));
      FrameHead(b[0], FramedAll(b[1..]));
      FramingIsInjective(a[1..], b[1..]);
      HeadTail(a);
      HeadTail(b);
    }
  }

  // ---------------------------------------------------------------- the full decoder

  /** What records() yields before it ends, and the exception it ends with, if any. */
  datatype Outcome = Outcome(yielded: seq<TickView>, error: Option<Error>)

  function DecodeFrom(file: seq<Byte>, offset: nat): Outcome
    requires offset <= |file|
    decreases |file| - offset
  {
    if offset == |file| then Outcome([], None)
    else if offset + 4 > |file| then Outcome([], Some(TruncatedLength))
    else
      var length := FromLE(file[offset..offset + 4]);
      var start := offset + 4;
      if length < 476 || length > 16384 then Outcome([], Some(BadLength))
      else if start + length > |file| then Outcome([], Some(TruncatedRecord))
      else
        match DecodeTick(file[start..start + length])
        case Err(e) => Outcome([], Some(e))
        case Ok(view) =>
          var rest := DecodeFrom(file, start + length);
          Outcome([view] + rest.yielded, rest.error)
  }

  function DecodeFile(file: seq<Byte>): Outcome {
    if |file| < 8 || file[..8] != HEADER then Outcome([], Some(BadMagic)) else DecodeFrom(file, 8)
  }

  /** records(path), reading chunk by chunk from the current position. */
  method Records(file: seq<Byte>) returns (yielded: seq<TickView>, error: Option<Error>)
    ensures Outcome(yielded, error) == DecodeFile(file)
  {
    hide DecodeTick, FromLE;
    yielded := [];
    if |file| < 8 || file[..8] != HEADER {
      return yielded, Some(BadMagic);
    }
    var position := 8;
    ghost var all := DecodeFrom(file, 8);
    assert [] + all.yielded == all.yielded;
    while position < |file|
      invariant 8 <= position <= |file|
      invariant all.yielded == yielded + DecodeFrom(file, position).yielded
      invariant all.error == DecodeFrom(file, position).error
    {
      assert yielded + [] == yielded;
      if position + 4 > |file| {
        return yielded, Some(TruncatedLength);
      }
      var length := FromLE(file[position..position + 4]);
      position := position + 4;
      if length < 476 || length > 16384 {
        return yielded, Some(BadLength);
      }
      if position + length > |file| {
        return yielded, Some(TruncatedRecord);
      }
      var decoded := DecodeTick(file[position..position + length]);
      if decoded.Err? {
        return yielded, Some(decoded.error);
      }
      position := position + length;
      assert all.yielded == yielded + ([decoded.value] + DecodeFrom(file, position).yielded);
      yielded := yielded + [decoded.value];
    }
    assert yielded + [] == yielded;
    return yielded, None;
  }

  function ViewTicks(ticks: seq<Tick>): seq<TickView>
    requires ValidTicks(ticks)
  {
    if ticks == [] then [] else [ViewTick(ticks[0])] + ViewTicks(ticks[1..])
  }

  /** The reader yields exactly the recorded ticks of a file the writer made of them. */
  lemma FileRoundTrip(ticks: seq<Tick>)
    requires ValidTicks(ticks) && forall k :: 0 <= k < |ticks| ==> AllKnown(ticks[k].commands)
    ensures DecodeFile(FileOf(EncodeTicks(ticks))) == Outcome(ViewTicks(ticks), None)
  {
    var file := FileOf(EncodeTicks(ticks));
    assert file[..8] == HEADER && file[8..] == FramedAll(EncodeTicks(ticks));
    RecordsRoundTrip(ticks, file, 8);
  }

  /** The framed record at an offset of a file. */
  lemma FrameAt(file: seq<Byte>, offset: nat, record: seq<Byte>, rest: seq<Byte>)
    requires |record| < WORD32 && offset <= |file| && file[offset..] == Framed(record) + rest
    ensures var (start, end) := (offset + 4, offset + 4 + |record|);
            && end <= |file| && FromLE(file[offset..start]) == |record|
            && file[start..end] == record && file[end..] == rest
  {
    hide Framed, FromLE;
    FrameHead(record, rest);
    var bytes := file[offset..];
    assert |bytes| == |file| - offset;
    assert file[offset..offset + 4] == bytes[..4];
    assert file[offset + 4..offset + 4 + |record|] == bytes[4..4 + |record|];
    assert file[offset + 4 + |record|..] == bytes[4 + |record|..];
  }

  lemma {:induction false} RecordsRoundTrip(ticks: seq<Tick>, file: seq<Byte>, offset: nat)
    requires ValidTicks(ticks) && forall k :: 0 <= k < |ticks| ==> AllKnown(ticks[k].commands)
    requires offset <= |file| && file[offset..] == FramedAll(EncodeTicks(ticks))
    ensures DecodeFrom(file, offset) == Outcome(ViewTicks(ticks), None)
    decreases |ticks|
  {
    hide EncodeTick, DecodeTick, ViewTick, AllKnown, FromLE, Framed;
    if ticks != [] {
      RecordSize(ticks[0]);
      assert EncodeTicks(ticks)[1..] == EncodeTicks(ticks[1..]);
      FrameAt(file, offset, EncodeTick(ticks[0]), FramedAll(EncodeTicks(ticks[1..])));
      TickRoundTrip(ticks[0]);
      RecordsRoundTrip(ticks[1..], file, offset + 4 + |EncodeTick(ticks[0])|);
    }
  }

  // ---------------------------------------------------------------- a file that was cut

  /** How a cut that leaves this much of a record ends the reading. */
  function CutError(left: nat): Option<Error> {
    if left == 0 then None else if left < 4 then Some(TruncatedLength) else Some(TruncatedRecord)
  }

  lemma TicksFirst(ticks: seq<Tick>, k: nat)
    requires ValidTicks(ticks) && 0 < k <= |ticks|
    ensures ValidTicks(ticks[..k]) && ValidTicks(ticks[1..][..k - 1])
    ensures EncodeTicks(ticks[..k]) == [EncodeTick(ticks[0])] + EncodeTicks(ticks[1..][..k - 1])
    ensures ViewTicks(ticks[..k]) == [ViewTick(ticks[0])] + ViewTicks(ticks[1..][..k - 1])
    ensures FramedAll(EncodeTicks(ticks[..k]))
            == Framed(EncodeTick(ticks[0])) + FramedAll(EncodeTicks(ticks[1..][..k - 1]))
  {
    hide EncodeTick, ViewTick, Framed;
    assert ticks[..k][0] == ticks[0] && ticks[..k][1..] == ticks[1..][..k - 1];
    assert EncodeTicks(ticks[..k])[1..] == EncodeTicks(ticks[1..][..k - 1]);
  }

  lemma CutWithinRecord(record: seq<Byte>, rest: seq<Byte>, data: seq<Byte>, offset: nat, m: nat)
    requires 476 <= |record| <= 16384 && offset <= |data| && m < 4 + |record|
    requires data[offset..] == (Framed(record) + rest)[..m]
    ensures DecodeFrom(data, offset) == Outcome([], CutError(m))
  {
    hide DecodeTick, FromLE;
    if m >= 4 {
      FrameHead(record, rest);
      assert data[offset..offset + 4] == data[offset..][..4] == (Framed(record) + rest)[..4];
    }
  }

  lemma WholeRecord(tick: Tick, data: seq<Byte>, offset: nat, rest: seq<Byte>)
    requires ValidTick(tick) && AllKnown(tick.commands) && offset <= |data|
    requires data[offset..] == Framed(EncodeTick(tick)) + rest
    ensures var end := offset + 4 + |EncodeTick(tick)|;
            && end <= |data| && data[end..] == rest
            && DecodeFrom(data, offset)
               == Outcome([ViewTick(tick)] + DecodeFrom(data, end).yielded, DecodeFrom(data, end).error)
  {
    hide EncodeTick, DecodeTick, ViewTick, FromLE, Framed;
    RecordSize(tick);
    FrameAt(data, offset, EncodeTick(tick), rest);
    TickRoundTrip(tick);
  }

  /** A stream of framed ticks that was cut after m bytes, of which the first k are there in full. */
  ghost predicate CutAfter(ticks: seq<Tick>, data: seq<Byte>, offset: nat, m: nat, k: nat)
    requires offset <= |data| && ValidTicks(ticks)
  {
    && k <= |ticks| && ValidTicks(ticks[..k])
    && |FramedAll(EncodeTicks(ticks[..k]))| <= m
    && DecodeFrom(data, offset) == Outcome(ViewTicks(ticks[..k]), CutError(m - |FramedAll(EncodeTicks(ticks[..k]))|))
    && (k < |ticks| ==> ValidTicks(ticks[..k + 1]) && m < |FramedAll(EncodeTicks(ticks[..k + 1]))|)
  }

  lemma CutInFirst(ticks: seq<Tick>, data: seq<Byte>, offset: nat, m: nat)
    requires ValidTicks(ticks) && ticks != [] && offset <= |data| && m < 4 + |EncodeTick(ticks[0])|
    requires data[offset..] == FramedAll(EncodeTicks(ticks))[..m]
    requires m <= |FramedAll(EncodeTicks(ticks))|
    ensures CutAfter(ticks, data, offset, m, 0)
  {
    hide EncodeTick, DecodeTick, ViewTick, AllKnown, FromLE, Framed, CutError, DecodeFrom;
    FirstFramed(ticks);
    RecordSize(ticks[0]);
    CutWithinRecord(EncodeTick(ticks[0]), FramedAll(EncodeTicks(ticks[1..])), data, offset, m);
    TicksFirst(ticks, 1);
    FrameHead(EncodeTick(ticks[0]), []);
    assert Framed(EncodeTick(ticks[0])) + [] == Framed(EncodeTick(ticks[0]));
    assert ticks[..0] == [];
    assert ticks[1..][..0] == [];
  }

  lemma FirstFramed(ticks: seq<Tick>)
    requires ValidTicks(ticks) && ticks != []
    ensures ValidTicks(ticks[1..])
    ensures FramedAll(EncodeTicks(ticks)) == Framed(EncodeTick(ticks[0])) + FramedAll(EncodeTicks(ticks[1..]))
  {
    hide EncodeTick, Framed;
    assert EncodeTicks(ticks)[1..] == EncodeTicks(ticks[1..]);
  }

  lemma CutBehindFirst(ticks: seq<Tick>, data: seq<Byte>, offset: nat, m: nat, j: nat)
    requires ValidTicks(ticks) && ticks != [] && offset <= |data| && AllKnown(ticks[0].commands)
    requires m >= 4 + |EncodeTick(ticks[0])| && ValidTicks(ticks[1..])
    requires offset + 4 + |EncodeTick(ticks[0])| <= |data|
    requires CutAfter(ticks[1..], data, offset + 4 + |EncodeTick(ticks[0])|, m - 4 - |EncodeTick(ticks[0])|, j)
    requires DecodeFrom(data, offset)
             == (var rest := DecodeFrom(data, offset + 4 + |EncodeTick(ticks[0])|);
                 Outcome([ViewTick(ticks[0])] + rest.yielded, rest.error))
    ensures CutAfter(ticks, data, offset, m, j + 1)
  {
    hide EncodeTick, ViewTick, AllKnown, Framed, CutError, DecodeFrom, EncodeTicks, FramedAll, ViewTicks;
    TicksFirst(ticks, j + 1);
    FrameHeadSize(EncodeTick(ticks[0]));
    if j + 1 < |ticks| {
      TicksFirst(ticks, j + 2);
    }
  }

  lemma FrameHeadSize(record: seq<Byte>)
    ensures |Framed(record)| == 4 + |record|
  {
  }

  lemma {:induction false} CutFrom(ticks: seq<Tick>, data: seq<Byte>, offset: nat, m: nat) returns (k: nat)
    requires ValidTicks(ticks) && forall j :: 0 <= j < |ticks| ==> AllKnown(ticks[j].commands)
    requires offset <= |data| && m <= |FramedAll(EncodeTicks(ticks))|
    requires data[offset..] == FramedAll(EncodeTicks(ticks))[..m]
    ensures CutAfter(ticks, data, offset, m, k)
    decreases |ticks|
  {
    hide *;
    if ticks == [] {
      k := 0;
      NothingToCut(ticks, data, offset, m);
    } else {
      AllFirst(ticks);
      var size := 4 + |EncodeTick(ticks[0])|;
      if m < size {
        k := 0;
        CutInFirst(ticks, data, offset, m);
      } else {
        var rest := RestOfStream(ticks, m);
        WholeRecord(ticks[0], data, offset, rest);
        var j := CutFrom(ticks[1..], data, offset + size, m - size);
        k := j + 1;
        CutBehindFirst(ticks, data, offset, m, j);
      }
    }
  }

  lemma NothingToCut(ticks: seq<Tick>, data: seq<Byte>, offset: nat, m: nat)
    requires ticks == [] && ValidTicks(ticks) && offset <= |data| && m <= |FramedAll(EncodeTicks(ticks))|
    requires data[offset..] == FramedAll(EncodeTicks(ticks))[..m]
    ensures CutAfter(ticks, data, offset, m, 0)
  {
  }

  lemma RestOfStream(ticks: seq<Tick>, m: nat) returns (rest: seq<Byte>)
    requires ValidTicks(ticks) && ticks != [] && 4 + |EncodeTick(ticks[0])| <= m <= |FramedAll(EncodeTicks(ticks))|
    ensures ValidTicks(ticks[1..])
    ensures m - 4 - |EncodeTick(ticks[0])| <= |FramedAll(EncodeTicks(ticks[1..]))|
    ensures rest == FramedAll(EncodeTicks(ticks[1..]))[..m - 4 - |EncodeTick(ticks[0])|]
    ensures FramedAll(EncodeTicks(ticks))[..m] == Framed(EncodeTick(ticks[0])) + rest
  {
    hide EncodeTicks, EncodeTick, FramedAll, Framed;
    FirstFramed(ticks);
    FrameHeadSize(EncodeTick(ticks[0]));
    rest := FramedAll(EncodeTicks(ticks[1..]))[..m - 4 - |EncodeTick(ticks[0])|];
  }

  lemma AllFirst(ticks: seq<Tick>)
    requires ValidTicks(ticks) && ticks != []
    ensures ValidTick(ticks[0]) && |ticks[0].commands| < WORD32
  {
  }

  /** A trace that was cut anywhere behind its header yields exactly the ticks that are there in full, and tells how it
      was cut: not at all between two records, in a length, or in a record. */
  lemma CutAnywhere(ticks: seq<Tick>, n: nat) returns (k: nat)
    requires ValidTicks(ticks) && forall j :: 0 <= j < |ticks| ==> AllKnown(ticks[j].commands)
    requires 8 <= n <= |FileOf(EncodeTicks(ticks))|
    ensures k <= |ticks| && ValidTicks(ticks[..k])
    ensures var (file, whole) := (FileOf(EncodeTicks(ticks))[..n], |FileOf(EncodeTicks(ticks[..k]))|);
            whole <= n && DecodeFile(file) == Outcome(ViewTicks(ticks[..k]), CutError(n - whole))
    ensures k < |ticks| ==> n < |FileOf(EncodeTicks(ticks[..k + 1]))|
  {
    hide FramedAll, EncodeTicks, DecodeFrom, ViewTicks, CutError, ValidTicks;
    var file := FileOf(EncodeTicks(ticks))[..n];
    assert file[..8] == HEADER && file[8..] == FramedAll(EncodeTicks(ticks))[..n - 8];
    k := CutFrom(ticks, file, 8, n - 8);
  }

  // ---------------------------------------------------------------- the scanner

  /** control_trace_states from an offset, with `count` values already found. */
  function ScanFrom(file: seq<Byte>, offset: nat, count: nat): (values: Option<seq<U64>>)
    decreases |file| - offset
  {
    if offset >= |file| then Some([])
    else if offset + 4 > |file| then None
    else
      var length := FromLE(file[offset..offset + 4]);
      if length < 32 || offset + 4 + length > |file| then None
      else
        var sequence, time := FromLE(file[offset + 4..offset + 12]), FromLE(file[offset + 12..offset + 20]);
        if sequence != count || time != sequence * TICK_NS then None
        else
          FromLEBound(file[offset + 28..offset + 36]);
          WordSizes();
          match ScanFrom(file, offset + 4 + length, count + 1)
          case None => None
          case Some(rest) => Some([FromLE(file[offset + 28..offset + 36])] + rest)
  }

  function ScanFile(file: seq<Byte>): Option<seq<U64>> {
    if |file| < 8 || file[..8] != HEADER then None else ScanFrom(file, 8, 0)
  }

  method ControlTraceStates(file: seq<Byte>) returns (values: Option<seq<U64>>)
    ensures values == ScanFile(file)
  {
    hide FromLE;
    if |file| < 8 || file[..8] != HEADER {
      return None;
    }
    var found: seq<U64> := [];
    var offset := 8;
    ghost var all := ScanFrom(file, 8, 0);
    assert all.Some? ==> [] + all.value == all.value;
    while offset < |file|
      invariant 8 <= offset
      invariant all.Some? <==> ScanFrom(file, offset, |found|).Some?
      invariant all.Some? ==> all.value == found + ScanFrom(file, offset, |found|).value
      decreases |file| - offset
    {
      if offset + 4 > |file| {
        return None;
      }
      var length := FromLE(file[offset..offset + 4]);
      if length < 32 || offset + 4 + length > |file| {
        return None;
      }
      var sequence, time := FromLE(file[offset + 4..offset + 12]), FromLE(file[offset + 12..offset + 20]);
      if sequence != |found| || time != sequence * TICK_NS {
        return None;
      }
      FromLEBound(file[offset + 28..offset + 36]);
      WordSizes();
      var value: U64 := FromLE(file[offset + 28..offset + 36]);
      ghost var rest := ScanFrom(file, offset + 4 + length, |found| + 1);
      assert rest.Some? ==> found + ([value] + rest.value) == (found + [value]) + rest.value;
      found := found + [value];
      offset := offset + 4 + length;
    }
    assert found + [] == found;
    return Some(found);
  }

  /** Tick k carries sequence k at time k * 10 ms. */
  predicate OrderedFrom(views: seq<TickView>, count: nat) {
    forall k :: 0 <= k < |views| ==>
      views[k].sequence == count + k && views[k].timeNs == (count + k) * TICK_NS
  }

  function DynTimes(views: seq<TickView>): seq<U64> {
    if views == [] then [] else [views[0].state.dynTime] + DynTimes(views[1..])
  }

  lemma ReadAllHead(fmts: seq<Format>, data: seq<Byte>, offset: nat)
    requires fmts != [] && ReadAll(fmts, data, offset).Some?
    ensures var fs, mid := ReadAll(fmts, data, offset).value.0, offset + Size(fmts[0]);
            && mid <= |data| && fs[0] == Decode(fmts[0], data[offset..mid])
            && ReadAll(fmts[1..], data, mid).Some? && ReadAll(fmts[1..], data, mid).value.0 == fs[1..]
  {
  }

  lemma PreambleStarts()
    ensures |PREAMBLE_FORMATS| == 25
    ensures PREAMBLE_FORMATS[0] == FLong && PREAMBLE_FORMATS[1..][0] == FLong
    ensures PREAMBLE_FORMATS[1..][1..][0] == FDoubles(1) && PREAMBLE_FORMATS[1..][1..][1..][0] == FDoubles(1)
  {
    StateFormatsAt(0);
    StateFormatsAt(1);
    Middle(STAMP_FORMATS, STATE_FORMATS, [FWord], PREAMBLE_FORMATS);
    assert PREAMBLE_FORMATS[2..24][0] == STATE_FORMATS[0] && PREAMBLE_FORMATS[2..24][1] == STATE_FORMATS[1];
  }

  /** Sequence, time and dyn_time sit at fixed places of every record the decoder accepts. */
  lemma DecodedStamps(data: seq<Byte>)
    requires DecodeTick(data).Ok?
    ensures |data| >= 32
    ensures DecodeTick(data).value.sequence == FromLE(data[0..8])
    ensures DecodeTick(data).value.timeNs == FromLE(data[8..16])
    ensures DecodeTick(data).value.state.dynTime == FromLE(data[24..32])
  {
    hide ReadAll, ReadCommands, Decode, FromLE;
    PreambleStarts();
    var fmts := PREAMBLE_FORMATS;
    var fs := ReadAll(fmts, data, 0).value.0;
    ReadAllHead(fmts, data, 0);
    ReadAllHead(fmts[1..], data, 8);
    ReadAllHead(fmts[1..][1..], data, 16);
    ReadAllHead(fmts[1..][1..][1..], data, 24);
    DecodedWords(data[0..8]);
    DecodedWords(data[8..16]);
    DecodedWords(data[24..32]);
    assert fs[1..][1..][1..][0] == fs[3] == fs[2..24][1];
    assert fs[1..][0] == fs[1];
  }

  lemma DecodedWords(bytes: seq<Byte>)
    requires |bytes| == 8
    ensures FromLE(bytes) < WORD64
    ensures Decode(FLong, bytes) == Long(FromLE(bytes))
    ensures Decode(FDoubles(1), bytes).Doubles? && Decode(FDoubles(1), bytes).values == [FromLE(bytes)]
  {
    assert bytes[..8] == bytes;
    FromLEBound(bytes);
    WordSizes();
  }

  /** On every file the full decoder accepts, ordered or not, the scanner returns exactly the decoder's dyn_time
      list if the ticks are in order, and refuses the file otherwise. */
  lemma ScannerRefinesDecoder(file: seq<Byte>)
    requires DecodeFile(file).error.None?
    ensures ScanFile(file) ==
            if OrderedFrom(DecodeFile(file).yielded, 0) then Some(DynTimes(DecodeFile(file).yielded)) else None
  {
    ScanRefinesDecode(file, 8, 0);
  }

  lemma OrderedSplit(views: seq<TickView>, count: nat)
    requires views != []
    ensures OrderedFrom(views, count) <==>
            views[0].sequence == count && views[0].timeNs == count * TICK_NS && OrderedFrom(views[1..], count + 1)
  {
    assert forall k :: 1 <= k < |views| ==> views[k] == views[1..][k - 1];
    if OrderedFrom(views, count) {
      assert views[0].sequence == count + 0;
    }
    if OrderedFrom(views[1..], count + 1) {
      forall k | 1 <= k < |views|
        ensures views[k].sequence == count + k && views[k].timeNs == (count + k) * TICK_NS
      {
        assert views[1..][k - 1].sequence == count + 1 + (k - 1);
      }
    }
  }

  lemma {:induction false} ScanRefinesDecode(file: seq<Byte>, offset: nat, count: nat)
    requires offset <= |file| && DecodeFrom(file, offset).error.None?
    ensures var views := DecodeFrom(file, offset).yielded;
            ScanFrom(file, offset, count) == if OrderedFrom(views, count) then Some(DynTimes(views)) else None
    decreases |file| - offset
  {
    hide DecodeTick, FromLE, OrderedFrom;
    var views := DecodeFrom(file, offset).yielded;
    if offset == |file| {
      OrderedNothing(count);
    } else {
      var length := FromLE(file[offset..offset + 4]);
      var start, end := offset + 4, offset + 4 + length;
      var data := file[start..end];
      DecodedStamps(data);
      SliceOfSlice(file, start, end, 0, 8);
      SliceOfSlice(file, start, end, 8, 16);
      SliceOfSlice(file, start, end, 24, 32);
      ScanRefinesDecode(file, end, count + 1);
      OrderedSplit(views, count);
      assert views[1..] == DecodeFrom(file, end).yielded;
    }
  }

  lemma OrderedNothing(count: nat)
    ensures OrderedFrom([], count)
  {
  }

  // ---------------------------------------------------------------- byte comparison

  const CHUNK: nat := 1024 * 1024

  /** same_trace_bytes: sizes first, then chunk by chunk. */
  method SameTraceBytes(left: seq<Byte>, right: seq<Byte>) returns (same: bool)
    ensures same <==> left == right
  {
    if |left| != |right| {
      return false;
    }
    var position := 0;
    while true
      invariant position <= |left| && left[..position] == right[..position]
      decreases |left| - position
    {
      var end := if position + CHUNK <= |left| then position + CHUNK else |left|;
      var leftChunk, rightChunk := left[position..end], right[position..end];
      if leftChunk != rightChunk {
        return false;
      }
      if |leftChunk| == 0 {
        assert left[..position] == left && right[..position] == right;
        return true;
      }
      assert left[..end] == left[..position] + leftChunk && right[..end] == right[..position] + rightChunk;
      position := end;
    }
  }

  /** Two trace files have the same bytes if and only if they were made of the same records. */
  lemma SameFileIffSameRecords(a: seq<seq<Byte>>, b: seq<seq<Byte>>)
    requires Short(a) && Short(b)
    ensures FileOf(a) == FileOf(b) <==> a == b
  {
    FramingIsInjective(a, b);
    assert FileOf(a)[8..] == FramedAll(a) && FileOf(b)[8..] == FramedAll(b);
  }
}
