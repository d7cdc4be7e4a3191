/** The control trace's 64-slot ring, its writer thread, and the crash-safe rename at the end. */
module TraceQueue {
  import opened Options
  import opened Bytes
  import TraceCodec
  import TraceDecode
  import opened TraceFile

  const SLOTS: nat := 64

  type Record = seq<Byte>

  // ---------------------------------------------------------------- the ring

  /** The `count` slots from `tail` on, around the end of the ring. */
  function Window(slots: seq<Record>, tail: nat, count: nat): (records: seq<Record>)
    requires tail < |slots| && count <= |slots|
    ensures |records| == count
  {
    if tail + count <= |slots| then slots[tail..tail + count] else slots[tail..] + slots[..tail + count - |slots|]
  }

  lemma WindowIndex(slots: seq<Record>, tail: nat, count: nat, i: nat)
    requires tail < |slots| && count <= |slots| && i < count
    ensures Window(slots, tail, count)[i] == slots[if tail + i < |slots| then tail + i else tail + i - |slots|]
  {
  }

  lemma PopWindow(slots: seq<Record>, tail: nat, count: nat, next: nat)
    requires tail < |slots| && 0 < count <= |slots| && next == if tail + 1 < |slots| then tail + 1 else 0
    ensures Window(slots, tail, count) == [slots[tail]] + Window(slots, next, count - 1)
  {
    var whole, rest := Window(slots, tail, count), Window(slots, next, count - 1);
    WindowIndex(slots, tail, count, 0);
    forall i | 0 <= i < count - 1
      ensures whole[i + 1] == rest[i]
    {
      WindowIndex(slots, tail, count, i + 1);
      WindowIndex(slots, next, count - 1, i);
    }
    assert |whole| == 1 + |rest|;
    assert whole == [slots[tail]] + whole[1..];
    assert whole[1..] == rest;
  }

  lemma PushWindow(slots: seq<Record>, tail: nat, count: nat, head: nat, record: Record)
    requires tail < |slots| && count < |slots|
    requires head == if tail + count < |slots| then tail + count else tail + count - |slots|
    ensures Window(slots[head := record], tail, count + 1) == Window(slots, tail, count) + [record]
  {
    var after, before := Window(slots[head := record], tail, count + 1), Window(slots, tail, count);
    forall i | 0 <= i < count
      ensures after[i] == before[i]
    {
      WindowIndex(slots[head := record], tail, count + 1, i);
      WindowIndex(slots, tail, count, i);
    }
    WindowIndex(slots[head := record], tail, count + 1, count);
    assert after[..count] == before;
    assert after == after[..count] + [after[count]];
  }

  class TraceRing {
    const queue: array<Record>
    var head: nat
    var tail: nat
    var count: nat

    ghost predicate Valid()
      reads this
    {
      && queue.Length == SLOTS
      && tail < SLOTS && count <= SLOTS
      && head == (tail + count) % SLOTS
    }

    /** The queued records, oldest first. */
    ghost function Contents(): (records: seq<Record>)
      requires Valid()
      reads this, queue
      ensures |records| == count
    {
      Window(queue[..], tail, count)
    }

    constructor ()
      ensures Valid() && Contents() == [] && fresh(queue)
    {
      queue := new Record[SLOTS](_ => []);
      head, tail, count := 0, 0, 0;
    }

    method Push(record: Record)
      requires Valid() && count < SLOTS
      modifies this`head, this`count, queue
      ensures Valid() && Contents() == old(Contents()) + [record]
    {
      hide Window;
      PushWindow(queue[..], tail, count, head, record);
      queue[head] := record;
      assert queue[..] == old(queue[..])[head := record];
      head := (head + 1) % SLOTS;
      count := count + 1;
    }

    method Pop() returns (record: Record)
      requires Valid() && count > 0
      modifies this`tail, this`count
      ensures Valid() && old(Contents()) == [record] + Contents()
    {
      hide Window;
      PopWindow(queue[..], tail, count, (tail + 1) % SLOTS);
      record := queue[tail];
      tail := (tail + 1) % SLOTS;
      count := count - 1;
    }
  }

  // ---------------------------------------------------------------- the two threads

  /** The thread that calls tick and, once, finish or abort. */
  datatype Producer =
    | Running
    | Entering(record: Record)       // in tick, about to test for room under the mutex
    | AsleepFull(record: Record)
    | Stopping(abort: bool)          // about to set the stop flag under the mutex
    | Joining(abort: bool)
    | Closing(abort: bool, failed: bool)
    | Renaming
    | Finished(failed: bool)         // finish has returned, -1 if failed
    | Aborted

  datatype Writer =
    | Testing
    | AsleepEmpty
    | Writing(record: Record)
    | Failing(record: Record)
    | Exited(lost: seq<Record>)      // with the record whose write failed, if one did

  /** `partial` is the file under construction, `complete` what the final name holds. `accepted` (the records tick
      returned 0 for) and `written` are history. */
  datatype State = State(
    ring: seq<Record>, stop: bool, error: bool, producer: Producer, writer: Writer,
    partial: seq<Byte>, complete: Option<seq<Byte>>,
    accepted: seq<Record>, written: seq<Record>)

  datatype Step =
    | TickCalled(record: Record)
    | EnterQueue
    | ProducerWakes
    | FinishCalled(abort: bool)
    | SetStop
    | Join
    | Close(flushed: bool, synced: bool, closed: bool)
    | Rename(succeeds: bool)
    | WriterTest
    | WriterWakes
    | Write(succeeds: bool, reached: seq<Byte>)   // on failure, the bytes that still reached the file
    | ReportError

  ghost predicate Init(s: State) {
    s == State([], false, false, Running, Testing, HEADER, None, [], [])
  }

  ghost predicate Enabled(s: State, step: Step) {
    match step
    case TickCalled(_) => s.producer.Running?
    case EnterQueue => s.producer.Entering?
    case ProducerWakes => s.producer.AsleepFull?
    case FinishCalled(_) => s.producer.Running?
    case SetStop => s.producer.Stopping?
    case Join => s.producer.Joining? && s.writer.Exited?
    case Close(_, _, _) => s.producer.Closing?
    case Rename(_) => s.producer.Renaming?
    case WriterTest => s.writer.Testing?
    case WriterWakes => s.writer.AsleepEmpty?
    case Write(succeeds, reached) => s.writer.Writing? && (!succeeds ==> reached <= Framed(s.writer.record))
    case ReportError => s.writer.Failing?
  }

  function SignalWriter(w: Writer): Writer {
    if w.AsleepEmpty? then Testing else w
  }

  function SignalProducer(p: Producer): Producer {
    if p.AsleepFull? then Entering(p.record) else p
  }

  ghost function Apply(s: State, step: Step): State
    requires Enabled(s, step)
  {
    match step
    case TickCalled(record) => s.(producer := Entering(record))
    case EnterQueue =>
      if |s.ring| == SLOTS && !s.error then s.(producer := AsleepFull(s.producer.record))
      else if s.error then s.(producer := Running)
      else s.(ring := s.ring + [s.producer.record], accepted := s.accepted + [s.producer.record],
              producer := Running, writer := SignalWriter(s.writer))
    case ProducerWakes => s.(producer := Entering(s.producer.record))
    case FinishCalled(abort) => s.(producer := Stopping(abort))
    case SetStop => s.(stop := true, producer := Joining(s.producer.abort), writer := SignalWriter(s.writer))
    case Join => s.(producer := Closing(s.producer.abort, s.error))
    // abort only closes; finish flushes, syncs and closes, and any failure keeps the file from its final name
    case Close(flushed, synced, closed) =>
      if s.producer.abort then s.(producer := Aborted)
      else if s.producer.failed || !flushed || !synced || !closed then s.(producer := Finished(true))
      else s.(producer := Renaming)
    case Rename(succeeds) =>
      if succeeds then s.(complete := Some(s.partial), producer := Finished(false)) else s.(producer := Finished(true))
    case WriterTest =>
      if s.ring == [] then s.(writer := if s.stop then Exited([]) else AsleepEmpty)
      else s.(ring := s.ring[1..], writer := Writing(s.ring[0]), producer := SignalProducer(s.producer))
    case WriterWakes => s.(writer := Testing)
    case Write(succeeds, reached) =>
      if succeeds then
        s.(partial := s.partial + Framed(s.writer.record), written := s.written + [s.writer.record], writer := Testing)
      else s.(partial := s.partial + reached, writer := Failing(s.writer.record))
    case ReportError =>
      s.(error := true, writer := Exited([s.writer.record]), producer := SignalProducer(s.producer))
  }

  ghost predicate Run(states: seq<State>, steps: seq<Step>) {
    && |states| == |steps| + 1
    && Init(states[0])
    && forall k :: 0 <= k < |steps| ==> Enabled(states[k], steps[k]) && states[k + 1] == Apply(states[k], steps[k])
  }

  // ---------------------------------------------------------------- what always holds

  /** The record that has left the ring but is not wholly in the file. */
  function InHand(w: Writer): seq<Record> {
    match w
    case Writing(r) => [r]
    case Failing(r) => [r]
    case Exited(lost) => lost
    case _ => []
  }

  predicate Undamaged(w: Writer) {
    !w.Failing? && !(w.Exited? && w.lost != [])
  }

  predicate AfterStop(p: Producer) {
    p.Joining? || p.Closing? || p.Renaming? || p.Finished? || p.Aborted?
  }

  ghost predicate Inv(s: State) {
    // conservation, in order
    && s.accepted == s.written + InHand(s.writer) + s.ring
    && |s.ring| <= SLOTS
    // the file, up to a failed write
    && (Undamaged(s.writer) ==> s.partial == HEADER + FramedAll(s.written))
    && (s.error <==> s.writer.Exited? && s.writer.lost != [])
    && (s.stop <==> AfterStop(s.producer))
    && (s.writer.Exited? && s.writer.lost == [] ==> s.stop && s.ring == [])
    // a sleeper has no reason to be awake
    && (s.writer.AsleepEmpty? ==> s.ring == [] && !s.stop)
    && (s.producer.AsleepFull? ==> |s.ring| == SLOTS && !s.error)
    && (s.producer.Closing? || s.producer.Renaming? || s.producer.Finished? || s.producer.Aborted? ==> s.writer.Exited?)
    && (s.producer.Closing? ==> s.producer.failed == s.error)
    && (s.producer.Renaming? ==> !s.error)
    && (s.complete.Some? ==> s.producer == Finished(false) && !s.error && s.complete == Some(s.partial))
  }

  predicate IsWriterStep(step: Step) {
    step.WriterTest? || step.WriterWakes? || step.Write? || step.ReportError?
  }

  lemma WriterStepKeeps(s: State, step: Step)
    requires Inv(s) && Enabled(s, step) && IsWriterStep(step)
    ensures Inv(Apply(s, step))
  {
    hide Framed, FramedAll;
    var s' := Apply(s, step);
    if step.Write? && step.succeeds {
      var record := s.writer.record;
      FramedAllAppend(s.written, record);
      assert s.partial + Framed(record) == HEADER + (FramedAll(s.written) + Framed(record));
      assert s.written + [record] + s.ring == s'.written + [] + s'.ring;
    } else if step.WriterTest? && s.ring != [] {
      HeadTail(s.ring);
      assert s.written + [] + s.ring == s'.written + [s.ring[0]] + s'.ring;
    }
  }

  lemma ProducerStepKeeps(s: State, step: Step)
    requires Inv(s) && Enabled(s, step) && !IsWriterStep(step)
    ensures Inv(Apply(s, step))
  {
    hide Framed, FramedAll;
    if step.EnterQueue? {
      var record, before := s.producer.record, s.written + InHand(s.writer);
      assert before + s.ring + [record] == before + (s.ring + [record]);
    }
  }

  lemma StepKeeps(s: State, step: Step)
    requires Inv(s) && Enabled(s, step)
    ensures Inv(Apply(s, step))
  {
    if IsWriterStep(step) {
      WriterStepKeeps(s, step);
    } else {
      ProducerStepKeeps(s, step);
    }
  }

  lemma {:induction false} RunKeeps(states: seq<State>, steps: seq<Step>, k: nat)
    requires Run(states, steps) && k <= |steps|
    ensures Inv(states[k])
  {
    if k == 0 {
      assert HEADER + FramedAll([]) == HEADER;
    } else {
      RunKeeps(states, steps, k - 1);
      StepKeeps(states[k - 1], steps[k - 1]);
    }
  }

  /** Nothing is lost, duplicated or reordered: the records written, then the one the writer holds, then the ring
      make up exactly the records accepted; without a write error the file holds exactly the written ones. */
  lemma QueueConservation(states: seq<State>, steps: seq<Step>, k: nat)
    requires Run(states, steps) && k <= |steps|
    ensures var s := states[k];
            && s.accepted == s.written + InHand(s.writer) + s.ring
            && |s.ring| <= SLOTS
            && (Undamaged(s.writer) ==> s.partial == HEADER + FramedAll(s.written))
  {
    RunKeeps(states, steps, k);
  }

  /** The final name exists only for a file made of the header and every accepted record. */
  lemma FinalNameIsComplete(states: seq<State>, steps: seq<Step>, k: nat)
    requires Run(states, steps) && k <= |steps| && states[k].complete.Some?
    ensures states[k].complete == Some(FileOf(states[k].accepted))
    ensures states[k].written == states[k].accepted && !states[k].error
  {
    RunKeeps(states, steps, k);
    var s := states[k];
    assert s.written + [] + [] == s.written;
  }

  /** The two threads never sleep at the same time, and each sleeps only while its own condition holds. */
  lemma NeverBothAsleep(states: seq<State>, steps: seq<Step>, k: nat)
    requires Run(states, steps) && k <= |steps|
    ensures !(states[k].producer.AsleepFull? && states[k].writer.AsleepEmpty?)
    ensures states[k].producer.AsleepFull? ==>
              |states[k].ring| == SLOTS && !states[k].error && !states[k].writer.Exited?
    ensures states[k].writer.AsleepEmpty? ==> states[k].ring == [] && !states[k].stop
  {
    RunKeeps(states, steps, k);
  }

  // ---------------------------------------------------------------- finish terminates

  function WriterStep(w: Writer, fails: bool): Step {
    match w
    case Writing(_) => Write(!fails, [])
    case Failing(_) => ReportError
    case AsleepEmpty => WriterWakes
    case _ => WriterTest
  }

  /** How many steps the writer can still take once the stop flag is set. */
  function Work(s: State): nat {
    match s.writer
    case Testing => 1 + 2 * |s.ring|
    case AsleepEmpty => 2 + 2 * |s.ring|
    case Writing(_) => 2 + 2 * |s.ring|
    case Failing(_) => 1
    case Exited(_) => 0
  }

  /** From the stop flag on the writer is never asleep: until it has exited it has a step to take, whether writes
      succeed or fail, and every step any thread takes leaves it less to do or the same. It has at most 130 steps
      left, so the join of finish and abort returns. */
  lemma FinishTerminates(states: seq<State>, steps: seq<Step>, k: nat, fails: bool)
    requires Run(states, steps) && k <= |steps| && states[k].stop
    ensures Work(states[k]) <= 130
    ensures Work(states[k]) == 0 <==> states[k].writer.Exited?
    ensures !states[k].writer.Exited? ==>
              var next := WriterStep(states[k].writer, fails);
              Enabled(states[k], next) && Work(Apply(states[k], next)) < Work(states[k])
    ensures k < |steps| ==> states[k + 1].stop && Work(states[k + 1]) <= Work(states[k])
  {
    RunKeeps(states, steps, k);
    assert [] <= Framed(if states[k].writer.Writing? then states[k].writer.record else []);
  }

  /** End to end: if finish has given the trace its final name and tick accepted exactly the records of these ticks,
      the reader yields exactly these ticks, and the scanner their dyn_time list. */
  lemma FinishedTraceDecodes(states: seq<State>, steps: seq<Step>, k: nat, ticks: seq<TraceCodec.Tick>)
    requires Run(states, steps) && k <= |steps| && states[k].complete.Some?
    requires ValidTicks(ticks) && forall n :: 0 <= n < |ticks| ==> TraceDecode.AllKnown(ticks[n].commands)
    requires states[k].accepted == EncodeTicks(ticks)
    ensures DecodeFile(states[k].complete.value) == Outcome(ViewTicks(ticks), None)
    ensures OrderedFrom(ViewTicks(ticks), 0) ==>
              ScanFile(states[k].complete.value) == Some(DynTimes(ViewTicks(ticks)))
  {
    hide DecodeFile, ScanFile;
    FinalNameIsComplete(states, steps, k);
    FileRoundTrip(ticks);
    ScannerRefinesDecoder(states[k].complete.value);
  }
}
