/** The lock sections of the control trace on its real ring and flags. A ghost copy of the transition system's state
    follows them, so what is proved of its runs holds of the ring. */
module TraceMonitor {
  import opened Options
  import opened TraceQueue

  /** What a pass through tick's lock section comes to. */
  datatype Entry = Accepted | Refused | Waits

  class Monitor {
    const ring: TraceRing
    var stop: bool
    var error: bool
    ghost var state: State

    ghost predicate Valid()
      reads this, ring, ring.queue
    {
      ring.Valid() && state.ring == ring.Contents() && state.stop == stop && state.error == error
    }

    /** simulith_control_trace_open, once the header is written. */
    constructor ()
      ensures Valid() && Init(state) && fresh(ring) && fresh(ring.queue)
    {
      ring := new TraceRing();
      stop, error := false, false;
      state := State([], false, false, Running, Testing, TraceFile.HEADER, None, [], []);
    }

    /** The steps that touch neither ring nor flags: calls, wake-ups, file operations. */
    ghost method Elsewhere(step: Step)
      requires Valid() && Enabled(state, step)
      requires !step.EnterQueue? && !step.SetStop? && !step.WriterTest? && !step.ReportError?
      modifies this`state
      ensures Valid() && state == Apply(old(state), step)
    {
      state := Apply(state, step);
    }

    /** tick's lock section, from getting the mutex to giving it back, asleep or done. */
    method Enter(record: Record) returns (entry: Entry)
      requires Valid() && state.producer == Entering(record)
      modifies this`state, ring`head, ring`count, ring.queue
      ensures Valid() && state == Apply(old(state), EnterQueue)
      ensures entry == (if error then Refused else if old(ring.count) == SLOTS then Waits else Accepted)
      ensures ring.Contents() == old(ring.Contents()) + if entry.Accepted? then [record] else []
    {
      state := Apply(state, EnterQueue);
      if ring.count == SLOTS && !error {
        return Waits;
      }
      if error {
        return Refused;
      }
      ring.Push(record);
      return Accepted;
    }

    /** The writer's lock section; it takes the oldest record, exits, or sleeps. */
    method TakeOldest() returns (record: Option<Record>)
      requires Valid() && state.writer.Testing?
      modifies this`state, ring`tail, ring`count
      ensures Valid() && state == Apply(old(state), WriterTest)
      ensures record.Some? ==>
                old(ring.Contents()) == [record.value] + ring.Contents() && state.writer == Writing(record.value)
      ensures record.None? ==>
                old(ring.Contents()) == ring.Contents() == []
                && state.writer == if stop then Exited([]) else AsleepEmpty
    {
      state := Apply(state, WriterTest);
      if ring.count == 0 {
        return None;
      }
      var oldest := ring.Pop();
      assert old(ring.Contents())[1..] == ring.Contents();
      return Some(oldest);
    }

    /** finish and abort raise the stop flag. */
    method RaiseStop()
      requires Valid() && state.producer.Stopping?
      modifies this`state, this`stop
      ensures Valid() && stop && state == Apply(old(state), SetStop)
    {
      stop := true;
      state := Apply(state, SetStop);
    }

    /** The writer's second lock section, behind a write that failed. */
    method RaiseError()
      requires Valid() && state.writer.Failing?
      modifies this`state, this`error
      ensures Valid() && error && state == Apply(old(state), ReportError)
    {
      error := true;
      state := Apply(state, ReportError);
    }
  }
}
