/** What a finish of the control trace comes to: its answer and the final name, told from the calls of a run and from
    which of its file operations failed. */
module TraceFinish {
  import opened Options
  import opened TraceFile
  import opened TraceQueue

  /** A write, flush, sync, close or rename that failed. */
  predicate Fails(step: Step) {
    match step
    case Write(succeeds, _) => !succeeds
    case Close(flushed, synced, closed) => !(flushed && synced && closed)
    case Rename(succeeds) => !succeeds
    case _ => false
  }

  predicate Healthy(past: seq<Step>) {
    forall j :: 0 <= j < |past| ==> !Fails(past[j])
  }

  predicate WritesFine(past: seq<Step>) {
    forall j :: 0 <= j < |past| ==> past[j].Write? ==> !Fails(past[j])
  }

  predicate NotClosed(past: seq<Step>) {
    forall j :: 0 <= j < |past| ==> !past[j].Close? && !past[j].Rename?
  }

  predicate Called(past: seq<Step>, abort: bool) {
    exists j :: 0 <= j < |past| && past[j] == FinishCalled(abort)
  }

  predicate Reported(past: seq<Step>) {
    ReportError in past
  }

  /** What a state owes to the steps before it. */
  ghost predicate Tracks(s: State, past: seq<Step>) {
    var p := s.producer;
    && (Undamaged(s.writer) <==> WritesFine(past))
    && (s.error <==> Reported(past))
    && (p.Running? || p.Entering? || p.AsleepFull? <==> !Called(past, true) && !Called(past, false))
    && !(Called(past, true) && Called(past, false))
    && (p.Stopping? || p.Joining? || p.Closing? ==> (p.abort <==> Called(past, true)))
    && (p.Renaming? || p.Finished? ==> Called(past, false))
    && (p.Aborted? ==> Called(past, true))
    && (!p.Renaming? && !p.Finished? && !p.Aborted? ==> NotClosed(past))
    && (p.Renaming? ==> Healthy(past))
    && (p.Finished? ==> (p.failed <==> !Healthy(past)))
    && (s.complete.Some? <==> p == Finished(false))
  }

  lemma CalledMore(past: seq<Step>, step: Step, abort: bool)
    ensures Called(past + [step], abort) <==> Called(past, abort) || step == FinishCalled(abort)
  {
    if Called(past, abort) {
      var j :| 0 <= j < |past| && past[j] == FinishCalled(abort);
      assert (past + [step])[j] == FinishCalled(abort);
    }
    if step == FinishCalled(abort) {
      assert (past + [step])[|past|] == FinishCalled(abort);
    }
  }

  lemma PastMore(past: seq<Step>, step: Step)
    ensures Healthy(past + [step]) <==> Healthy(past) && !Fails(step)
    ensures WritesFine(past + [step]) <==> WritesFine(past) && (step.Write? ==> !Fails(step))
    ensures NotClosed(past + [step]) <==> NotClosed(past) && !step.Close? && !step.Rename?
    ensures Healthy(past) ==> WritesFine(past)
    ensures NotClosed(past) && WritesFine(past) ==> Healthy(past)
    ensures Reported(past + [step]) <==> Reported(past) || step == ReportError
  {
    hide Fails;
    assert (past + [step])[|past|] == step;
    assert forall j :: 0 <= j < |past| ==> (past + [step])[j] == past[j];
    OnlyFileStepsFail();
  }

  lemma OnlyFileStepsFail()
    ensures forall step: Step :: Fails(step) ==> step.Write? || step.Close? || step.Rename?
  {
  }

  lemma StepTracks(s: State, past: seq<Step>, step: Step)
    requires Inv(s) && Tracks(s, past) && Enabled(s, step)
    ensures Tracks(Apply(s, step), past + [step])
  {
    hide Framed, FramedAll, Healthy, WritesFine, NotClosed, Called, Reported;
    CalledMore(past, step, true);
    CalledMore(past, step, false);
    PastMore(past, step);
  }

  lemma {:induction false} RunTracks(states: seq<State>, steps: seq<Step>, k: nat)
    requires Run(states, steps) && k <= |steps|
    ensures Inv(states[k]) && Tracks(states[k], steps[..k])
  {
    hide Inv, Tracks, Enabled, Apply;
    RunKeeps(states, steps, k);
    if k == 0 {
      InitTracks(states[0]);
    } else {
      RunTracks(states, steps, k - 1);
      StepTracks(states[k - 1], steps[..k - 1], steps[k - 1]);
      assert steps[..k] == steps[..k - 1] + [steps[k - 1]];
    }
  }

  lemma InitTracks(s: State)
    requires Init(s)
    ensures Tracks(s, [])
  {
  }

  /** finish answers 0 if and only if the final name exists, if and only if no write, flush, sync, close or rename has
      failed; and then the final name holds the header and every accepted record. */
  lemma FinishOutcome(states: seq<State>, steps: seq<Step>, k: nat)
    requires Run(states, steps) && k <= |steps| && states[k].producer.Finished?
    ensures !states[k].producer.failed <==> states[k].complete == Some(FileOf(states[k].accepted))
    ensures !states[k].producer.failed <==> states[k].complete.Some?
    ensures !states[k].producer.failed <==> Healthy(steps[..k])
    ensures Called(steps[..k], false) && !Called(steps[..k], true)
  {
    hide FileOf;
    RunTracks(states, steps, k);
    if states[k].complete.Some? {
      FinalNameIsComplete(states, steps, k);
    }
  }

  /** The final name appears in no other way: not before finish has answered 0, and never after an abort. */
  lemma FinalNameComesFromFinish(states: seq<State>, steps: seq<Step>, k: nat)
    requires Run(states, steps) && k <= |steps|
    ensures states[k].complete.Some? <==> states[k].producer == Finished(false)
    ensures Called(steps[..k], true) ==> states[k].complete.None? && !states[k].producer.Finished?
  {
    RunTracks(states, steps, k);
  }

  /** A tick at the queue is accepted, behind all the others, if no failure has been reported and one of the 64 slots is
      free; it sleeps if none is; and it is refused from the first report on, even if there is room. */
  lemma EntryExactly(states: seq<State>, steps: seq<Step>, k: nat)
    requires Run(states, steps) && k < |steps| && steps[k] == EnterQueue
    ensures states[k].producer.Entering? && |states[k].ring| <= 64
    ensures var s, next, record := states[k], states[k + 1], states[k].producer.record;
            if Reported(steps[..k]) then next == s.(producer := Running)
            else if |s.ring| == 64 then next == s.(producer := AsleepFull(record))
            else next.accepted == s.accepted + [record] && next.ring == s.ring + [record]
                 && next.producer == Running && !next.writer.AsleepEmpty?
  {
    RunTracks(states, steps, k);
  }

  // ---------------------------------------------------------------- a finish that nothing hinders

  function Stage(p: Producer): nat {
    match p
    case Stopping(_) => 4
    case Joining(_) => 3
    case Closing(_, _) => 2
    case Renaming => 1
    case _ => 0
  }

  /** The next step of a finish under way: the writer's as long as it is joined, all file operations succeeding. */
  function NextStep(s: State): Step {
    match s.producer
    case Stopping(_) => SetStop
    case Joining(_) =>
      if s.writer.Exited? then Join
      else if s.writer.Writing? then Write(true, [])
      else WriterStep(s.writer, false)
    case Closing(_, _) => Close(true, true, true)
    case _ => Rename(true)
  }

  lemma NextStepHelps(s: State, past: seq<Step>)
    requires Inv(s) && Tracks(s, past) && Called(past, false) && Healthy(past) && !s.producer.Finished?
    ensures Enabled(s, NextStep(s)) && !Fails(NextStep(s))
    ensures var next := Apply(s, NextStep(s));
            && next.accepted == s.accepted
            && (Stage(next.producer) < Stage(s.producer)
                || (Stage(next.producer) == Stage(s.producer) && Work(next) < Work(s)))
  {
    hide Framed, FramedAll;
    PastMore(past, SetStop);
  }

  /** Wherever a finish has got to without a failure, it can go on to the final name: steps of the writer and of finish
      whose file operations succeed lead to it, and it holds every record accepted so far. */
  lemma {:induction false} FinishSucceeds(states: seq<State>, steps: seq<Step>)
    returns (states': seq<State>, steps': seq<Step>)
    requires Run(states, steps) && Called(steps, false) && Healthy(steps)
    ensures Run(states', steps') && steps <= steps' && Healthy(steps')
    ensures |states'| == |steps'| + 1 && |states| == |steps| + 1
    ensures states'[|steps'|].producer == Finished(false)
    ensures states'[|steps'|].complete == Some(FileOf(states[|steps|].accepted))
    decreases Stage(states[|steps|].producer), Work(states[|steps|])
  {
    hide Inv, Tracks, Enabled, Apply, Init, FileOf, Called, Healthy, Fails, NextStep;
    var s := states[|steps|];
    assert steps[..|steps|] == steps;
    RunTracks(states, steps, |steps|);
    if s.producer.Finished? {
      states', steps' := states, steps;
      FinishOutcome(states, steps, |steps|);
    } else {
      NextStepHelps(s, steps);
      var step := NextStep(s);
      var longer, more := states + [Apply(s, step)], steps + [step];
      CalledMore(steps, step, false);
      PastMore(steps, step);
      states', steps' := FinishSucceeds(longer, more);
    }
  }
}
