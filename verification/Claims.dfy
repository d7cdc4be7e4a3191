/** Completion calls by any number of threads beside the one that receives: claim, transport, roll back. The
    claim and the roll-back are lock sections of the client's own mutex; the transport runs in between without
    it and may report failure even when the server took the completion. */
module Claims {
  import opened Frames
  import opened PhaseClient

  datatype Call = Call(sequence: U64, phase: nat, failed: bool)

  /** `succeeded` lists the (sequence, phase) pairs for which a call returned 0. It is history. */
  datatype State = State(
    last: Last,
    rate: U64,
    mask: set<nat>,
    calls: map<nat, Call>,   // calls between their claim and their return, by thread
    succeeded: seq<(U64, nat)>)

  datatype Step =
    | Receive(tick: Tick)
    | Claim(thread: nat, sequence: U64, phase: nat)
    | Transport(thread: nat, accepted: bool)
    | RollBack(thread: nat)

  predicate Claimable(s: State, sequence: U64, phase: nat) {
    && PREPARE <= phase <= COMMIT
    && sequence == s.last.sequence && phase == s.last.phase
    && !s.last.completed && phase in s.mask
  }

  predicate Enabled(s: State, step: Step) {
    match step
    case Receive(_) => true
    case Claim(t, _, _) => t !in s.calls
    case Transport(t, _) => t in s.calls && !s.calls[t].failed
    case RollBack(t) => t in s.calls && s.calls[t].failed
  }

  function Apply(s: State, step: Step): State
    requires Enabled(s, step)
  {
    match step
    case Receive(tick) =>
      if Judge(s.last, s.rate, tick) == Accept then s.(last := Accepted(tick)) else s
    case Claim(t, sequence, phase) =>
      if Claimable(s, sequence, phase)
      then s.(last := s.last.(completed := true), calls := s.calls[t := Call(sequence, phase, false)])
      else s
    case Transport(t, accepted) =>
      if accepted
      then s.(calls := s.calls - {t}, succeeded := s.succeeded + [(s.calls[t].sequence, s.calls[t].phase)])
      else s.(calls := s.calls[t := s.calls[t].(failed := true)])
    case RollBack(t) =>
      var rolled := s.(calls := s.calls - {t});
      if s.calls[t].sequence == s.last.sequence && s.calls[t].phase == s.last.phase
      then rolled.(last := s.last.(completed := false))
      else rolled
  }

  ghost predicate Init(s: State) {
    s.last == NOTHING_RECEIVED && s.calls == map[] && s.succeeded == []
  }

  /** Any interleaving of completing threads and one receiver. */
  ghost predicate Interleaving(states: seq<State>, steps: seq<Step>) {
    && |states| == |steps| + 1
    && Init(states[0])
    && forall k :: 0 <= k < |steps| ==> Enabled(states[k], steps[k]) && states[k + 1] == Apply(states[k], steps[k])
  }

  /** A run in which no frame carries the sequence the client keeps for "nothing received". */
  ghost predicate Run(states: seq<State>, steps: seq<Step>) {
    Interleaving(states, steps) && forall k :: 0 <= k < |steps| ==> !SendsSentinel(steps[k])
  }

  predicate SendsSentinel(step: Step) {
    step.Receive? && step.tick.sequence == NONE
  }

  predicate NotAfter(sequence: U64, phase: nat, last: Last) {
    sequence < last.sequence || (sequence == last.sequence && phase <= last.phase)
  }

  predicate ForLast(call: Call, last: Last) {
    call.sequence == last.sequence && call.phase == last.phase
  }

  ghost predicate Inv(s: State) {
    && (s.last.sequence == NONE ==> s.last == NOTHING_RECEIVED && s.calls == map[] && s.succeeded == [])
    && (forall t :: t in s.calls ==> NotAfter(s.calls[t].sequence, s.calls[t].phase, s.last))
    && (forall k :: 0 <= k < |s.succeeded| ==> NotAfter(s.succeeded[k].0, s.succeeded[k].1, s.last))
    // no frame has two calls that were let past the claim, or one after a success
    && (forall t, u :: t in s.calls && u in s.calls && t != u ==>
          s.calls[t].sequence != s.calls[u].sequence || s.calls[t].phase != s.calls[u].phase)
    && (forall t, k :: t in s.calls && 0 <= k < |s.succeeded| ==>
          s.succeeded[k] != (s.calls[t].sequence, s.calls[t].phase))
    && (forall j, k :: 0 <= j < k < |s.succeeded| ==> s.succeeded[j] != s.succeeded[k])
    // an unclaimed last frame has neither
    && (!s.last.completed ==>
          && (forall t :: t in s.calls ==> !ForLast(s.calls[t], s.last))
          && (forall k :: 0 <= k < |s.succeeded| ==> s.succeeded[k] != (s.last.sequence, s.last.phase)))
  }

  lemma ReceiveKeeps(s: State, step: Step)
    requires Inv(s) && Enabled(s, step) && !SendsSentinel(step) && step.Receive?
    ensures Inv(Apply(s, step))
  {
  }

  lemma ClaimKeeps(s: State, step: Step)
    requires Inv(s) && Enabled(s, step) && step.Claim?
    ensures Inv(Apply(s, step))
  {
  }

  lemma TransportKeeps(s: State, step: Step)
    requires Inv(s) && Enabled(s, step) && step.Transport?
    ensures Inv(Apply(s, step))
  {
  }

  lemma RollBackKeeps(s: State, step: Step)
    requires Inv(s) && Enabled(s, step) && step.RollBack?
    ensures Inv(Apply(s, step))
  {
  }

  lemma StepKeeps(s: State, step: Step)
    requires Inv(s) && Enabled(s, step) && !SendsSentinel(step)
    ensures Inv(Apply(s, step))
  {
    hide Inv, Apply;
    match step
    case Receive(_) => ReceiveKeeps(s, step);
    case Claim(_, _, _) => ClaimKeeps(s, step);
    case Transport(_, _) => TransportKeeps(s, step);
    case RollBack(_) => RollBackKeeps(s, step);
  }

  lemma {:induction false} RunKeeps(states: seq<State>, steps: seq<Step>, k: nat)
    requires Run(states, steps) && k <= |steps|
    ensures Inv(states[k])
  {
    if k > 0 {
      RunKeeps(states, steps, k - 1);
      StepKeeps(states[k - 1], steps[k - 1]);
    }
  }

  /** At most one completion call per (sequence, phase) returns 0. */
  lemma AtMostOneSuccess(states: seq<State>, steps: seq<Step>, n: nat, j: nat, k: nat)
    requires Run(states, steps) && n <= |steps|
    requires j < k < |states[n].succeeded|
    ensures states[n].succeeded[j] != states[n].succeeded[k]
  {
    RunKeeps(states, steps, n);
  }

  /** A roll-back gives back the caller's own claim or nothing: a claim of a newer frame survives it, no other call
      for the rolled-back frame is under way or has succeeded, and the frame can be claimed again unless a newer
      one has arrived. */
  lemma RollBackIsOwn(states: seq<State>, steps: seq<Step>, n: nat, t: nat)
    requires Run(states, steps) && n <= |steps| && Enabled(states[n], RollBack(t))
    ensures var before, after := states[n], Apply(states[n], RollBack(t));
            && (!ForLast(before.calls[t], before.last) ==> after.last == before.last)
            && (forall u :: u in after.calls ==>
                  (after.calls[u].sequence, after.calls[u].phase) != (before.calls[t].sequence, before.calls[t].phase))
            && (before.calls[t].sequence, before.calls[t].phase) !in after.succeeded
            && (PREPARE <= before.calls[t].phase <= COMMIT && before.calls[t].phase in before.mask ==>
                  (Claimable(after, before.calls[t].sequence, before.calls[t].phase)
                   <==> ForLast(before.calls[t], before.last)))
  {
    RunKeeps(states, steps, n);
  }

  ghost predicate SendsOnly(steps: seq<Step>, allowed: iset<U64>) {
    forall k :: 0 <= k < |steps| ==> steps[k].Receive? ==> steps[k].tick.sequence in allowed
  }

  predicate NoRepeats(succeeded: seq<(U64, nat)>) {
    forall j, k :: 0 <= j < k < |succeeded| ==> succeeded[j] != succeeded[k]
  }

  /** A client that takes part in some phase completes every frame at most once, in all runs over frames of these
      sequences, if and only if 2^64-1 is not one of them. */
  lemma AtMostOnceExactly(mask: set<nat>, rate: U64, allowed: iset<U64>)
    requires mask * ALL_PHASES != {}
    ensures NONE !in allowed <==>
            forall states: seq<State>, steps: seq<Step> ::
              Interleaving(states, steps) && states[0].mask == mask && states[0].rate == rate
              && SendsOnly(steps, allowed) ==>
                NoRepeats(states[|steps|].succeeded)
  {
    hide Init, Apply, Enabled;
    if NONE in allowed {
      var states, steps := TwiceInARun(mask, rate, allowed);
      assert states[|steps|].succeeded[0] == states[|steps|].succeeded[1];
    } else {
      forall states: seq<State>, steps: seq<Step> | Interleaving(states, steps) && SendsOnly(steps, allowed)
        ensures NoRepeats(states[|steps|].succeeded)
      {
        NoSentinel(states, steps, allowed);
        forall j, k | 0 <= j < k < |states[|steps|].succeeded|
          ensures states[|steps|].succeeded[j] != states[|steps|].succeeded[k]
        {
          AtMostOneSuccess(states, steps, |steps|, j, k);
        }
      }
    }
  }

  lemma NoSentinel(states: seq<State>, steps: seq<Step>, allowed: iset<U64>)
    requires Interleaving(states, steps) && SendsOnly(steps, allowed) && NONE !in allowed
    ensures Run(states, steps)
  {
    hide Interleaving;
  }

  lemma TwiceInARun(mask: set<nat>, rate: U64, allowed: iset<U64>) returns (states: seq<State>, steps: seq<Step>)
    requires mask * ALL_PHASES != {} && NONE in allowed
    ensures Interleaving(states, steps) && states[0].mask == mask && states[0].rate == rate && SendsOnly(steps, allowed)
    ensures |states[|steps|].succeeded| == 2 && states[|steps|].succeeded[0] == states[|steps|].succeeded[1]
  {
    var phase :| phase in mask && phase in ALL_PHASES;
    var tick := Tick(MAGIC, VERSION, phase, NONE, 0);
    var s0 := State(NOTHING_RECEIVED, rate, mask, map[], []);
    var once := [Receive(tick), Claim(0, NONE, phase), Transport(0, true)];
    steps := once + once;
    var s6 := SentinelFrameCompletesTwice(s0, phase);
    var s1 := Apply(s0, steps[0]);
    var s2 := Apply(s1, steps[1]);
    var s3 := Apply(s2, steps[2]);
    var s4 := Apply(s3, steps[3]);
    var s5 := Apply(s4, steps[4]);
    states := [s0, s1, s2, s3, s4, s5, s6];
  }

  /** Without the sentinel condition it is false: sequence 2^64-1 can be delivered and completed twice. */
  lemma SentinelFrameCompletesTwice(s0: State, phase: nat) returns (s6: State)
    requires Init(s0) && PREPARE <= phase <= COMMIT && phase in s0.mask
    ensures var tick := Tick(MAGIC, VERSION, phase, NONE, 0);
            && s6 == Apply(Apply(Apply(Apply(Apply(Apply(s0, Receive(tick)), Claim(0, NONE, phase)),
                                                   Transport(0, true)), Receive(tick)), Claim(0, NONE, phase)),
                           Transport(0, true))
            && s6.succeeded == [(NONE, phase), (NONE, phase)]
  {
    var tick := Tick(MAGIC, VERSION, phase, NONE, 0);
    var s1 := Apply(s0, Receive(tick));
    assert s1.last == Last(NONE, 0, phase, false);
    var s2 := Apply(s1, Claim(0, NONE, phase));
    assert s2.calls == map[0 := Call(NONE, phase, false)];
    var s3 := Apply(s2, Transport(0, true));
    assert s3.calls == map[] && s3.succeeded == [(NONE, phase)];
    var s4 := Apply(s3, Receive(tick));
    assert s4.last == s1.last;
    var s5 := Apply(s4, Claim(0, NONE, phase));
    s6 := Apply(s5, Transport(0, true));
  }

  // ---------------------------------------------------------------- one client object

  /** What one thread does with a client: a frame arrives, or a completion is called and the transport answers. */
  datatype Move = Arrives(tick: Tick) | Completes(sequence: U64, phase: nat, transport: int)

  /** The last frame of an object after these calls, and the frames it has answered 0 for. */
  function Session(rate: U64, mask: set<nat>, moves: seq<Move>): (Last, seq<(U64, nat)>)
    decreases |moves|
  {
    if moves == [] then (NOTHING_RECEIVED, [])
    else
      var (last, succeeded) := Session(rate, mask, moves[..|moves| - 1]);
      match moves[|moves| - 1]
      case Arrives(tick) => (if Judge(last, rate, tick) == Accept then Accepted(tick) else last, succeeded)
      case Completes(sequence, phase, transport) =>
        var (status, next) := Completing(last, mask, true, sequence, phase, transport);
        (next, if status == 0 then succeeded + [(sequence, phase)] else succeeded)
  }

  /** A completion call takes a claim step, and behind a successful one a transport and at need a roll-back step. */
  lemma CallIsSteps(s: State, sequence: U64, phase: nat, transport: int)
    requires s.calls == map[]
    ensures var (status, last) := Completing(s.last, s.mask, true, sequence, phase, transport);
            var claimed := Apply(s, Claim(0, sequence, phase));
            if !Claimable(s, sequence, phase) then
              claimed == s && status == -1 && last == s.last
            else if transport == 0 then
              && Enabled(claimed, Transport(0, true)) && status == 0
              && Apply(claimed, Transport(0, true))
                 == s.(last := last, succeeded := s.succeeded + [(sequence, phase)])
            else
              && Enabled(claimed, Transport(0, false)) && status == transport && last == s.last
              && Enabled(Apply(claimed, Transport(0, false)), RollBack(0))
              && Apply(Apply(claimed, Transport(0, false)), RollBack(0)) == s
  {
    if Claimable(s, sequence, phase) {
      var claimed := Apply(s, Claim(0, sequence, phase));
      assert claimed.calls == map[0 := Call(sequence, phase, false)];
      assert claimed.calls - {0} == map[];
      if transport != 0 {
        var failed := Apply(claimed, Transport(0, false));
        assert failed.calls == map[0 := Call(sequence, phase, true)];
        assert failed.calls - {0} == map[];
      }
    }
  }

  lemma OneMoreStep(states: seq<State>, steps: seq<Step>, step: Step)
    returns (states': seq<State>, steps': seq<Step>)
    requires Interleaving(states, steps) && Enabled(states[|steps|], step)
    ensures |states'| == |steps'| + 1
    ensures Interleaving(states', steps') && steps' == steps + [step] && states'[0] == states[0]
    ensures states'[|steps'|] == Apply(states[|steps|], step)
  {
    hide Init, Enabled, Apply;
    states', steps' := states + [Apply(states[|steps|], step)], steps + [step];
  }

  ghost predicate MovesOnly(moves: seq<Move>, allowed: iset<U64>) {
    forall k :: 0 <= k < |moves| ==> moves[k].Arrives? ==> moves[k].tick.sequence in allowed
  }

  /** Whatever one thread calls is a run of these steps. */
  lemma {:induction false} SessionIsRun(rate: U64, mask: set<nat>, moves: seq<Move>, allowed: iset<U64>)
    returns (states: seq<State>, steps: seq<Step>)
    requires MovesOnly(moves, allowed)
    ensures |states| == |steps| + 1
    ensures Interleaving(states, steps) && states[0].mask == mask && states[0].rate == rate && SendsOnly(steps, allowed)
    ensures states[|steps|]
            == State(Session(rate, mask, moves).0, rate, mask, map[], Session(rate, mask, moves).1)
    decreases |moves|
  {
    hide Judge, Completing, Interleaving;
    if moves == [] {
      states, steps := [State(NOTHING_RECEIVED, rate, mask, map[], [])], [];
      NoSteps(states[0]);
    } else {
      var move := moves[|moves| - 1];
      states, steps := SessionIsRun(rate, mask, moves[..|moves| - 1], allowed);
      var s := states[|steps|];
      match move {
        case Arrives(tick) =>
          states, steps := OneMoreStep(states, steps, Receive(tick));
        case Completes(sequence, phase, transport) =>
          CallIsSteps(s, sequence, phase, transport);
          var claims := Claimable(s, sequence, phase);
          states, steps := OneMoreStep(states, steps, Claim(0, sequence, phase));
          if claims {
            states, steps := OneMoreStep(states, steps, Transport(0, transport == 0));
            if transport != 0 {
              states, steps := OneMoreStep(states, steps, RollBack(0));
            }
          }
      }
    }
  }

  lemma NoSteps(s: State)
    requires Init(s)
    ensures Interleaving([s], [])
  {
  }

  /** Over frames of any given sequences and any calls, one object answers 0 at most once for every frame, if and only if
      2^64-1 is not among the sequences. */
  lemma AnsweredAtMostOnceExactly(rate: U64, mask: set<nat>, allowed: iset<U64>)
    requires mask * ALL_PHASES != {}
    ensures NONE !in allowed <==>
            forall moves: seq<Move> :: MovesOnly(moves, allowed) ==> NoRepeats(Session(rate, mask, moves).1)
  {
    hide Interleaving, Session;
    if NONE in allowed {
      var moves := AnsweredTwice(rate, mask, allowed);
      assert Session(rate, mask, moves).1[0] == Session(rate, mask, moves).1[1];
    } else {
      forall moves: seq<Move> | MovesOnly(moves, allowed)
        ensures NoRepeats(Session(rate, mask, moves).1)
      {
        var states, steps := SessionIsRun(rate, mask, moves, allowed);
        AtMostOnceExactly(mask, rate, allowed);
      }
    }
  }

  lemma AnsweredTwice(rate: U64, mask: set<nat>, allowed: iset<U64>) returns (moves: seq<Move>)
    requires mask * ALL_PHASES != {} && NONE in allowed
    ensures MovesOnly(moves, allowed) && |Session(rate, mask, moves).1| == 2
    ensures Session(rate, mask, moves).1[0] == Session(rate, mask, moves).1[1]
  {
    var phase :| phase in mask && phase in ALL_PHASES;
    var tick := Tick(MAGIC, VERSION, phase, NONE, 0);
    var one := [Arrives(tick)];
    var two := one + [Completes(NONE, phase, 0)];
    var three := two + [Arrives(tick)];
    moves := three + [Completes(NONE, phase, 0)];
    var unclaimed, claimed := Last(NONE, 0, phase, false), Last(NONE, 0, phase, true);
    assert Completing(unclaimed, mask, true, NONE, phase, 0) == (0, claimed);
    SessionOneMore(rate, mask, [], Arrives(tick));
    assert [] + [Arrives(tick)] == one;
    SessionOneMore(rate, mask, one, Completes(NONE, phase, 0));
    SessionOneMore(rate, mask, two, Arrives(tick));
    SessionOneMore(rate, mask, three, Completes(NONE, phase, 0));
  }

  lemma SessionOneMore(rate: U64, mask: set<nat>, moves: seq<Move>, move: Move)
    ensures var (last, succeeded) := Session(rate, mask, moves);
            Session(rate, mask, moves + [move])
            == match move
               case Arrives(tick) => (if Judge(last, rate, tick) == Accept then Accepted(tick) else last, succeeded)
               case Completes(sequence, phase, transport) =>
                 var (status, next) := Completing(last, mask, true, sequence, phase, transport);
                 (next, if status == 0 then succeeded + [(sequence, phase)] else succeeded)
  {
    hide Judge, Completing;
    assert (moves + [move])[..|moves|] == moves;
  }

  /** Once a frame is completed, and until another one is accepted, every further call for it is refused, whatever the
      transport would say. */
  lemma RefusedOnceCompleted(rate: U64, mask: set<nat>, moves: seq<Move>, sequence: U64, phase: nat, transport: int)
    requires Session(rate, mask, moves).0.completed
    ensures Completing(Session(rate, mask, moves).0, mask, true, sequence, phase, transport)
            == (-1, Session(rate, mask, moves).0)
    ensures Session(rate, mask, moves + [Completes(sequence, phase, transport)]) == Session(rate, mask, moves)
  {
    SessionOneMore(rate, mask, moves, Completes(sequence, phase, transport));
  }
}
