/** The client's frame acceptance and completion calls. */
module PhaseClient {
  import opened Frames

  const MAGIC: nat := 0x53484D54
  const VERSION: nat := 1

  /** The value of last_received_sequence that stands for "no frame yet". */
  const NONE: U64 := WORD64 - 1

  datatype Tick = Tick(magic: nat, version: nat, phase: nat, sequence: U64, time: U64)

  /** The last accepted frame and whether its completion has been claimed. */
  datatype Last = Last(sequence: U64, time: U64, phase: nat, completed: bool)

  const NOTHING_RECEIVED := Last(NONE, 0, 0, false)

  datatype Verdict = Accept | Stopped | Reject

  predicate WellFormed(tick: Tick) {
    tick.magic == MAGIC && tick.version == VERSION && PREPARE <= tick.phase <= STOP
  }

  /** The tests of simulith_client_receive_phase, in its order. */
  function Judge(last: Last, rate: U64, tick: Tick): Verdict {
    if !WellFormed(tick) then Reject
    else if tick.phase == STOP then Stopped
    else if last.sequence != NONE
            && (tick.sequence < last.sequence || (tick.sequence == last.sequence && tick.phase <= last.phase)) then
      Reject
    else if last.sequence != NONE
            && ((tick.sequence == last.sequence && tick.time != last.time)
                || (tick.sequence > last.sequence
                    && (tick.sequence != (last.sequence + 1) % WORD64
                        || tick.time <= last.time
                        || tick.time - last.time != rate))) then
      Reject
    else Accept
  }

  function Accepted(tick: Tick): Last {
    Last(tick.sequence, tick.time, tick.phase, false)
  }

  /** The frame a lockstep server may send after `last`: a later phase of the same tick, or some phase of the
      next tick, one interval later. */
  ghost predicate Follows(last: Last, rate: U64, tick: Tick) {
    || (tick.sequence == last.sequence && tick.time == last.time && tick.phase > last.phase)
    || (tick.sequence == last.sequence + 1 && tick.time == last.time + rate && rate > 0)
  }

  /** Acceptance is sound and complete, except that a frame of sequence 2^64-1 makes the client forget. */
  lemma AcceptsExactlyFollowers(last: Last, rate: U64, tick: Tick)
    requires WellFormed(tick) && tick.phase != STOP
    ensures last.sequence != NONE ==> (Judge(last, rate, tick) == Accept <==> Follows(last, rate, tick))
    ensures last.sequence == NONE ==> Judge(last, rate, tick) == Accept
  {
  }

  /** A frame the client takes for the word of its server: the four letters "SHMT" and version 1. */
  predicate Signed(tick: Tick) {
    tick.magic == 0x53484D54 && tick.version == 1
  }

  predicate IsStop(tick: Tick) {
    Signed(tick) && tick.phase == 4
  }

  /** What becomes of a frame, read off its fields: STOP stops, whatever came before; a phase is accepted if it follows
      or is the first; everything else is rejected. */
  lemma JudgedByItsFields(last: Last, rate: U64, tick: Tick)
    ensures Judge(last, rate, tick) == Stopped <==> IsStop(tick)
    ensures Judge(last, rate, tick) == Accept <==>
              Signed(tick) && 1 <= tick.phase <= 3
              && (last.sequence == 0xFFFF_FFFF_FFFF_FFFF || Follows(last, rate, tick))
  {
  }

  ghost predicate Later(last: Last, tick: Tick) {
    tick.sequence > last.sequence || (tick.sequence == last.sequence && tick.phase > last.phase)
  }

  /** After an accepted frame, every frame the client goes on to accept is later than it if and only if that
      frame's sequence was not 2^64-1. */
  lemma AcceptedFramesIncreaseIff(last: Last, rate: U64)
    ensures (forall tick: Tick :: Judge(last, rate, tick) == Accept ==> Later(last, tick)) <==> last.sequence != NONE
  {
    if last.sequence == NONE {
      var again := Tick(MAGIC, VERSION, PREPARE, 0, 0);
      assert Judge(last, rate, again) == Accept && !Later(last, again);
    }
  }

  // ---------------------------------------------------------------- runs of frames

  /** The accepted frames of a stream, in order. A rejected frame and a STOP leave the state as it was. */
  function AcceptedOf(last: Last, rate: U64, ticks: seq<Tick>): seq<Tick>
    decreases |ticks|
  {
    if ticks == [] then []
    else if Judge(last, rate, ticks[0]) == Accept then
      [ticks[0]] + AcceptedOf(Accepted(ticks[0]), rate, ticks[1..])
    else AcceptedOf(last, rate, ticks[1..])
  }

  /** As long as no frame of sequence 2^64-1 is sent, whatever else a server sends, the accepted frames strictly
      increase in (sequence, phase) and their times advance by the rate per sequence. */
  lemma {:induction false} AcceptedRunIsLockstep(last: Last, rate: U64, ticks: seq<Tick>, j: nat, k: nat)
    requires forall n :: 0 <= n < |ticks| ==> ticks[n].sequence != NONE
    requires j < k < |AcceptedOf(last, rate, ticks)|
    ensures var a, b := AcceptedOf(last, rate, ticks)[j], AcceptedOf(last, rate, ticks)[k];
            Later(Accepted(a), b) && b.time == a.time + (b.sequence - a.sequence) * rate
    decreases |ticks|
  {
    if Judge(last, rate, ticks[0]) != Accept {
      AcceptedRunIsLockstep(last, rate, ticks[1..], j, k);
    } else {
      var rest := AcceptedOf(Accepted(ticks[0]), rate, ticks[1..]);
      if j > 0 {
        AcceptedRunIsLockstep(Accepted(ticks[0]), rate, ticks[1..], j - 1, k - 1);
      } else {
        AcceptedFollow(Accepted(ticks[0]), rate, ticks[1..], k - 1);
      }
    }
  }

  lemma {:induction false} AcceptedFollow(last: Last, rate: U64, ticks: seq<Tick>, k: nat)
    requires last.sequence != NONE && forall n :: 0 <= n < |ticks| ==> ticks[n].sequence != NONE
    requires k < |AcceptedOf(last, rate, ticks)|
    ensures var b := AcceptedOf(last, rate, ticks)[k];
            Later(last, b) && b.time == last.time + (b.sequence - last.sequence) * rate
    decreases |ticks|
  {
    var first := ticks[0];
    if Judge(last, rate, first) != Accept {
      AcceptedFollow(last, rate, ticks[1..], k);
    } else {
      AcceptsExactlyFollowers(last, rate, first);
      if k > 0 {
        AcceptedFollow(Accepted(first), rate, ticks[1..], k - 1);
        var b := AcceptedOf(last, rate, ticks)[k];
        assert b == AcceptedOf(Accepted(first), rate, ticks[1..])[k - 1];
        Distribute(first.sequence - last.sequence, b.sequence - first.sequence, rate);
      }
    }
  }

  lemma Distribute(a: int, b: int, c: int)
    ensures (a + b) * c == a * c + b * c
  {
  }

  // ---------------------------------------------------------------- completing a frame

  /** The answer to a completion call and the last frame behind it. */
  function Completing(last: Last, mask: set<nat>, open: bool, sequence: U64, phase: nat, transport: int): (int, Last) {
    if !(PREPARE <= phase <= COMMIT) || !open || sequence != last.sequence || phase != last.phase
       || last.completed || phase !in mask
    then (-1, last)
    else (transport, last.(completed := transport == 0))
  }

  /** A call is answered 0 exactly if the frame is the last one, of an own phase, not claimed so far, and the transport
      takes it. */
  lemma CompletedExactly(last: Last, mask: set<nat>, sequence: U64, phase: nat, transport: int)
    ensures Completing(last, mask, true, sequence, phase, transport).0 == 0 <==>
              && !last.completed && last.sequence == sequence && last.phase == phase
              && 1 <= phase <= 3 && phase in mask && transport == 0
    ensures Completing(last, mask, false, sequence, phase, transport).0 == -1
  {
  }

  // ---------------------------------------------------------------- the client object

  class Client {
    var last: Last
    var rate: U64
    var mask: set<nat>
    var open: bool          // a requester socket or the shared barrier is there
    var stopRequested: bool

    constructor (rate: U64, mask: set<nat>)
      requires rate > 0
      ensures last == NOTHING_RECEIVED && this.rate == rate && this.mask == mask && open && !stopRequested
    {
      last := NOTHING_RECEIVED;
      this.rate, this.mask := rate, mask;
      open, stopRequested := true, false;
    }

    /** simulith_client_receive_phase once a tick has arrived: 0 accepted, 1 stop, -1 rejected. */
    method ReceivePhase(tick: Tick) returns (status: int)
      modifies this`last, this`stopRequested
      ensures status == 1 <==> IsStop(tick)
      ensures status == 0 <==>
                Signed(tick) && 1 <= tick.phase <= 3
                && (old(last).sequence == 0xFFFF_FFFF_FFFF_FFFF || Follows(old(last), rate, tick))
      ensures status in {0, 1, -1}
      ensures last == if status == 0 then Last(tick.sequence, tick.time, tick.phase, false) else old(last)
      ensures stopRequested == (old(stopRequested) || status == 1)
    {
      if tick.magic != MAGIC || tick.version != VERSION || tick.phase < PREPARE || tick.phase > STOP {
        return -1;
      }
      if tick.phase == STOP {
        stopRequested := true;
        return 1;
      }
      if last.sequence != NONE
         && (tick.sequence < last.sequence || (tick.sequence == last.sequence && tick.phase <= last.phase)) {
        return -1;
      }
      if last.sequence != NONE {
        if tick.sequence == last.sequence && tick.time != last.time {
          return -1;
        }
        if tick.sequence > last.sequence {
          if tick.sequence != (last.sequence + 1) % WORD64 || tick.time <= last.time
             || tick.time - last.time != rate {
            return -1;
          }
        }
      }
      last := Last(tick.sequence, tick.time, tick.phase, false);
      return 0;
    }

    /** simulith_client_complete_tick run to its end by one thread; `transport` is what the barrier or the server
        answered. A failed answer gives the claim back. */
    method CompleteTick(sequence: U64, phase: nat, transport: int) returns (status: int)
      modifies this`last
      ensures (status, last) == Completing(old(last), mask, open, sequence, phase, transport)
      ensures old(last).completed ==> status == -1
      ensures status == 0 ==>
                !old(last).completed && sequence == last.sequence && phase == last.phase && last.completed
      ensures last == if status == 0 then old(last).(completed := true) else old(last)
    {
      if phase < PREPARE || phase > COMMIT || !open || sequence != last.sequence || phase != last.phase
         || last.completed || phase !in mask {
        return -1;
      }
      last := last.(completed := true);
      if transport != 0 {
        if sequence == last.sequence && phase == last.phase {
          last := last.(completed := false);
        }
      }
      return transport;
    }

    /** simulith_client_run_phased_loop over the events of a run, until they are used up. */
    method RunPhasedLoop(events: seq<Event>) returns (status: int, completed: seq<Tick>)
      modifies this`last, this`stopRequested
      ensures (status, completed) == Loop(old(last), rate, mask, open, old(stopRequested), events)
      ensures status == 0 && (exists n :: 0 <= n < |events| && IsStop(events[n].tick)) ==> stopRequested
    {
      completed := [];
      ghost var result := Loop(last, rate, mask, open, stopRequested, events);
      assert events[0..] == events && [] + result.1 == result.1;
      var n := 0;
      while !stopRequested && n < |events|
        invariant n <= |events|
        invariant result.0 == Loop(last, rate, mask, open, stopRequested, events[n..]).0
        invariant result.1 == completed + Loop(last, rate, mask, open, stopRequested, events[n..]).1
        invariant stopRequested || forall k :: 0 <= k < n ==> !IsStop(events[k].tick)
      {
        var event := events[n];
        ghost var rest := Loop(last, rate, mask, open, false, events[n..]).1;
        assert events[n..][0] == event && events[n..][1..] == events[n + 1..];
        n := n + 1;
        JudgedByItsFields(last, rate, event.tick);
        var received := ReceivePhase(event.tick);
        if received == 0 {
          assert completed + [] == completed;
          if !event.callbackSucceeds {
            return -1, completed;
          }
          var sent := CompleteTick(event.tick.sequence, event.tick.phase, event.transport);
          if sent != 0 {
            return -1, completed;
          }
          completed := completed + [event.tick];
          assert rest == [event.tick] + rest[1..];
        }
      }
      assert completed + [] == completed;
      assert stopRequested || events[n..] == [];
      return 0, completed;
    }
  }

  // ---------------------------------------------------------------- the phased loop

  /** One turn of the loop: the frame that arrives, and what the callback and the transport would answer. */
  datatype Event = Event(tick: Tick, callbackSucceeds: bool, transport: int)

  /** The status and the completed frames of the loop. */
  function Loop(last: Last, rate: U64, mask: set<nat>, open: bool, stopped: bool, events: seq<Event>)
    : (result: (int, seq<Tick>))
    decreases |events|
  {
    if stopped || events == [] then (0, [])
    else
      var event := events[0];
      match Judge(last, rate, event.tick)
      case Reject => Loop(last, rate, mask, open, false, events[1..])
      case Stopped => (0, [])
      case Accept =>
        if event.callbackSucceeds && open && event.tick.phase in mask && event.transport == 0 then
          var rest := Loop(Accepted(event.tick).(completed := true), rate, mask, open, false, events[1..]);
          (rest.0, [event.tick] + rest.1)
        else (-1, [])
  }

  /** The turns the loop gets to accept before a STOP, were nothing to fail. */
  function AcceptedTurns(last: Last, rate: U64, events: seq<Event>): seq<Event>
    decreases |events|
  {
    if events == [] then []
    else
      match Judge(last, rate, events[0].tick)
      case Reject => AcceptedTurns(last, rate, events[1..])
      case Stopped => []
      case Accept => [events[0]] + AcceptedTurns(Accepted(events[0].tick), rate, events[1..])
  }

  predicate TurnSucceeds(mask: set<nat>, open: bool, event: Event) {
    event.callbackSucceeds && open && event.tick.phase in mask && event.transport == 0
  }

  /** Judging looks at the last frame, not at whether it was completed. */
  lemma {:induction false} TurnsIgnoreCompletion(last: Last, rate: U64, events: seq<Event>)
    ensures AcceptedTurns(last.(completed := true), rate, events) == AcceptedTurns(last, rate, events)
    decreases |events|
  {
    if events != [] {
      TurnsIgnoreCompletion(last, rate, events[1..]);
    }
  }

  /** The loop completes the accepted frames up to the first turn that fails and fails exactly when there is such
      a turn: a callback that failed, a transport that failed, or a phase outside the client's mask. */
  lemma {:induction false} LoopCompletesUntilFailure(last: Last, rate: U64, mask: set<nat>, open: bool,
                                                     events: seq<Event>)
    ensures var turns, result := AcceptedTurns(last, rate, events), Loop(last, rate, mask, open, false, events);
            && |result.1| <= |turns|
            && (forall n :: 0 <= n < |result.1| ==> result.1[n] == turns[n].tick && TurnSucceeds(mask, open, turns[n]))
            && (result.0 == 0 ==> |result.1| == |turns|)
            && (result.0 != 0 ==> result.0 == -1 && |result.1| < |turns|
                                  && !TurnSucceeds(mask, open, turns[|result.1|]))
    decreases |events|
  {
    if events != [] {
      var event := events[0];
      match Judge(last, rate, event.tick) {
        case Reject => LoopCompletesUntilFailure(last, rate, mask, open, events[1..]);
        case Stopped =>
        case Accept =>
          LoopCompletesUntilFailure(Accepted(event.tick).(completed := true), rate, mask, open, events[1..]);
          TurnsIgnoreCompletion(Accepted(event.tick), rate, events[1..]);
      }
    }
  }

  /** The first STOP frame the loop gets to ends it: it goes on as if the stream ended there, so what it completes and
      answers comes from the frames before, and with none of them failing the answer is 0. */
  lemma {:induction false} LoopEndsAtStop(last: Last, rate: U64, mask: set<nat>, open: bool, events: seq<Event>, n: nat)
    requires n < |events| && IsStop(events[n].tick)
    ensures Loop(last, rate, mask, open, false, events) == Loop(last, rate, mask, open, false, events[..n])
    ensures AcceptedTurns(last, rate, events) == AcceptedTurns(last, rate, events[..n])
    decreases n
  {
    hide Judge;
    JudgedByItsFields(last, rate, events[0].tick);
    if n > 0 {
      var event := events[0];
      assert events[..n][0] == event && events[..n][1..] == events[1..][..n - 1];
      assert events[1..][n - 1] == events[n];
      LoopEndsAtStop(last, rate, mask, open, events[1..], n - 1);
      LoopEndsAtStop(Accepted(event.tick), rate, mask, open, events[1..], n - 1);
      LoopEndsAtStop(Accepted(event.tick).(completed := true), rate, mask, open, events[1..], n - 1);
    }
  }
}
