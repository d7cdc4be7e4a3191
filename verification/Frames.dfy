/** The phase frames a lockstep server publishes, and the machine words they travel in. */
module Frames {

  const WORD64: nat := 0x1_0000_0000_0000_0000
  const WORD32: nat := 0x1_0000_0000

  type U64 = x: nat | x < WORD64
  type U32 = x: nat | x < WORD32

  const PREPARE: nat := 1
  const EXECUTE: nat := 2
  const COMMIT: nat := 3
  const STOP: nat := 4

  const ALL_PHASES: set<nat> := {PREPARE, EXECUTE, COMMIT}

  /** What one publication carries. */
  datatype Frame = Frame(sequence: nat, time: nat, phase: nat)

  /** The registered clients' phase masks by slot, and the tick interval. They are fixed before the first
      publication, because the server starts its loop only after every expected client is READY. */
  datatype Config = Config(masks: seq<set<nat>>, interval: U64)

  /** The server rejects an empty mask, a mask with an unknown bit, and more than 32 clients. */
  ghost predicate ValidConfig(cfg: Config) {
    && 1 <= |cfg.masks| <= 32
    && forall i :: 0 <= i < |cfg.masks| ==> cfg.masks[i] != {} && cfg.masks[i] <= ALL_PHASES
  }

  function PhaseAt(k: nat): nat
    requires k > 0
  {
    1 + (k - 1) % 3
  }

  function TickAt(k: nat): nat
    requires k > 0
  {
    (k - 1) / 3
  }

  /** The k-th publication (counting from 1): three phases a tick, then the next sequence and time. */
  function FrameAt(cfg: Config, k: nat): Frame
    requires k > 0
  {
    Frame(TickAt(k), TickAt(k) * cfg.interval, PhaseAt(k))
  }

  /** The publications count on: sequence 0 at time 0 first, PREPARE, EXECUTE, COMMIT within a tick, and then the next
      sequence one interval later. */
  lemma FramesCountOn(cfg: Config, k: nat)
    requires k > 0
    ensures FrameAt(cfg, 1) == Frame(0, 0, 1)
    ensures var now := FrameAt(cfg, k);
            FrameAt(cfg, k + 1) == if now.phase < 3 then now.(phase := now.phase + 1)
                                   else Frame(now.sequence + 1, now.time + cfg.interval, 1)
  {
    if PhaseAt(k) == 3 {
      assert TickAt(k + 1) == TickAt(k) + 1;
      assert (TickAt(k) + 1) * cfg.interval == TickAt(k) * cfg.interval + cfg.interval;
    } else {
      assert TickAt(k + 1) == TickAt(k) && PhaseAt(k + 1) == PhaseAt(k) + 1;
    }
  }

  ghost predicate Owns(cfg: Config, i: nat, k: nat)
    requires k > 0
  {
    i < |cfg.masks| && PhaseAt(k) in cfg.masks[i]
  }

  /** The slots whose mask holds the phase of the k-th publication. */
  ghost function ParticipantsAt(cfg: Config, k: nat): set<nat>
    requires k > 0
  {
    set i: nat | i < |cfg.masks| && PhaseAt(k) in cfg.masks[i]
  }

  /** Sequence and time of the k-th publication fit their 64-bit fields, and the sequence is not the all-ones
      value a client keeps for "nothing received yet". */
  ghost predicate Representable(cfg: Config, k: nat)
    requires k > 0
  {
    TickAt(k) < WORD64 - 1 && TickAt(k) * cfg.interval < WORD64
  }

  lemma FramesAreDistinct(cfg: Config, j: nat, k: nat)
    requires 0 < j && 0 < k
    requires FrameAt(cfg, j).sequence == FrameAt(cfg, k).sequence
    requires FrameAt(cfg, j).phase == FrameAt(cfg, k).phase
    ensures j == k
  {
    assert j - 1 == 3 * TickAt(j) + (PhaseAt(j) - 1);
    assert k - 1 == 3 * TickAt(k) + (PhaseAt(k) - 1);
  }

  /** Every client with a valid mask owns one of any three consecutive publications. */
  lemma OwnsOneOfThree(cfg: Config, i: nat, k: nat) returns (owned: nat)
    requires ValidConfig(cfg) && i < |cfg.masks| && k > 0
    ensures k <= owned < k + 3 && Owns(cfg, i, owned)
  {
    var phase :| phase in cfg.masks[i];
    assert phase in ALL_PHASES;
    if PhaseAt(k) == phase {
      owned := k;
    } else if PhaseAt(k + 1) == phase {
      owned := k + 1;
    } else {
      owned := k + 2;
      assert PhaseAt(k + 2) == phase;
    }
  }

  lemma EarlierIsRepresentable(cfg: Config, j: nat, k: nat)
    requires 1 <= j <= k && Representable(cfg, k)
    ensures Representable(cfg, j)
  {
    hide TickAt;
    EarlierTick(j, k);
    Times(TickAt(j), TickAt(k), cfg.interval);
  }

  lemma EarlierTick(j: nat, k: nat)
    requires 1 <= j <= k
    ensures TickAt(j) <= TickAt(k)
  {
  }

  lemma Times(a: nat, b: nat, c: nat)
    requires a <= b
    ensures a * c <= b * c
  {
  }
}
