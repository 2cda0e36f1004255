/**
 * The picture processing unit: its four video modes, the timing constants of
 * the draw cycle, and the `cycle` step, whose mode switch currently leaves
 * the unit's state exactly as it found it.
 */
module Ppu {
  import opened Results

  type Uint16 = x: int | 0 <= x < 0x1_0000
  type Uint32 = x: int | 0 <= x < 0x1_0000_0000
  type Uint64 = x: int | 0 <= x < 0x1_0000_0000_0000_0000

  /** The four modes, in declaration order: mode 0 to mode 3. */
  datatype VideoMode = HBlank | VBlank | AccessOam | AccessVram

  /** The hardware mode number of each mode (its position in the enumeration). */
  function ModeNumber(m: VideoMode): (n: nat)
    ensures n < 4
    ensures m == HBlank <==> n == 0
    ensures m == VBlank <==> n == 1
    ensures m == AccessOam <==> n == 2
    ensures m == AccessVram <==> n == 3
  {
    match m
    case HBlank => 0
    case VBlank => 1
    case AccessOam => 2
    case AccessVram => 3
  }

  function ModeFromNumber(n: nat): (m: Option<VideoMode>)
    ensures m.Some? <==> n < 4
  {
    if n == 0 then Some(HBlank)
    else if n == 1 then Some(VBlank)
    else if n == 2 then Some(AccessOam)
    else if n == 3 then Some(AccessVram)
    else None
  }

  /** Numbering the modes and reading the number back gives the same mode. */
  lemma ModeNumberRoundTrip(m: VideoMode)
    ensures ModeFromNumber(ModeNumber(m)) == Some(m)
  {
  }

  /** Every number 0..3 names exactly one mode, and it numbers back to itself. */
  lemma ModeFromNumberRoundTrip(n: nat)
    requires n < 4
    ensures ModeNumber(ModeFromNumber(n).value) == n
  {
  }

  /** There are exactly four modes: distinct modes have distinct numbers. */
  lemma ModeNumberInjective(a: VideoMode, b: VideoMode)
    ensures ModeNumber(a) == ModeNumber(b) <==> a == b
  {
  }

  // Cycle counts of the draw modes, in machine clock cycles.
  const HBlankCycles: Uint16 := 204
  const VBlankCycles: Uint16 := 4560
  const AccessOamCycles: Uint16 := 80
  const AccessVramCycles: Uint16 := 172

  const LineCycles: Uint16 := 456
  const FrameCycles: Uint32 := 70224

  /** The visible lines of the screen, and the lines spent in vertical blank. */
  const VisibleLines: nat := 144
  const VBlankLines: nat := 10

  /** One scan line is an OAM search, a VRAM transfer and a horizontal blank. */
  lemma LineIsOamVramHBlank()
    ensures AccessOamCycles + AccessVramCycles + HBlankCycles == LineCycles
  {
  }

  /** Vertical blank lasts ten whole lines. */
  lemma VBlankIsTenLines()
    ensures VBlankCycles == VBlankLines * LineCycles
  {
  }

  /** A frame is 154 lines: the 144 visible lines followed by vertical blank. */
  lemma FrameIsVisibleLinesPlusVBlank()
    ensures FrameCycles == (VisibleLines + VBlankLines) * LineCycles
    ensures FrameCycles == VisibleLines * LineCycles + VBlankCycles
    ensures FrameCycles == 154 * LineCycles
  {
    VBlankIsTenLines();
  }

  /** A frame does not fit in the 16-bit type of the other constants. */
  lemma FrameNeedsWiderType()
    ensures FrameCycles >= 0x1_0000
  {
  }

  /** The state of the unit: the cycle counter and the current mode. */
  datatype PpuState = PpuState(currentCycle: Uint64, mode: VideoMode)

  /** A freshly built unit: cycle zero, searching OAM. */
  const InitialState: PpuState := PpuState(0, AccessOam)

  /**
   * One `cycle(cycles)` call: a switch over the four modes in which every arm
   * does nothing. The match has no default arm because it covers every mode,
   * so the fatal default of the switch can never be reached.
   */
  function Step(s: PpuState, cycles: Uint64): (r: PpuState)
    ensures r.mode == s.mode
    ensures r.currentCycle == s.currentCycle
  {
    match s.mode
    case AccessOam => s
    case AccessVram => s
    case HBlank => s
    case VBlank => s
  }

  /** The result of a step does not depend on the number of cycles passed. */
  lemma StepIgnoresCycles(s: PpuState, a: Uint64, b: Uint64)
    ensures Step(s, a) == Step(s, b)
  {
  }

  /** A sequence of `cycle` calls, applied in order. */
  function Run(s: PpuState, calls: seq<Uint64>): (r: PpuState)
    decreases |calls|
  {
    if |calls| == 0 then s else Run(Step(s, calls[0]), calls[1..])
  }

  /** However many `cycle` calls are made, the state is the one they started from. */
  lemma {:induction false} RunLeavesStateUnchanged(s: PpuState, calls: seq<Uint64>)
    ensures Run(s, calls) == s
    decreases |calls|
  {
    if |calls| > 0 {
      RunLeavesStateUnchanged(Step(s, calls[0]), calls[1..]);
    }
  }

  /** In particular, a fresh unit stays in its initial state forever. */
  lemma RunFromInitial(calls: seq<Uint64>)
    ensures Run(InitialState, calls) == InitialState
    ensures Run(InitialState, calls).mode == AccessOam
    ensures Run(InitialState, calls).currentCycle == 0
  {
    RunLeavesStateUnchanged(InitialState, calls);
  }

  class PPU {
    var currentCycle: Uint64
    var currentVideoMode: VideoMode

    function State(): (s: PpuState)
      reads this
      ensures s.currentCycle == currentCycle && s.mode == currentVideoMode
    {
      PpuState(currentCycle, currentVideoMode)
    }

    /** A new unit starts at cycle zero in the OAM search mode. */
    constructor ()
      ensures State() == InitialState
      ensures currentCycle == 0 && currentVideoMode == AccessOam
    {
      currentCycle := 0;
      currentVideoMode := AccessOam;
    }

    /** Dispatches on the current mode; every arm leaves the state alone. */
    method Cycle(cycles: Uint64)
      modifies this
      ensures State() == Step(old(State()), cycles)
      ensures currentCycle == old(currentCycle)
      ensures currentVideoMode == old(currentVideoMode)
    {
      match currentVideoMode {
        case AccessOam =>
        case AccessVram =>
        case HBlank =>
        case VBlank =>
      }
    }
  }
}
