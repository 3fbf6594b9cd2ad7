/** The controller of stepper/stepper.c as a state machine, with the motor
    shaft that its pins turn, and the laws that hold over every run. */
module StepperModel {
  import opened Machine

  datatype Pin = StepPin(v: uint8) | DirPin(v: uint8)

  /** Every field of the controller, and all pin writes so far. */
  datatype Motor = Motor(
    cw: uint8, ccw: uint8,
    pos: int, target: int,
    delayMax: uint16, delayCnt: uint16,
    high: bool, dir: Option<uint8>,
    trace: seq<Pin>)

  datatype Command = Tick | MoveTo(target: int32) | MoveBy(delta: int32) | SetDelay(max: uint16)

  function Start(cw: uint8, ccw: uint8): Motor {
    Motor(cw, ccw, 0, 0, 0, 0, false, None, [])
  }

  function Lower(m: Motor): Motor {
    m.(high := false, trace := m.trace + [StepPin(0)])
  }

  function Aim(m: Motor): Motor {
    var want := if m.target > m.pos then m.cw else m.ccw;
    if m.dir == Some(want) then m
    else m.(dir := Some(want), trace := m.trace + [DirPin(want)])
  }

  function Rise(m: Motor): Motor {
    m.(high := true, trace := m.trace + [StepPin(1)],
       pos := if m.target > m.pos then m.pos + 1 else m.pos - 1)
  }

  /** A tick on which the delay has run out. */
  function Toggle(m: Motor): Motor {
    if m.target == m.pos then if m.high then Lower(m) else m
    else if Aim(m).high then Lower(Aim(m))
    else Rise(Aim(m))
  }

  function Ticked(m: Motor): Motor {
    if m.delayCnt < m.delayMax then m.(delayCnt := m.delayCnt + 1)
    else Toggle(m.(delayCnt := 0))
  }

  // Signed overflow of the target is undefined in C.
  predicate Fits(m: Motor, c: Command) {
    c.MoveBy? ==> -0x8000_0000 <= m.target + c.delta < 0x8000_0000
  }

  function Do(m: Motor, c: Command): Motor {
    match c
    case Tick => Ticked(m)
    case MoveTo(t) => m.(target := t)
    case MoveBy(d) => m.(target := m.target + d)
    case SetDelay(n) => m.(delayMax := n)
  }

  function Run(m: Motor, cs: seq<Command>): Motor {
    if cs == [] then m else Do(Run(m, cs[..|cs| - 1]), cs[|cs| - 1])
  }

  // ---- what the pins do to a motor ----

  /** The level last written to DIR, if any. */
  function DirLevel(trace: seq<Pin>): Option<uint8> {
    if trace == [] then None
    else match trace[|trace| - 1]
      case DirPin(v) => Some(v)
      case StepPin(_) => DirLevel(trace[..|trace| - 1])
  }

  /** The shaft: one step per STEP rise, the way DIR points at that moment. */
  function Shaft(trace: seq<Pin>, cw: uint8): int {
    if trace == [] then 0
    else
      var before := trace[..|trace| - 1];
      Shaft(before, cw) +
      if trace[|trace| - 1] != StepPin(1) then 0
      else if DirLevel(before) == Some(cw) then 1 else -1
  }

  function StepWrites(trace: seq<Pin>): seq<uint8> {
    if trace == [] then []
    else
      var before := StepWrites(trace[..|trace| - 1]);
      if trace[|trace| - 1].StepPin? then before + [trace[|trace| - 1].v] else before
  }

  function DirWrites(trace: seq<Pin>): seq<uint8> {
    if trace == [] then []
    else
      var before := DirWrites(trace[..|trace| - 1]);
      if trace[|trace| - 1].DirPin? then before + [trace[|trace| - 1].v] else before
  }

  /** Levels 1, 0, 1, 0, ... */
  predicate Pulses(ws: seq<uint8>) {
    forall i :: 0 <= i < |ws| ==> ws[i] == if i % 2 == 0 then 1 else 0
  }

  predicate NoRepeat(ws: seq<uint8>) {
    forall i :: 0 < i < |ws| ==> ws[i] != ws[i - 1]
  }

  predicate RisesAfterDir(trace: seq<Pin>) {
    forall i :: 0 <= i < |trace| && trace[i] == StepPin(1) ==> DirLevel(trace[..i]).Some?
  }

  /** What every reachable controller keeps. */
  ghost predicate Sound(m: Motor) {
    && m.dir == DirLevel(m.trace)
    && (m.dir.Some? ==> m.dir.value == m.cw || m.dir.value == m.ccw)
    && Pulses(StepWrites(m.trace))
    && m.high == (|StepWrites(m.trace)| % 2 == 1)
    && NoRepeat(DirWrites(m.trace))
    && (DirWrites(m.trace) == [] <==> DirLevel(m.trace) == None)
    && (DirWrites(m.trace) != [] ==> DirLevel(m.trace) == Some(DirWrites(m.trace)[|DirWrites(m.trace)| - 1]))
    && RisesAfterDir(m.trace)
    && (m.cw != m.ccw ==> m.pos == Shaft(m.trace, m.cw))
  }

  lemma Snoc(trace: seq<Pin>, p: Pin, cw: uint8)
    ensures DirLevel(trace + [p]) == if p.DirPin? then Some(p.v) else DirLevel(trace)
    ensures Shaft(trace + [p], cw) == Shaft(trace, cw)
            + if p != StepPin(1) then 0 else if DirLevel(trace) == Some(cw) then 1 else -1
    ensures StepWrites(trace + [p]) == StepWrites(trace) + if p.StepPin? then [p.v] else []
    ensures DirWrites(trace + [p]) == DirWrites(trace) + if p.DirPin? then [p.v] else []
  {
    assert (trace + [p])[..|trace + [p]| - 1] == trace;
  }

  lemma RisesSnoc(trace: seq<Pin>, p: Pin)
    requires RisesAfterDir(trace)
    requires p == StepPin(1) ==> DirLevel(trace).Some?
    ensures RisesAfterDir(trace + [p])
  {
    var t := trace + [p];
    forall i | 0 <= i < |t| && t[i] == StepPin(1) ensures DirLevel(t[..i]).Some? {
      assert t[..i] == trace[..i];
      if i == |trace| { assert trace[..i] == trace; }
    }
  }

  lemma LowerSound(m: Motor)
    requires Sound(m) && m.high
    ensures Sound(Lower(m))
  {
    hide Shaft, StepWrites, DirWrites, DirLevel, RisesAfterDir;
    Snoc(m.trace, StepPin(0), m.cw);
    RisesSnoc(m.trace, StepPin(0));
  }

  lemma AimSound(m: Motor)
    requires Sound(m)
    ensures Sound(Aim(m)) && Aim(m).pos == m.pos && Aim(m).target == m.target && Aim(m).high == m.high
    ensures Aim(m).dir == Some(if m.target > m.pos then m.cw else m.ccw)
  {
    hide Shaft, StepWrites, DirWrites, DirLevel, RisesAfterDir;
    var want := if m.target > m.pos then m.cw else m.ccw;
    if m.dir != Some(want) {
      Snoc(m.trace, DirPin(want), m.cw);
      RisesSnoc(m.trace, DirPin(want));
    }
  }

  lemma RiseSound(m: Motor)
    requires Sound(m) && !m.high && m.target != m.pos
    requires m.dir == Some(if m.target > m.pos then m.cw else m.ccw)
    ensures Sound(Rise(m))
  {
    hide Shaft, StepWrites, DirWrites, DirLevel, RisesAfterDir;
    Snoc(m.trace, StepPin(1), m.cw);
    RisesSnoc(m.trace, StepPin(1));
  }

  lemma DoSound(m: Motor, c: Command)
    requires Sound(m)
    ensures Sound(Do(m, c))
  {
    if c.Tick? && m.delayCnt >= m.delayMax {
      var z := m.(delayCnt := 0);
      AimSound(z);
      if z.target == z.pos {
        if z.high { LowerSound(z); }
      } else if z.high {
        LowerSound(Aim(z));
      } else {
        RiseSound(Aim(z));
      }
    }
  }

  lemma StartSound(cw: uint8, ccw: uint8)
    ensures Sound(Start(cw, ccw))
  {}

  lemma DoWiring(m: Motor, c: Command)
    ensures Do(m, c).cw == m.cw && Do(m, c).ccw == m.ccw
  {}

  /** Over every interleaving of ticks and commands, the pins pulse properly and
      the position counter is what the motor has been told. */
  lemma {:induction false} RunSound(cw: uint8, ccw: uint8, cs: seq<Command>)
    ensures Sound(Run(Start(cw, ccw), cs))
    ensures var m := Run(Start(cw, ccw), cs); m.cw == cw && m.ccw == ccw
    decreases |cs|
  {
    hide Sound, Do;
    if cs == [] {
      StartSound(cw, ccw);
    } else {
      RunSound(cw, ccw, cs[..|cs| - 1]);
      DoSound(Run(Start(cw, ccw), cs[..|cs| - 1]), cs[|cs| - 1]);
      DoWiring(Run(Start(cw, ccw), cs[..|cs| - 1]), cs[|cs| - 1]);
    }
  }

  lemma OdometerHolds(cw: uint8, ccw: uint8, cs: seq<Command>)
    requires cw != ccw
    ensures var m := Run(Start(cw, ccw), cs); m.pos == Shaft(m.trace, cw)
  {
    RunSound(cw, ccw, cs);
  }

  /** The odometer law holds over all runs exactly when the two DIR levels of
      the wiring differ. */
  lemma Odometer(cw: uint8, ccw: uint8)
    ensures (forall cs :: var m := Run(Start(cw, ccw), cs); m.pos == Shaft(m.trace, cw)) <==> cw != ccw
  {
    if cw != ccw {
      forall cs ensures var m := Run(Start(cw, ccw), cs); m.pos == Shaft(m.trace, cw) {
        OdometerHolds(cw, ccw, cs);
      }
    } else {
      OneStepBack(cw);
    }
  }

  // With equal levels a single step back reads as a step forward.
  lemma OneStepBack(v: uint8)
    ensures var m := Run(Start(v, v), [MoveTo(-1), Tick]);
      m.pos == -1 && Shaft(m.trace, v) == 1
  {
    var cs := [MoveTo(-1), Tick];
    assert cs[..1] == [MoveTo(-1)] && cs[..1][..0] == [];
    var m1 := Start(v, v).(target := -1);
    assert Run(Start(v, v), cs[..1]) == m1;
    assert Run(Start(v, v), cs) == Ticked(m1);
    Snoc([], DirPin(v), v);
    Snoc([DirPin(v)], StepPin(1), v);
    assert [] + [DirPin(v)] == [DirPin(v)];
  }

  /** A tick writes pins only when the delay has run out. DIR is written, first,
      exactly when the shaft is off target and DIR does not yet point the way
      to go, also while a pulse is high; then STEP toggles, and on target it is
      only lowered. */
  lemma TickWrites(m: Motor)
    ensures var way := if m.target > m.pos then m.cw else m.ccw;
      Ticked(m).trace == m.trace +
        if m.delayCnt < m.delayMax then []
        else if m.target == m.pos then if m.high then [StepPin(0)] else []
        else (if m.dir == Some(way) then [] else [DirPin(way)]) + [if m.high then StepPin(0) else StepPin(1)]
  {}

  // ---- what the commands ask for ----

  predicate NoMoveTo(cs: seq<Command>) { forall k :: 0 <= k < |cs| ==> !cs[k].MoveTo? }
  predicate NoSetDelay(cs: seq<Command>) { forall k :: 0 <= k < |cs| ==> !cs[k].SetDelay? }

  /** The relative moves, added up. */
  function Moved(cs: seq<Command>): int {
    if cs == [] then 0
    else Moved(cs[..|cs| - 1]) + if cs[|cs| - 1].MoveBy? then cs[|cs| - 1].delta else 0
  }

  lemma RunSnoc(m: Motor, cs: seq<Command>, c: Command)
    ensures Run(m, cs + [c]) == Do(Run(m, cs), c)
  {
    assert (cs + [c])[..|cs + [c]| - 1] == cs;
  }

  // Ticks and relative moves from any state.
  lemma {:induction false} RelativeRun(m: Motor, a: seq<Command>, b: seq<Command>)
    ensures NoMoveTo(b) ==> Run(m, a + b).target == Run(m, a).target + Moved(b)
    ensures NoSetDelay(b) ==> Run(m, a + b).delayMax == Run(m, a).delayMax
    decreases |b|
  {
    if b == [] {
      assert a + b == a;
    } else {
      var p, c := b[..|b| - 1], b[|b| - 1];
      RelativeRun(m, a, p);
      assert a + b == (a + p) + [c];
      RunSnoc(m, a + p, c);
    }
  }

  /** The target is the last absolute one (0 when there is none) plus the
      relative moves after it; the delay is the last one set. */
  lemma RunTarget(cw: uint8, ccw: uint8, a: seq<Command>, t: int32, n: uint16, b: seq<Command>)
    ensures NoMoveTo(b) ==> Run(Start(cw, ccw), b).target == Moved(b)
    ensures NoMoveTo(b) ==> Run(Start(cw, ccw), a + [MoveTo(t)] + b).target == t + Moved(b)
    ensures NoSetDelay(b) ==> Run(Start(cw, ccw), b).delayMax == 0
    ensures NoSetDelay(b) ==> Run(Start(cw, ccw), a + [SetDelay(n)] + b).delayMax == n
  {
    var m := Start(cw, ccw);
    RelativeRun(m, [], b);
    assert [] + b == b;
    RelativeRun(m, a + [MoveTo(t)], b);
    RunSnoc(m, a, MoveTo(t));
    RelativeRun(m, a + [SetDelay(n)], b);
    RunSnoc(m, a, SetDelay(n));
  }

  // ---- timing ----

  function Ticks(m: Motor, k: nat): Motor {
    if k == 0 then m else Ticked(Ticks(m, k - 1))
  }

  function Abs(x: int): nat { if x < 0 then -x else x }

  // One step of distance takes two toggles; a pulse in flight costs one more.
  function Toggles(m: Motor): nat { 2 * Abs(m.target - m.pos) + if m.high then 1 else 0 }

  /** Steps taken after a toggles from phase h (1 while STEP is high). */
  function StepsAfter(a: nat, h: int, n: nat): int
    requires 0 <= h <= 1
  {
    Min(n, (a + 1 - h) / 2)
  }

  function Advanced(m: Motor, steps: int): int {
    if m.target >= m.pos then m.pos + steps else m.pos - steps
  }

  // Toggles that fall within k ticks.
  function Active(m: Motor, k: nat): nat {
    (Min(m.delayCnt, m.delayMax) + k) / (1 + m.delayMax)
  }

  // The closed forms after a toggles, started in m.
  ghost predicate AfterToggles(m: Motor, t: Motor, a: nat) {
    var h, n := if m.high then 1 else 0, Abs(m.target - m.pos);
    && t.target == m.target && t.delayMax == m.delayMax
    && t.pos == Advanced(m, StepsAfter(a, h, n))
    && t.high == (Phase(a, h, n) == 1)
  }

  // Parity of the toggles, which is the STEP level, against steps taken.
  function Phase(a: nat, h: int, n: nat): int
    requires 0 <= h <= 1
  {
    (Min(a, 2 * n + h) + h) % 2
  }

  lemma PhaseStep(a: nat, h: int, n: nat)
    requires 0 <= h <= 1
    ensures StepsAfter(a, h, n) == n ==> StepsAfter(a + 1, h, n) == n && Phase(a + 1, h, n) == 0
    ensures StepsAfter(a, h, n) < n && Phase(a, h, n) == 1 ==>
              StepsAfter(a + 1, h, n) == StepsAfter(a, h, n) && Phase(a + 1, h, n) == 0
    ensures StepsAfter(a, h, n) < n && Phase(a, h, n) == 0 ==>
              StepsAfter(a + 1, h, n) == StepsAfter(a, h, n) + 1 && Phase(a + 1, h, n) == 1
  {}

  lemma ToggleForm(m: Motor, t: Motor, a: nat)
    requires AfterToggles(m, t, a)
    ensures AfterToggles(m, Toggle(t), a + 1)
  {
    PhaseStep(a, if m.high then 1 else 0, Abs(m.target - m.pos));
  }

  lemma MulAtLeast(x: nat, a: nat)
    requires a >= 1
    ensures x * a >= x
  {}

  lemma NoWholePeriod(d: nat, a: nat, r: nat, c: nat)
    requires c <= d && c == (1 + d) * a + r
    ensures a == 0 && r == c
  {
    if a >= 1 {
      MulAtLeast(1 + d, a);
      assert false;
    }
  }

  lemma WholePeriod(x: nat, a: nat)
    requires x * a > 0
    ensures a >= 1 && x * a == x * (a - 1) + x
  {}

  lemma NoToggles(m: Motor)
    ensures AfterToggles(m, m, 0)
  {}

  // A tick that counts the delay up, and one that toggles.
  lemma WaitForm(m: Motor, t: Motor, a: nat, r: nat)
    requires AfterToggles(m, t, a) && Min(t.delayCnt, m.delayMax) == r < m.delayMax
    ensures AfterToggles(m, Ticked(t), a) && Min(Ticked(t).delayCnt, m.delayMax) == r + 1
  {
    hide Abs, StepsAfter, Phase, Advanced;
  }

  lemma ActForm(m: Motor, t: Motor, a: nat)
    requires AfterToggles(m, t, a) && Min(t.delayCnt, m.delayMax) == m.delayMax
    ensures AfterToggles(m, Ticked(t), a + 1) && Min(Ticked(t).delayCnt, m.delayMax) == 0
  {
    hide Abs, StepsAfter, Phase, Advanced;
    ToggleForm(m, t.(delayCnt := 0), a);
  }

  /** Timing without division: k ticks are a whole delay periods and r ticks more. */
  lemma {:induction false} TicksForm(m: Motor, k: nat, a: nat, r: nat)
    requires Min(m.delayCnt, m.delayMax) + k == (1 + m.delayMax) * a + r && r <= m.delayMax
    ensures AfterToggles(m, Ticks(m, k), a)
    ensures Min(Ticks(m, k).delayCnt, m.delayMax) == r
    decreases k
  {
    hide AfterToggles, Ticked;
    if k == 0 {
      NoWholePeriod(m.delayMax, a, r, Min(m.delayCnt, m.delayMax));
      NoToggles(m);
    } else if r > 0 {
      TicksForm(m, k - 1, a, r - 1);
      WaitForm(m, Ticks(m, k - 1), a, r - 1);
    } else {
      WholePeriod(1 + m.delayMax, a);
      TicksForm(m, k - 1, a - 1, m.delayMax);
      ActForm(m, Ticks(m, k - 1), a - 1);
    }
  }

  lemma EvenOdd(n: nat)
    ensures (2 * n) % 2 == 0 && (2 * n + 1) % 2 == 1
  {}

  // Arrived, and STEP low: exactly when enough toggles have gone by.
  lemma IdleForm(a: nat, h: int, n: nat)
    requires 0 <= h <= 1
    ensures StepsAfter(a, h, n) == n && Phase(a, h, n) == 0 <==> a >= 2 * n + h
  {
    if a >= 2 * n + h {
      EvenOdd(n + h);
      assert Min(a, 2 * n + h) + h == 2 * (n + h);
    } else if a == 2 * n + h - 1 {
      EvenOdd(n + h - 1);
      assert Min(a, 2 * n + h) + h == 2 * (n + h - 1) + 1;
    } else {
      assert a + 1 - h < 2 * n;
    }
  }

  /** Exact timing of an uninterrupted run of k ticks: where the shaft is, and
      when the controller comes to rest. */
  lemma Timing(m: Motor, k: nat)
    ensures Ticks(m, k).target == m.target
    ensures Ticks(m, k).pos
            == Advanced(m, StepsAfter(Active(m, k), if m.high then 1 else 0, Abs(m.target - m.pos)))
    ensures Ticks(m, k).pos == m.target && !Ticks(m, k).high <==> Active(m, k) >= Toggles(m)
  {
    var c, p := Min(m.delayCnt, m.delayMax) + k, 1 + m.delayMax;
    assert c == p * (c / p) + c % p;
    TicksForm(m, k, c / p, c % p);
    IdleForm(c / p, if m.high then 1 else 0, Abs(m.target - m.pos));
  }

  lemma WholeDelays(c: nat, p: nat, n: nat)
    requires p >= 1 && c >= n * p
    ensures c / p >= n
  {
    var q := c / p;
    assert c == p * q + c % p;
    if q < n {
      MulMonotone(p, q + 1, n);
      assert false;
    }
  }

  lemma MulMonotone(p: nat, a: nat, b: nat)
    requires a <= b
    ensures p * a <= p * b && p * a == a * p && p * b == b * p
  {}

  /** Left alone long enough, the controller is on target with STEP low. */
  lemma Arrives(m: Motor, k: nat)
    requires k >= Toggles(m) * (1 + m.delayMax)
    ensures Ticks(m, k).pos == m.target && !Ticks(m, k).high
  {
    hide Ticks, Toggles;
    WholeDelays(Min(m.delayCnt, m.delayMax) + k, 1 + m.delayMax, Toggles(m));
    Timing(m, k);
  }

  lemma {:induction false} TicksAreRun(m: Motor, cs: seq<Command>, k: nat)
    ensures Run(m, cs + seq(k, _ => Tick)) == Ticks(Run(m, cs), k)
    decreases k
  {
    if k == 0 {
      assert cs + seq(k, _ => Tick) == cs;
    } else {
      TicksAreRun(m, cs, k - 1);
      assert cs + seq(k, _ => Tick) == (cs + seq(k - 1, _ => Tick)) + [Tick];
      RunSnoc(m, cs + seq(k - 1, _ => Tick), Tick);
    }
  }

  /** Whatever was done before, after the last absolute move and any relative
      ones the shaft ends where they add up to, and where the pins say it is. */
  lemma RunArrives(cw: uint8, ccw: uint8, a: seq<Command>, t: int32, b: seq<Command>, k: nat)
    requires NoMoveTo(b)
    requires var m := Run(Start(cw, ccw), a + [MoveTo(t)] + b); k >= Toggles(m) * (1 + m.delayMax)
    ensures var m := Run(Start(cw, ccw), a + [MoveTo(t)] + b + seq(k, _ => Tick));
      && m.pos == t + Moved(b) && !m.high
      && (cw != ccw ==> Shaft(m.trace, cw) == t + Moved(b))
  {
    hide Run, Ticks, Toggles, Moved, Sound;
    var cs := a + [MoveTo(t)] + b;
    RunTarget(cw, ccw, a, t, 0, b);
    Arrives(Run(Start(cw, ccw), cs), k);
    TicksAreRun(Start(cw, ccw), cs, k);
    if cw != ccw { OdometerHolds(cw, ccw, cs + seq(k, _ => Tick)); }
  }
}
