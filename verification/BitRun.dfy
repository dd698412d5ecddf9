/** One mode bit of a running shared plan whose single shots have all fired: a small automaton on the
    places of the plan. */
module BitRun {
  import opened ModeBits
  import opened RunPlanMachine
  import opened SharedPlan
  import opened PlanControl

  predicate CoarseOr(v: seq<nat>, x: Operands, l: nat, b: Bit)
    requires Ladder(v) && Sized(v, x) && 1 <= l <= Top(v)
  {
    On(x.ors[Top(v) - l], b)
  }

  predicate FineOr(v: seq<nat>, x: Operands, i: nat, b: Bit)
    requires Ladder(v) && Sized(v, x) && i < v[0]
  {
    On(x.ors[Top(v) + i], b)
  }

  predicate FineAnd(v: seq<nat>, x: Operands, i: nat, b: Bit)
    requires Ladder(v) && Sized(v, x) && i < v[0]
  {
    On(x.ands[i], b)
  }

  /** No single shot is waiting. */
  ghost predicate Quiet(v: seq<nat>, x: Operands)
    requires Ladder(v) && Sized(v, x)
  {
    forall k: nat :: k < |x.shots| ==> x.shots[k] == {}
  }

  /** The effect of any instruction on one bit of the mode register. */
  predicate Effect(i: Instr, b: Bit, on: bool) {
    if i.AndMode? then on && On(i.mask, b)
    else if i.OrMode? || i.OrSingleShot? then on || On(i.mask, b)
    else on
  }

  lemma StepEffect(s: System, b: Bit)
    requires s.cpu.pc < |s.mem|
    ensures On(Step(s).cpu.mode, b) == Effect(s.mem[s.cpu.pc], b, On(s.cpu.mode, b))
  {
  }

  /** What the instruction at place p makes of the bit. */
  predicate NextBit(v: seq<nat>, x: Operands, b: Bit, p: Place, on: bool)
    requires Ladder(v) && Sized(v, x)
    requires p.Head? ==> 1 <= p.level <= Top(v) && p.part < 3
    requires p.Fine? ==> p.slot < v[0] && p.part < 7
    requires p.Tail? ==> 1 <= p.level <= Top(v) && p.part < 2
  {
    match p
    case Head(l, q) => on || (q == 1 && CoarseOr(v, x, l, b))
    case Fine(i, q) => if q == 0 then on && FineAnd(v, x, i, b) else on || (q == 1 && FineOr(v, x, i, b))
    case FineEnd => on && On(x.ands[v[0]], b)
    case Tail(l, q) => on && (q == 1 ==> On(x.ands[v[0] + l], b))
    case _ => on
  }

  lemma NextBitIsEffect(v: seq<nat>, x: Operands, b: Bit, a: nat, on: bool)
    requires Ladder(v) && Sized(v, x) && Quiet(v, x) && a < Length(v)
    ensures Effect(Plan(v, x)[a], b, on) == NextBit(v, x, b, PlaceAt(v, a), on)
  {
  }

  /** Without a waiting single shot a step leaves the memory as it is. */
  lemma QuietStep(v: seq<nat>, x: Operands, s: System)
    requires Ladder(v) && Sized(v, x) && Quiet(v, x) && s.mem == Plan(v, x) && s.cpu.pc < |s.mem|
    ensures Step(s).mem == s.mem
  {
    var p := PlaceAt(v, s.cpu.pc);
    if s.mem[s.cpu.pc].OrSingleShot? {
      assert InstrOf(v, x, p) == OrSingleShot({});
    }
  }

  /** What can be said of a bit at every place of every run. */
  datatype Claim =
    | Exactly(pattern: set<nat>)   // in fine slot i the bit is on exactly if i is in the pattern
    | EveryNth(level: nat)         // the bit is on exactly at the multiples of v[level]
    | SlotOn(slot: nat)            // on in this slot of every pass
    | FirstSlotOff                 // never on in slot 0
    | LevelOn(level: nat)          // on at every multiple of v[level]
    | OnlyIn(pattern: set<nat>)    // never on in a fine slot outside the pattern
    | OnlyEveryNth(level: nat)     // never on at an event that is no multiple of v[level]

  /** The operands that make a claim true. */
  ghost predicate Grounds(v: seq<nat>, x: Operands, b: Bit, k: Claim)
    requires Ladder(v) && Sized(v, x)
  {
    match k
    case Exactly(pattern) =>
      forall i: nat :: i < v[0] ==>
        if i in pattern then FineOr(v, x, i, b) else !FineAnd(v, x, i, b) && !FineOr(v, x, i, b)
    case EveryNth(level) =>
      && 1 <= level <= Top(v)
      && CoarseOr(v, x, level, b)
      && FineAnd(v, x, 0, b)
      && (forall i: nat :: 1 <= i < v[0] ==> !FineAnd(v, x, i, b))
      && (forall i: nat :: i < v[0] ==> !FineOr(v, x, i, b))
      && (forall l: nat :: 1 <= l < level ==> !CoarseOr(v, x, l, b))
    case SlotOn(slot) => slot < v[0] && FineOr(v, x, slot, b)
    case FirstSlotOff => !FineAnd(v, x, 0, b) && !FineOr(v, x, 0, b)
    case LevelOn(level) => 1 <= level <= Top(v) && CoarseOr(v, x, level, b) && FineAnd(v, x, 0, b)
    case OnlyIn(pattern) =>
      forall i: nat :: i < v[0] && i !in pattern ==> !FineAnd(v, x, i, b) && !FineOr(v, x, i, b)
    case OnlyEveryNth(level) =>
      && 1 <= level <= Top(v)
      && (forall i: nat :: 1 <= i < v[0] ==> !FineAnd(v, x, i, b))
      && (forall i: nat :: i < v[0] ==> !FineOr(v, x, i, b))
      && (forall l: nat :: 1 <= l < level ==> !CoarseOr(v, x, l, b))
  }

  /** The claim for event e. */
  ghost predicate Claimed(v: seq<nat>, k: Claim, e: nat, on: bool)
    requires Ladder(v)
  {
    match k
    case Exactly(pattern) => on == (e % v[0] in pattern)
    case EveryNth(level) => level <= Top(v) ==> on == Divides(v[level], e)
    case SlotOn(slot) => e % v[0] == slot ==> on
    case FirstSlotOff => e % v[0] == 0 ==> !on
    case LevelOn(level) => level <= Top(v) && Divides(v[level], e) ==> on
    case OnlyIn(pattern) => on ==> e % v[0] in pattern
    case OnlyEveryNth(level) => level <= Top(v) && on ==> Divides(v[level], e)
  }

  /** What the claim means while event e is being prepared, at each place. */
  ghost predicate Holds(v: seq<nat>, k: Claim, p: Place, e: nat, on: bool)
    requires Ladder(v) && (Leveled(k) ==> k.level <= Top(v))
  {
    match k
    case Exactly(pattern) =>
      p.Fine? ==> (p.part == 1 && p.slot !in pattern ==> !on) && (p.part >= 2 ==> on == (p.slot in pattern))
    case EveryNth(level) =>
      && (Below(p, level) ==> on == Divides(v[level], e))
      && (p.Fine? && p.slot > 0 && p.part > 0 ==> !on)
      && (p.FineEnd? || p.Tail? || p.Goto? ==> !on)
    case SlotOn(slot) => p.Fine? && p.slot == slot && p.part >= 2 ==> on
    case FirstSlotOff => p.Fine? && p.slot == 0 && p.part >= 1 ==> !on
    case LevelOn(level) => Below(p, level) && Divides(v[level], e) ==> on
    case OnlyIn(pattern) => on && p.Fine? && p.part >= 1 ==> p.slot in pattern
    case OnlyEveryNth(level) =>
      && (on && (p.Head? || (p.Fine? && p.slot == 0)) ==> Divides(v[level], e))
      && (on && p.Fine? && p.slot > 0 ==> p.part == 0)
      && (p.FineEnd? || p.Tail? || p.Goto? || p.LabelOp? || p.Start? ==> !on)
  }

  predicate Leveled(k: Claim) {
    k.EveryNth? || k.LevelOn? || k.OnlyEveryNth?
  }

  /** Between the OR of this level and the end of slot 0. */
  predicate Below(p: Place, level: nat) {
    || (p.Head? && (p.level < level || (p.level == level && p.part == 2)))
    || (p.Fine? && p.slot == 0)
  }

  lemma SlotClaimNext(v: seq<nat>, x: Operands, b: Bit, k: Claim, p: Place, e: nat, on: bool)
    requires Ladder(v) && Sized(v, x) && Quiet(v, x) && Grounds(v, x, b, k) && Possible(v, p, e)
    requires Holds(v, k, p, e, on) && !Leveled(k)
    ensures Holds(v, k, NextPlace(v, p, e), NextEvent(p, e), NextBit(v, x, b, p, on))
  {
  }

  lemma LevelClaimNext(v: seq<nat>, x: Operands, b: Bit, k: Claim, p: Place, e: nat, on: bool)
    requires Ladder(v) && Sized(v, x) && Quiet(v, x) && Grounds(v, x, b, k) && Possible(v, p, e)
    requires Holds(v, k, p, e, on) && Leveled(k)
    ensures Holds(v, k, NextPlace(v, p, e), NextEvent(p, e), NextBit(v, x, b, p, on))
  {
    if p.Tail? && p.part == 0 && p.level <= k.level && Divides(v[k.level], e) {
      DividesDown(v, p.level, k.level, e);
    }
    if p.Head? && p.level > k.level {
      DividesDown(v, k.level, p.level, e);
    }
  }

  lemma HoldsNext(v: seq<nat>, x: Operands, b: Bit, k: Claim, p: Place, e: nat, on: bool)
    requires Ladder(v) && Sized(v, x) && Quiet(v, x) && Grounds(v, x, b, k) && Possible(v, p, e)
    requires Holds(v, k, p, e, on)
    ensures Holds(v, k, NextPlace(v, p, e), NextEvent(p, e), NextBit(v, x, b, p, on))
  {
    if Leveled(k) {
      LevelClaimNext(v, x, b, k, p, e, on);
    } else {
      SlotClaimNext(v, x, b, k, p, e, on);
    }
  }

  lemma HoldsAtEvent(v: seq<nat>, k: Claim, p: Place, e: nat, on: bool)
    requires Ladder(v) && Possible(v, p, e) && p.Fine? && p.part == 3
    requires Leveled(k) ==> 1 <= k.level <= Top(v)
    requires Holds(v, k, p, e, on)
    ensures Claimed(v, k, e, on)
  {
    if Leveled(k) && p.slot > 0 && Divides(v[k.level], e) {
      DividesDown(v, 0, k.level, e);
    }
  }

  // ---------------------------------------------------------------- runs from anywhere

  /** The claim holds here, or it is still wrong for events up to number n only: the mask that makes it true may
      already have been passed in the present slot, or the bit may still be on from before. */
  ghost predicate Late(v: seq<nat>, k: Claim, p: Place, e: nat, on: bool, n: int)
    requires Ladder(v) && (Leveled(k) ==> k.level <= Top(v))
  {
    || Holds(v, k, p, e, on)
    || match k
       case EveryNth(_) => e <= n && (p.Fine? && p.slot > 0 ==> on && (p.slot == v[0] - 1 ==> e < n))
       case LevelOn(_) => e <= n
       case _ => p.Fine? && e <= n
  }

  /** The first event from which on a claim is true, in a plan that is already running: the next one but one,
      or with a coarse claim and the bit still on one later. A plan just started is right from its first event. */
  function SettledFrom(k: Claim, c: Cpu, p: Place, b: Bit): nat {
    if p.Start? then |c.events|
    else if k.EveryNth? && On(c.mode, b) then |c.events| + 2
    else |c.events| + 1
  }

  predicate Settling(k: Claim) {
    !k.OnlyEveryNth?
  }

  lemma AnywhereIsLate(v: seq<nat>, k: Claim, c: Cpu, p: Place, e: nat, t0: nat, b: Bit)
    requires Ladder(v) && (Leveled(k) ==> k.level <= Top(v)) && At(v, c, p, e, t0) && Settling(k)
    ensures Late(v, k, p, e, On(c.mode, b), SettledFrom(k, c, p, b) - 1)
  {
  }

  lemma LateNext(v: seq<nat>, x: Operands, b: Bit, k: Claim, p: Place, e: nat, on: bool, n: int)
    requires Ladder(v) && Sized(v, x) && Quiet(v, x) && Grounds(v, x, b, k) && Possible(v, p, e)
    requires Settling(k) && Late(v, k, p, e, on, n)
    ensures Late(v, k, NextPlace(v, p, e), NextEvent(p, e), NextBit(v, x, b, p, on), n)
  {
    if Holds(v, k, p, e, on) {
      HoldsNext(v, x, b, k, p, e, on);
    }
  }

  /** The claim is true of the events after number n. */
  ghost predicate ClaimedAfter(v: seq<nat>, k: Claim, c: Cpu, b: Bit, n: int)
    requires Ladder(v)
  {
    forall e: nat :: n < e < |c.events| ==> Claimed(v, k, e, EventOn(c, e, b))
  }

  lemma LateStep(v: seq<nat>, x: Operands, b: Bit, k: Claim, s: System, p: Place, e: nat, t0: nat, n: int)
    requires Ladder(v) && Sized(v, x) && Quiet(v, x) && s.mem == Plan(v, x) && At(v, s.cpu, p, e, t0)
    requires Grounds(v, x, b, k) && Settling(k) && Late(v, k, p, e, On(s.cpu.mode, b), n)
    requires ClaimedAfter(v, k, s.cpu, b, n)
    ensures Step(s).mem == s.mem
    ensures Late(v, k, NextPlace(v, p, e), NextEvent(p, e), On(Step(s).cpu.mode, b), n)
    ensures ClaimedAfter(v, k, Step(s).cpu, b, n)
  {
    var on := On(s.cpu.mode, b);
    PlanIsSkeletal(v, x);
    QuietStep(v, x, s);
    StepEffect(s, b);
    NextBitIsEffect(v, x, b, s.cpu.pc, on);
    LateNext(v, x, b, k, p, e, on, n);
    LateSend(v, b, k, s, p, e, t0, n);
  }

  lemma LateSend(v: seq<nat>, b: Bit, k: Claim, s: System, p: Place, e: nat, t0: nat, n: int)
    requires Skeletal(v, s.mem) && At(v, s.cpu, p, e, t0) && (Leveled(k) ==> 1 <= k.level <= Top(v))
    requires Settling(k) && Late(v, k, p, e, On(s.cpu.mode, b), n) && ClaimedAfter(v, k, s.cpu, b, n)
    ensures ClaimedAfter(v, k, Step(s).cpu, b, n)
  {
    StepSends(v, s, p);
    var c, d := s.cpu, Step(s).cpu;
    forall i: nat | n < i < |d.events| ensures Claimed(v, k, i, EventOn(d, i, b)) {
      if i < |c.events| {
        assert EventOn(d, i, b) == EventOn(c, i, b);
      } else {
        HoldsAtEvent(v, k, p, e, On(c.mode, b));
      }
    }
  }

  lemma {:induction false} LateRuns(v: seq<nat>, x: Operands, b: Bit, k: Claim, s: System, p: Place, e: nat, t0: nat,
                                    n: int, steps: nat)
    requires Ladder(v) && Sized(v, x) && Quiet(v, x) && s.mem == Plan(v, x)
    requires At(v, s.cpu, p, e, t0) && (p == Start ==> t0 == x.initTag)
    requires Grounds(v, x, b, k) && Settling(k) && Late(v, k, p, e, On(s.cpu.mode, b), n)
    requires ClaimedAfter(v, k, s.cpu, b, n)
    ensures ClaimedAfter(v, k, Run(s, steps).cpu, b, n)
    decreases steps
  {
    if steps > 0 {
      LateStep(v, x, b, k, s, p, e, t0, n);
      PlanIsSkeletal(v, x);
      ControlStep(v, s, p, e, t0);
      LateRuns(v, x, b, k, Step(s), NextPlace(v, p, e), NextEvent(p, e), t0, n, steps - 1);
    }
  }

  /** A claim with grounds is true of every event from SettledFrom on, wherever the running plan is and whatever the
      mode register holds. */
  lemma ClaimHolds(v: seq<nat>, x: Operands, b: Bit, k: Claim, s: System, p: Place, e: nat, t0: nat, steps: nat)
    requires Ladder(v) && Sized(v, x) && Quiet(v, x) && s.mem == Plan(v, x)
    requires At(v, s.cpu, p, e, t0) && (p == Start ==> t0 == x.initTag)
    requires Grounds(v, x, b, k) && Settling(k)
    ensures ClaimedAfter(v, k, Run(s, steps).cpu, b, SettledFrom(k, s.cpu, p, b) - 1)
  {
    AnywhereIsLate(v, k, s.cpu, p, e, t0, b);
    LateRuns(v, x, b, k, s, p, e, t0, SettledFrom(k, s.cpu, p, b) - 1, steps);
  }
}
