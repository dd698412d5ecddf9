/** Where a running shared plan is: the control flow depends on the opcodes alone, never on the masks.
    The loop counters are the digits of the event number in the mixed radix of the ladder. */
module PlanControl {
  import opened RunPlanMachine
  import opened SharedPlan

  /** The opcode that belongs at a place, whatever its operand. */
  predicate Fits(v: seq<nat>, p: Place, i: Instr)
    requires Ladder(v)
  {
    match p
    case Start => i.SetTag?
    case LabelOp => i.LabelHere?
    case Head(l, q) =>
      1 <= l <= Top(v) && (if q == 0 then i.OrSingleShot? else if q == 1 then i.OrMode? else i == Loop(Ratio(v, l)))
    case Fine(_, q) =>
      if q == 0 then i.AndMode?
      else if q == 1 then i.OrMode?
      else if q == 2 then i.OrSingleShot?
      else if q == 3 then i.Heartbeat?
      else if q == 4 then i.Marker?
      else if q == 5 then i.Wait?
      else i.IncTag?
    case FineEnd => i.AndMode?
    case Tail(_, q) => if q == 0 then i.DoLoop? else i.AndMode?
    case Goto => i.GotoLabel?
    case Outside => true
  }

  /** The memory holds a shared plan, with any operands: what every overwrite preserves. */
  ghost predicate Skeletal(v: seq<nat>, mem: seq<Instr>) {
    && Ladder(v)
    && |mem| == Length(v)
    && forall a: nat :: a < |mem| ==> Fits(v, PlaceAt(v, a), mem[a])
  }

  lemma PlanIsSkeletal(v: seq<nat>, x: Operands)
    requires Ladder(v) && Sized(v, x)
    ensures Skeletal(v, Plan(v, x))
  {
  }

  /** Passes left in the loop of level l while event e is prepared or sent. */
  function PassesLeft(v: seq<nat>, l: nat, e: nat): int
    requires Ladder(v) && 1 <= l <= Top(v)
  {
    assert Rung(v, l);
    Ratio(v, l) - (e / v[l - 1]) % Ratio(v, l)
  }

  /** The open loops of levels Top..from during event e, outermost first. */
  function OpenLoops(v: seq<nat>, e: nat, from: nat): (fs: seq<Frame>)
    requires Ladder(v) && 1 <= from <= Top(v) + 1
    ensures |fs| == Top(v) + 1 - from
  {
    seq(Top(v) + 1 - from, k requires 0 <= k < Top(v) + 1 - from =>
      Frame(2 + 3 * (k + 1), PassesLeft(v, Top(v) - k, e)))
  }

  /** Which event numbers are possible at a place. */
  predicate Possible(v: seq<nat>, p: Place, e: nat)
    requires Ladder(v)
  {
    match p
    case Start => e == 0
    case LabelOp => e == 0
    case Head(l, q) => 1 <= l <= Top(v) && q < 3 && Divides(v[l], e)
    case Fine(i, q) => i < v[0] && q < 7 && e % v[0] == i
    case FineEnd => e > 0 && Divides(v[0], e)
    case Tail(l, q) => 1 <= l <= Top(v) && q < 2 && e > 0 && Divides(v[l - 1], e) && (q == 1 ==> Divides(v[l], e))
    case Goto => e > 0 && Divides(v[Top(v)], e)
    case Outside => false
  }

  predicate Divides(d: nat, n: nat) {
    d > 0 && n % d == 0
  }

  function OpenAt(v: seq<nat>, p: Place, e: nat): seq<Frame>
    requires Ladder(v) && Possible(v, p, e)
  {
    match p
    case Start => []
    case LabelOp => []
    case Head(l, _) => OpenLoops(v, e, l + 1)
    case Fine(_, _) => OpenLoops(v, e, 1)
    case FineEnd => OpenLoops(v, e - 1, 1)
    case Tail(l, q) => OpenLoops(v, e - 1, l + q)
    case Goto => []
  }

  predicate Sent(p: Place) {
    p.Fine? && p.part > 3
  }

  /** The program counter, the open loops and the tag belong to place p and event number e. */
  ghost predicate Located(v: seq<nat>, c: Cpu, p: Place, e: nat, t0: nat) {
    && Ladder(v)
    && p == PlaceAt(v, c.pc)
    && Possible(v, p, e)
    && c.frames == OpenAt(v, p, e)
    && (p != Start ==> c.tag == t0 + e)
    && (p != Start && p != LabelOp ==> c.labelPc == 2)
  }

  /** All events before number e have been sent, and e itself once its HEARTBEAT is behind; the events
      carry consecutive tags from t0. */
  ghost predicate Counted(c: Cpu, p: Place, e: nat, t0: nat) {
    && |c.events| == e + (if Sent(p) then 1 else 0)
    && (forall k: nat :: k < |c.events| ==> c.events[k].tag == t0 + k)
  }

  /** The processor is at place p, preparing, sending or closing event number e counted from LABEL. */
  ghost predicate At(v: seq<nat>, c: Cpu, p: Place, e: nat, t0: nat) {
    Located(v, c, p, e, t0) && Counted(c, p, e, t0)
  }

  function LoopEntry(v: seq<nat>, l: nat): Place
    requires Ladder(v)
  {
    if l == 0 then Fine(0, 0) else Head(l, 0)
  }

  function NextPlace(v: seq<nat>, p: Place, e: nat): Place
    requires Ladder(v) && Possible(v, p, e)
  {
    match p
    case Start => LabelOp
    case LabelOp => LoopEntry(v, Top(v))
    case Head(l, q) => if q < 2 then Head(l, q + 1) else LoopEntry(v, l - 1)
    case Fine(i, q) => if q < 6 then Fine(i, q + 1) else if i + 1 < v[0] then Fine(i + 1, 0) else FineEnd
    case FineEnd => if Top(v) > 0 then Tail(1, 0) else Goto
    case Tail(l, q) =>
      if q == 0 then (if Divides(v[l], e) then Tail(l, 1) else LoopEntry(v, l - 1))
      else if l < Top(v) then Tail(l + 1, 0)
      else Goto
    case Goto => LoopEntry(v, Top(v))
  }

  function NextEvent(p: Place, e: nat): nat {
    if p.Fine? && p.part == 6 then e + 1 else e
  }

  // ---------------------------------------------------------------- arithmetic of the loop counters

  lemma DividesTrans(a: nat, b: nat, n: nat)
    requires Divides(a, b) && Divides(b, n)
    ensures Divides(a, n)
  {
    assert n == a * (b / a * (n / b)) by {
      assert n == b * (n / b) && b == a * (b / a);
      MulAssoc(a, b / a, n / b);
    }
    ModOfMultiple(a, b / a * (n / b));
  }

  lemma MulAssoc(a: nat, b: nat, c: nat)
    ensures a * b * c == a * (b * c)
  {
  }

  lemma ModOfMultiple(a: nat, k: nat)
    requires a > 0
    ensures a * k % a == 0 && a * k / a == k
  {
    DivModUnique(a * k, a, k, 0);
  }

  lemma DivModUnique(n: nat, d: nat, q: int, r: int)
    requires d > 0 && n == d * q + r && 0 <= r < d
    ensures n / d == q && n % d == r
  {
    var k := n / d;
    assert n == d * k + n % d;
    assert d * (k - q) == d * k - d * q;
    SmallMultiple(d, k - q);
  }

  lemma SmallMultiple(d: int, x: int)
    requires -d < d * x < d
    ensures x == 0
  {
    MultipleBounds(d, x);
  }

  lemma MultipleBounds(d: int, x: int)
    ensures d > 0 && x >= 1 ==> d * x >= d
    ensures d > 0 && x <= -1 ==> d * x <= -d
  {
    if d > 0 && x >= 1 { assert d * x >= d * 1; }
    if d > 0 && x <= -1 { assert d * x <= d * -1; }
  }

  /** Lower levels divide higher ones. */
  lemma {:induction false} LevelsDivide(v: seq<nat>, lo: nat, hi: nat)
    requires Ladder(v) && lo <= hi < |v|
    ensures v[lo] > 0 && Divides(v[lo], v[hi])
    decreases hi
  {
    if hi > 0 {
      assert Rung(v, hi);
      if lo < hi {
        LevelsDivide(v, lo, hi - 1);
        DividesTrans(v[lo], v[hi - 1], v[hi]);
      } else {
        ModOfMultiple(v[hi], 1);
      }
    } else {
      ModOfMultiple(v[hi], 1);
    }
  }

  lemma DividesDown(v: seq<nat>, lo: nat, hi: nat, e: nat)
    requires Ladder(v) && lo <= hi < |v| && Divides(v[hi], e)
    ensures Divides(v[lo], e)
  {
    LevelsDivide(v, lo, hi);
    DividesTrans(v[lo], v[hi], e);
  }

  /** Stepping back from a multiple changes the quotient, from anything else it does not. */
  lemma QuotientBefore(d: nat, e: nat)
    requires d > 0 && e > 0
    ensures (e - 1) / d == if Divides(d, e) then e / d - 1 else e / d
  {
    var q, r := e / d, e % d;
    if r == 0 {
      assert e - 1 == d * (q - 1) + (d - 1);
      DivModUnique(e - 1, d, q - 1, d - 1);
    } else {
      DivModUnique(e - 1, d, q, r - 1);
    }
  }

  /** e is a multiple of n * d exactly when its quotient by d is a multiple of n. */
  lemma DigitZero(d: nat, n: nat, e: nat)
    requires d > 0 && n > 0 && Divides(d, e)
    ensures n * d > 0
    ensures Divides(n * d, e) <==> (e / d) % n == 0
  {
    var q := e / d;
    assert e == d * q;
    if q % n == 0 {
      assert q == n * (q / n);
      MulAssoc(d, n, q / n);
      ModOfMultiple(n * d, q / n);
    }
    if Divides(n * d, e) {
      var k := e / (n * d);
      assert e == n * d * k == d * (n * k) by { MulAssoc(d, n, k); }
      ModOfMultiple(d, n * k);
      ModOfMultiple(n, k);
    }
  }

  // ---------------------------------------------------------------- the loops

  /** The innermost open loop is the last frame. */
  lemma InnermostLoop(v: seq<nat>, e: nat, l: nat)
    requires Ladder(v) && 1 <= l <= Top(v)
    ensures OpenLoops(v, e, l)
         == OpenLoops(v, e, l + 1) + [Frame(FineBase(v) - 3 * (l - 1), PassesLeft(v, l, e))]
  {
    var xs, ys := OpenLoops(v, e, l), OpenLoops(v, e, l + 1);
    assert |xs| == |ys| + 1;
    forall k: nat | k < |ys| ensures xs[k] == ys[k] {}
    assert xs[|ys|] == Frame(2 + 3 * (Top(v) - l + 1), PassesLeft(v, l, e));
  }

  /** LOOP at level l opens the loop with all its passes left. */
  lemma EnterLoop(v: seq<nat>, l: nat, e: nat)
    requires Ladder(v) && 1 <= l <= Top(v) && Divides(v[l], e)
    ensures OpenLoops(v, e, l + 1) + [Frame(FineBase(v) - 3 * (l - 1), Ratio(v, l))] == OpenLoops(v, e, l)
    ensures Divides(v[l - 1], e)
  {
    InnermostLoop(v, e, l);
    DividesDown(v, l - 1, l, e);
    DigitZero(v[l - 1], Ratio(v, l), e);
  }

  /** Between two multiples of v[0] no loop counter moves. */
  lemma NextSlot(v: seq<nat>, i: nat, e: nat)
    requires Ladder(v) && i < v[0] && e % v[0] == i
    ensures i + 1 < v[0] ==> (e + 1) % v[0] == i + 1 && OpenLoops(v, e + 1, 1) == OpenLoops(v, e, 1)
    ensures i + 1 == v[0] ==> Divides(v[0], e + 1)
  {
    var q := e / v[0];
    if i + 1 < v[0] {
      DivModUnique(e + 1, v[0], q, i + 1);
      SameLoops(v, e + 1, 1);
    } else {
      DivModUnique(e + 1, v[0], q + 1, 0);
    }
  }

  /** If level from-1 does not end before e, neither does any outer level. */
  lemma SameLoops(v: seq<nat>, e: nat, from: nat)
    requires Ladder(v) && 1 <= from <= Top(v) + 1 && e > 0 && !Divides(v[from - 1], e)
    ensures OpenLoops(v, e - 1, from) == OpenLoops(v, e, from)
  {
    forall l: nat | from <= l <= Top(v) ensures PassesLeft(v, l, e - 1) == PassesLeft(v, l, e) {
      if Divides(v[l - 1], e) { DividesDown(v, from - 1, l - 1, e); }
      assert Rung(v, l);
      QuotientBefore(v[l - 1], e);
    }
  }

  /** What DO_LOOP finds at the end of a pass of level l. */
  lemma CloseLoop(v: seq<nat>, l: nat, e: nat)
    requires Ladder(v) && 1 <= l <= Top(v) && e > 0 && Divides(v[l - 1], e)
    ensures OpenLoops(v, e - 1, l)
         == OpenLoops(v, e - 1, l + 1) + [Frame(FineBase(v) - 3 * (l - 1), PassesLeft(v, l, e - 1))]
    ensures Divides(v[l], e) ==> PassesLeft(v, l, e - 1) == 1
    ensures !Divides(v[l], e) ==>
              && PassesLeft(v, l, e - 1) > 1
              && OpenLoops(v, e, l)
              == OpenLoops(v, e - 1, l + 1) + [Frame(FineBase(v) - 3 * (l - 1), PassesLeft(v, l, e - 1) - 1)]
  {
    var d, n := v[l - 1], Ratio(v, l);
    assert Rung(v, l);
    QuotientBefore(d, e);
    DigitZero(d, n, e);
    assert e >= d by { if e < d { DivModUnique(e, d, 0, e); } }
    var q := e / d;
    assert q >= 1;
    QuotientStep(q, n);
    InnermostLoop(v, e - 1, l);
    InnermostLoop(v, e, l);
    if !Divides(v[l], e) {
      SameLoops(v, e, l + 1);
    }
  }

  lemma QuotientStep(q: nat, n: nat)
    requires q >= 1 && n >= 2
    ensures (q - 1) % n == if q % n == 0 then n - 1 else q % n - 1
  {
    var k, r := q / n, q % n;
    if r == 0 {
      assert q - 1 == n * (k - 1) + (n - 1);
      DivModUnique(q - 1, n, k - 1, n - 1);
    } else {
      DivModUnique(q - 1, n, k, r - 1);
    }
  }

  // ---------------------------------------------------------------- one step

  /** The place in memory after place p. */
  lemma PlaceAfter(v: seq<nat>, a: nat)
    requires Ladder(v) && a < Length(v)
    ensures var p, n := PlaceAt(v, a), PlaceAt(v, a + 1);
            && (p.Start? ==> n == LabelOp)
            && (p.LabelOp? ==> n == LoopEntry(v, Top(v)))
            && (p.Head? ==> n == if p.part < 2 then Head(p.level, p.part + 1) else LoopEntry(v, p.level - 1))
            && (p.Fine? && p.part < 6 ==> n == Fine(p.slot, p.part + 1))
            && (p.Fine? && p.part == 6 ==> n == if p.slot + 1 < v[0] then Fine(p.slot + 1, 0) else FineEnd)
            && (p.FineEnd? ==> n == if Top(v) > 0 then Tail(1, 0) else Goto)
            && (p.Tail? ==> n == if p.part == 0 then Tail(p.level, 1)
                                 else if p.level < Top(v) then Tail(p.level + 1, 0) else Goto)
  {
  }

  lemma LoopBodyPlace(v: seq<nat>, l: nat)
    requires Ladder(v) && l <= Top(v)
    ensures PlaceAt(v, FineBase(v) - 3 * l) == LoopEntry(v, l)
  {
  }

  lemma StepHead(v: seq<nat>, s: System, p: Place, e: nat, t0: nat)
    requires Skeletal(v, s.mem) && Located(v, s.cpu, p, e, t0) && p.Head?
    ensures Located(v, Step(s).cpu, NextPlace(v, p, e), e, t0)
  {
    if p.part == 2 {
      StepLoop(v, s, p, e, t0);
    } else {
      assert Fits(v, p, s.mem[s.cpu.pc]);
      PlaceAfter(v, s.cpu.pc);
    }
  }

  lemma StepLoop(v: seq<nat>, s: System, p: Place, e: nat, t0: nat)
    requires Skeletal(v, s.mem) && Located(v, s.cpu, p, e, t0) && p.Head? && p.part == 2
    ensures Located(v, Step(s).cpu, NextPlace(v, p, e), e, t0)
  {
    assert Fits(v, p, s.mem[s.cpu.pc]);
    PlaceAfter(v, s.cpu.pc);
    EnterLoop(v, p.level, e);
  }

  lemma StepFine(v: seq<nat>, s: System, p: Place, e: nat, t0: nat)
    requires Skeletal(v, s.mem) && Located(v, s.cpu, p, e, t0) && p.Fine?
    ensures Located(v, Step(s).cpu, NextPlace(v, p, e), NextEvent(p, e), t0)
  {
    var c := s.cpu;
    assert Fits(v, p, s.mem[c.pc]);
    PlaceAfter(v, c.pc);
    NextSlot(v, p.slot, e);
  }

  /** DO_LOOP leaves the loop exactly at the multiples of v[l], else it starts the next pass. */
  lemma DoLoopAt(v: seq<nat>, c: Cpu, l: nat, e: nat, t0: nat)
    requires Located(v, c, Tail(l, 0), e, t0)
    ensures var r := StepDoLoop(c);
            if Divides(v[l], e)
            then r == Next(c).(frames := OpenLoops(v, e - 1, l + 1))
            else r == c.(pc := FineBase(v) - 3 * (l - 1), frames := OpenLoops(v, e, l))
  {
    CloseLoop(v, l, e);
    var n := |c.frames| - 1;
    assert c.frames[..n] == OpenLoops(v, e - 1, l + 1);
    var top := c.frames[n];
    assert c.frames[n := top.(left := top.left - 1)] == c.frames[..n] + [top.(left := top.left - 1)];
  }

  lemma DoLoopLocated(v: seq<nat>, c: Cpu, l: nat, e: nat, t0: nat)
    requires Located(v, c, Tail(l, 0), e, t0)
    ensures Located(v, StepDoLoop(c), NextPlace(v, Tail(l, 0), e), e, t0)
  {
    DoLoopAt(v, c, l, e, t0);
    hide OpenLoops, StepDoLoop;
    if Divides(v[l], e) {
      PlaceAfter(v, c.pc);
    } else {
      LoopBodyPlace(v, l - 1);
    }
  }

  lemma StepTailLoop(v: seq<nat>, s: System, l: nat, e: nat, t0: nat)
    requires Skeletal(v, s.mem) && Located(v, s.cpu, Tail(l, 0), e, t0)
    ensures Located(v, Step(s).cpu, NextPlace(v, Tail(l, 0), e), e, t0)
  {
    assert Fits(v, Tail(l, 0), s.mem[s.cpu.pc]);
    assert Step(s).cpu == StepDoLoop(s.cpu);
    DoLoopLocated(v, s.cpu, l, e, t0);
  }

  lemma StepTailAnd(v: seq<nat>, s: System, l: nat, e: nat, t0: nat)
    requires Skeletal(v, s.mem) && Located(v, s.cpu, Tail(l, 1), e, t0)
    ensures Located(v, Step(s).cpu, NextPlace(v, Tail(l, 1), e), e, t0)
  {
    assert Fits(v, Tail(l, 1), s.mem[s.cpu.pc]);
    PlaceAfter(v, s.cpu.pc);
  }

  lemma StepOther(v: seq<nat>, s: System, p: Place, e: nat, t0: nat)
    requires Skeletal(v, s.mem) && Located(v, s.cpu, p, e, t0) && (p.Start? || p.LabelOp? || p.FineEnd? || p.Goto?)
    requires p == Start ==> s.mem[0] == SetTag(t0)
    ensures Located(v, Step(s).cpu, NextPlace(v, p, e), e, t0)
  {
    var c := s.cpu;
    assert Fits(v, p, s.mem[c.pc]);
    PlaceAfter(v, c.pc);
    LoopBodyPlace(v, Top(v));
    if p.LabelOp? { LevelsDivide(v, 0, Top(v)); LevelsDivide(v, Top(v), Top(v)); ModZero(v[Top(v)]); }
  }

  lemma ModZero(d: nat)
    requires d > 0
    ensures 0 % d == 0
  {
  }

  lemma StepKeepsSkeleton(v: seq<nat>, s: System)
    requires Skeletal(v, s.mem)
    ensures Skeletal(v, Step(s).mem)
  {
  }

  lemma StepCounts(v: seq<nat>, s: System, p: Place, e: nat, t0: nat)
    requires Skeletal(v, s.mem) && At(v, s.cpu, p, e, t0)
    ensures Counted(Step(s).cpu, NextPlace(v, p, e), NextEvent(p, e), t0)
  {
    assert Fits(v, p, s.mem[s.cpu.pc]);
  }

  /** Each place follows another exactly as NextPlace says, for any operands. */
  lemma ControlStep(v: seq<nat>, s: System, p: Place, e: nat, t0: nat)
    requires Skeletal(v, s.mem) && At(v, s.cpu, p, e, t0)
    requires p == Start ==> s.mem[0] == SetTag(t0)
    ensures Skeletal(v, Step(s).mem)
    ensures At(v, Step(s).cpu, NextPlace(v, p, e), NextEvent(p, e), t0)
  {
    StepKeepsSkeleton(v, s);
    StepCounts(v, s, p, e, t0);
    match p {
      case Head(_, _) => StepHead(v, s, p, e, t0);
      case Fine(_, _) => StepFine(v, s, p, e, t0);
      case Tail(l, q) => if q == 0 { StepTailLoop(v, s, l, e, t0); } else { StepTailAnd(v, s, l, e, t0); }
      case _ => StepOther(v, s, p, e, t0);
    }
  }

  // ---------------------------------------------------------------- progress

  /** A bound on the instructions left before the next HEARTBEAT is done. */
  function Distance(v: seq<nat>, p: Place): nat
    requires Ladder(v)
    requires p.Head? ==> p.part < 3
    requires p.Fine? ==> p.part < 7
    requires p.Tail? ==> 1 <= p.level <= Top(v) && p.part < 2
  {
    var entry := 3 * Top(v) + 4;
    match p
    case Start => entry + 2
    case LabelOp => entry + 1
    case Head(l, q) => 3 * l - q + 4
    case Fine(i, q) => if q < 4 then 4 - q else if i + 1 < v[0] then 11 - q else entry + 2 * Top(v) + 10 - q
    case FineEnd => entry + 2 * Top(v) + 2
    case Tail(l, q) => entry + 1 + 2 * (Top(v) - l) + 2 - q
    case Goto => entry + 1
    case Outside => 0
  }

  lemma DistanceFalls(v: seq<nat>, p: Place, e: nat)
    requires Ladder(v) && Possible(v, p, e) && Possible(v, NextPlace(v, p, e), NextEvent(p, e))
    requires !(p.Fine? && p.part == 3)
    ensures Distance(v, NextPlace(v, p, e)) < Distance(v, p)
  {
  }

  /** A HEARTBEAT sends the register with the current tag; nothing else in a shared plan sends. */
  lemma StepSends(v: seq<nat>, s: System, p: Place)
    requires Skeletal(v, s.mem) && s.cpu.pc < |s.mem| && p == PlaceAt(v, s.cpu.pc)
    ensures Step(s).cpu.events ==
            if p.Fine? && p.part == 3 then s.cpu.events + [Event(s.cpu.tag, s.cpu.mode)] else s.cpu.events
  {
    assert Fits(v, p, s.mem[s.cpu.pc]);
  }

  /** From anywhere in a running plan the next event is sent after finitely many steps. */
  lemma {:induction false} NextEventComes(v: seq<nat>, s: System, p: Place, e: nat, t0: nat)
    returns (steps: nat, p': Place, e': nat)
    requires Skeletal(v, s.mem) && At(v, s.cpu, p, e, t0)
    requires p == Start ==> s.mem[0] == SetTag(t0)
    ensures |Run(s, steps).cpu.events| == |s.cpu.events| + 1
    ensures Skeletal(v, Run(s, steps).mem)
    ensures At(v, Run(s, steps).cpu, p', e', t0) && p' != Start
    decreases Distance(v, p)
  {
    hide OpenAt, PlaceAt, Fits, Step;
    ControlStep(v, s, p, e, t0);
    StepSends(v, s, p);
    p', e' := NextPlace(v, p, e), NextEvent(p, e);
    if p.Fine? && p.part == 3 {
      steps := 1;
      assert Run(s, 1) == Step(s);
    } else {
      DistanceFalls(v, p, e);
      var rest;
      rest, p', e' := NextEventComes(v, Step(s), p', e', t0);
      steps := rest + 1;
    }
  }

  /** A started plan sends as many events as one waits for. */
  lemma {:induction false} EventsKeepComing(v: seq<nat>, s: System, p: Place, e: nat, t0: nat,
        n: nat) returns (steps: nat)
    requires Skeletal(v, s.mem) && At(v, s.cpu, p, e, t0)
    requires p == Start ==> s.mem[0] == SetTag(t0)
    ensures |Run(s, steps).cpu.events| == |s.cpu.events| + n
    decreases n
  {
    hide At, Skeletal;
    if n == 0 {
      steps := 0;
    } else {
      var first, p', e' := NextEventComes(v, s, p, e, t0);
      var rest := EventsKeepComing(v, Run(s, first), p', e', t0, n - 1);
      RunAdds(s, first, rest);
      steps := first + rest;
    }
  }

  // ---------------------------------------------------------------- one pass of the infinite loop

  /** Event numbers of the pass that ends with event number goal - 1. */
  predicate InPass(v: seq<nat>, p: Place, e: nat, goal: nat)
    requires Ladder(v)
  {
    && Divides(v[Top(v)], goal) && goal <= e + v[Top(v)]
    && match p
       case Head(_, _) => e < goal
       case Fine(_, _) => e < goal
       case FineEnd => e <= goal < e + v[Top(v)]
       case Tail(_, _) => e <= goal < e + v[Top(v)]
       case Goto => e == goal
       case _ => false
  }

  lemma NextInPass(v: seq<nat>, p: Place, e: nat, goal: nat)
    requires Ladder(v) && Possible(v, p, e) && InPass(v, p, e, goal) && p != Goto
    ensures InPass(v, NextPlace(v, p, e), NextEvent(p, e), goal)
  {
    if p.Tail? && p.part == 0 && e == goal {
      DividesDown(v, p.level, Top(v), goal);
    }
    if p.Fine? && p.part == 6 {
      NextSlot(v, p.slot, e);
      DividesDown(v, 0, Top(v), goal);
    }
    if NextPlace(v, p, e) == Goto {
      LastOfPass(v[Top(v)], e, goal);
    }
  }

  /** Of the last d numbers up to a multiple of d only that one is a multiple. */
  lemma LastOfPass(d: nat, e: nat, goal: nat)
    requires Divides(d, e) && Divides(d, goal) && e <= goal < e + d
    ensures e == goal
  {
    SmallMultiple(d, goal / d - e / d);
    assert goal - e == d * (goal / d - e / d);
  }

  /** From one arrival at the head of the outermost loop to the jump back at its end, the plan emits and tags exactly
      v[Top(v)] events. */
  lemma OnePassEmits(v: seq<nat>, s: System, e: nat, t0: nat) returns (steps: nat)
    requires Skeletal(v, s.mem) && At(v, s.cpu, LoopEntry(v, Top(v)), e, t0)
    ensures var r := Run(s, steps).cpu;
            && PlaceAt(v, r.pc) == Goto
            && |r.events| == |s.cpu.events| + v[Top(v)] && r.tag == s.cpu.tag + v[Top(v)]
            && forall k: nat :: |s.cpu.events| <= k < |r.events| ==> r.events[k].tag == s.cpu.tag + (k - |s.cpu.events|)
    ensures forall j: nat :: j < steps ==> PlaceAt(v, Run(s, j).cpu.pc) != Goto
  {
    NextMultiple(v[Top(v)], e);
    steps := ReachGoto(v, s, LoopEntry(v, Top(v)), e, t0, e + v[Top(v)]);
  }

  lemma NextMultiple(d: nat, e: nat)
    requires Divides(d, e)
    ensures Divides(d, e + d)
  {
    DivModUnique(e + d, d, e / d + 1, 0);
  }

  lemma {:induction false} ReachGoto(v: seq<nat>, s: System, p: Place, e: nat, t0: nat, goal: nat) returns (steps: nat)
    requires Skeletal(v, s.mem) && At(v, s.cpu, p, e, t0) && InPass(v, p, e, goal)
    ensures At(v, Run(s, steps).cpu, Goto, goal, t0)
    ensures forall j: nat :: j < steps ==> PlaceAt(v, Run(s, j).cpu.pc) != Goto
    decreases goal - e - (if Sent(p) then 1 else 0), Distance(v, p)
  {
    hide OpenAt, PlaceAt, Fits, Step;
    if p == Goto {
      steps := 0;
    } else {
      ControlStep(v, s, p, e, t0);
      NextInPass(v, p, e, goal);
      if !(p.Fine? && p.part == 3) { DistanceFalls(v, p, e); }
      var rest := ReachGoto(v, Step(s), NextPlace(v, p, e), NextEvent(p, e), t0, goal);
      steps := rest + 1;
      forall j: nat | j < steps ensures PlaceAt(v, Run(s, j).cpu.pc) != Goto {
        if j > 0 { assert Run(s, j) == Run(Step(s), j - 1); }
      }
    }
  }
}
