/** Rewriting the shared plan while it runs. */
module LiveRewrite {
  import opened ModeBits
  import opened RunPlanMachine
  import opened SharedPlan
  import opened DutyRatio
  import opened PlanGenerator
  import opened PlanControl
  import opened BitRun
  import opened DutyCycle

  /** Part of the interleaving of a rewriting pass with the running processor: any instructions of the target
      may be written, in any order. */
  predicate Towards(mvs: seq<Move>, target: seq<Instr>) {
    forall i :: 0 <= i < |mvs| && mvs[i].Write? ==> mvs[i].addr < |target| && mvs[i].instr == target[mvs[i].addr]
  }

  /** No instruction in memory can switch bit b on. */
  ghost predicate Dark(mem: seq<Instr>, b: Bit) {
    forall a: nat :: a < |mem| && (mem[a].OrMode? || mem[a].OrSingleShot?) ==> !On(mem[a].mask, b)
  }

  /** No operand set by a subsystem's neighbours carries bit b. */
  ghost predicate Unused(x: Operands, b: Bit) {
    && (forall k: nat :: k < |x.ors| ==> b !in x.ors[k])
    && (forall k: nat :: k < |x.shots| ==> b !in x.shots[k])
  }

  lemma UnusedIsDark(v: seq<nat>, x: Operands, b: Bit)
    requires Ladder(v) && Sized(v, x) && Unused(x, b)
    ensures Dark(Plan(v, x), b)
  {
  }

  /** A move keeps the plan's skeleton and a running processor on its track. */
  lemma MoveOnTrack(v: seq<nat>, s: System, mv: Move, target: seq<Instr>, p: Place, e: nat, t0: nat)
    returns (p': Place, e': nat)
    requires Skeletal(v, s.mem) && Skeletal(v, target) && Towards([mv], target)
    requires At(v, s.cpu, p, e, t0) && p != Start
    ensures Skeletal(v, Apply(s, mv).mem) && At(v, Apply(s, mv).cpu, p', e', t0) && p' != Start
    ensures mv.Exec? ==> p' == NextPlace(v, p, e) && e' == NextEvent(p, e)
    ensures mv.Write? ==> p' == p && e' == e && Apply(s, mv).cpu == s.cpu
  {
    if mv.Exec? {
      ControlStep(v, s, p, e, t0);
      p', e' := NextPlace(v, p, e), NextEvent(p, e);
    } else {
      assert mv == [mv][0];
      p', e' := p, e;
    }
  }

  // ---------------------------------------------------------------- pass 1: AND masks only

  lemma DarkMove(s: System, mv: Move, target: seq<Instr>, b: Bit)
    requires Dark(s.mem, b) && Dark(target, b) && |target| == |s.mem| && Towards([mv], target)
    requires !On(s.cpu.mode, b)
    ensures Dark(Apply(s, mv).mem, b) && !On(Apply(s, mv).cpu.mode, b)
  {
    if mv.Write? {
      assert mv == [mv][0];
    } else if s.cpu.pc < |s.mem| {
      StepEffect(s, b);
    }
  }

  /** While no instruction can set the bit, it stays off in the register and in every event. */
  lemma {:induction false} DarkPlay(v: seq<nat>, s: System, mvs: seq<Move>, target: seq<Instr>, b: Bit, p: Place,
                                    e: nat, t0: nat)
    returns (p': Place, e': nat)
    requires Skeletal(v, s.mem) && Skeletal(v, target) && Towards(mvs, target)
    requires At(v, s.cpu, p, e, t0) && p != Start
    requires Dark(s.mem, b) && Dark(target, b) && !On(s.cpu.mode, b)
    ensures var r := Play(s, mvs);
            && Skeletal(v, r.mem) && At(v, r.cpu, p', e', t0) && p' != Start
            && Dark(r.mem, b) && !On(r.cpu.mode, b)
            && s.cpu.events <= r.cpu.events
            && forall k: nat :: |s.cpu.events| <= k < |r.cpu.events| ==> !EventOn(r.cpu, k, b)
    decreases |mvs|
  {
    if mvs == [] {
      p', e' := p, e;
    } else {
      assert Towards([mvs[0]], target);
      p', e' := MoveOnTrack(v, s, mvs[0], target, p, e, t0);
      DarkMove(s, mvs[0], target, b);
      if mvs[0].Exec? { StepSends(v, s, p); }
      var r := Apply(s, mvs[0]);
      p', e' := DarkPlay(v, r, mvs[1..], target, b, p', e', t0);
      var d := Play(r, mvs[1..]).cpu;
      forall k: nat | |s.cpu.events| <= k < |d.events| ensures !EventOn(d, k, b) {
        if k < |r.cpu.events| { assert d.events[k] == r.cpu.events[k]; }
      }
    }
  }

  // ---------------------------------------------------------------- pass 2: the OR masks arrive

  /** At bit b the memory does no more than the plan x: ANDs keep less, ORs set less, no single shot waits. */
  ghost predicate Within(v: seq<nat>, mem: seq<Instr>, x: Operands, b: Bit)
    requires Ladder(v) && Sized(v, x)
  {
    && Skeletal(v, mem)
    && forall a: nat :: a < |mem| ==>
         && (mem[a].AndMode? ==> Plan(v, x)[a].AndMode? && (On(mem[a].mask, b) ==> On(Plan(v, x)[a].mask, b)))
         && (mem[a].OrMode? ==> Plan(v, x)[a].OrMode? && (On(mem[a].mask, b) ==> On(Plan(v, x)[a].mask, b)))
         && (mem[a].OrSingleShot? ==> !On(mem[a].mask, b))
  }

  predicate UpperBound(k: Claim) {
    k.OnlyIn? || k.OnlyEveryNth?
  }

  /** A step in such a memory switches the bit on only if the plan x would. */
  lemma BoundedEffect(v: seq<nat>, x: Operands, s: System, b: Bit)
    requires Ladder(v) && Sized(v, x) && Quiet(v, x) && Within(v, s.mem, x, b) && s.cpu.pc < Length(v)
    ensures var on := On(s.cpu.mode, b);
            On(Step(s).cpu.mode, b) ==> NextBit(v, x, b, PlaceAt(v, s.cpu.pc), on)
    ensures Within(v, Step(s).mem, x, b)
  {
    StepEffect(s, b);
    NextBitIsEffect(v, x, b, s.cpu.pc, On(s.cpu.mode, b));
    StepKeepsSkeleton(v, s);
  }

  lemma BoundedWrite(v: seq<nat>, x: Operands, s: System, mv: Move, b: Bit)
    requires Ladder(v) && Sized(v, x) && Quiet(v, x) && Within(v, s.mem, x, b) && Towards([mv], Plan(v, x)) && mv.Write?
    ensures Within(v, Apply(s, mv).mem, x, b)
  {
    PlanIsSkeletal(v, x);
    assert mv == [mv][0];
    WithinPlan(v, x, b);
  }

  lemma BoundedMove(v: seq<nat>, x: Operands, s: System, mv: Move, b: Bit, k: Claim, p: Place, e: nat, t0: nat)
    requires Ladder(v) && Sized(v, x) && Quiet(v, x) && Within(v, s.mem, x, b) && Towards([mv], Plan(v, x))
    requires At(v, s.cpu, p, e, t0) && p != Start
    requires UpperBound(k) && Grounds(v, x, b, k) && Holds(v, k, p, e, On(s.cpu.mode, b))
    ensures Within(v, Apply(s, mv).mem, x, b)
    ensures mv.Exec? ==> Holds(v, k, NextPlace(v, p, e), NextEvent(p, e), On(Apply(s, mv).cpu.mode, b))
  {
    if mv.Exec? {
      var on, next := On(s.cpu.mode, b), NextBit(v, x, b, p, On(s.cpu.mode, b));
      BoundedEffect(v, x, s, b);
      HoldsNext(v, x, b, k, p, e, on);
      OffIsBelow(v, k, NextPlace(v, p, e), NextEvent(p, e), next, On(Step(s).cpu.mode, b));
    } else {
      BoundedWrite(v, x, s, mv, b);
    }
  }

  /** An upper bound that holds for a bit that may be on holds for one that is off. */
  lemma OffIsBelow(v: seq<nat>, k: Claim, p: Place, e: nat, on: bool, less: bool)
    requires Ladder(v) && UpperBound(k) && (Leveled(k) ==> k.level <= Top(v))
    requires Holds(v, k, p, e, on) && (less ==> on)
    ensures Holds(v, k, p, e, less)
  {
  }

  lemma WithinPlan(v: seq<nat>, x: Operands, b: Bit)
    requires Ladder(v) && Sized(v, x) && Quiet(v, x)
    ensures Within(v, Plan(v, x), x, b)
  {
    PlanIsSkeletal(v, x);
  }

  /** The events since `from` that carry the bit are claimed. */
  ghost predicate OnlyClaimed(v: seq<nat>, k: Claim, c: Cpu, from: nat, b: Bit)
    requires Ladder(v)
  {
    forall i: nat :: from <= i < |c.events| && EventOn(c, i, b) ==> Claimed(v, k, i, true)
  }

  lemma BoundedSend(v: seq<nat>, s: System, b: Bit, k: Claim, p: Place, e: nat, t0: nat, from: nat)
    requires Skeletal(v, s.mem) && At(v, s.cpu, p, e, t0)
    requires UpperBound(k) && (Leveled(k) ==> 1 <= k.level <= Top(v)) && Holds(v, k, p, e, On(s.cpu.mode, b))
    requires OnlyClaimed(v, k, s.cpu, from, b)
    ensures OnlyClaimed(v, k, Step(s).cpu, from, b)
  {
    StepSends(v, s, p);
    var d := Step(s).cpu;
    forall i: nat | from <= i < |d.events| && EventOn(d, i, b) ensures Claimed(v, k, i, true) {
      if i < |s.cpu.events| {
        assert EventOn(s.cpu, i, b);
      } else {
        HoldsAtEvent(v, k, p, e, On(s.cpu.mode, b));
      }
    }
  }

  lemma {:induction false} BoundedPlay(v: seq<nat>, x: Operands, s: System, mvs: seq<Move>, b: Bit, k: Claim, p: Place,
                                       e: nat, t0: nat, from: nat)
    returns (p': Place, e': nat)
    requires Ladder(v) && Sized(v, x) && Quiet(v, x) && Within(v, s.mem, x, b) && Towards(mvs, Plan(v, x))
    requires At(v, s.cpu, p, e, t0) && p != Start
    requires UpperBound(k) && Grounds(v, x, b, k) && Holds(v, k, p, e, On(s.cpu.mode, b))
    requires OnlyClaimed(v, k, s.cpu, from, b)
    ensures OnlyClaimed(v, k, Play(s, mvs).cpu, from, b)
    ensures At(v, Play(s, mvs).cpu, p', e', t0) && p' != Start && Holds(v, k, p', e', On(Play(s, mvs).cpu.mode, b))
    decreases |mvs|
  {
    if mvs == [] {
      p', e' := p, e;
    } else {
      assert Towards([mvs[0]], Plan(v, x));
      PlanIsSkeletal(v, x);
      p', e' := MoveOnTrack(v, s, mvs[0], Plan(v, x), p, e, t0);
      BoundedMove(v, x, s, mvs[0], b, k, p, e, t0);
      if mvs[0].Exec? { BoundedSend(v, s, b, k, p, e, t0, from); }
      p', e' := BoundedPlay(v, x, Apply(s, mvs[0]), mvs[1..], b, k, p', e', t0, from);
    }
  }

  /** The upper bound that belongs to a request. */
  lemma BoundOf(v: seq<nat>, prev: Operands, q: Request, b: Bit) returns (k: Claim)
    requires Ladder(v) && Sized(v, prev) && Unused(prev, b) && Usable(v, q.duty) && b in q.bits
    ensures UpperBound(k) && Grounds(v, Joined(v, prev, q, true), b, k)
    ensures forall e: nat :: Claimed(v, k, e, true) ==> Wanted(v, q, e)
    ensures q.duty.n > v[0] ==> k.OnlyEveryNth? && v[k.level] == q.duty.n
    ensures forall p: Place, e: nat :: Holds(v, k, p, e, false)
  {
    var x := Joined(v, prev, q, true);
    if q.duty.n <= v[0] {
      k := OnlyIn(set i: nat | i < v[0] && Wanted(v, q, i));
      forall i: nat | i < v[0] && i !in k.pattern ensures !FineAnd(v, x, i, b) && !FineOr(v, x, i, b) {
        JoinedFine(v, prev, q, b, i);
      }
      forall e: nat | Claimed(v, k, e, true) ensures Wanted(v, q, e) {
        WantedBySlot(v, q, e);
      }
    } else {
      var level := LevelOf(v, q.duty.n);
      k := OnlyEveryNth(level);
      forall i: nat | i < v[0] ensures !FineOr(v, x, i, b) && (i > 0 ==> !FineAnd(v, x, i, b)) {
        JoinedFine(v, prev, q, b, i);
      }
      forall l: nat | 1 <= l < level ensures !CoarseOr(v, x, l, b) {
        JoinedCoarse(v, prev, q, b, l);
      }
    }
  }

  /** Both passes of a join, interleaved with the processor in any way, from wherever the plan is; the plan is not
      using the bit. */
  ghost predicate Joining(v: seq<nat>, prev: Operands, q: Request, b: Bit, s: System, p: Place, e: nat, t0: nat,
                          pass1: seq<Move>, pass2: seq<Move>)
    requires Ladder(v) && Sized(v, prev)
  {
    && Usable(v, q.duty) && b in q.bits && Unused(prev, b) && !On(s.cpu.mode, b)
    && s.mem == Plan(v, prev) && At(v, s.cpu, p, e, t0) && p != Start
    && Towards(pass1, Plan(v, JoinPass(v, prev, q, false)))
    && Play(s, pass1).mem == Plan(v, JoinPass(v, prev, q, false))
    && Towards(pass2, Plan(v, JoinPass(v, prev, q, true)))
  }

  /** Where the processor is after both passes, and what the bit is then at most. */
  lemma AfterBothPasses(v: seq<nat>, prev: Operands, q: Request, b: Bit, s: System, p: Place, e: nat, t0: nat,
                        pass1: seq<Move>, pass2: seq<Move>)
    returns (k: Claim, p': Place, e': nat)
    requires Ladder(v) && Sized(v, prev) && Joining(v, prev, q, b, s, p, e, t0, pass1, pass2)
    ensures var r := Play(s, pass1 + pass2);
            && UpperBound(k) && Grounds(v, JoinPass(v, prev, q, true), b, k)
            && (forall i: nat :: Claimed(v, k, i, true) ==> Wanted(v, q, i))
            && (q.duty.n > v[0] ==> k.OnlyEveryNth? && v[k.level] == q.duty.n)
            && At(v, r.cpu, p', e', t0) && p' != Start && Holds(v, k, p', e', On(r.cpu.mode, b))
            && OnlyClaimed(v, k, r.cpu, |s.cpu.events|, b)
  {
    var x1, x := JoinPass(v, prev, q, false), JoinPass(v, prev, q, true);
    PlanIsSkeletal(v, prev);
    PlanIsSkeletal(v, x1);
    UnusedIsDark(v, prev, b);
    assert Unused(x1, b);
    UnusedIsDark(v, x1, b);
    var p1, e1 := DarkPlay(v, s, pass1, Plan(v, x1), b, p, e, t0);
    var mid := Play(s, pass1);
    PlayAdds(s, pass1, pass2);
    PreparedIsWithin(v, Found(v, prev), q, b);
    k := BoundOf(v, Found(v, prev), q, b);
    p', e' := BoundedPlay(v, x, mid, pass2, b, k, p1, e1, t0, |s.cpu.events|);
  }

  /** The two-pass join is safe while the plan runs: the new bit goes out with wanted events only. */
  lemma TwoPassJoinIsSafe(v: seq<nat>, prev: Operands, q: Request, b: Bit, s: System, p: Place, e: nat, t0: nat,
                          pass1: seq<Move>, pass2: seq<Move>, i: nat)
    requires Ladder(v) && Sized(v, prev) && Joining(v, prev, q, b, s, p, e, t0, pass1, pass2)
    requires |s.cpu.events| <= i < |Play(s, pass1 + pass2).cpu.events|
    requires EventOn(Play(s, pass1 + pass2).cpu, i, b)
    ensures Wanted(v, q, i)
  {
    var k, p', e' := AfterBothPasses(v, prev, q, b, s, p, e, t0, pass1, pass2);
    assert Claimed(v, k, i, true);
  }

  /** And it is exact once the second pass is complete: after the event then in progress the bit goes out with
      exactly the wanted events, in every run, if the masks found do not disturb the pattern. */
  lemma LiveJoinIsExact(v: seq<nat>, prev: Operands, q: Request, b: Bit, s: System, p: Place, e: nat, t0: nat,
                        pass1: seq<Move>, pass2: seq<Move>, steps: nat, i: nat)
    requires Ladder(v) && Sized(v, prev) && Joining(v, prev, q, b, s, p, e, t0, pass1, pass2)
    requires Undisturbed(v, prev, q, b)
    requires Play(s, pass1 + pass2).mem == Plan(v, JoinPass(v, prev, q, true))
    requires |Play(s, pass1 + pass2).cpu.events| < i < |Run(Play(s, pass1 + pass2), steps).cpu.events|
    ensures EventOn(Run(Play(s, pass1 + pass2), steps).cpu, i, b) == Wanted(v, q, i)
  {
    var r, x := Play(s, pass1 + pass2), JoinPass(v, prev, q, true);
    var bound, p', e' := AfterBothPasses(v, prev, q, b, s, p, e, t0, pass1, pass2);
    assert Undisturbed(v, Found(v, prev), q, b);
    var k := WantedClaim(v, Found(v, prev), q, b);
    var n := |r.cpu.events|;
    BoundedIsLate(v, k, bound, r.cpu, p', e', t0, b);
    LateRuns(v, x, b, k, r, p', e', t0, n, steps);
    assert Claimed(v, k, i, EventOn(Run(r, steps).cpu, i, b));
  }

  /** Within its upper bound the bit is at most one event late. */
  lemma BoundedIsLate(v: seq<nat>, k: Claim, bound: Claim, c: Cpu, p: Place, e: nat, t0: nat, b: Bit)
    requires Ladder(v) && At(v, c, p, e, t0) && (k.Exactly? || k.EveryNth?) && UpperBound(bound)
    requires k.EveryNth? ==>
      1 <= k.level <= Top(v) && bound.OnlyEveryNth? && bound.level <= Top(v) && v[bound.level] == v[k.level]
    requires bound.OnlyEveryNth? ==> bound.level <= Top(v)
    requires Holds(v, bound, p, e, On(c.mode, b))
    ensures Late(v, k, p, e, On(c.mode, b), |c.events|)
  {
    AnywhereIsLate(v, k, c, p, e, t0, b);
  }

  lemma PreparedIsWithin(v: seq<nat>, prev: Operands, q: Request, b: Bit)
    requires Ladder(v) && Sized(v, prev) && Quiet(v, prev)
    ensures Within(v, Plan(v, Joined(v, prev, q, false)), Joined(v, prev, q, true), b)
  {
    var x1, x := Joined(v, prev, q, false), Joined(v, prev, q, true);
    PlanIsSkeletal(v, x1);
    forall a: nat | a < Length(v)
      ensures var i, j := Plan(v, x1)[a], Plan(v, x)[a];
              && (i.AndMode? ==> j == i)
              && (i.OrMode? ==> j.OrMode? && (On(i.mask, b) ==> On(j.mask, b)))
              && (i.OrSingleShot? ==> !On(i.mask, b))
    {
      var p := PlaceAt(v, a);
      assert Plan(v, x1)[a] == InstrOf(v, x1, p) && Plan(v, x)[a] == InstrOf(v, x, p);
    }
  }
}
