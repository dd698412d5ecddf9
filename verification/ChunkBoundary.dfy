/** The moment between two chunks of a single-shot join: when the wait of the software is one event too short. */
module ChunkBoundary {
  import opened ModeBits
  import opened RunPlanMachine
  import opened SharedPlan
  import opened PlanControl
  import opened BitRun
  import opened LiveRewrite
  import opened SingleShot
  import opened ShotRun
  import opened SingleShotJoin
  import Neighbours

  // ---------------------------------------------------------------- passes written at one go

  /** All instructions from address i on, in ascending order. */
  function WritesFrom(target: seq<Instr>, i: nat): seq<Move>
    requires i <= |target|
    decreases |target| - i
  {
    if i == |target| then [] else [Write(i, target[i])] + WritesFrom(target, i + 1)
  }

  function From(i: nat, n: nat): set<nat> {
    NumbersBelow(n) - NumbersBelow(i)
  }

  lemma {:induction false} PlayWrites(s: System, target: seq<Instr>, i: nat)
    requires i <= |target| == |s.mem| && s.mem[..i] == target[..i]
    ensures Play(s, WritesFrom(target, i)) == s.(mem := target)
    ensures Towards(WritesFrom(target, i), target)
    ensures OncePass(WritesFrom(target, i), target, From(i, |target|))
    ensures TodoAfter(WritesFrom(target, i), From(i, |target|)) == {}
    decreases |target| - i
  {
    if i < |target| {
      var r := Apply(s, Write(i, target[i]));
      assert r.mem[..i + 1] == target[..i + 1];
      PlayWrites(r, target, i + 1);
      assert WritesFrom(target, i)[1..] == WritesFrom(target, i + 1);
      assert From(i, |target|) - {i} == From(i + 1, |target|);
    } else {
      assert s.mem == target;
    }
  }

  lemma WriteAll(v: seq<nat>, s: System, target: seq<Instr>)
    requires Ladder(v) && |target| == |s.mem| == Length(v)
    ensures Play(s, WritesFrom(target, 0)) == s.(mem := target)
    ensures Towards(WritesFrom(target, 0), target)
    ensures OncePass(WritesFrom(target, 0), target, Addresses(v))
    ensures TodoAfter(WritesFrom(target, 0), Addresses(v)) == {}
  {
    PlayWrites(s, target, 0);
    assert From(0, |target|) == Addresses(v);
  }

  lemma TowardsAdds(xs: seq<Move>, ys: seq<Move>, target: seq<Instr>)
    requires Towards(xs, target) && Towards(ys, target)
    ensures Towards(xs + ys, target)
  {
  }

  // ---------------------------------------------------------------- runs to a given place

  lemma {:induction false} StaysAt(v: seq<nat>, s: System, p: Place, e: nat, t0: nat, steps: nat)
    returns (p': Place, e': nat)
    requires Skeletal(v, s.mem) && At(v, s.cpu, p, e, t0) && p != Start
    ensures At(v, Run(s, steps).cpu, p', e', t0) && p' != Start
    decreases steps
  {
    if steps == 0 {
      p', e' := p, e;
    } else {
      ControlStep(v, s, p, e, t0);
      p', e' := StaysAt(v, Step(s), NextPlace(v, p, e), NextEvent(p, e), t0, steps - 1);
    }
  }

  /** The tag advances as far as one waits for. */
  lemma TagAdvances(v: seq<nat>, s: System, p: Place, e: nat, t0: nat, n: nat) returns (steps: nat)
    requires Skeletal(v, s.mem) && At(v, s.cpu, p, e, t0) && p != Start
    ensures Run(s, steps).cpu.tag > s.cpu.tag + n
  {
    steps := EventsKeepComing(v, s, p, e, t0, n + 2);
    var p', e' := StaysAt(v, s, p, e, t0, steps);
  }

  /** The fine slots end with every multiple of their number. */
  lemma {:induction false} ReachFineEnd(v: seq<nat>, s: System, p: Place, e: nat, t0: nat, goal: nat)
    returns (steps: nat)
    requires Skeletal(v, s.mem) && At(v, s.cpu, p, e, t0) && p != Start && e < goal && Divides(v[0], goal)
    ensures At(v, Run(s, steps).cpu, FineEnd, goal, t0)
    decreases goal - e, goal - e - (if Sent(p) then 1 else 0), Distance(v, p)
  {
    ControlStep(v, s, p, e, t0);
    if p.Fine? && p.part == 6 && e + 1 == goal {
      NextSlot(v, p.slot, e);
      steps := 1;
      assert Run(s, 1) == Step(s);
    } else {
      if !(p.Fine? && p.part == 3) { DistanceFalls(v, p, e); }
      var rest := ReachFineEnd(v, Step(s), NextPlace(v, p, e), NextEvent(p, e), t0, goal);
      steps := rest + 1;
    }
  }

  /** A loop is left through its closing AND; every AND before it keeps the bit. */
  lemma {:induction false} ReachClosing(v: seq<nat>, s: System, level: nat, b: Bit, p: Place, e: nat, t0: nat)
    returns (steps: nat)
    requires CoarseArmed(v, s.mem, level, {}, b) && At(v, s.cpu, p, e, t0) && Closing(v, level, p, e)
    requires On(s.cpu.mode, b)
    ensures var r := Run(s, steps);
            && At(v, r.cpu, Tail(level, 1), e, t0) && On(r.cpu.mode, b)
            && r.cpu.events == s.cpu.events && r.mem == s.mem
    decreases Distance(v, p)
  {
    hide OpenAt, PlaceAt, Counted, Fits, Step, On;
    if p == Tail(level, 1) {
      steps := 0;
    } else {
      ControlStep(v, s, p, e, t0);
      ClosingStep(v, s, level, b, p, e, t0);
      DistanceFalls(v, p, e);
      var rest := ReachClosing(v, Step(s), level, b, NextPlace(v, p, e), e, t0);
      steps := rest + 1;
    }
  }

  lemma ClosingStep(v: seq<nat>, s: System, level: nat, b: Bit, p: Place, e: nat, t0: nat)
    requires CoarseArmed(v, s.mem, level, {}, b) && At(v, s.cpu, p, e, t0) && Closing(v, level, p, e)
    requires On(s.cpu.mode, b) && p != Tail(level, 1)
    ensures Closing(v, level, NextPlace(v, p, e), e) && NextEvent(p, e) == e
    ensures On(Step(s).cpu.mode, b) && Step(s).cpu.events == s.cpu.events && Step(s).mem == s.mem
  {
    StepEffect(s, b);
    StepSends(v, s, p);
    assert Fits(v, p, s.mem[s.cpu.pc]);
    if p.Tail? { DividesDown(v, p.level, level, e); }
  }

  /** Between the closing AND of a loop and the head of a loop further in. */
  predicate OnTheWay(level: nat, p: Place) {
    p.Goto? || (p.Tail? && p.level > level) || (p.Head? && p.level >= level && p != Head(level, 1) && p != Head(level, 2))
  }

  lemma OutsideStep(v: seq<nat>, s: System, level: nat, b: Bit, p: Place, e: nat, t0: nat)
    requires CoarseArmed(v, s.mem, level, {}, b) && At(v, s.cpu, p, e, t0) && OnTheWay(level, p)
    requires On(s.cpu.mode, b) && Cleared(s.mem)
    ensures var n := NextPlace(v, p, e); NextEvent(p, e) == e && (n == Head(level, 1) || OnTheWay(level, n))
    ensures On(Step(s).cpu.mode, b) && Step(s).cpu.events == s.cpu.events && Step(s).mem == s.mem
  {
    StepEffect(s, b);
    StepSends(v, s, p);
    assert Fits(v, p, s.mem[s.cpu.pc]);
  }

  /** A bit that the ANDs keep stays on from there to the head of the inner loop. */
  lemma {:induction false} ReachHead(v: seq<nat>, s: System, level: nat, b: Bit, p: Place, e: nat, t0: nat)
    returns (steps: nat)
    requires Skeletal(v, s.mem) && CoarseArmed(v, s.mem, level, {}, b)
    requires At(v, s.cpu, p, e, t0) && (OnTheWay(level, p) || p == Head(level, 1))
    requires On(s.cpu.mode, b) && Cleared(s.mem)
    ensures var r := Run(s, steps);
            && At(v, r.cpu, Head(level, 1), e, t0) && On(r.cpu.mode, b)
            && r.cpu.events == s.cpu.events && r.mem == s.mem
    decreases Distance(v, p)
  {
    hide Cleared, OpenAt, PlaceAt, Counted, Fits, Step, On;
    if p == Head(level, 1) {
      steps := 0;
    } else {
      ControlStep(v, s, p, e, t0);
      OutsideStep(v, s, level, b, p, e, t0);
      DistanceFalls(v, p, e);
      var rest := ReachHead(v, Step(s), level, b, NextPlace(v, p, e), e, t0);
      steps := rest + 1;
    }
  }

  // ---------------------------------------------------------------- the preparation pass that comes between

  /** A complete pass over the plan while it runs, in any order. */
  ghost predicate CompletePass(s: System, mvs: seq<Move>, target: seq<Instr>) {
    Towards(mvs, target) && Play(s, mvs).mem == target
  }

  /** Every complete pass sends no further event with the bit. */
  ghost predicate SafeToPrepare(s: System, target: seq<Instr>, b: Bit) {
    forall mvs :: CompletePass(s, mvs, target) ==> OnCount(Play(s, mvs).cpu.events, b) == OnCount(s.cpu.events, b)
  }

  lemma PrepShots(v: seq<nat>, prev: Operands, bits: Mask, slots: seq<nat>, c: Chunk)
    requires Ladder(v) && Sized(v, prev) && c.level <= Top(v)
    ensures Cleared(PrepPlan(v, prev, bits, slots, c))
  {
    var x := ChunkOperands(v, prev, bits, slots, c, false);
    assert forall k: nat :: k < |x.shots| ==> x.shots[k] == {};
    forall a: nat | a < Length(v) && Plan(v, x)[a].OrSingleShot? ensures Plan(v, x)[a].mask == {} {
      assert Plan(v, x)[a] == InstrOf(v, x, PlaceAt(v, a));
    }
  }

  /** Once the closing AND has been rewritten to keep the bit, it is on at the head of the next chunk's loop. */
  lemma KeptToHead(v: seq<nat>, s: System, level: nat, kept: nat, b: Bit, e: nat, t0: nat) returns (steps: nat)
    requires CoarseArmed(v, s.mem, kept, {}, b) && At(v, s.cpu, Tail(level, 1), e, t0) && kept < level
    requires On(s.cpu.mode, b) && Cleared(s.mem)
    ensures var r := Run(s, steps);
            && At(v, r.cpu, Head(kept, 1), e, t0) && On(r.cpu.mode, b)
            && r.cpu.events == s.cpu.events && r.mem == s.mem
  {
    hide Cleared, OpenAt, PlaceAt, Counted, Fits, Step;
    ControlStep(v, s, Tail(level, 1), e, t0);
    KeptAtTail(v, s, level, kept, b, e, t0);
    hide At, CoarseArmed;
    var rest := ReachHead(v, Step(s), kept, b, NextPlace(v, Tail(level, 1), e), e, t0);
    steps := rest + 1;
  }

  lemma KeptAtTail(v: seq<nat>, s: System, level: nat, kept: nat, b: Bit, e: nat, t0: nat)
    requires CoarseArmed(v, s.mem, kept, {}, b) && At(v, s.cpu, Tail(level, 1), e, t0) && kept < level
    requires On(s.cpu.mode, b)
    ensures On(Step(s).cpu.mode, b) && Step(s).cpu.events == s.cpu.events && Step(s).mem == s.mem
    ensures OnTheWay(kept, NextPlace(v, Tail(level, 1), e))
  {
    StepEffect(s, b);
    assert Fits(v, Tail(level, 1), s.mem[s.cpu.pc]);
  }

  /** Executing, writing everything and executing again is a complete pass. */
  lemma PassWithin(v: seq<nat>, s: System, i: nat, target: seq<Instr>, j: nat) returns (mvs: seq<Move>)
    requires Ladder(v) && |target| == |Run(s, i).mem| == Length(v)
    ensures Towards(mvs, target) && Play(s, mvs) == Run(Run(s, i).(mem := target), j)
  {
    var m := Run(s, i).(mem := target);
    PlayIdle(s, i, target, {});
    WriteAll(v, Run(s, i), target);
    PlayIdle(m, j, target, {});
    mvs := Idle(i) + WritesFrom(target, 0) + Idle(j);
    PlayAdds(s, Idle(i), WritesFrom(target, 0));
    PlayAdds(s, Idle(i) + WritesFrom(target, 0), Idle(j));
  }

  /** With the bit still on before the closing AND, the preparation of a coarse chunk of a lower level can keep the
      bit there: execute up to that AND, then write everything. */
  lemma SlipThrough(v: seq<nat>, prev: Operands, bits: Mask, slots: seq<nat>, level: nat, next: Chunk, b: Bit,
                    s: System, p: Place, e: nat, t0: nat)
    returns (mvs: seq<Move>)
    requires Ladder(v) && Sized(v, prev) && b in bits && 1 <= next.level < level
    requires forall k: nat :: k < |prev.ors| ==> b !in prev.ors[k]
    requires CoarseArmed(v, s.mem, level, {}, b) && At(v, s.cpu, p, e, t0) && Closing(v, level, p, e)
    requires On(s.cpu.mode, b)
    ensures CompletePass(s, mvs, PrepPlan(v, prev, bits, slots, next))
    ensures var r := Play(s, mvs).cpu;
            At(v, r, Head(next.level, 1), e, t0) && On(r.mode, b) && r.events == s.cpu.events
  {
    hide At, Run, Play, Towards;
    var prep := PrepPlan(v, prev, bits, slots, next);
    PrepHolds(v, prev, bits, slots, next, b);
    PrepShots(v, prev, bits, slots, next);
    var i := ReachClosing(v, s, level, b, p, e, t0);
    var j := KeptToHead(v, Run(s, i).(mem := prep), level, next.level, b, e, t0);
    mvs := PassWithin(v, s, i, prep, j);
  }

  lemma PrepHolds(v: seq<nat>, prev: Operands, bits: Mask, slots: seq<nat>, c: Chunk, b: Bit)
    requires Ladder(v) && Sized(v, prev) && 1 <= c.level <= Top(v) && b in bits
    requires forall k: nat :: k < |prev.ors| ==> b !in prev.ors[k]
    ensures CoarseArmed(v, PrepPlan(v, prev, bits, slots, c), c.level, {}, b)
    ensures !CoarseWaits(v, PrepPlan(v, prev, bits, slots, c), c.level, {}, b)
  {
    CoarsePlans(v, prev, bits, slots, c, b);
    PrepShots(v, prev, bits, slots, c);
  }

  /** After a coarse chunk whose wait the software found over, the next chunk can be prepared in every order without a
      further event exactly if the bit is off, or the next chunk is a fine one or of the same level. */
  lemma SafeExactly(v: seq<nat>, prev: Operands, bits: Mask, slots: seq<nat>, level: nat, next: Chunk, b: Bit,
                    s: System, p: Place, e: nat, t0: nat)
    requires Ladder(v) && Sized(v, prev) && b in bits && 1 <= level <= Top(v) && next.level <= level
    requires forall k: nat :: k < |prev.ors| ==> b !in prev.ors[k]
    requires next.level == 0 ==> SlotList(v, slots) && 1 <= next.count <= |slots|
    requires Between(v, s, level, b, p, e, t0) && CoarseArmed(v, s.mem, level, {}, b)
    ensures SafeToPrepare(s, PrepPlan(v, prev, bits, slots, next), b) <==> MayStart(s, level, next, b)
  {
    if MayStart(s, level, next, b) {
      forall mvs | CompletePass(s, mvs, PrepPlan(v, prev, bits, slots, next))
        ensures OnCount(Play(s, mvs).cpu.events, b) == OnCount(s.cpu.events, b)
      {
        ClosesInTime(v, prev, bits, slots, level, next, b, s, mvs, p, e, t0);
      }
    } else {
      var mvs := ShowsOneMore(v, prev, bits, slots, level, next, b, s, p, e, t0);
    }
  }

  lemma ClosesInTime(v: seq<nat>, prev: Operands, bits: Mask, slots: seq<nat>, level: nat, next: Chunk, b: Bit,
                     s: System, mvs: seq<Move>, p: Place, e: nat, t0: nat)
    requires Ladder(v) && Sized(v, prev) && b in bits && 1 <= level <= Top(v) && next.level <= level
    requires forall k: nat :: k < |prev.ors| ==> b !in prev.ors[k]
    requires next.level == 0 ==> SlotList(v, slots) && 1 <= next.count <= |slots|
    requires Between(v, s, level, b, p, e, t0) && MayStart(s, level, next, b)
    requires CompletePass(s, mvs, PrepPlan(v, prev, bits, slots, next))
    ensures OnCount(Play(s, mvs).cpu.events, b) == OnCount(s.cpu.events, b)
  {
    if next.level == 0 {
      FinePlans(v, prev, bits, slots, next, b);
    } else {
      CoarsePlans(v, prev, bits, slots, next, b);
    }
    var p', e' := CalmPlay(v, s, mvs, PrepPlan(v, prev, bits, slots, next), level, b, p, e, t0);
  }

  lemma ShowsOneMore(v: seq<nat>, prev: Operands, bits: Mask, slots: seq<nat>, level: nat, next: Chunk, b: Bit,
                     s: System, p: Place, e: nat, t0: nat)
    returns (mvs: seq<Move>)
    requires Ladder(v) && Sized(v, prev) && b in bits && 1 <= next.level < level
    requires forall k: nat :: k < |prev.ors| ==> b !in prev.ors[k]
    requires CoarseArmed(v, s.mem, level, {}, b) && At(v, s.cpu, p, e, t0) && Closing(v, level, p, e)
    requires On(s.cpu.mode, b)
    ensures CompletePass(s, mvs, PrepPlan(v, prev, bits, slots, next))
    ensures OnCount(Play(s, mvs).cpu.events, b) == OnCount(s.cpu.events, b) + 1
  {
    var prep := PrepPlan(v, prev, bits, slots, next);
    var pass := SlipThrough(v, prev, bits, slots, level, next, b, s, p, e, t0);
    var m := Play(s, pass);
    var steps := OneLitEvent(v, prev, bits, slots, next, b, m, e, t0);
    PlayIdle(m, steps, prep, {});
    PlayAdds(s, pass, Idle(steps));
    TowardsAdds(pass, Idle(steps), prep);
    mvs := pass + Idle(steps);
  }

  lemma OneLitEvent(v: seq<nat>, prev: Operands, bits: Mask, slots: seq<nat>, c: Chunk, b: Bit, s: System, e: nat,
                    t0: nat)
    returns (steps: nat)
    requires Ladder(v) && Sized(v, prev) && b in bits && 1 <= c.level <= Top(v)
    requires forall k: nat :: k < |prev.ors| ==> b !in prev.ors[k]
    requires s.mem == PrepPlan(v, prev, bits, slots, c) && At(v, s.cpu, Head(c.level, 1), e, t0) && On(s.cpu.mode, b)
    ensures Run(s, steps).mem == s.mem
    ensures OnCount(Run(s, steps).cpu.events, b) == OnCount(s.cpu.events, b) + 1
  {
    PrepHolds(v, prev, bits, slots, c, b);
    PrepShots(v, prev, bits, slots, c);
    assert Fits(v, Fine(0, 0), s.mem[FineBase(v)]);
    steps := Neighbours.LitUntilEvent(v, s, b, Head(c.level, 1), e, t0);
    RunOnPrepared(s, steps);
    var r := Run(s, steps).cpu.events;
    assert r == s.cpu.events + [r[|s.cpu.events|]];
    OnCountSnoc(s.cpu.events, r[|s.cpu.events|], b);
  }

  /** With no shot left, running changes no instruction; events are only added. */
  lemma {:induction false} RunOnPrepared(s: System, steps: nat)
    requires Cleared(s.mem)
    ensures Run(s, steps).mem == s.mem && s.cpu.events <= Run(s, steps).cpu.events
    decreases steps
  {
    if steps > 0 {
      StepKeepsEvents(s);
      assert Step(s).mem == s.mem;
      RunOnPrepared(Step(s), steps - 1);
    }
  }

  // ---------------------------------------------------------------- a schedule that shows too much

  /** The shots in memory are those of the armed plan that have not fired. */
  ghost predicate ShotsOf(mem: seq<Instr>, armed: seq<Instr>) {
    && |mem| == |armed|
    && forall a: nat :: a < |mem| && mem[a].OrSingleShot? ==> mem[a].mask == {} || mem[a] == armed[a]
  }

  lemma {:induction false} ShotsOnlyFire(s: System, armed: seq<Instr>, steps: nat)
    requires ShotsOf(s.mem, armed)
    ensures ShotsOf(Run(s, steps).mem, armed)
    decreases steps
  {
    if steps > 0 {
      ShotsOnlyFire(Step(s), armed, steps - 1);
    }
  }

  /** Once the shot of a coarse chunk has fired, every single shot reads 0. */
  lemma FiredReadsBack(v: seq<nat>, prev: Operands, bits: Mask, slots: seq<nat>, c: Chunk, b: Bit, mem: seq<Instr>)
    requires Ladder(v) && Sized(v, prev) && b in bits && 1 <= c.level <= Top(v)
    requires ShotsOf(mem, ArmedPlan(v, prev, bits, slots, c)) && Skeletal(v, mem) && !CoarseWaits(v, mem, c.level, {}, b)
    ensures Cleared(mem)
  {
    var x := ChunkOperands(v, prev, bits, slots, c, true);
    HeadPlaceOf(v, c.level);
    assert Fits(v, Head(c.level, 0), mem[HeadAddr(v, c.level)]);
    forall a: nat | a < |mem| && mem[a].OrSingleShot? ensures mem[a].mask == {} {
      assert Plan(v, x)[a] == InstrOf(v, x, PlaceAt(v, a));
      assert Fits(v, PlaceAt(v, a), mem[a]);
    }
  }

  /** Writing the armed plan at one go, and waiting until the software finds the chunk done. */
  lemma ArmAndWait(v: seq<nat>, prev: Operands, bits: Mask, slots: seq<nat>, c: Chunk, b: Bit, s: System, wait: nat,
                   p: Place, e: nat, t0: nat)
    returns (g: Segment)
    requires Ladder(v) && Sized(v, prev) && b in bits && 1 <= c.level <= Top(v) && c.count == v[c.level]
    requires forall k: nat :: k < |prev.ors| ==> b !in prev.ors[k]
    requires s.mem == PrepPlan(v, prev, bits, slots, c) && At(v, s.cpu, p, e, t0) && p != Start && !On(s.cpu.mode, b)
    requires var armed := s.(mem := ArmedPlan(v, prev, bits, slots, c));
             Run(armed, wait).cpu.tag >= s.cpu.tag + 2 * c.count
    ensures g == Segment([], WritesFrom(ArmedPlan(v, prev, bits, slots, c), 0), wait)
    ensures Legal(v, prev, bits, slots, c, s, g)
    ensures After(s, g) == Run(s.(mem := ArmedPlan(v, prev, bits, slots, c)), wait)
    ensures OnCount(After(s, g).cpu.events, b) == OnCount(s.cpu.events, b) + c.count
    ensures CoarseArmed(v, After(s, g).mem, c.level, {}, b)
  {
    var armed := ArmedPlan(v, prev, bits, slots, c);
    CoarsePlans(v, prev, bits, slots, c, b);
    WriteAll(v, s, armed);
    g := Segment([], WritesFrom(armed, 0), wait);
    var m := s.(mem := armed);
    var p', e' := TagAdvanceEndsPulse(v, m, c.level, b, p, e, t0, OnCount(s.cpu.events, b), Before, wait);
    ShotsOnlyFire(m, armed, wait);
    FiredReadsBack(v, prev, bits, slots, c, b, Run(m, wait).mem);
  }

  /** Armed just behind the head of its loop, the chunk is found done at the end of the fine slots, with its closing
      AND still to come and the bit on. */
  lemma FoundDoneEarly(v: seq<nat>, prev: Operands, bits: Mask, slots: seq<nat>, c: Chunk, b: Bit, s: System, e: nat,
                       t0: nat)
    returns (g: Segment)
    requires Ladder(v) && Sized(v, prev) && b in bits && 1 <= c.level <= Top(v) && c.count == v[c.level]
    requires forall k: nat :: k < |prev.ors| ==> b !in prev.ors[k]
    requires s.mem == PrepPlan(v, prev, bits, slots, c) && At(v, s.cpu, Head(c.level, 1), e, t0) && !On(s.cpu.mode, b)
    ensures Legal(v, prev, bits, slots, c, s, g) && g.prep == []
    ensures var r := After(s, g);
            && At(v, r.cpu, FineEnd, e + 2 * c.count, t0) && On(r.cpu.mode, b)
            && OnCount(r.cpu.events, b) == OnCount(s.cpu.events, b) + c.count
            && CoarseArmed(v, r.mem, c.level, {}, b)
  {
    hide At, CoarseArmed, Run, Play, Legal, After;
    CoarsePlans(v, prev, bits, slots, c, b);
    var m := s.(mem := ArmedPlan(v, prev, bits, slots, c));
    var wait := TwoLoopsLater(v, m, c.level, b, e, t0);
    g := ArmAndWait(v, prev, bits, slots, c, b, s, wait, Head(c.level, 1), e, t0);
    PulseAtTwoLoops(v, m, c.level, b, e, t0, wait);
  }

  lemma TwoLoopsLater(v: seq<nat>, s: System, level: nat, b: Bit, e: nat, t0: nat) returns (steps: nat)
    requires CoarseTarget(v, s.mem, level, b) && At(v, s.cpu, Head(level, 1), e, t0)
    ensures At(v, Run(s, steps).cpu, FineEnd, e + 2 * v[level], t0)
    ensures Run(s, steps).cpu.tag == s.cpu.tag + 2 * v[level]
  {
    TwoLoops(v, level, e);
    steps := ReachFineEnd(v, s, Head(level, 1), e, t0, e + 2 * v[level]);
  }

  lemma PulseAtTwoLoops(v: seq<nat>, s: System, level: nat, b: Bit, e: nat, t0: nat, steps: nat)
    requires CoarseTarget(v, s.mem, level, b) && At(v, s.cpu, Head(level, 1), e, t0) && !On(s.cpu.mode, b)
    requires At(v, Run(s, steps).cpu, FineEnd, e + 2 * v[level], t0)
    ensures On(Run(s, steps).cpu.mode, b)
  {
    var base := OnCount(s.cpu.events, b);
    MultiplesFrom(v, s, level, e, t0);
    JustArmed(v, s, level, b, e, t0);
    hide PulseState, Due, JustMissed, Run;
    var p', e', phase := DueRun(v, s, level, b, Head(level, 1), e, t0, base, Before, e, e + v[level], steps);
    SamePlace(v, Run(s, steps).cpu, p', e', FineEnd, e + 2 * v[level], t0);
    StillOn(v, Run(s, steps), level, b, base, phase, e);
  }

  lemma MultiplesFrom(v: seq<nat>, s: System, level: nat, e: nat, t0: nat)
    requires At(v, s.cpu, Head(level, 1), e, t0)
    ensures Divides(v[level], e) && Divides(v[level], e + v[level])
  {
    TwoLoops(v, level, e);
  }

  lemma JustArmed(v: seq<nat>, s: System, level: nat, b: Bit, e: nat, t0: nat)
    requires CoarseTarget(v, s.mem, level, b) && At(v, s.cpu, Head(level, 1), e, t0) && !On(s.cpu.mode, b)
    ensures PulseState(v, s, level, {}, b, Head(level, 1), e, OnCount(s.cpu.events, b), Before)
    ensures Due(v, level, e + v[level], Head(level, 1), e, Before)
    ensures JustMissed(v, level, e, Head(level, 1), e, Before)
  {
    LevelsDivide(v, level, level);
  }

  lemma StillOn(v: seq<nat>, s: System, level: nat, b: Bit, base: nat, phase: Pulse, since: nat)
    requires Ladder(v) && 1 <= level <= Top(v)
    requires PulseState(v, s, level, {}, b, FineEnd, since + 2 * v[level], base, phase)
    requires Due(v, level, since + v[level], FineEnd, since + 2 * v[level], phase)
    requires JustMissed(v, level, since, FineEnd, since + 2 * v[level], phase)
    ensures On(s.cpu.mode, b)
  {
    LevelsDivide(v, level, level);
  }

  lemma SamePlace(v: seq<nat>, c: Cpu, p: Place, e: nat, q: Place, f: nat, t0: nat)
    requires At(v, c, p, e, t0) && At(v, c, q, f, t0) && p != Start
    ensures p == q && e == f
  {
  }

  lemma TwoLoops(v: seq<nat>, level: nat, e: nat)
    requires Ladder(v) && 1 <= level <= Top(v) && Divides(v[level], e)
    ensures v[level] > 0 && Divides(v[level], e + v[level]) && Divides(v[level], e + 2 * v[level])
    ensures Divides(v[0], e + 2 * v[level])
  {
    LevelsDivide(v, level, level);
    SumDivides(v[level], e, v[level]);
    SumDivides(v[level], e + v[level], v[level]);
    DividesDown(v, 0, level, e + 2 * v[level]);
  }

  /** The preparation that slipped through costs a whole pulse of the next chunk. */
  lemma SlippedPulse(v: seq<nat>, prev: Operands, bits: Mask, slots: seq<nat>, level: nat, next: Chunk, b: Bit,
                     s: System, p: Place, e: nat, t0: nat)
    returns (mvs: seq<Move>, p': Place, e': nat)
    requires Ladder(v) && Sized(v, prev) && b in bits
    requires 1 <= next.level < level <= Top(v) && next.count == v[next.level]
    requires forall k: nat :: k < |prev.ors| ==> b !in prev.ors[k]
    requires CoarseArmed(v, s.mem, level, {}, b) && At(v, s.cpu, p, e, t0) && Closing(v, level, p, e)
    requires On(s.cpu.mode, b)
    ensures CompletePass(s, mvs, PrepPlan(v, prev, bits, slots, next))
    ensures var r := Play(s, mvs).cpu;
            && At(v, r, p', e', t0) && p' != Start && !On(r.mode, b)
            && OnCount(r.events, b) == OnCount(s.cpu.events, b) + next.count
  {
    var prep := PrepPlan(v, prev, bits, slots, next);
    var pass := SlipThrough(v, prev, bits, slots, level, next, b, s, p, e, t0);
    var m := Play(s, pass);
    var steps;
    steps, p', e' := PulseOfPrepared(v, prev, bits, slots, next, b, m, e, t0);
    PlayIdle(m, steps, prep, {});
    PlayAdds(s, pass, Idle(steps));
    TowardsAdds(pass, Idle(steps), prep);
    mvs := pass + Idle(steps);
  }

  lemma PulseOfPrepared(v: seq<nat>, prev: Operands, bits: Mask, slots: seq<nat>, c: Chunk, b: Bit, s: System, e: nat,
                        t0: nat)
    returns (steps: nat, p': Place, e': nat)
    requires Ladder(v) && Sized(v, prev) && b in bits && 1 <= c.level <= Top(v) && c.count == v[c.level]
    requires forall k: nat :: k < |prev.ors| ==> b !in prev.ors[k]
    requires s.mem == PrepPlan(v, prev, bits, slots, c) && At(v, s.cpu, Head(c.level, 1), e, t0) && On(s.cpu.mode, b)
    ensures Run(s, steps).mem == s.mem
    ensures var r := Run(s, steps).cpu;
            && At(v, r, p', e', t0) && p' != Start && !On(r.mode, b)
            && OnCount(r.events, b) == OnCount(s.cpu.events, b) + c.count
  {
    PrepHolds(v, prev, bits, slots, c, b);
    PrepShots(v, prev, bits, slots, c);
    LevelsDivide(v, c.level, c.level);
    steps := TagAdvances(v, s, Head(c.level, 1), e, t0, 2 * c.count);
    RunOnPrepared(s, steps);
    p', e' := TagAdvanceEndsPulse(v, s, c.level, b, Head(c.level, 1), e, t0, OnCount(s.cpu.events, b), Lasting(e),
                                  steps);
  }

  lemma CompleteMemory(s: System, mvs: seq<Move>, target: seq<Instr>)
    requires CompletePass(s, mvs, target)
    ensures Play(s, mvs).mem == target
  {
  }

  /** A complete preparation pass before a segment that needs none. */
  lemma AfterPass(v: seq<nat>, prev: Operands, bits: Mask, slots: seq<nat>, c: Chunk, s: System, mvs: seq<Move>,
                  g: Segment)
    requires Ladder(v) && Sized(v, prev) && c.level <= Top(v)
    requires CompletePass(s, mvs, PrepPlan(v, prev, bits, slots, c)) && g.prep == []
    requires Legal(v, prev, bits, slots, c, Play(s, mvs), g)
    ensures Legal(v, prev, bits, slots, c, s, Segment(mvs, g.arm, g.wait))
    ensures After(s, Segment(mvs, g.arm, g.wait)) == After(Play(s, mvs), g)
  {
    hide Run, OncePass, TodoAfter, Ready, PrepPlan;
    assert Play(Play(s, mvs), []) == Play(s, mvs);
  }
}
