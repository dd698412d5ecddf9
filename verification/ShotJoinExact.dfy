/** For which requests a single-shot join shows exactly the requested number of events, whatever the processor does
    while the software writes and waits. */
module ShotJoinExact {
  import opened ModeBits
  import opened RunPlanMachine
  import opened SharedPlan
  import opened DutyRatio
  import opened PlanControl
  import opened LiveRewrite
  import opened SingleShot
  import opened ShotRun
  import opened SingleShotJoin
  import opened ChunkBoundary

  // ---------------------------------------------------------------- every shot of a fine chunk fires

  /** Event `goal` is still to be sent. */
  predicate Ahead(p: Place, e: nat, goal: nat) {
    e < goal || (e == goal && (p.Fine? ==> p.part <= 2))
  }

  lemma AheadNext(v: seq<nat>, p: Place, e: nat, goal: nat)
    requires Ladder(v) && Possible(v, p, e) && Ahead(p, e, goal) && !(p == Fine(goal % v[0], 2) && e == goal)
    ensures Ahead(NextPlace(v, p, e), NextEvent(p, e), goal)
  {
  }

  /** Every fine slot comes round. */
  lemma {:induction false} ReachSlot(v: seq<nat>, s: System, p: Place, e: nat, t0: nat, goal: nat)
    returns (steps: nat)
    requires Skeletal(v, s.mem) && At(v, s.cpu, p, e, t0) && p != Start && Ahead(p, e, goal)
    ensures At(v, Run(s, steps).cpu, Fine(goal % v[0], 2), goal, t0)
    decreases if goal > e then goal - e else 0, if Sent(p) then 0 else 1, Distance(v, p)
  {
    hide OpenAt, PlaceAt, Fits, Step, Counted, Skeletal;
    if p == Fine(goal % v[0], 2) && e == goal {
      steps := 0;
    } else {
      ControlStep(v, s, p, e, t0);
      AheadNext(v, p, e, goal);
      if !(p.Fine? && p.part == 3) { DistanceFalls(v, p, e); }
      var rest := ReachSlot(v, Step(s), NextPlace(v, p, e), NextEvent(p, e), t0, goal);
      steps := rest + 1;
    }
  }

  lemma SlotAhead(v: seq<nat>, e: nat, i: nat) returns (goal: nat)
    requires Ladder(v) && i < v[0]
    ensures e < goal && goal % v[0] == i
  {
    goal := v[0] * (e / v[0] + 1) + i;
    DivModUnique(goal, v[0], e / v[0] + 1, i);
    assert v[0] * (e / v[0] + 1) == v[0] * (e / v[0]) + v[0];
  }

  predicate Spent(mem: seq<Instr>, a: nat) {
    a < |mem| && mem[a] == OrSingleShot({})
  }

  lemma {:induction false} StaysSpent(s: System, a: nat, steps: nat)
    requires Spent(s.mem, a)
    ensures Spent(Run(s, steps).mem, a)
    decreases steps
  {
    if steps > 0 {
      StaysSpent(Step(s), a, steps - 1);
    }
  }

  lemma Fires(v: seq<nat>, s: System, i: nat, e: nat, t0: nat)
    requires Skeletal(v, s.mem) && At(v, s.cpu, Fine(i, 2), e, t0)
    ensures Spent(Step(s).mem, ShotAddr(v, i))
  {
    assert Fits(v, Fine(i, 2), s.mem[s.cpu.pc]);
  }

  lemma {:induction false} SkeletonStays(v: seq<nat>, s: System, steps: nat)
    requires Skeletal(v, s.mem)
    ensures Skeletal(v, Run(s, steps).mem)
    decreases steps
  {
    if steps > 0 {
      StepKeepsSkeleton(v, s);
      SkeletonStays(v, Step(s), steps - 1);
    }
  }

  /** After finitely many instructions the shots of the first n slots have fired. */
  lemma {:induction false} SlotsFire(v: seq<nat>, s: System, p: Place, e: nat, t0: nat, n: nat) returns (steps: nat)
    requires Ladder(v) && Skeletal(v, s.mem) && At(v, s.cpu, p, e, t0) && p != Start && n <= v[0]
    ensures forall i: nat :: i < n ==> Spent(Run(s, steps).mem, ShotAddr(v, i))
    decreases n
  {
    hide Run, At, Skeletal, Spent;
    if n == 0 {
      steps := 0;
    } else {
      var first := SlotsFire(v, s, p, e, t0, n - 1);
      var p1, e1 := StaysAt(v, s, p, e, t0, first);
      SkeletonStays(v, s, first);
      var more := FireSlot(v, Run(s, first), p1, e1, t0, n - 1);
      RunAdds(s, first, more);
      steps := first + more;
      forall i: nat | i < n ensures Spent(Run(s, steps).mem, ShotAddr(v, i)) {
        if i < n - 1 { StaysSpent(Run(s, first), ShotAddr(v, i), more); }
      }
    }
  }

  lemma FireSlot(v: seq<nat>, s: System, p: Place, e: nat, t0: nat, i: nat) returns (steps: nat)
    requires Ladder(v) && Skeletal(v, s.mem) && At(v, s.cpu, p, e, t0) && p != Start && i < v[0]
    ensures Spent(Run(s, steps).mem, ShotAddr(v, i))
  {
    hide At, Spent, Skeletal;
    var goal := SlotAhead(v, e, i);
    var first := ReachSlot(v, s, p, e, t0, goal);
    SkeletonStays(v, s, first);
    Fires(v, Run(s, first), i, goal, t0);
    RunAdds(s, first, 1);
    assert Run(Run(s, first), 1) == Step(Run(s, first));
    steps := first + 1;
  }

  lemma FineReadsBack(v: seq<nat>, prev: Operands, bits: Mask, slots: seq<nat>, c: Chunk, mem: seq<Instr>)
    requires Ladder(v) && Sized(v, prev) && c.level == 0 && Skeletal(v, mem)
    requires ShotsOf(mem, ArmedPlan(v, prev, bits, slots, c))
    requires forall i: nat :: i < v[0] ==> Spent(mem, ShotAddr(v, i))
    ensures Cleared(mem)
  {
    var x := ChunkOperands(v, prev, bits, slots, c, true);
    forall a: nat | a < |mem| && mem[a].OrSingleShot? ensures mem[a].mask == {} {
      var p := PlaceAt(v, a);
      assert Plan(v, x)[a] == InstrOf(v, x, p);
      assert Fits(v, p, mem[a]);
      if p.Fine? { assert Spent(mem, ShotAddr(v, p.slot)); }
    }
  }

  // ---------------------------------------------------------------- one chunk at one go

  /** Long enough for the software, and for any chunk that may follow. */
  ghost predicate LongEnough(v: seq<nat>, c: Chunk, from: System, wait: nat) {
    && Cleared(Run(from, wait).mem)
    && (c.level > 0 ==> Run(from, wait).cpu.tag > from.cpu.tag + 2 * c.count)
  }

  lemma WaitFor(v: seq<nat>, prev: Operands, bits: Mask, slots: seq<nat>, c: Chunk, b: Bit, s: System, p: Place,
                e: nat, t0: nat)
    returns (wait: nat)
    requires Ladder(v) && Sized(v, prev) && b in bits && SlotList(v, slots) && Fitting(v, slots, c)
    requires forall k: nat :: k < |prev.ors| ==> b !in prev.ors[k]
    requires s.mem == ArmedPlan(v, prev, bits, slots, c) && At(v, s.cpu, p, e, t0) && p != Start
    requires c.level > 0 ==> (On(s.cpu.mode, b) ==> Closing(v, c.level, p, e))
    ensures LongEnough(v, c, s, wait)
  {
    PlanIsSkeletal(v, ChunkOperands(v, prev, bits, slots, c, true));
    if c.level == 0 {
      wait := SlotsFire(v, s, p, e, t0, v[0]);
      SkeletonStays(v, s, wait);
      ShotsOnlyFire(s, s.mem, wait);
      FineReadsBack(v, prev, bits, slots, c, Run(s, wait).mem);
    } else {
      wait := CoarseWait(v, prev, bits, slots, c, b, s, p, e, t0);
    }
  }

  lemma CoarseWait(v: seq<nat>, prev: Operands, bits: Mask, slots: seq<nat>, c: Chunk, b: Bit, s: System, p: Place,
                   e: nat, t0: nat)
    returns (wait: nat)
    requires Ladder(v) && Sized(v, prev) && b in bits && 1 <= c.level <= Top(v) && c.count == v[c.level]
    requires forall k: nat :: k < |prev.ors| ==> b !in prev.ors[k]
    requires s.mem == ArmedPlan(v, prev, bits, slots, c) && At(v, s.cpu, p, e, t0) && p != Start
    requires On(s.cpu.mode, b) ==> Closing(v, c.level, p, e)
    ensures LongEnough(v, c, s, wait)
  {
    CoarsePlans(v, prev, bits, slots, c, b);
    wait := TagAdvances(v, s, p, e, t0, 2 * c.count);
    var p', e' := TagAdvanceEndsPulse(v, s, c.level, b, p, e, t0, OnCount(s.cpu.events, b), Before, wait);
    ShotsOnlyFire(s, s.mem, wait);
    FiredReadsBack(v, prev, bits, slots, c, b, Run(s, wait).mem);
  }

  /** A chunk can always be executed, with a wait long enough for any chunk that follows. */
  lemma ExecuteChunk(v: seq<nat>, prev: Operands, bits: Mask, slots: seq<nat>, c: Chunk, last: nat, b: Bit, s: System,
                     p: Place, e: nat, t0: nat)
    returns (g: Segment)
    requires Ladder(v) && Sized(v, prev) && b in bits && SlotList(v, slots) && Fitting(v, slots, c)
    requires forall k: nat :: k < |prev.ors| ==> b !in prev.ors[k]
    requires Between(v, s, last, b, p, e, t0) && MayStart(s, last, c, b)
    ensures Legal(v, prev, bits, slots, c, s, g)
    ensures c.level > 0 ==> After(s, g).cpu.tag > Armed(s, g).cpu.tag + 2 * c.count
  {
    var prep, armed := PrepPlan(v, prev, bits, slots, c), ArmedPlan(v, prev, bits, slots, c);
    WriteAll(v, s, prep);
    WriteAll(v, s.(mem := prep), armed);
    var wait := WaitFor(v, prev, bits, slots, c, b, s.(mem := armed), p, e, t0);
    g := Segment(WritesFrom(prep, 0), WritesFrom(armed, 0), wait);
  }

  /** So can a schedule. */
  lemma {:induction false} ExecuteAll(v: seq<nat>, prev: Operands, bits: Mask, slots: seq<nat>, chunks: seq<Chunk>,
                                      last: nat, b: Bit, s: System, p: Place, e: nat, t0: nat)
    returns (gs: seq<Segment>)
    requires Ladder(v) && Sized(v, prev) && b in bits && SlotList(v, slots)
    requires (forall c :: c in chunks ==> Fitting(v, slots, c)) && Descending(chunks)
    requires forall k: nat :: k < |prev.ors| ==> b !in prev.ors[k]
    requires Between(v, s, last, b, p, e, t0) && (chunks != [] ==> MayStart(s, last, chunks[0], b))
    ensures AllLegal(v, prev, bits, slots, chunks, s, gs) && AllInTime(chunks, s, gs)
    decreases |chunks|
  {
    hide Between, Legal, After, Armed, Fitting, Descending, SlotList, Ladder;
    if chunks == [] {
      gs := [];
    } else {
      RestFits(v, slots, chunks);
      var c := chunks[0];
      var g := ExecuteChunk(v, prev, bits, slots, c, last, b, s, p, e, t0);
      var p', e' := ChunkShows(v, prev, bits, slots, c, last, b, s, g, p, e, t0);
      var more := ExecuteAll(v, prev, bits, slots, chunks[1..], c.level, b, After(s, g), p', e', t0);
      gs := [g] + more;
      assert gs[1..] == more;
    }
  }

  // ---------------------------------------------------------------- a step down between coarse levels

  /** From the end of the fine slots to just behind the head of a coarse loop. */
  predicate Coming(v: seq<nat>, level: nat, p: Place, e: nat)
    requires Ladder(v)
  {
    Closing(v, level, p, e) || OnTheWay(level, p)
  }

  lemma ComingNext(v: seq<nat>, level: nat, p: Place, e: nat)
    requires Ladder(v) && 1 <= level <= Top(v) && Possible(v, p, e) && Coming(v, level, p, e)
    ensures var n := NextPlace(v, p, e); NextEvent(p, e) == e && (n == Head(level, 1) || Coming(v, level, n, e))
    ensures !(p.Fine? && p.part == 3)
  {
    if p.Tail? && p.level <= level && Closing(v, level, p, e) { DividesDown(v, p.level, level, e); }
  }

  lemma {:induction false} ReachOpen(v: seq<nat>, s: System, level: nat, p: Place, e: nat, t0: nat)
    returns (steps: nat)
    requires Skeletal(v, s.mem) && At(v, s.cpu, p, e, t0) && p != Start && 1 <= level <= Top(v)
    requires Coming(v, level, p, e) || p == Head(level, 1)
    ensures At(v, Run(s, steps).cpu, Head(level, 1), e, t0)
    decreases Distance(v, p)
  {
    hide OpenAt, PlaceAt, Fits, Step, Counted, Skeletal, Coming;
    if p == Head(level, 1) {
      steps := 0;
    } else {
      ControlStep(v, s, p, e, t0);
      ComingNext(v, level, p, e);
      DistanceFalls(v, p, e);
      var rest := ReachOpen(v, Step(s), level, NextPlace(v, p, e), e, t0);
      steps := rest + 1;
    }
  }

  /** The head of every coarse loop comes round. */
  lemma ReachLoop(v: seq<nat>, s: System, level: nat, p: Place, e: nat, t0: nat) returns (steps: nat, e': nat)
    requires Ladder(v) && Skeletal(v, s.mem) && At(v, s.cpu, p, e, t0) && p != Start && 1 <= level <= Top(v)
    ensures At(v, Run(s, steps).cpu, Head(level, 1), e', t0)
  {
    hide At, Skeletal, Run, Coming, Closing;
    LevelsDivide(v, level, level);
    e' := NextDue(v[level], e);
    DividesDown(v, 0, level, e');
    var first := ReachFineEnd(v, s, p, e, t0, e');
    SkeletonStays(v, s, first);
    EndComes(v, level, e');
    var more := ReachOpen(v, Run(s, first), level, FineEnd, e', t0);
    RunAdds(s, first, more);
    steps := first + more;
  }

  lemma EndComes(v: seq<nat>, level: nat, e: nat)
    requires Ladder(v) && 1 <= level <= Top(v) && e > 0 && Divides(v[level], e)
    ensures Coming(v, level, FineEnd, e)
  {
  }

  /** The preparation pass of a coarse chunk, drawn out until the processor is just behind the head of its loop. */
  lemma PrepareLate(v: seq<nat>, prev: Operands, bits: Mask, slots: seq<nat>, c: Chunk, last: nat, b: Bit, s: System,
                    p: Place, e: nat, t0: nat)
    returns (mvs: seq<Move>, e': nat)
    requires Ladder(v) && Sized(v, prev) && b in bits && 1 <= c.level <= Top(v)
    requires forall k: nat :: k < |prev.ors| ==> b !in prev.ors[k]
    requires Between(v, s, last, b, p, e, t0) && MayStart(s, last, c, b)
    ensures CompletePass(s, mvs, PrepPlan(v, prev, bits, slots, c))
    ensures var r := Play(s, mvs).cpu;
            && At(v, r, Head(c.level, 1), e', t0) && !On(r.mode, b)
            && OnCount(r.events, b) == Shown(s.cpu, p, b)
  {
    var prep := PrepPlan(v, prev, bits, slots, c);
    CoarsePlans(v, prev, bits, slots, c, b);
    PrepShots(v, prev, bits, slots, c);
    var k;
    k, e' := ReachLoop(v, s.(mem := prep), c.level, p, e, t0);
    RunOnPrepared(s.(mem := prep), k);
    mvs := PassWithin(v, s, 0, prep, k);
    LateIsOff(v, s, prep, mvs, c, last, b, p, e, t0, e');
  }

  lemma LateIsOff(v: seq<nat>, s: System, prep: seq<Instr>, mvs: seq<Move>, c: Chunk, last: nat, b: Bit, p: Place,
                  e: nat, t0: nat, e': nat)
    requires Between(v, s, last, b, p, e, t0) && MayStart(s, last, c, b) && 1 <= c.level <= Top(v)
    requires CompletePass(s, mvs, prep) && Dark(prep, b) && CoarseArmed(v, prep, c.level, Addresses(v), b)
    requires At(v, Play(s, mvs).cpu, Head(c.level, 1), e', t0)
    ensures !On(Play(s, mvs).cpu.mode, b)
    ensures OnCount(Play(s, mvs).cpu.events, b) == Shown(s.cpu, p, b)
  {
    var p1, e1 := CalmPlay(v, s, mvs, prep, last, b, p, e, t0);
    SamePlace(v, Play(s, mvs).cpu, p1, e1, Head(c.level, 1), e', t0);
  }

  /** Two coarse chunks, the second of a lower level, each found done by the software: the second is shown twice. */
  lemma StepDownOvershoots(v: seq<nat>, prev: Operands, bits: Mask, slots: seq<nat>, c: Chunk, d: Chunk, last: nat,
                           b: Bit, s: System, p: Place, e: nat, t0: nat)
    returns (g: Segment, h: Segment, p': Place, e': nat)
    requires Ladder(v) && Sized(v, prev) && b in bits && SlotList(v, slots)
    requires Fitting(v, slots, c) && Fitting(v, slots, d) && 1 <= d.level < c.level
    requires forall k: nat :: k < |prev.ors| ==> b !in prev.ors[k]
    requires Between(v, s, last, b, p, e, t0) && MayStart(s, last, c, b)
    ensures Legal(v, prev, bits, slots, c, s, g) && Legal(v, prev, bits, slots, d, After(s, g), h)
    ensures var r := After(After(s, g), h);
            && Between(v, r, d.level, b, p', e', t0) && !On(r.cpu.mode, b)
            && Shown(r.cpu, p', b) == Shown(s.cpu, p, b) + c.count + 2 * d.count
  {
    hide At, Run, Play, Between, Legal, CompletePass, CoarseArmed;
    var mvs, e1 := PrepareLate(v, prev, bits, slots, c, last, b, s, p, e, t0);
    CompleteMemory(s, mvs, PrepPlan(v, prev, bits, slots, c));
    var g0 := FoundDoneEarly(v, prev, bits, slots, c, b, Play(s, mvs), e1, t0);
    AfterPass(v, prev, bits, slots, c, s, mvs, g0);
    g := Segment(mvs, g0.arm, g0.wait);
    EndIsClosing(v, Play(s, mvs), c.level, e1, t0);
    h, p', e' := SecondTwice(v, prev, bits, slots, c, d, b, After(s, g), e1 + 2 * c.count, t0);
  }

  lemma EndIsClosing(v: seq<nat>, s: System, level: nat, e: nat, t0: nat)
    requires Ladder(v) && 1 <= level <= Top(v) && At(v, s.cpu, Head(level, 1), e, t0)
    ensures Closing(v, level, FineEnd, e + 2 * v[level])
  {
    TwoLoops(v, level, e);
  }

  lemma SecondTwice(v: seq<nat>, prev: Operands, bits: Mask, slots: seq<nat>, c: Chunk, d: Chunk, b: Bit, s: System,
                    e: nat, t0: nat)
    returns (h: Segment, p': Place, e': nat)
    requires Ladder(v) && Sized(v, prev) && b in bits && SlotList(v, slots) && Fitting(v, slots, d)
    requires 1 <= d.level < c.level
    requires forall k: nat :: k < |prev.ors| ==> b !in prev.ors[k]
    requires CoarseArmed(v, s.mem, c.level, {}, b) && At(v, s.cpu, FineEnd, e, t0) && Closing(v, c.level, FineEnd, e)
    requires On(s.cpu.mode, b)
    ensures Legal(v, prev, bits, slots, d, s, h)
    ensures var r := After(s, h);
            && Between(v, r, d.level, b, p', e', t0) && !On(r.cpu.mode, b)
            && Shown(r.cpu, p', b) == OnCount(s.cpu.events, b) + 2 * d.count
  {
    hide At, Run, Play, Legal, CompletePass, CoarseArmed;
    var mvs, p1, e1 := SlippedPulse(v, prev, bits, slots, c.level, d, b, s, FineEnd, e, t0);
    var n := Play(s, mvs);
    CompleteMemory(s, mvs, PrepPlan(v, prev, bits, slots, d));
    OffIsBetween(v, prev, bits, slots, d, b, n, p1, e1, t0);
    var h0 := OnlyArm(v, prev, bits, slots, d, b, n, p1, e1, t0);
    AfterPass(v, prev, bits, slots, d, s, mvs, h0);
    h := Segment(mvs, h0.arm, h0.wait);
    p', e' := ChunkShows(v, prev, bits, slots, d, 0, b, n, h0, p1, e1, t0);
  }

  lemma OffIsBetween(v: seq<nat>, prev: Operands, bits: Mask, slots: seq<nat>, c: Chunk, b: Bit, s: System, p: Place,
                     e: nat, t0: nat)
    requires Ladder(v) && Sized(v, prev) && b in bits && 1 <= c.level <= Top(v)
    requires forall k: nat :: k < |prev.ors| ==> b !in prev.ors[k]
    requires s.mem == PrepPlan(v, prev, bits, slots, c) && At(v, s.cpu, p, e, t0) && p != Start && !On(s.cpu.mode, b)
    ensures Between(v, s, 0, b, p, e, t0) && MayStart(s, 0, c, b) && Shown(s.cpu, p, b) == OnCount(s.cpu.events, b)
  {
    CoarsePlans(v, prev, bits, slots, c, b);
  }

  /** The preparation pass is behind: arm and wait. */
  lemma OnlyArm(v: seq<nat>, prev: Operands, bits: Mask, slots: seq<nat>, c: Chunk, b: Bit, s: System, p: Place,
                e: nat, t0: nat)
    returns (g: Segment)
    requires Ladder(v) && Sized(v, prev) && b in bits && 1 <= c.level <= Top(v) && c.count == v[c.level]
    requires forall k: nat :: k < |prev.ors| ==> b !in prev.ors[k]
    requires s.mem == PrepPlan(v, prev, bits, slots, c) && At(v, s.cpu, p, e, t0) && p != Start && !On(s.cpu.mode, b)
    ensures g.prep == [] && Legal(v, prev, bits, slots, c, s, g)
    ensures After(s, g).cpu.tag > Armed(s, g).cpu.tag + 2 * c.count
  {
    var armed := ArmedPlan(v, prev, bits, slots, c);
    WriteAll(v, s, armed);
    var wait := CoarseWait(v, prev, bits, slots, c, b, s.(mem := armed), p, e, t0);
    g := Segment([], WritesFrom(armed, 0), wait);
    assert Play(s, []) == s;
  }

  // ---------------------------------------------------------------- whole schedules

  /** The events that have carried the bit so far, with the one about to go out. */
  function ShownNow(v: seq<nat>, c: Cpu, b: Bit): nat
    requires |v| >= 1
  {
    Shown(c, PlaceAt(v, c.pc), b)
  }

  /** Every execution that the software finds in order shows exactly the scheduled number of events. */
  ghost predicate AlwaysExact(v: seq<nat>, prev: Operands, bits: Mask, slots: seq<nat>, chunks: seq<Chunk>, b: Bit,
                              s: System)
    requires Ladder(v) && Sized(v, prev) && forall c :: c in chunks ==> Fitting(v, slots, c)
  {
    forall gs: seq<Segment> :: AllLegal(v, prev, bits, slots, chunks, s, gs) ==>
      ShownNow(v, PlayAll(s, gs).cpu, b) == ShownNow(v, s.cpu, b) + Total(chunks)
  }

  lemma {:induction false} LevelIsInTime(v: seq<nat>, prev: Operands, bits: Mask, slots: seq<nat>, chunks: seq<Chunk>,
                                         s: System, gs: seq<Segment>)
    requires Ladder(v) && Sized(v, prev) && (forall c :: c in chunks ==> Fitting(v, slots, c)) && Descending(chunks)
    requires Level(chunks) && AllLegal(v, prev, bits, slots, chunks, s, gs)
    ensures AllInTime(chunks, s, gs)
    decreases |chunks|
  {
    if |chunks| > 1 {
      RestFits(v, slots, chunks);
      assert !StepsDown(chunks, 0);
      forall i: nat ensures !StepsDown(chunks[1..], i) { assert !StepsDown(chunks, i + 1); }
      LevelIsInTime(v, prev, bits, slots, chunks[1..], After(s, gs[0]), gs[1..]);
    }
  }

  lemma ExactInTime(v: seq<nat>, prev: Operands, bits: Mask, slots: seq<nat>, chunks: seq<Chunk>, last: nat, b: Bit,
                    s: System, gs: seq<Segment>, p: Place, e: nat, t0: nat)
    requires Ladder(v) && Sized(v, prev) && b in bits && SlotList(v, slots)
    requires (forall c :: c in chunks ==> Fitting(v, slots, c)) && Descending(chunks)
    requires forall k: nat :: k < |prev.ors| ==> b !in prev.ors[k]
    requires Between(v, s, last, b, p, e, t0) && (chunks != [] ==> MayStart(s, last, chunks[0], b))
    requires AllLegal(v, prev, bits, slots, chunks, s, gs) && AllInTime(chunks, s, gs)
    ensures ShownNow(v, PlayAll(s, gs).cpu, b) == Shown(s.cpu, p, b) + Total(chunks)
  {
    var p', e' := ChunksShowTotal(v, prev, bits, slots, chunks, last, b, s, gs, p, e, t0);
  }

  /** Where a schedule steps down, an execution shows the lower chunk twice and every other chunk once. */
  lemma {:induction false} OvershootAt(v: seq<nat>, prev: Operands, bits: Mask, slots: seq<nat>, chunks: seq<Chunk>,
                                       i: nat, last: nat, b: Bit, s: System, p: Place, e: nat, t0: nat)
    returns (gs: seq<Segment>)
    requires Ladder(v) && Sized(v, prev) && b in bits && SlotList(v, slots)
    requires (forall c :: c in chunks ==> Fitting(v, slots, c)) && Descending(chunks) && StepsDown(chunks, i)
    requires forall k: nat :: k < |prev.ors| ==> b !in prev.ors[k]
    requires Between(v, s, last, b, p, e, t0) && MayStart(s, last, chunks[0], b)
    ensures AllLegal(v, prev, bits, slots, chunks, s, gs)
    ensures ShownNow(v, PlayAll(s, gs).cpu, b) == Shown(s.cpu, p, b) + Total(chunks) + chunks[i + 1].count
    decreases i
  {
    hide Between, Legal, After, Armed, Fitting, Descending, SlotList, Ladder, Shown, ShownNow;
    RestFits(v, slots, chunks);
    TotalFromFront(chunks);
    var c, rest := chunks[0], chunks[1..];
    if i == 0 {
      gs := OvershootFirst(v, prev, bits, slots, chunks, last, b, s, p, e, t0);
    } else {
      var g := ExecuteChunk(v, prev, bits, slots, c, last, b, s, p, e, t0);
      var p', e' := ChunkShows(v, prev, bits, slots, c, last, b, s, g, p, e, t0);
      assert StepsDown(rest, i - 1);
      var more := OvershootAt(v, prev, bits, slots, rest, i - 1, c.level, b, After(s, g), p', e', t0);
      gs := [g] + more;
      assert gs[1..] == more;
    }
  }

  lemma OvershootFirst(v: seq<nat>, prev: Operands, bits: Mask, slots: seq<nat>, chunks: seq<Chunk>, last: nat, b: Bit,
                       s: System, p: Place, e: nat, t0: nat)
    returns (gs: seq<Segment>)
    requires Ladder(v) && Sized(v, prev) && b in bits && SlotList(v, slots)
    requires (forall c :: c in chunks ==> Fitting(v, slots, c)) && Descending(chunks) && StepsDown(chunks, 0)
    requires forall k: nat :: k < |prev.ors| ==> b !in prev.ors[k]
    requires Between(v, s, last, b, p, e, t0) && MayStart(s, last, chunks[0], b)
    ensures AllLegal(v, prev, bits, slots, chunks, s, gs)
    ensures ShownNow(v, PlayAll(s, gs).cpu, b) == Shown(s.cpu, p, b) + Total(chunks) + chunks[1].count
  {
    hide Between, Legal, After, Armed, Fitting, Descending, SlotList, Ladder, Shown, ShownNow;
    RestFits(v, slots, chunks);
    RestFits(v, slots, chunks[1..]);
    TotalFromFront(chunks);
    TotalFromFront(chunks[1..]);
    var rest := chunks[1..][1..];
    var g, h, p', e' := StepDownOvershoots(v, prev, bits, slots, chunks[0], chunks[1], last, b, s, p, e, t0);
    var m := After(s, g);
    var more := ExecuteAll(v, prev, bits, slots, rest, chunks[1].level, b, After(m, h), p', e', t0);
    ExactInTime(v, prev, bits, slots, rest, chunks[1].level, b, After(m, h), more, p', e', t0);
    var later := [h] + more;
    assert later[1..] == more;
    assert AllLegal(v, prev, bits, slots, chunks[1..], m, later);
    gs := [g] + later;
    assert gs[1..] == later;
  }

  /** A schedule shows exactly its total in every execution if and only if it never steps down between coarse
      levels: from whatever state of the running plan it starts. */
  lemma ExactIffLevel(v: seq<nat>, prev: Operands, bits: Mask, slots: seq<nat>, chunks: seq<Chunk>, last: nat, b: Bit,
                      s: System, p: Place, e: nat, t0: nat)
    requires Ladder(v) && Sized(v, prev) && b in bits && SlotList(v, slots)
    requires (forall c :: c in chunks ==> Fitting(v, slots, c)) && Descending(chunks)
    requires forall k: nat :: k < |prev.ors| ==> b !in prev.ors[k]
    requires Between(v, s, last, b, p, e, t0) && (chunks != [] ==> MayStart(s, last, chunks[0], b))
    ensures AlwaysExact(v, prev, bits, slots, chunks, b, s) <==> Level(chunks)
  {
    assert ShownNow(v, s.cpu, b) == Shown(s.cpu, p, b);
    if Level(chunks) {
      forall gs: seq<Segment> | AllLegal(v, prev, bits, slots, chunks, s, gs)
        ensures ShownNow(v, PlayAll(s, gs).cpu, b) == ShownNow(v, s.cpu, b) + Total(chunks)
      {
        LevelIsInTime(v, prev, bits, slots, chunks, s, gs);
        ExactInTime(v, prev, bits, slots, chunks, last, b, s, gs, p, e, t0);
      }
    } else {
      var i: nat :| StepsDown(chunks, i);
      assert chunks[i + 1] in chunks && Rung(v, chunks[i + 1].level);
      var gs := OvershootAt(v, prev, bits, slots, chunks, i, last, b, s, p, e, t0);
    }
  }

  /** A request is executed exactly, whatever happens, if and only if its duty is not full or one coarse level is
      enough for its count. */
  lemma RequestIsExact(v: seq<nat>, wanted: Duty, count: nat, r: ShotPlan, prev: Operands, bits: Mask, last: nat, b: Bit,
                       s: System, p: Place, e: nat, t0: nat)
    requires Ladder(v) && PlanOf(v, wanted, count, r) && r.Scheduled? && Sized(v, prev) && b in bits
    requires forall k: nat :: k < |prev.ors| ==> b !in prev.ors[k]
    requires Between(v, s, last, b, p, e, t0) && (r.chunks != [] ==> MayStart(s, last, r.chunks[0], b))
    ensures (forall c :: c in r.chunks ==> Fitting(v, r.slots, c)) && Total(r.chunks) == count
    ensures AlwaysExact(v, prev, bits, r.slots, r.chunks, b, s) <==> OneLevelEnough(v, r.duty.m == r.duty.n, count)
  {
    hide Between, AlwaysExact, Level, OneLevelEnough;
    PlanFits(v, wanted, count, r);
    GreedyIsLevel(v, r.duty.m == r.duty.n, |r.slots|, count);
    ExactIffLevel(v, prev, bits, r.slots, r.chunks, last, b, s, p, e, t0);
  }

  // ---------------------------------------------------------------- the standard values

  lemma StandardLevel(remaining: nat)
    ensures 1000 <= remaining < 2000 ==> BestLevel(STANDARD_N, remaining, 9) == 2
    ensures 200 <= remaining < 1000 ==> BestLevel(STANDARD_N, remaining, 9) == 1
  {
    var l := BestLevel(STANDARD_N, remaining, 9);
    assert STANDARD_N[1] == 200 && STANDARD_N[2] == 1000 && STANDARD_N[3] == 2000;
    if l > 3 {
      StandardIsLadder();
      Ascends(STANDARD_N, 3, l);
    }
  }

  /** 1200 events at 100 % are executed as 1000 and 200. */
  lemma TwelveHundredPlan(r: ShotPlan)
    requires Ladder(STANDARD_N) && PlanOf(STANDARD_N, Duty(100, 100), 1200, r)
    ensures r.Scheduled? && r.duty == Duty(100, 100) && r.chunks == [Chunk(1000, 2), Chunk(200, 1)]
  {
    FullDuty(r.duty);
    var active := |r.slots|;
    StandardLevel(1200);
    StandardLevel(200);
    var c, rest := GreedyStep(STANDARD_N, true, active, 1200);
    var d, none := GreedyStep(STANDARD_N, true, active, 200);
    assert c == Chunk(1000, 2) && d == Chunk(200, 1);
  }

  lemma FullDuty(duty: Duty)
    requires Ladder(STANDARD_N) && Fixed(STANDARD_N, Duty(100, 100), duty)
    ensures duty == Duty(100, 100)
  {
    assert STANDARD_N[0] == 100 && Scaled(100, 100, STANDARD_N[0]) == 100;
  }

  /** A request of 1200 events at 100 % can show 1400. */
  lemma TwelveHundredBecomeFourteen(r: ShotPlan, prev: Operands, bits: Mask, last: nat, b: Bit, s: System, p: Place,
                                    e: nat, t0: nat)
    returns (gs: seq<Segment>)
    requires Ladder(STANDARD_N) && PlanOf(STANDARD_N, Duty(100, 100), 1200, r) && Sized(STANDARD_N, prev) && b in bits
    requires forall k: nat :: k < |prev.ors| ==> b !in prev.ors[k]
    requires Between(STANDARD_N, s, last, b, p, e, t0) && !On(s.cpu.mode, b)
    ensures r.Scheduled? && forall c :: c in r.chunks ==> Fitting(STANDARD_N, r.slots, c)
    ensures AllLegal(STANDARD_N, prev, bits, r.slots, r.chunks, s, gs)
    ensures ShownNow(STANDARD_N, PlayAll(s, gs).cpu, b) == Shown(s.cpu, p, b) + 1400
  {
    TwelveHundredPlan(r);
    PlanFits(STANDARD_N, Duty(100, 100), 1200, r);
    hide PlanOf, Ladder, Between, AllLegal;
    assert StepsDown(r.chunks, 0);
    gs := OvershootAt(STANDARD_N, prev, bits, r.slots, r.chunks, 0, last, b, s, p, e, t0);
  }
}
