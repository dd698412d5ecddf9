/** What the generators write, address by address and in plain numbers: the loop nest as it lies in memory, the slots a
    join switches on and off, what a leave and a chunk of a single-shot join leave of the masks found. */
module WrittenPlan {
  import opened ModeBits
  import opened RunPlanMachine
  import opened SharedPlan
  import opened DutyRatio
  import opened PlanGenerator
  import opened PlanControl
  import opened DutyCycle
  import opened SingleShot

  // ---------------------------------------------------------------- the memory layout

  /** The seven instructions of a fine slot. */
  function SlotOps(keep: Mask, on: Mask, shot: Mask, clocks: nat): seq<Instr> {
    [AndMode(keep), OrMode(on), OrSingleShot(shot), Heartbeat, Marker, Wait(clocks), IncTag]
  }

  /** Fine slot i in memory: behind SET_TAG, LABEL and three instructions for each coarse level. */
  function SlotAt(v: seq<nat>, plan: seq<Instr>, i: nat): seq<Instr>
    requires |v| > 0 && |plan| == 4 + 5 * (|v| - 1) + 7 * v[0] && i < v[0]
  {
    plan[2 + 3 * (|v| - 1) + 7 * i..2 + 3 * (|v| - 1) + 7 * i + 7]
  }

  /** What opens coarse level l, the outermost level lying first: its single shot, its OR and its loop. */
  function HeadAt(v: seq<nat>, plan: seq<Instr>, l: nat): (Instr, Instr, Instr)
    requires |v| > 0 && |plan| == 4 + 5 * (|v| - 1) + 7 * v[0] && 0 < l < |v|
  {
    var a := 2 + 3 * (|v| - 1 - l);
    (plan[a], plan[a + 1], plan[a + 2])
  }

  /** The AND behind the fine slots (level 0) or behind the DO_LOOP of level l. */
  function EndAt(v: seq<nat>, plan: seq<Instr>, l: nat): Instr
    requires |v| > 0 && |plan| == 4 + 5 * (|v| - 1) + 7 * v[0] && l < |v|
  {
    plan[2 + 3 * (|v| - 1) + 7 * v[0] + 2 * l]
  }

  lemma PlanSize(v: seq<nat>, x: Operands)
    requires Ladder(v) && Sized(v, x)
    ensures |Plan(v, x)| == 4 + 5 * (|v| - 1) + 7 * v[0]
  {
  }

  lemma SlotInstr(v: seq<nat>, x: Operands, i: nat, q: nat)
    requires Ladder(v) && Sized(v, x) && i < v[0] && q < 7
    ensures 2 + 3 * (|v| - 1) + 7 * i + q < |Plan(v, x)|
    ensures Plan(v, x)[2 + 3 * (|v| - 1) + 7 * i + q] == FineInstr(v, x, i, q)
  {
    FinePlace(v, i, q);
    assert Plan(v, x)[FineBase(v) + 7 * i + q] == InstrOf(v, x, Fine(i, q));
  }

  /** The seven instructions of fine slot i. */
  lemma SlotLiesAt(v: seq<nat>, x: Operands, i: nat)
    requires Ladder(v) && Sized(v, x) && i < v[0]
    ensures SlotAt(v, Plan(v, x), i) ==
            [AndMode(x.ands[i]), OrMode(x.ors[|v| - 1 + i]), OrSingleShot(x.shots[|v| - 1 + i]), Heartbeat, Marker,
             Wait(x.clocks), IncTag]
    ensures SlotAt(v, Plan(v, x), i) == SlotOps(x.ands[i], x.ors[|v| - 1 + i], x.shots[|v| - 1 + i], x.clocks)
  {
    var ops := SlotOps(x.ands[i], x.ors[|v| - 1 + i], x.shots[|v| - 1 + i], x.clocks);
    forall q: nat | q < 7 ensures ops[q] == FineInstr(v, x, i, q) {}
    PlanSize(v, x);
    hide Plan, FineInstr, SlotOps, Ladder;
    forall q: nat | q < 7 ensures SlotAt(v, Plan(v, x), i)[q] == ops[q] {
      SlotInstr(v, x, i, q);
    }
  }

  lemma HeadAtInstr(v: seq<nat>, x: Operands, l: nat, q: nat)
    requires Ladder(v) && Sized(v, x) && 0 < l < |v| && q < 3
    ensures 2 + 3 * (|v| - 1 - l) + q < |Plan(v, x)|
    ensures Plan(v, x)[2 + 3 * (|v| - 1 - l) + q] == HeadInstr(v, x, l, q)
  {
    HeadPlace(v, Top(v) - l, q);
    hide Ladder, PlaceAt;
    assert Plan(v, x)[2 + 3 * (Top(v) - l) + q] == InstrOf(v, x, Head(l, q));
  }

  /** Level l opens with its single shot and its OR, and repeats level l - 1 until v[l] events have gone out. */
  lemma HeadLiesAt(v: seq<nat>, x: Operands, l: nat)
    requires Ladder(v) && Sized(v, x) && 0 < l < |v|
    ensures var h := HeadAt(v, Plan(v, x), l);
            && h.0 == OrSingleShot(x.shots[|v| - 1 - l]) && h.1 == OrMode(x.ors[|v| - 1 - l])
            && h.2.Loop? && v[l] == h.2.count * v[l - 1]
  {
    hide Plan, Ladder, Ratio, HeadInstr;
    PlanSize(v, x);
    HeadAtInstr(v, x, l, 0);
    HeadAtInstr(v, x, l, 1);
    HeadAtInstr(v, x, l, 2);
    HeadParts(v, x, l);
  }

  lemma HeadParts(v: seq<nat>, x: Operands, l: nat)
    requires Ladder(v) && Sized(v, x) && 0 < l < |v|
    ensures HeadInstr(v, x, l, 0) == OrSingleShot(x.shots[|v| - 1 - l])
    ensures HeadInstr(v, x, l, 1) == OrMode(x.ors[|v| - 1 - l])
    ensures HeadInstr(v, x, l, 2).Loop? && v[l] == HeadInstr(v, x, l, 2).count * v[l - 1]
  {
    hide Ladder;
  }

  lemma HeadPlace(v: seq<nat>, coarse: nat, q: nat)
    requires Ladder(v) && coarse < |v| - 1 && q < 3
    ensures PlaceAt(v, 2 + 3 * coarse + q) == Head(Top(v) - coarse, q)
  {
    assert (3 * coarse + q) / 3 == coarse && (3 * coarse + q) % 3 == q;
  }

  /** Behind the fine slots lies one AND, then a DO_LOOP and an AND for each level, the innermost first. */
  lemma EndLiesAt(v: seq<nat>, x: Operands, l: nat)
    requires Ladder(v) && Sized(v, x) && l < |v|
    ensures EndAt(v, Plan(v, x), l) == AndMode(x.ands[v[0] + l])
    ensures l > 0 ==> Plan(v, x)[2 + 3 * (|v| - 1) + 7 * v[0] + 2 * l - 1] == DoLoop
  {
    hide Ladder, Plan, InstrOf;
    PlanSize(v, x);
    if l > 0 {
      TailAt(v, x, l, 0);
      TailAt(v, x, l, 1);
    } else {
      FineEndAt(v, x);
    }
  }

  lemma FineEndAt(v: seq<nat>, x: Operands)
    requires Ladder(v) && Sized(v, x)
    ensures 2 + 3 * (|v| - 1) + 7 * v[0] < |Plan(v, x)|
    ensures Plan(v, x)[2 + 3 * (|v| - 1) + 7 * v[0]] == AndMode(x.ands[v[0]])
  {
    assert PlaceAt(v, EndBase(v)) == FineEnd;
    assert Plan(v, x)[EndBase(v)] == InstrOf(v, x, FineEnd);
  }

  lemma TailAt(v: seq<nat>, x: Operands, l: nat, q: nat)
    requires Ladder(v) && Sized(v, x) && 0 < l < |v| && q < 2
    ensures 2 + 3 * (|v| - 1) + 7 * v[0] + 2 * l - 1 + q < |Plan(v, x)|
    ensures Plan(v, x)[2 + 3 * (|v| - 1) + 7 * v[0] + 2 * l - 1 + q] ==
            if q == 0 then DoLoop else AndMode(x.ands[v[0] + l])
  {
    TailPlace(v, l, q);
    assert Plan(v, x)[EndBase(v) + 2 * l - 1 + q] == InstrOf(v, x, Tail(l, q));
  }

  lemma TailPlace(v: seq<nat>, l: nat, q: nat)
    requires Ladder(v) && 0 < l < |v| && q < 2
    ensures PlaceAt(v, EndBase(v) + 2 * l - 1 + q) == Tail(l, q)
  {
    assert (2 * l - 2 + q) / 2 == l - 1 && (2 * l - 2 + q) % 2 == q;
  }

  /** The infinite loop: the tag is set once, and the last instruction goes back to the LABEL. */
  lemma LoopsForever(v: seq<nat>, x: Operands)
    requires Ladder(v) && Sized(v, x)
    ensures Plan(v, x)[0] == SetTag(x.initTag) && Plan(v, x)[1] == LabelHere && Plan(v, x)[|Plan(v, x)| - 1] == GotoLabel
  {
  }

  // ---------------------------------------------------------------- the pattern of a join

  lemma PhaseFromOffset(n: nat, offset: nat, i: nat, j: int, k: nat)
    requires k < n && i == offset + j * n + k
    ensures Phase(n, offset, i) == k
  {
    var c, y := offset / n + j + 1, i + n - offset % n;
    Whole(n, offset, j, c);
    assert y == n * c + k;
    if c < 0 {
      Negative(n, c, k);
      assert false;
    }
    DivModUnique(y, n, c, k);
  }

  lemma Whole(n: nat, offset: nat, j: int, c: int)
    requires n > 0 && c == offset / n + j + 1
    ensures offset + j * n + n == n * c + offset % n
  {
    var d := offset / n;
    assert offset == n * d + offset % n;
    assert n * (d + j + 1) == n * d + n * j + n;
  }

  lemma Negative(n: nat, c: int, k: nat)
    requires k < n && c < 0
    ensures n * c + k < 0
  {
    assert n * c <= n * -1;
  }

  /** Counted from the offset, in either direction, the first M of every N events are wanted. */
  lemma WantedFromOffset(v: seq<nat>, q: Request, e: nat, j: int, k: nat)
    requires Ladder(v) && Usable(v, q.duty) && q.duty.n <= v[0] && k < q.duty.n && e == q.offset + j * q.duty.n + k
    ensures Wanted(v, q, e) <==> k < q.duty.m
  {
    PhaseFromOffset(q.duty.n, q.offset, e, j, k);
  }

  /** A coarse request wants event 0 and every Nth from there, whatever its offset. */
  lemma WantedCoarse(v: seq<nat>, q: Request, j: nat, k: nat)
    requires Ladder(v) && Usable(v, q.duty) && q.duty.n > v[0] && k < q.duty.n
    ensures Wanted(v, q, j * q.duty.n + k) <==> k == 0
  {
    DivModUnique(j * q.duty.n + k, q.duty.n, j, k);
  }

  lemma FineDivides(v: seq<nat>, duty: Duty)
    requires Ladder(v) && Usable(v, duty) && duty.n <= v[0]
    ensures duty.n > 0 && v[0] % duty.n == 0
  {
  }

  /** The k-th slot from the offset on, wrapping at the end of the fine loop. */
  lemma SlotPhase(v: seq<nat>, duty: Duty, offset: nat, k: nat)
    requires Ladder(v) && Usable(v, duty) && 0 < duty.n <= v[0]
    ensures Phase(duty.n, offset, (offset + k) % v[0]) == k % duty.n
  {
    FineDivides(v, duty);
    var n, w := duty.n, v[0];
    var i, c := (offset + k) % w, w / n;
    assert w == n * c;
    assert offset + k == w * ((offset + k) / w) + i;
    assert w * ((offset + k) / w) == n * (c * ((offset + k) / w));
    assert k == n * (k / n) + k % n;
    var j := k / n - c * ((offset + k) / w);
    assert j * n == n * (k / n) - n * (c * ((offset + k) / w));
    PhaseFromOffset(n, offset, i, j, k % n);
  }

  /** A pass of a join with a fine ratio writes, at the k-th slot from the offset on: the bits kept and set in the first
      M of every N slots and cleared in the others; no single shot; the event duration as it was. */
  lemma JoinWritesSlot(v: seq<nat>, prev: Operands, q: Request, applyOrs: bool, k: nat)
    requires Ladder(v) && Sized(v, prev) && Usable(v, q.duty) && 0 < q.duty.n <= v[0]
    ensures var i, top := (q.offset + k) % v[0], |v| - 1;
            var on := k % q.duty.n < q.duty.m;
            && i < v[0]
            && SlotAt(v, Plan(v, JoinPass(v, prev, q, applyOrs)), i) ==
               SlotOps(prev.ands[i] * (if on then KEEP_ALL else KEEP_ALL - q.bits),
                       prev.ors[top + i] + (if on && applyOrs then q.bits else {}), {}, prev.clocks)
  {
    hide Plan, SlotAt, SlotOps;
    var i := (q.offset + k) % v[0];
    SlotPhase(v, q.duty, q.offset, k);
    SlotLiesAt(v, JoinPass(v, prev, q, applyOrs), i);
  }

  /** With a coarse ratio: slot 0 is left as it is, all others clear the bits, and the bits are set where the loop of N
      events opens and nowhere else. */
  lemma JoinWritesCoarse(v: seq<nat>, prev: Operands, q: Request, applyOrs: bool, i: nat, l: nat)
    requires Ladder(v) && Sized(v, prev) && Usable(v, q.duty) && q.duty.n > v[0] && i < v[0] && 0 < l < |v|
    ensures var top, plan := |v| - 1, Plan(v, JoinPass(v, prev, q, applyOrs));
            && SlotAt(v, plan, i) ==
               SlotOps(prev.ands[i] * (if i == 0 then KEEP_ALL else KEEP_ALL - q.bits), prev.ors[top + i], {}, prev.clocks)
            && HeadAt(v, plan, l).0 == OrSingleShot({})
            && HeadAt(v, plan, l).1 ==
               OrMode(prev.ors[top - l] + (if applyOrs && v[l] == q.duty.n then q.bits else {}))
  {
    hide Plan, SlotAt, SlotOps, HeadAt, Phase;
    var x := JoinPass(v, prev, q, applyOrs);
    SlotLiesAt(v, x, i);
    HeadLiesAt(v, x, l);
    assert prev.ors[Top(v) + i] + {} == prev.ors[Top(v) + i];
  }

  /** The ANDs behind the fine slots stay as a join finds them. */
  lemma JoinKeepsEnds(v: seq<nat>, prev: Operands, q: Request, applyOrs: bool, l: nat)
    requires Ladder(v) && Sized(v, prev) && l < |v|
    ensures EndAt(v, Plan(v, JoinPass(v, prev, q, applyOrs)), l) == AndMode(prev.ands[v[0] + l])
  {
    EndLiesAt(v, JoinPass(v, prev, q, applyOrs), l);
  }

  // ---------------------------------------------------------------- a leave

  /** A leave takes the bits out of every OR and every AND of a slot, and keeps them again behind the slots. */
  lemma LeaveWrites(v: seq<nat>, prev: Operands, bits: Mask, i: nat, l: nat)
    requires Ladder(v) && Sized(v, prev) && i < v[0] && l < |v|
    ensures var top, plan := |v| - 1, Plan(v, Left(v, prev, bits));
            && SlotAt(v, plan, i) == SlotOps(prev.ands[i] * (KEEP_ALL - bits), prev.ors[top + i] - bits, {}, prev.clocks)
            && EndAt(v, plan, l) == AndMode(prev.ands[v[0] + l] + bits)
            && (l > 0 ==> HeadAt(v, plan, l).0 == OrSingleShot({})
                          && HeadAt(v, plan, l).1 == OrMode(prev.ors[top - l] - bits))
  {
    hide Plan, SlotAt, SlotOps, HeadAt, EndAt;
    var x := Left(v, prev, bits);
    SlotLiesAt(v, x, i);
    EndLiesAt(v, x, l);
    if l > 0 { HeadLiesAt(v, x, l); }
  }

  /** The dummy plan clears the bits in every slot and touches nothing else. */
  lemma DummyWrites(v: seq<nat>, bits: Mask, clocks: nat, i: nat, l: nat)
    requires Ladder(v) && i < v[0] && l < |v|
    ensures var plan := Plan(v, Dummy(v, bits, clocks));
            && SlotAt(v, plan, i) == SlotOps(KEEP_ALL - bits, {}, {}, clocks) && EndAt(v, plan, l) == AndMode(KEEP_ALL)
            && (l > 0 ==> HeadAt(v, plan, l).0 == OrSingleShot({}) && HeadAt(v, plan, l).1 == OrMode({}))
  {
    hide Plan, SlotAt, SlotOps, HeadAt, EndAt;
    var x := Dummy(v, bits, clocks);
    SlotLiesAt(v, x, i);
    EndLiesAt(v, x, l);
    if l > 0 { HeadLiesAt(v, x, l); }
  }

  // ---------------------------------------------------------------- a chunk of a single-shot join

  /** Is the single shot of fine slot i, or of coarse level l, the one of this chunk? */
  predicate ArmsSlot(slots: seq<nat>, c: Chunk, i: nat)
    requires c.level == 0 ==> c.count <= |slots|
  {
    c.level == 0 && i in slots[..c.count]
  }

  /** What a chunk writes. A fine chunk clears the bits at every AND and arms the first `count` active slots; a coarse one
      keeps them at every AND but the closing one of its level and arms the head of that level only. Every OR and the event
      duration stay as they were found. */
  lemma ChunkWrites(v: seq<nat>, prev: Operands, bits: Mask, slots: seq<nat>, c: Chunk, armed: bool, i: nat, l: nat)
    requires Ladder(v) && Sized(v, prev) && c.level < |v| && (c.level == 0 ==> c.count <= |slots|) && i < v[0] && l < |v|
    ensures var top, plan := |v| - 1, Plan(v, ChunkOperands(v, prev, bits, slots, c, armed));
            && SlotAt(v, plan, i) ==
               SlotOps((if c.level > 0 then prev.ands[i] + bits else prev.ands[i] - bits) * KEEP_ALL, prev.ors[top + i],
                       if armed && ArmsSlot(slots, c, i) then bits else {}, prev.clocks)
            && EndAt(v, plan, l) ==
               AndMode(if c.level > 0 && l != c.level then prev.ands[v[0] + l] + bits else prev.ands[v[0] + l] - bits)
            && (l > 0 ==>
                  && HeadAt(v, plan, l).0 == OrSingleShot(if armed && c.level == l then bits else {})
                  && HeadAt(v, plan, l).1 == OrMode(prev.ors[top - l]))
  {
    hide Plan, SlotAt, SlotOps, HeadAt, EndAt;
    var x := ChunkOperands(v, prev, bits, slots, c, armed);
    ChunkMasks(v, prev, bits, slots, c, armed);
    hide ChunkOperands;
    SlotLiesAt(v, x, i);
    EndLiesAt(v, x, l);
    if l > 0 { HeadLiesAt(v, x, l); }
  }

  lemma ChunkMasks(v: seq<nat>, prev: Operands, bits: Mask, slots: seq<nat>, c: Chunk, armed: bool)
    requires Ladder(v) && Sized(v, prev) && c.level <= Top(v) && (c.level == 0 ==> c.count <= |slots|)
    ensures var x := ChunkOperands(v, prev, bits, slots, c, armed);
            && x.clocks == prev.clocks
            && (forall k: nat :: k < |x.ors| ==> x.ors[k] == prev.ors[k])
            && (forall k: nat :: k < |x.ands| ==>
                  var m := if c.level > 0 && k != v[0] + c.level then prev.ands[k] + bits else prev.ands[k] - bits;
                  x.ands[k] == if k < v[0] then m * KEEP_ALL else m)
            && (forall k: nat :: k < |x.shots| ==>
                  x.shots[k] == if armed && (if c.level > 0 then k == Top(v) - c.level
                                             else k >= Top(v) && ArmsSlot(slots, c, k - Top(v))) then bits else {})
  {
    var x := ChunkOperands(v, prev, bits, slots, c, armed);
    forall k: nat | k < |x.ors| ensures x.ors[k] == prev.ors[k] {
      assert prev.ors[k] + {} == prev.ors[k];
    }
    var m := ChunkGiven(v, prev, bits, slots, c, armed).ands;
    forall k: nat | k < v[0] ensures x.ands[k] == m[k] * KEEP_ALL {
      assert KEEP_ALL - {} == KEEP_ALL;
    }
  }
}
