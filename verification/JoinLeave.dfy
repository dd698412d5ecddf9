/** Joining and leaving leave every other subsystem alone; what the masks read back from the hardware say. */
module JoinLeave {
  import opened ModeBits
  import opened RunPlanMachine
  import opened SharedPlan
  import opened DutyRatio
  import opened PlanGenerator
  import opened PlanControl
  import opened BitRun
  import opened DutyCycle

  // ---------------------------------------------------------------- reading the masks back

  /** The operands of the AND instructions, in program order. */
  function CollectAnds(mem: seq<Instr>): seq<Mask> {
    if mem == [] then []
    else
      var last := mem[|mem| - 1];
      CollectAnds(mem[..|mem| - 1]) + (if last.AndMode? then [last.mask] else [])
  }

  /** The operands of the OR instructions, in program order. */
  function CollectOrs(mem: seq<Instr>): seq<Mask> {
    if mem == [] then []
    else
      var last := mem[|mem| - 1];
      CollectOrs(mem[..|mem| - 1]) + (if last.OrMode? then [last.mask] else [])
  }

  function AndsBefore(v: seq<nat>, p: Place): nat
    requires Ladder(v)
  {
    match p
    case Fine(i, q) => if q == 0 then i else i + 1
    case FineEnd => v[0]
    case Tail(l, _) => v[0] + l
    case Goto => v[0] + 1 + Top(v)
    case Outside => v[0] + 1 + Top(v)
    case _ => 0
  }

  function OrsBefore(v: seq<nat>, p: Place): nat
    requires Ladder(v) && (p.Head? ==> p.level <= Top(v))
  {
    match p
    case Start => 0
    case LabelOp => 0
    case Head(l, q) => if q < 2 then Top(v) - l else Top(v) - l + 1
    case Fine(i, q) => if q < 2 then Top(v) + i else Top(v) + i + 1
    case _ => Top(v) + v[0]
  }

  /** One more instruction collects at most the next mask of its vector. */
  lemma CollectedNext(v: seq<nat>, x: Operands, k: nat)
    requires Ladder(v) && Sized(v, x) && k < Length(v)
    ensures var i, m, n := Plan(v, x)[k], PlaceAt(v, k), PlaceAt(v, k + 1);
            && AndsBefore(v, n) == AndsBefore(v, m) + (if i.AndMode? then 1 else 0) <= |x.ands|
            && OrsBefore(v, n) == OrsBefore(v, m) + (if i.OrMode? then 1 else 0) <= |x.ors|
            && (i.AndMode? ==> i.mask == x.ands[AndsBefore(v, m)])
            && (i.OrMode? ==> i.mask == x.ors[OrsBefore(v, m)])
  {
    PlaceAfter(v, k);
    assert Plan(v, x)[k] == InstrOf(v, x, PlaceAt(v, k));
  }

  lemma CollectOneMore(mem: seq<Instr>, k: nat)
    requires k < |mem|
    ensures CollectAnds(mem[..k + 1]) == CollectAnds(mem[..k]) + (if mem[k].AndMode? then [mem[k].mask] else [])
    ensures CollectOrs(mem[..k + 1]) == CollectOrs(mem[..k]) + (if mem[k].OrMode? then [mem[k].mask] else [])
  {
    assert mem[..k + 1][..k] == mem[..k];
  }

  ghost predicate Collected(v: seq<nat>, x: Operands, plan: seq<Instr>, k: nat)
    requires Ladder(v) && k <= |plan|
  {
    var ands, ors := AndsBefore(v, PlaceAt(v, k)), OrsBefore(v, PlaceAt(v, k));
    && ands <= |x.ands| && CollectAnds(plan[..k]) == x.ands[..ands]
    && ors <= |x.ors| && CollectOrs(plan[..k]) == x.ors[..ors]
  }

  lemma CollectedAnds(v: seq<nat>, x: Operands, plan: seq<Instr>, k: nat)
    requires Ladder(v) && Sized(v, x) && k < Length(v) && plan == Plan(v, x)
    requires var n := AndsBefore(v, PlaceAt(v, k)); n <= |x.ands| && CollectAnds(plan[..k]) == x.ands[..n]
    ensures var n := AndsBefore(v, PlaceAt(v, k + 1)); n <= |x.ands| && CollectAnds(plan[..k + 1]) == x.ands[..n]
  {
    CollectedNext(v, x, k);
    CollectOneMore(plan, k);
    hide *;
    var i := plan[k];
    TakeMore(x.ands, AndsBefore(v, PlaceAt(v, k)), CollectAnds(plan[..k]), i.AndMode?,
             if i.AndMode? then i.mask else {});
  }

  lemma CollectedOrs(v: seq<nat>, x: Operands, plan: seq<Instr>, k: nat)
    requires Ladder(v) && Sized(v, x) && k < Length(v) && plan == Plan(v, x)
    requires var n := OrsBefore(v, PlaceAt(v, k)); n <= |x.ors| && CollectOrs(plan[..k]) == x.ors[..n]
    ensures var n := OrsBefore(v, PlaceAt(v, k + 1)); n <= |x.ors| && CollectOrs(plan[..k + 1]) == x.ors[..n]
  {
    CollectedNext(v, x, k);
    CollectOneMore(plan, k);
    hide *;
    var i := plan[k];
    TakeMore(x.ors, OrsBefore(v, PlaceAt(v, k)), CollectOrs(plan[..k]), i.OrMode?, if i.OrMode? then i.mask else {});
  }

  lemma CollectedStep(v: seq<nat>, x: Operands, plan: seq<Instr>, k: nat)
    requires Ladder(v) && Sized(v, x) && k < Length(v) && plan == Plan(v, x) && Collected(v, x, plan, k)
    ensures Collected(v, x, plan, k + 1)
  {
    CollectedAnds(v, x, plan, k);
    CollectedOrs(v, x, plan, k);
  }

  lemma TakeMore(xs: seq<Mask>, n: nat, got: seq<Mask>, more: bool, x: Mask)
    requires n + (if more then 1 else 0) <= |xs| && got == xs[..n] && (more ==> x == xs[n])
    ensures got + (if more then [x] else []) == xs[..n + if more then 1 else 0]
  {
  }

  lemma {:induction false} CollectedPrefix(v: seq<nat>, x: Operands, plan: seq<Instr>, k: nat)
    requires Ladder(v) && Sized(v, x) && k <= Length(v) && plan == Plan(v, x)
    ensures Collected(v, x, plan, k)
    decreases k
  {
    if k > 0 {
      CollectedPrefix(v, x, plan, k - 1);
      CollectedStep(v, x, plan, k - 1);
    }
  }

  /** Reading the AND and OR operands of a running plan returns the mask vectors it was generated from. */
  lemma CollectInvertsPlan(v: seq<nat>, x: Operands)
    requires Ladder(v) && Sized(v, x)
    ensures CollectAnds(Plan(v, x)) == x.ands && CollectOrs(Plan(v, x)) == x.ors
  {
    CollectedPrefix(v, x, Plan(v, x), Length(v));
    assert Plan(v, x)[..Length(v)] == Plan(v, x);
    assert x.ands[..|x.ands|] == x.ands && x.ors[..|x.ors|] == x.ors;
  }

  /** Collecting the masks of a plan and generating again without new bits writes the same plan. */
  lemma RegenerateReproduces(v: seq<nat>, x: Operands, duty: Duty, offset: nat, applyOrs: bool)
    requires Ladder(v) && Sized(v, x) && Quiet(v, x)
    requires forall k: nat :: k < |x.ands| ==> x.ands[k] <= KEEP_ALL
    ensures var plan := Plan(v, x);
            var given := Given(v, CollectAnds(plan), CollectOrs(plan), [], x.clocks, x.initTag);
            Sized(v, given) && Plan(v, Joined(v, given, Request({}, duty, offset), applyOrs)) == plan
  {
    CollectInvertsPlan(v, x);
    var given := Given(v, x.ands, x.ors, [], x.clocks, x.initTag);
    var y := Joined(v, given, Request({}, duty, offset), applyOrs);
    assert y.shots == x.shots;
    forall k: nat | k < |x.ands| ensures y.ands[k] == x.ands[k] {
      assert x.ands[k] * KEEP_ALL == x.ands[k];
      assert KEEP_ALL - {} == KEEP_ALL;
    }
    forall k: nat | k < |x.ors| ensures y.ors[k] == x.ors[k] {
      assert x.ors[k] + {} == x.ors[k];
    }
    assert y.ands == x.ands && y.ors == x.ors;
  }

  // ---------------------------------------------------------------- non-interference

  /** The two instructions treat bit b alike. */
  predicate AlikeAt(i: Instr, j: Instr, b: Bit) {
    SameOpcode(i, j) && (i.AndMode? || i.OrMode? || i.OrSingleShot? ==> On(i.mask, b) == On(j.mask, b))
  }

  ghost predicate Alike(xs: seq<Instr>, ys: seq<Instr>, b: Bit) {
    |xs| == |ys| && forall a: nat :: a < |xs| ==> AlikeAt(xs[a], ys[a], b)
  }

  /** Two processors that differ at most in tags and other bits. */
  ghost predicate Twins(c: Cpu, d: Cpu, b: Bit) {
    && c.pc == d.pc && c.labelPc == d.labelPc && c.frames == d.frames
    && On(c.mode, b) == On(d.mode, b)
    && |c.events| == |d.events|
    && forall e: nat :: e < |c.events| ==> EventOn(c, e, b) == EventOn(d, e, b)
  }

  lemma TwinsControl(s: System, r: System, b: Bit)
    requires Alike(s.mem, r.mem, b) && Twins(s.cpu, r.cpu, b) && s.cpu.pc < |s.mem|
    ensures var c, d := Step(s).cpu, Step(r).cpu;
            c.pc == d.pc && c.labelPc == d.labelPc && c.frames == d.frames && On(c.mode, b) == On(d.mode, b)
  {
    assert AlikeAt(s.mem[s.cpu.pc], r.mem[r.cpu.pc], b);
  }

  lemma TwinsSend(s: System, r: System, b: Bit)
    requires Alike(s.mem, r.mem, b) && Twins(s.cpu, r.cpu, b) && s.cpu.pc < |s.mem|
    ensures var c, d := Step(s).cpu, Step(r).cpu;
            && |c.events| == |d.events|
            && forall e: nat :: e < |c.events| ==> EventOn(c, e, b) == EventOn(d, e, b)
  {
    assert AlikeAt(s.mem[s.cpu.pc], r.mem[r.cpu.pc], b);
    var c, d := Step(s).cpu, Step(r).cpu;
    forall e: nat | e < |c.events| ensures e < |d.events| && EventOn(c, e, b) == EventOn(d, e, b) {
      if e < |s.cpu.events| {
        assert EventOn(s.cpu, e, b) == EventOn(r.cpu, e, b);
      }
    }
  }

  lemma TwinStep(s: System, r: System, b: Bit)
    requires Alike(s.mem, r.mem, b) && Twins(s.cpu, r.cpu, b)
    ensures Alike(Step(s).mem, Step(r).mem, b) && Twins(Step(s).cpu, Step(r).cpu, b)
  {
    if s.cpu.pc < |s.mem| {
      TwinsControl(s, r, b);
      TwinsSend(s, r, b);
      assert AlikeAt(s.mem[s.cpu.pc], r.mem[r.cpu.pc], b);
    }
  }

  lemma {:induction false} TwinRun(s: System, r: System, b: Bit, steps: nat)
    requires Alike(s.mem, r.mem, b) && Twins(s.cpu, r.cpu, b)
    ensures Twins(Run(s, steps).cpu, Run(r, steps).cpu, b)
    decreases steps
  {
    if steps > 0 {
      TwinStep(s, r, b);
      TwinRun(Step(s), Step(r), b, steps - 1);
    }
  }

  /** Replacing one plan by the other at any moment changes no event as far as bit b is concerned. */
  ghost predicate Indistinguishable(xs: seq<Instr>, ys: seq<Instr>, b: Bit) {
    forall c: Cpu, steps: nat :: Twins(Run(System(xs, c), steps).cpu, Run(System(ys, c), steps).cpu, b)
  }

  lemma AlikeIndistinguishable(xs: seq<Instr>, ys: seq<Instr>, b: Bit)
    requires Alike(xs, ys, b)
    ensures Indistinguishable(xs, ys, b)
  {
    forall c: Cpu, steps: nat ensures Twins(Run(System(xs, c), steps).cpu, Run(System(ys, c), steps).cpu, b) {
      TwinRun(System(xs, c), System(ys, c), b, steps);
    }
  }

  /** No single shot of bit b is waiting. */
  ghost predicate NoneWaits(x: Operands, b: Bit) {
    forall k: nat :: k < |x.shots| ==> b !in x.shots[k]
  }

  lemma JoinAlikeAt(v: seq<nat>, prev: Operands, q: Request, applyOrs: bool, b: Bit, a: nat)
    requires Ladder(v) && Sized(v, prev) && NoneWaits(prev, b) && b !in q.bits && a < Length(v)
    ensures AlikeAt(Plan(v, prev)[a], Plan(v, JoinPass(v, prev, q, applyOrs))[a], b)
  {
    var p := PlaceAt(v, a);
    assert AlikeAt(InstrOf(v, prev, p), InstrOf(v, JoinPass(v, prev, q, applyOrs), p), b);
  }

  lemma JoinAlike(v: seq<nat>, prev: Operands, q: Request, applyOrs: bool, b: Bit)
    requires Ladder(v) && Sized(v, prev) && NoneWaits(prev, b) && b !in q.bits
    ensures Alike(Plan(v, prev), Plan(v, JoinPass(v, prev, q, applyOrs)), b)
  {
    forall a: nat | a < Length(v) ensures AlikeAt(Plan(v, prev)[a], Plan(v, JoinPass(v, prev, q, applyOrs))[a], b) {
      JoinAlikeAt(v, prev, q, applyOrs, b, a);
    }
  }

  /** What a pass of a join writes makes no difference to another bit of which no single shot is waiting. */
  lemma JoinSparesOthers(v: seq<nat>, prev: Operands, q: Request, applyOrs: bool, b: Bit)
    requires Ladder(v) && Sized(v, prev) && NoneWaits(prev, b) && b !in q.bits
    ensures Indistinguishable(Plan(v, prev), Plan(v, JoinPass(v, prev, q, applyOrs)), b)
  {
    JoinAlike(v, prev, q, applyOrs, b);
    AlikeIndistinguishable(Plan(v, prev), Plan(v, JoinPass(v, prev, q, applyOrs)), b);
  }

  lemma LeaveAlikeAt(v: seq<nat>, prev: Operands, bits: Mask, b: Bit, a: nat)
    requires Ladder(v) && Sized(v, prev) && NoneWaits(prev, b) && b !in bits && a < Length(v)
    ensures AlikeAt(Plan(v, prev)[a], Plan(v, Left(v, prev, bits))[a], b)
  {
    var p := PlaceAt(v, a);
    assert AlikeAt(InstrOf(v, prev, p), InstrOf(v, Left(v, prev, bits), p), b);
  }

  lemma LeaveAlike(v: seq<nat>, prev: Operands, bits: Mask, b: Bit)
    requires Ladder(v) && Sized(v, prev) && NoneWaits(prev, b) && b !in bits
    ensures Alike(Plan(v, prev), Plan(v, Left(v, prev, bits)), b)
  {
    forall a: nat | a < Length(v) ensures AlikeAt(Plan(v, prev)[a], Plan(v, Left(v, prev, bits))[a], b) {
      LeaveAlikeAt(v, prev, bits, b, a);
    }
  }

  lemma LeaveSparesOthers(v: seq<nat>, prev: Operands, bits: Mask, b: Bit)
    requires Ladder(v) && Sized(v, prev) && NoneWaits(prev, b) && b !in bits
    ensures Indistinguishable(Plan(v, prev), Plan(v, Left(v, prev, bits)), b)
  {
    LeaveAlike(v, prev, bits, b);
    AlikeIndistinguishable(Plan(v, prev), Plan(v, Left(v, prev, bits)), b);
  }

  // ---------------------------------------------------------------- after a leave

  /** Every fine slot clears the bit and none sets it: the bit is off whenever a HEARTBEAT is near. */
  ghost predicate Muted(v: seq<nat>, x: Operands, b: Bit)
    requires Ladder(v) && Sized(v, x)
  {
    forall i: nat :: i < v[0] ==> !FineAnd(v, x, i, b) && !FineOr(v, x, i, b)
  }

  /** The bit is set although the AND of the present slot lies behind: it may go out once more. */
  predicate LastCall(p: Place, on: bool) {
    on && p.Fine? && 1 <= p.part <= 3
  }

  lemma MutedStep(v: seq<nat>, x: Operands, b: Bit, s: System, p: Place, e: nat, t0: nat)
    requires Ladder(v) && Sized(v, x) && Quiet(v, x) && Muted(v, x, b) && s.mem == Plan(v, x)
    requires At(v, s.cpu, p, e, t0) && (p == Start ==> t0 == x.initTag)
    ensures Step(s).mem == s.mem
    ensures At(v, Step(s).cpu, NextPlace(v, p, e), NextEvent(p, e), t0)
    ensures LastCall(NextPlace(v, p, e), On(Step(s).cpu.mode, b)) ==>
              LastCall(p, On(s.cpu.mode, b)) && !(p.Fine? && p.part == 3)
    ensures Step(s).cpu.events ==
            if p.Fine? && p.part == 3 then s.cpu.events + [Event(s.cpu.tag, s.cpu.mode)] else s.cpu.events
  {
    PlanIsSkeletal(v, x);
    QuietStep(v, x, s);
    StepEffect(s, b);
    NextBitIsEffect(v, x, b, s.cpu.pc, On(s.cpu.mode, b));
    StepSends(v, s, p);
    ControlStep(v, s, p, e, t0);
  }

  lemma {:induction false} MutedRun(v: seq<nat>, x: Operands, b: Bit, s: System, p: Place, e: nat, t0: nat, steps: nat,
                                    k: nat)
    requires Ladder(v) && Sized(v, x) && Quiet(v, x) && Muted(v, x, b) && s.mem == Plan(v, x)
    requires At(v, s.cpu, p, e, t0) && (p == Start ==> t0 == x.initTag)
    requires |s.cpu.events| <= k < |Run(s, steps).cpu.events|
    requires LastCall(p, On(s.cpu.mode, b)) ==> k > |s.cpu.events|
    ensures !EventOn(Run(s, steps).cpu, k, b)
    decreases steps
  {
    hide OpenAt, PlaceAt, Counted, Step, Muted, Quiet, Plan;
    if steps > 0 {
      MutedStep(v, x, b, s, p, e, t0);
      if k < |Step(s).cpu.events| {
        RunKeepsEvent(Step(s), steps - 1, k);
      } else {
        MutedRun(v, x, b, Step(s), NextPlace(v, p, e), NextEvent(p, e), t0, steps - 1, k);
      }
    }
  }

  lemma {:induction false} RunKeepsEvent(s: System, steps: nat, k: nat)
    requires k < |s.cpu.events|
    ensures k < |Run(s, steps).cpu.events| && Run(s, steps).cpu.events[k] == s.cpu.events[k]
    decreases steps
  {
    if steps > 0 {
      StepKeepsEvents(s);
      RunKeepsEvent(Step(s), steps - 1, k);
    }
  }

  /** After a leave, from wherever the plan is, no event carries a removed bit, except possibly the one whose
      slot had already passed its AND with the bit set. */
  lemma LeaveSilences(v: seq<nat>, prev: Operands, bits: Mask, b: Bit, s: System, p: Place, e: nat, t0: nat, steps: nat,
                      k: nat)
    requires Ladder(v) && Sized(v, prev) && b in bits
    requires s.mem == Plan(v, Left(v, prev, bits))
    requires At(v, s.cpu, p, e, t0) && p != Start
    requires |s.cpu.events| <= k < |Run(s, steps).cpu.events|
    requires LastCall(p, On(s.cpu.mode, b)) ==> k > |s.cpu.events|
    ensures !EventOn(Run(s, steps).cpu, k, b)
  {
    MutedRun(v, Left(v, prev, bits), b, s, p, e, t0, steps, k);
  }

  /** A subsystem that left and joins again with a fine ratio gets exactly its events. */
  lemma RejoinFineDelivers(v: seq<nat>, prev: Operands, q: Request, b: Bit)
    requires Ladder(v) && Sized(v, prev) && Usable(v, q.duty) && b in q.bits && q.duty.n <= v[0]
    ensures Delivers(v, JoinPass(v, Left(v, prev, q.bits), q, true), q, b)
  {
    JoinDeliversExactly(v, Left(v, prev, q.bits), q, b);
  }

  /** A subsystem that left and joins again with a coarse ratio gets no event at all, from wherever the plan is:
      leaving clears the bit in the AND of slot 0 and the coarse join does not bring it back. */
  lemma RejoinCoarseIsSilent(v: seq<nat>, prev: Operands, q: Request, b: Bit, s: System, p: Place, e: nat, t0: nat,
                             steps: nat, k: nat)
    requires Ladder(v) && Sized(v, prev) && Usable(v, q.duty) && b in q.bits && q.duty.n > v[0]
    requires s.mem == Plan(v, JoinPass(v, Left(v, prev, q.bits), q, true))
    requires At(v, s.cpu, p, e, t0) && (p == Start ==> t0 == 0)
    requires |s.cpu.events| <= k < |Run(s, steps).cpu.events|
    requires LastCall(p, On(s.cpu.mode, b)) ==> k > |s.cpu.events|
    ensures !EventOn(Run(s, steps).cpu, k, b)
  {
    var left := Found(v, Left(v, prev, q.bits));
    var x := Joined(v, left, q, true);
    forall i: nat | i < v[0] ensures !FineAnd(v, x, i, b) && !FineOr(v, x, i, b) {
      JoinedFine(v, left, q, b, i);
    }
    MutedRun(v, x, b, s, p, e, t0, steps, k);
  }
}
