/** What joining and leaving do to the other subsystems while the plan is being rewritten, and to their single shots
    that are still waiting. */
module Neighbours {
  import opened ModeBits
  import opened RunPlanMachine
  import opened SharedPlan
  import opened PlanGenerator
  import opened PlanControl
  import opened BitRun
  import opened JoinLeave
  import opened LiveRewrite

  function Execs(mvs: seq<Move>): nat
    decreases |mvs|
  {
    if mvs == [] then 0 else (if mvs[0].Exec? then 1 else 0) + Execs(mvs[1..])
  }

  /** Writing an instruction that treats the bit alike makes no difference to it. */
  lemma WriteAlike(s: System, r: System, mv: Move, target: seq<Instr>, b: Bit)
    requires Alike(s.mem, r.mem, b) && Alike(target, r.mem, b) && Towards([mv], target) && mv.Write?
    ensures Alike(Apply(s, mv).mem, r.mem, b) && Apply(s, mv).cpu == s.cpu
  {
    assert mv == [mv][0];
    forall a: nat | a < |s.mem| ensures AlikeAt(Apply(s, mv).mem[a], r.mem[a], b) {
      if a == mv.addr { assert AlikeAt(target[a], r.mem[a], b); } else { assert AlikeAt(s.mem[a], r.mem[a], b); }
    }
  }

  lemma StepStaysAlike(target: seq<Instr>, r: System, b: Bit)
    requires Alike(target, r.mem, b) && forall a: nat :: a < |target| && target[a].OrSingleShot? ==> b !in target[a].mask
    ensures Alike(target, Step(r).mem, b)
  {
    forall a: nat | a < |target| ensures AlikeAt(target[a], Step(r).mem[a], b) {
      assert AlikeAt(target[a], r.mem[a], b);
    }
  }

  /** A plan that is being overwritten, in any interleaving, and its twin that is left alone send the same. */
  lemma {:induction false} TwinPlay(s: System, r: System, mvs: seq<Move>, target: seq<Instr>, b: Bit)
    requires Alike(s.mem, r.mem, b) && Twins(s.cpu, r.cpu, b) && Alike(target, r.mem, b) && Towards(mvs, target)
    requires forall a: nat :: a < |target| && target[a].OrSingleShot? ==> b !in target[a].mask
    ensures var s', r' := Play(s, mvs), Run(r, Execs(mvs));
            Alike(s'.mem, r'.mem, b) && Twins(s'.cpu, r'.cpu, b) && Alike(target, r'.mem, b)
    decreases |mvs|
  {
    if mvs != [] {
      assert Towards([mvs[0]], target);
      if mvs[0].Exec? {
        TwinStep(s, r, b);
        StepStaysAlike(target, r, b);
        TwinPlay(Step(s), Step(r), mvs[1..], target, b);
      } else {
        WriteAlike(s, r, mvs[0], target, b);
        TwinPlay(Apply(s, mvs[0]), r, mvs[1..], target, b);
      }
    }
  }

  lemma NoShotInPass(v: seq<nat>, x: Operands, b: Bit)
    requires Ladder(v) && Sized(v, x) && NoneWaits(x, b)
    ensures forall a: nat :: a < Length(v) && Plan(v, x)[a].OrSingleShot? ==> b !in Plan(v, x)[a].mask
  {
    forall a: nat | a < Length(v) && Plan(v, x)[a].OrSingleShot? ensures b !in Plan(v, x)[a].mask {
      assert Plan(v, x)[a] == InstrOf(v, x, PlaceAt(v, a));
    }
  }

  /** Plans alike to a third are alike. */
  lemma AlikeVia(xs: seq<Instr>, ys: seq<Instr>, zs: seq<Instr>, b: Bit)
    requires Alike(xs, ys, b) && Alike(xs, zs, b)
    ensures Alike(ys, zs, b)
  {
    forall a: nat | a < |ys| ensures AlikeAt(ys[a], zs[a], b) {
      assert AlikeAt(xs[a], ys[a], b) && AlikeAt(xs[a], zs[a], b);
    }
  }

  /** While both passes of a join are written instruction by instruction, in any interleaving with the processor,
      every other bit goes out exactly as it would have without the join. */
  lemma JoinSparesOthersLive(v: seq<nat>, prev: Operands, q: Request, b: Bit, c: Cpu, pass1: seq<Move>, pass2: seq<Move>)
    requires Ladder(v) && Sized(v, prev) && NoneWaits(prev, b) && b !in q.bits
    requires Towards(pass1, Plan(v, JoinPass(v, prev, q, false))) && Towards(pass2, Plan(v, JoinPass(v, prev, q, true)))
    ensures var s := System(Plan(v, prev), c);
            Twins(Play(s, pass1 + pass2).cpu, Run(s, Execs(pass1) + Execs(pass2)).cpu, b)
  {
    hide Alike, Twins, Plan, Towards, NoneWaits, Play, Run, Execs;
    var t1, t2 := Plan(v, JoinPass(v, prev, q, false)), Plan(v, JoinPass(v, prev, q, true));
    JoinAlike(v, prev, q, false, b);
    JoinAlike(v, prev, q, true, b);
    NoShotInPass(v, JoinPass(v, prev, q, false), b);
    NoShotInPass(v, JoinPass(v, prev, q, true), b);
    TwoPasses(System(Plan(v, prev), c), t1, t2, b, pass1, pass2);
  }

  lemma TwoPasses(s: System, t1: seq<Instr>, t2: seq<Instr>, b: Bit, pass1: seq<Move>, pass2: seq<Move>)
    requires Alike(s.mem, t1, b) && Alike(s.mem, t2, b) && Towards(pass1, t1) && Towards(pass2, t2)
    requires forall a: nat :: a < |t1| && t1[a].OrSingleShot? ==> b !in t1[a].mask
    requires forall a: nat :: a < |t2| && t2[a].OrSingleShot? ==> b !in t2[a].mask
    ensures Twins(Play(s, pass1 + pass2).cpu, Run(s, Execs(pass1) + Execs(pass2)).cpu, b)
  {
    hide Alike, Run, Play, Execs;
    SelfAlike(s.mem, b);
    AlikeVia(s.mem, t1, s.mem, b);
    AlikeVia(s.mem, t1, t2, b);
    TwinPlay(s, s, pass1, t1, b);
    AlikeVia(t1, t2, Run(s, Execs(pass1)).mem, b);
    TwinPlay(Play(s, pass1), Run(s, Execs(pass1)), pass2, t2, b);
    PlayAdds(s, pass1, pass2);
    RunAdds(s, Execs(pass1), Execs(pass2));
  }

  /** The same for the one pass of a leave. */
  lemma LeaveSparesOthersLive(v: seq<nat>, prev: Operands, bits: Mask, b: Bit, c: Cpu, pass: seq<Move>)
    requires Ladder(v) && Sized(v, prev) && NoneWaits(prev, b) && b !in bits
    requires Towards(pass, Plan(v, Left(v, prev, bits)))
    ensures var s := System(Plan(v, prev), c);
            Twins(Play(s, pass).cpu, Run(s, Execs(pass)).cpu, b)
  {
    var s := System(Plan(v, prev), c);
    SelfAlike(s.mem, b);
    LeaveAlike(v, prev, bits, b);
    NoShotInPass(v, Left(v, prev, bits), b);
    AlikeVia(s.mem, Plan(v, Left(v, prev, bits)), s.mem, b);
    TwinPlay(s, s, pass, Plan(v, Left(v, prev, bits)), b);
  }

  lemma SelfAlike(xs: seq<Instr>, b: Bit)
    ensures Alike(xs, xs, b)
  {
  }

  // ---------------------------------------------------------------- single shots that are still waiting

  /** In memory without a waiting shot or an OR of the bit a bit that is off stays off. */
  lemma {:induction false} DarkRun(s: System, b: Bit, steps: nat)
    requires Dark(s.mem, b) && !On(s.cpu.mode, b) && forall a: nat :: a < |s.mem| ==> !s.mem[a].HeartbeatMode?
    ensures var r := Run(s, steps);
            && s.cpu.events <= r.cpu.events
            && forall k: nat :: |s.cpu.events| <= k < |r.cpu.events| ==> !EventOn(r.cpu, k, b)
    decreases steps
  {
    if steps > 0 {
      if s.cpu.pc < |s.mem| { StepEffect(s, b); }
      var d, r := Step(s).cpu, Run(s, steps).cpu;
      StepKeepsEvents(s);
      DarkRun(Step(s), b, steps - 1);
      forall k: nat | |s.cpu.events| <= k < |r.events| ensures !EventOn(r, k, b) {
        if k < |d.events| { assert r.events[k] == d.events[k]; }
      }
    }
  }

  /** From the place of a waiting shot to the HEARTBEAT of slot 0 nothing takes the bit away. */
  lemma {:induction false} LitUntilEvent(v: seq<nat>, s: System, b: Bit, p: Place, e: nat, t0: nat) returns (steps: nat)
    requires Skeletal(v, s.mem) && At(v, s.cpu, p, e, t0)
    requires p.Head? || (p.Fine? && p.slot == 0 && p.part <= 3)
    requires On(s.cpu.mode, b) && s.mem[FineBase(v)].AndMode? && On(s.mem[FineBase(v)].mask, b)
    ensures |Run(s, steps).cpu.events| == |s.cpu.events| + 1 && EventOn(Run(s, steps).cpu, |s.cpu.events|, b)
    decreases Distance(v, p)
  {
    hide OpenAt, PlaceAt, Counted, Fits, Step, On, Skeletal;
    ControlStep(v, s, p, e, t0);
    StepSends(v, s, p);
    LitStep(v, s, b, p, e, t0);
    if p.Fine? && p.part == 3 {
      steps := 1;
      assert Run(s, 1) == Step(s);
    } else {
      DistanceFalls(v, p, e);
      var rest := LitUntilEvent(v, Step(s), b, NextPlace(v, p, e), NextEvent(p, e), t0);
      steps := rest + 1;
    }
  }

  lemma LitStep(v: seq<nat>, s: System, b: Bit, p: Place, e: nat, t0: nat)
    requires Skeletal(v, s.mem) && At(v, s.cpu, p, e, t0)
    requires p.Head? || (p.Fine? && p.slot == 0 && p.part <= 3)
    requires On(s.cpu.mode, b) && s.mem[FineBase(v)].AndMode? && On(s.mem[FineBase(v)].mask, b)
    ensures On(Step(s).cpu.mode, b)
    ensures Step(s).mem[FineBase(v)] == s.mem[FineBase(v)]
    ensures !(p.Fine? && p.part == 3) ==>
      var n := NextPlace(v, p, e); n.Head? || (n.Fine? && n.slot == 0 && n.part <= 3)
  {
    StepEffect(s, b);
    assert Fits(v, p, s.mem[s.cpu.pc]);
  }

  /** A processor at the first event of the coarse loop of level l, with all mode bits off. */
  function AtHead(v: seq<nat>, l: nat): Cpu
    requires Ladder(v) && 1 <= l <= Top(v)
  {
    Cpu(FineBase(v) - 3 * l, {}, 0, 2, OpenLoops(v, 0, l + 1), [], [])
  }

  lemma AtHeadIsAt(v: seq<nat>, l: nat)
    requires Ladder(v) && 1 <= l <= Top(v)
    ensures At(v, AtHead(v, l), Head(l, 0), 0, 0)
  {
    LevelsDivide(v, l, l);
    assert PlaceAt(v, FineBase(v) - 3 * l) == Head(l, 0) by {
      assert (FineBase(v) - 3 * l - 2) / 3 == Top(v) - l && (FineBase(v) - 3 * l - 2) % 3 == 0;
    }
  }

  /** One run that shows the bit in its first event with one plan and not with the other. */
  lemma Differ(xs: seq<Instr>, ys: seq<Instr>, b: Bit, c: Cpu, steps: nat)
    requires c.events == [] && |Run(System(xs, c), steps).cpu.events| > 0
    requires EventOn(Run(System(xs, c), steps).cpu, 0, b)
    requires |Run(System(ys, c), steps).cpu.events| > 0 ==> !EventOn(Run(System(ys, c), steps).cpu, 0, b)
    ensures !Indistinguishable(xs, ys, b)
  {
    assert !Twins(Run(System(xs, c), steps).cpu, Run(System(ys, c), steps).cpu, b);
  }

  /** A waiting coarse shot of the bit goes out with the first event of its loop. */
  lemma CoarseShotGoesOut(v: seq<nat>, prev: Operands, b: Bit, l: nat) returns (steps: nat)
    requires Ladder(v) && Sized(v, prev) && 1 <= l <= Top(v) && b in prev.shots[Top(v) - l] && FineAnd(v, prev, 0, b)
    ensures |Run(System(Plan(v, prev), AtHead(v, l)), steps).cpu.events| == 1
    ensures EventOn(Run(System(Plan(v, prev), AtHead(v, l)), steps).cpu, 0, b)
  {
    hide Run;
    var s := System(Plan(v, prev), AtHead(v, l));
    AtHeadIsAt(v, l);
    PlanIsSkeletal(v, prev);
    ControlStep(v, s, Head(l, 0), 0, 0);
    ShotFires(v, prev, b, l);
    var rest := LitUntilEvent(v, Step(s), b, Head(l, 1), 0, 0);
    steps := rest + 1;
    RunOnce(s, rest);
  }

  lemma RunOnce(s: System, rest: nat)
    ensures Run(s, rest + 1) == Run(Step(s), rest)
  {
  }

  lemma ShotFires(v: seq<nat>, prev: Operands, b: Bit, l: nat)
    requires Ladder(v) && Sized(v, prev) && 1 <= l <= Top(v) && b in prev.shots[Top(v) - l] && FineAnd(v, prev, 0, b)
    ensures var r := Step(System(Plan(v, prev), AtHead(v, l)));
            On(r.cpu.mode, b) && r.cpu.events == [] && r.mem[FineBase(v)] == AndMode(prev.ands[0])
  {
    AtHeadIsAt(v, l);
    FinePlace(v, 0, 0);
    var xs := Plan(v, prev);
    assert xs[FineBase(v) - 3 * l] == InstrOf(v, prev, Head(l, 0));
    assert xs[FineBase(v)] == InstrOf(v, prev, Fine(0, 0));
  }

  /** The pass of a join that overwrites it takes it away. */
  lemma CoarseShotDiffers(v: seq<nat>, prev: Operands, q: Request, applyOrs: bool, b: Bit, l: nat)
    requires Ladder(v) && Sized(v, prev) && b !in q.bits && 1 <= l <= Top(v) && b in prev.shots[Top(v) - l]
    requires (forall k: nat :: k < |prev.ors| ==> b !in prev.ors[k]) && FineAnd(v, prev, 0, b)
    ensures !Indistinguishable(Plan(v, prev), Plan(v, JoinPass(v, prev, q, applyOrs)), b)
  {
    var x := JoinPass(v, prev, q, applyOrs);
    var steps := CoarseShotGoesOut(v, prev, b, l);
    JoinAddsNothing(v, prev, q, applyOrs, b);
    UnusedIsDark(v, x, b);
    NoModeHeartbeat(v, x);
    DarkRun(System(Plan(v, x), AtHead(v, l)), b, steps);
    Differ(Plan(v, prev), Plan(v, x), b, AtHead(v, l), steps);
  }

  lemma NoModeHeartbeat(v: seq<nat>, x: Operands)
    requires Ladder(v) && Sized(v, x)
    ensures forall a: nat :: a < |Plan(v, x)| ==> !Plan(v, x)[a].HeartbeatMode?
  {
    forall a: nat | a < |Plan(v, x)| ensures !Plan(v, x)[a].HeartbeatMode? {
      assert Plan(v, x)[a] == InstrOf(v, x, PlaceAt(v, a));
    }
  }

  lemma JoinAddsNothing(v: seq<nat>, prev: Operands, q: Request, applyOrs: bool, b: Bit)
    requires Ladder(v) && Sized(v, prev) && b !in q.bits && forall k: nat :: k < |prev.ors| ==> b !in prev.ors[k]
    ensures Unused(JoinPass(v, prev, q, applyOrs), b)
  {
  }

  lemma FireAndSend(xs: seq<Instr>, c: Cpu, b: Bit)
    requires c.pc + 1 < |xs| && xs[c.pc].OrSingleShot? && xs[c.pc + 1].Heartbeat? && c.mode == {} && c.events == []
    ensures Run(System(xs, c), 2).cpu.events == [Event(c.tag, xs[c.pc].mask)]
  {
    var s := System(xs, c);
    assert Run(s, 2) == Run(Step(s), 1) == Run(Step(Step(s)), 0);
    assert c.mode + xs[c.pc].mask == xs[c.pc].mask;
    assert Step(s).mem[c.pc + 1] == Heartbeat;
    assert Step(Step(s)).cpu.events == [] + [Event(c.tag, xs[c.pc].mask)];
  }

  /** So does a waiting fine shot, whatever the other masks. */
  lemma FineShotDiffers(v: seq<nat>, prev: Operands, q: Request, applyOrs: bool, b: Bit, i: nat)
    requires Ladder(v) && Sized(v, prev) && b !in q.bits && i < v[0] && b in prev.shots[Top(v) + i]
    ensures !Indistinguishable(Plan(v, prev), Plan(v, JoinPass(v, prev, q, applyOrs)), b)
  {
    var a := FineBase(v) + 7 * i + 2;
    var c := Cpu(a, {}, 0, 2, [], [], []);
    var xs, ys := Plan(v, prev), Plan(v, JoinPass(v, prev, q, applyOrs));
    FinePlace(v, i, 2);
    FinePlace(v, i, 3);
    assert xs[a] == OrSingleShot(prev.shots[Top(v) + i]) && ys[a] == OrSingleShot({});
    assert xs[a + 1] == Heartbeat == ys[a + 1];
    FireAndSend(xs, c, b);
    FireAndSend(ys, c, b);
    Differ(xs, ys, b, c, 2);
  }

  /** A join makes no difference to another bit exactly if no single shot of it is waiting; stated for a bit that is
      shown by single shots only and, while a coarse one waits, kept in slot 0 (as its own join arranges it). */
  lemma JoinSparesExactly(v: seq<nat>, prev: Operands, q: Request, applyOrs: bool, b: Bit)
    requires Ladder(v) && Sized(v, prev) && b !in q.bits && forall k: nat :: k < |prev.ors| ==> b !in prev.ors[k]
    requires (exists k: nat :: k < Top(v) && b in prev.shots[k]) ==> FineAnd(v, prev, 0, b)
    ensures Indistinguishable(Plan(v, prev), Plan(v, JoinPass(v, prev, q, applyOrs)), b) <==> NoneWaits(prev, b)
  {
    if NoneWaits(prev, b) {
      JoinSparesOthers(v, prev, q, applyOrs, b);
    } else {
      var k: nat :| k < |prev.shots| && b in prev.shots[k];
      if k < Top(v) {
        CoarseShotDiffers(v, prev, q, applyOrs, b, Top(v) - k);
      } else {
        FineShotDiffers(v, prev, q, applyOrs, b, k - Top(v));
      }
    }
  }
}
