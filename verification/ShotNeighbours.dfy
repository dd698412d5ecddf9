/** What a single-shot join does to the other subsystems, chunk after chunk while the plan is running. */
module ShotNeighbours {
  import opened ModeBits
  import opened RunPlanMachine
  import opened SharedPlan
  import opened PlanGenerator
  import opened JoinLeave
  import opened LiveRewrite
  import opened Neighbours
  import opened SingleShot
  import opened ShotRun
  import opened SingleShotJoin

  lemma ChunkAlikeAt(v: seq<nat>, prev: Operands, bits: Mask, slots: seq<nat>, c: Chunk, armed: bool, b: Bit, a: nat)
    requires Ladder(v) && Sized(v, prev) && c.level <= Top(v) && NoneWaits(prev, b) && b !in bits && a < Length(v)
    ensures AlikeAt(Plan(v, prev)[a], Plan(v, ChunkOperands(v, prev, bits, slots, c, armed))[a], b)
  {
    var p := PlaceAt(v, a);
    assert AlikeAt(InstrOf(v, prev, p), InstrOf(v, ChunkOperands(v, prev, bits, slots, c, armed), p), b);
  }

  lemma ChunkAlike(v: seq<nat>, prev: Operands, bits: Mask, slots: seq<nat>, c: Chunk, armed: bool, b: Bit)
    requires Ladder(v) && Sized(v, prev) && c.level <= Top(v) && NoneWaits(prev, b) && b !in bits
    ensures var x := ChunkOperands(v, prev, bits, slots, c, armed);
            Alike(Plan(v, prev), Plan(v, x), b) && NoneWaits(x, b)
  {
    forall a: nat | a < Length(v)
      ensures AlikeAt(Plan(v, prev)[a], Plan(v, ChunkOperands(v, prev, bits, slots, c, armed))[a], b)
    {
      ChunkAlikeAt(v, prev, bits, slots, c, armed, b, a);
    }
  }

  /** Both plans of a chunk, the prepared and the armed one, give every other bit of which no single shot is waiting the
      events it had, from any state of the processor. */
  lemma ChunkSparesOthers(v: seq<nat>, prev: Operands, bits: Mask, slots: seq<nat>, c: Chunk, b: Bit)
    requires Ladder(v) && Sized(v, prev) && c.level <= Top(v) && NoneWaits(prev, b) && b !in bits
    ensures Indistinguishable(Plan(v, prev), PrepPlan(v, prev, bits, slots, c), b)
    ensures Indistinguishable(Plan(v, prev), ArmedPlan(v, prev, bits, slots, c), b)
  {
    ChunkAlike(v, prev, bits, slots, c, false, b);
    ChunkAlike(v, prev, bits, slots, c, true, b);
    AlikeIndistinguishable(Plan(v, prev), PrepPlan(v, prev, bits, slots, c), b);
    AlikeIndistinguishable(Plan(v, prev), ArmedPlan(v, prev, bits, slots, c), b);
  }

  // ---------------------------------------------------------------- while the chunks are written

  /** The passes of each chunk write instructions of its two plans, in any order and interleaved with the processor in any
      way; they need not be complete. */
  ghost predicate Rewrites(v: seq<nat>, prev: Operands, bits: Mask, slots: seq<nat>, chunks: seq<Chunk>, gs: seq<Segment>)
    requires Ladder(v) && Sized(v, prev)
  {
    && |gs| == |chunks|
    && forall i :: 0 <= i < |chunks| ==>
        && chunks[i].level <= Top(v)
        && Towards(gs[i].prep, PrepPlan(v, prev, bits, slots, chunks[i]))
        && Towards(gs[i].arm, ArmedPlan(v, prev, bits, slots, chunks[i]))
  }

  /** The instructions executed meanwhile. */
  function AllExecs(gs: seq<Segment>): nat
    decreases |gs|
  {
    if gs == [] then 0 else Execs(gs[0].prep) + Execs(gs[0].arm) + gs[0].wait + AllExecs(gs[1..])
  }

  /** A pass towards a plan that is alike to the original one. */
  lemma TwinPass(base: seq<Instr>, s: System, r: System, mvs: seq<Move>, target: seq<Instr>, b: Bit)
    requires Alike(s.mem, r.mem, b) && Twins(s.cpu, r.cpu, b) && Alike(base, r.mem, b)
    requires Alike(base, target, b) && Towards(mvs, target)
    requires forall a: nat :: a < |target| && target[a].OrSingleShot? ==> b !in target[a].mask
    ensures var s', r' := Play(s, mvs), Run(r, Execs(mvs));
            Alike(s'.mem, r'.mem, b) && Twins(s'.cpu, r'.cpu, b) && Alike(base, r'.mem, b)
  {
    hide Alike, Twins, Towards, Play, Run, Execs;
    AlikeVia(base, target, r.mem, b);
    TwinPlay(s, r, mvs, target, b);
    SelfAlike(base, b);
    AlikeVia(base, target, base, b);
    AlikeVia(target, base, Run(r, Execs(mvs)).mem, b);
  }

  lemma {:induction false} TwinWait(base: seq<Instr>, s: System, r: System, b: Bit, steps: nat)
    requires Alike(s.mem, r.mem, b) && Twins(s.cpu, r.cpu, b) && Alike(base, r.mem, b)
    requires forall a: nat :: a < |base| && base[a].OrSingleShot? ==> b !in base[a].mask
    ensures var s', r' := Run(s, steps), Run(r, steps);
            Alike(s'.mem, r'.mem, b) && Twins(s'.cpu, r'.cpu, b) && Alike(base, r'.mem, b)
    decreases steps
  {
    hide Alike, Twins, Step;
    if steps > 0 {
      TwinStep(s, r, b);
      StepStaysAlike(base, r, b);
      TwinWait(base, Step(s), Step(r), b, steps - 1);
    }
  }

  lemma TwinSegment(v: seq<nat>, prev: Operands, bits: Mask, slots: seq<nat>, c: Chunk, b: Bit, s: System, r: System,
                    g: Segment)
    requires Ladder(v) && Sized(v, prev) && c.level <= Top(v) && NoneWaits(prev, b) && b !in bits
    requires Towards(g.prep, PrepPlan(v, prev, bits, slots, c)) && Towards(g.arm, ArmedPlan(v, prev, bits, slots, c))
    requires Alike(s.mem, r.mem, b) && Twins(s.cpu, r.cpu, b) && Alike(Plan(v, prev), r.mem, b)
    ensures var s', r' := After(s, g), Run(r, Execs(g.prep) + Execs(g.arm) + g.wait);
            Alike(s'.mem, r'.mem, b) && Twins(s'.cpu, r'.cpu, b) && Alike(Plan(v, prev), r'.mem, b)
  {
    hide Alike, Twins, Towards, Play, Run, Execs, Plan, ChunkOperands, NoneWaits;
    var base := Plan(v, prev);
    NoShotInPass(v, prev, b);
    ChunkAlike(v, prev, bits, slots, c, false, b);
    NoShotInPass(v, ChunkOperands(v, prev, bits, slots, c, false), b);
    ChunkAlike(v, prev, bits, slots, c, true, b);
    NoShotInPass(v, ChunkOperands(v, prev, bits, slots, c, true), b);
    TwinPass(base, s, r, g.prep, PrepPlan(v, prev, bits, slots, c), b);
    var r1 := Run(r, Execs(g.prep));
    TwinPass(base, Play(s, g.prep), r1, g.arm, ArmedPlan(v, prev, bits, slots, c), b);
    TwinWait(base, Armed(s, g), Run(r1, Execs(g.arm)), b, g.wait);
    RunAdds(r, Execs(g.prep), Execs(g.arm));
    RunAdds(r, Execs(g.prep) + Execs(g.arm), g.wait);
  }

  lemma {:induction false} TwinSegments(v: seq<nat>, prev: Operands, bits: Mask, slots: seq<nat>, chunks: seq<Chunk>,
                                        b: Bit, s: System, r: System, gs: seq<Segment>)
    requires Ladder(v) && Sized(v, prev) && NoneWaits(prev, b) && b !in bits
    requires Rewrites(v, prev, bits, slots, chunks, gs)
    requires Alike(s.mem, r.mem, b) && Twins(s.cpu, r.cpu, b) && Alike(Plan(v, prev), r.mem, b)
    ensures Twins(PlayAll(s, gs).cpu, Run(r, AllExecs(gs)).cpu, b)
    decreases |gs|
  {
    hide Alike, Twins, Towards, Run, Execs, Plan, NoneWaits, After;
    if gs == [] {
      RunNothing(r);
    } else {
      var g := gs[0];
      TwinSegment(v, prev, bits, slots, chunks[0], b, s, r, g);
      var n := Execs(g.prep) + Execs(g.arm) + g.wait;
      TwinSegments(v, prev, bits, slots, chunks[1..], b, After(s, g), Run(r, n), gs[1..]);
      RunAdds(r, n, AllExecs(gs[1..]));
    }
  }

  lemma RunNothing(s: System)
    ensures Run(s, 0) == s
  {
  }

  /** While all chunks of a single-shot join are written and executed one after the other, every other bit goes out exactly
      as it would have without the join. */
  lemma ShotJoinSparesOthersLive(v: seq<nat>, prev: Operands, bits: Mask, slots: seq<nat>, chunks: seq<Chunk>, b: Bit,
                                 c: Cpu, gs: seq<Segment>)
    requires Ladder(v) && Sized(v, prev) && NoneWaits(prev, b) && b !in bits
    requires Rewrites(v, prev, bits, slots, chunks, gs)
    ensures var s := System(Plan(v, prev), c);
            Twins(PlayAll(s, gs).cpu, Run(s, AllExecs(gs)).cpu, b)
  {
    var s := System(Plan(v, prev), c);
    SelfAlike(s.mem, b);
    TwinSegments(v, prev, bits, slots, chunks, b, s, s, gs);
  }

  lemma {:induction false} OncePassIsTowards(mvs: seq<Move>, target: seq<Instr>, todo: set<nat>)
    requires OncePass(mvs, target, todo)
    ensures Towards(mvs, target)
    decreases |mvs|
  {
    if mvs != [] {
      OncePassIsTowards(mvs[1..], target, if mvs[0].Exec? then todo else todo - {mvs[0].addr});
      forall i | 0 <= i < |mvs| && mvs[i].Write? ensures mvs[i].addr < |target| && mvs[i].instr == target[mvs[i].addr] {
        if i > 0 { assert mvs[i] == mvs[1..][i - 1]; }
      }
    }
  }

  /** The executions whose events the exactness theorems count are among them. */
  lemma {:induction false} LegalRewrites(v: seq<nat>, prev: Operands, bits: Mask, slots: seq<nat>, chunks: seq<Chunk>,
                                         s: System, gs: seq<Segment>)
    requires Ladder(v) && Sized(v, prev) && forall c :: c in chunks ==> Fitting(v, slots, c)
    requires AllLegal(v, prev, bits, slots, chunks, s, gs)
    ensures Rewrites(v, prev, bits, slots, chunks, gs)
    decreases |chunks|
  {
    hide Towards, OncePass, Play, After, PrepPlan, ArmedPlan, Ready;
    if chunks != [] {
      assert forall c :: c in chunks[1..] ==> c in chunks;
      LegalRewrites(v, prev, bits, slots, chunks[1..], After(s, gs[0]), gs[1..]);
      OncePassIsTowards(gs[0].arm, ArmedPlan(v, prev, bits, slots, chunks[0]), Addresses(v));
      forall i | 0 <= i < |chunks|
        ensures chunks[i].level <= Top(v)
        ensures Towards(gs[i].prep, PrepPlan(v, prev, bits, slots, chunks[i]))
        ensures Towards(gs[i].arm, ArmedPlan(v, prev, bits, slots, chunks[i]))
      {
        if i > 0 { assert chunks[i] == chunks[1..][i - 1] && gs[i] == gs[1..][i - 1]; }
      }
    }
  }
}
