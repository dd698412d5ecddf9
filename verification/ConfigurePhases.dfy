/** The configure transition of the CFO in event-building mode: phases 0..13, called again for the same phase while it
    asks for another sub-iteration and for the next one while it asks for another iteration. */
module ConfigurePhases {

  const CLOCKS_A := 0
  const CLOCKS_B := 1
  const CHAIN_ENABLE := 2
  const CHAIN_CHECK := 3
  const EDGE_FIX := 4
  const LAST_PHASE := 13

  const MAX_POLLS := 10
  const MAX_EDGE_PASSES := 10

  datatype Mode = HardwareDev | EventBuilding | EventBuildingAndSync | Loopback

  datatype Lock = Locked | Unlocked | Unreachable

  datatype Edge = Steady | Toggled | Failing

  /** What the hardware and the DTCs answer during one call. */
  datatype Readings = Readings(
    jaLocked: bool,             // the jitter attenuator has locked
    enableOk: bool,             // every DTC enabled its CFO link
    locks: seq<Lock>,           // CDR lock of every DTC
    resetOk: bool,              // the SERDES resets went through
    rtfOk: bool,                // every DTC passed the RTF checks
    edges: seq<Edge>)           // outcome of the edge fix on every DTC

  /** One call of configure(): its phase, its sub-step, and whether an edge fix pass toggled a DTC. */
  datatype Call = Call(phase: nat, step: nat, toggled: bool)

  /** The last sub-step a phase can reach. */
  function LastStep(phase: nat): nat {
    if phase == 0 then 12
    else if phase == 3 then 1
    else if phase == 4 then 11
    else 0
  }

  /** The phases run in order from 0, each in consecutive sub-steps from 0 and never beyond its last one. */
  predicate InOrder(calls: seq<Call>) {
    && (calls != [] ==> calls[0].phase == 0 && calls[0].step == 0)
    && (forall i :: 0 <= i < |calls| ==> calls[i].phase <= 13 && calls[i].step <= LastStep(calls[i].phase))
    && (forall i :: 0 < i < |calls| ==> Follows(calls[i - 1], calls[i]))
  }

  predicate Follows(a: Call, b: Call) {
    if b.phase == a.phase then b.step == a.step + 1 else b.phase == a.phase + 1 && b.step == 0
  }

  /** The call is a clean pass of the edge fix, and so was the one before it. */
  predicate Converged(calls: seq<Call>, i: nat)
    requires i < |calls|
  {
    i > 0 && calls[i].step >= 2 && !calls[i].toggled && !calls[i - 1].toggled
  }

  /** The edge fix is left exactly after the first two clean passes in a row. */
  predicate EdgeRule(calls: seq<Call>) {
    forall i :: 0 < i < |calls| && calls[i - 1].phase == 4 ==>
      (calls[i].phase > 4 <==> Converged(calls, i - 1))
  }

  lemma NoCalls()
    ensures InOrder([]) && EdgeRule([])
  {
  }

  lemma OneMoreCall(calls: seq<Call>, c: Call)
    requires InOrder(calls) && c.phase <= 13 && c.step <= LastStep(c.phase)
    requires if calls == [] then c.phase == 0 && c.step == 0 else Follows(calls[|calls| - 1], c)
    ensures InOrder(calls + [c])
  {
    var more := calls + [c];
    forall i | 0 < i < |more| ensures Follows(more[i - 1], more[i]) {
      if i < |calls| { assert Follows(calls[i - 1], calls[i]); }
    }
  }

  lemma OneMoreEdge(calls: seq<Call>, c: Call)
    requires EdgeRule(calls)
    requires calls != [] && calls[|calls| - 1].phase == 4 ==>
      (c.phase > 4 <==> Converged(calls, |calls| - 1))
    ensures EdgeRule(calls + [c])
    ensures calls != [] ==>
      (Converged(calls + [c], |calls|) <==> c.step >= 2 && !c.toggled && !calls[|calls| - 1].toggled)
  {
    var more := calls + [c];
    forall i | 0 < i < |more| && more[i - 1].phase == 4
      ensures more[i].phase > 4 <==> Converged(more, i - 1)
    {
      assert Converged(more, i - 1) <==> Converged(calls, i - 1);
    }
  }

  class Cfo {
    const mode: Mode
    const configureClock: bool

    // kept by the state machine
    var iterationIndex: nat
    var subIterationIndex: nat
    var iterationWork: bool
    var subIterationWork: bool

    var configPhaseBaseIteration: int      // -1: not in a pass
    var timingChainFirstSubstep: int       // -1: not in a phase with sub-steps
    var edgeFixConsecutiveClean: int
    var nextStartingEventWindowTag: nat

    constructor (mode: Mode, configureClock: bool)
      ensures this.mode == mode && this.configureClock == configureClock
    {
      this.mode, this.configureClock := mode, configureClock;
      iterationIndex, subIterationIndex, iterationWork, subIterationWork := 0, 0, false, false;
      configPhaseBaseIteration, timingChainFirstSubstep, edgeFixConsecutiveClean, nextStartingEventWindowTag := -1, -1,
        0, 0;
    }

    /** Iterations since the first call of this pass. */
    method ConfigPhase() returns (phase: int)
      modifies `configPhaseBaseIteration
      ensures configPhaseBaseIteration ==
        if old(configPhaseBaseIteration) == -1 then iterationIndex else old(configPhaseBaseIteration)
      ensures phase == iterationIndex - configPhaseBaseIteration
    {
      if configPhaseBaseIteration == -1 { configPhaseBaseIteration := iterationIndex; }
      phase := iterationIndex - configPhaseBaseIteration;
    }

    method ResetConfigPhase()
      modifies `configPhaseBaseIteration
      ensures configPhaseBaseIteration == -1
    {
      configPhaseBaseIteration := -1;
    }

    predicate DoEdgeFix() {
      mode == EventBuilding || mode == EventBuildingAndSync
    }

    /** The sub-step of a phase that counts them. */
    method SubStep() returns (step: int)
      modifies `timingChainFirstSubstep
      ensures timingChainFirstSubstep ==
        if old(timingChainFirstSubstep) == -1 then subIterationIndex else old(timingChainFirstSubstep)
      ensures step == subIterationIndex - timingChainFirstSubstep
    {
      if timingChainFirstSubstep == -1 { timingChainFirstSubstep := subIterationIndex; }
      step := subIterationIndex - timingChainFirstSubstep;
    }

    /** Clock set-up: another sub-step until the jitter attenuator locks, at most up to sub-step 12. */
    method ConfigureForTimingChain(step: int, now: Readings)
      requires step >= 0 && !subIterationWork
      modifies `subIterationWork, `nextStartingEventWindowTag
      ensures subIterationWork <==>
        step == 0 || (configureClock && (step == 1 || (!now.jaLocked && step < 12)))
      ensures nextStartingEventWindowTag == if step == 0 then 0 else old(nextStartingEventWindowTag)
    {
      if step == 0 {
        nextStartingEventWindowTag := 0;
        subIterationWork := true;
      } else if step == 1 {
        if configureClock { subIterationWork := true; }
      } else {
        if !configureClock { return; }
        var pollIndex := step - 2;
        if now.jaLocked { return; }
        if pollIndex < MAX_POLLS { subIterationWork := true; }
      }
    }

    /** CDR lock of every DTC; one retry after a SERDES reset. */
    method CheckTimingChain(now: Readings) returns (thrown: bool)
      requires !subIterationWork && !iterationWork
      modifies `subIterationWork, `iterationWork, `timingChainFirstSubstep
      ensures var first := if old(timingChainFirstSubstep) == -1 then subIterationIndex else old(timingChainFirstSubstep);
              var retry := subIterationIndex == first + 1;
              && (thrown <==> Unreachable in now.locks || (Unlocked in now.locks && (retry || !now.resetOk)))
              && (subIterationWork <==> !thrown && Unlocked in now.locks)
              && (iterationWork <==> !thrown && !subIterationWork)
              && timingChainFirstSubstep == if thrown || subIterationWork then first else -1
    {
      thrown := false;
      var subStep := SubStep();
      var isRetry := subStep == 1;
      var unlocked, unreachable := 0, 0;
      var i := 0;
      while i < |now.locks|
        invariant 0 <= i <= |now.locks| && unlocked >= 0 && unreachable >= 0
        invariant unlocked > 0 <==> Unlocked in now.locks[..i]
        invariant unreachable > 0 <==> Unreachable in now.locks[..i]
      {
        if now.locks[i] == Unlocked { unlocked := unlocked + 1; }
        if now.locks[i] == Unreachable { unreachable := unreachable + 1; }
        i := i + 1;
      }
      assert now.locks[..i] == now.locks;
      if unreachable > 0 { return true; }
      if unlocked == 0 {
      } else if !isRetry {
        if !now.resetOk { return true; }
        subIterationWork := true;
      } else {
        return true;
      }
      if !subIterationWork {
        timingChainFirstSubstep := -1;
        iterationWork := true;
      }
    }

    /** Sub-step 0 checks the DTCs, every further one is a pass of the edge fix; `toggled`: some DTC changed its
        edge in this pass. */
    method FixEdges(now: Readings) returns (thrown: bool, toggled: bool)
      requires !subIterationWork && !iterationWork && DoEdgeFix()
      modifies `subIterationWork, `iterationWork, `timingChainFirstSubstep, `edgeFixConsecutiveClean
      ensures var first := if old(timingChainFirstSubstep) == -1 then subIterationIndex else old(timingChainFirstSubstep);
              var step := subIterationIndex - first;
              if step == 0 then
                && (thrown <==> !now.rtfOk) && !toggled && edgeFixConsecutiveClean == 0
                && (subIterationWork <==> !thrown) && !iterationWork && timingChainFirstSubstep == first
              else
                && (thrown <==> Failing in now.edges || (Toggled in now.edges && step >= 10))
                && (!thrown ==> (toggled <==> Toggled in now.edges))
                && (!thrown ==> edgeFixConsecutiveClean == if toggled then 0 else old(edgeFixConsecutiveClean) + 1)
                && (iterationWork <==> !thrown && edgeFixConsecutiveClean >= 2)
                && (subIterationWork <==> !thrown && edgeFixConsecutiveClean < 2)
                && timingChainFirstSubstep == if iterationWork then -1 else first
    {
      thrown, toggled := false, false;
      var subStep := SubStep();
      if subStep == 0 {
        edgeFixConsecutiveClean := 0;
        if !now.rtfOk { return true, false; }
        subIterationWork := true;
      } else {
        var pass, count := subStep, 0;
        var i := 0;
        while i < |now.edges|
          invariant 0 <= i <= |now.edges| && count >= 0 && Failing !in now.edges[..i]
          invariant count > 0 <==> Toggled in now.edges[..i]
        {
          if now.edges[i] == Failing { return true, false; }
          if now.edges[i] == Toggled { count := count + 1; }
          i := i + 1;
        }
        assert now.edges[..i] == now.edges;
        if count == 0 {
          edgeFixConsecutiveClean := edgeFixConsecutiveClean + 1;
          if edgeFixConsecutiveClean >= 2 {
            timingChainFirstSubstep := -1;
            iterationWork := true;
          } else {
            subIterationWork := true;
          }
        } else {
          toggled := true;
          edgeFixConsecutiveClean := 0;
          if pass >= MAX_EDGE_PASSES { return true, true; }
          subIterationWork := true;
        }
      }
    }

    /** The next call is for sub-step `step` of `phase`. */
    ghost predicate Next(phase: nat, step: nat)
      reads this
    {
      && phase <= 13 && step <= LastStep(phase)
      && iterationIndex == configPhaseBaseIteration + phase && configPhaseBaseIteration >= 0
      && (if step > 0 then 0 <= timingChainFirstSubstep && subIterationIndex == timingChainFirstSubstep + step
          else phase != 1 ==> timingChainFirstSubstep == -1)
      && (phase == 4 && step > 0 ==> DoEdgeFix() && 0 <= edgeFixConsecutiveClean <= 1)
      && (phase == 4 && step == 1 ==> edgeFixConsecutiveClean == 0)
      && (phase == 4 && step == 11 ==> edgeFixConsecutiveClean == 1)
    }

    /** Does the phase need another sub-step? */
    ghost predicate Again(phase: nat, step: nat, now: Readings, clean: int) {
      if phase == 0 then step == 0 || (configureClock && (step == 1 || (!now.jaLocked && step < 12)))
      else if phase == 3 then Unlocked in now.locks
      else phase == 4 && DoEdgeFix() && (step == 0 || Toggled in now.edges || clean == 0)
    }

    /** Is the phase given up? */
    ghost predicate GivenUp(phase: nat, step: nat, now: Readings) {
      if phase == 2 then !now.enableOk
      else if phase == 3 then Unreachable in now.locks || (Unlocked in now.locks && (step == 1 || !now.resetOk))
      else if phase == 4 && DoEdgeFix() then
        (if step == 0 then !now.rtfOk else Failing in now.edges || (Toggled in now.edges && step >= 10))
      else false
    }

    /** How a call leads on: nothing fails in it, and the next call is for the same phase exactly as the answers ask for
        it; the edge fix toggles when a DTC does and is left after two clean passes. */
    ghost predicate LeadsOn(prev: Call, c: Call, next: nat, now: Readings) {
      && !GivenUp(c.phase, c.step, now)
      && (c.toggled <==> c.phase == 4 && DoEdgeFix() && c.step > 0 && Toggled in now.edges)
      && (next == c.phase <==>
            if c.phase == 0 then c.step == 0 || (configureClock && (c.step == 1 || (!now.jaLocked && c.step < 12)))
            else if c.phase == 3 then Unlocked in now.locks
            else c.phase == 4 && DoEdgeFix() && (c.step < 2 || c.toggled || prev.toggled))
    }

    /** Every call but the last leads on to the next. */
    ghost predicate Answered(calls: seq<Call>, answers: nat -> Readings) {
      forall i: nat :: i + 1 < |calls| ==>
        LeadsOn(calls[if i > 0 then i - 1 else 0], calls[i], calls[i + 1].phase, answers(i))
    }

    lemma NothingAnswered(answers: nat -> Readings)
      ensures Answered([], answers)
    {
    }

    lemma OneMoreAnswered(calls: seq<Call>, c: Call, answers: nat -> Readings)
      requires Answered(calls, answers)
      requires calls != [] ==>
        var n := |calls| - 1;
        LeadsOn(calls[if n > 0 then n - 1 else 0], calls[n], c.phase, answers(n))
      ensures Answered(calls + [c], answers)
    {
      hide LeadsOn;
      var more := calls + [c];
      forall i: nat | i + 1 < |more|
        ensures LeadsOn(more[if i > 0 then i - 1 else 0], more[i], more[i + 1].phase, answers(i))
      {
        if i + 1 < |calls| {
          assert LeadsOn(calls[if i > 0 then i - 1 else 0], calls[i], calls[i + 1].phase, answers(i));
        }
      }
    }

    /** One call of configure() in one of the event-building modes. */
    method Configure(first: bool, now: Readings, ghost phase: nat, ghost step: nat) returns (thrown: bool,
                     toggled: bool)
      requires mode != HardwareDev && if first then phase == 0 && step == 0 else Next(phase, step)
      modifies `iterationWork, `subIterationWork, `configPhaseBaseIteration, `timingChainFirstSubstep,
        `edgeFixConsecutiveClean,
        `nextStartingEventWindowTag
      ensures thrown <==> GivenUp(phase, step, now)
      ensures !thrown ==> (subIterationWork <==> Again(phase, step, now, old(edgeFixConsecutiveClean)))
      ensures !thrown && !subIterationWork ==> (iterationWork <==> phase < 13)
      ensures toggled ==> phase == 4 && step > 0
      ensures !thrown && phase == 4 && DoEdgeFix() && step > 0 ==>
        && (toggled <==> Toggled in now.edges)
        && edgeFixConsecutiveClean == if toggled then 0 else old(edgeFixConsecutiveClean) + 1
      ensures !thrown && phase == 4 && step == 0 && DoEdgeFix() ==> edgeFixConsecutiveClean == 0
      ensures iterationIndex == configPhaseBaseIteration + phase && configPhaseBaseIteration >= 0
      ensures !thrown && subIterationWork ==> 0 <= timingChainFirstSubstep == subIterationIndex - step
      ensures !thrown && !subIterationWork && phase != 0 ==> timingChainFirstSubstep == -1
    {
      thrown, toggled := false, false;
      iterationWork, subIterationWork := false, false;
      if first {
        ResetConfigPhase();
        timingChainFirstSubstep := -1;
      }
      var at := ConfigPhase();
      if at == CLOCKS_A {
        var sub := SubStep();
        ConfigureForTimingChain(sub, now);
        iterationWork := true;
      } else if at == CLOCKS_B {
        timingChainFirstSubstep := -1;
        iterationWork := true;
      } else if at == CHAIN_ENABLE {
        if !now.enableOk { return true, false; }
        iterationWork := true;
      } else if at == CHAIN_CHECK {
        thrown := CheckTimingChain(now);
      } else if at == EDGE_FIX {
        if !DoEdgeFix() {
          iterationWork := true;
        } else {
          thrown, toggled := FixEdges(now);
        }
      } else if at < LAST_PHASE {
        iterationWork := true;
      }
    }

    /** The state machine drives the pass: sub-iteration work first, then iteration work. The sub-iteration index
        of a new iteration is arbitrary. */
    method RunPass(answers: nat -> Readings, subBase: nat -> nat) returns (thrown: bool, ghost calls: seq<Call>)
      requires mode != HardwareDev
      modifies this
      ensures calls != [] && InOrder(calls)
      ensures DoEdgeFix() ==> EdgeRule(calls)
      ensures !thrown ==> calls[|calls| - 1].phase == 13
      ensures thrown ==> 2 <= calls[|calls| - 1].phase <= 4
      ensures Answered(calls, answers)
      ensures thrown <==> GivenUp(calls[|calls| - 1].phase, calls[|calls| - 1].step, answers(|calls| - 1))
    {
      hide InOrder, EdgeRule, Converged, Answered;
      calls := [];
      NoCalls();
      NothingAnswered(answers);
      ghost var phase, step := 0, 0;
      var n := 0;
      while true
        invariant n >= 0 && (n == 0 ==> phase == 0 && step == 0 && calls == [])
        invariant n > 0 ==> Next(phase, step) && calls != [] && Follows(calls[|calls| - 1], Call(phase, step, false))
        invariant |calls| == n && Answered(calls, answers)
        invariant n > 0 ==> LeadsOn(calls[if n > 1 then n - 2 else 0], calls[n - 1], phase, answers(n - 1))
        invariant phase <= LAST_PHASE && step <= LastStep(phase) && InOrder(calls)
        invariant DoEdgeFix() ==> EdgeRule(calls)
        invariant n > 0 && phase == EDGE_FIX && step >= 2 && DoEdgeFix() ==>
          edgeFixConsecutiveClean == if calls[|calls| - 1].toggled then 0 else 1
        invariant n > 0 && calls[|calls| - 1].phase == EDGE_FIX && DoEdgeFix() ==>
          (phase > EDGE_FIX <==> Converged(calls, |calls| - 1))
        decreases LAST_PHASE - phase, LastStep(phase) - step
      {
        var toggled;
        thrown, toggled := Configure(n == 0, answers(n), phase, step);
        OneMoreAnswered(calls, Call(phase, step, toggled), answers);
        OneMoreCall(calls, Call(phase, step, toggled));
        if DoEdgeFix() { OneMoreEdge(calls, Call(phase, step, toggled)); }
        calls := calls + [Call(phase, step, toggled)];
        n := n + 1;
        if thrown { return; }
        if subIterationWork {
          subIterationIndex := subIterationIndex + 1;
          step := step + 1;
        } else if iterationWork {
          iterationIndex := iterationIndex + 1;
          subIterationIndex := subBase(iterationIndex);
          phase, step := phase + 1, 0;
        } else {
          return;
        }
      }
    }
  }
}
