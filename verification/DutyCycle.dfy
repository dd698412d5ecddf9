/** What a subsystem gets from joining and leaving the shared run plan. */
module DutyCycle {
  import opened ModeBits
  import opened RunPlanMachine
  import opened SharedPlan
  import opened DutyRatio
  import opened PlanGenerator
  import opened PlanControl
  import opened BitRun

  /** Is event e, counted from LABEL, one of the events a subsystem asked for? */
  predicate Wanted(v: seq<nat>, q: Request, e: nat)
    requires Ladder(v) && q.duty.n > 0
  {
    if q.duty.n <= v[0] then Phase(q.duty.n, q.offset, e) < q.duty.m else Divides(q.duty.n, e)
  }

  /** The first event for which a plan that is running on operands x, wherever it is, owes the pattern. */
  function OwedFrom(v: seq<nat>, q: Request, c: Cpu, p: Place, b: Bit): nat
    requires Ladder(v)
  {
    SettledFrom(if q.duty.n <= v[0] then Exactly({}) else EveryNth(0), c, p, b)
  }

  /** That is at most two events later, one with a fine pattern, and at once in a plan that has just been started. */
  lemma OwedSoon(v: seq<nat>, q: Request, c: Cpu, p: Place, b: Bit)
    requires Ladder(v)
    ensures |c.events| <= OwedFrom(v, q, c, p, b) <= |c.events| + if q.duty.n <= v[0] then 1 else 2
    ensures p == Start ==> OwedFrom(v, q, c, p, b) == |c.events|
    ensures !On(c.mode, b) ==> OwedFrom(v, q, c, p, b) <= |c.events| + 1
  {
  }

  /** From wherever the running plan is, with any mode register, every later event carries the bit exactly as
      wanted; a plan that has just been started, from its first event on. */
  ghost predicate Delivers(v: seq<nat>, x: Operands, q: Request, b: Bit)
    requires Ladder(v) && Sized(v, x) && q.duty.n > 0
  {
    forall s: System, p: Place, e: nat, t0: nat, steps: nat, k: nat ::
      && s.mem == Plan(v, x) && At(v, s.cpu, p, e, t0) && (p == Start ==> t0 == x.initTag)
      && OwedFrom(v, q, s.cpu, p, b) <= k < |Run(s, steps).cpu.events| ==>
        EventOn(Run(s, steps).cpu, k, b) == Wanted(v, q, k)
  }

  /** Nothing in the masks found in the hardware disturbs the pattern. A fine pattern needs its off slots
      free of the bit; a coarse pattern needs all fine ORs and all shorter coarse ORs free of it and,
      because the join never restores it, the AND of slot 0 still keeping it. */
  ghost predicate Undisturbed(v: seq<nat>, prev: Operands, q: Request, b: Bit)
    requires Ladder(v) && Sized(v, prev) && q.duty.n > 0
  {
    if q.duty.n <= v[0] then
      forall i: nat :: i < v[0] && !Wanted(v, q, i) ==> !FineOr(v, prev, i, b)
    else
      && FineAnd(v, prev, 0, b)
      && (forall i: nat :: i < v[0] ==> !FineOr(v, prev, i, b))
      && (forall l: nat :: 1 <= l <= Top(v) && v[l] < q.duty.n ==> !CoarseOr(v, prev, l, b))
  }

  // ---------------------------------------------------------------- the pattern

  /** The phase of an event depends on its fine slot only. */
  lemma PhaseOfSlot(v: seq<nat>, n: nat, offset: nat, e: nat)
    requires Ladder(v) && n > 0 && Divides(n, v[0])
    ensures Phase(n, offset, e) == Phase(n, offset, e % v[0])
  {
    var k, i := e / v[0], e % v[0];
    var r := i + n - offset % n;
    assert v[0] == n * (v[0] / n);
    MulAssoc(n, v[0] / n, k);
    assert e + n - offset % n == n * (v[0] / n * k) + r;
    assert r == n * (r / n) + r % n;
    assert n * (v[0] / n * k) + n * (r / n) == n * (v[0] / n * k + r / n);
    DivModUnique(e + n - offset % n, n, v[0] / n * k + r / n, r % n);
  }

  lemma WantedBySlot(v: seq<nat>, q: Request, e: nat)
    requires Ladder(v) && Usable(v, q.duty) && q.duty.n <= v[0]
    ensures Wanted(v, q, e) == Wanted(v, q, e % v[0])
  {
    SelfDivides(v[0]);
    PhaseOfSlot(v, q.duty.n, q.offset, e);
  }

  lemma SelfDivides(d: nat)
    requires d > 0
    ensures Divides(d, d)
  {
  }

  /** The joined operands at one bit of the subsystem. */
  lemma JoinedFine(v: seq<nat>, prev: Operands, q: Request, b: Bit, i: nat)
    requires Ladder(v) && Sized(v, prev) && Usable(v, q.duty) && b in q.bits && i < v[0]
    ensures var x := Joined(v, prev, q, true);
            if q.duty.n <= v[0] then
              && FineOr(v, x, i, b) == (FineOr(v, prev, i, b) || Wanted(v, q, i))
              && FineAnd(v, x, i, b) == (FineAnd(v, prev, i, b) && Wanted(v, q, i))
            else
              && FineOr(v, x, i, b) == FineOr(v, prev, i, b)
              && FineAnd(v, x, i, b) == (FineAnd(v, prev, i, b) && i == 0)
  {
  }

  lemma JoinedCoarse(v: seq<nat>, prev: Operands, q: Request, b: Bit, l: nat)
    requires Ladder(v) && Sized(v, prev) && b in q.bits && 1 <= l <= Top(v)
    ensures CoarseOr(v, Joined(v, prev, q, true), l, b) == (CoarseOr(v, prev, l, b) || v[l] == q.duty.n)
  {
  }

  // ---------------------------------------------------------------- the duty cycle theorem

  lemma LevelOf(v: seq<nat>, n: nat) returns (level: nat)
    requires Ladder(v) && n in v && n > v[0]
    ensures 1 <= level <= Top(v) && v[level] == n
    ensures forall l: nat :: l < |v| ==> (v[l] < n <==> l < level)
  {
    level :| 0 <= level < |v| && v[level] == n;
    LadderAscends(v);
  }

  /** The claim that undisturbed operands make true, and that says exactly what is wanted. */
  lemma WantedClaim(v: seq<nat>, prev: Operands, q: Request, b: Bit) returns (k: Claim)
    requires Ladder(v) && Sized(v, prev) && Usable(v, q.duty) && b in q.bits && Undisturbed(v, prev, q, b)
    ensures if q.duty.n <= v[0] then k.Exactly? else k.EveryNth? && 1 <= k.level <= Top(v) && v[k.level] == q.duty.n
    ensures Grounds(v, Joined(v, prev, q, true), b, k)
    ensures forall e: nat, on: bool :: Claimed(v, k, e, on) ==> on == Wanted(v, q, e)
  {
    var x := Joined(v, prev, q, true);
    if q.duty.n <= v[0] {
      k := Exactly(set i: nat | i < v[0] && Wanted(v, q, i));
      forall i: nat | i < v[0]
        ensures if i in k.pattern then FineOr(v, x, i, b) else !FineAnd(v, x, i, b) && !FineOr(v, x, i, b)
      {
        JoinedFine(v, prev, q, b, i);
      }
      forall e: nat, on: bool | Claimed(v, k, e, on) ensures on == Wanted(v, q, e) {
        WantedBySlot(v, q, e);
      }
    } else {
      var level := LevelOf(v, q.duty.n);
      k := EveryNth(level);
      forall i: nat | i < v[0]
        ensures !FineOr(v, x, i, b) && FineAnd(v, x, i, b) == (i == 0)
      {
        JoinedFine(v, prev, q, b, i);
      }
      JoinedCoarse(v, prev, q, b, level);
      forall l: nat | 1 <= l < level ensures !CoarseOr(v, x, l, b) {
        JoinedCoarse(v, prev, q, b, l);
      }
    }
  }

  lemma PatternDelivered(v: seq<nat>, prev: Operands, q: Request, b: Bit, s: System, p: Place, e: nat, t0: nat,
                         steps: nat, i: nat)
    requires Ladder(v) && Sized(v, prev) && Quiet(v, prev) && Usable(v, q.duty) && b in q.bits
    requires Undisturbed(v, prev, q, b)
    requires s.mem == Plan(v, Joined(v, prev, q, true)) && At(v, s.cpu, p, e, t0) && (p == Start ==> t0 == prev.initTag)
    requires OwedFrom(v, q, s.cpu, p, b) <= i < |Run(s, steps).cpu.events|
    ensures EventOn(Run(s, steps).cpu, i, b) == Wanted(v, q, i)
  {
    var k := WantedClaim(v, prev, q, b);
    ClaimHolds(v, Joined(v, prev, q, true), b, k, s, p, e, t0, steps);
    assert Claimed(v, k, i, EventOn(Run(s, steps).cpu, i, b));
  }

  /** A run of the plan, from its start, that has sent event e. */
  lemma SomeRun(v: seq<nat>, x: Operands, e: nat) returns (s: System, steps: nat)
    requires Ladder(v) && Sized(v, x)
    ensures s.mem == Plan(v, x) && At(v, s.cpu, Start, 0, x.initTag) && s.cpu.events == []
    ensures e < |Run(s, steps).cpu.events|
  {
    s := System(Plan(v, x), Cpu(0, {}, 0, 0, [], [], []));
    PlanIsSkeletal(v, x);
    steps := EventsKeepComing(v, s, Start, 0, x.initTag, e + 1);
  }

  /** A claim that contradicts the wish for event e refutes the delivery. */
  lemma Refuted(v: seq<nat>, x: Operands, q: Request, b: Bit, k: Claim, e: nat)
    requires Ladder(v) && Sized(v, x) && Quiet(v, x) && q.duty.n > 0
    requires Grounds(v, x, b, k) && Settling(k) && !Claimed(v, k, e, Wanted(v, q, e))
    ensures !Delivers(v, x, q, b)
  {
    var s, steps := SomeRun(v, x, e);
    ClaimHolds(v, x, b, k, s, Start, 0, x.initTag, steps);
    assert Claimed(v, k, e, EventOn(Run(s, steps).cpu, e, b));
    assert OwedFrom(v, q, s.cpu, Start, b) <= e;
  }

  lemma DisturbedFineFails(v: seq<nat>, prev: Operands, q: Request, b: Bit)
    requires Ladder(v) && Sized(v, prev) && Quiet(v, prev) && Usable(v, q.duty) && b in q.bits
    requires q.duty.n <= v[0] && !Undisturbed(v, prev, q, b)
    ensures !Delivers(v, Joined(v, prev, q, true), q, b)
  {
    var i: nat :| i < v[0] && !Wanted(v, q, i) && FineOr(v, prev, i, b);
    JoinedFine(v, prev, q, b, i);
    OwnSlot(v[0], i);
    Refuted(v, Joined(v, prev, q, true), q, b, SlotOn(i), i);
  }

  /** An existing fine OR switches the bit on in its slot: take an event of that slot that is no multiple. */
  lemma FineOrDisturbs(v: seq<nat>, prev: Operands, q: Request, b: Bit, i: nat)
    requires Ladder(v) && Sized(v, prev) && Quiet(v, prev) && Usable(v, q.duty) && b in q.bits
    requires q.duty.n > v[0] && i < v[0] && FineOr(v, prev, i, b)
    ensures !Delivers(v, Joined(v, prev, q, true), q, b)
  {
    hide Delivers;
    var e := if i > 0 then i else v[0];
    JoinedFine(v, prev, q, b, i);
    SmallerIsNoMultiple(e, q.duty.n);
    SelfDivides(v[0]);
    OwnSlot(v[0], i);
    Refuted(v, Joined(v, prev, q, true), q, b, SlotOn(i), e);
  }

  /** An existing shorter coarse OR switches the bit on at the start of its loop. */
  lemma CoarseOrDisturbs(v: seq<nat>, prev: Operands, q: Request, b: Bit, l: nat)
    requires Ladder(v) && Sized(v, prev) && Quiet(v, prev) && Usable(v, q.duty) && b in q.bits
    requires q.duty.n > v[0] && FineAnd(v, prev, 0, b)
    requires 1 <= l <= Top(v) && v[l] < q.duty.n && CoarseOr(v, prev, l, b)
    ensures !Delivers(v, Joined(v, prev, q, true), q, b)
  {
    JoinedFine(v, prev, q, b, 0);
    JoinedCoarse(v, prev, q, b, l);
    LevelsDivide(v, l, l);
    SmallerIsNoMultiple(v[l], q.duty.n);
    Refuted(v, Joined(v, prev, q, true), q, b, LevelOn(l), v[l]);
  }

  /** The AND of slot 0 takes away what the coarse OR has set. */
  lemma SlotZeroDisturbs(v: seq<nat>, prev: Operands, q: Request, b: Bit)
    requires Ladder(v) && Sized(v, prev) && Quiet(v, prev) && Usable(v, q.duty) && b in q.bits
    requires q.duty.n > v[0] && !FineAnd(v, prev, 0, b) && !FineOr(v, prev, 0, b)
    ensures !Delivers(v, Joined(v, prev, q, true), q, b)
  {
    JoinedFine(v, prev, q, b, 0);
    Refuted(v, Joined(v, prev, q, true), q, b, FirstSlotOff, 0);
  }

  lemma DisturbedCoarseFails(v: seq<nat>, prev: Operands, q: Request, b: Bit)
    requires Ladder(v) && Sized(v, prev) && Quiet(v, prev) && Usable(v, q.duty) && b in q.bits
    requires q.duty.n > v[0] && !Undisturbed(v, prev, q, b)
    ensures !Delivers(v, Joined(v, prev, q, true), q, b)
  {
    hide Delivers;
    if i: nat :| i < v[0] && FineOr(v, prev, i, b) {
      FineOrDisturbs(v, prev, q, b, i);
    } else if !FineAnd(v, prev, 0, b) {
      SlotZeroDisturbs(v, prev, q, b);
    } else {
      var l: nat :| 1 <= l <= Top(v) && v[l] < q.duty.n && CoarseOr(v, prev, l, b);
      CoarseOrDisturbs(v, prev, q, b, l);
    }
  }

  lemma OwnSlot(d: nat, i: nat)
    requires i < d
    ensures i % d == i
  {
  }

  lemma SmallerIsNoMultiple(e: nat, n: nat)
    requires 0 < e < n
    ensures !Divides(n, e)
  {
  }

  /** A joined subsystem gets exactly its events, from wherever the running plan is, if and only if the masks found
      in the hardware do not disturb the pattern. */
  lemma JoinDeliversExactly(v: seq<nat>, prev: Operands, q: Request, b: Bit)
    requires Ladder(v) && Sized(v, prev) && Usable(v, q.duty) && b in q.bits
    ensures Delivers(v, JoinPass(v, prev, q, true), q, b) <==> Undisturbed(v, prev, q, b)
  {
    var found := Found(v, prev);
    var x := Joined(v, found, q, true);
    if Undisturbed(v, found, q, b) {
      forall s: System, p: Place, e: nat, t0: nat, steps: nat, k: nat
        | && s.mem == Plan(v, x) && At(v, s.cpu, p, e, t0) && (p == Start ==> t0 == x.initTag)
          && OwedFrom(v, q, s.cpu, p, b) <= k < |Run(s, steps).cpu.events|
        ensures EventOn(Run(s, steps).cpu, k, b) == Wanted(v, q, k)
      {
        PatternDelivered(v, found, q, b, s, p, e, t0, steps, k);
      }
    } else if q.duty.n <= v[0] {
      DisturbedFineFails(v, found, q, b);
    } else {
      DisturbedCoarseFails(v, found, q, b);
    }
    FoundDisturbsAlike(v, prev, q, b);
  }

  /** Only the AND and OR masks matter. */
  lemma FoundDisturbsAlike(v: seq<nat>, prev: Operands, q: Request, b: Bit)
    requires Ladder(v) && Sized(v, prev) && q.duty.n > 0
    ensures Undisturbed(v, Found(v, prev), q, b) <==> Undisturbed(v, prev, q, b)
  {
    var found := Found(v, prev);
    forall i: nat | i < v[0]
      ensures FineOr(v, found, i, b) == FineOr(v, prev, i, b) && FineAnd(v, found, i, b) == FineAnd(v, prev, i, b)
    {
    }
    forall l: nat | 1 <= l <= Top(v) ensures CoarseOr(v, found, l, b) == CoarseOr(v, prev, l, b) {}
  }

  // ---------------------------------------------------------------- M in every N consecutive events

  /** Wanted events among the `len` events from `start` on. */
  function WantedIn(v: seq<nat>, q: Request, start: nat, len: nat): nat
    requires Ladder(v) && q.duty.n > 0
    decreases len
  {
    if len == 0 then 0
    else (if Wanted(v, q, start) then 1 else 0) + WantedIn(v, q, start + 1, len - 1)
  }

  lemma {:induction false} WantedInSnoc(v: seq<nat>, q: Request, start: nat, len: nat)
    requires Ladder(v) && q.duty.n > 0
    ensures WantedIn(v, q, start, len + 1)
         == WantedIn(v, q, start, len) + (if Wanted(v, q, start + len) then 1 else 0)
    decreases len
  {
    if len > 0 {
      WantedInSnoc(v, q, start + 1, len - 1);
    }
  }

  /** The wish repeats after N events. */
  lemma WantedRepeats(v: seq<nat>, q: Request, e: nat)
    requires Ladder(v) && q.duty.n > 0
    ensures Wanted(v, q, e + q.duty.n) == Wanted(v, q, e)
  {
    var n := q.duty.n;
    var y := if n <= v[0] then e + n - q.offset % n else e;
    DivModUnique(y + n, n, y / n + 1, y % n);
  }

  /** Moving the window of N events by one does not change the count. */
  lemma WindowSlides(v: seq<nat>, q: Request, start: nat)
    requires Ladder(v) && q.duty.n > 0
    ensures WantedIn(v, q, start + 1, q.duty.n) == WantedIn(v, q, start, q.duty.n)
  {
    WantedInSnoc(v, q, start + 1, q.duty.n - 1);
    WantedRepeats(v, q, start);
  }

  lemma {:induction false} WindowMoves(v: seq<nat>, q: Request, start: nat, shift: nat)
    requires Ladder(v) && q.duty.n > 0
    ensures WantedIn(v, q, start, q.duty.n) == WantedIn(v, q, start + shift, q.duty.n)
    decreases shift
  {
    if shift > 0 {
      WindowSlides(v, q, start);
      WindowMoves(v, q, start + 1, shift - 1);
    }
  }

  lemma PhaseAdvances(v: seq<nat>, q: Request, start: nat, k: nat)
    requires Ladder(v) && k < q.duty.n
    requires if q.duty.n <= v[0] then Phase(q.duty.n, q.offset, start) == 0 else Divides(q.duty.n, start)
    ensures if q.duty.n <= v[0] then Phase(q.duty.n, q.offset, start + k) == k
            else Divides(q.duty.n, start + k) == (k == 0)
  {
    var n := q.duty.n;
    var y := if n <= v[0] then start + n - q.offset % n else start;
    DivModUnique(y + k, n, y / n, k);
  }

  /** From an event of phase 0 the first M of the next len events are wanted. */
  lemma {:induction false} CountFromPhaseZero(v: seq<nat>, q: Request, start: nat, len: nat)
    requires Ladder(v) && Usable(v, q.duty) && len <= q.duty.n
    requires if q.duty.n <= v[0] then Phase(q.duty.n, q.offset, start) == 0 else Divides(q.duty.n, start)
    ensures WantedIn(v, q, start, len) == if len < q.duty.m then len else q.duty.m
    decreases len
  {
    if len > 0 {
      var n := q.duty.n;
      CountFromPhaseZero(v, q, start, len - 1);
      WantedInSnoc(v, q, start, len - 1);
      PhaseAdvances(v, q, start, len - 1);
    }
  }

  /** Of any N consecutive events, wherever they begin, exactly M are wanted (all N when M >= N). */
  lemma MInEveryN(v: seq<nat>, q: Request, start: nat)
    requires Ladder(v) && Usable(v, q.duty)
    ensures WantedIn(v, q, start, q.duty.n) == if q.duty.n < q.duty.m then q.duty.n else q.duty.m
  {
    var n := q.duty.n;
    var zero := if n <= v[0] then q.offset % n else 0;
    if n <= v[0] { SelfDivides(n); } else { OwnSlot(n, 0); }
    CountFromPhaseZero(v, q, zero, n);
    if zero <= start { WindowMoves(v, q, zero, start - zero); } else { WindowMoves(v, q, start, zero - start); }
  }

  /** Of the events from number `start` on, how many of the first `len` carry the bit. */
  function SentOn(c: Cpu, start: nat, len: nat, b: Bit): nat
    requires start + len <= |c.events|
    decreases len
  {
    if len == 0 then 0 else SentOn(c, start, len - 1, b) + if EventOn(c, start + len - 1, b) then 1 else 0
  }

  lemma {:induction false} SentAsWanted(v: seq<nat>, q: Request, c: Cpu, start: nat, len: nat, b: Bit)
    requires Ladder(v) && q.duty.n > 0 && start + len <= |c.events|
    requires forall k: nat :: start <= k < start + len ==> EventOn(c, k, b) == Wanted(v, q, k)
    ensures SentOn(c, start, len, b) == WantedIn(v, q, start, len)
    decreases len
  {
    if len > 0 {
      SentAsWanted(v, q, c, start, len - 1, b);
      WantedInSnoc(v, q, start, len - 1);
    }
  }

  /** A plan that delivers sends the bit with exactly M of any N consecutive events it owes. */
  lemma MInEveryNSent(v: seq<nat>, x: Operands, q: Request, b: Bit, s: System, p: Place, e: nat, t0: nat, steps: nat,
                      start: nat)
    requires Ladder(v) && Sized(v, x) && Usable(v, q.duty) && Delivers(v, x, q, b)
    requires s.mem == Plan(v, x) && At(v, s.cpu, p, e, t0) && (p == Start ==> t0 == x.initTag)
    requires OwedFrom(v, q, s.cpu, p, b) <= start && start + q.duty.n <= |Run(s, steps).cpu.events|
    ensures SentOn(Run(s, steps).cpu, start, q.duty.n, b) == if q.duty.n < q.duty.m then q.duty.n else q.duty.m
  {
    SentAsWanted(v, q, Run(s, steps).cpu, start, q.duty.n, b);
    MInEveryN(v, q, start);
  }
}
