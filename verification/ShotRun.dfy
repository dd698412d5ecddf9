/** What the chunks of a single-shot join send while the plan keeps running. */
module ShotRun {
  import opened ModeBits
  import opened RunPlanMachine
  import opened SharedPlan
  import opened PlanControl
  import opened BitRun
  import opened LiveRewrite

  /** A rewriting pass that writes each instruction at most once; `todo` are the addresses not yet written. */
  predicate OncePass(mvs: seq<Move>, target: seq<Instr>, todo: set<nat>)
    decreases |mvs|
  {
    if mvs == [] then true
    else
      match mvs[0]
      case Exec => OncePass(mvs[1..], target, todo)
      case Write(a, i) => a in todo && a < |target| && i == target[a] && OncePass(mvs[1..], target, todo - {a})
  }

  function TodoAfter(mvs: seq<Move>, todo: set<nat>): set<nat>
    decreases |mvs|
  {
    if mvs == [] then todo
    else TodoAfter(mvs[1..], if mvs[0].Write? then todo - {mvs[0].addr} else todo)
  }

  /** The events that carried the bit, with the one whose HEARTBEAT is the next instruction. */
  function Shown(c: Cpu, p: Place, b: Bit): nat {
    OnCount(c.events, b) + if p.Fine? && p.part == 3 && On(c.mode, b) then 1 else 0
  }

  /** The bit may be on anywhere but between the AND of a fine slot and its HEARTBEAT. */
  predicate Lingers(p: Place) {
    p.Fine? ==> p.part == 0 || p.part >= 3
  }

  /** Every AND in memory clears the bit. */
  ghost predicate ClearsAll(mem: seq<Instr>, b: Bit) {
    forall a: nat :: a < |mem| && mem[a].AndMode? ==> !On(mem[a].mask, b)
  }

  /** The AND that closes the loop of this level clears the bit. */
  ghost predicate Closes(v: seq<nat>, mem: seq<Instr>, level: nat, b: Bit)
    requires Ladder(v)
  {
    forall a: nat :: a < |mem| && mem[a].AndMode? && PlaceAt(v, a) == Tail(level, 1) ==> !On(mem[a].mask, b)
  }

  /** All loops up to this level are being left, and the AND that closes it is still to come. */
  predicate Closing(v: seq<nat>, level: nat, p: Place, e: nat)
    requires Ladder(v)
  {
    1 <= level <= Top(v) && e > 0 && Divides(v[level], e) && (p.FineEnd? || (p.Tail? && p.level <= level))
  }

  // ---------------------------------------------------------------- preparation pass

  /** Nothing can set the bit; if it is still on, it goes off before it is shown again: at any AND after a fine
      chunk, at the AND that closes its loop after a coarse chunk of level `last`. */
  ghost predicate Calm(v: seq<nat>, mem: seq<Instr>, p: Place, e: nat, on: bool, last: nat, b: Bit)
    requires Ladder(v)
  {
    && Dark(mem, b)
    && (on ==> if last == 0 then Lingers(p) && ClearsAll(mem, b) else Closing(v, last, p, e) && Closes(v, mem, last, b))
  }

  lemma DarkExec(s: System, b: Bit)
    requires Dark(s.mem, b) && s.cpu.pc < |s.mem|
    ensures Dark(Step(s).mem, b)
    ensures var i := s.mem[s.cpu.pc];
            On(Step(s).cpu.mode, b) == (On(s.cpu.mode, b) && !(i.AndMode? && !On(i.mask, b)))
  {
    StepEffect(s, b);
  }

  lemma CalmKeeps(v: seq<nat>, s: System, last: nat, b: Bit, p: Place, e: nat, t0: nat)
    requires Skeletal(v, s.mem) && At(v, s.cpu, p, e, t0) && Calm(v, s.mem, p, e, On(s.cpu.mode, b), last, b)
    ensures Calm(v, Step(s).mem, NextPlace(v, p, e), NextEvent(p, e), On(Step(s).cpu.mode, b), last, b)
    ensures On(Step(s).cpu.mode, b) ==> On(s.cpu.mode, b)
  {
    DarkExec(s, b);
    assert Fits(v, p, s.mem[s.cpu.pc]);
    if last > 0 && On(s.cpu.mode, b) && p.Tail? { DividesDown(v, p.level, last, e); }
  }

  lemma CalmShows(v: seq<nat>, s: System, last: nat, b: Bit, p: Place, e: nat, t0: nat)
    requires Skeletal(v, s.mem) && At(v, s.cpu, p, e, t0) && Calm(v, s.mem, p, e, On(s.cpu.mode, b), last, b)
    ensures Shown(Step(s).cpu, NextPlace(v, p, e), b) == Shown(s.cpu, p, b)
  {
    DarkExec(s, b);
    CountNext(v, s, b, p);
    assert Fits(v, p, s.mem[s.cpu.pc]);
  }

  lemma CalmWrite(v: seq<nat>, s: System, mv: Move, target: seq<Instr>, last: nat, b: Bit, p: Place, e: nat)
    requires Skeletal(v, s.mem) && Skeletal(v, target) && Towards([mv], target) && mv.Write?
    requires Calm(v, s.mem, p, e, On(s.cpu.mode, b), last, b) && Dark(target, b)
    requires On(s.cpu.mode, b) ==> if last == 0 then ClearsAll(target, b) else Closes(v, target, last, b)
    ensures Calm(v, Apply(s, mv).mem, p, e, On(s.cpu.mode, b), last, b)
  {
    assert mv == [mv][0];
  }

  lemma {:induction false} CalmPlay(v: seq<nat>, s: System, mvs: seq<Move>, target: seq<Instr>, last: nat, b: Bit,
                                    p: Place, e: nat, t0: nat)
    returns (p': Place, e': nat)
    requires Skeletal(v, s.mem) && Skeletal(v, target) && Towards(mvs, target)
    requires At(v, s.cpu, p, e, t0) && p != Start
    requires Calm(v, s.mem, p, e, On(s.cpu.mode, b), last, b) && Dark(target, b)
    requires On(s.cpu.mode, b) ==> if last == 0 then ClearsAll(target, b) else Closes(v, target, last, b)
    ensures var r := Play(s, mvs);
            && Skeletal(v, r.mem) && At(v, r.cpu, p', e', t0) && p' != Start
            && Calm(v, r.mem, p', e', On(r.cpu.mode, b), last, b)
            && (On(r.cpu.mode, b) ==> On(s.cpu.mode, b))
            && Shown(r.cpu, p', b) == Shown(s.cpu, p, b)
    decreases |mvs|
  {
    if mvs == [] {
      p', e' := p, e;
    } else {
      assert Towards([mvs[0]], target);
      p', e' := MoveOnTrack(v, s, mvs[0], target, p, e, t0);
      if mvs[0].Exec? {
        CalmKeeps(v, s, last, b, p, e, t0);
        CalmShows(v, s, last, b, p, e, t0);
      } else {
        CalmWrite(v, s, mvs[0], target, last, b, p, e);
      }
      p', e' := CalmPlay(v, Apply(s, mvs[0]), mvs[1..], target, last, b, p', e', t0);
    }
  }

  // ---------------------------------------------------------------- a fine chunk

  function ShotAddr(v: seq<nat>, i: nat): nat
    requires Ladder(v)
  {
    FineBase(v) + 7 * i + 2
  }

  /** Memory while a fine chunk with these slots is armed: only its own slots can set the bit, every AND
      clears it, and what has not been written yet is not armed. */
  ghost predicate FineArmed(v: seq<nat>, mem: seq<Instr>, slots: set<nat>, todo: set<nat>, b: Bit) {
    && Skeletal(v, mem)
    && ClearsAll(mem, b)
    && (forall a: nat :: a < |mem| && mem[a].OrMode? ==> !On(mem[a].mask, b))
    && (forall a: nat :: a < |mem| && mem[a].OrSingleShot? && On(mem[a].mask, b) ==>
          a !in todo && PlaceAt(v, a).Fine? && PlaceAt(v, a).slot in slots)
  }

  predicate Waits(v: seq<nat>, mem: seq<Instr>, todo: set<nat>, i: nat, b: Bit)
    requires Ladder(v)
  {
    var a := ShotAddr(v, i);
    a in todo || (a < |mem| && mem[a].OrSingleShot? && On(mem[a].mask, b))
  }

  /** The slots whose shot is still to come. */
  ghost function Waiting(v: seq<nat>, mem: seq<Instr>, slots: set<nat>, todo: set<nat>, b: Bit): set<nat>
    requires Ladder(v)
  {
    set i | i in slots && Waits(v, mem, todo, i, b)
  }

  /** The armed plan: all its slots hold a shot. */
  ghost predicate FineTarget(v: seq<nat>, target: seq<Instr>, slots: set<nat>, b: Bit) {
    && FineArmed(v, target, slots, {}, b)
    && (forall i | i in slots :: i < v[0] && Waits(v, target, {}, i, b))
  }

  lemma ShotPlace(v: seq<nat>, i: nat)
    requires Ladder(v) && i < v[0]
    ensures ShotAddr(v, i) < Length(v) && PlaceAt(v, ShotAddr(v, i)) == Fine(i, 2)
  {
  }

  /** Firing in slot i takes exactly i from the waiting set. */
  lemma FireTakesOne(v: seq<nat>, s: System, slots: set<nat>, todo: set<nat>, b: Bit, i: nat)
    requires FineArmed(v, s.mem, slots, todo, b) && i < v[0] && s.cpu.pc == ShotAddr(v, i)
    requires forall j | j in slots :: j < v[0]
    ensures On(s.mem[s.cpu.pc].mask, b) ==>
              i in Waiting(v, s.mem, slots, todo, b)
              && Waiting(v, Step(s).mem, slots, todo, b) == Waiting(v, s.mem, slots, todo, b) - {i}
    ensures !On(s.mem[s.cpu.pc].mask, b) ==>
              Waiting(v, Step(s).mem, slots, todo, b) == Waiting(v, s.mem, slots, todo, b)
  {
    ShotPlace(v, i);
    assert Fits(v, Fine(i, 2), s.mem[s.cpu.pc]);
    forall j | j in slots && j != i
      ensures Waits(v, Step(s).mem, todo, j, b) == Waits(v, s.mem, todo, j, b)
    {
      assert ShotAddr(v, j) != ShotAddr(v, i);
    }
  }

  /** One instruction of the armed plan at the bit. */
  lemma FineEffect(v: seq<nat>, s: System, slots: set<nat>, todo: set<nat>, b: Bit, p: Place)
    requires FineArmed(v, s.mem, slots, todo, b) && s.cpu.pc < |s.mem| && p == PlaceAt(v, s.cpu.pc)
    ensures var i, shot := s.mem[s.cpu.pc], p.Fine? && p.part == 2;
            && (shot ==> i.OrSingleShot? && s.cpu.pc == ShotAddr(v, p.slot))
            && (p.Fine? && p.part == 0 ==> !On(Step(s).cpu.mode, b))
            && (On(Step(s).cpu.mode, b) ==> On(s.cpu.mode, b) || (shot && On(i.mask, b)))
            && (shot ==> On(Step(s).cpu.mode, b) == (On(s.cpu.mode, b) || On(i.mask, b)))
            && (p.Fine? && (p.part == 1 || p.part == 3) ==> On(Step(s).cpu.mode, b) == On(s.cpu.mode, b))
  {
    StepEffect(s, b);
    assert Fits(v, p, s.mem[s.cpu.pc]);
  }

  /** A HEARTBEAT with the bit on is one more event that carries it. */
  lemma CountNext(v: seq<nat>, s: System, b: Bit, p: Place)
    requires Skeletal(v, s.mem) && s.cpu.pc < |s.mem| && p == PlaceAt(v, s.cpu.pc)
    ensures OnCount(Step(s).cpu.events, b)
         == OnCount(s.cpu.events, b) + if p.Fine? && p.part == 3 && On(s.cpu.mode, b) then 1 else 0
  {
    StepSends(v, s, p);
    OnCountSnoc(s.cpu.events, Event(s.cpu.tag, s.cpu.mode), b);
  }

  /** One instruction of the plan at the bit: what it leaves on, and what it shows. */
  lemma FineShows(v: seq<nat>, s: System, slots: set<nat>, todo: set<nat>, b: Bit, p: Place, e: nat, t0: nat)
    requires FineArmed(v, s.mem, slots, todo, b)
    requires At(v, s.cpu, p, e, t0) && (On(s.cpu.mode, b) ==> Lingers(p))
    ensures s.cpu.pc < |s.mem|
    ensures var i, shot := s.mem[s.cpu.pc], p.Fine? && p.part == 2;
            && (shot ==> i.OrSingleShot? && s.cpu.pc == ShotAddr(v, p.slot))
            && (On(Step(s).cpu.mode, b) ==> Lingers(NextPlace(v, p, e)))
            && Shown(Step(s).cpu, NextPlace(v, p, e), b) == Shown(s.cpu, p, b) + if shot && On(i.mask, b) then 1 else 0
  {
    hide Step, OpenAt, Fits, Counted, On, OnCount;
    FineEffect(v, s, slots, todo, b, p);
    CountNext(v, s, b, p);
  }

  lemma FineArmedStep(v: seq<nat>, s: System, slots: set<nat>, todo: set<nat>, b: Bit)
    requires FineArmed(v, s.mem, slots, todo, b)
    ensures FineArmed(v, Step(s).mem, slots, todo, b)
  {
    StepKeepsSkeleton(v, s);
  }

  lemma FineWaits(v: seq<nat>, s: System, slots: set<nat>, todo: set<nat>, b: Bit, p: Place)
    requires FineArmed(v, s.mem, slots, todo, b) && (forall j | j in slots :: j < v[0])
    requires s.cpu.pc < |s.mem| && p == PlaceAt(v, s.cpu.pc)
    ensures |Waiting(v, Step(s).mem, slots, todo, b)|
         + (if p.Fine? && p.part == 2 && On(s.mem[s.cpu.pc].mask, b) then 1 else 0)
         == |Waiting(v, s.mem, slots, todo, b)|
  {
    assert Fits(v, p, s.mem[s.cpu.pc]);
    if p.Fine? && p.part == 2 {
      FireTakesOne(v, s, slots, todo, b, p.slot);
    } else {
      OtherTakesNone(v, s, slots, todo, b, p);
    }
  }

  lemma FineExec(v: seq<nat>, s: System, slots: set<nat>, todo: set<nat>, b: Bit, p: Place, e: nat, t0: nat)
    requires FineArmed(v, s.mem, slots, todo, b) && (forall j | j in slots :: j < v[0])
    requires At(v, s.cpu, p, e, t0) && (On(s.cpu.mode, b) ==> Lingers(p))
    ensures On(Step(s).cpu.mode, b) ==> Lingers(NextPlace(v, p, e))
    ensures Shown(Step(s).cpu, NextPlace(v, p, e), b) + |Waiting(v, Step(s).mem, slots, todo, b)|
         == Shown(s.cpu, p, b) + |Waiting(v, s.mem, slots, todo, b)|
  {
    FineShows(v, s, slots, todo, b, p, e, t0);
    FineWaits(v, s, slots, todo, b, p);
  }

  lemma OtherTakesNone(v: seq<nat>, s: System, slots: set<nat>, todo: set<nat>, b: Bit, p: Place)
    requires FineArmed(v, s.mem, slots, todo, b) && (forall j | j in slots :: j < v[0])
    requires s.cpu.pc < |s.mem| && p == PlaceAt(v, s.cpu.pc) && !(p.Fine? && p.part == 2)
    ensures Waiting(v, Step(s).mem, slots, todo, b) == Waiting(v, s.mem, slots, todo, b)
  {
    assert Fits(v, p, s.mem[s.cpu.pc]);
    forall j | j in slots ensures Waits(v, Step(s).mem, todo, j, b) == Waits(v, s.mem, todo, j, b) {
      ShotPlace(v, j);
    }
  }

  lemma FineWriteArms(v: seq<nat>, mem: seq<Instr>, a: nat, target: seq<Instr>, slots: set<nat>, todo: set<nat>, b: Bit)
    requires FineArmed(v, mem, slots, todo, b) && FineArmed(v, target, slots, {}, b)
    requires a in todo && a < |target|
    ensures FineArmed(v, mem[a := target[a]], slots, todo - {a}, b)
  {
  }

  lemma FineWriteWaits(v: seq<nat>, mem: seq<Instr>, a: nat, target: seq<Instr>, slots: set<nat>, todo: set<nat>,
                       b: Bit, i: nat)
    requires Ladder(v) && |mem| == |target| == Length(v) && FineTarget(v, target, slots, b)
    requires a in todo && a < |target| && i in slots
    ensures Waits(v, mem[a := target[a]], todo - {a}, i, b) == Waits(v, mem, todo, i, b)
  {
    hide FineArmed;
    assert Waits(v, target, {}, i, b);
  }

  lemma FineWrite(v: seq<nat>, s: System, a: nat, target: seq<Instr>, slots: set<nat>, todo: set<nat>, b: Bit)
    requires FineArmed(v, s.mem, slots, todo, b) && FineTarget(v, target, slots, b)
    requires a in todo && a < |target|
    ensures FineArmed(v, s.mem[a := target[a]], slots, todo - {a}, b)
    ensures Waiting(v, s.mem[a := target[a]], slots, todo - {a}, b) == Waiting(v, s.mem, slots, todo, b)
  {
    FineWriteArms(v, s.mem, a, target, slots, todo, b);
    hide Waits;
    forall i | i in slots ensures Waits(v, s.mem[a := target[a]], todo - {a}, i, b) == Waits(v, s.mem, todo, i, b) {
      FineWriteWaits(v, s.mem, a, target, slots, todo, b, i);
    }
  }

  /** Conservation: shots that went out plus shots still waiting stay the same. */
  lemma {:induction false} FinePlay(v: seq<nat>, s: System, mvs: seq<Move>, target: seq<Instr>, slots: set<nat>,
                                    todo: set<nat>, b: Bit, p: Place, e: nat, t0: nat)
    returns (p': Place, e': nat)
    requires FineArmed(v, s.mem, slots, todo, b) && FineTarget(v, target, slots, b) && OncePass(mvs, target, todo)
    requires At(v, s.cpu, p, e, t0) && p != Start && (On(s.cpu.mode, b) ==> Lingers(p))
    ensures var r, left := Play(s, mvs), TodoAfter(mvs, todo);
            && FineArmed(v, r.mem, slots, left, b)
            && At(v, r.cpu, p', e', t0) && p' != Start && (On(r.cpu.mode, b) ==> Lingers(p'))
            && Shown(r.cpu, p', b) + |Waiting(v, r.mem, slots, left, b)|
            == Shown(s.cpu, p, b) + |Waiting(v, s.mem, slots, todo, b)|
    decreases |mvs|
  {
    if mvs == [] {
      p', e' := p, e;
    } else if mvs[0].Exec? {
      FineExec(v, s, slots, todo, b, p, e, t0);
      FineArmedStep(v, s, slots, todo, b);
      ControlStep(v, s, p, e, t0);
      p', e' := FinePlay(v, Step(s), mvs[1..], target, slots, todo, b, NextPlace(v, p, e), NextEvent(p, e), t0);
    } else {
      var a := mvs[0].addr;
      FineWrite(v, s, a, target, slots, todo, b);
      p', e' := FinePlay(v, Apply(s, mvs[0]), mvs[1..], target, slots, todo - {a}, b, p, e, t0);
    }
  }

  function Idle(n: nat): (mvs: seq<Move>)
    ensures |mvs| == n
  {
    seq(n, _ => Exec)
  }

  lemma {:induction false} PlayIdle(s: System, n: nat, target: seq<Instr>, todo: set<nat>)
    ensures Play(s, Idle(n)) == Run(s, n)
    ensures OncePass(Idle(n), target, todo) && TodoAfter(Idle(n), todo) == todo
    decreases n
  {
    if n > 0 {
      assert Idle(n)[1..] == Idle(n - 1);
      PlayIdle(Step(s), n - 1, target, todo);
    }
  }

  // ---------------------------------------------------------------- a coarse chunk

  function HeadAddr(v: seq<nat>, level: nat): nat
    requires Ladder(v) && level <= Top(v)
  {
    FineBase(v) - 3 * level
  }

  /** Memory while a coarse chunk of this level is armed: only the shot at the head of its loop can set the
      bit, and only the AND after its DO_LOOP clears it. */
  ghost predicate CoarseArmed(v: seq<nat>, mem: seq<Instr>, level: nat, todo: set<nat>, b: Bit) {
    && Skeletal(v, mem)
    && 1 <= level <= Top(v)
    && (forall a: nat :: a < |mem| && mem[a].AndMode? ==> On(mem[a].mask, b) == (PlaceAt(v, a) != Tail(level, 1)))
    && (forall a: nat :: a < |mem| && mem[a].OrMode? ==> !On(mem[a].mask, b))
    && (forall a: nat :: a < |mem| && mem[a].OrSingleShot? && On(mem[a].mask, b) ==>
          a !in todo && PlaceAt(v, a) == Head(level, 0))
  }

  ghost predicate CoarseTarget(v: seq<nat>, target: seq<Instr>, level: nat, b: Bit) {
    && CoarseArmed(v, target, level, {}, b)
    && target[HeadAddr(v, level)].OrSingleShot? && On(target[HeadAddr(v, level)].mask, b)
  }

  predicate CoarseWaits(v: seq<nat>, mem: seq<Instr>, level: nat, todo: set<nat>, b: Bit)
    requires Ladder(v) && level <= Top(v)
  {
    var a := HeadAddr(v, level);
    a in todo || (a < |mem| && mem[a].OrSingleShot? && On(mem[a].mask, b))
  }

  /** The life of a coarse chunk: the shot waits (the pulse of the chunk before it may still be closing), the pulse
      lasts from event `first` on, the pulse is over. */
  datatype Pulse = Before | Lasting(first: nat) | Over

  /** Where the plan can be while the pulse lasts. */
  predicate InPulse(v: seq<nat>, level: nat, p: Place, e: nat, first: nat)
    requires Ladder(v) && level <= Top(v)
  {
    && first <= e <= first + v[level]
    && (p.Head? ==> p.level < level || (p.level == level && p.part > 0 && e == first))
    && (p.FineEnd? || p.Tail? ==> e > first)
    && (p.Tail? ==> p.level <= level)
    && (p.Head? || p.Fine? ==> e < first + v[level])
    && !p.Start? && !p.LabelOp? && !p.Goto?
  }

  /** `base` events had carried the bit before the chunk. */
  ghost predicate PulseState(v: seq<nat>, s: System, level: nat, todo: set<nat>, b: Bit, p: Place, e: nat, base: nat,
                             phase: Pulse) {
    && CoarseArmed(v, s.mem, level, todo, b)
    && match phase
       case Before =>
         && (On(s.cpu.mode, b) ==> Closing(v, level, p, e))
         && CoarseWaits(v, s.mem, level, todo, b) && OnCount(s.cpu.events, b) == base
       case Lasting(first) =>
         && On(s.cpu.mode, b) && !CoarseWaits(v, s.mem, level, todo, b)
         && Divides(v[level], first) && InPulse(v, level, p, e, first)
         && first <= |s.cpu.events| && OnCount(s.cpu.events, b) == base + |s.cpu.events| - first
       case Over =>
         !On(s.cpu.mode, b) && !CoarseWaits(v, s.mem, level, todo, b) && OnCount(s.cpu.events, b) == base + v[level]
  }

  /** How one instruction moves the chunk along. */
  function NextPhase(v: seq<nat>, mem: seq<Instr>, pc: nat, level: nat, b: Bit, p: Place, e: nat, phase: Pulse): Pulse
    requires pc < |mem|
  {
    if phase.Before? && p == Head(level, 0) && mem[pc].OrSingleShot? && On(mem[pc].mask, b) then Lasting(e)
    else if phase.Lasting? && p == Tail(level, 1) then Over
    else phase
  }

  /** Within a pulse the next multiple of the loop length is its end. */
  lemma NextMultiple(d: nat, first: nat, e: nat)
    requires Divides(d, first) && Divides(d, e) && first < e <= first + d
    ensures e == first + d
  {
    var j, k := first / d, e / d;
    assert d * (k - j - 1) == d * k - d * j - d;
    SmallMultiple(d, k - j - 1);
  }

  lemma InPulseNext(v: seq<nat>, level: nat, p: Place, e: nat, first: nat)
    requires Ladder(v) && 1 <= level <= Top(v) && Possible(v, p, e)
    requires Divides(v[level], first) && InPulse(v, level, p, e, first)
    ensures p == Tail(level, 1) ==> e == first + v[level]
    ensures p != Tail(level, 1) ==> InPulse(v, level, NextPlace(v, p, e), NextEvent(p, e), first)
  {
    if e == first + v[level] || e + 1 == first + v[level] {
      LevelsDivide(v, 0, level);
      DividesTrans(v[0], v[level], first);
      SumDivides(v[0], first, v[level]);
    }
    if p.Fine? {
      NextSlot(v, p.slot, e);
    }
    if p.Tail? {
      if p.level == level && p.part == 1 {
        NextMultiple(v[level], first, e);
      } else if p.part == 0 && e == first + v[level] {
        LevelsDivide(v, p.level, level);
        DividesTrans(v[p.level], v[level], first);
        SumDivides(v[p.level], first, v[level]);
      }
    }
  }

  lemma SumDivides(d: nat, x: nat, y: nat)
    requires Divides(d, x) && Divides(d, y)
    ensures Divides(d, x + y)
  {
    assert x + y == d * (x / d) + d * (y / d) == d * (x / d + y / d);
    ModOfMultiple(d, x / d + y / d);
  }

  lemma HeadPlaceOf(v: seq<nat>, level: nat)
    requires Ladder(v) && 1 <= level <= Top(v)
    ensures HeadAddr(v, level) < Length(v) && PlaceAt(v, HeadAddr(v, level)) == Head(level, 0)
  {
  }

  /** Only the shot of this chunk can fire, and once fired it no longer waits. */
  lemma CoarseArmedStep(v: seq<nat>, s: System, level: nat, todo: set<nat>, b: Bit, p: Place)
    requires CoarseArmed(v, s.mem, level, todo, b)
    requires s.cpu.pc < |s.mem| && p == PlaceAt(v, s.cpu.pc)
    ensures CoarseArmed(v, Step(s).mem, level, todo, b)
    ensures var i := s.mem[s.cpu.pc];
            var fires := i.OrSingleShot? && On(i.mask, b);
            && (fires ==> p == Head(level, 0) && CoarseWaits(v, s.mem, level, todo, b))
            && CoarseWaits(v, Step(s).mem, level, todo, b) == (CoarseWaits(v, s.mem, level, todo, b) && !fires)
  {
    HeadPlaceOf(v, level);
    StepKeepsSkeleton(v, s);
    assert Fits(v, p, s.mem[s.cpu.pc]);
  }

  /** The instruction at place p at the bit. */
  lemma CoarseEffect(v: seq<nat>, s: System, level: nat, todo: set<nat>, b: Bit, p: Place)
    requires CoarseArmed(v, s.mem, level, todo, b)
    requires s.cpu.pc < |s.mem| && p == PlaceAt(v, s.cpu.pc)
    ensures var i := s.mem[s.cpu.pc];
            On(Step(s).cpu.mode, b) == ((On(s.cpu.mode, b) && p != Tail(level, 1)) || (i.OrSingleShot? && On(i.mask,
              b)))
  {
    StepEffect(s, b);
    assert Fits(v, p, s.mem[s.cpu.pc]);
  }

  /** While the shot waits, nothing of the chunk is shown. */
  lemma BeforeExec(v: seq<nat>, s: System, level: nat, todo: set<nat>, b: Bit, p: Place, e: nat, t0: nat, base: nat)
    requires PulseState(v, s, level, todo, b, p, e, base, Before) && At(v, s.cpu, p, e, t0) && p != Start
    ensures PulseState(v, Step(s), level, todo, b, NextPlace(v, p, e), NextEvent(p, e), base,
                       NextPhase(v, s.mem, s.cpu.pc, level, b, p, e, Before))
  {
    CoarseArmedStep(v, s, level, todo, b, p);
    CoarseEffect(v, s, level, todo, b, p);
    StepSends(v, s, p);
    OnCountSnoc(s.cpu.events, Event(s.cpu.tag, s.cpu.mode), b);
    if p == Head(level, 0) {
      LevelsDivide(v, level, level);
    } else {
      if On(s.cpu.mode, b) && p.Tail? { DividesDown(v, p.level, level, e); }
    }
  }

  lemma AfterExec(v: seq<nat>, s: System, level: nat, todo: set<nat>, b: Bit, p: Place, e: nat, t0: nat, base: nat,
                  phase: Pulse)
    requires PulseState(v, s, level, todo, b, p, e, base, phase) && At(v, s.cpu, p, e, t0) && p != Start
    requires !phase.Before?
    ensures PulseState(v, Step(s), level, todo, b, NextPlace(v, p, e), NextEvent(p, e), base,
                       NextPhase(v, s.mem, s.cpu.pc, level, b, p, e, phase))
  {
    CoarseArmedStep(v, s, level, todo, b, p);
    CoarseEffect(v, s, level, todo, b, p);
    StepSends(v, s, p);
    OnCountSnoc(s.cpu.events, Event(s.cpu.tag, s.cpu.mode), b);
    if phase.Lasting? {
      InPulseNext(v, level, p, e, phase.first);
    }
  }

  lemma PulseExec(v: seq<nat>, s: System, level: nat, todo: set<nat>, b: Bit, p: Place, e: nat, t0: nat, base: nat,
                  phase: Pulse)
    requires PulseState(v, s, level, todo, b, p, e, base, phase) && At(v, s.cpu, p, e, t0) && p != Start
    ensures PulseState(v, Step(s), level, todo, b, NextPlace(v, p, e), NextEvent(p, e), base,
                       NextPhase(v, s.mem, s.cpu.pc, level, b, p, e, phase))
  {
    if phase.Before? {
      BeforeExec(v, s, level, todo, b, p, e, t0, base);
    } else {
      AfterExec(v, s, level, todo, b, p, e, t0, base, phase);
    }
  }

  lemma PulseWrite(v: seq<nat>, s: System, a: nat, target: seq<Instr>, level: nat, todo: set<nat>, b: Bit, p: Place,
                   e: nat, base: nat, phase: Pulse)
    requires PulseState(v, s, level, todo, b, p, e, base, phase) && CoarseTarget(v, target, level, b)
    requires a in todo && a < |target|
    ensures PulseState(v, s.(mem := s.mem[a := target[a]]), level, todo - {a}, b, p, e, base, phase)
  {
    HeadPlaceOf(v, level);
    assert CoarseArmed(v, s.mem[a := target[a]], level, todo - {a}, b);
  }

  lemma {:induction false} PulsePlay(v: seq<nat>, s: System, mvs: seq<Move>, target: seq<Instr>, level: nat,
                                     todo: set<nat>, b: Bit, p: Place, e: nat, t0: nat, base: nat, phase: Pulse)
    returns (p': Place, e': nat, phase': Pulse)
    requires PulseState(v, s, level, todo, b, p, e, base, phase) && CoarseTarget(v, target, level, b)
    requires At(v, s.cpu, p, e, t0) && p != Start && OncePass(mvs, target, todo)
    ensures PulseState(v, Play(s, mvs), level, TodoAfter(mvs, todo), b, p', e', base, phase')
    ensures At(v, Play(s, mvs).cpu, p', e', t0) && p' != Start
    decreases |mvs|
  {
    if mvs == [] {
      p', e', phase' := p, e, phase;
    } else if mvs[0].Exec? {
      var next := NextPhase(v, s.mem, s.cpu.pc, level, b, p, e, phase);
      PulseExec(v, s, level, todo, b, p, e, t0, base, phase);
      ControlStep(v, s, p, e, t0);
      p', e', phase' := PulsePlay(v, Step(s), mvs[1..], target, level, todo, b, NextPlace(v, p, e), NextEvent(p, e), t0,
        base, next);
    } else {
      var a := mvs[0].addr;
      PulseWrite(v, s, a, target, level, todo, b, p, e, base, phase);
      p', e', phase' := PulsePlay(v, Apply(s, mvs[0]), mvs[1..], target, level, todo - {a}, b, p, e, t0, base, phase);
    }
  }

  // ---------------------------------------------------------------- how long a coarse chunk takes

  /** The shot fires at the latest when event `due`, a multiple of the loop length, is prepared. */
  predicate Due(v: seq<nat>, level: nat, due: nat, p: Place, e: nat, phase: Pulse)
    requires Ladder(v) && level <= Top(v)
  {
    match phase
    case Before =>
      e <= due && (e == due ==> p.FineEnd? || p.Tail? || p.Goto? || (p.Head? && (p.level > level || p == Head(level,
        0))))
    case Lasting(first) => first <= due
    case Over => true
  }

  lemma DueNext(v: seq<nat>, s: System, level: nat, b: Bit, p: Place, e: nat, t0: nat, base: nat, phase: Pulse,
                due: nat)
    requires PulseState(v, s, level, {}, b, p, e, base, phase) && At(v, s.cpu, p, e, t0) && p != Start
    requires Divides(v[level], due) && Due(v, level, due, p, e, phase)
    ensures Due(v, level, due, NextPlace(v, p, e), NextEvent(p, e), NextPhase(v, s.mem, s.cpu.pc, level, b, p, e, phase))
    ensures NextPlace(v, p, e) != Start
  {
    if phase.Before? {
      DividesDown(v, 0, level, due);
      if p.Fine? { NextSlot(v, p.slot, e); }
      if p.Tail? && p.level <= level { DividesDown(v, p.level, level, due); }
      if p == Head(level, 0) { assert s.cpu.pc == HeadAddr(v, level); }
    }
  }

  /** The chunk was armed just after the head of its loop had been passed for event `since`: it waits a whole loop. */
  predicate JustMissed(v: seq<nat>, level: nat, since: nat, p: Place, e: nat, phase: Pulse)
    requires Ladder(v) && level <= Top(v)
  {
    match phase
    case Before => e > since || (e == since && (p.Fine? || (p.Head? && p.level <= level && p != Head(level, 0))))
    case Lasting(first) => first >= since + v[level]
    case Over =>
      && e >= since + 2 * v[level]
      && (e == since + 2 * v[level] ==> p.Fine? || p.Head? || p.Goto? || (p.Tail? && p.level > level))
  }

  lemma JustMissedNext(v: seq<nat>, s: System, level: nat, b: Bit, p: Place, e: nat, t0: nat, base: nat, phase: Pulse,
                       since: nat)
    requires PulseState(v, s, level, {}, b, p, e, base, phase) && At(v, s.cpu, p, e, t0) && p != Start
    requires Divides(v[level], since) && JustMissed(v, level, since, p, e, phase)
    ensures JustMissed(v, level, since, NextPlace(v, p, e), NextEvent(p, e),
                       NextPhase(v, s.mem, s.cpu.pc, level, b, p, e, phase))
  {
    if phase.Before? && p == Head(level, 0) {
      MultipleGap(v[level], since, e);
    }
    if phase.Lasting? { InPulseNext(v, level, p, e, phase.first); }
  }

  lemma MultipleGap(d: nat, x: nat, y: nat)
    requires Divides(d, x) && Divides(d, y) && x < y
    ensures y >= x + d
  {
    assert y - x == d * (y / d - x / d);
    if y - x < d { SmallMultiple(d, y / d - x / d); }
  }

  lemma PulseSkeletal(v: seq<nat>, s: System, level: nat, b: Bit, p: Place, e: nat, base: nat, phase: Pulse)
    requires PulseState(v, s, level, {}, b, p, e, base, phase)
    ensures Skeletal(v, s.mem) && 1 <= level <= Top(v)
  {
  }

  /** A run of the armed chunk; both bounds on the time it fires are kept. */
  lemma {:induction false} DueRun(v: seq<nat>, s: System, level: nat, b: Bit, p: Place, e: nat, t0: nat, base: nat,
                                  phase: Pulse, since: nat, due: nat, steps: nat)
    returns (p': Place, e': nat, phase': Pulse)
    requires PulseState(v, s, level, {}, b, p, e, base, phase) && At(v, s.cpu, p, e, t0) && p != Start
    requires Divides(v[level], since) && Divides(v[level], due) && Due(v, level, due, p, e, phase)
    ensures PulseState(v, Run(s, steps), level, {}, b, p', e', base, phase') && At(v, Run(s, steps).cpu, p', e', t0)
    ensures p' != Start
    ensures Due(v, level, due, p', e', phase')
    ensures JustMissed(v, level, since, p, e, phase) ==> JustMissed(v, level, since, p', e', phase')
    decreases steps
  {
    hide PulseState, Due, JustMissed, OpenAt, Counted, PlaceAt, Step, NextPhase;
    if steps == 0 {
      p', e', phase' := p, e, phase;
    } else {
      PulseSkeletal(v, s, level, b, p, e, base, phase);
      DueNext(v, s, level, b, p, e, t0, base, phase, due);
      if JustMissed(v, level, since, p, e, phase) { JustMissedNext(v, s, level, b, p, e, t0, base, phase, since); }
      PulseExec(v, s, level, {}, b, p, e, t0, base, phase);
      ControlStep(v, s, p, e, t0);
      p', e', phase' := DueRun(v, Step(s), level, b, NextPlace(v, p, e), NextEvent(p, e), t0, base,
                               NextPhase(v, s.mem, s.cpu.pc, level, b, p, e, phase), since, due, steps - 1);
    }
  }

  /** The rule the software waits by, from any phase of the chunk: once the tag has advanced by twice the loop length
      since the wait began, all events of the chunk have gone out. With one event more the bit is off; exactly at
      twice the length the closing AND may still be to come. */
  lemma TagAdvanceEndsPulse(v: seq<nat>, s: System, level: nat, b: Bit, p: Place, e: nat, t0: nat, base: nat,
                            phase: Pulse, steps: nat)
    returns (p': Place, e': nat)
    requires PulseState(v, s, level, {}, b, p, e, base, phase) && At(v, s.cpu, p, e, t0) && p != Start
    requires Run(s, steps).cpu.tag >= s.cpu.tag + 2 * v[level]
    ensures var r := Run(s, steps);
            && At(v, r.cpu, p', e', t0) && p' != Start
            && CoarseArmed(v, r.mem, level, {}, b) && !CoarseWaits(v, r.mem, level, {}, b)
            && OnCount(r.cpu.events, b) == base + v[level]
            && (On(r.cpu.mode, b) ==> r.cpu.tag == s.cpu.tag + 2 * v[level] && Closing(v, level, p', e'))
  {
    LevelsDivide(v, level, level);
    var due := NextDue(v[level], e);
    var phase';
    p', e', phase' := DueRun(v, s, level, b, p, e, t0, base, phase, due, due, steps);
    PulseOverBy(v, Run(s, steps), level, b, p', e', t0, base, phase', due, e + 2 * v[level]);
  }

  lemma NextDue(d: nat, e: nat) returns (due: nat)
    requires d > 0
    ensures Divides(d, due) && e < due <= e + d
  {
    due := d * (e / d + 1);
    ModOfMultiple(d, e / d + 1);
    assert due == d * (e / d) + d;
  }

  lemma PulseOverBy(v: seq<nat>, s: System, level: nat, b: Bit, p: Place, e: nat, t0: nat, base: nat, phase: Pulse,
                    due: nat, latest: nat)
    requires PulseState(v, s, level, {}, b, p, e, base, phase) && At(v, s.cpu, p, e, t0)
    requires Due(v, level, due, p, e, phase)
    requires due < due + v[level] <= latest <= e
    requires Divides(v[level], due)
    ensures OnCount(s.cpu.events, b) == base + v[level]
    ensures !CoarseWaits(v, s.mem, level, {}, b)
    ensures On(s.cpu.mode, b) ==> e == latest && Closing(v, level, p, e)
  {
    SumDivides(v[level], due, v[level]);
  }
}
