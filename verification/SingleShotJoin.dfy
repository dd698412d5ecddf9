/** A single-shot join as a whole: any count, any fine duty cycle, chunk after chunk while the plan runs. */
module SingleShotJoin {
  import opened ModeBits
  import opened RunPlanMachine
  import opened SharedPlan
  import opened DutyRatio
  import opened PlanGenerator
  import opened PlanControl
  import opened LiveRewrite
  import opened SingleShot
  import opened ShotRun

  datatype ShotError = ZeroCount | BadDuty(error: Error) | CoarseDuty | NoActiveSlot

  datatype ShotPlan = Refused(why: ShotError) | Scheduled(duty: Duty, slots: seq<nat>, chunks: seq<Chunk>)

  /** The ratio is at least one event per pass of the fine slots. */
  predicate FineDuty(v: seq<nat>, wanted: Duty)
    requires |v| >= 1
  {
    |v| == 1 || wanted.n < v[0] || wanted.m * v[0] >= wanted.n
  }

  /** What the requested ratio was resolved to. */
  ghost predicate Fixed(v: seq<nat>, wanted: Duty, duty: Duty)
    requires Ladder(v)
  {
    Usable(v, duty) && if wanted.n < v[0] then duty == wanted else Resolves(v, wanted.n, wanted.m, duty)
  }

  /** The slots that this duty switches on, the first M of every N, in ascending order. */
  ghost predicate SlotsOf(v: seq<nat>, duty: Duty, slots: seq<nat>)
    requires Ladder(v)
  {
    && (forall i: nat :: i in slots <==> i < v[0] && duty.n > 0 && i % duty.n < duty.m)
    && (forall j, k :: 0 <= j < k < |slots| ==> slots[j] < slots[k])
  }

  /** What becomes of a request: a zero count, an unacceptable ratio and a coarse one are refused; all others are
      executed in the slots of the resolved duty, largest chunk first, with coarse chunks at full duty only. */
  ghost predicate PlanOf(v: seq<nat>, wanted: Duty, count: nat, r: ShotPlan)
    requires Ladder(v)
  {
    match r
    case Refused(ZeroCount) => count == 0
    case Refused(BadDuty(_)) => count > 0 && !Acceptable(v, wanted)
    case Refused(CoarseDuty) => count > 0 && Acceptable(v, wanted) && !FineDuty(v, wanted)
    case Refused(NoActiveSlot) => false
    case Scheduled(duty, slots, chunks) =>
      && count > 0 && Acceptable(v, wanted) && FineDuty(v, wanted)
      && Fixed(v, wanted, duty) && SlotsOf(v, duty, slots) && slots != []
      && chunks == Greedy(v, duty.m == duty.n, |slots|, count)
  }

  ghost predicate SlotList(v: seq<nat>, slots: seq<nat>)
    requires Ladder(v)
  {
    && (forall j :: 0 <= j < |slots| ==> slots[j] < v[0])
    && (forall j, k :: 0 <= j < k < |slots| ==> slots[j] < slots[k])
  }

  /** One whole coarse loop, or at least one shot and no more than there are active slots. */
  predicate Fitting(v: seq<nat>, slots: seq<nat>, c: Chunk)
    requires Ladder(v)
  {
    c.level <= Top(v) && if c.level > 0 then c.count == v[c.level] else 1 <= c.count <= |slots|
  }

  method Schedule(v: seq<nat>, wanted: Duty, count: nat) returns (r: ShotPlan)
    requires Ladder(v)
    ensures PlanOf(v, wanted, count, r)
    ensures r.Scheduled? <==> count > 0 && Acceptable(v, wanted) && FineDuty(v, wanted)
  {
    if count < 1 { return Refused(ZeroCount); }
    var fixed := MnFixRatio(v, wanted);
    if fixed.Err? { return Refused(BadDuty(fixed.error)); }
    var duty := fixed.value;
    ResolvedFine(v, wanted, duty);
    if duty.n > v[0] { return Refused(CoarseDuty); }
    FirstSlotIsActive(v, duty);
    var slots := ActiveSlots(v, duty);
    assert 0 in slots;
    if slots == [] { return Refused(NoActiveSlot); }
    var chunks := Decompose(v, duty.m == duty.n, |slots|, count);
    return Scheduled(duty, slots, chunks);
  }

  lemma ResolvedFine(v: seq<nat>, wanted: Duty, duty: Duty)
    requires Ladder(v) && Acceptable(v, wanted) && Fixed(v, wanted, duty)
    ensures duty.n <= v[0] <==> FineDuty(v, wanted)
  {
    hide Usable;
    if wanted.n >= v[0] {
      LadderAscends(v);
      FloorBounds(wanted.m * v[0], wanted.n);
      assert Scaled(wanted.n, wanted.m, v[0]) > 0 <==> wanted.m * v[0] >= wanted.n;
    }
  }

  /** A schedule can be executed and adds up to the request. */
  lemma PlanFits(v: seq<nat>, wanted: Duty, count: nat, r: ShotPlan)
    requires Ladder(v) && PlanOf(v, wanted, count, r) && r.Scheduled?
    ensures SlotList(v, r.slots) && Total(r.chunks) == count && Descending(r.chunks)
    ensures forall c :: c in r.chunks ==> Fitting(v, r.slots, c)
  {
    hide Fixed, FineDuty, Acceptable;
    var full := r.duty.m == r.duty.n;
    GreedyFits(v, full, |r.slots|, count);
    forall c | c in r.chunks ensures Fitting(v, r.slots, c) {
      var i :| 0 <= i < |r.chunks| && r.chunks[i] == c;
      assert Sound(v, full, |r.slots|, r.chunks[i]);
    }
    forall j | 0 <= j < |r.slots| ensures r.slots[j] < v[0] { assert r.slots[j] in r.slots; }
  }

  lemma FirstSlotIsActive(v: seq<nat>, duty: Duty)
    requires Ladder(v) && Usable(v, duty) && duty.n <= v[0]
    ensures 0 < duty.n && 0 % duty.n == 0 < duty.m
  {
  }

  // ---------------------------------------------------------------- one chunk

  /** The software's and the processor's moves of one chunk: the preparation pass, the arming pass, and the
      instructions executed while the software waits. */
  datatype Segment = Segment(prep: seq<Move>, arm: seq<Move>, wait: nat)

  function Armed(s: System, g: Segment): System {
    Play(Play(s, g.prep), g.arm)
  }

  function After(s: System, g: Segment): System {
    Run(Armed(s, g), g.wait)
  }

  function NumbersBelow(n: nat): (r: set<nat>)
    ensures forall a: nat :: a in r <==> a < n
  {
    if n == 0 then {} else NumbersBelow(n - 1) + {n - 1}
  }

  /** All instruction addresses of the plan. */
  function Addresses(v: seq<nat>): set<nat>
    requires Ladder(v)
  {
    NumbersBelow(Length(v))
  }

  function PrepPlan(v: seq<nat>, prev: Operands, bits: Mask, slots: seq<nat>, c: Chunk): seq<Instr>
    requires Ladder(v) && Sized(v, prev) && c.level <= Top(v)
  {
    Plan(v, ChunkOperands(v, prev, bits, slots, c, false))
  }

  function ArmedPlan(v: seq<nat>, prev: Operands, bits: Mask, slots: seq<nat>, c: Chunk): seq<Instr>
    requires Ladder(v) && Sized(v, prev) && c.level <= Top(v)
  {
    Plan(v, ChunkOperands(v, prev, bits, slots, c, true))
  }

  /** Every single shot in memory reads 0. */
  ghost predicate Cleared(mem: seq<Instr>) {
    forall a: nat :: a < |mem| && mem[a].OrSingleShot? ==> mem[a].mask == {}
  }

  /** What the software waits for: every single shot reads 0, and the tag has advanced by twice the chunk. A fine
      chunk needs the first condition only. */
  ghost predicate Ready(c: Chunk, from: System, to: System) {
    && Cleared(to.mem)
    && (c.level > 0 ==> to.cpu.tag >= from.cpu.tag + 2 * c.count)
  }

  /** Both passes are complete and interleaved with the processor in any way; the wait ends when the software finds
      the chunk done. */
  ghost predicate Legal(v: seq<nat>, prev: Operands, bits: Mask, slots: seq<nat>, c: Chunk, s: System, g: Segment)
    requires Ladder(v) && Sized(v, prev) && c.level <= Top(v)
  {
    && Towards(g.prep, PrepPlan(v, prev, bits, slots, c))
    && Play(s, g.prep).mem == PrepPlan(v, prev, bits, slots, c)
    && OncePass(g.arm, ArmedPlan(v, prev, bits, slots, c), Addresses(v))
    && TodoAfter(g.arm, Addresses(v)) == {}
    && Ready(c, Armed(s, g), After(s, g))
  }

  /** The closing AND of a coarse chunk is rewritten to keep the bit exactly when a coarse chunk of another level
      follows; then the tag has to be seen one event further. */
  predicate InTime(c: Chunk, next: Chunk, from: System, to: System) {
    c.level > 0 && next.level > 0 && next.level != c.level ==> to.cpu.tag > from.cpu.tag + 2 * c.count
  }

  /** The plan between two chunks; `last` is the level of the one before. */
  ghost predicate Between(v: seq<nat>, s: System, last: nat, b: Bit, p: Place, e: nat, t0: nat) {
    Skeletal(v, s.mem) && At(v, s.cpu, p, e, t0) && p != Start && Calm(v, s.mem, p, e, On(s.cpu.mode, b), last, b)
  }

  /** A chunk of this level can be prepared now: the bit is off, or the next AND that matters still clears it. */
  predicate MayStart(s: System, last: nat, c: Chunk, b: Bit) {
    On(s.cpu.mode, b) ==> c.level == 0 || c.level == last
  }

  /** The place's index in the single-shot mask vector. */
  function ShotIndex(v: seq<nat>, p: Place): nat
    requires Ladder(v) && (p.Head? ==> p.level <= Top(v))
  {
    match p
    case Head(l, _) => Top(v) - l
    case Fine(i, _) => Top(v) + i
    case _ => 0
  }

  /** The masks of a chunk, instruction by instruction. */
  lemma ChunkInstr(v: seq<nat>, prev: Operands, bits: Mask, slots: seq<nat>, c: Chunk, armed: bool, b: Bit, a: nat)
    requires Ladder(v) && Sized(v, prev) && c.level <= Top(v) && b in bits && a < Length(v)
    requires forall k: nat :: k < |prev.ors| ==> b !in prev.ors[k]
    ensures var i, p := Plan(v, ChunkOperands(v, prev, bits, slots, c, armed))[a], PlaceAt(v, a);
            && (i.AndMode? ==> On(i.mask, b) == (c.level > 0 && p != Tail(c.level, 1)))
            && (i.OrMode? ==> !On(i.mask, b))
            && (i.OrSingleShot? ==> p.Head? || p.Fine?)
            && (i.OrSingleShot? ==> On(i.mask, b) == (armed && Shoots(v, slots, c, ShotIndex(v, p))))
  {
    ChunkBits(v, prev, bits, slots, c, armed, b);
    var x, p := ChunkOperands(v, prev, bits, slots, c, armed), PlaceAt(v, a);
    assert Plan(v, x)[a] == InstrOf(v, x, p);
  }

  /** The slots a fine chunk fires. */
  function Fired(slots: seq<nat>, count: nat): set<nat>
    requires count <= |slots|
  {
    set j | 0 <= j < count :: slots[j]
  }

  lemma {:induction false} FiredCount(slots: seq<nat>, count: nat)
    requires count <= |slots| && forall j, k :: 0 <= j < k < |slots| ==> slots[j] < slots[k]
    ensures |Fired(slots, count)| == count
    decreases count
  {
    if count > 0 {
      FiredCount(slots, count - 1);
      assert slots[count - 1] !in Fired(slots, count - 1);
      assert Fired(slots, count) == Fired(slots, count - 1) + {slots[count - 1]};
    } else {
      assert Fired(slots, 0) == {};
    }
  }

  lemma FinePlans(v: seq<nat>, prev: Operands, bits: Mask, slots: seq<nat>, c: Chunk, b: Bit)
    requires Ladder(v) && Sized(v, prev) && c.level == 0 && 1 <= c.count <= |slots| && b in bits
    requires SlotList(v, slots) && forall k: nat :: k < |prev.ors| ==> b !in prev.ors[k]
    ensures var prep, armed := PrepPlan(v, prev, bits, slots, c), ArmedPlan(v, prev, bits, slots, c);
            var fired := Fired(slots, c.count);
            && FineArmed(v, prep, fired, Addresses(v), b) && Dark(prep, b)
            && FineTarget(v, armed, fired, b)
            && Waiting(v, prep, fired, Addresses(v), b) == fired
  {
    var prep, armed := PrepPlan(v, prev, bits, slots, c), ArmedPlan(v, prev, bits, slots, c);
    var fired := Fired(slots, c.count);
    PlanIsSkeletal(v, ChunkOperands(v, prev, bits, slots, c, false));
    PlanIsSkeletal(v, ChunkOperands(v, prev, bits, slots, c, true));
    forall a: nat | a < Length(v)
      ensures prep[a].AndMode? ==> !On(prep[a].mask, b)
      ensures prep[a].OrMode? || prep[a].OrSingleShot? ==> !On(prep[a].mask, b)
    {
      ChunkInstr(v, prev, bits, slots, c, false, b, a);
    }
    forall a: nat | a < Length(v)
      ensures armed[a].AndMode? || armed[a].OrMode? ==> !On(armed[a].mask, b)
      ensures armed[a].OrSingleShot? ==> On(armed[a].mask, b) == (PlaceAt(v, a).Fine? && PlaceAt(v, a).slot in fired)
    {
      ChunkInstr(v, prev, bits, slots, c, true, b, a);
    }
    forall i | i in fired ensures i < v[0] && Waits(v, armed, {}, i, b) && Waits(v, prep, Addresses(v), i, b) {
      ShotPlace(v, i);
      assert Fits(v, Fine(i, 2), armed[ShotAddr(v, i)]);
    }
  }

  lemma CoarsePlans(v: seq<nat>, prev: Operands, bits: Mask, slots: seq<nat>, c: Chunk, b: Bit)
    requires Ladder(v) && Sized(v, prev) && 1 <= c.level <= Top(v) && b in bits
    requires forall k: nat :: k < |prev.ors| ==> b !in prev.ors[k]
    ensures var prep, armed := PrepPlan(v, prev, bits, slots, c), ArmedPlan(v, prev, bits, slots, c);
            && CoarseArmed(v, prep, c.level, Addresses(v), b) && Dark(prep, b)
            && CoarseWaits(v, prep, c.level, Addresses(v), b)
            && CoarseTarget(v, armed, c.level, b)
  {
    var prep, armed := PrepPlan(v, prev, bits, slots, c), ArmedPlan(v, prev, bits, slots, c);
    PlanIsSkeletal(v, ChunkOperands(v, prev, bits, slots, c, false));
    PlanIsSkeletal(v, ChunkOperands(v, prev, bits, slots, c, true));
    forall a: nat | a < Length(v)
      ensures prep[a].AndMode? ==> On(prep[a].mask, b) == (PlaceAt(v, a) != Tail(c.level, 1))
      ensures prep[a].OrMode? || prep[a].OrSingleShot? ==> !On(prep[a].mask, b)
    {
      ChunkInstr(v, prev, bits, slots, c, false, b, a);
    }
    HeadPlaceOf(v, c.level);
    forall a: nat | a < Length(v)
      ensures armed[a].AndMode? ==> On(armed[a].mask, b) == (PlaceAt(v, a) != Tail(c.level, 1))
      ensures armed[a].OrMode? ==> !On(armed[a].mask, b)
      ensures armed[a].OrSingleShot? ==> On(armed[a].mask, b) == (PlaceAt(v, a) == Head(c.level, 0))
    {
      ChunkInstr(v, prev, bits, slots, c, true, b, a);
      assert Fits(v, PlaceAt(v, a), armed[a]);
    }
    assert Fits(v, Head(c.level, 0), armed[HeadAddr(v, c.level)]);
  }

  /** The preparation pass leaves the bit to the chunk. */
  lemma PrepRun(v: seq<nat>, prev: Operands, bits: Mask, slots: seq<nat>, c: Chunk, last: nat, b: Bit, s: System,
                g: Segment, p: Place, e: nat, t0: nat)
    returns (p': Place, e': nat)
    requires Ladder(v) && Sized(v, prev) && b in bits && SlotList(v, slots) && Fitting(v, slots, c)
    requires forall k: nat :: k < |prev.ors| ==> b !in prev.ors[k]
    requires Between(v, s, last, b, p, e, t0) && MayStart(s, last, c, b)
    requires Legal(v, prev, bits, slots, c, s, g)
    ensures var r := Play(s, g.prep);
            && At(v, r.cpu, p', e', t0) && p' != Start
            && (On(r.cpu.mode, b) ==> Lingers(p') && (c.level > 0 ==> Closing(v, c.level, p', e')))
            && Shown(r.cpu, p', b) == Shown(s.cpu, p, b)
  {
    var prep := PrepPlan(v, prev, bits, slots, c);
    if c.level == 0 {
      FinePlans(v, prev, bits, slots, c, b);
    } else {
      CoarsePlans(v, prev, bits, slots, c, b);
    }
    p', e' := CalmPlay(v, s, g.prep, prep, last, b, p, e, t0);
  }

  /** A fine chunk that reads back 0 has no shot left, and nothing can set the bit any more. */
  lemma FineDone(v: seq<nat>, s: System, slots: set<nat>, b: Bit, p: Place, e: nat, t0: nat)
    requires FineArmed(v, s.mem, slots, {}, b) && At(v, s.cpu, p, e, t0) && p != Start
    requires On(s.cpu.mode, b) ==> Lingers(p)
    requires Cleared(s.mem)
    ensures Between(v, s, 0, b, p, e, t0) && Waiting(v, s.mem, slots, {}, b) == {}
  {
  }

  lemma CoarseDone(v: seq<nat>, s: System, level: nat, b: Bit, p: Place, e: nat, t0: nat)
    requires CoarseArmed(v, s.mem, level, {}, b) && At(v, s.cpu, p, e, t0) && p != Start
    requires On(s.cpu.mode, b) ==> Closing(v, level, p, e)
    requires Cleared(s.mem)
    ensures Between(v, s, level, b, p, e, t0)
  {
  }

  lemma FineChunkShows(v: seq<nat>, prev: Operands, bits: Mask, slots: seq<nat>, c: Chunk, last: nat, b: Bit,
                       s: System, g: Segment, p: Place, e: nat, t0: nat)
    returns (p': Place, e': nat)
    requires Ladder(v) && Sized(v, prev) && b in bits && SlotList(v, slots) && Fitting(v, slots, c) && c.level == 0
    requires forall k: nat :: k < |prev.ors| ==> b !in prev.ors[k]
    requires Between(v, s, last, b, p, e, t0) && MayStart(s, last, c, b)
    requires Legal(v, prev, bits, slots, c, s, g)
    ensures Between(v, After(s, g), c.level, b, p', e', t0)
    ensures Shown(After(s, g).cpu, p', b) == Shown(s.cpu, p, b) + c.count
  {
    hide Between, FineArmed, At, Run, Play;
    var armed, fired := ArmedPlan(v, prev, bits, slots, c), Fired(slots, c.count);
    FinePlans(v, prev, bits, slots, c, b);
    FiredCount(slots, c.count);
    p', e' := PrepRun(v, prev, bits, slots, c, last, b, s, g, p, e, t0);
    p', e' := FinePlay(v, Play(s, g.prep), g.arm, armed, fired, Addresses(v), b, p', e', t0);
    PlayIdle(Armed(s, g), g.wait, armed, {});
    p', e' := FinePlay(v, Armed(s, g), Idle(g.wait), armed, fired, {}, b, p', e', t0);
    FineDone(v, After(s, g), fired, b, p', e', t0);
  }

  lemma CoarseChunkShows(v: seq<nat>, prev: Operands, bits: Mask, slots: seq<nat>, c: Chunk, last: nat, b: Bit,
                         s: System, g: Segment, p: Place, e: nat, t0: nat)
    returns (p': Place, e': nat)
    requires Ladder(v) && Sized(v, prev) && b in bits && SlotList(v, slots) && Fitting(v, slots, c) && c.level > 0
    requires forall k: nat :: k < |prev.ors| ==> b !in prev.ors[k]
    requires Between(v, s, last, b, p, e, t0) && MayStart(s, last, c, b)
    requires Legal(v, prev, bits, slots, c, s, g)
    ensures Between(v, After(s, g), c.level, b, p', e', t0)
    ensures CoarseArmed(v, After(s, g).mem, c.level, {}, b)
    ensures Shown(After(s, g).cpu, p', b) == Shown(s.cpu, p, b) + c.count
    ensures On(After(s, g).cpu.mode, b) ==> After(s, g).cpu.tag == Armed(s, g).cpu.tag + 2 * c.count
  {
    hide Between, CoarseArmed, At, Run, Play;
    var armed := ArmedPlan(v, prev, bits, slots, c);
    CoarsePlans(v, prev, bits, slots, c, b);
    p', e' := PrepRun(v, prev, bits, slots, c, last, b, s, g, p, e, t0);
    var m := Play(s, g.prep);
    var base := OnCount(m.cpu.events, b);
    var phase;
    p', e', phase := PulsePlay(v, m, g.arm, armed, c.level, Addresses(v), b, p', e', t0, base, Before);
    p', e' := TagAdvanceEndsPulse(v, Armed(s, g), c.level, b, p', e', t0, base, phase, g.wait);
    CoarseDone(v, After(s, g), c.level, b, p', e', t0);
  }

  /** A chunk shows the bit in exactly as many events as its count. */
  lemma ChunkShows(v: seq<nat>, prev: Operands, bits: Mask, slots: seq<nat>, c: Chunk, last: nat, b: Bit, s: System,
                   g: Segment, p: Place, e: nat, t0: nat)
    returns (p': Place, e': nat)
    requires Ladder(v) && Sized(v, prev) && b in bits && SlotList(v, slots) && Fitting(v, slots, c)
    requires forall k: nat :: k < |prev.ors| ==> b !in prev.ors[k]
    requires Between(v, s, last, b, p, e, t0) && MayStart(s, last, c, b)
    requires Legal(v, prev, bits, slots, c, s, g)
    ensures Between(v, After(s, g), c.level, b, p', e', t0)
    ensures Shown(After(s, g).cpu, p', b) == Shown(s.cpu, p, b) + c.count
    ensures c.level > 0 && On(After(s, g).cpu.mode, b) ==> After(s, g).cpu.tag == Armed(s, g).cpu.tag + 2 * c.count
  {
    if c.level == 0 {
      p', e' := FineChunkShows(v, prev, bits, slots, c, last, b, s, g, p, e, t0);
    } else {
      p', e' := CoarseChunkShows(v, prev, bits, slots, c, last, b, s, g, p, e, t0);
    }
  }

  // ---------------------------------------------------------------- all chunks

  function PlayAll(s: System, gs: seq<Segment>): System
    decreases |gs|
  {
    if gs == [] then s else PlayAll(After(s, gs[0]), gs[1..])
  }

  ghost predicate AllLegal(v: seq<nat>, prev: Operands, bits: Mask, slots: seq<nat>, chunks: seq<Chunk>, s: System,
                           gs: seq<Segment>)
    requires Ladder(v) && Sized(v, prev) && forall c :: c in chunks ==> Fitting(v, slots, c)
    decreases |chunks|
  {
    && |gs| == |chunks|
    && (chunks != [] ==>
          && Fitting(v, slots, chunks[0])
          && Legal(v, prev, bits, slots, chunks[0], s, gs[0])
          && AllLegal(v, prev, bits, slots, chunks[1..], After(s, gs[0]), gs[1..]))
  }

  /** Every wait that a coarse chunk of another level follows is one event longer than the software asks for. */
  ghost predicate AllInTime(chunks: seq<Chunk>, s: System, gs: seq<Segment>)
    requires |gs| == |chunks|
    decreases |chunks|
  {
    |chunks| > 1 ==>
      && InTime(chunks[0], chunks[1], Armed(s, gs[0]), After(s, gs[0]))
      && AllInTime(chunks[1..], After(s, gs[0]), gs[1..])
  }

  lemma BetweenIsAt(v: seq<nat>, s: System, last: nat, b: Bit, p: Place, e: nat, t0: nat)
    requires Between(v, s, last, b, p, e, t0)
    ensures At(v, s.cpu, p, e, t0)
  {
  }

  lemma RestFits(v: seq<nat>, slots: seq<nat>, chunks: seq<Chunk>)
    requires Ladder(v) && chunks != [] && (forall c :: c in chunks ==> Fitting(v, slots, c)) && Descending(chunks)
    ensures Fitting(v, slots, chunks[0])
    ensures (forall c :: c in chunks[1..] ==> Fitting(v, slots, c)) && Descending(chunks[1..])
    ensures |chunks| > 1 ==> chunks[1] == chunks[1..][0] && chunks[1].level <= chunks[0].level
  {
    assert chunks[0] in chunks;
    forall c | c in chunks[1..] ensures Fitting(v, slots, c) { assert c in chunks; }
  }

  /** The chunks of a schedule, executed one after the other on the running plan, show the bit in exactly the
      scheduled number of events. */
  lemma {:induction false} ChunksShowTotal(v: seq<nat>, prev: Operands, bits: Mask, slots: seq<nat>,
                                           chunks: seq<Chunk>, last: nat, b: Bit, s: System, gs: seq<Segment>,
                                           p: Place, e: nat, t0: nat)
    returns (p': Place, e': nat)
    requires Ladder(v) && Sized(v, prev) && b in bits && SlotList(v, slots)
    requires (forall c :: c in chunks ==> Fitting(v, slots, c)) && Descending(chunks)
    requires forall k: nat :: k < |prev.ors| ==> b !in prev.ors[k]
    requires Between(v, s, last, b, p, e, t0) && (chunks != [] ==> MayStart(s, last, chunks[0], b))
    requires AllLegal(v, prev, bits, slots, chunks, s, gs) && AllInTime(chunks, s, gs)
    ensures At(v, PlayAll(s, gs).cpu, p', e', t0)
    ensures Shown(PlayAll(s, gs).cpu, p', b) == Shown(s.cpu, p, b) + Total(chunks)
    decreases |chunks|
  {
    hide Between, Legal, After, Armed, Fitting, Descending, SlotList, Ladder, Shown, At;
    if chunks == [] {
      p', e' := p, e;
      BetweenIsAt(v, s, last, b, p, e, t0);
    } else {
      var c := chunks[0];
      RestFits(v, slots, chunks);
      p', e' := ChunkShows(v, prev, bits, slots, c, last, b, s, gs[0], p, e, t0);
      TotalFromFront(chunks);
      p', e' := ChunksShowTotal(v, prev, bits, slots, chunks[1..], c.level, b, After(s, gs[0]), gs[1..], p', e', t0);
    }
  }
}
