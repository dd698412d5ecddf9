/** The two generators of the shared run plan, and the masks they write. */
module PlanGenerator {
  import opened ModeBits
  import opened RunPlanMachine
  import opened SharedPlan
  import opened DutyRatio

  /** What a subsystem asks for: its bits, M:N and the slot its pattern starts at. */
  datatype Request = Request(bits: Mask, duty: Duty, offset: nat)

  /** The position of fine slot i inside the M:N pattern. */
  function Phase(n: nat, offset: nat, i: nat): nat
    requires n > 0
  {
    (i + n - offset % n) % n
  }

  predicate ShouldClear(v: seq<nat>, q: Request, i: nat)
    requires |v| >= 1
  {
    var n := q.duty.n;
    || (n > v[0] && i > 0)
    || (n == v[0] && n > 0 && Phase(v[0], q.offset, i) >= q.duty.m)
    || (n < v[0] && (if n == 0 then 0 else Phase(n, q.offset, i)) >= q.duty.m)
  }

  predicate ShouldSet(v: seq<nat>, q: Request, i: nat)
    requires |v| >= 1
  {
    var n := q.duty.n;
    || (n == v[0] && n > 0 && Phase(v[0], q.offset, i) < q.duty.m)
    || (n < v[0] && (if n == 0 then 0 else Phase(n, q.offset, i)) < q.duty.m)
  }

  /** The operands after a join; `applyOrs` is false for the preparation pass. */
  function JoinedAnd(v: seq<nat>, prev: Operands, q: Request, k: nat): Mask
    requires |v| >= 1 && k < |prev.ands|
  {
    if k < v[0] then prev.ands[k] * (if ShouldClear(v, q, k) then KEEP_ALL - q.bits else KEEP_ALL)
    else prev.ands[k]
  }

  function JoinedOr(v: seq<nat>, prev: Operands, q: Request, applyOrs: bool, k: nat): Mask
    requires |v| >= 1 && k < |prev.ors|
  {
    if k < Top(v) then
      prev.ors[k] + (if applyOrs && v[Top(v) - k] == q.duty.n then q.bits else {})
    else
      prev.ors[k] + (if applyOrs && ShouldSet(v, q, k - Top(v)) then q.bits else {})
  }

  function Joined(v: seq<nat>, prev: Operands, q: Request, applyOrs: bool): (x: Operands)
    requires |v| >= 1 && Sized(v, prev)
    ensures Sized(v, x)
  {
    prev.(ands := seq(|prev.ands|, k requires 0 <= k < |prev.ands| => JoinedAnd(v, prev, q, k)),
         ors := seq(|prev.ors|, k requires 0 <= k < |prev.ors| => JoinedOr(v, prev, q, applyOrs, k)))
  }

  function Zeros(n: nat): seq<Mask> {
    seq(n, _ => {})
  }

  /** The operands after a subsystem left: the given bits go out of every OR, into every fine clear,
      and are kept again at the end ANDs. */
  function Left(v: seq<nat>, prev: Operands, bits: Mask): (x: Operands)
    requires |v| >= 1 && Sized(v, prev)
    ensures Sized(v, x)
  {
    Operands(
      seq(|prev.ands|, k requires 0 <= k < |prev.ands| =>
        if k < v[0] then prev.ands[k] * (KEEP_ALL - bits) else prev.ands[k] + bits),
      seq(|prev.ors|, k requires 0 <= k < |prev.ors| => prev.ors[k] - bits),
      Zeros(Top(v) + v[0]),
      prev.clocks,
      0)
  }

  /** The operands handed to a generator; absent single shots are all zero. */
  function Given(v: seq<nat>, ands: seq<Mask>, ors: seq<Mask>, singleShots: seq<Mask>, clocks: nat, initTag: nat)
    : (x: Operands)
    requires |v| >= 1
  {
    Operands(ands, ors, if |singleShots| > 0 then singleShots else Zeros(Top(v) + v[0]), clocks, initTag)
  }

  /** What a join works on: the AND and OR masks found in the hardware. Single shots still waiting are not read back;
      the join writes zeros over them. */
  function Found(v: seq<nat>, prev: Operands): (x: Operands)
    requires |v| >= 1 && Sized(v, prev)
    ensures Sized(v, x) && x.ands == prev.ands && x.ors == prev.ors && x.initTag == 0
    ensures forall k: nat :: k < |x.shots| ==> x.shots[k] == {}
  {
    Given(v, prev.ands, prev.ors, [], prev.clocks, 0)
  }

  /** The operands one pass of a join writes. */
  function JoinPass(v: seq<nat>, prev: Operands, q: Request, applyOrs: bool): (x: Operands)
    requires |v| >= 1 && Sized(v, prev)
    ensures Sized(v, x)
  {
    Joined(v, Found(v, prev), q, applyOrs)
  }

  /** The dummy plan: clear the bits at every fine slot, set nothing, keep everything else. */
  function Dummy(v: seq<nat>, bits: Mask, clocks: nat): (x: Operands)
    requires |v| >= 1
    ensures Sized(v, x)
  {
    Operands(
      seq(v[0] + 1 + Top(v), k => if k < v[0] then KEEP_ALL - bits else KEEP_ALL),
      Zeros(Top(v) + v[0]), Zeros(Top(v) + v[0]), clocks, 0)
  }

  lemma Push(v: seq<nat>, x: Operands, out: seq<Instr>, p: Place, i: Instr)
    requires Ladder(v) && Sized(v, x)
    requires out <= Plan(v, x) && |out| < Length(v)
    requires PlaceAt(v, |out|) == p && InstrOf(v, x, p) == i
    ensures out + [i] <= Plan(v, x)
  {
    assert Plan(v, x)[..|out| + 1] == out + [i];
  }

  lemma FinePlaces(v: seq<nat>, i: nat)
    requires Ladder(v) && i < v[0]
    ensures forall q: nat :: q < 7 ==> PlaceAt(v, FineBase(v) + 7 * i + q) == Fine(i, q)
  {
    forall q: nat | q < 7 ensures PlaceAt(v, FineBase(v) + 7 * i + q) == Fine(i, q) {
      FinePlace(v, i, q);
    }
  }

  lemma FinePlace(v: seq<nat>, i: nat, q: nat)
    requires Ladder(v) && i < v[0] && q < 7
    ensures PlaceAt(v, FineBase(v) + 7 * i + q) == Fine(i, q)
  {
    assert 7 * i + q < 7 * v[0];
    assert (7 * i + q) / 7 == i && (7 * i + q) % 7 == q;
  }

  /** The openings of the coarse loops, outermost first. */
  method AppendHeads(v: seq<nat>, x: Operands, start: seq<Instr>) returns (out: seq<Instr>)
    requires Ladder(v) && Sized(v, x)
    requires start <= Plan(v, x) && |start| == 2
    ensures out <= Plan(v, x) && |out| == FineBase(v)
  {
    hide Plan;
    out := start;
    var l := Top(v);
    while l > 0
      invariant 0 <= l <= Top(v)
      invariant out <= Plan(v, x) && |out| == FineBase(v) - 3 * l
      decreases l
    {
      var coarse := Top(v) - l;
      Push(v, x, out, Head(l, 0), OrSingleShot(x.shots[coarse]));
      out := out + [OrSingleShot(x.shots[coarse])];
      Push(v, x, out, Head(l, 1), OrMode(x.ors[coarse]));
      out := out + [OrMode(x.ors[coarse])];
      Push(v, x, out, Head(l, 2), Loop(Ratio(v, l)));
      out := out + [Loop(Ratio(v, l))];
      l := l - 1;
    }
  }

  /** The fine slots. */
  method AppendFine(v: seq<nat>, x: Operands, start: seq<Instr>) returns (out: seq<Instr>)
    requires Ladder(v) && Sized(v, x)
    requires start <= Plan(v, x) && |start| == FineBase(v)
    ensures out <= Plan(v, x) && |out| == EndBase(v)
  {
    hide Plan;
    out := start;
    var i := 0;
    while i < v[0]
      invariant i <= v[0]
      invariant out <= Plan(v, x) && |out| == FineBase(v) + 7 * i
    {
      out := AppendModeOps(v, x, i, out);
      out := AppendEventOps(v, x, i, out);
      i := i + 1;
    }
  }

  method AppendModeOps(v: seq<nat>, x: Operands, i: nat, start: seq<Instr>) returns (out: seq<Instr>)
    requires Ladder(v) && Sized(v, x) && i < v[0]
    requires start <= Plan(v, x) && |start| == FineBase(v) + 7 * i
    ensures out <= Plan(v, x) && |out| == |start| + 3
  {
    hide Plan, PlaceAt;
    FinePlaces(v, i);
    var fine := Top(v) + i;
    Push(v, x, start, Fine(i, 0), AndMode(x.ands[i]));
    out := start + [AndMode(x.ands[i])];
    Push(v, x, out, Fine(i, 1), OrMode(x.ors[fine]));
    out := out + [OrMode(x.ors[fine])];
    Push(v, x, out, Fine(i, 2), OrSingleShot(x.shots[fine]));
    out := out + [OrSingleShot(x.shots[fine])];
  }

  method AppendEventOps(v: seq<nat>, x: Operands, i: nat, start: seq<Instr>) returns (out: seq<Instr>)
    requires Ladder(v) && Sized(v, x) && i < v[0]
    requires start <= Plan(v, x) && |start| == FineBase(v) + 7 * i + 3
    ensures out <= Plan(v, x) && |out| == |start| + 4
  {
    hide Plan, PlaceAt;
    FinePlaces(v, i);
    Push(v, x, start, Fine(i, 3), Heartbeat);
    out := start + [Heartbeat];
    Push(v, x, out, Fine(i, 4), Marker);
    out := out + [Marker];
    Push(v, x, out, Fine(i, 5), Wait(x.clocks));
    out := out + [Wait(x.clocks)];
    Push(v, x, out, Fine(i, 6), IncTag);
    out := out + [IncTag];
  }

  /** The fine end, the closings of the coarse loops and the jump back. */
  method AppendTails(v: seq<nat>, x: Operands, start: seq<Instr>) returns (out: seq<Instr>)
    requires Ladder(v) && Sized(v, x)
    requires start <= Plan(v, x) && |start| == EndBase(v)
    ensures out == Plan(v, x)
  {
    hide Plan;
    Push(v, x, start, FineEnd, AndMode(x.ands[v[0]]));
    out := start + [AndMode(x.ands[v[0]])];
    var l := 1;
    while l < |v|
      invariant 1 <= l <= |v|
      invariant out <= Plan(v, x) && |out| == EndBase(v) + 2 * l - 1
    {
      Push(v, x, out, Tail(l, 0), DoLoop);
      out := out + [DoLoop];
      Push(v, x, out, Tail(l, 1), AndMode(x.ands[v[0] + l]));
      out := out + [AndMode(x.ands[v[0] + l])];
      l := l + 1;
    }
    Push(v, x, out, Goto, GotoLabel);
    out := out + [GotoLabel];
  }

  /** The whole plan, instruction by instruction. */
  method Emit(v: seq<nat>, x: Operands) returns (out: seq<Instr>)
    requires Ladder(v) && Sized(v, x)
    ensures out == Plan(v, x)
  {
    Push(v, x, [], Start, SetTag(x.initTag));
    out := [SetTag(x.initTag)];
    Push(v, x, out, LabelOp, LabelHere);
    out := out + [LabelHere];
    out := AppendHeads(v, x, out);
    out := AppendFine(v, x, out);
    out := AppendTails(v, x, out);
  }

  method GeneratePeriodicOn(v: seq<nat>, initTag: nat, startBit: nat, bitCount: nat, value: Mask,
                            wanted: Duty, offset: nat, clocks: nat,
                            ands: seq<Mask>, ors: seq<Mask>, singleShots: seq<Mask>, applyOrs: bool)
    returns (r: Result<seq<Instr>>)
    requires Ladder(v) && startBit < 64 && bitCount < 64
    ensures r.Ok? <==>
              && ((value == {} && wanted == Duty(1, 1)) || Acceptable(v, wanted))
              && |ands| == v[0] + 1 + Top(v) && |ors| == Top(v) + v[0]
              && (singleShots == [] || |singleShots| == Top(v) + v[0])
    ensures r.Ok? ==> exists duty: Duty ::
              && (if value == {} && wanted == Duty(1, 1) then duty == wanted else Usable(v, duty))
              && (duty == wanted || (wanted.n >= v[0] && Resolves(v, wanted.n, wanted.m, duty)))
              && r.value == Plan(v, Joined(v, Given(v, ands, ors, singleShots, clocks, initTag),
                                     Request(SetBits(startBit, bitCount, value), duty, offset), applyOrs))
  {
    var duty := wanted;
    if !(value == {} && wanted == Duty(1, 1)) {
      var fixed := MnFixRatio(v, wanted);
      if fixed.Err? { return Err(fixed.error); }
      duty := fixed.value;
    }
    if |ands| != v[0] + 1 + Top(v) || |ors| != Top(v) + v[0] { return Err(MaskSizes); }
    if |singleShots| != 0 && |singleShots| != Top(v) + v[0] { return Err(SingleShotSizes); }

    var bits := SetBits(startBit, bitCount, value);
    var q := Request(bits, duty, offset);
    var given := Given(v, ands, ors, singleShots, clocks, initTag);
    var plan := Emit(v, Joined(v, given, q, applyOrs));
    return Ok(plan);
  }

  /** `masksGiven` is false only for the dummy plan that is compared with the hardware. */
  method GeneratePeriodicOff(v: seq<nat>, startBit: nat, bitCount: nat, clocks: nat, ands: seq<Mask>, ors: seq<Mask>)
    returns (r: Result<seq<Instr>>)
    requires Ladder(v) && startBit < 64 && bitCount < 64
    ensures var masksGiven, bits := ands != [] || ors != [], ClearBits(startBit, bitCount);
            && (r.Ok? <==> !masksGiven || (|ands| == v[0] + 1 + Top(v) && |ors| == Top(v) + v[0]))
            && (r.Ok? ==> r.value == Plan(v, if masksGiven
                                             then Left(v, Given(v, ands, ors, [], clocks, 0), bits)
                                             else Dummy(v, bits, clocks)))
  {
    var masksGiven := ands != [] || ors != [];
    var bits := ClearBits(startBit, bitCount);
    if masksGiven && (|ands| != v[0] + 1 + Top(v) || |ors| != Top(v) + v[0]) { return Err(MaskSizes); }
    var x := if masksGiven then Left(v, Given(v, ands, ors, [], clocks, 0), bits) else Dummy(v, bits, clocks);
    var plan := Emit(v, x);
    return Ok(plan);
  }
}
