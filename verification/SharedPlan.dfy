/** The shared run plan: one opcode skeleton for every set of masks. `v` is the list of standard N values,
    any list in which each element divides the next; level l is the loop that repeats level l-1 until
    v[l] events have gone out. */
module SharedPlan {
  import opened ModeBits
  import opened RunPlanMachine

  const STANDARD_N: seq<nat> := [100, 200, 1000, 2000, 10000, 100000, 1000000, 10000000, 100000000, 1000000000]

  /** v[l] is a proper multiple of v[l-1]. */
  predicate Rung(v: seq<nat>, l: nat)
    requires 1 <= l < |v|
  {
    0 < v[l - 1] < v[l] && v[l] % v[l - 1] == 0
  }

  ghost predicate Ladder(v: seq<nat>) {
    && |v| >= 1
    && v[0] >= 2
    && forall l: nat :: 1 <= l < |v| ==> Rung(v, l)
  }

  lemma StandardIsLadder()
    ensures Ladder(STANDARD_N)
  {
    forall l: nat | 1 <= l < |STANDARD_N| ensures Rung(STANDARD_N, l) {
      if l <= 3 { assert l == 1 || l == 2 || l == 3; }
      else if l <= 6 { assert l == 4 || l == 5 || l == 6; }
      else { assert l == 7 || l == 8 || l == 9; }
    }
  }

  /** The outermost loop level (N_coarse). */
  function Top(v: seq<nat>): nat
    requires |v| >= 1
  {
    |v| - 1
  }

  /** Where an instruction sits in the plan. Head(l, _) opens level l, Tail(l, _) closes it. */
  datatype Place =
    | Start
    | LabelOp
    | Head(level: nat, part: nat)   // OR_SINGLESHOT, OR, LOOP
    | Fine(slot: nat, part: nat)    // AND, OR, OR_SINGLESHOT, HEARTBEAT, MARKER, WAIT, INC_TAG
    | FineEnd                       // AND
    | Tail(level: nat, part: nat)   // DO_LOOP, AND
    | Goto
    | Outside

  /** How often level l repeats level l-1. */
  function Ratio(v: seq<nat>, l: nat): (n: nat)
    requires Ladder(v) && 1 <= l < |v|
    ensures n >= 2 && v[l] == n * v[l - 1]
  {
    assert Rung(v, l);
    v[l] / v[l - 1]
  }

  function FineBase(v: seq<nat>): nat
    requires |v| >= 1
  {
    2 + 3 * Top(v)
  }

  function EndBase(v: seq<nat>): nat
    requires |v| >= 1
  {
    FineBase(v) + 7 * v[0]
  }

  function Length(v: seq<nat>): nat
    requires |v| >= 1
  {
    EndBase(v) + 2 + 2 * Top(v)
  }

  function PlaceAt(v: seq<nat>, a: nat): (p: Place)
    requires |v| >= 1
    ensures p.Head? ==> 1 <= p.level <= Top(v) && p.part < 3 && a == FineBase(v) - 3 * p.level + p.part
    ensures p.Fine? ==> p.slot < v[0] && p.part < 7 && a == FineBase(v) + 7 * p.slot + p.part
    ensures p.FineEnd? ==> a == EndBase(v)
    ensures p.Tail? ==> 1 <= p.level <= Top(v) && p.part < 2 && a == EndBase(v) + 2 * p.level - 1 + p.part
    ensures p.Goto? ==> a == Length(v) - 1
    ensures p.Outside? <==> a >= Length(v)
    ensures p.Start? <==> a == 0
    ensures p.LabelOp? <==> a == 1
  {
    if a == 0 then Start
    else if a == 1 then LabelOp
    else if a < FineBase(v) then Head(Top(v) - (a - 2) / 3, (a - 2) % 3)
    else if a < EndBase(v) then Fine((a - FineBase(v)) / 7, (a - FineBase(v)) % 7)
    else if a == EndBase(v) then FineEnd
    else if a < Length(v) - 1 then Tail(1 + (a - EndBase(v) - 1) / 2, (a - EndBase(v) - 1) % 2)
    else if a == Length(v) - 1 then Goto
    else Outside
  }

  /** The operands of a plan in the layout the source uses for its mask vectors. */
  datatype Operands = Operands(
    ands: seq<Mask>,    // fine slots, fine end, coarse ends
    ors: seq<Mask>,     // coarse heads, outermost first, then fine slots
    shots: seq<Mask>,   // same layout as ors
    clocks: nat,
    initTag: nat)

  predicate Sized(v: seq<nat>, x: Operands)
    requires |v| >= 1
  {
    && |x.ands| == v[0] + 1 + Top(v)
    && |x.ors| == Top(v) + v[0]
    && |x.shots| == Top(v) + v[0]
  }

  function HeadInstr(v: seq<nat>, x: Operands, l: nat, part: nat): Instr
    requires Ladder(v) && Sized(v, x) && 1 <= l <= Top(v)
  {
    if part == 0 then OrSingleShot(x.shots[Top(v) - l])
    else if part == 1 then OrMode(x.ors[Top(v) - l])
    else Loop(Ratio(v, l))
  }

  function FineInstr(v: seq<nat>, x: Operands, i: nat, part: nat): Instr
    requires Ladder(v) && Sized(v, x) && i < v[0]
  {
    if part == 0 then AndMode(x.ands[i])
    else if part == 1 then OrMode(x.ors[Top(v) + i])
    else if part == 2 then OrSingleShot(x.shots[Top(v) + i])
    else if part == 3 then Heartbeat
    else if part == 4 then Marker
    else if part == 5 then Wait(x.clocks)
    else IncTag
  }

  function TailInstr(v: seq<nat>, x: Operands, l: nat, part: nat): Instr
    requires Ladder(v) && Sized(v, x) && 1 <= l <= Top(v)
  {
    if part == 0 then DoLoop else AndMode(x.ands[v[0] + l])
  }

  function InstrOf(v: seq<nat>, x: Operands, p: Place): Instr
    requires Ladder(v) && Sized(v, x)
    requires p.Head? ==> 1 <= p.level <= Top(v) && p.part < 3
    requires p.Fine? ==> p.slot < v[0] && p.part < 7
    requires p.Tail? ==> 1 <= p.level <= Top(v) && p.part < 2
  {
    match p
    case Start => SetTag(x.initTag)
    case LabelOp => LabelHere
    case Head(l, q) => HeadInstr(v, x, l, q)
    case Fine(i, q) => FineInstr(v, x, i, q)
    case FineEnd => AndMode(x.ands[v[0]])
    case Tail(l, q) => TailInstr(v, x, l, q)
    case Goto => GotoLabel
    case Outside => End
  }

  /** The plan with these operands. */
  function Plan(v: seq<nat>, x: Operands): (plan: seq<Instr>)
    requires Ladder(v) && Sized(v, x)
    ensures |plan| == Length(v)
    ensures forall a: nat :: a < Length(v) ==> plan[a] == InstrOf(v, x, PlaceAt(v, a))
  {
    seq(Length(v), a requires 0 <= a < Length(v) => InstrOf(v, x, PlaceAt(v, a)))
  }

  /** Same instruction up to its operand: what never changes while subsystems join and leave. */
  predicate SameOpcode(x: Instr, y: Instr) {
    match x
    case SetTag(_) => y.SetTag?
    case AndMode(_) => y.AndMode?
    case OrMode(_) => y.OrMode?
    case OrSingleShot(_) => y.OrSingleShot?
    case Wait(_) => y.Wait?
    case _ => x == y
  }

  ghost predicate SameSkeleton(xs: seq<Instr>, ys: seq<Instr>) {
    && |xs| == |ys|
    && forall a :: 0 <= a < |xs| ==> SameOpcode(xs[a], ys[a])
  }

  /** The plan of every set of masks has the same opcodes and the same loop counts. */
  lemma PlansShareSkeleton(v: seq<nat>, x: Operands, y: Operands)
    requires Ladder(v) && Sized(v, x) && Sized(v, y)
    ensures SameSkeleton(Plan(v, x), Plan(v, y))
  {
  }
}
