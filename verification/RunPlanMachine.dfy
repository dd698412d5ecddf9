/** The run plan processor: a flat instruction memory, a 48-bit mode register, an event window tag and a
    stack of loop counters. The software may overwrite single instructions while the plan is running. */
module RunPlanMachine {
  import opened ModeBits

  datatype Instr =
    | SetTag(tag: nat)
    | LabelHere
    | GotoLabel
    | Loop(count: nat)
    | DoLoop
    | AndMode(mask: Mask)
    | OrMode(mask: Mask)
    | OrSingleShot(mask: Mask)
    | Heartbeat                     // event_mode = registered
    | HeartbeatMode(mode: Mask)     // event_mode given in the instruction
    | Marker
    | Wait(clocks: nat)
    | IncTag
    | End

  /** An open loop: where its body starts and how many passes are left, the current one included. */
  datatype Frame = Frame(start: nat, left: nat)

  /** What a HEARTBEAT sends. */
  datatype Event = Event(tag: nat, mode: Mask)

  datatype Cpu = Cpu(
    pc: nat,
    mode: Mask,
    tag: nat,
    labelPc: nat,
    frames: seq<Frame>,
    events: seq<Event>,
    markers: seq<nat>)   // the tags at which a MARKER was sent

  datatype System = System(mem: seq<Instr>, cpu: Cpu)

  function Next(c: Cpu): Cpu {
    c.(pc := c.pc + 1)
  }

  /** One instruction. LOOP n runs its body n times; OR_SINGLESHOT fires once and then reads back as 0. */
  function Step(s: System): (r: System)
    ensures |r.mem| == |s.mem|
  {
    var c := s.cpu;
    if c.pc >= |s.mem| then s
    else
      match s.mem[c.pc]
      case SetTag(t) => s.(cpu := Next(c).(tag := t))
      case LabelHere => s.(cpu := Next(c).(labelPc := c.pc + 1))
      case GotoLabel => s.(cpu := c.(pc := c.labelPc))
      case Loop(n) => s.(cpu := Next(c).(frames := c.frames + [Frame(c.pc + 1, n)]))
      case DoLoop => s.(cpu := StepDoLoop(c))
      case AndMode(m) => s.(cpu := Next(c).(mode := c.mode * m))
      case OrMode(m) => s.(cpu := Next(c).(mode := c.mode + m))
      case OrSingleShot(m) =>
        System(s.mem[c.pc := OrSingleShot({})], Next(c).(mode := c.mode + m))
      case Heartbeat => s.(cpu := Next(c).(events := c.events + [Event(c.tag, c.mode)]))
      case HeartbeatMode(m) => s.(cpu := Next(c).(events := c.events + [Event(c.tag, m)]))
      case Marker => s.(cpu := Next(c).(markers := c.markers + [c.tag]))
      case Wait(_) => s.(cpu := Next(c))
      case IncTag => s.(cpu := Next(c).(tag := c.tag + 1))
      case End => s
  }

  function StepDoLoop(c: Cpu): Cpu {
    var n := |c.frames|;
    if n == 0 then Next(c)
    else
      var top := c.frames[n - 1];
      if top.left > 1 then
        c.(pc := top.start, frames := c.frames[n - 1 := top.(left := top.left - 1)])
      else
        Next(c).(frames := c.frames[..n - 1])
  }

  function Run(s: System, steps: nat): System
    decreases steps
  {
    if steps == 0 then s else Run(Step(s), steps - 1)
  }

  lemma {:induction false} RunAdds(s: System, j: nat, k: nat)
    ensures Run(Run(s, j), k) == Run(s, j + k)
    decreases j
  {
    if j > 0 {
      RunAdds(Step(s), j - 1, k);
    }
  }

  /** What can happen next: the processor executes, or the software overwrites one instruction. */
  datatype Move = Exec | Write(addr: nat, instr: Instr)

  function Apply(s: System, mv: Move): (r: System)
    ensures |r.mem| == |s.mem|
  {
    match mv
    case Exec => Step(s)
    case Write(a, i) => if a < |s.mem| then s.(mem := s.mem[a := i]) else s
  }

  function Play(s: System, mvs: seq<Move>): System
    decreases |mvs|
  {
    if mvs == [] then s else Play(Apply(s, mvs[0]), mvs[1..])
  }

  lemma {:induction false} PlayAdds(s: System, xs: seq<Move>, ys: seq<Move>)
    ensures Play(s, xs + ys) == Play(Play(s, xs), ys)
    decreases |xs|
  {
    if xs == [] {
      assert xs + ys == ys;
    } else {
      assert (xs + ys)[0] == xs[0] && (xs + ys)[1..] == xs[1..] + ys;
      PlayAdds(Apply(s, xs[0]), xs[1..], ys);
    }
  }

  /** Does bit b of the mode go out with event e? */
  predicate EventOn(c: Cpu, e: nat, b: Bit)
    requires e < |c.events|
  {
    On(c.events[e].mode, b)
  }

  function OnCount(events: seq<Event>, b: Bit): (n: nat)
    ensures n <= |events|
  {
    if events == [] then 0
    else OnCount(events[..|events| - 1], b) + (if On(events[|events| - 1].mode, b) then 1 else 0)
  }

  lemma OnCountSnoc(events: seq<Event>, ev: Event, b: Bit)
    ensures OnCount(events + [ev], b) == OnCount(events, b) + if On(ev.mode, b) then 1 else 0
  {
    assert (events + [ev])[..|events|] == events;
  }

  /** Events already sent are never changed. */
  lemma StepKeepsEvents(s: System)
    ensures s.cpu.events <= Step(s).cpu.events
  {
  }

  lemma {:induction false} PlayKeepsEvents(s: System, mvs: seq<Move>)
    ensures s.cpu.events <= Play(s, mvs).cpu.events
    decreases |mvs|
  {
    if mvs != [] {
      assert s.cpu.events <= Apply(s, mvs[0]).cpu.events by { StepKeepsEvents(s); }
      PlayKeepsEvents(Apply(s, mvs[0]), mvs[1..]);
    }
  }
}
