/** Fixed-width run plans: N event windows with consecutive tags, and the tag the next launch starts from. */
module FixedWidthPlan {
  import opened Basics
  import opened ModeBits
  import opened RunPlanMachine

  /** The plan for a given number of event window markers; 0 and 1 loop forever. */
  function Program(start: nat, count: nat, mode: Mask, clocks: nat): seq<Instr> {
    if count > 1 then
      [SetTag(start), Loop(count - 1), HeartbeatMode(mode), Marker, Wait(clocks), IncTag, DoLoop,
       HeartbeatMode({}), Marker, End]
    else
      [SetTag(start), LabelHere, HeartbeatMode(if count != 1 then mode else {}), Marker, Wait(clocks), IncTag,
        GotoLabel]
  }

  /** Consecutive events with one mode. */
  function Events(start: nat, count: nat, mode: Mask): seq<Event> {
    seq(count, i requires 0 <= i => Event(start + i, mode))
  }

  function Tags(start: nat, count: nat): seq<nat> {
    seq(count, i requires 0 <= i => start + i)
  }

  function Booted(start: nat, count: nat, mode: Mask, clocks: nat, register: Mask): System {
    System(Program(start, count, mode, clocks), Cpu(0, register, 0, 0, [], [], []))
  }

  /** The processor at the top of the loop body, with some passes behind and some left. */
  function InLoop(start: nat, count: nat, mode: Mask, clocks: nat, register: Mask, done: nat): System
    requires count > 1 && done < count - 1
  {
    System(Program(start, count, mode, clocks),
           Cpu(2, register, start + done, 0, [Frame(2, count - 1 - done)], Events(start, done, mode),
             Tags(start, done)))
  }

  function Finished(start: nat, count: nat, mode: Mask, clocks: nat, register: Mask): System
    requires count > 1
  {
    System(Program(start, count, mode, clocks),
           Cpu(9, register, start + count - 1, 0, [], Events(start, count - 1, mode) + [Event(start + count - 1, {})],
               Tags(start, count)))
  }

  lemma FiveSteps(s: System)
    ensures Run(s, 5) == Step(Step(Step(Step(Step(s)))))
    ensures Run(s, 2) == Step(Step(s))
  {
    assert Run(s, 5) == Run(Step(s), 4) == Run(Step(Step(s)), 3);
    assert Run(Step(Step(s)), 3) == Run(Step(Step(Step(s))), 2) == Run(Step(Step(Step(Step(s)))), 1);
  }

  /** One pass of the loop body sends one event and one marker. */
  lemma OnePass(start: nat, count: nat, mode: Mask, clocks: nat, register: Mask, done: nat)
    requires count > 1 && done < count - 1
    ensures var r := Run(InLoop(start, count, mode, clocks, register, done), 5);
            if done + 1 < count - 1 then r == InLoop(start, count, mode, clocks, register, done + 1)
            else r == System(Program(start, count, mode, clocks),
                             Cpu(7, register, start + count - 1, 0, [], Events(start, count - 1, mode),
                                 Tags(start, count - 1)))
  {
    var s := InLoop(start, count, mode, clocks, register, done);
    FiveSteps(s);
    assert Events(start, done, mode) + [Event(start + done, mode)] == Events(start, done + 1, mode);
    assert Tags(start, done) + [start + done] == Tags(start, done + 1);
    var c2 := Step(Step(s)).cpu;
    assert c2 == Cpu(4, register, start + done, 0, [Frame(2, count - 1 - done)],
                     Events(start, done + 1, mode), Tags(start, done + 1));
    var c4 := Step(Step(Step(Step(s)))).cpu;
    assert c4 == Cpu(6, register, start + done + 1, 0, [Frame(2, count - 1 - done)],
                     Events(start, done + 1, mode), Tags(start, done + 1));
  }

  lemma {:induction false} RemainingPasses(start: nat, count: nat, mode: Mask, clocks: nat, register: Mask, done: nat)
    requires count > 1 && done < count - 1
    ensures Run(InLoop(start, count, mode, clocks, register, done), 5 * (count - 1 - done) + 2)
         == Finished(start, count, mode, clocks, register)
    decreases count - done
  {
    hide Run, InLoop, Finished, Events, Tags, Program;
    var s := InLoop(start, count, mode, clocks, register, done);
    OnePass(start, count, mode, clocks, register, done);
    RunAdds(s, 5, 5 * (count - 2 - done) + 2);
    if done + 1 < count - 1 {
      RemainingPasses(start, count, mode, clocks, register, done + 1);
    } else {
      NullWindow(start, count, mode, clocks, register);
    }
  }

  /** Behind the loop: the null heartbeat and the last marker. */
  lemma NullWindow(start: nat, count: nat, mode: Mask, clocks: nat, register: Mask)
    requires count > 1
    ensures Run(System(Program(start, count, mode, clocks),
                       Cpu(7, register, start + count - 1, 0, [], Events(start, count - 1, mode),
                           Tags(start, count - 1))), 2)
         == Finished(start, count, mode, clocks, register)
  {
    var r := System(Program(start, count, mode, clocks),
                    Cpu(7, register, start + count - 1, 0, [], Events(start, count - 1, mode), Tags(start, count - 1)));
    FiveSteps(r);
    assert Tags(start, count - 1) + [start + count - 1] == Tags(start, count);
  }

  lemma {:induction false} FinishedStays(start: nat, count: nat, mode: Mask, clocks: nat, register: Mask, steps: nat)
    requires count > 1
    ensures Run(Finished(start, count, mode, clocks, register), steps) == Finished(start, count, mode, clocks, register)
    decreases steps
  {
    if steps > 0 {
      FinishedStays(start, count, mode, clocks, register, steps - 1);
    }
  }

  /** A plan of N >= 2 windows ends, having sent exactly N events and markers with the tags start..start+N-1:
      the first N-1 with the requested mode, the last one null. */
  lemma SendsExactlyN(start: nat, count: nat, mode: Mask, clocks: nat, register: Mask, steps: nat)
    requires count > 1 && steps >= 5 * (count - 1) + 4
    ensures var c := Run(Booted(start, count, mode, clocks, register), steps).cpu;
            && |c.events| == |c.markers| == count
            && (forall i: nat :: i < count ==> c.markers[i] == start + i)
            && (forall i: nat :: i < count ==> c.events[i] == Event(start + i, if i < count - 1 then mode else {}))
  {
    var s := Booted(start, count, mode, clocks, register);
    FiveSteps(s);
    assert Run(s, 2) == InLoop(start, count, mode, clocks, register, 0);
    RemainingPasses(start, count, mode, clocks, register, 0);
    RunAdds(s, 2, 5 * (count - 1) + 2);
    RunAdds(s, 5 * (count - 1) + 4, steps - (5 * (count - 1) + 4));
    FinishedStays(start, count, mode, clocks, register, steps - (5 * (count - 1) + 4));
  }

  /** 0 and 1 windows: the processor at the label, with some passes behind. */
  function AtLabel(start: nat, count: nat, mode: Mask, clocks: nat, register: Mask, done: nat): System
    requires count <= 1
  {
    System(Program(start, count, mode, clocks),
           Cpu(2, register, start + done, 2, [], Events(start, done, if count == 1 then {} else mode), Tags(start, done)))
  }

  lemma Boots(start: nat, count: nat, mode: Mask, clocks: nat, register: Mask)
    requires count <= 1
    ensures Run(Booted(start, count, mode, clocks, register), 2) == AtLabel(start, count, mode, clocks, register, 0)
  {
    FiveSteps(Booted(start, count, mode, clocks, register));
  }

  /** Behind the null or requested heartbeat and its marker. */
  function Marked(start: nat, count: nat, mode: Mask, clocks: nat, register: Mask, done: nat): System
    requires count <= 1
  {
    System(Program(start, count, mode, clocks),
           Cpu(4, register, start + done, 2, [], Events(start, done + 1, if count == 1 then {} else mode),
               Tags(start, done + 1)))
  }

  lemma SendsOne(start: nat, count: nat, mode: Mask, clocks: nat, register: Mask, done: nat)
    requires count <= 1
    ensures Step(Step(AtLabel(start, count, mode, clocks, register, done))) ==
            Marked(start, count, mode, clocks, register, done)
  {
    var m := if count == 1 then {} else mode;
    assert Events(start, done, m) + [Event(start + done, m)] == Events(start, done + 1, m);
    assert Tags(start, done) + [start + done] == Tags(start, done + 1);
  }

  lemma GoesBack(start: nat, count: nat, mode: Mask, clocks: nat, register: Mask, done: nat)
    requires count <= 1
    ensures Step(Step(Step(Marked(start, count, mode, clocks, register, done)))) ==
            AtLabel(start, count, mode, clocks, register, done + 1)
  {
    hide Events, Tags;
  }

  lemma OneMorePass(start: nat, count: nat, mode: Mask, clocks: nat, register: Mask, done: nat)
    requires count <= 1
    ensures Run(AtLabel(start, count, mode, clocks, register, done), 5)
         == AtLabel(start, count, mode, clocks, register, done + 1)
  {
    FiveSteps(AtLabel(start, count, mode, clocks, register, done));
    hide Run, Step, AtLabel, Marked;
    SendsOne(start, count, mode, clocks, register, done);
    GoesBack(start, count, mode, clocks, register, done);
  }

  lemma {:induction false} ManyPasses(start: nat, count: nat, mode: Mask, clocks: nat, register: Mask, passes: nat)
    requires count <= 1
    ensures Run(Booted(start, count, mode, clocks, register), 2 + 5 * passes)
         == AtLabel(start, count, mode, clocks, register, passes)
    decreases passes
  {
    hide Run, AtLabel, Booted;
    var s := Booted(start, count, mode, clocks, register);
    if passes == 0 {
      Boots(start, count, mode, clocks, register);
    } else {
      ManyPasses(start, count, mode, clocks, register, passes - 1);
      OneMorePass(start, count, mode, clocks, register, passes - 1);
      RunAdds(s, 2 + 5 * (passes - 1), 5);
    }
  }

  /** A plan of 0 or 1 windows goes on without end, one event and one marker per tag: with the requested mode for 0,
      null heartbeats for 1. */
  lemma GoesOnForever(start: nat, count: nat, mode: Mask, clocks: nat, register: Mask, passes: nat)
    requires count <= 1
    ensures var c := Run(Booted(start, count, mode, clocks, register), 2 + 5 * passes).cpu;
            && |c.events| == |c.markers| == passes
            && (forall i: nat :: i < passes ==> c.markers[i] == start + i)
            && (forall i: nat :: i < passes ==> c.events[i] == Event(start + i, if count == 0 then mode else {}))
  {
    ManyPasses(start, count, mode, clocks, register, passes);
  }

  /** Between a marker and the next tag the plan waits for the duration, and nowhere else. */
  lemma WaitsTheDuration(start: nat, count: nat, mode: Mask, clocks: nat, i: nat)
    requires i < |Program(start, count, mode, clocks)|
    ensures var p := Program(start, count, mode, clocks);
            && (p[i].IncTag? ==> i > 1 && p[i - 1] == Wait(clocks) && p[i - 2] == Marker)
            && (p[i].Wait? ==> i + 1 < |p| && p[i + 1].IncTag?)
  {
  }

  // ---------------------------------------------------------------- launches

  predicate IsUnit(c: char) {
    c == 's' || c == 'm' || c == 'u' || c == 'n' || c == 'c'
  }

  predicate HasUnit(duration: string) {
    exists i :: 0 <= i < |duration| && IsUnit(duration[i])
  }

  /** The number and the unit of a duration such as 1.7us; None: no unit. */
  method ParseDuration(duration: string) returns (r: Option<(string, string)>)
    ensures r.Some? <==> exists i :: 0 <= i < |duration| && duration[i] in {'s', 'm', 'u', 'n', 'c'}
    ensures r.Some? ==> r.value.0 + r.value.1 == duration && r.value.1 != [] && r.value.1[0] in {'s', 'm', 'u', 'n', 'c'}
    ensures r.Some? ==> forall i :: 0 <= i < |r.value.0| ==> r.value.0[i] !in {'s', 'm', 'u', 'n', 'c'}
    ensures r.Some? <==> HasUnit(duration)
  {
    var i := 0;
    while i < |duration|
      invariant 0 <= i <= |duration| && forall k :: 0 <= k < i ==> !IsUnit(duration[k])
    {
      if IsUnit(duration[i]) { return Some((duration[..i], duration[i..])); }
      i := i + 1;
    }
    return None;
  }

  /** A launch request; without a start tag it continues where the last one ended. A mode of all ones (`keepMode`) is
      refused, and so is a duration without unit. `compiled`: the clocks that the compiler makes of the duration, None
      when the plan cannot be written or compiled. */
  datatype Request = Request(start: Option<nat>, count: nat, mode: Mask, keepMode: bool, duration: string,
                             compiled: Option<nat>, enable: bool)

  datatype Outcome = Refused | Halted | Launched(start: nat, program: seq<Instr>)

  function StartOf(next: nat, r: Request): nat {
    if r.start.None? then next else r.start.value
  }

  /** The request is enabled and passes every check made after the next tag has moved. */
  predicate Passes(r: Request) {
    r.enable && !r.keepMode && HasUnit(r.duration) && r.compiled.Some?
  }

  function OutcomeOf(next: nat, r: Request): Outcome {
    if r.keepMode then Refused
    else if !r.enable then Halted
    else if !Passes(r) then Refused
    else Launched(StartOf(next, r), Program(StartOf(next, r), r.count, r.mode, r.compiled.value))
  }

  class Launcher {
    var nextTag: nat   // next_starting_event_window_tag_

    constructor ()
      ensures nextTag == 0
    {
      nextTag := 0;
    }

    /** The next tag is advanced before the request is looked at any further. */
    method Launch(r: Request) returns (o: Outcome)
      modifies this
      ensures nextTag == (if r.start.None? then old(nextTag) else r.start.value) + r.count
      ensures o.Halted? <==> !r.keepMode && !r.enable
      ensures o.Launched? <==>
        && !r.keepMode && r.enable && r.compiled.Some?
        && exists i :: 0 <= i < |r.duration| && r.duration[i] in {'s', 'm', 'u', 'n', 'c'}
      ensures o.Launched? ==>
        && o.start == (if r.start.None? then old(nextTag) else r.start.value)
        && o.program == Program(o.start, r.count, r.mode, r.compiled.value)
      ensures o == OutcomeOf(old(nextTag), r)
    {
      var start := nextTag;
      if r.start.Some? { start := r.start.value; }
      nextTag := start + r.count;
      if r.keepMode { return Refused; }
      if !r.enable { return Halted; }
      var out := [SetTag(start)];
      if r.count > 1 { out := out + [Loop(r.count - 1)]; } else { out := out + [LabelHere]; }
      if r.count != 1 { out := out + [HeartbeatMode(r.mode)]; } else { out := out + [HeartbeatMode({})]; }
      out := out + [Marker];
      var duration := ParseDuration(r.duration);
      if duration.None? || r.compiled.None? { return Refused; }
      out := out + [Wait(r.compiled.value)];
      out := out + [IncTag];
      if r.count > 1 {
        out := out + [DoLoop];
        if r.count > 0 {
          out := out + [HeartbeatMode({})];
          out := out + [Marker];
        }
        out := out + [End];
      } else {
        out := out + [GotoLabel];
      }
      return Launched(start, out);
    }
  }

  /** All the tags that a series of continuing launches, each left to finish, sends its markers with. */
  function AllTags(next: nat, rs: seq<Request>): seq<nat>
    decreases |rs|
  {
    if rs == [] then []
    else (if OutcomeOf(next, rs[0]).Launched? then Tags(next, rs[0].count) else []) + AllTags(next + rs[0].count, rs[1..])
  }

  ghost predicate Continuing(rs: seq<Request>) {
    forall i :: 0 <= i < |rs| ==> rs[i].start.None? && rs[i].count >= 2
  }

  function Windows(rs: seq<Request>): nat
    decreases |rs|
  {
    if rs == [] then 0 else rs[0].count + Windows(rs[1..])
  }

  lemma {:induction false} TagsFollow(next: nat, rs: seq<Request>)
    requires Continuing(rs)
    ensures AllTags(next, rs) == Tags(next, Windows(rs))
       <==> Accepted(rs)
    ensures |AllTags(next, rs)| <= Windows(rs)
    decreases |rs|
  {
    if rs != [] {
      hide Tags, AllTags, OutcomeOf, Program, Passes;
      NextTags(next, rs);
      var r, rest := rs[0], rs[1..];
      var more := AllTags(next + r.count, rest);
      assert forall i :: 0 <= i < |rest| ==> rest[i] == rs[i + 1];
      TagsFollow(next + r.count, rest);
      AllAccepted(rs);
      if Passes(r) {
        TagsSplit(next, r.count, Windows(rest), more);
      } else {
        TagsCount(next, Windows(rs));
      }
    }
  }

  /** Continuing launches cover a contiguous range of tags, without gap or overlap, exactly if each of them was enabled,
      had a permitted mode and a duration with unit, and compiled: any other call uses up its tags without sending
      them. */
  lemma TagsContiguous(next: nat, rs: seq<Request>)
    requires Continuing(rs)
    ensures AllTags(next, rs) == Tags(next, Windows(rs)) <==> forall i :: 0 <= i < |rs| ==>
      rs[i].enable && !rs[i].keepMode && HasUnit(rs[i].duration) && rs[i].compiled.Some?
    ensures |AllTags(next, rs)| <= Windows(rs)
  {
    hide AllTags, Tags, HasUnit;
    TagsFollow(next, rs);
    assert forall i :: 0 <= i < |rs| ==>
      (Passes(rs[i]) <==> rs[i].enable && !rs[i].keepMode && HasUnit(rs[i].duration) && rs[i].compiled.Some?);
  }

  lemma NextTags(next: nat, rs: seq<Request>)
    requires rs != []
    ensures AllTags(next, rs) ==
            (if Passes(rs[0]) then Tags(next, rs[0].count) else []) + AllTags(next + rs[0].count, rs[1..])
  {
    hide Tags, Program, HasUnit;
  }

  ghost predicate Accepted(rs: seq<Request>) {
    forall i :: 0 <= i < |rs| ==> Passes(rs[i])
  }

  lemma AllAccepted(rs: seq<Request>)
    requires rs != []
    ensures Accepted(rs) <==> Passes(rs[0]) && Accepted(rs[1..])
  {
    assert forall i :: 1 <= i < |rs| ==> rs[i] == rs[1..][i - 1];
  }

  lemma TagsCount(start: nat, count: nat)
    ensures |Tags(start, count)| == count
  {
  }

  /** A contiguous range goes on exactly with the range behind it. */
  lemma TagsSplit(start: nat, n: nat, rest: nat, more: seq<nat>)
    ensures |Tags(start, n) + more| == n + |more|
    ensures Tags(start, n) + more == Tags(start, n + rest) <==> more == Tags(start + n, rest)
  {
    assert Tags(start, n) + Tags(start + n, rest) == Tags(start, n + rest);
    assert more == (Tags(start, n) + more)[n..];
    assert Tags(start + n, rest) == Tags(start, n + rest)[n..];
  }
}
