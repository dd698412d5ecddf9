/** Flash actions of a ROC: a command is written, the processor takes it (DONE drops) and finishes it (DONE rises),
    and the action lock keeps actions apart. */
module RocAction {
  import opened Basics

  const ACTION_ERASE_ADDR: Word := 3
  const ACTION_PROG_INDEX: Word := 4
  const ACTION_PROG_ADDR: Word := 5
  const ACTION_READ_SPI: Word := 7
  const ACTION_WRITE_SPI: Word := 8

  /** Polls of 10 ms each. */
  const FIVE_SECONDS: nat := 5 * 100
  const THREE_MINUTES: nat := 180 * 100

  /** A 32-bit parameter as two words, the low one first. */
  function Parameter(v: nat): (ws: seq<Word>)
    requires v < 0x1_0000_0000
    ensures |ws| == 2 && (ws[0] as nat) + 65536 * (ws[1] as nat) == v
  {
    [v % 65536, v / 65536]
  }

  /** The number that two words stand for. */
  function Number(lo: Word, hi: Word): nat {
    (lo as nat) + 65536 * (hi as nat)
  }

  function Command(action: Word, p1: nat, p2: nat, payload: seq<Word>): (c: seq<Word>)
    requires p1 < 0x1_0000_0000 && p2 < 0x1_0000_0000
    ensures |c| == 5 + |payload| && c[0] == action && c[5..] == payload
    ensures Number(c[1], c[2]) == p1 && Number(c[3], c[4]) == p2
  {
    [action] + Parameter(p1) + Parameter(p2) + payload
  }

  // ---------------------------------------------------------------- the processor

  /** Commands are run in order; DONE is low while one runs and, before the first one, since the restart. */
  datatype Processor = Processor(issued: nat, started: nat, finished: nat, high: bool)

  predicate Sound(p: Processor) {
    && p.finished <= p.started <= p.issued && p.started <= p.finished + 1
    && (p.started > p.finished ==> !p.high)
    && (p.high ==> p.finished > 0)
  }

  predicate Idle(p: Processor) {
    p.finished == p.issued
  }

  /** Bit 15 of the register. */
  predicate ShowsDone(value: Word) {
    value >= 0x8000
  }

  /** A read of the register shows DONE as it is, but for the all ones of a dead link. */
  predicate MayRead(p: Processor, value: Word) {
    value == 0xffff || ShowsDone(value) == p.high
  }

  datatype Event = Starts | Finishes

  function After(p: Processor, e: Event): (q: Processor)
    ensures Sound(p) ==> Sound(q)
    ensures q.issued == p.issued && q.finished >= p.finished
  {
    match e
    case Starts =>
      if p.started == p.finished && p.started < p.issued then p.(started := p.started + 1, high := false) else p
    case Finishes => if p.started == p.finished + 1 then p.(finished := p.started, high := true) else p
  }

  function AfterAll(p: Processor, es: seq<Event>): (q: Processor)
    ensures Sound(p) ==> Sound(q)
    ensures q.issued == p.issued && q.finished >= p.finished
    decreases |es|
  {
    if es == [] then p else AfterAll(After(p, es[0]), es[1..])
  }

  /** With one command outstanding: once DONE was low, it is high only when that command is finished. */
  predicate OneOutstanding(p: Processor) {
    Sound(p) && p.issued <= p.finished + 1
  }

  lemma {:induction false} OneStays(p: Processor, es: seq<Event>)
    requires OneOutstanding(p)
    ensures OneOutstanding(AfterAll(p, es))
    ensures !p.high && AfterAll(p, es).high ==> Idle(AfterAll(p, es))
    ensures Idle(p) ==> AfterAll(p, es) == p
    decreases |es|
  {
    if es != [] {
      OneStays(After(p, es[0]), es[1..]);
    }
  }

  function Sent(p: Processor): Processor {
    p.(issued := p.issued + 1)
  }

  /** What p may become while nothing is sent. */
  ghost predicate Later(p: Processor, q: Processor) {
    exists es: seq<Event> :: q == AfterAll(p, es)
  }

  /** What p may have become when a command has just been sent. */
  ghost predicate SentLater(p: Processor, q: Processor) {
    exists es: seq<Event> :: q == Sent(AfterAll(p, es))
  }

  /** On the way from p to q, DONE was low. */
  ghost predicate Handshaken(p: Processor, q: Processor) {
    exists taken: seq<Event>, done: seq<Event> :: !AfterAll(p, taken).high && q == AfterAll(AfterAll(p, taken), done)
  }

  /** Whenever DONE is seen low and later high after a command was sent in state p, the command is finished. */
  ghost predicate HandshakeTells(p: Processor) {
    forall taken: seq<Event>, done: seq<Event> ::
      !AfterAll(Sent(p), taken).high && AfterAll(AfterAll(Sent(p), taken), done).high ==>
        Idle(AfterAll(AfterAll(Sent(p), taken), done))
  }

  /** DONE 1 -> 0 -> 1 proves completion exactly when the processor was idle as the command was sent: a command
      that an earlier action gave up waiting for can be taken for the new one. */
  lemma HandshakeTellsIffIdle(p: Processor)
    requires Sound(p)
    ensures HandshakeTells(p) <==> Idle(p)
  {
    if Idle(p) {
      forall taken: seq<Event>, done: seq<Event> |
        !AfterAll(Sent(p), taken).high && AfterAll(AfterAll(Sent(p), taken), done).high
        ensures Idle(AfterAll(AfterAll(Sent(p), taken), done))
      {
        OneStays(Sent(p), taken);
        OneStays(AfterAll(Sent(p), taken), done);
      }
    } else {
      var taken := if p.started == p.finished then [Starts] else [];
      var low := if p.started == p.finished then After(Sent(p), Starts) else Sent(p);
      assert AfterAll(Sent(p), taken) == low;
      assert AfterAll(low, [Finishes]) == After(low, Finishes);
      assert !AfterAll(Sent(p), taken).high && AfterAll(AfterAll(Sent(p), taken), [Finishes]).high;
      assert !Idle(AfterAll(AfterAll(Sent(p), taken), [Finishes]));
    }
  }

  // ---------------------------------------------------------------- what the program did on the link

  /** One access of the link, and whether it threw. */
  datatype Access =
    | Wrote(thrown: bool, words: seq<Word>)    // a command block
    | Done(thrown: bool, value: Word)          // the DONE register
    | Other(thrown: bool, value: Word)         // another register
    | Block(thrown: bool, words: seq<Word>)    // a block read

  /** A poll that did not throw, with DONE (bit 15) set or clear. */
  predicate Shows(a: Access, high: bool) {
    a.Done? && !a.thrown && (a.value >= 0x8000 <==> high)
  }

  /** The polls of a wait for DONE high or low: only the last one read it so. */
  predicate Ended(looks: seq<Access>, high: bool) {
    && looks != [] && Shows(looks[|looks| - 1], high)
    && forall k :: 0 <= k < |looks| - 1 ==> Shows(looks[k], !high)
  }

  /** A wait that throws: an access threw, or DONE was read the other way limit + 2 times, all before two reads for the
      message. */
  predicate GaveUp(looks: seq<Access>, high: bool, limit: nat) {
    || (looks != [] && looks[|looks| - 1].thrown && forall k :: 0 <= k < |looks| - 1 && k < limit + 2 ==> Shows(looks[k], !high))
    || (|looks| == limit + 4 && forall k :: 0 <= k < limit + 2 ==> Shows(looks[k], !high))
  }

  /** DONE was read low, and the last read after that was high. */
  ghost predicate DroppedThenRose(looks: seq<Access>) {
    && looks != [] && Shows(looks[|looks| - 1], true)
    && exists i :: 0 <= i < |looks| - 1 && Shows(looks[i], false)
  }

  /** DONE did not drop within 5 s, or did not rise again within its limit, or the link failed. */
  ghost predicate HandshakeFailed(looks: seq<Access>, limit: nat) {
    || GaveUp(looks, false, 500)
    || exists k :: 0 <= k <= |looks| && Ended(looks[..k], false) && GaveUp(looks[k..], true, limit)
  }

  /** What a blocking action does on the link when it returns normally: the command, the handshake, and where there is one
      a status of 0. */
  ghost predicate Succeeded(looks: seq<Access>, words: seq<Word>, checkStatus: bool) {
    && looks != [] && looks[0] == Wrote(false, words)
    && if checkStatus then
         |looks| > 1 && looks[|looks| - 1] == Other(false, 0) && DroppedThenRose(looks[1..|looks| - 1])
       else DroppedThenRose(looks[1..])
  }

  /** The reasons for which it throws: the command could not be written, the handshake failed, or the status could not be
      read or is not 0. */
  ghost predicate Excused(looks: seq<Access>, words: seq<Word>, limit: nat, checkStatus: bool) {
    && looks != [] && looks[0].Wrote? && looks[0].words == words
    && (|| looks[0].thrown
        || HandshakeFailed(looks[1..], limit)
        || (checkStatus && |looks| > 1 && looks[|looks| - 1].Other?
            && (looks[|looks| - 1].thrown || looks[|looks| - 1].value != 0)))
  }

  ghost predicate AllShow(looks: seq<Access>, high: bool) {
    forall k :: 0 <= k < |looks| ==> Shows(looks[k], high)
  }

  lemma NoLooks(high: bool)
    ensures AllShow([], high)
  {
  }

  /** Where one more poll leads, when none before it read DONE as wanted. */
  lemma OneMorePoll(looks: seq<Access>, look: Access, high: bool, limit: nat)
    requires AllShow(looks, !high) && |looks| <= limit + 1
    ensures look.thrown ==> GaveUp(looks + [look], high, limit)
    ensures Shows(look, high) ==> Ended(looks + [look], high)
    ensures Shows(look, !high) ==> AllShow(looks + [look], !high)
  {
  }

  lemma PolledEnough(looks: seq<Access>, more: seq<Access>, high: bool, limit: nat)
    requires AllShow(looks, !high) && |looks| == limit + 2
    requires 1 <= |more| <= 2 && (|more| < 2 ==> more[|more| - 1].thrown)
    ensures GaveUp(looks + more, high, limit)
  {
  }


  lemma DropAndRise(drop: seq<Access>, rise: seq<Access>)
    requires Ended(drop, false) && Ended(rise, true)
    ensures DroppedThenRose(drop + rise)
  {
    var looks := drop + rise;
    assert Shows(looks[|drop| - 1], false) && Shows(looks[|looks| - 1], true);
  }

  lemma DropNoRise(drop: seq<Access>, rise: seq<Access>, limit: nat)
    requires Ended(drop, false) && GaveUp(rise, true, limit)
    ensures HandshakeFailed(drop + rise, limit)
  {
    var looks := drop + rise;
    assert looks[..|drop|] == drop && looks[|drop|..] == rise;
  }

  lemma WriteExcuses(words: seq<Word>, limit: nat, checkStatus: bool)
    ensures Excused([Wrote(true, words)], words, limit, checkStatus)
  {
  }

  lemma HandshakeExcuses(words: seq<Word>, looks: seq<Access>, limit: nat, checkStatus: bool)
    requires HandshakeFailed(looks, limit)
    ensures Excused([Wrote(false, words)] + looks, words, limit, checkStatus)
  {
    assert ([Wrote(false, words)] + looks)[1..] == looks;
  }

  /** The command, the handshake and the status, one after the other. */
  lemma ActionOutcome(words: seq<Word>, looks: seq<Access>, limit: nat, checkStatus: bool, thrown: bool, status: Word)
    requires DroppedThenRose(looks) && (!checkStatus ==> !thrown && status == 0)
    ensures var all := [Wrote(false, words)] + looks + if checkStatus then [Other(thrown, status)] else [];
            if thrown || status != 0 then Excused(all, words, limit, checkStatus) else Succeeded(all, words, checkStatus)
  {
    hide DroppedThenRose, HandshakeFailed;
    var all := [Wrote(false, words)] + looks + if checkStatus then [Other(thrown, status)] else [];
    assert all[1..|looks| + 1] == looks;
    assert !checkStatus ==> all[1..] == looks;
  }

  // ---------------------------------------------------------------- the ROC as the program sees it

  lemma ExcusedFrom(looks: seq<Access>, words: seq<Word>, limit: nat, checkStatus: bool)
    requires Excused(looks, words, limit, checkStatus)
    ensures looks != [] && looks[0].Wrote? && looks[0].words == words
  {
  }

  class Roc {
    var locked: bool                       // actionLock_
    var processor: Processor
    ghost var sent: seq<seq<Word>>         // commands written
    ghost var log: seq<Access>             // all accesses of the link
    ghost var acquired: nat                // how often the action lock was taken and given back
    ghost var released: nat
    ghost var deadRead: bool               // DONE was read as 0xffff, the value of a dead link

    constructor ()
      ensures !locked && processor == Processor(0, 0, 0, false) && sent == [] && log == []
      ensures acquired == released == 0 && !deadRead
    {
      locked, processor, sent, log := false, Processor(0, 0, 0, false), [], [];
      acquired, released, deadRead := 0, 0, false;
    }

    ghost predicate Valid()
      reads this
    {
      Sound(processor) && acquired == released + if locked then 1 else 0
    }

    /** Time passes; the processor works. */
    method Pass() returns (ghost events: seq<Event>)
      requires Valid()
      modifies `processor
      ensures Valid() && processor == AfterAll(old(processor), events)
    {
      var es: seq<Event> := *;
      events := es;
      processor := AfterAll(processor, es);
    }

    method Acquire()
      requires Valid() && !locked
      modifies `locked, `acquired
      ensures Valid() && locked && acquired == old(acquired) + 1
    {
      locked, acquired := true, acquired + 1;
    }

    method Release()
      requires Valid() && locked
      modifies `locked, `released
      ensures Valid() && !locked && released == old(released) + 1
    {
      locked, released := false, released + 1;
    }

    method ReadRegister() returns (thrown: bool, value: Word)
      requires Valid()
      modifies `processor, `log
      ensures Valid() && Later(old(processor), processor)
      ensures log == old(log) + [Other(thrown, value)]
    {
      ghost var es := Pass();
      assert processor == AfterAll(old(processor), es);
      thrown, value := *, *;
      log := log + [Other(thrown, value)];
    }

    /** A command block; it reaches the processor unless the write fails. */
    method WriteBlock(words: seq<Word>) returns (thrown: bool)
      requires Valid() && locked
      modifies `processor, `sent, `log
      ensures Valid() && (thrown ==> sent == old(sent)) && (!thrown ==> sent == old(sent) + [words])
      ensures !thrown ==> SentLater(old(processor), processor)
      ensures log == old(log) + [Wrote(thrown, words)]
    {
      ghost var es := Pass();
      thrown := *;
      log := log + [Wrote(thrown, words)];
      if !thrown {
        processor := Sent(processor);
        sent := sent + [words];
        assert processor == Sent(AfterAll(old(processor), es));
      }
    }

    method IsActionDone() returns (thrown: bool, done: bool, ghost look: Access, ghost events: seq<Event>)
      requires Valid()
      modifies `processor, `deadRead, `log
      ensures Valid() && processor == AfterAll(old(processor), events) && Later(old(processor), processor)
      ensures old(deadRead) ==> deadRead
      ensures log == old(log) + [look] && look.Done? && look.thrown == thrown
      ensures !thrown ==> MayRead(processor, look.value) && Shows(look, done)
      ensures !thrown && !deadRead ==> done == processor.high
    {
      events := Pass();
      assert processor == AfterAll(old(processor), events);
      var value: Word;
      thrown, value := *, *;
      done := false;
      if !thrown {
        if value != 0xffff && ShowsDone(value) != processor.high { value := if processor.high then 0x8000 else 0x4000; }
        done := ShowsDone(value);
        deadRead := deadRead || value == 0xffff;
      }
      look := Done(thrown, value);
      log := log + [look];
    }

    /** Wait for DONE to drop (`high` false) or to rise, polling at most limit + 2 times; `looks`: what was read. */
    method WaitDone(high: bool, limit: nat) returns (thrown: bool, ghost looks: seq<Access>, ghost events: seq<Event>)
      requires Valid()
      modifies `processor, `deadRead, `log
      ensures Valid() && processor == AfterAll(old(processor), events) && (old(deadRead) ==> deadRead)
      ensures log == old(log) + looks && |looks| <= limit + 4
      ensures if thrown then GaveUp(looks, high, limit) else Ended(looks, high)
      ensures !thrown && !high ==> !processor.high
      ensures !thrown && high && !deadRead ==> processor.high
    {
      hide Ended, GaveUp, AllShow, Sound;
      looks, events := [], [];
      var i := 0;
      assert processor == AfterAll(processor, []);
      hide AfterAll;
      NoLooks(!high);
      while true
        invariant Valid() && processor == AfterAll(old(processor), events) && (old(deadRead) ==> deadRead)
        invariant 0 <= i <= limit + 1 && |looks| == i && AllShow(looks, !high)
        invariant log == old(log) + looks
        decreases limit + 2 - i
      {
        ghost var p := processor;
        var done;
        ghost var look, es;
        thrown, done, look, es := IsActionDone();
        AfterBoth(old(processor), events, es);
        OneMorePoll(looks, look, high, limit);
        looks, events := looks + [look], events + es;
        if thrown { return; }
        if done == high { return; }
        if i > limit {
          ghost var more;
          thrown, more, es := ReadTwice();
          AfterBoth(old(processor), events, es);
          PolledEnough(looks, more, high, limit);
          looks, events := looks + more, events + es;
          thrown := true;
          return;
        }
        i := i + 1;
      }
    }

    /** The registers for the message of an exception. */
    method ReadTwice() returns (thrown: bool, ghost looks: seq<Access>, ghost events: seq<Event>)
      requires Valid()
      modifies `processor, `log
      ensures Valid() && processor == AfterAll(old(processor), events)
      ensures log == old(log) + looks && 1 <= |looks| <= 2 && (|looks| < 2 ==> looks[|looks| - 1].thrown)
    {
      var reg;
      thrown, reg := ReadRegister();
      looks := [Other(thrown, reg)];
      events :| processor == AfterAll(old(processor), events);
      if thrown { return; }
      ghost var p := processor;
      thrown, reg := ReadRegister();
      looks := looks + [Other(thrown, reg)];
      ghost var es: seq<Event> :| processor == AfterAll(p, es);
      AfterBoth(old(processor), events, es);
      events := events + es;
    }

    /** DONE has to drop, then to rise. */
    method AwaitHandshake(completeLimit: nat) returns (thrown: bool, ghost looks: seq<Access>)
      requires Valid()
      modifies `processor, `deadRead, `log
      ensures Valid() && (old(deadRead) ==> deadRead)
      ensures log == old(log) + looks && |looks| <= 504 + completeLimit + 4
      ensures if thrown then HandshakeFailed(looks, completeLimit) else DroppedThenRose(looks)
      ensures !thrown ==> Handshaken(old(processor), processor) && (!deadRead ==> processor.high)
    {
      hide AfterAll, Ended, GaveUp, DroppedThenRose;
      ghost var rise, taken, done;
      thrown, looks, taken := WaitDone(false, FIVE_SECONDS);
      if thrown { return; }
      thrown, rise, done := WaitDone(true, completeLimit);
      if thrown {
        DropNoRise(looks, rise, completeLimit);
      } else {
        DropAndRise(looks, rise);
        HandshakeSeen(old(processor), processor, taken, done);
      }
      looks := looks + rise;
    }

    /** The status register, where the action has one. */
    method ReadStatus(checkStatus: bool) returns (thrown: bool, status: Word)
      requires Valid()
      modifies `processor, `log
      ensures Valid() && Later(old(processor), processor)
      ensures !checkStatus ==> !thrown && status == 0
      ensures log == old(log) + if checkStatus then [Other(thrown, status)] else []
    {
      thrown, status := false, 0;
      LaterAtOnce(processor);
      if checkStatus { thrown, status := ReadRegister(); }
    }

    /** A blocking action. The lock is free again however it ends. A normal return means that, after this command
        was written, DONE was seen to drop and then to rise; the command is finished if the processor was idle
        before and the link never read dead. */
    method RunAction(words: seq<Word>, completeLimit: nat, checkStatus: bool) returns (thrown: bool,
                     ghost looks: seq<Access>)
      requires Valid() && !locked
      modifies this
      ensures Valid() && !locked && acquired == old(acquired) + 1
      ensures sent == old(sent) + [words] || (thrown && sent == old(sent))
      ensures log == old(log) + looks && |looks| <= 504 + completeLimit + 6
      ensures if thrown then Excused(looks, words, completeLimit, checkStatus) else Succeeded(looks, words, checkStatus)
      ensures !thrown && Idle(old(processor)) && !deadRead ==>
        Idle(processor) && processor.issued == old(processor).issued + 1
    {
      hide Later, Handshaken, DroppedThenRose, HandshakeFailed, Excused, Succeeded, Idle, Sound;
      Acquire();
      thrown := WriteBlock(words);
      looks := [Wrote(thrown, words)];
      if thrown {
        WriteExcuses(words, completeLimit, checkStatus);
        Release();
        return;
      }
      ghost var p1 := processor;
      ghost var shake;
      thrown, shake := AwaitHandshake(completeLimit);
      looks := looks + shake;
      if thrown {
        HandshakeExcuses(words, shake, completeLimit, checkStatus);
        Release();
        return;
      }
      ghost var p2 := processor;
      var status;
      thrown, status := ReadStatus(checkStatus);
      ActionOutcome(words, shake, completeLimit, checkStatus, thrown, status);
      looks := looks + if checkStatus then [Other(thrown, status)] else [];
      ActionFinishes(old(processor), p1, p2, processor);
      Release();
      if !thrown && status != 0 { thrown := true; }
    }

    /** The same with the command of two parameters and the words behind them. */
    method RunCommand(action: Word, p1: nat, p2: nat, payload: seq<Word>, completeLimit: nat, checkStatus: bool)
      returns (thrown: bool, ghost looks: seq<Access>)
      requires p1 < 0x1_0000_0000 && p2 < 0x1_0000_0000 && Valid() && !locked
      modifies this
      ensures Valid() && !locked && acquired == old(acquired) + 1
      ensures log == old(log) + looks && |looks| <= 504 + completeLimit + 6
      ensures !thrown ==> |sent| == |old(sent)| + 1 && old(sent) <= sent
      ensures !thrown ==>
        var c := sent[|old(sent)|];
        && |c| >= 5 && c[0] == action && Number(c[1], c[2]) == p1 && Number(c[3], c[4]) == p2 && c[5..] == payload
        && Succeeded(looks, c, checkStatus)
      ensures thrown ==> looks != [] && looks[0].Wrote? && Excused(looks, looks[0].words, completeLimit, checkStatus)
      ensures !thrown && Idle(old(processor)) && !deadRead ==> Idle(processor)
    {
      hide Command, Number, Succeeded, Excused, Idle, Sound;
      var c := Command(action, p1, p2, payload);
      thrown, looks := RunAction(c, completeLimit, checkStatus);
      if thrown { ExcusedFrom(looks, c, completeLimit, checkStatus); }
    }

    /** Action 8: address, number of words, words. Refused before the lock is taken if there are more than 512. */
    method WriteSPIFlashBlock(data: seq<Word>, address: nat) returns (thrown: bool, ghost looks: seq<Access>)
      requires address < 0x1_0000_0000 && Valid() && !locked
      modifies this
      ensures Valid() && !locked && log == old(log) + looks && |looks| <= 1010
      ensures |data| > 512 ==> thrown && sent == old(sent) && acquired == old(acquired)
      ensures !thrown ==> |sent| == |old(sent)| + 1 && old(sent) <= sent
      ensures !thrown ==>
        var c := sent[|old(sent)|];
        && |c| >= 5 && c[0] == 8 && Number(c[1], c[2]) == address && Number(c[3], c[4]) == |data| && c[5..] == data
        && Succeeded(looks, c, true)
      ensures thrown && |data| <= 512 ==> looks != [] && looks[0].Wrote? && Excused(looks, looks[0].words, 500, true)
      ensures !thrown && Idle(old(processor)) && !deadRead ==> Idle(processor)
    {
      if |data| > 512 { return true, []; }
      hide Number, Succeeded, Excused, Idle, Sound;
      thrown, looks := RunCommand(ACTION_WRITE_SPI, address, |data|, data, FIVE_SECONDS, true);
    }

    /** Action 3: address, size. Erase gives no status and may take three minutes. */
    method EraseSPIFlashBlock(size: nat, address: nat) returns (thrown: bool, ghost looks: seq<Access>)
      requires size < 0x1_0000_0000 && address < 0x1_0000_0000 && Valid() && !locked
      modifies this
      ensures Valid() && !locked && log == old(log) + looks && |looks| <= 18510
      ensures !thrown ==> |sent| == |old(sent)| + 1 && old(sent) <= sent
      ensures !thrown ==>
        var c := sent[|old(sent)|];
        && |c| == 5 && c[0] == 3 && Number(c[1], c[2]) == address && Number(c[3], c[4]) == size
        && Succeeded(looks, c, false)
      ensures thrown ==> looks != [] && looks[0].Wrote? && Excused(looks, looks[0].words, 18000, false)
      ensures !thrown && Idle(old(processor)) && !deadRead ==> Idle(processor)
    {
      hide Number, Succeeded, Excused, Idle, Sound;
      thrown, looks := RunCommand(ACTION_ERASE_ADDR, address, size, [], THREE_MINUTES, false);
    }

    /** Action 4: index, 0. */
    method ProgramFromSPIByIndex(index: nat) returns (thrown: bool, ghost looks: seq<Access>)
      requires index < 256 && Valid() && !locked
      modifies this
      ensures Valid() && !locked && log == old(log) + looks && |looks| <= 1010
      ensures !thrown ==> |sent| == |old(sent)| + 1 && old(sent) <= sent
      ensures !thrown ==>
        var c := sent[|old(sent)|];
        && |c| == 5 && c[0] == 4 && Number(c[1], c[2]) == index && Number(c[3], c[4]) == 0
        && Succeeded(looks, c, true)
      ensures thrown ==> looks != [] && looks[0].Wrote? && Excused(looks, looks[0].words, 500, true)
      ensures !thrown && Idle(old(processor)) && !deadRead ==> Idle(processor)
    {
      hide Number, Succeeded, Excused, Idle, Sound;
      thrown, looks := RunCommand(ACTION_PROG_INDEX, index, 0, [], FIVE_SECONDS, true);
    }

    /** Action 5: address, 0. */
    method ProgramFromSPIByAddress(address: nat) returns (thrown: bool, ghost looks: seq<Access>)
      requires address < 0x1_0000_0000 && Valid() && !locked
      modifies this
      ensures Valid() && !locked && log == old(log) + looks && |looks| <= 1010
      ensures !thrown ==> |sent| == |old(sent)| + 1 && old(sent) <= sent
      ensures !thrown ==>
        var c := sent[|old(sent)|];
        && |c| == 5 && c[0] == 5 && Number(c[1], c[2]) == address && Number(c[3], c[4]) == 0
        && Succeeded(looks, c, true)
      ensures thrown ==> looks != [] && looks[0].Wrote? && Excused(looks, looks[0].words, 500, true)
      ensures !thrown && Idle(old(processor)) && !deadRead ==> Idle(processor)
    {
      hide Number, Succeeded, Excused, Idle, Sound;
      thrown, looks := RunCommand(ACTION_PROG_ADDR, address, 0, [], FIVE_SECONDS, true);
    }

    // -------------------------------------------------------------- block read in two steps

    /** Action 7: address, number of bytes. Takes the lock and keeps it, unless the request is refused or fails. */
    method LaunchSPIFlashBlockRead(address: nat, bytes: nat) returns (thrown: bool)
      requires address < 0x1_0000_0000 && bytes < 65536 && Valid()
      modifies this
      ensures Valid() && locked == (if thrown then old(locked) else true)
      ensures bytes > 1016 || old(locked) ==>
        thrown && acquired == old(acquired) && released == old(released) && sent == old(sent) && log == old(log)
      ensures bytes <= 1016 && !old(locked) ==>
        |log| == |old(log)| + 1 && log[|old(log)|].Wrote? && log[|old(log)|].thrown == thrown
      ensures !thrown ==> acquired == old(acquired) + 1 && released == old(released)
      ensures !thrown ==> |sent| == |old(sent)| + 1 && old(sent) <= sent
      ensures !thrown ==>
        var c := sent[|old(sent)|];
        |c| == 5 && c[0] == 7 && Number(c[1], c[2]) == address && c[3] == bytes && c[4] == 0
    {
      if bytes > 1016 { return true; }
      if locked { return true; }
      Acquire();
      thrown := WriteBlock(Command(ACTION_READ_SPI, address, bytes, []));
      if thrown { Release(); }
    }

    /** Gives the lock back exactly once, however it ends; a normal return has seen DONE together with the expected
        reply size and read that many words. It throws only if an access of the link threw or the reply did not come. */
    method CollectSPIFlashBlockRead(bytes: nat)
      returns (thrown: bool, words: seq<Word>, ghost looks: seq<Access>)
      requires bytes <= 1016 && Valid() && locked
      modifies this
      ensures Valid() && !locked && released == old(released) + 1 && acquired == old(acquired) && sent == old(sent)
      ensures old(log) + looks <= log
      ensures !thrown ==> |words| == bytes / 2 && ReplyReady(looks, bytes / 2 + 4)
      ensures !thrown ==> |log| > 1 && log[|log| - 2] == Block(false, words)
      ensures thrown ==> (log != [] && log[|log| - 1].thrown) || NoReply(looks, bytes / 2 + 4)
      ensures |looks| <= 1007
    {
      words := [];
      thrown, looks := WaitReadCount(bytes / 2 + 4);
      if thrown { Release(); return; }
      thrown, words := ReadBlock(bytes / 2);
      if thrown { Release(); return; }
      Release();
      var count;
      thrown, count := ReadRegister();
    }

    method ReadBlock(count: nat) returns (thrown: bool, words: seq<Word>)
      requires Valid()
      modifies `processor, `log
      ensures Valid() && (!thrown ==> |words| == count) && log == old(log) + [Block(thrown, words)]
    {
      ghost var es := Pass();
      thrown := *;
      var w: seq<Word> := *;
      words := seq(count, i requires 0 <= i < count => if i < |w| then w[i] else 0);
      log := log + [Block(thrown, words)];
    }

    /** DONE and the reply size, one after the other. */
    method LookForReply(expected: nat) returns (thrown: bool, found: bool, ghost looks: seq<Access>)
      requires Valid()
      modifies `processor, `deadRead, `log
      ensures Valid() && log == old(log) + looks && 1 <= |looks| <= 2
      ensures thrown ==> looks[|looks| - 1].thrown
      ensures !thrown ==> |looks| == 2 && (found <==> Replied(looks, 0, expected))
    {
      var done, count;
      found := false;
      ghost var look, es;
      thrown, done, look, es := IsActionDone();
      looks := [look];
      if thrown { return; }
      thrown, count := ReadRegister();
      looks := looks + [Other(thrown, count)];
      found := done && count % 2048 == expected;
    }

    /** Wait until one look shows DONE set and the reply of the expected size; DONE alone may be stale. */
    method WaitReadCount(expected: nat) returns (thrown: bool, ghost looks: seq<Access>)
      requires Valid()
      modifies `processor, `deadRead, `log
      ensures Valid() && |looks| <= 1007 && log == old(log) + looks
      ensures !thrown ==> ReplyReady(looks, expected)
      ensures thrown ==> (looks != [] && looks[|looks| - 1].thrown) || NoReply(looks, expected)
    {
      hide Replied, Sound;
      looks := [];
      var i := 0;
      while true
        invariant Valid() && 0 <= i <= FIVE_SECONDS + 1 && |looks| == 2 * i && log == old(log) + looks
        invariant NotReplied(looks, i, expected)
        decreases FIVE_SECONDS + 2 - i
      {
        var found;
        ghost var look;
        thrown, found, look := LookForReply(expected);
        if !thrown { OneMoreLook(looks, look, i, expected); }
        looks := looks + look;
        if thrown || found { return; }
        if i > FIVE_SECONDS {
          ghost var more, es;
          var count;
          thrown, more, es := ReadTwice();
          if !thrown {
            thrown, count := ReadRegister();
            more := more + [Other(thrown, count)];
          }
          SameReplies(looks, looks + more, 502, expected);
          looks := looks + more;
          return true, looks;
        }
        i := i + 1;
      }
    }

    method ReadSPIFlashBlock(address: nat, bytes: nat) returns (thrown: bool, words: seq<Word>)
      requires address < 0x1_0000_0000 && bytes < 65536 && Valid()
      modifies this
      ensures Valid() && (old(locked) ==> thrown && locked) && (!old(locked) ==> !locked)
      ensures acquired - old(acquired) == released - old(released)
      ensures !thrown ==> |words| == bytes / 2 && |sent| == |old(sent)| + 1 && old(sent) <= sent
      ensures !thrown ==> |log| > 1 && log[|log| - 2] == Block(false, words)
      ensures !thrown ==>
        var c := sent[|old(sent)|];
        |c| == 5 && c[0] == 7 && Number(c[1], c[2]) == address && c[3] == bytes && c[4] == 0
    {
      words := [];
      thrown := LaunchSPIFlashBlockRead(address, bytes);
      if thrown { return; }
      ghost var looks;
      thrown, words, looks := CollectSPIFlashBlockRead(bytes);
    }
  }

  /** Look k of a wait for a reply, one read of DONE and one of the reply size, shows both. */
  predicate Replied(looks: seq<Access>, k: nat, expected: nat)
    requires 2 * k + 1 < |looks|
  {
    && Shows(looks[2 * k], true)
    && looks[2 * k + 1].Other? && !looks[2 * k + 1].thrown && looks[2 * k + 1].value % 2048 == expected
  }

  /** The first n looks did not show them. */
  predicate NotReplied(looks: seq<Access>, n: nat, expected: nat)
    requires 2 * n <= |looks|
  {
    forall k :: 0 <= k < n ==> !Replied(looks, k, expected)
  }

  lemma SameReplies(looks: seq<Access>, more: seq<Access>, n: nat, expected: nat)
    requires 2 * n <= |looks| && looks <= more && NotReplied(looks, n, expected)
    ensures NotReplied(more, n, expected)
  {
    forall k | 0 <= k < n ensures !Replied(more, k, expected) { assert !Replied(looks, k, expected); }
  }

  lemma OneMoreLook(looks: seq<Access>, look: seq<Access>, n: nat, expected: nat)
    requires |looks| == 2 * n && |look| == 2 && NotReplied(looks, n, expected)
    ensures Replied(look, 0, expected) ==> ReplyReady(looks + look, expected)
    ensures !Replied(look, 0, expected) ==> NotReplied(looks + look, n + 1, expected)
  {
    SameReplies(looks, looks + look, n, expected);
    assert Replied(looks + look, n, expected) == Replied(look, 0, expected);
  }

  /** The last look, and no earlier one, shows DONE and the expected reply size. */
  predicate ReplyReady(looks: seq<Access>, expected: nat) {
    && looks != [] && |looks| % 2 == 0
    && forall k :: 0 <= k < |looks| / 2 ==> (Replied(looks, k, expected) <==> k == |looks| / 2 - 1)
  }

  /** For five seconds no look showed them. */
  predicate NoReply(looks: seq<Access>, expected: nat) {
    |looks| >= 1004 && NotReplied(looks, 502, expected)
  }

  /** On a link that dies once the command was taken up, the polls read DONE low and then high although the command is
      not finished: an erase, which reads no status afterwards, returns normally. */
  lemma DeadLinkPasses(p: Processor)
    requires Sound(p) && Idle(p)
    ensures var q := AfterAll(Sent(p), [Starts]);
            && MayRead(q, 0x4000) && MayRead(q, 0xffff) && DroppedThenRose([Done(false, 0x4000), Done(false, 0xffff)])
            && !Idle(q)
  {
    assert AfterAll(Sent(p), [Starts]) == After(Sent(p), Starts) by { assert [Starts][1..] == []; }
    var looks := [Done(false, 0x4000), Done(false, 0xffff)];
    assert Shows(looks[0], false) && Shows(looks[1], true);
  }

  lemma LaterAtOnce(p: Processor)
    ensures Later(p, p)
  {
    assert AfterAll(p, []) == p;
  }

  lemma HandshakeSeen(p: Processor, q: Processor, taken: seq<Event>, done: seq<Event>)
    requires !AfterAll(p, taken).high && q == AfterAll(AfterAll(p, taken), done)
    ensures Handshaken(p, q)
  {
  }

  /** A command sent from idle, DONE low and high again: it is finished, and stays so. */
  lemma ActionFinishes(p0: Processor, p1: Processor, p2: Processor, p3: Processor)
    requires Sound(p0) && SentLater(p0, p1) && Handshaken(p1, p2) && Later(p2, p3)
    ensures Idle(p0) && p2.high ==> Idle(p3) && p3.issued == p0.issued + 1
  {
    hide After, AfterAll;
    if Idle(p0) && p2.high {
      var es0: seq<Event> :| p1 == Sent(AfterAll(p0, es0));
      IdleStays(p0, es0);
      var taken: seq<Event>, done: seq<Event> :| !AfterAll(p1, taken).high && p2 == AfterAll(AfterAll(p1, taken), done);
      HandshakeTellsIffIdle(p0);
      var es3: seq<Event> :| p3 == AfterAll(p2, es3);
      IdleStays(p2, es3);
    }
  }

  lemma {:induction false} AfterBoth(p: Processor, a: seq<Event>, b: seq<Event>)
    ensures AfterAll(p, a + b) == AfterAll(AfterAll(p, a), b)
    decreases |a|
  {
    if a == [] {
      assert a + b == b;
    } else {
      assert (a + b)[1..] == a[1..] + b;
      AfterBoth(After(p, a[0]), a[1..], b);
    }
  }

  lemma IdleStays(p: Processor, es: seq<Event>)
    requires Idle(p) && Sound(p)
    ensures AfterAll(p, es) == p
  {
    OneStays(p, es);
  }
}
