/** Programming a set of ROCs in lock-step over the DCS link. */
module FlashSession {
  import opened Basics
  import opened Activation
  import opened FlashEvidence
  import opened FlashExcuse
  import opened FlashIap
  import opened FlashTags
  import opened FlashWire
  import opened FlashWorld
  import opened FlashImage
  import opened FlashLedger
  import opened FlashOutcome
  import opened FlashProbe
  import opened FlashProgress
  import opened FlashReport
  import opened FlashSteps
  import opened FlashUpload

  /** What the present hold of the DCS lock has shown: the ROC whose DONE was read idle and the ROC whose FIFO
      was found empty, nothing having been written since. */
  datatype Sight = Sight(idle: Option<RocId>, empty: Option<RocId>)

  class Session {
    const rocs: set<RocId>
    const opt: Options
    const digest: seq<Byte> -> nat         // CRC-32 of the MiV and of the file
    const sha256hex: seq<Byte> -> string
    const isNew: set<RocId>                // firmware with tags and CRC

    var image: seq<Byte>
    var res: map<RocId, RocResult>
    var tag: Word
    var issued: nat                        // how many tags were given out
    var verBefore: map<RocId, Word>        // firmware version before the IAP
    var now: nat                           // steady clock, microseconds
    var locked: bool                       // this session holds the DCS lock
    var mivs: map<RocId, Miv>              // the world behind the link of each ROC
    ghost var known: map<RocId, Known>
    ghost var sight: Sight
    ghost var log: Log                     // every access of the links

    constructor (rocs: set<RocId>, image: seq<Byte>, opt: Options, digest: seq<Byte> -> nat,
                 sha256hex: seq<Byte> -> string, isNew: set<RocId>, mivs: map<RocId, Miv>)
      ensures this.rocs == rocs && this.image == image && this.opt == opt && this.digest == digest
      ensures this.sha256hex == sha256hex && this.isNew == isNew && this.mivs == mivs
      ensures res == map[] && tag == 0 && Counting() && !locked && log == map[]
    {
      this.rocs, this.image, this.opt, this.digest, this.sha256hex := rocs, image, opt, digest, sha256hex;
      this.isNew, this.mivs := isNew, mivs;
      res, verBefore, tag, issued, now, locked := map[], map[], 0, 0, 0, false;
      known, sight, log := map[], Sight(None, None), map[];
    }

    /** The tag is the one of the last number given out. */
    ghost predicate Counting()
      reads `tag, `issued
    {
      tag == WireTag(issued)
    }

    /** What holds at all times between two accesses of the link. */
    ghost predicate World()
      reads this
    {
      Counting() && AllFine(digest, isNew, issued, mivs, known)
    }

    // -------------------------------------------------------------- time, the lock and the link

    /** Time passes and the world goes on. */
    method Pass()
      requires World()
      modifies `now, `mivs
      ensures World() && now > old(now)
      ensures locked ==> forall r :: r in old(mivs) && r in known && OwnFifo(old(mivs)[r], known[r], issued) ==>
                           r in mivs && OwnFifo(mivs[r], known[r], issued)
    {
      hide AllFine, PassAll, OwnFifo, WireTag;
      var dt: int := *;
      var script: map<RocId, seq<EnvStep>> := *;
      now := now + 1 + (if dt > 0 then dt else 0);
      PassKeeps(digest, isNew, mivs, known, script, issued, locked);
      mivs := PassAll(digest, mivs, script, issued, locked);
    }

    /** The session never sleeps with the lock held. */
    method SleepMs(ms: int)
      requires World() && !locked
      modifies `now, `mivs
      ensures World() && now > old(now)
      ensures ms > 0 ==> now >= old(now) + 1000 * ms
    {
      if ms > 0 { now := now + 1000 * ms; }
      Pass();
    }

    function MsSince(t0: int): int
      reads `now
    {
      (now - t0) / 1000
    }

    method Lock()
      requires !locked
      modifies `locked, `sight
      ensures locked && sight == Sight(None, None)
    {
      locked, sight := true, Sight(None, None);
    }

    method Unlock()
      requires locked
      modifies `locked
      ensures !locked
    {
      locked := false;
    }

    /** A wait for a ROC begins. */
    ghost method StartTimer(r: RocId)
      modifies `log
      ensures log == Add(old(log), r, [Timer(now)])
    {
      log := Add(log, r, [Timer(now)]);
    }

    /** DONE: low from the moment a command is taken up until it is completed. */
    method ReadDone(r: RocId) returns (thrown: bool, done: Word)
      requires World() && r in known
      modifies `now, `mivs, `sight, `log
      ensures World() && now > old(now)
      ensures r in mivs && LooksIdle(done) == !mivs[r].busy
      ensures sight == old(sight).(idle := if !thrown && LooksIdle(done) then Some(r) else None)
      ensures log == Add(old(log), r, [Done(now, thrown, done)])
    {
      hide AllFine, WireTag, OwnFifo, Add;
      Pass();
      OneFine(digest, isNew, issued, mivs, known, r);
      thrown, done := *, *;
      if LooksIdle(done) == mivs[r].busy { done := if mivs[r].busy then 0x4000 else 0x8000; }
      sight := sight.(idle := if !thrown && LooksIdle(done) then Some(r) else None);
      log := Add(log, r, [Done(now, thrown, done)]);
    }

    method ReadCount(r: RocId) returns (thrown: bool, count: Word)
      requires World() && r in known
      modifies `now, `mivs, `sight, `log
      ensures World() && now > old(now)
      ensures r in mivs && count == CountRegister(mivs[r])
      ensures count == 0 ==> OwnFifo(mivs[r], known[r], issued)
      ensures sight == old(sight).(empty := if !thrown && count == 0 then Some(r) else None)
      ensures log == Add(old(log), r, [Count(now, thrown, mivs[r].fifo)])
    {
      hide AllFine, CountOf, WireTag, LinkFine, Add;
      Pass();
      OneFine(digest, isNew, issued, mivs, known, r);
      thrown := *;
      count := CountRegister(mivs[r]);
      if count == 0 { EmptyIsOwn(digest, r in isNew, issued, mivs[r], known[r]); }
      sight := sight.(empty := if !thrown && count == 0 then Some(r) else None);
      log := Add(log, r, [Count(now, thrown, mivs[r].fifo)]);
    }

    /** Another register. */
    method ReadOther(r: RocId, reg: nat) returns (thrown: bool, value: Word)
      requires World() && r in known
      modifies `now, `mivs, `log
      ensures World() && now > old(now)
      ensures log == Add(old(log), r, [Other(now, thrown, reg, value)])
    {
      hide AllFine, WireTag, OwnFifo, Add;
      Pass();
      thrown, value := *, *;
      log := Add(log, r, [Other(now, thrown, reg, value)]);
    }

    /** A command goes out only under the lock, after this hold of the lock has shown the ROC idle and its
        FIFO empty. */
    method WriteBlock(r: RocId, c: Cmd, ghost want: Expect) returns (thrown: bool)
      requires World() && r in known && locked && sight == Sight(Some(r), Some(r))
      requires Confined(c, r in isNew, known[r].ledger) && MayRaise(known[r], c, want)
      requires NewNumber(known[r], c, issued) && r in mivs && OwnFifo(mivs[r], known[r], issued)
      modifies `now, `mivs, `known, `sight, `log
      ensures World() && now > old(now)
      ensures known == old(known)[r := Wrote(old(known)[r], c, want)]
      ensures log == Add(old(log), r, [Sent(now, thrown, c, CommandWords(c))])
    {
      hide AllFine, LinkFine, Written, Wrote, Confined, MayRaise, OwnFifo, NewNumber, WireTag, CommandWords,
        Add;
      OneFine(digest, isNew, issued, mivs, known, r);
      Pass();
      OneFine(digest, isNew, issued, mivs, known, r);
      thrown := *;
      var arrives: bool := *;
      WriteFine(digest, r in isNew, issued, mivs[r], known[r], c, want, arrives);
      SetOneFine(digest, isNew, issued, mivs, known, r, Written(mivs[r], c, arrives), Wrote(known[r], c, want));
      mivs := mivs[r := Written(mivs[r], c, arrives)];
      known := known[r := Wrote(known[r], c, want)];
      sight := Sight(None, None);
      log := Add(log, r, [Sent(now, thrown, c, CommandWords(c))]);
    }

    method ReadBlock(r: RocId, n: nat) returns (thrown: bool, words: seq<Word>, ghost fifo: seq<Reply>)
      requires World() && r in known && locked
      modifies `now, `mivs, `log
      ensures World() && now > old(now)
      ensures !thrown ==> Told(digest, mivs[r], known[r].hope, words)
      ensures log == Add(old(log), r, [Block(now, thrown, n, fifo)])
      ensures words == if thrown then [] else WordsIn(Block(now, thrown, n, fifo))
    {
      hide AllFine, WireTag, LinkFine, Told, Flat, WholeReplies, Dropped, Add;
      Pass();
      OneFine(digest, isNew, issued, mivs, known, r);
      thrown := *;
      var dropped: int := *;
      fifo := mivs[r].fifo;
      var k := WholeReplies(mivs[r].fifo, n);
      words := if thrown then [] else Flat(mivs[r].fifo[..k]);
      if thrown { k := if 0 <= dropped <= |mivs[r].fifo| then dropped else |mivs[r].fifo|; }
      ReadFine(digest, r in isNew, issued, mivs[r], known[r], n, k);
      SetOneFine(digest, isNew, issued, mivs, known, r, Dropped(mivs[r], k), known[r]);
      assert known[r := known[r]] == known;
      mivs := mivs[r := Dropped(mivs[r], k)];
      log := Add(log, r, [Block(now, thrown, n, fifo)]);
    }

    // -------------------------------------------------------------- idle, send, reply

    /** Stale reply words are read away. */
    method Drain(r: RocId) returns (thrown: bool, ghost seg: seq<Access>)
      requires World() && r in known && !locked
      modifies `now, `mivs, `locked, `sight, `log
      ensures World() && now > old(now) && !locked
      ensures log == Add(old(log), r, seg) && seg != [] && (thrown <==> Threw(Last(seg))) && Last(seg).at == now
      ensures !Last(seg).Sent? && DrainedAt(seg, 0) && forall j :: 0 <= j < |seg| ==> !seg[j].Done?
    {
      hide AllFine, WireTag, CountOf, Flat, WholeReplies, Told, Add;
      Lock();
      var count;
      thrown, count := ReadCount(r);
      seg := [Count(now, thrown, mivs[r].fifo)];
      if !thrown && count >= 4 {
        var junk: seq<Word>;
        ghost var fifo;
        thrown, junk, fifo := ReadBlock(r, count - 4);
        AddedTwice(old(log), r, seg, [Block(now, thrown, count - 4, fifo)]);
        seg := seg + [Block(now, thrown, count - 4, fifo)];
      }
      Unlock();
    }

    /** DONE and REG_COUNT, one after the other. */
    method LookOnce(r: RocId) returns (thrown: bool, done: Word, count: Word, ghost seg: seq<Access>)
      requires World() && r in known
      modifies `now, `mivs, `sight, `log
      ensures World() && now > old(now)
      ensures log == Add(old(log), r, seg) && seg != [] && (thrown <==> Threw(Last(seg))) && Last(seg).at == now
      ensures !Last(seg).Sent?
      ensures 1 <= |seg| <= 2 && seg[0].Done? && (|seg| == 2 ==> seg[1].Count?)
      ensures !thrown ==>
        && |seg| == 2 && seg[0].Done? && !seg[0].thrown && seg[0].value == done
        && seg[1].Count? && !seg[1].thrown && Size(seg[1]) == count
      ensures !thrown && LooksIdle(done) && count == 0 ==>
        sight == Sight(Some(r), Some(r)) && r in mivs && OwnFifo(mivs[r], known[r], issued)
    {
      hide AllFine, WireTag, CountOf, OwnFifo, Add;
      thrown, done := ReadDone(r);
      seg := [Done(now, thrown, done)];
      count := 0;
      if thrown { return; }
      thrown, count := ReadCount(r);
      AddedTwice(old(log), r, seg, [Count(now, thrown, mivs[r].fifo)]);
      seg := seg + [Count(now, thrown, mivs[r].fifo)];
    }

    /** Idle: DONE set or nothing ever run, and an empty reply FIFO. The first look that shows it ends the wait. */
    method WaitIdle(r: RocId, timeoutMs: int) returns (thrown: bool, idle: bool, ghost seg: seq<Access>)
      requires World() && r in known && !locked
      modifies `now, `mivs, `locked, `sight, `log
      ensures World() && now > old(now) && !locked
      ensures idle ==> !thrown && sight == Sight(Some(r), Some(r))
      ensures !thrown && !idle ==> now - old(now) > 1000 * timeoutMs
      ensures log == Add(old(log), r, seg) && |seg| > 1 && seg[0] == Timer(old(now)) && Last(seg).at == now
      ensures (thrown <==> Threw(Last(seg))) && !Last(seg).Sent?
      ensures !thrown ==> (idle <==> IdleAt(seg, |seg| - 2))
      ensures !thrown && !idle ==> NeverIdle(seg) && BusyAtLast(seg) && Over(now, old(now), timeoutMs)
      ensures Drained(seg)
    {
      hide AllFine, WireTag, CountOf, Flat, WholeReplies, OwnFifo, NeverIdle, BusyAtLast, Drained, DrainedAt, Add;
      thrown, idle := false, false;
      var t0 := now;
      StartTimer(r);
      seg := [Timer(t0)];
      NoLook(t0);
      DrainedAtStart(t0);
      while true
        invariant World() && now >= t0 && !locked && !idle
        invariant log == Add(old(log), r, seg) && seg != [] && seg[0] == Timer(t0) && NeverIdle(seg)
        invariant Drained(seg) && !Last(seg).Done?
        decreases (timeoutMs + 1) * 1000 + t0 - now
      {
        var done, count;
        ghost var look;
        thrown, done, count, look := LookOnce(r);
        AddedTwice(old(log), r, seg, look);
        if !thrown && !(count == 0 && LooksIdle(done)) {
          LookJoins(seg, look[0], look[1]);
          assert look == [look[0], look[1]];
        }
        ghost var before := seg;
        seg := seg + look;
        if thrown || count < 4 { NothingToDrain(before, look); }
        if thrown { return; }
        if count >= 4 {
          ghost var more;
          thrown, more := Drain(r);
          AddedTwice(old(log), r, seg, more);
          DrainedNow(before, look, more);
          DrainJoins(seg, more);
          seg := seg + more;
          if thrown { return; }
          if MsSince(t0) > timeoutMs { return; }
          SleepMs(opt.pollMs);
          continue;
        }
        if count == 0 && LooksIdle(done) { return false, true, seg; }
        if MsSince(t0) > timeoutMs { return; }
        SleepMs(opt.pollMs);
      }
    }

    /** Check and send in one hold of the lock. */
    method SendIfIdle(r: RocId, c: Cmd, ghost want: Expect) returns (thrown: bool, ok: bool, ghost seg: seq<Access>)
      requires World() && r in known && !locked
      requires Confined(c, r in isNew, known[r].ledger) && MayRaise(known[r], c, want) && NewNumber(known[r], c, issued)
      modifies `now, `mivs, `locked, `known, `sight, `log
      ensures World() && now > old(now) && !locked
      ensures ok ==> !thrown
      ensures known == old(known) || known == old(known)[r := Wrote(old(known)[r], c, want)]
      ensures ok ==> known == old(known)[r := Wrote(old(known)[r], c, want)]
      ensures !ok && !thrown ==> known == old(known)
      ensures log == Add(old(log), r, seg) && seg != [] && Last(seg).at == now && (thrown <==> Threw(Last(seg)))
      ensures ok <==> TookIt(seg, c)
      ensures !ok && !thrown ==> |seg| == 2 && LookAt(seg, 0) && !IdleAt(seg, 0)
    {
      hide AllFine, CountOf, Flat, WholeReplies, Wrote, Confined, MayRaise, OwnFifo, NewNumber, WireTag, CommandWords, Add;
      Lock();
      ok := false;
      var done, count;
      thrown, done, count, seg := LookOnce(r);
      if !thrown && count == 0 && LooksIdle(done) {
        thrown := WriteBlock(r, c, want);
        ok := !thrown;
        AddedTwice(old(log), r, seg, [Sent(now, thrown, c, CommandWords(c))]);
        seg := seg + [Sent(now, thrown, c, CommandWords(c))];
      }
      Unlock();
    }

    /** Wait (unlocked), then check idle and send under the DCS lock. */
    method SendWhenIdle(r: RocId, c: Cmd, timeoutMs: int, ghost want: Expect)
      returns (thrown: bool, ok: bool, ghost seg: seq<Access>)
      requires World() && r in known && !locked
      requires Confined(c, r in isNew, known[r].ledger) && MayRaise(known[r], c, want) && NewNumber(known[r], c, issued)
      modifies `now, `mivs, `locked, `known, `sight, `log
      ensures World() && now >= old(now) && !locked
      ensures ok ==> !thrown
      ensures known == old(known) || known == old(known)[r := Wrote(old(known)[r], c, want)]
      ensures ok ==> known == old(known)[r := Wrote(old(known)[r], c, want)]
      ensures !ok && !thrown ==> known == old(known) && now - old(now) >= 1000 * timeoutMs
      ensures log == Add(old(log), r, seg) && seg != [] && Last(seg).at == now
      ensures ok <==> TookIt(seg, c)
      ensures timeoutMs > 0 && !ok ==> NotTaken(seg, timeoutMs)
    {
      hide AllFine, Wrote, Confined, MayRaise, NewNumber, WireTag, CommandWords, NeverIdle, BusyAtLast, Add;
      thrown, ok := false, false;
      var t0 := now;
      StartTimer(r);
      seg := [Timer(t0)];
      while true
        invariant World() && now >= t0 && !locked && !ok && known == old(known)
        invariant log == Add(old(log), r, seg) && seg != [] && seg[0] == Timer(t0) && Last(seg).at == now && !Threw(Last(seg))
        invariant !Last(seg).Sent? && (|seg| == 1 ==> now == t0) && (|seg| > 1 ==> BusyAtLast(seg))
        decreases (timeoutMs + 1) * 1000 + t0 - now
      {
        var left := timeoutMs - MsSince(t0);
        if left <= 0 { return; }
        var idle;
        ghost var wait, send;
        thrown, idle, wait := WaitIdle(r, left);
        AddedTwice(old(log), r, seg, wait);
        if !thrown && !idle { BusyStays(seg, wait); }
        seg := seg + wait;
        if thrown || !idle { return; }
        thrown, ok, send := SendIfIdle(r, c, want);
        AddedTwice(old(log), r, seg, send);
        if !thrown && !ok {
          BusyAlone(send);
          BusyStays(seg, send);
        }
        seg := seg + send;
        if thrown || ok { return; }
      }
    }

    /** A reply of n words, read under the lock; a failed read counts as a lost reply. */
    method ReadReply(r: RocId, n: nat) returns (ok: bool, out: seq<Word>, ghost seg: seq<Access>)
      requires World() && r in known && !locked
      modifies `now, `mivs, `locked, `sight, `log
      ensures World() && now > old(now) && !locked
      ensures ok ==> |out| == n && Told(digest, mivs[r], known[r].hope, out)
      ensures log == Add(old(log), r, seg) && seg != [] && Last(seg).at == now && seg[0].Count?
      ensures ok <==> |seg| == 2 && Last(seg).Block? && !Last(seg).thrown && |WordsIn(Last(seg))| == n
      ensures ok ==> out == WordsIn(Last(seg))
      ensures |seg| == 2 ==> Last(seg).Block? && Last(seg).asked == n
      ensures |seg| == 1 ==> seg[0].thrown || Size(seg[0]) != n + 4
      ensures |seg| <= 2
    {
      hide AllFine, WireTag, Told, CountOf, Flat, WholeReplies, Add;
      Lock();
      var thrown, count := ReadCount(r);
      seg := [Count(now, thrown, mivs[r].fifo)];
      if thrown || count != n + 4 {
        Unlock();
        return false, [], seg;
      }
      ghost var fifo;
      thrown, out, fifo := ReadBlock(r, n);
      AddedTwice(old(log), r, seg, [Block(now, thrown, n, fifo)]);
      seg := seg + [Block(now, thrown, n, fifo)];
      Unlock();
      return !thrown && |out| == n, out, seg;
    }

    /** The next tag, whose number no ROC has had. */
    method NextTag() returns (t: Word)
      requires World()
      modifies `tag, `issued
      ensures World() && issued == old(issued) + 1
      ensures t == tag == WireTag(issued) == if old(tag) == 65535 then 1 else old(tag) + 1
      ensures forall r :: r in known ==> known[r].top < issued
    {
      hide AllFine, WireTag;
      IssueFine(digest, isNew, issued, mivs, known);
      NextNumber(issued);
      tag, issued := NextTagOf(tag), issued + 1;
      t := tag;
    }

    /** Two registers for the message that no reply came. */
    method ReadForMessage(r: RocId) returns (thrown: bool, ghost seg: seq<Access>)
      requires World() && r in known
      modifies `now, `mivs, `sight, `log
      ensures World() && now > old(now)
      ensures log == Add(old(log), r, seg) && seg != [] && Last(seg).at == now && (thrown <==> Threw(Last(seg)))
      ensures !thrown ==> |seg| == 2 && Last(seg).Other?
    {
      hide AllFine, WireTag, Add;
      var done, ret;
      thrown, done := ReadDone(r);
      seg := [Done(now, thrown, done)];
      if thrown { return; }
      thrown, ret := ReadOther(r, REG_RETURN);
      AddedTwice(old(log), r, seg, [Other(now, thrown, REG_RETURN, ret)]);
      seg := seg + [Other(now, thrown, REG_RETURN, ret)];
    }

    /** The reply of n words to the tagged command awaited from r; [] if there is none. */
    method CollectTagged(r: RocId, t: Word, n: nat, timeoutMs: int)
      returns (thrown: bool, reply: seq<Word>, ghost seg: seq<Access>)
      requires World() && r in known && !locked && n > 0
      modifies `now, `mivs, `locked, `sight, `log
      ensures World() && now > old(now) && !locked
      ensures thrown ==> reply == []
      ensures reply != [] ==> |reply| == n && reply[0] == t && Told(digest, mivs[r], known[r].hope, reply)
      ensures log == Add(old(log), r, seg)
      ensures if reply != [] then GoodReply(seg, t, n) && reply == WordsIn(Last(seg)) else NoReply(seg, t, n, timeoutMs)
    {
      hide AllFine, WireTag, Told, CountOf, Flat, WholeReplies, Add;
      reply := [];
      var t0 := now;
      StartTimer(r);
      seg := [Timer(t0)];
      while true
        invariant World() && now >= t0 && !locked
        invariant log == Add(old(log), r, seg) && seg != [] && seg[0] == Timer(t0)
        decreases (timeoutMs + 1) * 1000 + t0 - now
      {
        var count;
        thrown, count := ReadCount(r);
        AddedTwice(old(log), r, seg, [Count(now, thrown, mivs[r].fifo)]);
        seg := seg + [Count(now, thrown, mivs[r].fifo)];
        if thrown { return; }
        if count == n + 4 { break; }
        if count > n + 4 { return; }
        if MsSince(t0) > timeoutMs {
          ghost var message;
          thrown, message := ReadForMessage(r);
          AddedTwice(old(log), r, seg, message);
          seg := seg + message;
          return;
        }
        SleepMs(opt.pollMs);
      }
      var ok, words;
      ghost var read;
      ok, words, read := ReadReply(r, n);
      AddedTwice(old(log), r, seg, read);
      seg := seg + read;
      thrown := false;
      if ok && words[0] == t { reply := words; }
    }

    // -------------------------------------------------------------- CRC on several ROCs at once

    /** The command with the next tag. */
    method SendCrc(r: RocId, addr: nat, n: nat) returns (thrown: bool, ok: bool, t: Word, ghost seg: seq<Access>)
      requires World() && !locked && r in known && CrcReady(known[r], addr, n)
      modifies `now, `mivs, `locked, `known, `sight, `tag, `issued, `log
      ensures World() && now >= old(now) && !locked
      ensures OnlyHopes(old(known), known, {r})
      ensures ok ==> !thrown && AwaitsCrc(known[r].hope, addr, n, t)
      ensures log == Add(old(log), r, seg)
      ensures if ok then CrcSent(seg, addr, n, t) else NotTaken(seg, 2000)
    {
      hide AllFine, WireTag, Add, NotTaken, CommandWords;
      t := NextTag();
      thrown, ok, seg := SendWhenIdle(r, Crc(addr, n, issued), 2000, CrcOf(addr, n, issued));
    }

    /** The command goes to every ROC of todo; `tags` are the ones that took it. */
    method SendCrcs(todo: set<RocId>, addr: nat, n: nat) returns (tags: map<RocId, Word>, ghost segs: Log)
      requires World() && !locked && AllCrcReady(known, todo, addr, n)
      modifies `now, `mivs, `locked, `known, `sight, `tag, `issued, `log
      ensures World() && now >= old(now) && !locked
      ensures CrcsAsked(old(known), known, todo, tags, addr, n)
      ensures log == AddAll(old(log), segs) && CrcsSent(segs, todo, tags, addr, n)
    {
      hide AllFine, WireTag, CrcsAsked, AllCrcReady, OnlyHopes, AwaitsCrc, Add, AddAll, NotTaken, CrcSent,
        CrcsSent;
      tags, segs := map[], map[];
      var left, asked := todo, {};
      CrcsAskedStart(known, addr, n);
      NoneAdded(log);
      NoCrcsSent(addr, n);
      while left != {}
        invariant World() && now >= old(now) && !locked && left <= todo && asked == todo - left
        invariant CrcsAsked(old(known), known, asked, tags, addr, n)
        invariant log == AddAll(old(log), segs) && CrcsSent(segs, asked, tags, addr, n)
        decreases |left|
      {
        var r :| r in left;
        left := left - {r};
        ghost var k1 := known;
        StillReady(old(known), known, todo, asked, tags, addr, n, r);
        var thrown, ok, t;
        ghost var seg;
        thrown, ok, t, seg := SendCrc(r, addr, n);
        CrcsAskedOneMore(old(known), k1, known, asked, tags, addr, n, r, ok, t);
        OneMoreCrcSent(old(log), segs, asked, tags, addr, n, r, seg, ok, t);
        if ok { tags := tags[r := t]; }
        asked, segs := asked + {r}, segs[r := seg];
      }
      assert asked == todo;
    }

    method CollectCrc(r: RocId, t: Word, addr: nat, n: nat, want: nat, timeoutMs: int)
      returns (good: bool, ghost seg: seq<Access>)
      requires World() && !locked && r in known && CrcReady(known[r], addr, n) && AwaitsCrc(known[r].hope, addr, n, t)
      modifies `now, `mivs, `locked, `known, `sight, `log
      ensures World() && now >= old(now) && !locked
      ensures Only(old(known), known, {r})
      ensures CrcOutcome(digest, old(known)[r], known[r], good, addr, n, want)
      ensures log == Add(old(log), r, seg)
      ensures if good then CrcGood(seg, t, want) else CrcBad(seg, t, want, timeoutMs)
    {
      hide AllFine, WireTag, CountOf, Flat, WholeReplies, LinkFine, MovedUp, Certified, NoReply, Add;
      var thrown, reply;
      thrown, reply, seg := CollectTagged(r, t, 4, timeoutMs);
      good := reply != [] && reply[3] == 0 && U32(reply[1], reply[2]) == want;
      if good {
        OneFine(digest, isNew, issued, mivs, known, r);
        ghost var k := known[r];
        RaiseFine(digest, r in isNew, issued, mivs[r], k, addr, n);
        SetOneFine(digest, isNew, issued, mivs, known, r, mivs[r], k.(ledger := Raised(k.ledger, mivs[r], addr + n)));
        assert mivs[r := mivs[r]] == mivs;
        known := known[r := k.(ledger := Raised(k.ledger, mivs[r], addr + n))];
      }
    }

    /** `bad`: no CRC, or not the wanted one. */
    method CollectCrcs(tags: map<RocId, Word>, addr: nat, n: nat, want: nat, timeoutMs: int)
      returns (bad: set<RocId>, ghost segs: Log)
      requires World() && !locked && AllCrcReady(known, tags.Keys, addr, n)
      requires forall r :: r in tags ==> AwaitsCrc(known[r].hope, addr, n, tags[r])
      modifies `now, `mivs, `locked, `known, `sight, `log
      ensures World() && now >= old(now) && !locked && bad <= tags.Keys
      ensures CrcOutcomes(digest, old(known), known, tags.Keys, bad, addr, n, want)
      ensures log == AddAll(old(log), segs) && CrcsHeard(segs, tags.Keys, bad, tags, want, timeoutMs)
    {
      hide AllFine, WireTag, CrcOutcomes, CrcOutcome, CrcReady, CrcBad, CrcGood, Add, AddAll, CrcsHeard;
      bad, segs := {}, map[];
      var left, done := tags.Keys, {};
      CrcStart(digest, known, done, addr, n, want);
      NoneAdded(log);
      NoCrcsHeard(bad, tags, want, timeoutMs);
      while left != {}
        invariant World() && now >= old(now) && !locked && AllCrcReady(old(known), tags.Keys, addr, n)
        invariant left <= tags.Keys && done == tags.Keys - left && bad <= done
        invariant CrcOutcomes(digest, old(known), known, done, bad, addr, n, want)
        invariant log == AddAll(old(log), segs) && CrcsHeard(segs, done, bad, tags, want, timeoutMs)
        decreases |left|
      {
        var r :| r in left;
        left := left - {r};
        ghost var k1 := known;
        CrcUntouched(digest, old(known), known, done, bad, addr, n, want, r);
        var ok;
        ghost var seg;
        ok, seg := CollectCrc(r, tags[r], addr, n, want, timeoutMs);
        CrcOneMore(digest, old(known), k1, known, done, bad, addr, n, want, r, ok);
        OneMoreCrcHeard(old(log), segs, done, bad, tags, want, timeoutMs, r, seg, ok);
        done, segs := done + {r}, segs[r := seg];
        if !ok { bad := bad + {r}; }
      }
      assert done == tags.Keys;
    }

    /** CRC of [addr, addr + n) on several ROCs at once, asked again where it did not agree. Every ROC asked
        has an entry, a negative one only after all tries have failed. */
    method ParallelCrc(rs: set<RocId>, addr: nat, n: nat, want: nat, timeoutMs: int,
                       tries: int) returns (good: map<RocId, bool>, ghost segs: Log)
      requires World() && !locked && AllCrcReady(known, rs, addr, n) && tries > 0
      modifies `now, `mivs, `locked, `known, `sight, `tag, `issued, `log
      ensures World() && now >= old(now) && !locked && good.Keys == rs
      ensures CrcOutcomes(digest, old(known), known, rs, Refused(good), addr, n, want)
      ensures log == AddAll(old(log), segs) && Asked(AskCrc(addr, n, want, timeoutMs), tries, segs, rs, Refused(good))
    {
      hide AllFine, WireTag, CrcOutcomes, CrcReady, CrcsSent, CrcsHeard, AskedSoFar, Add, AddAll;
      ghost var q := AskCrc(addr, n, want, timeoutMs);
      good := map r | r in rs :: false;
      segs := map[];
      NoneAdded(log);
      NoneAsked(q, rs);
      var todo, k := rs, 0;
      CrcStart(digest, known, rs, addr, n, want);
      while k < tries && todo != {}
        invariant World() && now >= old(now) && !locked && 0 <= k <= tries
        invariant todo <= rs && good.Keys == rs && (forall r :: r in rs ==> good[r] == (r !in todo))
        invariant CrcOutcomes(digest, old(known), known, rs, todo, addr, n, want)
        invariant log == AddAll(old(log), segs) && AskedSoFar(q, k, segs, rs, todo)
      {
        ghost var k1 := known;
        ghost var s1, s2;
        CrcAgain(digest, old(known), known, rs, todo, addr, n, want);
        var tags, bad;
        tags, s1 := SendCrcs(todo, addr, n);
        ghost var k2 := known;
        HopesKeepReady(k1, k2, todo, addr, n);
        bad, s2 := CollectCrcs(tags, addr, n, want, timeoutMs);
        CrcRound(digest, old(known), k1, k2, known, rs, todo, tags.Keys, bad, addr, n, want);
        assert tags.Keys * bad == bad;
        CrcRoundLog(old(log), segs, s1, s2, rs, todo, tags, bad, q, k);
        segs := AddAll(AddAll(segs, s1), s2);
        good := map r | r in rs :: good[r] || (r in tags && r !in bad);
        todo := (todo - tags.Keys) + bad;
        k := k + 1;
      }
      assert Refused(good) == todo;
      AskedEnough(q, k, tries, segs, rs, todo);
    }

    // -------------------------------------------------------------- one erase or write on several ROCs

    /** The command goes to one ROC, tagged if its MiV knows tags. */
    method SendCommand(r: RocId, cNew: Cmd, cOld: Cmd) returns (ok: bool, t: Word, ghost seg: seq<Access>)
      requires r in known && r in res && CommandReady(known[r], r in isNew, res[r].newMiv, cNew, cOld)
      requires World() && !locked
      modifies `now, `mivs, `locked, `known, `sight, `tag, `issued, `log
      ensures r in known && Only(old(known), known, {r})
      ensures CommandOutcome(old(known)[r], known[r], ok, Chosen(res[r].newMiv, cNew, cOld))
      ensures ok && res[r].newMiv ==> t != 0 && AwaitsResult(known[r].hope, cNew, t)
      ensures World() && now >= old(now) && !locked
      ensures log == Add(old(log), r, seg)
      ensures if ok then CommandTaken(seg, res[r].newMiv, Chosen(res[r].newMiv, cNew, cOld), now, t) else NotTaken(seg, 2000)
    {
      hide AllFine, WireTag, Confined, NotTaken, CommandWords, Add;
      var c := cOld;
      t := 0;
      if res[r].newMiv {
        t := NextTag();
        c := WithNo(cNew, issued);
      }
      TagIsFree(cNew, issued, r in isNew, known[r].ledger);
      var thrown;
      thrown, ok, seg := SendWhenIdle(r, c, 2000, if res[r].newMiv then ResultOf(c) else Nothing);
    }

    /** The command goes to every ROC of rs. `sent`: when it was taken, and its tag. */
    method SendCommands(rs: set<RocId>, cNew: Cmd, cOld: Cmd)
      returns (sent: map<RocId, (nat, Word)>, ghost segs: Log)
      requires World() && !locked && rs <= res.Keys && AllCommandReady(known, rs, isNew, res, cNew, cOld)
      modifies `now, `mivs, `locked, `known, `sight, `tag, `issued, `log
      ensures World() && now >= old(now) && !locked
      ensures CommandsSent(old(known), known, rs, sent, res, cNew, cOld, now)
      ensures log == AddAll(old(log), segs) && CommandSends(segs, rs, sent, res, cNew, cOld)
    {
      hide AllFine, WireTag, CommandsSent, CommandOutcome, CommandReady, AllCommandReady, Only, CommandSends,
        CommandTaken, NotTaken, Add, AddAll;
      sent, segs := map[], map[];
      var left, asked := rs, {};
      CommandsSentStart(known, res, cNew, cOld, now);
      NoneAdded(log);
      NoCommandSends(res, cNew, cOld);
      while left != {}
        invariant World() && now >= old(now) && !locked && left <= rs && asked == rs - left
        invariant CommandsSent(old(known), known, asked, sent, res, cNew, cOld, now)
        invariant log == AddAll(old(log), segs) && CommandSends(segs, asked, sent, res, cNew, cOld)
        decreases |left|
      {
        var r :| r in left;
        left := left - {r};
        ghost var k1, before := known, now;
        NotSentYet(old(known), known, rs, asked, sent, isNew, res, cNew, cOld, now, r);
        var ok, t;
        ghost var seg;
        ok, t, seg := SendCommand(r, cNew, cOld);
        CommandsSentOneMore(old(known), k1, known, asked, sent, res, cNew, cOld, before, now, r, ok, t);
        OneMoreCommandSend(old(log), segs, asked, sent, res, cNew, cOld, r, seg, ok, now, t);
        if ok { sent := sent[r := (now, t)]; }
        asked, segs := asked + {r}, segs[r := seg];
      }
      assert asked == rs;
    }

    /** The reply to a tagged erase or write; `ok` only when it reports success, and then the command with this
        tag is no longer waiting in the MiV. */
    method WaitTaggedResult(r: RocId, t: Word, timeoutMs: int) returns (thrown: bool, ok: bool, ghost seg: seq<Access>)
      requires World() && r in known && !locked
      modifies `now, `mivs, `locked, `sight, `log
      ensures World() && now > old(now) && !locked
      ensures thrown ==> !ok
      ensures ok && known[r].hope.ResultOf? && TagOf(known[r].hope.c) == t ==>
        r in mivs && NotPending(mivs[r], NoOf(known[r].hope.c))
      ensures log == Add(old(log), r, seg)
      ensures if ok then ResultGood(seg, t) else ResultBad(seg, t, timeoutMs)
    {
      hide AllFine, WireTag, CountOf, Flat, WholeReplies, NotPending, Add;
      ok := false;
      var t0 := now;
      StartTimer(r);
      seg := [Timer(t0)];
      while true
        invariant World() && now >= t0 && !locked && !ok
        invariant log == Add(old(log), r, seg) && seg != [] && seg[0] == Timer(t0)
        decreases (timeoutMs + 1) * 1000 + t0 - now
      {
        var count;
        thrown, count := ReadCount(r);
        AddedTwice(old(log), r, seg, [Count(now, thrown, mivs[r].fifo)]);
        seg := seg + [Count(now, thrown, mivs[r].fifo)];
        if thrown { return; }
        if count == 3 + 4 { break; }
        if count > 3 + 4 { return; }
        if MsSince(t0) > timeoutMs {
          ghost var message;
          thrown, message := ReadForMessage(r);
          AddedTwice(old(log), r, seg, message);
          seg := seg + message;
          return;
        }
        SleepMs(opt.pollMs);
      }
      var got, words;
      ghost var read;
      got, words, read := ReadReply(r, 3);
      AddedTwice(old(log), r, seg, read);
      seg := seg + read;
      thrown := false;
      OneFine(digest, isNew, issued, mivs, known, r);
      ok := got && words[0] == t && words[1] == 0;
    }

    /** One look at an older MiV: complete exactly when DONE is set again after it was seen to drop, or after minMs; failed
        when the read fails or the time is over. */
    method PollLegacy(r: RocId, sentAt: nat, timeoutMs: int, minMs: int, sawBusy: bool)
      returns (finished: bool, failed: bool, busy: bool, ghost look: Access)
      requires World() && r in known
      modifies `now, `mivs, `sight, `log
      ensures World() && now > old(now)
      ensures log == Add(old(log), r, [look]) && look.Done? && look.at == now
      ensures finished && !failed <==>
        !look.thrown && look.value >= 0x8000 && (sawBusy || now - sentAt >= 1000 * minMs)
      ensures failed <==> look.thrown || (!(finished && !failed) && Over(now, sentAt, timeoutMs))
      ensures failed ==> finished
      ensures busy <==> sawBusy || (!look.thrown && look.value < 0x8000)
    {
      hide AllFine, WireTag, Add;
      var thrown, d := ReadDone(r);
      look := Done(now, thrown, d);
      busy := sawBusy;
      if thrown { return true, true, busy, look; }
      if d < 0x8000 {
        busy := true;
      } else if sawBusy || MsSince(sentAt) >= minMs {
        return true, false, busy, look;
      }
      if MsSince(sentAt) > timeoutMs { return true, true, busy, look; }
      return false, false, busy, look;
    }

    /** Older MiVs, polled in turn until each is complete, out of time or not answering. */
    method WaitLegacyAll(sent: map<RocId, nat>, timeoutMs: int, minMs: int)
      returns (failed: set<RocId>, ghost segs: Log, ghost low: set<RocId>)
      requires World() && !locked && sent.Keys <= known.Keys && forall r :: r in sent ==> sent[r] <= now
      modifies `now, `mivs, `sight, `log
      ensures World() && now >= old(now) && failed <= sent.Keys
      ensures log == AddAll(old(log), segs) && LegacyWaits(segs, sent, {}, failed, low, timeoutMs, minMs)
    {
      hide AllFine, WireTag, LegacyWaits, Add, AddAll;
      failed, segs := {}, map[];
      var left, sawBusy := sent.Keys, {};
      NoneAdded(log);
      LegacyStarts(sent, timeoutMs, minMs);
      ghost var limit := now + 1000 * (timeoutMs + 1);
      while left != {}
        invariant World() && now >= old(now) && left <= sent.Keys && failed <= sent.Keys
        invariant log == AddAll(old(log), segs) && LegacyWaits(segs, sent, left, failed, sawBusy, timeoutMs, minMs)
        decreases if limit > now then limit - now else 0, |left|
      {
        ghost var round := now;
        var next := left;
        while next != {}
          invariant World() && now >= round && next <= left <= sent.Keys && failed <= sent.Keys
          invariant left - next == {} || round < limit
          invariant now > round || next == left
          invariant log == AddAll(old(log), segs) && LegacyWaits(segs, sent, left, failed, sawBusy, timeoutMs, minMs)
          decreases |next|
        {
          var r :| r in next;
          next := next - {r};
          var finished, fault, busy;
          ghost var look;
          finished, fault, busy, look := PollLegacy(r, sent[r], timeoutMs, minMs, r in sawBusy);
          LegacyLook(old(log), segs, sent, left, failed, sawBusy, timeoutMs, minMs, r, look, finished, fault, busy);
          segs := segs[r := Of(segs, r) + [look]];
          if busy { sawBusy := sawBusy + {r}; }
          if finished { left := left - {r}; }
          if fault { failed := failed + {r}; }
        }
        if left != {} { SleepMs(opt.pollMs); }
      }
      low := sawBusy;
    }

    /** The tagged replies of the new MiVs; `failed`: no reply, or not success. */
    method WaitTaggedAll(sent: map<RocId, (nat, Word)>, timeoutMs: int) returns (failed: set<RocId>, ghost segs: Log)
      requires World() && !locked && sent.Keys <= known.Keys && sent.Keys <= res.Keys
      modifies `now, `mivs, `locked, `sight, `log
      ensures World() && now >= old(now) && !locked && failed <= sent.Keys
      ensures log == AddAll(old(log), segs)
      ensures ResultsHeard(segs, TaggedOf(sent, res), failed, sent, timeoutMs)
    {
      hide AllFine, WireTag, NotPending, ResultsHeard, ResultGood, ResultBad, TaggedOf, Add, AddAll;
      failed, segs := {}, map[];
      var left := TaggedOf(sent, res);
      ghost var all, done := left, {};
      NoneAdded(log);
      NoResults(sent, timeoutMs);
      while left != {}
        invariant World() && now >= old(now) && !locked && left <= all && failed <= done == all - left
        invariant log == AddAll(old(log), segs) && ResultsHeard(segs, done, failed, sent, timeoutMs)
        decreases |left|
      {
        var r :| r in left;
        left := left - {r};
        var thrown, ok;
        ghost var seg;
        thrown, ok, seg := WaitTaggedResult(r, sent[r].1, timeoutMs);
        OneMoreResult(old(log), segs, done, failed, sent, timeoutMs, r, seg, ok);
        done, segs := done + {r}, segs[r := seg];
        if thrown || !ok { failed := failed + {r}; }
      }
      assert done == all;
    }

    /** One erase or write on every ROC of rs that has no error yet: sent to all, then all waited for. */
    method Command(rs: set<RocId>, cNew: Cmd, cOld: Cmd, timeoutMs: int, minMs: int, err: set<RocId>)
      returns (after: set<RocId>, ghost segs: Log)
      requires World() && !locked && rs <= res.Keys && AllCommandReady(known, rs, isNew, res, cNew, cOld)
      modifies `now, `mivs, `locked, `known, `sight, `tag, `issued, `log
      ensures World() && now >= old(now) && !locked && err <= after <= err + rs
      ensures CommandOutcomes(old(known), known, rs - err, rs - after, res, cNew, cOld)
      ensures log == AddAll(old(log), segs)
      ensures CommandsEnded(segs, rs - err, after, res, cNew, cOld, timeoutMs, minMs)
    {
      hide AllFine, WireTag, CommandsSent, CommandOutcomes, CommandReady, CommandSends, ResultsHeard,
        LegacyWaits, CommandsEnded, Add, AddAll;
      var asked := rs - err;
      var sent;
      ghost var s1, s2, s3, low;
      sent, s1 := SendCommands(asked, cNew, cOld);
      CommandsSentParts(old(known), known, asked, sent, res, cNew, cOld, now);
      var tagFails, oldFails;
      tagFails, s2 := WaitTaggedAll(sent, timeoutMs);
      var legacy := map r | r in sent && !res[r].newMiv :: sent[r].0;
      oldFails, s3, low := WaitLegacyAll(legacy, timeoutMs, minMs);
      after := err + (asked - sent.Keys) + tagFails + oldFails;
      CommandFewer(old(known), known, asked, sent.Keys, rs - after, res, cNew, cOld);
      CommandLog(old(log), s1, s2, s3, asked, sent, legacy, tagFails, oldFails, after, res, cNew, cOld, timeoutMs, minMs,
                 low);
      segs := AddAll(AddAll(s1, s2), s3);
    }

    /** A new MiV erases exactly the segment; an older one asked for size 1 erases it and the next block. */
    method EraseSegment(rs: set<RocId>, off: nat) returns (err: set<RocId>, ghost segs: Log)
      requires World() && !locked && rs <= res.Keys
      requires AllCommandReady(known, rs, isNew, res, EraseNew(opt.startAddress + off), EraseOld(opt.startAddress + off))
      modifies `now, `mivs, `locked, `known, `sight, `tag, `issued, `log
      ensures World() && now >= old(now) && !locked && err <= rs
      ensures CommandOutcomes(old(known), known, rs, rs - err, res,
                              EraseNew(opt.startAddress + off), EraseOld(opt.startAddress + off))
      ensures log == AddAll(old(log), segs)
      ensures CommandsEnded(segs, rs, err, res, EraseNew(opt.startAddress + off), EraseOld(opt.startAddress + off),
                            opt.eraseTimeoutMs, opt.legacyEraseMinMs)
    {
      hide AllFine, WireTag, CommandOutcomes, AllCommandReady, CommandsEnded, AddAll;
      assert rs - {} == rs;
      var addr := opt.startAddress + off;
      err, segs := Command(rs, EraseNew(addr), EraseOld(addr), opt.eraseTimeoutMs, opt.legacyEraseMinMs, {});
    }

    /** The segment goes out in records of at most 512 words, in order, each to every ROC that has no error. */
    method WriteSegment(rs: set<RocId>, off: nat, len: nat, err: set<RocId>) returns (after: set<RocId>, ghost segs: Log)
      requires off + len <= |image| && len % 2 == 0
      requires rs <= res.Keys && Writable(known, rs, isNew, res, opt.startAddress + off, opt.startAddress + off + len)
      requires World() && !locked
      modifies `now, `mivs, `locked, `known, `sight, `tag, `issued, `log
      ensures err <= after <= err + rs
      ensures WriteOutcomes(old(known), known, rs, rs - after,
                            Records(image, opt.startAddress, off, len, RecordCount(len)))
      ensures World() && now >= old(now) && !locked
      ensures log == AddAll(old(log), segs) && segs.Keys <= rs - err
      ensures WritesEnded(segs, rs, err, after, res, opt, image, off, len)
    {
      hide AllFine, WireTag, CommandOutcomes, AllCommandReady, WriteOutcomes, Writable, Record, Records, WordsOf,
        RecordCount, CommandsEnded, WritesEnded, AddAll;
      NoRecords(image, opt.startAddress, off, len);
      after, segs := err, map[];
      var rec, k := 0, 0;
      WriteStart(known, rs, rs - after, Records(image, opt.startAddress, off, len, 0));
      NoneAdded(log);
      NoWrites(rs, err, res, opt, image, off, len);
      while rec < len
        invariant World() && now >= old(now) && !locked && err <= after <= err + rs
        invariant rec == RECORD * k && k <= RecordCount(len) && (rec < len <==> k < RecordCount(len))
        invariant WriteOutcomes(old(known), known, rs, rs - after, Records(image, opt.startAddress, off, len, k))
        invariant log == AddAll(old(log), segs) && segs.Keys <= rs - err
        invariant WritesEnded(segs, rs, err, after, res, opt, image, off, len)
        decreases len - rec
      {
        ghost var k1, was := known, after;
        NextRecord(image, opt.startAddress, off, len, k);
        var n := Min(1024, len - rec);
        var c := Write(opt.startAddress + off + rec, WordsOf(image, off + rec, n), 0);
        RecordReady(old(known), known, rs, was, isNew, res, image, opt.startAddress, off, len, k);
        ghost var more;
        after, more := Command(rs, c, c, opt.writeTimeoutMs, opt.legacyWriteMinMs, after);
        RecordJoins(old(known), k1, known, rs, was, after, res, image, opt.startAddress, off, len, k);
        EndedOn(more, rs - was, after, res, c, opt.writeTimeoutMs, opt.legacyWriteMinMs);
        RecordLog(old(log), segs, more, rs, err, was, after, res, opt, image, off, len, k);
        segs := AddAll(segs, more);
        rec, k := rec + 1024, k + 1;
      }
    }

    // -------------------------------------------------------------- verification by read-back

    /** A reply to the awaited read is there. */
    ghost method NoteAnswer(r: RocId)
      requires World() && r in mivs && r in known && known[r].hope.ReadOf? && CountRegister(mivs[r]) != 0
      modifies `known
      ensures World() && known == old(known)[r := old(known)[r].(due := false)]
    {
      hide AllFine, WireTag, LinkFine, CountOf, Flat, WholeReplies;
      OneFine(digest, isNew, issued, mivs, known, r);
      AnswerSeen(digest, r in isNew, issued, mivs[r], known[r]);
      SetOneFine(digest, isNew, issued, mivs, known, r, mivs[r], known[r].(due := false));
      assert mivs[r := mivs[r]] == mivs;
      known := known[r := known[r].(due := false)];
    }

    /** The reply shows the piece of the image that was asked for. */
    ghost method NoteEqual(r: RocId, off: nat, n: nat, w: seq<Word>)
      requires 0 < n && n % 2 == 0 && off + n <= |image| && w == WordsOf(image, off, n)
      requires World() && r in mivs && r in known && Awaits(known[r].hope, opt.startAddress + off, n)
      requires Told(digest, mivs[r], known[r].hope, w)
      modifies `known
      ensures World() && known == old(known)[r := SeenMore(old(known)[r], image[off..off + n])]
    {
      hide AllFine, WireTag, LinkFine;
      OneFine(digest, isNew, issued, mivs, known, r);
      SeenFine(digest, r in isNew, issued, mivs[r], known[r], image, off);
      SetOneFine(digest, isNew, issued, mivs, known, r, mivs[r], SeenMore(known[r], image[off..off + n]));
      assert mivs[r := mivs[r]] == mivs;
      known := known[r := SeenMore(known[r], image[off..off + n])];
    }

    /** Until REG_COUNT shows the reply of a piece. */
    method WaitPiece(r: RocId, n: nat) returns (thrown: bool, there: bool, ghost seg: seq<Access>)
      requires 0 < n && n % 2 == 0 && r in known && known[r].hope.ReadOf?
      requires World() && !locked
      modifies `now, `mivs, `known, `sight, `log
      ensures r in known && known == old(known)[r := old(known)[r].(due := known[r].due)]
      ensures World() && now >= old(now) && !locked
      ensures log == Add(old(log), r, seg) && |seg| > 1 && seg[0].Timer? && (there ==> !thrown && Came(Last(seg), n / 2))
      ensures thrown <==> Threw(Last(seg))
      ensures !thrown && !there ==> Last(seg).Count? && Size(Last(seg)) != n / 2 + 4
                                    && Over(Last(seg).at, seg[0].at, opt.readTimeoutMs)
    {
      hide AllFine, WireTag, CountOf, Flat, WholeReplies, LinkFine, OwnFifo, Add;
      there := false;
      var t0 := now;
      StartTimer(r);
      seg := [Timer(t0)];
      while true
        invariant World() && now >= t0 && !locked && known == old(known)
        invariant log == Add(old(log), r, seg) && seg != [] && seg[0] == Timer(t0)
        decreases (opt.readTimeoutMs + 1) * 1000 + t0 - now
      {
        var count;
        thrown, count := ReadCount(r);
        AddedTwice(old(log), r, seg, [Count(now, thrown, mivs[r].fifo)]);
        seg := seg + [Count(now, thrown, mivs[r].fifo)];
        if thrown { return; }
        if count == n / 2 + 4 {
          NoteAnswer(r);
          there := true;
          return;
        }
        if MsSince(t0) > opt.readTimeoutMs { return; }
        SleepMs(opt.pollMs);
      }
    }

    /** The reply of the piece already requested, compared word by word with the image. */
    method CollectPiece(r: RocId, off: nat, n: nat) returns (thrown: bool, equal: bool, ghost seg: seq<Access>)
      requires 0 < n && n % 2 == 0 && off + n <= |image|
      requires r in known && Awaits(known[r].hope, opt.startAddress + off, n)
      requires World() && !locked
      modifies `now, `mivs, `locked, `known, `sight, `log
      ensures Only(old(known), known, {r}) && (thrown ==> !equal)
      ensures PieceKnown(old(known)[r], known, r, equal, image[off..off + n])
      ensures World() && now >= old(now) && !locked
      ensures log == Add(old(log), r, seg)
      ensures if equal then PieceShown(seg, WordsOf(image, off, n), n)
              else PieceMissed(seg, WordsOf(image, off, n), n, opt.readTimeoutMs)
    {
      hide AllFine, WireTag, CountOf, Flat, WholeReplies, LinkFine, WordsOf, Told, OwnFifo, Pack, Add;
      equal := false;
      var there;
      thrown, there, seg := WaitPiece(r, n);
      if thrown || !there { return; }
      var ok, w;
      ghost var read;
      ok, w, read := ReadReply(r, n / 2);
      AddedTwice(old(log), r, seg, read);
      seg := seg + read;
      if !ok {
        if Last(seg).Block? { NotEqualSize(WordsIn(Last(seg)), image, off, n); }
        return;
      }
      equal := SameWords(w, off, n);
      OneFine(digest, isNew, issued, mivs, known, r);
      if equal { NoteEqual(r, off, n, w); }
    }

    method SameWords(w: seq<Word>, off: nat, n: nat) returns (equal: bool)
      requires n % 2 == 0 && off + n <= |image| && |w| == n / 2
      ensures equal <==> w == WordsOf(image, off, n)
    {
      hide WordsOf, Pack;
      ghost var want := WordsOf(image, off, n);
      var i := 0;
      ghost var j := 0;
      while i < n
        invariant i == 2 * j && 0 <= j <= |w|
        invariant w[..j] == want[..j]
        decreases n - i
      {
        var k := off + i;
        var exp := Pack(image[k], if k + 1 < |image| then image[k + 1] else 0xFF);
        WordAt(image, off, n, j);
        if i / 2 >= |w| || w[i / 2] != exp { return false; }
        assert w[..j + 1] == w[..j] + [w[j]] && want[..j + 1] == want[..j] + [want[j]];
        i, j := i + 2, j + 1;
      }
      assert w[..j] == w && want[..j] == want;
      return true;
    }

    method SendRead(r: RocId, addr: nat, n: nat, ghost base: nat, ghost had: seq<Byte>)
      returns (ok: bool, ghost seg: seq<Access>)
      requires 0 < n && n % 2 == 0 && addr + n <= FLASH_SIZE && base <= FLASH_SIZE
      requires r in known && Tracks(known[r], base, had)
      requires World() && !locked
      modifies `now, `mivs, `locked, `known, `sight, `log
      ensures Only(old(known), known, {r}) && ReadOnly(old(known)[r], known[r])
      ensures Tracks(known[r], base, had)
      ensures ok ==> known[r].hope == ReadOf(addr, n, base, had)
      ensures World() && now >= old(now) && !locked
      ensures log == Add(old(log), r, seg)
      ensures if ok then TookIt(seg, Read(addr, n)) else NotTaken(seg, 2000)
    {
      hide AllFine, WireTag, NotTaken, CommandWords, Add;
      var thrown;
      thrown, ok, seg := SendWhenIdle(r, Read(addr, n), 2000, ReadOf(addr, n, base, had));
    }

    method SendReads(todo: set<RocId>, addr: nat, n: nat, ghost base: nat, ghost had: seq<Byte>, ghost q: Ask)
      returns (sent: set<RocId>, ghost segs: Log)
      requires 0 < n && n % 2 == 0 && addr + n <= FLASH_SIZE && base <= FLASH_SIZE
      requires AllTrack(known, todo, base, had) && q.AskRead? && q.addr == addr && q.bytes == n
      requires World() && !locked
      modifies `now, `mivs, `locked, `known, `sight, `log
      ensures sent <= todo && ReadOutcomes(old(known), known, todo, base, todo, had, had)
      ensures AllHope(known, sent, ReadOf(addr, n, base, had))
      ensures World() && now >= old(now) && !locked
      ensures log == AddAll(old(log), segs) && SentTo(q, segs, todo, sent)
    {
      hide AllFine, WireTag, ReadOutcomes, ReadOnly, SentTo, NotTaken, TookIt, AllHope, Add, AddAll;
      sent, segs := {}, map[];
      var left, asked := todo, {};
      ReadStart(known, asked, base, had, had);
      NoneAdded(log);
      NoneSent(q);
      NoHopes(known, ReadOf(addr, n, base, had));
      while left != {}
        invariant World() && now >= old(now) && !locked && left <= todo && asked == todo - left && sent <= asked
        invariant ReadOutcomes(old(known), known, asked, base, asked, had, had) && asked <= known.Keys
        invariant AllHope(known, sent, ReadOf(addr, n, base, had))
        invariant log == AddAll(old(log), segs) && SentTo(q, segs, asked, sent)
        decreases |left|
      {
        var r :| r in left;
        left := left - {r};
        ghost var k1 := known;
        ReadUntouched(old(known), known, asked, base, asked, had, had, r);
        assert Tracks(known[r], base, had);
        var ok;
        ghost var seg;
        ok, seg := SendRead(r, addr, n, base, had);
        HopesMore(k1, known, sent, ReadOf(addr, n, base, had), r, ok);
        ReadOneMore(old(known), k1, known, asked, base, asked, had, had, r, false);
        OneMoreSent(old(log), segs, asked, sent, q, r, seg, ok);
        if ok { sent := sent + {r}; }
        asked, segs := asked + {r}, segs[r := seg];
      }
      assert asked == todo;
    }

    method CollectPieces(sent: set<RocId>, off: nat, n: nat, ghost base: nat, ghost had: seq<Byte>)
      returns (bad: set<RocId>, ghost segs: Log)
      requires 0 < n && n % 2 == 0 && off + n <= |image| && opt.startAddress + off == base + |had|
      requires AllTrack(known, sent, base, had) && AllHope(known, sent, ReadOf(opt.startAddress + off, n, base, had))
      requires World() && !locked
      modifies `now, `mivs, `locked, `known, `sight, `log
      ensures bad <= sent && ReadOutcomes(old(known), known, sent, base, bad, had, had + image[off..off + n])
      ensures World() && now >= old(now) && !locked
      ensures log == AddAll(old(log), segs)
      ensures PiecesHeard(segs, sent, bad, WordsOf(image, off, n), n, opt.readTimeoutMs)
    {
      hide *;
      bad, segs := {}, map[];
      var left := sent;
      ghost var done, addr, ms := {}, opt.startAddress + off, opt.readTimeoutMs;
      ghost var piece, want := image[off..off + n], WordsOf(image, off, n);
      CollectedStart(known, sent, addr, n, base, had, piece, want, ms);
      NoneAdded(log);
      while left != {}
        invariant World() && now >= old(now) && !locked && left <= sent && done == sent - left
        invariant log == AddAll(old(log), segs)
        invariant Collected(old(known), known, segs, sent, done, bad, addr, n, base, had, piece, want, ms)
        decreases |left|
      {
        var r :| r in left;
        left := left - {r};
        ghost var k1 := known;
        CollectedNext(old(known), known, segs, sent, done, bad, addr, n, base, had, piece, want, ms, r);
        var thrown, equal;
        ghost var seg;
        thrown, equal, seg := CollectPiece(r, off, n);
        CollectedOneMore(old(log), old(known), k1, known, segs, sent, done, bad, addr, n, base, had, piece, want, ms, r,
                         equal, seg);
        if !equal { bad := bad + {r}; }
        done, segs := done + {r}, segs[r := seg];
      }
      assert done == sent;
      CollectedAll(old(known), known, segs, sent, bad, addr, n, base, had, piece, want, ms);
    }

    /** One piece, asked up to four times; `bad`: the ROCs that never returned the bytes of the image. */
    method VerifyPiece(todo: set<RocId>, off: nat, n: nat, ghost base: nat, ghost had: seq<Byte>)
      returns (bad: set<RocId>, ghost segs: Log)
      requires 0 < n && n % 2 == 0 && off + n <= |image| && opt.startAddress + off == base + |had|
      requires opt.startAddress + |image| <= FLASH_SIZE && todo <= known.Keys && AllTrack(known, todo, base, had)
      requires World() && !locked
      modifies `now, `mivs, `locked, `known, `sight, `log
      ensures bad <= todo && ReadOutcomes(old(known), known, todo, base, bad, had, had + image[off..off + n])
      ensures World() && now >= old(now) && !locked
      ensures log == AddAll(old(log), segs)
      ensures Asked(AskRead(opt.startAddress + off, n, WordsOf(image, off, n), opt.readTimeoutMs), 4, segs, todo, bad)
    {
      hide AllFine, WireTag, ReadOutcomes, AllTrack, SentTo, PiecesHeard, AskedSoFar, WordsOf, Add, AddAll;
      bad, segs := todo, map[];
      ghost var seen, q := had + image[off..off + n],
        AskRead(opt.startAddress + off, n, WordsOf(image, off, n), opt.readTimeoutMs);
      ReadStart(known, todo, base, had, seen);
      NoneAdded(log);
      NoneAsked(q, todo);
      var k := 0;
      while k < 4 && bad != {}
        invariant World() && now >= old(now) && !locked && bad <= todo && 0 <= k <= 4
        invariant ReadOutcomes(old(known), known, todo, base, bad, had, seen)
        invariant log == AddAll(old(log), segs) && AskedSoFar(q, k, segs, todo, bad)
      {
        ghost var k1, was := known, bad;
        ghost var s1, s2;
        ReadTracks(old(known), k1, todo, base, bad, had, seen);
        var sent, wrong;
        sent, s1 := SendReads(bad, opt.startAddress + off, n, base, had, q);
        ghost var k2 := known;
        SentTracks(k1, k2, was, base, had, sent);
        wrong, s2 := CollectPieces(sent, off, n, base, had);
        bad := (bad - sent) + wrong;
        ReadRound(k1, k2, known, was, base, sent, wrong, had, seen);
        ReadAgain(old(known), k1, known, todo, base, was, bad, had, seen);
        PieceRoundLog(old(log), segs, s1, s2, todo, was, sent, wrong, q, k);
        segs := AddAll(AddAll(segs, s1), s2);
        k := k + 1;
      }
      AskedEnough(q, k, 4, segs, todo, bad);
    }

    /** The segment read back piece by piece; `bad`: not shown equal to the image. What was shown is
        verified, unless the answers were mixed up. */
    method ReadBack(rs: set<RocId>, off: nat, len: nat) returns (bad: set<RocId>, ghost segs: Log)
      requires 0 < len && len % 2 == 0 && off + len <= |image| && opt.startAddress + |image| <= FLASH_SIZE
      requires rs <= res.Keys && Readable(known, rs, opt.startAddress + off, len)
      requires World() && !locked
      modifies `now, `mivs, `locked, `known, `sight, `log
      ensures bad <= rs && ReadBackOutcomes(old(known), known, rs, bad, image[off..off + len])
      ensures World() && now >= old(now) && !locked
      ensures log == AddAll(old(log), segs) && PiecesEnded(segs, rs, bad, opt, image, off, len)
    {
      hide AllFine, WireTag, ReadOutcomes, ReadBackOutcomes, AllTrack, PiecesEnded, Asked, PieceAsk, AddAll;
      var piece: PieceSize := if exists r :: r in rs && res[r].readBytes == 508 then 508 else 1016;
      var p, rest := 0, rs;
      segs := map[];
      ghost var base := opt.startAddress + off;
      AllTrackNothing(known, rs, base);
      assert image[off..off] == [];
      ReadStart(known, rs, base, [], image[off..off]);
      ReadNone(known, rs, base, image[off..off]);
      NoneAdded(log);
      NoPieces(rs, opt, image, off, len);
      while p < len && rest != {}
        invariant World() && now >= old(now) && !locked && rest <= rs && 0 <= p && p % 2 == 0
        invariant ReadOutcomes(old(known), known, rs, base, rs - rest, [], image[off..off + Min(p, len)])
        invariant log == AddAll(old(log), segs) && PiecesEnded(segs, rs, rs - rest, opt, image, off, len)
        decreases if p < len then len - p else 0
      {
        var n := Min(piece, len - p) + Min(piece, len - p) % 2;
        PieceLength(p, piece, len);
        ghost var k1, had, seen := known, image[off..off + p], image[off..off + Min(p + piece, len)];
        ghost var more;
        SlicesJoin(image, off, off + p, off + p + n);
        ReadRest(old(known), known, rs, rest, base, had);
        bad, more := VerifyPiece(rest, off + p, n, base, had);
        PieceJoins(old(known), k1, known, rs, rest, base, bad, had, seen);
        PieceLogAt(old(log), segs, more, rs, rest, bad, opt, image, off, len, p, n);
        segs := AddAll(segs, more);
        rest := rest - bad;
        p := p + piece;
      }
      bad := rs - rest;
      if rest == {} {
        NoneLeft(old(known), known, rs, rest, base, image[off..off + Min(p, len)], image[off..off + len]);
      }
      RaiseAll(digest, isNew, issued, mivs, old(known), known, rs, rest, base, image[off..off + len]);
      known := RaisedAll(known, rest, image[off..off + len]);
    }

    /** The ROCs of rs that have no error yet verify the segment: by CRC or by read-back. */
    method VerifySegment(rs: set<RocId>, off: nat, len: nat, err: set<RocId>)
      returns (after: set<RocId>, ghost segs: Log)
      requires 0 < len && len % 2 == 0 && off + len <= |image| && opt.startAddress + |image| <= FLASH_SIZE
      requires rs <= res.Keys && Verifiable(known, rs - err, res, opt.startAddress + off, len)
      requires World() && !locked
      modifies `now, `mivs, `locked, `known, `sight, `tag, `issued, `log
      ensures err <= after <= err + rs
      ensures VerifyOutcomes(digest, old(known), known, rs - err, res, after, opt.startAddress + off,
                             image[off..off + len])
      ensures World() && now >= old(now) && !locked
      ensures log == AddAll(old(log), segs) && VerifyEnded(segs, rs - err, after, res, opt, image, digest, off, len)
    {
      hide AllFine, WireTag, VerifyOutcomes, Verifiable, CrcOutcomes, ReadBackOutcomes, Asked, PiecesEnded,
        VerifyEnded, AddAll;
      var addr := opt.startAddress + off;
      var crcRocs := set r | r in rs && r !in err && res[r].newMiv;
      var rbRocs := set r | r in rs && r !in err && !res[r].newMiv;
      ghost var k0, content := known, image[off..off + len];
      ghost var s1, s2;
      VerifyParts(k0, rs - err, res, addr, len, crcRocs, rbRocs);
      var good, bad;
      good, s1 := ParallelCrc(crcRocs, addr, len, digest(image[off..off + len]), opt.crcSegmentTimeoutMs, 2);
      ghost var k1 := known;
      CrcLeavesRest(digest, k0, k1, crcRocs, Refused(good), addr, len, digest(content), rbRocs);
      bad, s2 := ReadBack(rbRocs, off, len);
      after := err + Refused(good) + bad;
      VerifyJoins(digest, k0, k1, known, rs - err, res, crcRocs, rbRocs, Refused(good), bad, after, addr,
        content);
      VerifyLog(old(log), s1, s2, rs - err, crcRocs, rbRocs, Refused(good), bad, after, res, opt, image, digest, off, len);
      segs := AddAll(s1, s2);
    }

    // -------------------------------------------------------------- preflight and probing

    /** Nothing is sent before this passes; an image of odd length is padded with one erased byte. */
    method Preflight() returns (passed: bool)
      modifies `image
      ensures passed <==> Acceptable(opt, sha256hex, old(image))
      ensures image == old(image) || image == Even(old(image))
      ensures passed ==> image == Even(old(image))
    {
      if |opt.expectedSha256| != 64 { return false; }
      if image == [] { return false; }
      var sha, want := sha256hex(image), Lower(opt.expectedSha256);
      if sha != want { return false; }
      if opt.startAddress % 0x10000 != 0 { return false; }
      if opt.startAddress < opt.protectedBelow { return false; }
      if opt.writeImage && opt.maxSegmentAttempts <= 0 { return false; }
      if |image| % 2 != 0 { image := image + [0xFF]; }
      var paddedBytes := (|image| + 0x10000 - 1) / 0x10000 * 0x10000;
      var footprintEnd := opt.startAddress + paddedBytes + 0x10000;
      if footprintEnd > 0x1_0000_0000 { return false; }
      if opt.flashBytes != 0 && footprintEnd > opt.flashBytes { return false; }
      return true;
    }

    /** A CRC of two bytes is asked from the ROC once it is idle. */
    method ProbeSend(r: RocId) returns (ok: bool, t: Word, ghost seg: seq<Access>)
      requires r in known && CrcReady(known[r], opt.startAddress, 2)
      requires World() && !locked
      modifies `now, `mivs, `locked, `known, `sight, `tag, `issued, `log
      ensures OnlyHopes(old(known), known, {r})
      ensures ok ==> AwaitsCrc(known[r].hope, opt.startAddress, 2, t)
      ensures World() && now >= old(now) && !locked
      ensures log == Add(old(log), r, seg)
      ensures if ok then CrcSent(seg, opt.startAddress, 2, t) else NotProbed(seg)
    {
      hide AllFine, WireTag, NotTaken, NeverIdle, BusyAtLast, Add;
      ok, t := false, 0;
      var thrown, idle;
      thrown, idle, seg := WaitIdle(r, 3000);
      if thrown { return; }
      if !idle {
        var done;
        thrown, done := ReadDone(r);
        AddedTwice(old(log), r, seg, [Done(now, thrown, done)]);
        NeverIdleLong(seg, Done(now, thrown, done));
        seg := seg + [Done(now, thrown, done)];
        return;
      }
      ghost var send;
      thrown, ok, t, send := SendCrc(r, opt.startAddress, 2);
      AddedTwice(old(log), r, seg, send);
      if !ok { NotTakenAfter(seg, send); }
      seg := seg + send;
    }

    method ProbeSendAll() returns (tags: map<RocId, Word>, ghost segs: Log)
      requires rocs <= known.Keys && AllCrcReady(known, rocs, opt.startAddress, 2)
      requires World() && !locked
      modifies `now, `mivs, `locked, `known, `sight, `tag, `issued, `log
      ensures CrcsAsked(old(known), known, rocs, tags, opt.startAddress, 2)
      ensures World() && now >= old(now) && !locked
      ensures log == AddAll(old(log), segs) && ProbesSent(segs, rocs, tags, opt.startAddress)
    {
      hide AllFine, WireTag, CrcsAsked, AllCrcReady, OnlyHopes, AwaitsCrc, CrcSent, NotProbed, ProbesSent, Add, AddAll;
      tags, segs := map[], map[];
      var left, asked := rocs, {};
      CrcsAskedStart(known, opt.startAddress, 2);
      NoneAdded(log);
      NoProbesSent(opt.startAddress);
      while left != {}
        invariant World() && now >= old(now) && !locked && left <= rocs && asked == rocs - left
        invariant CrcsAsked(old(known), known, asked, tags, opt.startAddress, 2)
        invariant log == AddAll(old(log), segs) && ProbesSent(segs, asked, tags, opt.startAddress)
        decreases |left|
      {
        var r :| r in left;
        left := left - {r};
        ghost var k1 := known;
        StillReady(old(known), known, rocs, asked, tags, opt.startAddress, 2, r);
        var ok, t;
        ghost var seg;
        ok, t, seg := ProbeSend(r);
        CrcsAskedOneMore(old(known), k1, known, asked, tags, opt.startAddress, 2, r, ok, t);
        OneMoreProbe(old(log), segs, asked, tags, opt.startAddress, r, seg, ok, t);
        if ok { tags := tags[r := t]; }
        asked, segs := asked + {r}, segs[r := seg];
      }
      assert asked == rocs;
    }

    /** A ROC that answers with its tag and without error has a new MiV. */
    method ProbeHear(r: RocId, t: Word) returns (answered: bool, newMiv: bool, ghost seg: seq<Access>)
      requires r in known && AwaitsCrc(known[r].hope, opt.startAddress, 2, t)
      requires World() && !locked
      modifies `now, `mivs, `locked, `sight, `log
      ensures newMiv ==> answered && r in isNew
      ensures World() && now > old(now) && !locked
      ensures log == Add(old(log), r, seg) && seg != [] && seg[0].Count?
      ensures (answered <==> Came(seg[0], 4)) && (!answered ==> |seg| == 1)
      ensures newMiv <==> answered && GoodReply(seg, t, 4) && WordsIn(Last(seg))[3] == 0
    {
      hide AllFine, WireTag, CountOf, Flat, WholeReplies, Add;
      answered, newMiv := false, false;
      var thrown, count := ReadCount(r);
      seg := [Count(now, thrown, mivs[r].fifo)];
      if !thrown && count == 4 + 4 {
        answered := true;
        var ok, rp;
        ghost var read;
        ok, rp, read := ReadReply(r, 4);
        AddedTwice(old(log), r, seg, read);
        seg := seg + read;
        OneFine(digest, isNew, issued, mivs, known, r);
        newMiv := ok && rp[0] == t && rp[3] == 0;
      }
    }

    /** All that took the question are looked at in turn, until each has answered or for a second. */
    method ProbeHearAll(tags: map<RocId, Word>)
      returns (found: set<RocId>, ghost answered: set<RocId>, ghost segs: Log)
      requires tags.Keys <= known.Keys && forall r :: r in tags ==> AwaitsCrc(known[r].hope, opt.startAddress, 2, tags[r])
      requires World() && !locked
      modifies `now, `mivs, `locked, `sight, `log
      ensures found <= tags.Keys && found <= isNew
      ensures World() && now >= old(now) && !locked
      ensures log == AddAll(old(log), segs) && ProbesHeard(segs, tags, answered, found)
      ensures answered == tags.Keys || now - old(now) >= 1_000_000
    {
      hide AllFine, WireTag, AwaitsCrc, ProbesHeard, GoodReply, Came, CountOf, Flat, WholeReplies, Add, AddAll;
      found, segs := {}, map[];
      var t0, heard := now, {};
      NoneAdded(log);
      NoProbesHeard(tags);
      while MsSince(t0) < 1000 && heard != tags.Keys
        invariant World() && now >= t0 && !locked && heard <= tags.Keys && found <= heard && found <= isNew
        invariant log == AddAll(old(log), segs) && ProbesHeard(segs, tags, heard, found)
        decreases 1000 * 1000 + t0 - now
      {
        ghost var round := now;
        var left := tags.Keys - heard;
        while left != {}
          invariant World() && now >= round && !locked && heard <= tags.Keys && found <= heard && found <= isNew
          invariant left <= tags.Keys - heard
          invariant log == AddAll(old(log), segs) && ProbesHeard(segs, tags, heard, found)
          decreases |left|
        {
          var r :| r in left;
          left := left - {r};
          var now1, newMiv;
          ghost var seg;
          now1, newMiv, seg := ProbeHear(r, tags[r]);
          OneMoreHeard(old(log), segs, tags, heard, found, r, seg, now1, newMiv);
          segs := segs[r := Of(segs, r) + seg];
          if now1 { heard := heard + {r}; }
          if newMiv { found := found + {r}; }
        }
        SleepMs(opt.pollMs);
      }
      answered := heard;
    }

    /** The answer to the probing read; 0 if none of a known size was there in time, or it has gone again. */
    method ProbeReadSize(r: RocId) returns (thrown: bool, count: Word, ghost seg: seq<Access>)
      requires r in known && known[r].hope.ReadOf?
      requires World() && !locked
      modifies `now, `mivs, `known, `sight, `log
      ensures r in known && known == old(known)[r := old(known)[r].(due := known[r].due)]
      ensures World() && now >= old(now) && !locked
      ensures log == Add(old(log), r, seg) && seg != [] && (thrown <==> Threw(Last(seg)))
      ensures !thrown && (count == 512 || count == 258) ==> SizeKnown(Last(seg)) && Size(Last(seg)) == count
      ensures !thrown && count != 512 && count != 258 ==>
        || (Last(seg).Count? && !SizeKnown(Last(seg)) && |seg| > 1 && SizeKnown(seg[|seg| - 2]))
        || (Last(seg).Timer? && |seg| > 1 && seg[0].Timer? && Last(seg).at - seg[0].at >= 1000 * opt.readTimeoutMs
            && forall j :: 0 < j < |seg| - 1 ==> !SizeKnown(seg[j]))
    {
      hide AllFine, WireTag, CountOf, Flat, WholeReplies, LinkFine, OwnFifo, Add;
      thrown, count := false, 0;
      var t0 := now;
      StartTimer(r);
      seg := [Timer(t0)];
      while MsSince(t0) < opt.readTimeoutMs
        invariant World() && now >= t0 && !locked && known == old(known) && count != 512 && count != 258 && !thrown
        invariant log == Add(old(log), r, seg) && seg != [] && seg[0] == Timer(t0)
        invariant forall j :: 0 < j < |seg| ==> !SizeKnown(seg[j])
        decreases 1000 * opt.readTimeoutMs + t0 - now
      {
        thrown, count := ReadCount(r);
        AddedTwice(old(log), r, seg, [Count(now, thrown, mivs[r].fifo)]);
        seg := seg + [Count(now, thrown, mivs[r].fifo)];
        if thrown { return; }
        if count == 508 + 4 || count == 254 + 4 {
          NoteAnswer(r);
          SleepMs(5);
          thrown, count := ReadCount(r);
          AddedTwice(old(log), r, seg, [Count(now, thrown, mivs[r].fifo)]);
          seg := seg + [Count(now, thrown, mivs[r].fifo)];
          return;
        }
        SleepMs(opt.pollMs);
      }
      StartTimer(r);
      AddedTwice(old(log), r, seg, [Timer(now)]);
      seg := seg + [Timer(now)];
    }

    /** Read-back piece of an older MiV, from the length of its answer; None: it must be failed. */
    method ProbeLegacyReadSize(r: RocId) returns (size: Option<PieceSize>, ghost seg: seq<Access>)
      requires r in known && opt.startAddress + 1016 <= FLASH_SIZE
      requires World() && !locked
      modifies `now, `mivs, `locked, `known, `sight, `log
      ensures Only(old(known), known, {r}) && ReadOnly(old(known)[r], known[r])
      ensures World() && now >= old(now) && !locked
      ensures log == Add(old(log), r, seg)
      ensures if size.Some? then SizeShown(seg, size.value) else SizeUnknown(seg, opt.readTimeoutMs)
    {
      hide AllFine, WireTag, CountOf, Flat, WholeReplies, NotTaken, NeverIdle, BusyAtLast, CommandWords, Add;
      size := None;
      var thrown, ok;
      ghost var more;
      thrown, ok, seg := WaitIdle(r, 2000);
      if thrown { return; }
      thrown, ok, more := SendWhenIdle(r, Read(opt.startAddress, 1016), 2000,
                                       ReadOf(opt.startAddress, 1016, opt.startAddress, []));
      AddedTwice(old(log), r, seg, more);
      if thrown || !ok {
        SizeNotTaken(seg, more, opt.readTimeoutMs);
        seg := seg + more;
        return;
      }
      seg := seg + more;
      var count;
      thrown, count, more := ProbeReadSize(r);
      AddedTwice(old(log), r, seg, more);
      if !thrown && Last(more).Timer? { SizeTooLateAt(seg, more, opt.readTimeoutMs); }
      ghost var before := seg + more[..|more| - 1];
      assert seg + more == before + [Last(more)];
      seg := seg + more;
      if thrown { return; }
      if count == 508 + 4 {
        size := Some(1016);
      } else if count == 254 + 4 {
        size := Some(508);
      } else {
        return;
      }
      ghost var answer := Last(more);
      thrown, ok, more := WaitIdle(r, 2000);
      AddedTwice(old(log), r, seg, more);
      SizeSeen(before, answer, more, size.value);
      seg := seg + more;
      if thrown { size := None; }
    }

    /** The ROCs without a new MiV; `sizes`: the ones that answered a read. */
    method ProbeLegacyAll(rs: set<RocId>) returns (sizes: map<RocId, PieceSize>, ghost segs: Log)
      requires rs <= known.Keys && (rs != {} ==> opt.startAddress + 1016 <= FLASH_SIZE)
      requires World() && !locked
      modifies `now, `mivs, `locked, `known, `sight, `log
      ensures sizes.Keys <= rs && ReadsOnly(old(known), known, rs)
      ensures World() && now >= old(now) && !locked
      ensures log == AddAll(old(log), segs) && SizesEnded(segs, rs, sizes, opt.readTimeoutMs)
    {
      hide AllFine, WireTag, ReadOnly, SizeShown, SizeUnknown, SizesEnded, Add, AddAll;
      sizes, segs := map[], map[];
      var left, asked := rs, {};
      ReadsStart(known);
      NoneAdded(log);
      NoSizes(opt.readTimeoutMs);
      while left != {}
        invariant World() && now >= old(now) && !locked && left <= rs && asked == rs - left && sizes.Keys <= asked
        invariant ReadsOnly(old(known), known, asked)
        invariant log == AddAll(old(log), segs) && SizesEnded(segs, asked, sizes, opt.readTimeoutMs)
        decreases |left|
      {
        var r :| r in left;
        left := left - {r};
        ghost var k1 := known;
        var size;
        ghost var seg;
        size, seg := ProbeLegacyReadSize(r);
        ReadsOneMore(old(known), k1, known, asked, r);
        OneMoreSize(old(log), segs, asked, sizes, opt.readTimeoutMs, r, seg, size);
        if size.Some? { sizes := sizes[r := size.value]; }
        asked, segs := asked + {r}, segs[r := seg];
      }
      assert asked == rs;
    }

    /** Finds out what MiV each ROC has; the ones that do not answer are failed. */
    method ProbeAll() returns (ghost segs: Log)
      requires rocs == known.Keys && res == NewResults(rocs)
      requires AllBlank(digest, isNew, opt.startAddress, image, known)
      requires World() && !locked
      modifies `now, `mivs, `locked, `known, `sight, `tag, `issued, `res, `log
      ensures res.Keys == rocs && forall r :: r in rocs ==> res[r].state == Selected || res[r].state == Failed
      ensures AllUnderway(digest, isNew, opt.startAddress, image, res, known, Living(res), 0)
      ensures AllBounded(old(known), known, isNew)
      ensures World() && now >= old(now) && !locked
      ensures log == AddAll(old(log), segs) && ProbeExplainsAll(segs, res, opt.startAddress, opt.readTimeoutMs)
    {
      hide AllFine, WireTag, CrcsAsked, OnlyHopes, ReadsOnly, AllBlank, AllUnderway, AllBounded, Living, Probed,
        AllCrcReady, NewResults, ProbesSent, ProbesHeard, SizesEnded, ProbeExplainsAll, AddAll;
      BlankIsCrcReady(digest, isNew, opt.startAddress, image, known);
      var tags, found, sizes;
      ghost var answered, s1, s2, s3;
      tags, s1 := ProbeSendAll();
      ghost var k1 := known;
      AskedParts(old(known), k1, rocs, tags, opt.startAddress, 2);
      found, answered, s2 := ProbeHearAll(tags);
      var older := tags.Keys - found;
      sizes, s3 := ProbeLegacyAll(older);
      res := Probed(rocs, found, sizes);
      ProbedStates(rocs, found, sizes);
      ProbedIsUnderway(digest, isNew, opt.startAddress, image, old(known), k1, known, rocs, found, older, sizes);
      ProbeLog(old(log), s1, s2, s3, rocs, tags, answered, found, sizes, res, opt.startAddress, opt.readTimeoutMs);
      segs := AddAll(AddAll(s1, s2), s3);
    }

    // -------------------------------------------------------------- upload

    /** Erase, write and verify segment s once; `err`: the ROCs that did not verify it. */
    method Attempt(todo: set<RocId>, s: nat) returns (err: set<RocId>, ghost segs: Log)
      requires |image| % 2 == 0 && s < SegmentCount(|image|) && todo != {}
      requires AllUnderway(digest, isNew, opt.startAddress, image, res, known, todo, Before(|image|, s))
      requires World() && !locked
      modifies `now, `mivs, `locked, `known, `sight, `tag, `issued, `log
      ensures err <= todo
      ensures SegmentOutcomes(digest, old(known), known, todo, res, err, opt.startAddress, image, s, true)
      ensures World() && now >= old(now) && !locked
      ensures log == AddAll(old(log), segs)
      ensures AttemptEnded(segs, todo, err, res, opt, image, digest, s * BLOCK, SegmentLength(|image|, s))
    {
      hide AllFine, WireTag, AllUnderway, CommandOutcomes, WriteOutcomes, VerifyOutcomes, SegmentOutcomes,
        AllCommandReady, Writable, Verifiable, CommandsEnded, WritesEnded, VerifyEnded, AttemptEnded, AddAll;
      ghost var s1, s2, s3;
      var e1, e2;
      var off := s * BLOCK;
      var len := Min(BLOCK, |image| - off);
      assert len == SegmentLength(|image|, s);
      ghost var k0 := known;
      UnderwayReady(digest, isNew, opt.startAddress, image, res, k0, todo, s);
      e1, s1 := EraseSegment(todo, off);
      ghost var k1 := known;
      ErasedIsWritable(k0, k1, todo, todo - e1, isNew, res, opt.startAddress + off, opt.startAddress + off + len);
      e2, s2 := WriteSegment(todo, off, len, e1);
      ghost var k2 := known;
      WrittenIsVerifiable(k0, k1, k2, todo, todo - e1, e2, res, image, opt.startAddress, off, len);
      err, s3 := VerifySegment(todo, off, len, e2);
      AttemptJoins(digest, k0, k1, k2, known, todo, res, e1, e2, err, opt.startAddress, image, s);
      AttemptLog(old(log), s1, s2, s3, todo, e1, e2, err, res, opt, image, digest, off, len);
      segs := AddAll(AddAll(s1, s2), s3);
    }

    /** Nothing is written: the flash must already hold segment s. */
    method CheckSegment(s: nat) returns (ghost segs: Log)
      requires |image| % 2 == 0 && s < SegmentCount(|image|) && Living(res) != {} && !opt.writeImage
      requires AllUnderway(digest, isNew, opt.startAddress, image, res, known, Living(res), Before(|image|, s))
      requires World() && !locked
      modifies `now, `mivs, `locked, `known, `sight, `tag, `issued, `res, `log
      ensures FailsOnly(old(res), res)
      ensures AllUnderway(digest, isNew, opt.startAddress, image, res, known, Living(res), Before(|image|, s + 1))
      ensures AllBounded(old(known), known, isNew)
      ensures World() && now >= old(now) && !locked
      ensures log == AddAll(old(log), segs) && SegmentExplains(segs, old(res), res, opt, image, digest, s)
    {
      hide AllFine, WireTag, AllUnderway, SegmentOutcomes, Verifiable, VerifyOutcomes, AllBounded, VerifyEnded,
        SegmentExplains, AddAll;
      var off := s * BLOCK;
      var len := Min(BLOCK, |image| - off);
      assert len == SegmentLength(|image|, s);
      var todo := Living(res);
      UnderwayReady(digest, isNew, opt.startAddress, image, res, known, todo, s);
      assert todo - {} == todo;
      var err;
      err, segs := VerifySegment(todo, off, len, {});
      VerifyJoinsAlone(digest, old(known), known, todo, res, err, opt.startAddress, image, s);
      SegmentMoves(digest, isNew, opt.startAddress, image, res, old(known), known, todo, err, s, false);
      SameKindUnderway(digest, isNew, opt.startAddress, image, res, WithFailed(res, err), known, todo - err,
        Before(|image|, s + 1));
      ChecksExplain(segs, res, err, opt, image, digest, s);
      res := WithFailed(res, err);
    }

    /** Attempts for the ROCs that have not verified segment s; the ones that never do are failed. */
    method WriteAndCheckSegment(s: nat) returns (ghost segs: Log)
      requires |image| % 2 == 0 && s < SegmentCount(|image|) && opt.writeImage && opt.maxSegmentAttempts > 0
      requires AllUnderway(digest, isNew, opt.startAddress, image, res, known, Living(res), Before(|image|, s))
      requires World() && !locked
      modifies `now, `mivs, `locked, `known, `sight, `tag, `issued, `res, `log
      ensures FailsOnly(old(res), res)
      ensures AllUnderway(digest, isNew, opt.startAddress, image, res, known, Living(res), Before(|image|, s + 1))
      ensures AllBounded(old(known), known, isNew)
      ensures World() && now >= old(now) && !locked
      ensures log == AddAll(old(log), segs) && SegmentExplains(segs, old(res), res, opt, image, digest, s)
    {
      hide AllFine, WireTag, AllUnderway, SegmentOutcomes, AllBounded, Living, WithRetry, WithFailed, Before, FailsOnly,
        Attempted, AttemptEnded, SegmentExplains, AddAll;
      var todo, attempt := Living(res), 1;
      FailsNone(res);
      segs := map[];
      ghost var done: set<RocId> := {};
      ghost var off, len := s * BLOCK, SegmentLength(|image|, s);
      NoneAdded(log);
      NotAttempted(todo, res, opt, image, digest, off, len);
      NoneFails(segs, res, res, opt, image, digest, s);
      AllBoundedStart(known, isNew);
      NoneUnderway(digest, isNew, opt.startAddress, image, res, known, Before(|image|, s + 1));
      while attempt <= opt.maxSegmentAttempts && todo != {}
        invariant World() && now >= old(now) && !locked && 1 <= attempt
        invariant FailsOnly(old(res), res) && Living(res) == done + todo && done !! todo
        invariant AllUnderway(digest, isNew, opt.startAddress, image, res, known, todo, Before(|image|, s))
        invariant AllUnderway(digest, isNew, opt.startAddress, image, res, known, done, Before(|image|, s + 1))
        invariant AllBounded(old(known), known, isNew)
        invariant todo != {} ==> attempt <= opt.maxSegmentAttempts
        invariant log == AddAll(old(log), segs)
        invariant if todo == {} then SegmentExplains(segs, old(res), res, opt, image, digest, s)
                  else Living(res) == Living(old(res))
                       && Attempted(segs, Living(old(res)), todo, attempt - 1, res, opt, image, digest, off, len)
      {
        ghost var k0 := known;
        var err;
        ghost var more;
        err, more := Attempt(todo, s);
        SegmentMoves(digest, isNew, opt.startAddress, image, res, k0, known, todo, err, s, true);
        BoundedTwice(old(known), k0, known, isNew);
        DoneStays(digest, isNew, opt.startAddress, image, res, k0, known, done, todo, err,
          Before(|image|, s + 1));
        AttemptedOnce(old(log), segs, more, Living(old(res)), todo, err, attempt - 1, res, opt, image, digest, off, len);
        segs := AddAll(segs, more);
        done := done + (todo - err);
        var after := WithRetry(res, err);
        SameAttempts(segs, Living(old(res)), err, attempt, res, after, opt, image, digest, off, len);
        if attempt == opt.maxSegmentAttempts {
          FailsTwice(res, after, WithFailed(after, err));
          AttemptsExplain(segs, old(res), res, WithFailed(after, err), err, opt, image, digest, s);
          after := WithFailed(after, err);
        } else if err == {} {
          NoneFailsNow(segs, old(res), res, after, err, attempt, opt, image, digest, s);
        }
        todo := if attempt == opt.maxSegmentAttempts then {} else err;
        SameKindUnderway(digest, isNew, opt.startAddress, image, res, after, known, done,
          Before(|image|, s + 1));
        SameKindUnderway(digest, isNew, opt.startAddress, image, res, after, known, err, Before(|image|, s));
        if todo == {} { NoneUnderway(digest, isNew, opt.startAddress, image, after, known, Before(|image|, s)); }
        FailsTwice(old(res), res, after);
        res := after;
        attempt := attempt + 1;
      }
      assert Living(res) == done;
    }

    /** The CRC of the whole image, read from each flash by its MiV. */
    method CheckWholeImage() returns (ghost segs: Log)
      requires 0 < |image|
      requires AllUnderway(digest, isNew, opt.startAddress, image, res, known, Living(res), |image|)
      requires World() && !locked
      modifies `now, `mivs, `locked, `known, `sight, `tag, `issued, `res, `log
      ensures FailsOnly(old(res), res)
      ensures AllUnderway(digest, isNew, opt.startAddress, image, res, known, Living(res), |image|)
      ensures WholeImageAgrees(digest, image, res, known)
      ensures AllBounded(old(known), known, isNew)
      ensures World() && now >= old(now) && !locked
      ensures log == AddAll(old(log), segs) && ImageExplains(segs, old(res), res, opt, image, digest)
    {
      hide AllFine, WireTag, AllUnderway, CrcOutcomes, AllBounded, Asked, ImageExplains, AddAll;
      var crcRocs := set r | r in Living(res) && res[r].newMiv;
      UnderwayCrcReady(digest, isNew, opt.startAddress, image, res, known, crcRocs);
      AllBoundedStart(known, isNew);
      segs := map[];
      NoneAdded(log);
      NoImageCrc(res, opt, image, digest);
      if crcRocs == {} { return; }
      var good;
      good, segs := ParallelCrc(crcRocs, opt.startAddress, |image|, digest(image), opt.crcImageTimeoutMs, 2);
      ghost var bad := Refused(good);
      var after := WithFailed(res, set r | r in crcRocs && !good[r]);
      assert bad == set r | r in crcRocs && !good[r];
      WholeImageCrc(digest, isNew, opt.startAddress, image, res, after, old(known), known, crcRocs, bad);
      ImageCrcExplains(segs, res, crcRocs, bad, opt, image, digest);
      res := after;
    }

    /** Every segment on every ROC; the ROCs still alive at the end are Verified. */
    method Upload() returns (ghost segs: Log)
      requires 0 < |image| && |image| % 2 == 0 && (opt.writeImage ==> opt.maxSegmentAttempts > 0)
      requires AllUnderway(digest, isNew, opt.startAddress, image, res, known, Living(res), 0)
      requires World() && !locked
      modifies `now, `mivs, `locked, `known, `sight, `tag, `issued, `res, `log
      ensures MarkedVerified(old(res), res)
      ensures AllUnderway(digest, isNew, opt.startAddress, image, res, known, Living(res), |image|)
      ensures opt.finalImageCrc ==> WholeImageAgrees(digest, image, res, known)
      ensures AllBounded(old(known), known, isNew)
      ensures World() && now >= old(now) && !locked
      ensures log == AddAll(old(log), segs) && UploadExplains(segs, old(res), res, opt, image, digest)
    {
      hide AllFine, WireTag, AllUnderway, AllBounded, WholeImageAgrees, Living, FailsOnly, MarkedVerified, Before,
        WithState, UploadExplains, SegmentExplains, ImageExplains, AddAll;
      var nSeg := SegmentCount(|image|);
      SameUnderway(digest, isNew, opt.startAddress, image, res, WithState(res, Uploading), known, 0);
      res := WithState(res, Uploading);
      ghost var r0 := res;
      AllBoundedStart(known, isNew);
      FailsNone(res);
      AllSegments(|image|);
      segs := map[];
      NoneAdded(log);
      NothingUploaded(res, opt, image, digest);
      var s := 0;
      while s < nSeg && Living(res) != {}
        invariant World() && now >= old(now) && !locked && 0 <= s <= nSeg
        invariant FailsOnly(r0, res)
        invariant AllUnderway(digest, isNew, opt.startAddress, image, res, known, Living(res), Before(|image|, s))
        invariant AllBounded(old(known), known, isNew)
        invariant log == AddAll(old(log), segs)
        invariant UploadExplains(segs, r0, res, opt, image, digest)
      {
        ghost var k1, r1 := known, res;
        ghost var more;
        if opt.writeImage { more := WriteAndCheckSegment(s); } else { more := CheckSegment(s); }
        OneMoreSegment(old(log), segs, more, r0, r1, res, old(known), k1, known, isNew, opt, image, digest, s);
        segs := AddAll(segs, more);
        s := s + 1;
      }
      if Living(res) == {} { NoneUnderway(digest, isNew, opt.startAddress, image, res, known, |image|); }
      if opt.finalImageCrc {
        ghost var k1, r1 := known, res;
        ghost var more := CheckWholeImage();
        WholeImageMore(old(log), segs, more, r0, r1, res, old(known), k1, known, isNew, opt, image, digest);
        segs := AddAll(segs, more);
      }
      UploadEnds(segs, old(res), res, known, isNew, opt, image, digest);
      res := WithState(res, Verified);
    }

    // -------------------------------------------------------------- activation

    method RequestIap(r: RocId) returns (ok: bool, ghost seg: seq<Access>)
      requires r in known && r in res && res[r].state == Verified
      requires World() && !locked
      modifies `now, `mivs, `locked, `known, `sight, `verBefore, `log
      ensures IapAtMost(old(known), known, r, opt.startAddress)
      ensures AtMostOf(old(verBefore), verBefore, r)
      ensures World() && now >= old(now) && !locked
      ensures log == Add(old(log), r, seg)
      ensures if ok then r in verBefore && IapTaken(seg, opt.startAddress, verBefore[r], now) else IapRefused(seg)
    {
      hide AllFine, WireTag, Wrote, NotTaken, CommandWords, Add;
      ok := false;
      var thrown, version := ReadOther(r, REG_FW_VERSION);
      ghost var look := Other(now, thrown, REG_FW_VERSION, version);
      seg := [look];
      if thrown { return; }
      verBefore := verBefore[r := version];
      ghost var send;
      thrown, ok, send := SendWhenIdle(r, Iap(opt.startAddress), 2000, Nothing);
      AddedTwice(old(log), r, seg, send);
      IapAsked(look, send, opt.startAddress);
      seg := seg + send;
    }

    /** The IAP goes to the verified ROCs only; `sent`: when it was taken. */
    method RequestIaps(go: set<RocId>) returns (sent: map<RocId, nat>, ghost segs: Log)
      requires go <= known.Keys && go == InState(res, Verified)
      requires World() && !locked
      modifies `now, `mivs, `locked, `known, `sight, `verBefore, `log
      ensures IapOnly(old(known), known, go, opt.startAddress)
      ensures forall r :: r in sent ==> sent[r] <= now
      ensures World() && now >= old(now) && !locked
      ensures log == AddAll(old(log), segs) && IapsSent(segs, go, sent, verBefore, opt.startAddress)
    {
      hide AllFine, WireTag, IapOnly, IapAtMost, AtMostOf, IapTaken, IapRefused, IapsSent, Add, AddAll;
      sent, segs := map[], map[];
      var left, asked := go, {};
      IapStart(known, asked, opt.startAddress);
      NoneAdded(log);
      NoIapsSent(verBefore, opt.startAddress);
      while left != {}
        invariant World() && now >= old(now) && !locked && left <= go && asked == go - left
        invariant IapOnly(old(known), known, asked, opt.startAddress)
        invariant forall r :: r in sent ==> sent[r] <= now
        invariant log == AddAll(old(log), segs) && IapsSent(segs, asked, sent, verBefore, opt.startAddress)
        decreases |left|
      {
        var r :| r in left;
        left := left - {r};
        assert asked + {r} == go - left;
        ghost var k1, was := known, verBefore;
        IapUntouched(old(known), k1, asked, opt.startAddress, r);
        var ok;
        ghost var seg;
        ok, seg := RequestIap(r);
        IapOneMore(old(known), k1, known, asked, opt.startAddress, r);
        OneMoreIap(old(log), segs, asked, sent, was, verBefore, opt.startAddress, r, seg, ok, now);
        if ok { sent := sent[r := now]; }
        asked, segs := asked + {r}, segs[r := seg];
      }
      assert asked == go;
    }

    /** The registers of a ROC after the IAP, and how long ago that was. */
    method Look(r: RocId, sentAt: nat) returns (p: Poll, ghost seg: seq<Access>)
      requires World() && r in known
      modifies `now, `mivs, `sight, `log
      ensures World() && now > old(now) && p.t == (old(now) - sentAt) / 1000
      ensures log == Add(old(log), r, seg) && Looked(seg, p, sentAt)
    {
      hide AllFine, WireTag, OwnFifo, Add;
      var t := MsSince(sentAt);
      StartTimer(r);
      seg := [Timer(now)];
      p := Poll(t, None);
      var thrown, done, ret, ver;
      thrown, done := ReadDone(r);
      AddedTwice(old(log), r, seg, [Done(now, thrown, done)]);
      seg := seg + [Done(now, thrown, done)];
      if thrown { return; }
      thrown, ret := ReadOther(r, REG_RETURN);
      AddedTwice(old(log), r, seg, [Other(now, thrown, REG_RETURN, ret)]);
      seg := seg + [Other(now, thrown, REG_RETURN, ret)];
      if thrown { return; }
      thrown, ver := ReadOther(r, REG_FW_VERSION);
      AddedTwice(old(log), r, seg, [Other(now, thrown, REG_FW_VERSION, ver)]);
      seg := seg + [Other(now, thrown, REG_FW_VERSION, ver)];
      if thrown { return; }
      p := Poll(t, Some(Answer(done, ret, ver)));
    }

    /** The link is initialised again; whether that works is not asked. */
    method ResetLink(r: RocId) returns (ghost a: Access)
      requires World() && r in known
      modifies `now, `mivs, `log
      ensures World() && now > old(now)
      ensures log == Add(old(log), r, [a]) && a.Reset?
    {
      hide AllFine, WireTag, OwnFifo, Add;
      Pass();
      var thrown: bool := *;
      a := Reset(now, thrown);
      log := Add(log, r, [a]);
    }

    /** One look at a ROC that has no outcome yet. */
    method WatchOne(r: RocId, sentAt: nat, before: Word, w: Watch, ghost polls: seq<Poll>)
      returns (after: Watch, ghost p: Poll, ghost seg: seq<Access>)
      requires World() && r in known && !w.finished && Tells(w, polls, before, opt)
      modifies `now, `mivs, `sight, `log
      ensures p.t == (old(now) - sentAt) / 1000 && Tells(after, polls + [p], before, opt)
      ensures p.t > Deadlines(opt) ==> after.finished
      ensures World() && now > old(now)
      ensures log == Add(old(log), r, seg) && Watched(seg, p, sentAt, w.resyncs, opt)
      ensures after.resyncs == w.resyncs + if ResetDue(p, w.resyncs, opt) then 1 else 0
    {
      hide AllFine, WireTag, OwnFifo, Tells, Looked, Add;
      var look, reset;
      look, seg := Look(r, sentAt);
      p := look;
      after, reset := Judge(w, look, before, opt, polls);
      InTime(after, polls, p, before, opt);
      LookedAt(seg, p, sentAt);
      if reset {
        ghost var a := ResetLink(r);
        AddedTwice(old(log), r, seg, [a]);
        assert (seg + [a])[..|seg|] == seg;
        seg := seg + [a];
      }
    }

    /** One look at each ROC that has no outcome yet. */
    method LookRound(sent: map<RocId, nat>, watch: map<RocId, Watch>, ghost polls: map<RocId, seq<Poll>>, ghost log0: Log,
                     ghost segs: Log)
      returns (after: map<RocId, Watch>, ghost seen: map<RocId, seq<Poll>>, ghost more: Log)
      requires sent.Keys == watch.Keys && sent.Keys <= known.Keys && sent.Keys <= verBefore.Keys
      requires AllTell(watch, polls, verBefore, opt)
      requires World() && log == AddAll(log0, segs) && AllSeen(segs, polls, sent, watch, opt)
      modifies `now, `mivs, `sight, `log
      ensures after.Keys == watch.Keys && AllTell(after, seen, verBefore, opt) && Open(after) <= Open(watch)
      ensures (forall r :: r in sent ==> old(now) >= sent[r] + 1000 * (Deadlines(opt) + 1)) ==> Open(after) == {}
      ensures World() && now >= old(now)
      ensures log == AddAll(log0, more) && AllSeen(more, seen, sent, after, opt)
    {
      hide AllFine, WireTag, AllTell, Tells, Open, AllSeen, Watched, ResetDue, Add, AddAll;
      after, seen, more := watch, polls, segs;
      var left := Open(watch);
      ghost var over := forall r :: r in sent ==> now >= sent[r] + 1000 * (Deadlines(opt) + 1);
      while left != {}
        invariant World() && now >= old(now) && after.Keys == watch.Keys && AllTell(after, seen, verBefore, opt)
        invariant left <= Open(after) <= Open(watch)
        invariant over ==> Open(after) <= left
        invariant log == AddAll(log0, more) && AllSeen(more, seen, sent, after, opt)
        decreases |left|
      {
        var r :| r in left;
        left := left - {r};
        StillOpen(after, r);
        TellsOne(after, seen, verBefore, opt, r);
        var w;
        ghost var p, seg;
        w, p, seg := WatchOne(r, sent[r], verBefore[r], after[r], seen[r]);
        TellsOneMore(after, seen, verBefore, opt, r, w, p);
        OpenOneLess(after, r, w);
        AllSeenOneMore(log0, more, seen, sent, after, opt, r, seg, p, w);
        after := after[r := w];
        seen, more := seen[r := seen[r] + [p]], more[r := Of(more, r) + seg];
      }
    }

    /** All requested ROCs are watched in turn until each has an outcome; `polls`: what was seen of each. */
    method WatchAll(sent: map<RocId, nat>)
      returns (watch: map<RocId, Watch>, ghost polls: map<RocId, seq<Poll>>, ghost segs: Log)
      requires sent.Keys <= known.Keys && sent.Keys <= verBefore.Keys && forall r :: r in sent ==> sent[r] <= now
      requires World() && !locked
      modifies `now, `mivs, `sight, `log
      ensures watch.Keys == sent.Keys && AllTell(watch, polls, verBefore, opt) && Open(watch) == {}
      ensures World() && now >= old(now)
      ensures log == AddAll(old(log), segs) && AllSeen(segs, polls, sent, watch, opt)
    {
      hide AllFine, WireTag, AllTell, AllSeen, Unseen, NoPolls, AddAll;
      watch, polls, segs := Unseen(sent.Keys), NoPolls(sent.Keys), map[];
      NoneAdded(log);
      NothingSeen(sent, verBefore, opt);
      ghost var limit := now + 1000 * (Deadlines(opt) + 1);
      while true
        invariant World() && now >= old(now) && watch.Keys == sent.Keys && AllTell(watch, polls, verBefore, opt)
        invariant log == AddAll(old(log), segs) && AllSeen(segs, polls, sent, watch, opt)
        decreases if limit > now then limit - now else 0, |Open(watch)|
      {
        if Open(watch) == {} { break; }
        ghost var before := watch;
        watch, polls, segs := LookRound(sent, watch, polls, old(log), segs);
        if Open(watch) == {} { Fewer(Open(watch), Open(before)); }
        SleepMs(100);
      }
    }

    /** Every verified ROC ends programmed or failed, programmed exactly on the evidence. */
    method Activate() returns (ghost polls: map<RocId, seq<Poll>>, ghost segs: Log)
      requires res.Keys <= known.Keys && OnlyVerifiedOrFailed(res)
      requires World() && !locked
      modifies `now, `mivs, `locked, `known, `sight, `res, `verBefore, `log
      ensures IapOnly(old(known), known, InState(old(res), Verified), opt.startAddress)
      ensures Activated(old(res), res, polls, verBefore, opt)
      ensures World() && now >= old(now) && !locked
      ensures log == AddAll(old(log), segs) && IapExplains(segs, InState(old(res), Verified), polls, verBefore, opt)
    {
      hide AllFine, WireTag, IapOnly, AllTell, Tells, Activated, IapTaken, IapRefused, AllSeen, IapExplains, AddAll;
      var go := InState(res, Verified);
      var sent;
      ghost var s1, s2;
      sent, s1 := RequestIaps(go);
      IapKeys(old(known), known, go, opt.startAddress);
      IapsSentTo(s1, go, sent, verBefore, opt.startAddress);
      var watch;
      watch, polls, s2 := WatchAll(sent);
      Outcomes(res, watch, polls, verBefore, opt);
      IapLog(old(log), s1, s2, go, sent, verBefore, polls, watch, opt);
      segs := AddAll(s1, s2);
      res := Outcome(res, watch);
    }

    // -------------------------------------------------------------- the whole session

    method AllReached(state: RocState) returns (ok: bool)
      ensures ok <==> forall r :: r in res ==> res[r].state == state
    {
      ok := true;
      var left := res.Keys;
      while left != {}
        invariant left <= res.Keys
        invariant ok <==> forall r :: r in res && r !in left ==> res[r].state == state
        decreases |left|
      {
        var r :| r in left;
        left := left - {r};
        ok := ok && res[r].state == state;
      }
    }

    /** Probe, upload and, if asked for, activate. */
    method Operate() returns (ghost polls: map<RocId, seq<Poll>>, ghost segs: Log)
      requires Ready(digest, sha256hex, isNew, opt, image, rocs, known) && res == NewResults(rocs)
      requires World() && !locked
      modifies `now, `mivs, `locked, `known, `sight, `tag, `issued, `res, `verBefore, `log
      ensures res.Keys == rocs && AllRanged(old(known), known, isNew)
      ensures AllVerified(digest, isNew, opt, image, res, known)
      ensures OutcomesKnown(res, polls, verBefore, opt)
      ensures World() && now >= old(now) && !locked
      ensures |image| % 2 == 0 && log == AddAll(old(log), segs)
      ensures AllExplained(segs, res, polls, verBefore, opt, image, digest)
    {
      hide AllFine, WireTag, AllUnderway, AllBounded, AllBlank, WholeImageAgrees, MarkedVerified, Activated, IapOnly,
        AllVerified, OutcomesKnown, AllRanged, NoIap, OnlyVerifiedOrFailed, ProbeExplainsAll, UploadExplains, IapExplains,
        AllExplained, AddAll;
      polls := map[];
      ghost var s1, s2, s3;
      ReadyParts(digest, sha256hex, isNew, opt, image, rocs, known);
      BlankNoIap(digest, isNew, opt.startAddress, image, known);
      s1 := ProbeAll();
      ghost var k1, r1 := known, res;
      s2 := Upload();
      ghost var k2, r2 := known, res;
      BoundedTwice(old(known), k1, k2, isNew);
      BoundedIsRanged(old(known), k2, isNew);
      MarkedParts(r1, r2);
      UploadedIsVerified(digest, isNew, opt, image, r2, k2);
      if opt.program {
        polls, s3 := Activate();
        IapIsRanged(old(known), k2, known, InState(r2, Verified), opt.startAddress, isNew);
        IapKeepsVerified(digest, isNew, opt, image, r2, res, polls, verBefore, k2, known);
        ActivatedIsKnown(r2, res, polls, verBefore, opt);
      } else {
        s3 := map[];
        NoneAdded(log);
        NotActivated(r2, polls, verBefore, opt);
      }
      ExplainAll(old(log), s1, s2, s3, r1, r2, res, polls, verBefore, opt, image, digest);
      segs := AddAll(AddAll(s1, s2), s3);
    }

    /** True iff every ROC reached the requested end state. When the preflight refuses (not `passed`), nothing is
        sent. Whatever happens, failures included, no flash changes outside the footprint; a ROC that ends Verified
        or Programmed holds the image, and so does every ROC that was sent the IAP; and a ROC that is failed is failed
        for a reason that was seen on its link. */
    method Run() returns (passed: bool, ok: bool, ghost polls: map<RocId, seq<Poll>>, ghost segs: Log)
      requires !locked && mivs.Keys == rocs && forall r :: r in mivs ==> Startable(mivs[r], r in isNew)
      requires Counting()
      modifies this
      ensures !locked && Counting()
      ensures passed <==> Acceptable(opt, sha256hex, old(image))
      ensures !passed ==> !ok && mivs == old(mivs) && now == old(now) && log == old(log)
      ensures passed ==> image == Even(old(image)) && res.Keys == rocs
      ensures passed ==> (ok <==> forall r :: r in rocs ==> res[r].state == if opt.program then Programmed else Verified)
      ensures passed ==>
        opt.protectedBelow <= opt.startAddress && FootprintEnd(opt.startAddress, |image|) <= 0x1_0000_0000
      ensures passed ==> AllSafe(opt, image, isNew, old(mivs), mivs, known)
      ensures passed ==> AllHold(digest, opt, image, res, mivs, known)
      ensures passed ==> AllInOrder(isNew, mivs, known)
      ensures passed ==> OutcomesKnown(res, polls, verBefore, opt)
      ensures passed ==> |image| % 2 == 0 && log == AddAll(old(log), segs)
      ensures passed ==> AllExplained(segs, res, polls, verBefore, opt, image, digest)
    {
      hide AllFine, WireTag, AllRanged, AllVerified, OutcomesKnown, AllSafe, AllHold, AllInOrder, AllExplained, AddAll,
        Ready;
      polls, segs := map[], map[];
      res := NewResults(rocs);
      passed := Preflight();
      if !passed { return false, false, polls, segs; }
      known := Begun(mivs, opt.startAddress, |image|);
      BegunFine(digest, isNew, issued, opt, sha256hex, old(image), image, mivs);
      polls, segs := Operate();
      EndSafe(digest, isNew, issued, opt, image, old(mivs), mivs, known);
      EndHolds(digest, isNew, issued, opt, image, res, mivs, known);
      EndInOrder(digest, isNew, issued, mivs, known);
      ok := AllReached(if opt.program then Programmed else Verified);
    }
  }
}
