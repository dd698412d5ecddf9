/** What excuses that a ROC has an error in a segment, or is failed at the end: what was seen on its link. */
module FlashExcuse {
  import opened Basics
  import opened FlashWorld
  import opened FlashWire
  import opened FlashImage
  import opened FlashLedger
  import opened FlashSteps
  import opened FlashEvidence

  // ---------------------------------------------------------------- an erase or write on several ROCs

  /** The command was written at that time with this tag. */
  predicate CommandTaken(seg: seq<Access>, newMiv: bool, c: Cmd, at: nat, t: Word) {
    && seg != [] && Commanded(Last(seg), newMiv, c) && Last(seg).at == at
    && (newMiv ==> TagOf(Last(seg).cmd) == t)
  }

  ghost predicate CommandSends(segs: Log, asked: set<RocId>, sent: map<RocId, (nat, Word)>, res: map<RocId, RocResult>,
                               cNew: Cmd, cOld: Cmd) {
    && segs.Keys == asked <= res.Keys && sent.Keys <= asked
    && forall r :: r in asked ==>
        if r in sent then CommandTaken(segs[r], res[r].newMiv, Chosen(res[r].newMiv, cNew, cOld), sent[r].0, sent[r].1)
        else NotTaken(segs[r], 2000)
  }

  lemma NoCommandSends(res: map<RocId, RocResult>, cNew: Cmd, cOld: Cmd)
    ensures CommandSends(map[], {}, map[], res, cNew, cOld)
  {
  }

  lemma OneMoreCommandSend(log: Log, segs: Log, asked: set<RocId>, sent: map<RocId, (nat, Word)>,
                           res: map<RocId, RocResult>, cNew: Cmd, cOld: Cmd, r: RocId, seg: seq<Access>, ok: bool, at: nat,
                           t: Word)
    requires CommandSends(segs, asked, sent, res, cNew, cOld) && r !in asked && r in res
    requires if ok then CommandTaken(seg, res[r].newMiv, Chosen(res[r].newMiv, cNew, cOld), at, t) else NotTaken(seg, 2000)
    ensures Add(AddAll(log, segs), r, seg) == AddAll(log, segs[r := seg])
    ensures CommandSends(segs[r := seg], asked + {r}, if ok then sent[r := (at, t)] else sent, res, cNew, cOld)
  {
    hide CommandTaken, NotTaken, Add, AddAll;
    OneMoreAdded(log, segs, r, seg);
  }

  /** The ROCs that took a tagged command. */
  function TaggedOf(sent: map<RocId, (nat, Word)>, res: map<RocId, RocResult>): (rs: set<RocId>)
    ensures rs <= sent.Keys
  {
    set r | r in sent && r in res && res[r].newMiv
  }

  /** The replies to the tagged commands. */
  ghost predicate ResultsHeard(segs: Log, done: set<RocId>, failed: set<RocId>, sent: map<RocId, (nat, Word)>, ms: int) {
    && segs.Keys == done <= sent.Keys && failed <= done
    && forall r :: r in done ==>
        if r in failed then ResultBad(segs[r], sent[r].1, ms) else ResultGood(segs[r], sent[r].1)
  }

  lemma NoResults(sent: map<RocId, (nat, Word)>, ms: int)
    ensures ResultsHeard(map[], {}, {}, sent, ms)
  {
  }

  lemma OneMoreResult(log: Log, segs: Log, done: set<RocId>, failed: set<RocId>, sent: map<RocId, (nat, Word)>, ms: int,
                      r: RocId, seg: seq<Access>, ok: bool)
    requires ResultsHeard(segs, done, failed, sent, ms) && r !in done && r in sent
    requires if ok then ResultGood(seg, sent[r].1) else ResultBad(seg, sent[r].1, ms)
    ensures Add(AddAll(log, segs), r, seg) == AddAll(log, segs[r := seg])
    ensures ResultsHeard(segs[r := seg], done + {r}, if ok then failed else failed + {r}, sent, ms)
  {
    hide ResultGood, ResultBad, Add, AddAll;
    OneMoreAdded(log, segs, r, seg);
  }

  /** The looks at the older MiVs, while some are still waited for. */
  ghost predicate LegacyWaits(segs: Log, sent: map<RocId, nat>, left: set<RocId>, failed: set<RocId>, sawBusy: set<RocId>,
                              ms: int, minMs: int) {
    && segs.Keys <= sent.Keys && left <= sent.Keys && failed <= sent.Keys - left
    && forall r :: r in sent ==>
        if r in left then
          LegacyOpen(Of(segs, r), sent[r], ms, minMs) && (r in sawBusy <==> WentLow(Of(segs, r), |Of(segs, r)|))
        else LegacyEnd(Of(segs, r), sent[r], ms, minMs, r in failed)
  }

  lemma LegacyStarts(sent: map<RocId, nat>, ms: int, minMs: int)
    ensures LegacyWaits(map[], sent, sent.Keys, {}, {}, ms, minMs)
  {
  }

  lemma LegacyLook(log: Log, segs: Log, sent: map<RocId, nat>, left: set<RocId>, failed: set<RocId>, sawBusy: set<RocId>,
                   ms: int, minMs: int, r: RocId, a: Access, finished: bool, fault: bool, busy: bool)
    requires LegacyWaits(segs, sent, left, failed, sawBusy, ms, minMs) && r in left && a.Done?
    requires finished && !fault <==> !a.thrown && a.value >= 0x8000 && (r in sawBusy || a.at - sent[r] >= 1000 * minMs)
    requires fault <==> a.thrown || (!(finished && !fault) && Over(a.at, sent[r], ms))
    requires fault ==> finished
    requires busy <==> r in sawBusy || (!a.thrown && a.value < 0x8000)
    ensures var after := segs[r := Of(segs, r) + [a]];
            && Add(AddAll(log, segs), r, [a]) == AddAll(log, after)
            && LegacyWaits(after, sent, if finished then left - {r} else left, if fault then failed + {r} else failed,
                           if busy then sawBusy + {r} else sawBusy, ms, minMs)
  {
    hide LegacyOpen, LegacyEnd, WentLow, Add, AddAll, Over;
    MoreAdded(log, segs, r, [a]);
    LegacyNext(Of(segs, r), a, sent[r], ms, minMs);
  }

  /** How the command ended on each of these ROCs: exactly the ones of `after` have an error. */
  ghost predicate CommandsEnded(segs: Log, asked: set<RocId>, after: set<RocId>, res: map<RocId, RocResult>, cNew: Cmd,
                                cOld: Cmd, ms: int, minMs: int) {
    && segs.Keys <= asked <= res.Keys
    && forall r :: r in asked ==>
        var c := Chosen(res[r].newMiv, cNew, cOld);
        if r in after then CommandFails(Of(segs, r), res[r].newMiv, c, ms, minMs)
        else CommandSucceeds(Of(segs, r), res[r].newMiv, c, ms, minMs)
  }

  lemma EndedOn(segs: Log, asked: set<RocId>, after: set<RocId>, res: map<RocId, RocResult>, c: Cmd, ms: int, minMs: int)
    requires CommandsEnded(segs, asked, after, res, c, c, ms, minMs)
    ensures segs.Keys <= asked
  {
  }

  lemma CommandLog(log: Log, s1: Log, s2: Log, s3: Log, asked: set<RocId>, sent: map<RocId, (nat, Word)>,
                   legacy: map<RocId, nat>, tagFails: set<RocId>, oldFails: set<RocId>, after: set<RocId>,
                   res: map<RocId, RocResult>, cNew: Cmd, cOld: Cmd, ms: int, minMs: int, low: set<RocId>)
    requires CommandSends(s1, asked, sent, res, cNew, cOld)
    requires ResultsHeard(s2, TaggedOf(sent, res), tagFails, sent, ms)
    requires legacy == map r | r in sent && !res[r].newMiv :: sent[r].0
    requires LegacyWaits(s3, legacy, {}, oldFails, low, ms, minMs)
    requires forall r :: r in asked ==> (r in after <==> r !in sent || r in tagFails || r in oldFails)
    ensures var segs := AddAll(AddAll(s1, s2), s3);
            && AddAll(AddAll(AddAll(log, s1), s2), s3) == AddAll(log, segs)
            && CommandsEnded(segs, asked, after, res, cNew, cOld, ms, minMs)
  {
    hide CommandFails, CommandSucceeds, NotTaken, ResultBad, ResultGood, LegacyEnd, CommandTaken, AddAll;
    var segs := AddAll(AddAll(s1, s2), s3);
    RoundAdds(log, s1, s2, s3);
    forall r | r in asked
      ensures var c := Chosen(res[r].newMiv, cNew, cOld);
              if r in after then CommandFails(Of(segs, r), res[r].newMiv, c, ms, minMs)
              else CommandSucceeds(Of(segs, r), res[r].newMiv, c, ms, minMs)
    {
      var c := Chosen(res[r].newMiv, cNew, cOld);
      if r !in sent {
        Joins(Of(s1, r), [], []);
        SendFailsCommand(Of(s1, r), res[r].newMiv, c, ms, minMs);
      } else if res[r].newMiv {
        Joins(Of(s2, r), [], []);
        TaggedEnds(Of(s1, r), Of(s2, r), c, sent[r].0, sent[r].1, ms, minMs);
      } else {
        Joins(Of(s3, r), [], []);
        UntaggedEnds(Of(s1, r), Of(s3, r), c, sent[r].0, sent[r].1, ms, minMs);
      }
    }
  }

  lemma SendFailsCommand(seg: seq<Access>, newMiv: bool, c: Cmd, ms: int, minMs: int)
    requires NotTaken(seg, 2000)
    ensures CommandFails(seg, newMiv, c, ms, minMs)
  {
  }

  lemma TaggedEnds(sent: seq<Access>, seg: seq<Access>, c: Cmd, at: nat, t: Word, ms: int, minMs: int)
    requires CommandTaken(sent, true, c, at, t)
    ensures ResultBad(seg, t, ms) ==> CommandFails(sent + seg, true, c, ms, minMs)
    ensures ResultGood(seg, t) ==> CommandSucceeds(sent + seg, true, c, ms, minMs)
  {
    CommandedAndEnded(sent, seg, true, c, ms, minMs);
  }

  lemma UntaggedEnds(sent: seq<Access>, seg: seq<Access>, c: Cmd, at: nat, t: Word, ms: int, minMs: int)
    requires CommandTaken(sent, false, c, at, t)
    ensures LegacyEnd(seg, at, ms, minMs, true) ==> CommandFails(sent + seg, false, c, ms, minMs)
    ensures LegacyEnd(seg, at, ms, minMs, false) ==> CommandSucceeds(sent + seg, false, c, ms, minMs)
  {
    CommandedAndEnded(sent, seg, false, c, ms, minMs);
  }

  // ---------------------------------------------------------------- a piece read back

  /** The piece was read and shows these words. */
  predicate PieceShown(seg: seq<Access>, want: seq<Word>, n: nat) {
    seg != [] && Last(seg).Block? && !Last(seg).thrown && Last(seg).asked == n / 2 && WordsIn(Last(seg)) == want
  }

  /** It did not come in time, had vanished, could not be read, or shows other words. */
  predicate PieceMissed(seg: seq<Access>, want: seq<Word>, n: nat, ms: int) {
    && |seg| > 1 && seg[0].Timer?
    && var z := Last(seg);
    || Threw(z)
    || (z.Count? && Size(z) != n / 2 + 4 && (Over(z.at, seg[0].at, ms) || Came(seg[|seg| - 2], n / 2)))
    || (z.Block? && z.asked == n / 2 && WordsIn(z) != want)
  }

  lemma NotEqualSize(w: seq<Word>, image: seq<Byte>, off: nat, n: nat)
    requires n % 2 == 0 && off + n <= |image|
    ensures |w| != n / 2 ==> w != WordsOf(image, off, n)
  {
  }

  lemma NoneSent(q: Ask)
    ensures SentTo(q, map[], {}, {})
  {
  }

  lemma OneMoreSent(log: Log, segs: Log, asked: set<RocId>, sent: set<RocId>, q: Ask, r: RocId, seg: seq<Access>, ok: bool)
    requires SentTo(q, segs, asked, sent) && r !in asked && q.AskRead?
    requires if ok then TookIt(seg, Read(q.addr, q.bytes)) else NotTaken(seg, 2000)
    ensures Add(AddAll(log, segs), r, seg) == AddAll(log, segs[r := seg])
    ensures SentTo(q, segs[r := seg], asked + {r}, if ok then sent + {r} else sent)
  {
    hide NotTaken, Add, AddAll;
    OneMoreAdded(log, segs, r, seg);
  }

  ghost predicate PiecesHeard(segs: Log, done: set<RocId>, bad: set<RocId>, want: seq<Word>, n: nat, ms: int) {
    && segs.Keys == done && bad <= done
    && forall r :: r in done ==> if r in bad then PieceMissed(segs[r], want, n, ms) else PieceShown(segs[r], want, n)
  }

  lemma NoPiecesHeard(want: seq<Word>, n: nat, ms: int)
    ensures PiecesHeard(map[], {}, {}, want, n, ms)
  {
  }

  lemma OneMorePieceHeard(log: Log, segs: Log, done: set<RocId>, bad: set<RocId>, want: seq<Word>, n: nat, ms: int, r: RocId,
                          seg: seq<Access>, equal: bool)
    requires PiecesHeard(segs, done, bad, want, n, ms) && r !in done
    requires if equal then PieceShown(seg, want, n) else PieceMissed(seg, want, n, ms)
    ensures Add(AddAll(log, segs), r, seg) == AddAll(log, segs[r := seg])
    ensures PiecesHeard(segs[r := seg], done + {r}, if equal then bad else bad + {r}, want, n, ms)
  {
    hide PieceShown, PieceMissed, Add, AddAll;
    OneMoreAdded(log, segs, r, seg);
  }

  /** The pieces collected so far: what is known of the ROCs, and what was seen. */
  ghost predicate Collected(k0: map<RocId, Known>, k1: map<RocId, Known>, segs: Log, sent: set<RocId>, done: set<RocId>,
                            bad: set<RocId>, addr: nat, n: nat, base: nat, had: seq<Byte>, piece: seq<Byte>,
                            want: seq<Word>, ms: int) {
    && bad <= done <= sent && addr == base + |had| && AllHope(k0, sent, ReadOf(addr, n, base, had))
    && ReadOutcomes(k0, k1, done, base, bad, had, had + piece) && PiecesHeard(segs, done, bad, want, n, ms)
  }

  lemma CollectedStart(k: map<RocId, Known>, sent: set<RocId>, addr: nat, n: nat, base: nat, had: seq<Byte>,
                       piece: seq<Byte>, want: seq<Word>, ms: int)
    requires addr == base + |had| && AllHope(k, sent, ReadOf(addr, n, base, had)) && AllTrack(k, sent, base, had)
    ensures Collected(k, k, map[], sent, {}, {}, addr, n, base, had, piece, want, ms)
  {
    ReadStart(k, {}, base, had, had + piece);
  }

  lemma CollectedNext(k0: map<RocId, Known>, k1: map<RocId, Known>, segs: Log, sent: set<RocId>, done: set<RocId>,
                      bad: set<RocId>, addr: nat, n: nat, base: nat, had: seq<Byte>, piece: seq<Byte>, want: seq<Word>,
                      ms: int, r: RocId)
    requires Collected(k0, k1, segs, sent, done, bad, addr, n, base, had, piece, want, ms) && r in sent && r !in done
    ensures r in k0 && r in k1 && k1[r] == k0[r] && Awaits(k1[r].hope, addr, n)
  {
    ReadUntouched(k0, k1, done, base, bad, had, had + piece, r);
    PieceAwaited(k0, k1, sent, addr, n, base, had, r);
  }

  lemma CollectedOneMore(log: Log, k0: map<RocId, Known>, k1: map<RocId, Known>, k2: map<RocId, Known>, segs: Log,
                         sent: set<RocId>, done: set<RocId>, bad: set<RocId>, addr: nat, n: nat, base: nat, had: seq<Byte>,
                         piece: seq<Byte>, want: seq<Word>, ms: int, r: RocId, equal: bool, seg: seq<Access>)
    requires Collected(k0, k1, segs, sent, done, bad, addr, n, base, had, piece, want, ms) && r in sent && r !in done
    requires r in k1 && Only(k1, k2, {r}) && PieceKnown(k1[r], k2, r, equal, piece)
    requires if equal then PieceShown(seg, want, n) else PieceMissed(seg, want, n, ms)
    ensures Add(AddAll(log, segs), r, seg) == AddAll(log, segs[r := seg])
    ensures Collected(k0, k2, segs[r := seg], sent, done + {r}, if equal then bad else bad + {r}, addr, n, base, had, piece,
                      want, ms)
  {
    hide PieceShown, PieceMissed, Add, AddAll, ReadOutcomes, PiecesHeard, PieceKnown;
    CollectedNext(k0, k1, segs, sent, done, bad, addr, n, base, had, piece, want, ms, r);
    PieceAwaited(k0, k1, sent, addr, n, base, had, r);
    PieceTracks(k1[r], k2, r, equal, piece, addr, n, base, had);
    ReadOneMore(k0, k1, k2, done, base, bad, had, had + piece, r, equal);
    OneMorePieceHeard(log, segs, done, bad, want, n, ms, r, seg, equal);
  }

  lemma CollectedAll(k0: map<RocId, Known>, k1: map<RocId, Known>, segs: Log, sent: set<RocId>, bad: set<RocId>, addr: nat,
                     n: nat, base: nat, had: seq<Byte>, piece: seq<Byte>, want: seq<Word>, ms: int)
    requires Collected(k0, k1, segs, sent, sent, bad, addr, n, base, had, piece, want, ms)
    ensures bad <= sent && ReadOutcomes(k0, k1, sent, base, bad, had, had + piece)
    ensures PiecesHeard(segs, sent, bad, want, n, ms)
  {
  }

  lemma PieceRoundLog(log: Log, segs: Log, s1: Log, s2: Log, rs: set<RocId>, todo: set<RocId>, sent: set<RocId>,
                      bad: set<RocId>, q: Ask, tries: nat)
    requires q.AskRead? && todo <= rs && AskedSoFar(q, tries, segs, rs, todo) && SentTo(q, s1, todo, sent)
    requires PiecesHeard(s2, sent, bad, q.words, q.bytes, q.ms)
    ensures var after := AddAll(AddAll(segs, s1), s2);
            && AddAll(AddAll(AddAll(log, segs), s1), s2) == AddAll(log, after)
            && AskedSoFar(q, tries + 1, after, rs, (todo - sent) + bad)
  {
    hide NotTaken, AddAll, AskedSoFar;
    assert HeardFrom(q, s1, s2, sent, bad);
    RoundLog(log, segs, s1, s2, rs, todo, sent, bad, q, tries);
  }

  // ---------------------------------------------------------------- one attempt at a segment

  /** At the end of these accesses an erase or write failed. */
  ghost predicate EndsInFailure(seg: seq<Access>, newMiv: bool, c: Cmd, ms: int, minMs: int) {
    exists k: nat :: k <= |seg| && CommandFails(seg[k..], newMiv, c, ms, minMs)
  }

  /** At the end of these accesses a question failed in all its tries. */
  ghost predicate EndsUnanswered(seg: seq<Access>, q: Ask, tries: nat) {
    exists k: nat :: k <= |seg| && TriesFail(q, tries, seg[k..])
  }

  lemma FailureStays(before: seq<Access>, seg: seq<Access>, newMiv: bool, c: Cmd, ms: int, minMs: int)
    requires EndsInFailure(seg, newMiv, c, ms, minMs)
    ensures EndsInFailure(before + seg, newMiv, c, ms, minMs)
  {
    var k: nat :| k <= |seg| && CommandFails(seg[k..], newMiv, c, ms, minMs);
    assert (before + seg)[|before| + k..] == seg[k..];
  }

  lemma FailureAtOnce(seg: seq<Access>, newMiv: bool, c: Cmd, ms: int, minMs: int)
    requires CommandFails(seg, newMiv, c, ms, minMs)
    ensures EndsInFailure(seg, newMiv, c, ms, minMs)
  {
    assert seg[0..] == seg;
  }

  lemma UnansweredStays(before: seq<Access>, seg: seq<Access>, q: Ask, tries: nat)
    requires EndsUnanswered(seg, q, tries)
    ensures EndsUnanswered(before + seg, q, tries)
  {
    var k: nat :| k <= |seg| && TriesFail(q, tries, seg[k..]);
    assert (before + seg)[|before| + k..] == seg[k..];
  }

  lemma UnansweredAtOnce(seg: seq<Access>, q: Ask, tries: nat)
    requires TriesFail(q, tries, seg)
    ensures EndsUnanswered(seg, q, tries)
  {
    assert seg[0..] == seg;
  }

  /** One of the records of the segment could not be written. */
  ghost predicate RecordFails(seg: seq<Access>, newMiv: bool, opt: Options, image: seq<Byte>, off: nat, len: nat)
    requires off + len <= |image| && len % 2 == 0
  {
    exists k: nat ::
      && k < RecordCount(len)
      && EndsInFailure(seg, newMiv, Record(image, opt.startAddress, off, len, k), opt.writeTimeoutMs, opt.legacyWriteMinMs)
  }

  /** A piece of an older MiV: its address in the segment and its length. */
  predicate IsPiece(len: nat, p: nat, n: nat) {
    0 < n <= 1016 && n % 2 == 0 && p % 2 == 0 && p + n <= len
  }

  /** The question that verifies a piece. */
  function PieceAsk(opt: Options, image: seq<Byte>, off: nat, p: nat, n: nat): Ask
    requires off + p + n <= |image| && n % 2 == 0
  {
    AskRead(opt.startAddress + off + p, n, WordsOf(image, off + p, n), opt.readTimeoutMs)
  }

  function SegmentAsk(opt: Options, image: seq<Byte>, digest: seq<Byte> -> nat, off: nat, len: nat): Ask
    requires off + len <= |image|
  {
    AskCrc(opt.startAddress + off, len, digest(image[off..off + len]), opt.crcSegmentTimeoutMs)
  }

  /** The CRC of the segment did not agree in two tries, or one of its pieces did not in four. */
  ghost predicate VerifyFails(seg: seq<Access>, newMiv: bool, opt: Options, image: seq<Byte>, digest: seq<Byte> -> nat,
                              off: nat, len: nat)
    requires off + len <= |image|
  {
    if newMiv then EndsUnanswered(seg, SegmentAsk(opt, image, digest, off, len), 2)
    else PieceFails(seg, opt, image, off, len)
  }

  ghost predicate PieceFails(seg: seq<Access>, opt: Options, image: seq<Byte>, off: nat, len: nat)
    requires off + len <= |image|
  {
    exists p: nat, n: nat :: IsPiece(len, p, n) && EndsUnanswered(seg, PieceAsk(opt, image, off, p, n), 4)
  }

  /** An attempt at a segment fails when its erase, one of its records or its verification does. */
  ghost predicate AttemptFails(seg: seq<Access>, newMiv: bool, opt: Options, image: seq<Byte>, digest: seq<Byte> -> nat,
                               off: nat, len: nat)
    requires off + len <= |image| && len % 2 == 0
  {
    var addr := opt.startAddress + off;
    || EndsInFailure(seg, newMiv, if newMiv then Erase(addr, 0x10000, 0) else Erase(addr, 1, 0), opt.eraseTimeoutMs,
                     opt.legacyEraseMinMs)
    || RecordFails(seg, newMiv, opt, image, off, len)
    || VerifyFails(seg, newMiv, opt, image, digest, off, len)
  }

  lemma RecordStays(before: seq<Access>, seg: seq<Access>, newMiv: bool, opt: Options, image: seq<Byte>, off: nat, len: nat)
    requires off + len <= |image| && len % 2 == 0 && RecordFails(seg, newMiv, opt, image, off, len)
    ensures RecordFails(before + seg, newMiv, opt, image, off, len)
  {
    var k: nat :| k < RecordCount(len) && EndsInFailure(seg, newMiv, Record(image, opt.startAddress, off, len, k),
                                                        opt.writeTimeoutMs, opt.legacyWriteMinMs);
    FailureStays(before, seg, newMiv, Record(image, opt.startAddress, off, len, k), opt.writeTimeoutMs, opt.legacyWriteMinMs);
  }

  lemma PieceStays(before: seq<Access>, seg: seq<Access>, opt: Options, image: seq<Byte>, off: nat, len: nat)
    requires off + len <= |image| && PieceFails(seg, opt, image, off, len)
    ensures PieceFails(before + seg, opt, image, off, len)
  {
    var p: nat, n: nat :| IsPiece(len, p, n) && EndsUnanswered(seg, PieceAsk(opt, image, off, p, n), 4);
    UnansweredStays(before, seg, PieceAsk(opt, image, off, p, n), 4);
  }

  lemma VerifyStays(before: seq<Access>, seg: seq<Access>, newMiv: bool, opt: Options, image: seq<Byte>,
                    digest: seq<Byte> -> nat, off: nat, len: nat)
    requires off + len <= |image| && VerifyFails(seg, newMiv, opt, image, digest, off, len)
    ensures VerifyFails(before + seg, newMiv, opt, image, digest, off, len)
  {
    if newMiv {
      UnansweredStays(before, seg, SegmentAsk(opt, image, digest, off, len), 2);
    } else {
      PieceStays(before, seg, opt, image, off, len);
    }
  }

  // ---------------------------------------------------------------- a segment on several ROCs

  ghost predicate WritesEnded(segs: Log, rs: set<RocId>, err: set<RocId>, after: set<RocId>, res: map<RocId, RocResult>,
                              opt: Options, image: seq<Byte>, off: nat, len: nat)
    requires off + len <= |image| && len % 2 == 0
  {
    && segs.Keys <= rs <= res.Keys
    && forall r :: r in rs && r in after && r !in err ==> RecordFails(Of(segs, r), res[r].newMiv, opt, image, off, len)
  }

  lemma NoWrites(rs: set<RocId>, err: set<RocId>, res: map<RocId, RocResult>, opt: Options, image: seq<Byte>, off: nat,
                 len: nat)
    requires off + len <= |image| && len % 2 == 0 && rs <= res.Keys
    ensures WritesEnded(map[], rs, err, err, res, opt, image, off, len)
  {
  }

  /** One record more. */
  lemma RecordLog(log: Log, segs: Log, more: Log, rs: set<RocId>, err: set<RocId>, was: set<RocId>, after: set<RocId>,
                  res: map<RocId, RocResult>, opt: Options, image: seq<Byte>, off: nat, len: nat, k: nat)
    requires off + len <= |image| && len % 2 == 0 && k < RecordCount(len) && err <= was <= after
    requires WritesEnded(segs, rs, err, was, res, opt, image, off, len)
    requires var c := Record(image, opt.startAddress, off, len, k);
             CommandsEnded(more, rs - was, after, res, c, c, opt.writeTimeoutMs, opt.legacyWriteMinMs)
    ensures AddAll(AddAll(log, segs), more) == AddAll(log, AddAll(segs, more))
    ensures WritesEnded(AddAll(segs, more), rs, err, after, res, opt, image, off, len)
  {
    hide AddAll, CommandFails, CommandSucceeds, EndsInFailure, RecordFails, Record;
    BothAdded(log, segs, more);
    var c := Record(image, opt.startAddress, off, len, k);
    forall r | r in rs && r in after && r !in err
      ensures RecordFails(Of(AddAll(segs, more), r), res[r].newMiv, opt, image, off, len)
    {
      OfAdded(segs, more, r);
      if r in was {
        Joins(Of(segs, r), [], []);
      } else {
        OneRecordFails(Of(segs, r), Of(more, r), res[r].newMiv, opt, image, off, len, k);
      }
    }
  }

  lemma OneRecordFails(before: seq<Access>, seg: seq<Access>, newMiv: bool, opt: Options, image: seq<Byte>, off: nat,
                       len: nat, k: nat)
    requires off + len <= |image| && len % 2 == 0 && k < RecordCount(len)
    requires CommandFails(seg, newMiv, Record(image, opt.startAddress, off, len, k), opt.writeTimeoutMs, opt.legacyWriteMinMs)
    ensures RecordFails(before + seg, newMiv, opt, image, off, len)
  {
    hide Record, CommandFails;
    var c := Record(image, opt.startAddress, off, len, k);
    FailureAtOnce(seg, newMiv, c, opt.writeTimeoutMs, opt.legacyWriteMinMs);
    FailureStays(before, seg, newMiv, c, opt.writeTimeoutMs, opt.legacyWriteMinMs);
  }

  /** The pieces read back so far: the ROCs that dropped out did not answer one of them as wanted. */
  ghost predicate PiecesEnded(segs: Log, rs: set<RocId>, bad: set<RocId>, opt: Options, image: seq<Byte>, off: nat, len: nat)
    requires off + len <= |image|
  {
    && segs.Keys <= rs
    && forall r :: r in rs && r in bad ==> PieceFails(Of(segs, r), opt, image, off, len)
  }

  lemma NoPieces(rs: set<RocId>, opt: Options, image: seq<Byte>, off: nat, len: nat)
    requires off + len <= |image|
    ensures PiecesEnded(map[], rs, rs - rs, opt, image, off, len)
  {
  }

  /** One piece more. */
  lemma PieceLogAt(log: Log, segs: Log, more: Log, rs: set<RocId>, rest: set<RocId>, bad: set<RocId>, opt: Options,
                   image: seq<Byte>, off: nat, len: nat, p: nat, n: nat)
    requires off + len <= |image| && IsPiece(len, p, n) && bad <= rest <= rs
    requires PiecesEnded(segs, rs, rs - rest, opt, image, off, len)
    requires Asked(AskRead(opt.startAddress + (off + p), n, WordsOf(image, off + p, n), opt.readTimeoutMs), 4, more, rest, bad)
    ensures AddAll(AddAll(log, segs), more) == AddAll(log, AddAll(segs, more))
    ensures PiecesEnded(AddAll(segs, more), rs, rs - (rest - bad), opt, image, off, len)
  {
    hide AddAll, PiecesEnded, Asked;
    PieceLog(log, segs, more, rs, rest, bad, opt, image, off, len, p, n);
  }

  lemma PieceLog(log: Log, segs: Log, more: Log, rs: set<RocId>, rest: set<RocId>, bad: set<RocId>, opt: Options,
                 image: seq<Byte>, off: nat, len: nat, p: nat, n: nat)
    requires off + len <= |image| && IsPiece(len, p, n) && bad <= rest <= rs
    requires PiecesEnded(segs, rs, rs - rest, opt, image, off, len)
    requires Asked(PieceAsk(opt, image, off, p, n), 4, more, rest, bad)
    ensures AddAll(AddAll(log, segs), more) == AddAll(log, AddAll(segs, more))
    ensures PiecesEnded(AddAll(segs, more), rs, rs - (rest - bad), opt, image, off, len)
  {
    hide AddAll, EndsUnanswered, PieceFails, PieceAsk, TriesFail, EndsWell;
    BothAdded(log, segs, more);
    forall r | r in rs && r in rs - (rest - bad) ensures PieceFails(Of(AddAll(segs, more), r), opt, image, off, len) {
      OfAdded(segs, more, r);
      if r in rest {
        OnePieceFails(Of(segs, r), Of(more, r), opt, image, off, len, p, n);
      } else {
        Joins(Of(segs, r), [], []);
      }
    }
  }

  lemma OnePieceFails(before: seq<Access>, seg: seq<Access>, opt: Options, image: seq<Byte>, off: nat, len: nat, p: nat,
                      n: nat)
    requires off + len <= |image| && IsPiece(len, p, n) && TriesFail(PieceAsk(opt, image, off, p, n), 4, seg)
    ensures PieceFails(before + seg, opt, image, off, len)
  {
    hide PieceAsk, TriesFail;
    UnansweredAtOnce(seg, PieceAsk(opt, image, off, p, n), 4);
    UnansweredStays(before, seg, PieceAsk(opt, image, off, p, n), 4);
  }

  ghost predicate VerifyEnded(segs: Log, rs: set<RocId>, bad: set<RocId>, res: map<RocId, RocResult>, opt: Options,
                              image: seq<Byte>, digest: seq<Byte> -> nat, off: nat, len: nat)
    requires off + len <= |image|
  {
    && segs.Keys <= rs <= res.Keys
    && forall r :: r in rs && r in bad ==> VerifyFails(Of(segs, r), res[r].newMiv, opt, image, digest, off, len)
  }

  lemma VerifyLog(log: Log, s1: Log, s2: Log, rs: set<RocId>, crcRocs: set<RocId>, rbRocs: set<RocId>, crcBad: set<RocId>,
                  rbBad: set<RocId>, after: set<RocId>, res: map<RocId, RocResult>, opt: Options, image: seq<Byte>,
                  digest: seq<Byte> -> nat, off: nat, len: nat)
    requires off + len <= |image| && rs <= res.Keys
    requires crcRocs == (set r | r in rs && res[r].newMiv) && rbRocs == (set r | r in rs && !res[r].newMiv)
    requires Asked(SegmentAsk(opt, image, digest, off, len), 2, s1, crcRocs, crcBad)
    requires PiecesEnded(s2, rbRocs, rbBad, opt, image, off, len)
    requires forall r :: r in rs && r in after ==> r in crcBad + rbBad
    requires rbBad <= rbRocs
    ensures AddAll(AddAll(log, s1), s2) == AddAll(log, AddAll(s1, s2))
    ensures VerifyEnded(AddAll(s1, s2), rs, after, res, opt, image, digest, off, len)
  {
    hide AddAll, EndsUnanswered, PieceFails, SegmentAsk, TriesFail, EndsWell;
    BothAdded(log, s1, s2);
    forall r | r in rs && r in after
      ensures VerifyFails(Of(AddAll(s1, s2), r), res[r].newMiv, opt, image, digest, off, len)
    {
      OfAdded(s1, s2, r);
      if res[r].newMiv {
        assert r !in rbRocs;
        Joins(Of(s1, r), [], []);
        UnansweredAtOnce(Of(s1, r), SegmentAsk(opt, image, digest, off, len), 2);
      } else {
        assert r !in crcRocs;
        Joins(Of(s2, r), [], []);
      }
    }
  }

  ghost predicate AttemptEnded(segs: Log, rs: set<RocId>, err: set<RocId>, res: map<RocId, RocResult>, opt: Options,
                               image: seq<Byte>, digest: seq<Byte> -> nat, off: nat, len: nat)
    requires off + len <= |image| && len % 2 == 0
  {
    && segs.Keys <= rs <= res.Keys
    && forall r :: r in rs && r in err ==> AttemptFails(Of(segs, r), res[r].newMiv, opt, image, digest, off, len)
  }

  /** Erase, records, verification, one after the other. */
  lemma AttemptLog(log: Log, s1: Log, s2: Log, s3: Log, rs: set<RocId>, e1: set<RocId>, e2: set<RocId>, e3: set<RocId>,
                   res: map<RocId, RocResult>, opt: Options, image: seq<Byte>, digest: seq<Byte> -> nat, off: nat, len: nat)
    requires off + len <= |image| && len % 2 == 0 && e1 <= e2 <= e3 <= rs <= res.Keys
    requires CommandsEnded(s1, rs, e1, res, EraseNew(opt.startAddress + off), EraseOld(opt.startAddress + off),
                           opt.eraseTimeoutMs, opt.legacyEraseMinMs)
    requires WritesEnded(s2, rs, e1, e2, res, opt, image, off, len) && s2.Keys <= rs - e1
    requires VerifyEnded(s3, rs - e2, e3, res, opt, image, digest, off, len)
    ensures AddAll(AddAll(AddAll(log, s1), s2), s3) == AddAll(log, AddAll(AddAll(s1, s2), s3))
    ensures AttemptEnded(AddAll(AddAll(s1, s2), s3), rs, e3, res, opt, image, digest, off, len)
  {
    hide AddAll, CommandFails, CommandSucceeds, RecordFails, VerifyFails, AttemptFails;
    RoundAdds(log, s1, s2, s3);
    forall r | r in rs && r in e3
      ensures AttemptFails(Of(AddAll(AddAll(s1, s2), s3), r), res[r].newMiv, opt, image, digest, off, len)
    {
      AttemptOne(Of(s1, r), Of(s2, r), Of(s3, r), res[r].newMiv, r in e1, r in e2, opt, image, digest, off, len);
    }
  }

  lemma AttemptOne(s1: seq<Access>, s2: seq<Access>, s3: seq<Access>, newMiv: bool, e1: bool, e2: bool, opt: Options,
                   image: seq<Byte>, digest: seq<Byte> -> nat, off: nat, len: nat)
    requires off + len <= |image| && len % 2 == 0
    requires e1 ==> s2 == s3 == [] && CommandFails(s1, newMiv, Chosen(newMiv, EraseNew(opt.startAddress + off),
                                                                     EraseOld(opt.startAddress + off)),
                                                   opt.eraseTimeoutMs, opt.legacyEraseMinMs)
    requires !e1 && e2 ==> s3 == [] && RecordFails(s2, newMiv, opt, image, off, len)
    requires !e1 && !e2 ==> VerifyFails(s3, newMiv, opt, image, digest, off, len)
    ensures AttemptFails(s1 + (s2 + s3), newMiv, opt, image, digest, off, len)
  {
    hide CommandFails, RecordFails, VerifyFails;
    Joins(s1, [], []);
    Joins(s2, [], []);
    if e1 {
      FailureAtOnce(s1, newMiv, Chosen(newMiv, EraseNew(opt.startAddress + off), EraseOld(opt.startAddress + off)),
                    opt.eraseTimeoutMs, opt.legacyEraseMinMs);
    } else if e2 {
      RecordStays(s1, s2, newMiv, opt, image, off, len);
    } else {
      VerifyStays(s2, s3, newMiv, opt, image, digest, off, len);
      VerifyStays(s1, s2 + s3, newMiv, opt, image, digest, off, len);
    }
  }
}
