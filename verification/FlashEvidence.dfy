/** What the session did on the links and what it saw there; and what of it excuses that a ROC is failed. All values and
    times are those of the accesses themselves. */
module FlashEvidence {
  import opened Basics
  import opened FlashWorld
  import opened FlashWire
  import opened FlashLedger
  import opened FlashSteps

  const REG_RETURN := 132
  const REG_FW_VERSION := 246

  /** One access of the link of a ROC, at what time and whether it threw. The FIFO is the one behind the register or the
      block read. */
  datatype Access =
    | Timer(at: nat)                                                     // a wait begins
    | Done(at: nat, thrown: bool, value: Word)
    | Count(at: nat, thrown: bool, fifo: seq<Reply>)
    | Other(at: nat, thrown: bool, reg: nat, value: Word)
    | Sent(at: nat, thrown: bool, cmd: Cmd, wire: seq<Word>)
    | Block(at: nat, thrown: bool, asked: nat, fifo: seq<Reply>)
    | Reset(at: nat, thrown: bool)                                       // of the link

  /** What REG_COUNT shows. */
  function Size(a: Access): Word
    requires a.Count?
  {
    CountOf(a.fifo)
  }

  /** The words a block read returns. */
  function WordsIn(a: Access): seq<Word>
    requires a.Block?
  {
    Flat(a.fifo[..WholeReplies(a.fifo, a.asked)])
  }

  /** The accesses of each ROC. */
  type Log = map<RocId, seq<Access>>

  predicate Threw(a: Access) {
    !a.Timer? && a.thrown
  }

  // ---------------------------------------------------------------- logs

  function Of(log: Log, r: RocId): seq<Access> {
    if r in log then log[r] else []
  }

  /** The log with more accesses. */
  function AddAll(log: Log, segs: Log): (after: Log)
    ensures after.Keys == log.Keys + segs.Keys
  {
    map r | r in log.Keys + segs.Keys :: Of(log, r) + Of(segs, r)
  }

  function Add(log: Log, r: RocId, seg: seq<Access>): Log {
    AddAll(log, map[r := seg])
  }

  lemma OfAdded(log: Log, segs: Log, r: RocId)
    ensures Of(AddAll(log, segs), r) == Of(log, r) + Of(segs, r)
  {
  }

  lemma Same(x: Log, y: Log)
    requires x.Keys == y.Keys && forall r :: r in x ==> Of(x, r) == Of(y, r)
    ensures x == y
  {
    forall r | r in x ensures x[r] == y[r] { assert Of(x, r) == Of(y, r); }
  }

  lemma NoneAdded(log: Log)
    ensures AddAll(log, map[]) == log
  {
    forall r | r in log ensures Of(AddAll(log, map[]), r) == Of(log, r) { OfAdded(log, map[], r); }
    Same(AddAll(log, map[]), log);
  }

  lemma Joins(a: seq<Access>, b: seq<Access>, c: seq<Access>)
    ensures a + b + c == a + (b + c) && a + [] == a && [] + a == a
  {
  }

  lemma OfBoth(log: Log, a: Log, b: Log, r: RocId)
    ensures Of(AddAll(AddAll(log, a), b), r) == Of(AddAll(log, AddAll(a, b)), r)
  {
    OfAdded(AddAll(log, a), b, r);
    OfAdded(log, a, r);
    OfAdded(log, AddAll(a, b), r);
    OfAdded(a, b, r);
    hide AddAll, Of;
    Joins(Of(log, r), Of(a, r), Of(b, r));
  }

  lemma BothAdded(log: Log, a: Log, b: Log)
    ensures AddAll(AddAll(log, a), b) == AddAll(log, AddAll(a, b))
  {
    hide AddAll, Of;
    var x, y := AddAll(AddAll(log, a), b), AddAll(log, AddAll(a, b));
    forall r | r in x ensures Of(x, r) == Of(y, r) { OfBoth(log, a, b, r); }
    assert x.Keys == y.Keys;
    Same(x, y);
  }

  /** More accesses of one ROC. */
  lemma MoreOf(segs: Log, r: RocId, seg: seq<Access>)
    ensures Add(segs, r, seg) == segs[r := Of(segs, r) + seg]
  {
    var x, y := Add(segs, r, seg), segs[r := Of(segs, r) + seg];
    forall q | q in x ensures Of(x, q) == Of(y, q) {
      OfAdded(segs, map[r := seg], q);
      Joins(Of(segs, q), [], []);
    }
    assert x.Keys == y.Keys;
    Same(x, y);
  }

  lemma MoreAdded(log: Log, segs: Log, r: RocId, seg: seq<Access>)
    ensures Add(AddAll(log, segs), r, seg) == AddAll(log, segs[r := Of(segs, r) + seg])
  {
    BothAdded(log, segs, map[r := seg]);
    MoreOf(segs, r, seg);
  }

  lemma OneMoreAdded(log: Log, segs: Log, r: RocId, seg: seq<Access>)
    requires r !in segs
    ensures Add(AddAll(log, segs), r, seg) == AddAll(log, segs[r := seg])
  {
    MoreAdded(log, segs, r, seg);
    Joins(seg, [], []);
  }

  lemma AddedTwice(log: Log, r: RocId, a: seq<Access>, b: seq<Access>)
    ensures Add(Add(log, r, a), r, b) == Add(log, r, a + b)
  {
    MoreAdded(log, map[r := a], r, b);
    assert map[r := a][r := a + b] == map[r := a + b];
  }

  // ---------------------------------------------------------------- waiting until a ROC is idle, and sending

  function Last(seg: seq<Access>): Access
    requires seg != []
  {
    seg[|seg| - 1]
  }

  /** More than `ms` milliseconds in whole ones. */
  predicate Over(at: int, from: int, ms: int) {
    at - from >= 1000 * (ms + 1)
  }

  /** DONE and REG_COUNT were read one after the other. */
  predicate LookAt(seg: seq<Access>, i: int) {
    && 0 <= i < |seg| - 1 && seg[i].Done? && !seg[i].thrown && seg[i + 1].Count? && !seg[i + 1].thrown
  }

  /** And showed the ROC idle: DONE set or 0, the FIFO empty. */
  predicate IdleAt(seg: seq<Access>, i: int) {
    LookAt(seg, i) && (seg[i].value == 0 || seg[i].value >= 0x8000) && Size(seg[i + 1]) == 0
  }

  ghost predicate NeverIdle(seg: seq<Access>) {
    forall i :: !IdleAt(seg, i)
  }

  /** The last look did not show the ROC idle. */
  ghost predicate BusyAtLast(seg: seq<Access>) {
    exists i :: LookAt(seg, i) && !IdleAt(seg, i) && forall j :: i < j < |seg| ==> !seg[j].Done?
  }

  /** After every look that found a reply, REG_COUNT was read again and as many words as it showed then were read away. */
  ghost predicate Drained(seg: seq<Access>) {
    forall i :: LookAt(seg, i) && Size(seg[i + 1]) >= 4 ==> DrainedAt(seg, i + 2)
  }

  predicate DrainedAt(seg: seq<Access>, i: nat) {
    && i < |seg| && seg[i].Count?
    && (!seg[i].thrown && Size(seg[i]) >= 4 ==>
          i + 1 < |seg| && seg[i + 1].Block? && seg[i + 1].asked == Size(seg[i]) - 4)
  }

  lemma DrainedAtStart(t0: nat)
    ensures Drained([Timer(t0)])
  {
  }

  lemma NothingToDrain(seg: seq<Access>, look: seq<Access>)
    requires Drained(seg) && (seg == [] || !Last(seg).Done?)
    requires 1 <= |look| <= 2 && look[0].Done? && (|look| == 2 ==> look[1].Count? && (look[1].thrown || Size(look[1]) < 4))
    ensures Drained(seg + look)
  {
    var all := seg + look;
    forall i | LookAt(all, i) && Size(all[i + 1]) >= 4 ensures DrainedAt(all, i + 2) {
      assert i + 1 < |seg|;
      assert LookAt(seg, i) && DrainedAt(seg, i + 2);
    }
  }

  lemma DrainedNow(seg: seq<Access>, look: seq<Access>, more: seq<Access>)
    requires Drained(seg) && (seg == [] || !Last(seg).Done?)
    requires |look| == 2 && look[0].Done? && look[1].Count? && DrainedAt(more, 0)
    requires forall j :: 0 <= j < |more| ==> !more[j].Done?
    ensures Drained(seg + look + more)
  {
    var all := seg + look + more;
    forall i | LookAt(all, i) && Size(all[i + 1]) >= 4 ensures DrainedAt(all, i + 2) {
      if i + 1 < |seg| {
        assert LookAt(seg, i) && DrainedAt(seg, i + 2);
      } else {
        assert i == |seg|;
      }
    }
  }

  /** A command that was not sent: an access threw, or the time was over and the ROC still busy. */
  ghost predicate NotTaken(seg: seq<Access>, ms: int) {
    && seg != [] && seg[0].Timer?
    && (|| Threw(Last(seg))
        || (Last(seg).at - seg[0].at >= 1000 * ms && BusyAtLast(seg)))
  }

  predicate TookIt(seg: seq<Access>, c: Cmd) {
    seg != [] && Last(seg) == Sent(Last(seg).at, false, c, CommandWords(c))
  }

  lemma LookJoins(seg: seq<Access>, done: Access, count: Access)
    requires NeverIdle(seg) && done.Done? && !done.thrown && count.Count? && !count.thrown
    requires !((done.value == 0 || done.value >= 0x8000) && Size(count) == 0)
    ensures NeverIdle(seg + [done, count]) && BusyAtLast(seg + [done, count])
  {
    var all := seg + [done, count];
    forall i ensures !IdleAt(all, i) {
      if 0 <= i < |seg| - 1 { assert !IdleAt(seg, i); }
    }
    assert LookAt(all, |seg|);
  }

  lemma NoLook(t0: nat)
    ensures NeverIdle([Timer(t0)])
  {
  }

  lemma BusyAlone(seg: seq<Access>)
    requires |seg| == 2 && LookAt(seg, 0) && !IdleAt(seg, 0)
    ensures BusyAtLast(seg)
  {
  }

  /** Neither does a look that finds words to drain. */
  lemma DrainJoins(seg: seq<Access>, more: seq<Access>)
    requires NeverIdle(seg) && BusyAtLast(seg) && seg != [] && !Last(seg).Done?
    requires forall j :: 0 <= j < |more| ==> !more[j].Done?
    ensures NeverIdle(seg + more) && BusyAtLast(seg + more)
  {
    var all := seg + more;
    forall i ensures !IdleAt(all, i) {
      if 0 <= i < |seg| - 1 { assert !IdleAt(seg, i); }
    }
    var i :| LookAt(seg, i) && !IdleAt(seg, i) && forall j :: i < j < |seg| ==> !seg[j].Done?;
    assert LookAt(all, i) && !IdleAt(all, i);
  }

  lemma BusyStays(before: seq<Access>, seg: seq<Access>)
    requires BusyAtLast(seg)
    ensures BusyAtLast(before + seg)
  {
    var i :| LookAt(seg, i) && !IdleAt(seg, i) && forall j :: i < j < |seg| ==> !seg[j].Done?;
    var all := before + seg;
    assert LookAt(all, |before| + i) && !IdleAt(all, |before| + i);
    forall j | |before| + i < j < |all| ensures !all[j].Done? {
      assert all[j] == seg[j - |before|];
    }
  }

  // ---------------------------------------------------------------- replies

  /** The wait ended with a reply of n words, the first of them t. */
  predicate GoodReply(seg: seq<Access>, t: Word, n: nat) {
    && seg != [] && Last(seg).Block? && !Last(seg).thrown && Last(seg).asked == n
    && |WordsIn(Last(seg))| == n && n > 0 && WordsIn(Last(seg))[0] == t
  }

  /** REG_COUNT showed a reply of n words. */
  predicate Came(a: Access, n: nat) {
    a.Count? && !a.thrown && Size(a) == n + 4
  }

  /** It ended without: an access threw, too many words were there, the reply had vanished when it was to be read, it had
      not come after more than `ms` milliseconds, or it was of another size or had another tag. */
  predicate NoReply(seg: seq<Access>, t: Word, n: nat, ms: int) {
    && |seg| > 1 && seg[0].Timer?
    && var z := Last(seg);
    || Threw(z)
    || (z.Count? && Size(z) > n + 4)
    || (z.Count? && Size(z) != n + 4 && Came(seg[|seg| - 2], n))
    || (z.Other? && |seg| > 3 && seg[|seg| - 3].Count? && Size(seg[|seg| - 3]) < n + 4 && Over(seg[|seg| - 3].at, seg[0].at, ms))
    || (z.Block? && z.asked == n && (|WordsIn(z)| != n || n == 0 || WordsIn(z)[0] != t))
  }

  /** A good reply is accepted: while the FIFO holds it and nothing else, and no access throws, the wait ends with it. */
  lemma GoodReplyAccepted(seg: seq<Access>, t: Word, n: nat, ms: int, ws: seq<Word>, who: Option<Cmd>)
    requires 0 < |ws| == n && n + 4 < 2047 && ws[0] == t
    requires forall i :: 0 <= i < |seg| ==> !Threw(seg[i])
    requires forall i :: 0 <= i < |seg| && (seg[i].Count? || seg[i].Block?) ==> seg[i].fifo == [Reply(ws, who)]
    requires GoodReply(seg, t, n) || NoReply(seg, t, n, ms)
    ensures GoodReply(seg, t, n) && WordsIn(Last(seg)) == ws
  {
    var fifo := [Reply(ws, who)];
    assert fifo[1..] == [];
    assert WordCount(fifo) == n && CountOf(fifo) == n + 4;
    assert WholeReplies(fifo, n) == 1 && fifo[..1] == fifo;
    assert Flat(fifo) == ws + [];
  }

  // ---------------------------------------------------------------- a question asked and asked again

  /** What a reply has to show: the CRC of a range, or its words. */
  datatype Ask = AskCrc(addr: nat, bytes: nat, want: nat, ms: int) | AskRead(addr: nat, bytes: nat, words: seq<Word>, ms: int)

  predicate Asks(a: Access, q: Ask) {
    && a.Sent? && !a.thrown && a.wire == CommandWords(a.cmd)
    && match q
       case AskCrc(x, n, _, _) => a.cmd.Crc? && a.cmd.addr == x && a.cmd.bytes == n && a.cmd.no != 0
       case AskRead(x, n, _, _) => a.cmd == Read(x, n)
  }

  /** The reply has the CRC that is wanted and no error, or the words that are wanted. */
  predicate AnswerGood(q: Ask, cmd: Cmd, seg: seq<Access>) {
    match q
    case AskCrc(_, _, want, _) =>
      && GoodReply(seg, TagOf(cmd), 4) && WordsIn(Last(seg))[3] == 0
      && (WordsIn(Last(seg))[1] as nat) + 65536 * (WordsIn(Last(seg))[2] as nat) == want
    case AskRead(_, n, words, _) =>
      seg != [] && Last(seg).Block? && !Last(seg).thrown && Last(seg).asked == n / 2 && WordsIn(Last(seg)) == words
  }

  predicate AnswerBad(q: Ask, cmd: Cmd, seg: seq<Access>) {
    match q
    case AskCrc(_, _, want, ms) =>
      || NoReply(seg, TagOf(cmd), 4, ms)
      || (&& GoodReply(seg, TagOf(cmd), 4)
          && (WordsIn(Last(seg))[3] != 0
              || (WordsIn(Last(seg))[1] as nat) + 65536 * (WordsIn(Last(seg))[2] as nat) != want))
    case AskRead(_, n, words, ms) =>
      && |seg| > 1 && seg[0].Timer?
      && var z := Last(seg);
      || Threw(z)
      || (z.Count? && Size(z) != n / 2 + 4 && (Over(z.at, seg[0].at, ms) || Came(seg[|seg| - 2], n / 2)))
      || (z.Block? && z.asked == n / 2 && WordsIn(z) != words)
  }

  /** One try that fails: the question was not taken, or not answered as wanted. */
  ghost predicate TryFails(q: Ask, seg: seq<Access>) {
    || NotTaken(seg, 2000)
    || exists k: nat :: 0 < k <= |seg| && Asks(seg[k - 1], q) && AnswerBad(q, seg[k - 1].cmd, seg[k..])
  }

  ghost predicate TrySucceeds(q: Ask, seg: seq<Access>) {
    exists k: nat :: 0 < k <= |seg| && Asks(seg[k - 1], q) && AnswerGood(q, seg[k - 1].cmd, seg[k..])
  }

  /** So many tries, one after the other, all of which fail. */
  ghost predicate TriesFail(q: Ask, tries: nat, seg: seq<Access>)
    decreases tries
  {
    if tries == 0 then seg == []
    else exists k: nat :: k <= |seg| && TriesFail(q, tries - 1, seg[..k]) && TryFails(q, seg[k..])
  }

  /** The last try succeeds. */
  ghost predicate EndsWell(q: Ask, seg: seq<Access>) {
    exists k: nat :: k <= |seg| && TrySucceeds(q, seg[k..])
  }

  lemma AskedAndAnswered(q: Ask, sent: seq<Access>, seg: seq<Access>)
    requires sent != [] && Asks(Last(sent), q)
    ensures AnswerBad(q, Last(sent).cmd, seg) ==> TryFails(q, sent + seg)
    ensures AnswerGood(q, Last(sent).cmd, seg) ==> TrySucceeds(q, sent + seg)
  {
    var all, k := sent + seg, |sent|;
    assert all[k..] == seg && all[k - 1] == Last(sent);
  }

  lemma OneMoreTry(q: Ask, tries: nat, before: seq<Access>, seg: seq<Access>)
    requires TriesFail(q, tries, before)
    ensures TryFails(q, seg) ==> TriesFail(q, tries + 1, before + seg)
    ensures TrySucceeds(q, seg) ==> EndsWell(q, before + seg)
  {
    var all, k := before + seg, |before|;
    assert all[..k] == before && all[k..] == seg;
  }

  // ---------------------------------------------------------------- the CRC of several ROCs

  predicate CrcSent(seg: seq<Access>, addr: nat, n: nat, t: Word) {
    seg != [] && Asks(Last(seg), AskCrc(addr, n, 0, 0)) && TagOf(Last(seg).cmd) == t
  }

  predicate CrcGood(seg: seq<Access>, t: Word, want: nat) {
    && GoodReply(seg, t, 4) && WordsIn(Last(seg))[3] == 0
    && (WordsIn(Last(seg))[1] as nat) + 65536 * (WordsIn(Last(seg))[2] as nat) == want
  }

  predicate CrcBad(seg: seq<Access>, t: Word, want: nat, ms: int) {
    || NoReply(seg, t, 4, ms)
    || (&& GoodReply(seg, t, 4)
        && (WordsIn(Last(seg))[3] != 0 || (WordsIn(Last(seg))[1] as nat) + 65536 * (WordsIn(Last(seg))[2] as nat) != want))
  }

  /** The question went to these ROCs; `tags`: the ones that took it. */
  ghost predicate CrcsSent(segs: Log, asked: set<RocId>, tags: map<RocId, Word>, addr: nat, n: nat) {
    && segs.Keys == asked && tags.Keys <= asked
    && forall r :: r in asked ==> if r in tags then CrcSent(segs[r], addr, n, tags[r]) else NotTaken(segs[r], 2000)
  }

  lemma NoCrcsSent(addr: nat, n: nat)
    ensures CrcsSent(map[], {}, map[], addr, n)
  {
  }

  lemma OneMoreCrcSent(log: Log, segs: Log, asked: set<RocId>, tags: map<RocId, Word>, addr: nat, n: nat, r: RocId,
                       seg: seq<Access>, ok: bool, t: Word)
    requires CrcsSent(segs, asked, tags, addr, n) && r !in asked
    requires if ok then CrcSent(seg, addr, n, t) else NotTaken(seg, 2000)
    ensures Add(AddAll(log, segs), r, seg) == AddAll(log, segs[r := seg])
    ensures CrcsSent(segs[r := seg], asked + {r}, if ok then tags[r := t] else tags, addr, n)
  {
    hide CrcSent, NotTaken, Add, AddAll;
    OneMoreAdded(log, segs, r, seg);
  }

  /** The answers of these ROCs, `bad` being the ones without the wanted CRC. */
  ghost predicate CrcsHeard(segs: Log, done: set<RocId>, bad: set<RocId>, tags: map<RocId, Word>, want: nat, ms: int) {
    && segs.Keys == done <= tags.Keys
    && forall r :: r in done ==> if r in bad then CrcBad(segs[r], tags[r], want, ms) else CrcGood(segs[r], tags[r], want)
  }

  lemma NoCrcsHeard(bad: set<RocId>, tags: map<RocId, Word>, want: nat, ms: int)
    ensures CrcsHeard(map[], {}, bad, tags, want, ms)
  {
  }

  lemma OneMoreCrcHeard(log: Log, segs: Log, done: set<RocId>, bad: set<RocId>, tags: map<RocId, Word>, want: nat, ms: int,
                        r: RocId, seg: seq<Access>, ok: bool)
    requires CrcsHeard(segs, done, bad, tags, want, ms) && r !in done && r in tags && bad <= done
    requires if ok then CrcGood(seg, tags[r], want) else CrcBad(seg, tags[r], want, ms)
    ensures Add(AddAll(log, segs), r, seg) == AddAll(log, segs[r := seg])
    ensures CrcsHeard(segs[r := seg], done + {r}, if ok then bad else bad + {r}, tags, want, ms)
  {
    hide CrcGood, CrcBad, Add, AddAll;
    OneMoreAdded(log, segs, r, seg);
  }

  /** So many tries of the ROCs still bad have failed; of the others the last one succeeded. */
  ghost predicate AskedSoFar(q: Ask, tries: nat, segs: Log, rs: set<RocId>, bad: set<RocId>) {
    && segs.Keys <= rs
    && forall r :: r in rs ==> if r in bad then TriesFail(q, tries, Of(segs, r)) else EndsWell(q, Of(segs, r))
  }

  /** Exactly the ROCs of `bad` have failed in all tries. */
  ghost predicate Asked(q: Ask, tries: nat, segs: Log, rs: set<RocId>, bad: set<RocId>) {
    segs.Keys <= rs && bad <= rs && AskedSoFar(q, tries, segs, rs, bad)
  }

  lemma NoneAsked(q: Ask, rs: set<RocId>)
    ensures AskedSoFar(q, 0, map[], rs, rs)
  {
  }

  lemma AskedEnough(q: Ask, k: nat, tries: nat, segs: Log, rs: set<RocId>, bad: set<RocId>)
    requires AskedSoFar(q, k, segs, rs, bad) && bad <= rs && (k == tries || bad == {})
    ensures Asked(q, tries, segs, rs, bad)
  {
  }

  /** What the accesses of a round add up to. */
  lemma RoundAdds(log: Log, segs: Log, s1: Log, s2: Log)
    ensures AddAll(AddAll(AddAll(log, segs), s1), s2) == AddAll(log, AddAll(AddAll(segs, s1), s2))
    ensures AddAll(AddAll(segs, s1), s2).Keys == segs.Keys + s1.Keys + s2.Keys
    ensures forall r :: Of(AddAll(AddAll(segs, s1), s2), r) == Of(segs, r) + (Of(s1, r) + Of(s2, r))
  {
    BothAdded(AddAll(log, segs), s1, s2);
    BothAdded(log, segs, AddAll(s1, s2));
    BothAdded(segs, s1, s2);
    forall r ensures Of(AddAll(AddAll(segs, s1), s2), r) == Of(segs, r) + (Of(s1, r) + Of(s2, r)) {
      OfAdded(segs, s1, r);
      OfAdded(AddAll(segs, s1), s2, r);
      Joins(Of(segs, r), Of(s1, r), Of(s2, r));
    }
  }

  /** The question went to the ROCs of `asked`; `sent`: the ones that took it. */
  ghost predicate SentTo(q: Ask, segs: Log, asked: set<RocId>, sent: set<RocId>) {
    && segs.Keys == asked && sent <= asked
    && forall r :: r in asked ==> if r in sent then segs[r] != [] && Asks(Last(segs[r]), q) else NotTaken(segs[r], 2000)
  }

  /** How the ROCs that took it answered, `bad` being the ones that did not answer as wanted. */
  ghost predicate HeardFrom(q: Ask, asked: Log, segs: Log, sent: set<RocId>, bad: set<RocId>) {
    && segs.Keys == sent <= asked.Keys && bad <= sent
    && forall r :: r in sent ==>
        && asked[r] != [] && Last(asked[r]).Sent?
        && if r in bad then AnswerBad(q, Last(asked[r]).cmd, segs[r]) else AnswerGood(q, Last(asked[r]).cmd, segs[r])
  }

  /** One round more: asked again where it had failed, and answered where it was taken. */
  lemma RoundLog(log: Log, segs: Log, s1: Log, s2: Log, rs: set<RocId>, todo: set<RocId>, sent: set<RocId>, bad: set<RocId>,
                 q: Ask, tries: nat)
    requires todo <= rs && AskedSoFar(q, tries, segs, rs, todo) && SentTo(q, s1, todo, sent) && HeardFrom(q, s1, s2, sent, bad)
    ensures var after := AddAll(AddAll(segs, s1), s2);
            && AddAll(AddAll(AddAll(log, segs), s1), s2) == AddAll(log, after)
            && AskedSoFar(q, tries + 1, after, rs, (todo - sent) + bad)
  {
    hide AddAll, TriesFail, EndsWell, Asks, NotTaken, AnswerBad, AnswerGood;
    var after, still := AddAll(AddAll(segs, s1), s2), (todo - sent) + bad;
    RoundAdds(log, segs, s1, s2);
    forall r | r in rs
      ensures if r in still then TriesFail(q, tries + 1, Of(after, r)) else EndsWell(q, Of(after, r))
    {
      RoundOne(q, tries, Of(segs, r), Of(s1, r), Of(s2, r), r in todo, r in sent, r in bad);
    }
  }

  /** The same of one ROC. */
  lemma RoundOne(q: Ask, tries: nat, seg: seq<Access>, sent: seq<Access>, heard: seq<Access>, todo: bool, took: bool, bad: bool)
    requires if todo then TriesFail(q, tries, seg) else EndsWell(q, seg)
    requires todo ==> if took then sent != [] && Asks(Last(sent), q) else NotTaken(sent, 2000)
    requires if took then todo && if bad then AnswerBad(q, Last(sent).cmd, heard) else AnswerGood(q, Last(sent).cmd, heard)
             else heard == []
    requires !todo ==> sent == []
    ensures var still := todo && (!took || bad);
            if still then TriesFail(q, tries + 1, seg + (sent + heard)) else EndsWell(q, seg + (sent + heard))
  {
    hide NotTaken, TriesFail, EndsWell, TryFails, TrySucceeds, AnswerBad, AnswerGood;
    if todo {
      OneMoreTry(q, tries, seg, sent + heard);
      if took {
        AskedAndAnswered(q, sent, heard);
      } else {
        SendFails(q, sent);
        Joins(sent, [], []);
      }
    } else {
      Joins(seg, [], []);
    }
  }

  lemma CrcRoundLog(log: Log, segs: Log, s1: Log, s2: Log, rs: set<RocId>, todo: set<RocId>, tags: map<RocId, Word>,
                    bad: set<RocId>, q: Ask, tries: nat)
    requires q.AskCrc? && todo <= rs && bad <= tags.Keys && AskedSoFar(q, tries, segs, rs, todo)
    requires CrcsSent(s1, todo, tags, q.addr, q.bytes) && CrcsHeard(s2, tags.Keys, bad, tags, q.want, q.ms)
    ensures var after := AddAll(AddAll(segs, s1), s2);
            && AddAll(AddAll(AddAll(log, segs), s1), s2) == AddAll(log, after)
            && AskedSoFar(q, tries + 1, after, rs, (todo - tags.Keys) + bad)
  {
    hide NotTaken, AddAll, AskedSoFar, NoReply, GoodReply;
    assert SentTo(q, s1, todo, tags.Keys);
    assert HeardFrom(q, s1, s2, tags.Keys, bad);
    RoundLog(log, segs, s1, s2, rs, todo, tags.Keys, bad, q, tries);
  }

  lemma SendFails(q: Ask, seg: seq<Access>)
    requires NotTaken(seg, 2000)
    ensures TryFails(q, seg)
  {
  }

  // ---------------------------------------------------------------- an erase or a write

  /** The reply to a tagged command: its result is not 0, or there is none. */
  predicate ResultBad(seg: seq<Access>, t: Word, ms: int) {
    NoReply(seg, t, 3, ms) || (GoodReply(seg, t, 3) && WordsIn(Last(seg))[1] != 0)
  }

  predicate ResultGood(seg: seq<Access>, t: Word) {
    GoodReply(seg, t, 3) && WordsIn(Last(seg))[1] == 0
  }

  /** DONE was read low in one of the first i looks. */
  ghost predicate WentLow(seg: seq<Access>, i: int) {
    exists j :: 0 <= j < i && j < |seg| && seg[j].Done? && !seg[j].thrown && seg[j].value < 0x8000
  }

  /** A look that completes a command without tag: DONE set again after it was seen to drop, or after the minimum time. */
  ghost predicate Complete(seg: seq<Access>, i: nat, sentAt: nat, minMs: int)
    requires i < |seg|
  {
    && seg[i].Done? && !seg[i].thrown && seg[i].value >= 0x8000
    && (WentLow(seg, i) || seg[i].at - sentAt >= 1000 * minMs)
  }

  /** Looks that leave it open. */
  ghost predicate LegacyOpen(seg: seq<Access>, sentAt: nat, ms: int, minMs: int) {
    forall i :: 0 <= i < |seg| ==>
      seg[i].Done? && !seg[i].thrown && !Complete(seg, i, sentAt, minMs) && !Over(seg[i].at, sentAt, ms)
  }

  /** The looks until it is complete, or until a read throws or the time is over. */
  ghost predicate LegacyEnd(seg: seq<Access>, sentAt: nat, ms: int, minMs: int, failed: bool) {
    && seg != [] && LegacyOpen(seg[..|seg| - 1], sentAt, ms, minMs) && Last(seg).Done?
    && if failed then Last(seg).thrown || (!Complete(seg, |seg| - 1, sentAt, minMs) && Over(Last(seg).at, sentAt, ms))
       else Complete(seg, |seg| - 1, sentAt, minMs)
  }

  lemma LegacyNext(seg: seq<Access>, a: Access, sentAt: nat, ms: int, minMs: int)
    requires LegacyOpen(seg, sentAt, ms, minMs) && a.Done?
    ensures WentLow(seg + [a], |seg| + 1) <==> WentLow(seg, |seg|) || (!a.thrown && a.value < 0x8000)
    ensures var done := !a.thrown && a.value >= 0x8000 && (WentLow(seg, |seg|) || a.at - sentAt >= 1000 * minMs);
            && (done ==> LegacyEnd(seg + [a], sentAt, ms, minMs, false))
            && (a.thrown || (!done && Over(a.at, sentAt, ms)) ==> LegacyEnd(seg + [a], sentAt, ms, minMs, true))
            && (!a.thrown && !done && !Over(a.at, sentAt, ms) ==> LegacyOpen(seg + [a], sentAt, ms, minMs))
  {
    var all := seg + [a];
    forall i | 0 <= i <= |seg| ensures WentLow(all, i) == WentLow(seg, i) {
      if j :| 0 <= j < i && j < |seg| && seg[j].Done? && !seg[j].thrown && seg[j].value < 0x8000 { assert all[j] == seg[j]; }
      if j :| 0 <= j < i && j < |all| && all[j].Done? && !all[j].thrown && all[j].value < 0x8000 { assert all[j] == seg[j]; }
    }
    if !a.thrown && a.value < 0x8000 { assert all[|seg|] == a; }
    assert all[..|all| - 1] == seg;
    forall i | 0 <= i < |seg| ensures Complete(all, i, sentAt, minMs) == Complete(seg, i, sentAt, minMs) {}
  }

  /** The command was written, in the form for its MiV. */
  predicate Commanded(a: Access, newMiv: bool, c: Cmd) {
    && a.Sent? && !a.thrown && a.wire == CommandWords(a.cmd)
    && Untagged(a.cmd) == Untagged(c) && (newMiv <==> NoOf(a.cmd) != 0)
  }

  /** An erase or a write that failed: it was not taken, or its reply or DONE did not come in time or without error. */
  ghost predicate CommandFails(seg: seq<Access>, newMiv: bool, c: Cmd, ms: int, minMs: int) {
    || NotTaken(seg, 2000)
    || exists k: nat ::
        && 0 < k <= |seg| && Commanded(seg[k - 1], newMiv, c)
        && if newMiv then ResultBad(seg[k..], TagOf(seg[k - 1].cmd), ms)
           else LegacyEnd(seg[k..], seg[k - 1].at, ms, minMs, true)
  }

  ghost predicate CommandSucceeds(seg: seq<Access>, newMiv: bool, c: Cmd, ms: int, minMs: int) {
    exists k: nat ::
      && 0 < k <= |seg| && Commanded(seg[k - 1], newMiv, c)
      && if newMiv then ResultGood(seg[k..], TagOf(seg[k - 1].cmd))
         else LegacyEnd(seg[k..], seg[k - 1].at, ms, minMs, false)
  }

  lemma CommandedAndEnded(sent: seq<Access>, seg: seq<Access>, newMiv: bool, c: Cmd, ms: int, minMs: int)
    requires sent != [] && Commanded(Last(sent), newMiv, c)
    ensures newMiv && ResultBad(seg, TagOf(Last(sent).cmd), ms) ==> CommandFails(sent + seg, newMiv, c, ms, minMs)
    ensures newMiv && ResultGood(seg, TagOf(Last(sent).cmd)) ==> CommandSucceeds(sent + seg, newMiv, c, ms, minMs)
    ensures !newMiv && LegacyEnd(seg, Last(sent).at, ms, minMs, true) ==> CommandFails(sent + seg, newMiv, c, ms, minMs)
    ensures !newMiv && LegacyEnd(seg, Last(sent).at, ms, minMs, false) ==> CommandSucceeds(sent + seg, newMiv, c, ms, minMs)
  {
    var all, k := sent + seg, |sent|;
    assert all[k..] == seg && all[k - 1] == Last(sent);
  }
}
