/** What one step of the session (a CRC, an erase, the records of a segment, a read-back) may change in what is
    known of the ROCs, and how the outcomes of single ROCs add up. */
module FlashSteps {
  import opened Basics
  import opened FlashWorld
  import opened FlashImage
  import opened FlashLedger

  datatype Options = Options(
    startAddress: nat,
    protectedBelow: nat,
    expectedSha256: string,
    writeImage: bool,
    program: bool,
    finalImageCrc: bool,
    maxSegmentAttempts: int,
    flashBytes: nat,
    expectedFwVersion: Word,
    pollMs: int,
    writeTimeoutMs: int,
    eraseTimeoutMs: int,
    readTimeoutMs: int,
    crcSegmentTimeoutMs: int,
    crcImageTimeoutMs: int,
    legacyWriteMinMs: int,
    legacyEraseMinMs: int,
    authTimeoutMs: int,
    linkBackTimeoutMs: int,
    linkResyncAfterMs: int,
    linkResyncTries: int)

  /** Read-back piece of an older MiV. */
  type PieceSize = n: nat | n == 508 || n == 1016 witness 508

  datatype RocState = Selected | Uploading | Verified | Programmed | Failed

  datatype RocResult = RocResult(state: RocState, newMiv: bool, readBytes: PieceSize, segmentRetries: nat)

  // ---------------------------------------------------------------- what changes from one step to the next

  /** Nothing is known anew of the ROCs outside `touched`. */
  ghost predicate Only(k0: map<RocId, Known>, k1: map<RocId, Known>, touched: set<RocId>) {
    && k1.Keys == k0.Keys
    && forall r :: r in k0 && r !in touched ==> k1[r] == k0[r]
  }

  predicate CrcReady(k: Known, addr: nat, n: nat) {
    !k.ledger.readSent && k.ledger.start <= addr <= k.ledger.lo && addr + n <= k.ledger.end && addr + n <= FLASH_SIZE
  }

  /** A CRC that agreed moves the verified limit up over its range; any other outcome changes nothing. */
  ghost predicate CrcOutcome(digest: seq<Byte> -> nat, k0: Known, k1: Known, good: bool, addr: nat, n: nat, want: nat) {
    && k1.acts == k0.acts
    && if good then MovedUp(k0.ledger, k1.ledger, addr + n) && Certified(digest, k1.ledger, addr, n, want)
       else k1.ledger == k0.ledger
  }

  /** The same of several ROCs, `bad` being the ones whose CRC did not agree. */
  ghost predicate CrcOutcomes(digest: seq<Byte> -> nat, k0: map<RocId, Known>, k1: map<RocId, Known>, rs: set<RocId>,
                              bad: set<RocId>, addr: nat, n: nat, want: nat)
    requires rs <= k0.Keys
  {
    && Only(k0, k1, rs)
    && forall r :: r in rs ==> CrcOutcome(digest, k0[r], k1[r], r !in bad, addr, n, want)
  }

  /** The ROCs whose entry is negative. */
  function Refused(good: map<RocId, bool>): set<RocId> {
    set r | r in good && !good[r]
  }

  /** Only the awaited reply and the last number change. */
  ghost predicate OnlyHopes(k0: map<RocId, Known>, k1: map<RocId, Known>, touched: set<RocId>) {
    && Only(k0, k1, touched)
    && forall r :: r in k0 && r in touched ==> k1[r] == k0[r].(hope := k1[r].hope, top := k1[r].top)
  }

  /** The ROCs of `asked` were asked for the CRC; `tags`: the ones that took the command. */
  ghost predicate CrcsAsked(k0: map<RocId, Known>, k1: map<RocId, Known>, asked: set<RocId>, tags: map<RocId, Word>,
                            addr: nat, n: nat) {
    && OnlyHopes(k0, k1, asked)
    && tags.Keys <= asked
    && forall r :: r in tags ==> r in k1 && AwaitsCrc(k1[r].hope, addr, n, tags[r])
  }

  lemma CrcsAskedStart(k: map<RocId, Known>, addr: nat, n: nat)
    ensures CrcsAsked(k, k, {}, map[], addr, n)
  {
  }

  lemma CrcsAskedOneMore(k0: map<RocId, Known>, k1: map<RocId, Known>, k2: map<RocId, Known>, asked: set<RocId>,
                         tags: map<RocId, Word>, addr: nat, n: nat, r: RocId, ok: bool, t: Word)
    requires CrcsAsked(k0, k1, asked, tags, addr, n) && r in k1 && r !in asked && OnlyHopes(k1, k2, {r})
    requires ok ==> AwaitsCrc(k2[r].hope, addr, n, t)
    ensures CrcsAsked(k0, k2, asked + {r}, if ok then tags[r := t] else tags, addr, n)
  {
  }

  lemma AskedParts(k0: map<RocId, Known>, k1: map<RocId, Known>, asked: set<RocId>, tags: map<RocId, Word>, addr: nat,
                   n: nat)
    requires CrcsAsked(k0, k1, asked, tags, addr, n)
    ensures OnlyHopes(k0, k1, asked) && k1.Keys == k0.Keys && tags.Keys <= asked
    ensures forall r :: r in tags ==> r in k1 && AwaitsCrc(k1[r].hope, addr, n, tags[r])
  {
  }

  /** The others can still be asked. */
  lemma StillReady(k0: map<RocId, Known>, k1: map<RocId, Known>, rs: set<RocId>, asked: set<RocId>,
                   tags: map<RocId, Word>, addr: nat, n: nat, r: RocId)
    requires AllCrcReady(k0, rs, addr, n) && CrcsAsked(k0, k1, asked, tags, addr, n) && r in rs && r !in asked
    ensures r in k1 && CrcReady(k1[r], addr, n)
  {
  }

  lemma CrcRound(digest: seq<Byte> -> nat, k0: map<RocId, Known>, k1: map<RocId, Known>, k2: map<RocId, Known>,
                 k3: map<RocId, Known>, rs: set<RocId>, todo: set<RocId>, asked: set<RocId>, bad: set<RocId>,
                 addr: nat, n: nat, want: nat)
    requires asked <= todo <= rs <= k0.Keys && CrcOutcomes(digest, k0, k1, rs, todo, addr, n, want)
    requires OnlyHopes(k1, k2, todo) && CrcOutcomes(digest, k2, k3, asked, bad, addr, n, want)
    ensures CrcOutcomes(digest, k0, k3, rs, (todo - asked) + (asked * bad), addr, n, want)
  {
    var still := (todo - asked) + (asked * bad);
    forall r | r in rs ensures CrcOutcome(digest, k0[r], k3[r], r !in still, addr, n, want) {
      assert CrcOutcome(digest, k0[r], k1[r], r !in todo, addr, n, want);
      if r in asked {
        assert CrcOutcome(digest, k2[r], k3[r], r !in bad, addr, n, want);
      }
    }
  }

  lemma CrcStart(digest: seq<Byte> -> nat, k: map<RocId, Known>, rs: set<RocId>, addr: nat, n: nat, want: nat)
    requires rs <= k.Keys
    ensures CrcOutcomes(digest, k, k, rs, rs, addr, n, want)
  {
  }

  lemma CrcUntouched(digest: seq<Byte> -> nat, k0: map<RocId, Known>, k1: map<RocId, Known>, done: set<RocId>,
                     bad: set<RocId>, addr: nat, n: nat, want: nat, r: RocId)
    requires done <= k0.Keys && CrcOutcomes(digest, k0, k1, done, bad, addr, n, want) && r in k0 && r !in done
    ensures r in k1 && k1[r] == k0[r]
  {
  }

  lemma CrcOneMore(digest: seq<Byte> -> nat, k0: map<RocId, Known>, k1: map<RocId, Known>, k2: map<RocId, Known>,
                   done: set<RocId>, bad: set<RocId>, addr: nat, n: nat, want: nat, r: RocId, ok: bool)
    requires done <= k0.Keys && CrcOutcomes(digest, k0, k1, done, bad, addr, n, want) && r in k0 && r !in done
    requires bad <= done
    requires r in k1 && Only(k1, k2, {r}) && CrcOutcome(digest, k1[r], k2[r], ok, addr, n, want)
    ensures CrcOutcomes(digest, k0, k2, done + {r}, if ok then bad else bad + {r}, addr, n, want)
  {
    forall x | x in done ensures CrcOutcome(digest, k0[x], k2[x], x !in bad, addr, n, want) {
      assert CrcOutcome(digest, k0[x], k1[x], x !in bad, addr, n, want);
    }
  }

  ghost predicate AllCrcReady(k: map<RocId, Known>, rs: set<RocId>, addr: nat, n: nat) {
    && rs <= k.Keys
    && forall r :: r in rs ==> CrcReady(k[r], addr, n)
  }

  /** A CRC that did not agree can be asked again. */
  lemma CrcAgain(digest: seq<Byte> -> nat, k0: map<RocId, Known>, k1: map<RocId, Known>, rs: set<RocId>,
                 bad: set<RocId>, addr: nat, n: nat, want: nat)
    requires bad <= rs && AllCrcReady(k0, rs, addr, n) && CrcOutcomes(digest, k0, k1, rs, bad, addr, n, want)
    ensures AllCrcReady(k1, bad, addr, n)
  {
    forall r | r in bad ensures CrcReady(k1[r], addr, n) {
      assert CrcOutcome(digest, k0[r], k1[r], r !in bad, addr, n, want);
    }
  }

  lemma HopesKeepReady(k0: map<RocId, Known>, k1: map<RocId, Known>, rs: set<RocId>, addr: nat, n: nat)
    requires AllCrcReady(k0, rs, addr, n) && OnlyHopes(k0, k1, rs)
    ensures forall some :: some <= rs ==> AllCrcReady(k1, some, addr, n)
  {
  }

  function EraseNew(addr: nat): Cmd {
    Erase(addr, 0x10000, 0)
  }

  function EraseOld(addr: nat): Cmd {
    Erase(addr, 1, 0)
  }

  /** The command as the tagged one of this number. */
  function WithNo(c: Cmd, no: nat): Cmd {
    match c
    case Erase(a, n, _) => Erase(a, n, no)
    case Write(a, ws, _) => Write(a, ws, no)
    case _ => c
  }

  lemma TagIsFree(c: Cmd, no: nat, isNew: bool, g: Ledger)
    requires Modifies(c)
    ensures Modifies(WithNo(c, no)) && NoOf(WithNo(c, no)) == no && Untagged(WithNo(c, no)) == Untagged(c)
    ensures Confined(WithNo(c, no), isNew, g) == Confined(c, isNew, g)
  {
  }

  function Chosen(newMiv: bool, cNew: Cmd, cOld: Cmd): Cmd {
    if newMiv then cNew else cOld
  }

  /** May the command, in the form for its MiV, be sent to the ROC? */
  predicate CommandReady(k: Known, isNew: bool, newMiv: bool, cNew: Cmd, cOld: Cmd) {
    && Modifies(cNew) && Modifies(cOld) && NoOf(cOld) == 0
    && Confined(Chosen(newMiv, cNew, cOld), isNew, k.ledger)
    && (newMiv ==> !k.ledger.readSent)
  }

  ghost predicate AllCommandReady(k: map<RocId, Known>, rs: set<RocId>, isNew: set<RocId>, res: map<RocId, RocResult>,
                                  cNew: Cmd, cOld: Cmd)
    requires rs <= res.Keys
  {
    && rs <= k.Keys
    && forall r :: r in rs ==> CommandReady(k[r], r in isNew, res[r].newMiv, cNew, cOld)
  }

  /** Exactly the given command was written to the ROC, or (not `done`) perhaps none. */
  predicate CommandOutcome(k0: Known, k1: Known, done: bool, c: Cmd) {
    && k1.ledger == k0.ledger
    && (k1.acts == k0.acts + [Untagged(c)] || (!done && k1.acts == k0.acts))
  }

  ghost predicate CommandOutcomes(k0: map<RocId, Known>, k1: map<RocId, Known>, rs: set<RocId>, done: set<RocId>,
                                  res: map<RocId, RocResult>, cNew: Cmd, cOld: Cmd) {
    && Only(k0, k1, rs)
    && forall r :: r in k0 && r in rs && r in res ==>
        CommandOutcome(k0[r], k1[r], r in done, Chosen(res[r].newMiv, cNew, cOld))
  }

  lemma CommandFewer(k0: map<RocId, Known>, k1: map<RocId, Known>, rs: set<RocId>, done: set<RocId>,
                     fewer: set<RocId>, res: map<RocId, RocResult>, cNew: Cmd, cOld: Cmd)
    requires CommandOutcomes(k0, k1, rs, done, res, cNew, cOld) && fewer <= done
    ensures CommandOutcomes(k0, k1, rs, fewer, res, cNew, cOld)
  {
    forall r | r in k0 && r in rs && r in res
      ensures CommandOutcome(k0[r], k1[r], r in fewer, Chosen(res[r].newMiv, cNew, cOld))
    {
      assert CommandOutcome(k0[r], k1[r], r in done, Chosen(res[r].newMiv, cNew, cOld));
    }
  }

  lemma CommandOneMore(k0: map<RocId, Known>, k1: map<RocId, Known>, k2: map<RocId, Known>, rs: set<RocId>,
                       done: set<RocId>, res: map<RocId, RocResult>, cNew: Cmd, cOld: Cmd, r: RocId, ok: bool)
    requires CommandOutcomes(k0, k1, rs, done, res, cNew, cOld) && r in k0 && r !in rs && done <= rs
    requires r in res && r in k1 && Only(k1, k2, {r})
    requires CommandOutcome(k1[r], k2[r], ok, Chosen(res[r].newMiv, cNew, cOld))
    ensures CommandOutcomes(k0, k2, rs + {r}, if ok then done + {r} else done, res, cNew, cOld)
  {
    forall x | x in k0 && x in rs && x in res
      ensures CommandOutcome(k0[x], k2[x], x in done, Chosen(res[x].newMiv, cNew, cOld))
    {
      assert CommandOutcome(k0[x], k1[x], x in done, Chosen(res[x].newMiv, cNew, cOld));
    }
  }

  /** The command went to the ROCs of `asked`; `sent`: the ones that took it, when (at the latest now) and with
      which tag. */
  ghost predicate CommandsSent(k0: map<RocId, Known>, k1: map<RocId, Known>, asked: set<RocId>,
                               sent: map<RocId, (nat, Word)>, res: map<RocId, RocResult>, cNew: Cmd, cOld: Cmd,
                               now: nat)
  {
    && CommandOutcomes(k0, k1, asked, sent.Keys, res, cNew, cOld)
    && sent.Keys <= asked
    && forall r :: r in sent ==> sent[r].0 <= now
  }

  lemma CommandsSentStart(k: map<RocId, Known>, res: map<RocId, RocResult>, cNew: Cmd, cOld: Cmd, now: nat)
    ensures CommandsSent(k, k, {}, map[], res, cNew, cOld, now)
  {
  }

  lemma CommandsSentParts(k0: map<RocId, Known>, k1: map<RocId, Known>, asked: set<RocId>,
                          sent: map<RocId, (nat, Word)>, res: map<RocId, RocResult>, cNew: Cmd, cOld: Cmd, now: nat)
    requires CommandsSent(k0, k1, asked, sent, res, cNew, cOld, now)
    ensures CommandOutcomes(k0, k1, asked, sent.Keys, res, cNew, cOld) && k1.Keys == k0.Keys
    ensures sent.Keys <= asked && forall r :: r in sent ==> sent[r].0 <= now
  {
  }

  /** A ROC that was not asked yet is as it was. */
  lemma NotSentYet(k0: map<RocId, Known>, k1: map<RocId, Known>, rs: set<RocId>, asked: set<RocId>,
                   sent: map<RocId, (nat, Word)>, isNew: set<RocId>, res: map<RocId, RocResult>, cNew: Cmd, cOld: Cmd,
                   now: nat, r: RocId)
    requires rs <= res.Keys && AllCommandReady(k0, rs, isNew, res, cNew, cOld)
    requires CommandsSent(k0, k1, asked, sent, res, cNew, cOld, now) && r in rs && r !in asked
    ensures r in k1 && CommandReady(k1[r], r in isNew, res[r].newMiv, cNew, cOld)
  {
  }

  lemma CommandsSentOneMore(k0: map<RocId, Known>, k1: map<RocId, Known>, k2: map<RocId, Known>, asked: set<RocId>,
                            sent: map<RocId, (nat, Word)>, res: map<RocId, RocResult>, cNew: Cmd, cOld: Cmd,
                            before: nat, now: nat, r: RocId, ok: bool, t: Word)
    requires CommandsSent(k0, k1, asked, sent, res, cNew, cOld, before) && before <= now
    requires r in k1 && r !in asked && r in res && Only(k1, k2, {r})
    requires CommandOutcome(k1[r], k2[r], ok, Chosen(res[r].newMiv, cNew, cOld))
    ensures CommandsSent(k0, k2, asked + {r}, if ok then sent[r := (now, t)] else sent, res, cNew, cOld, now)
  {
    hide CommandOutcome;
    CommandOneMore(k0, k1, k2, asked, sent.Keys, res, cNew, cOld, r, ok);
    assert sent[r := (now, t)].Keys == sent.Keys + {r};
  }

  /** May [from, to) be written on these ROCs? */
  ghost predicate Writable(k: map<RocId, Known>, rs: set<RocId>, isNew: set<RocId>, res: map<RocId, RocResult>,
                           from: nat, to: nat)
    requires rs <= res.Keys
  {
    && rs <= k.Keys
    && forall r :: r in rs ==>
        k[r].ledger.lo <= from && to <= k[r].ledger.end && (res[r].newMiv ==> !k[r].ledger.readSent)
  }

  /** Only commands of cs were written, and (`done`) all of them, each once and in order. */
  ghost predicate WriteOutcome(k0: Known, k1: Known, done: bool, cs: seq<Cmd>) {
    && k1.ledger == k0.ledger
    && k0.acts <= k1.acts
    && (forall i :: |k0.acts| <= i < |k1.acts| ==> k1.acts[i] in cs)
    && (done ==> k1.acts == k0.acts + cs)
  }

  ghost predicate WriteOutcomes(k0: map<RocId, Known>, k1: map<RocId, Known>, rs: set<RocId>, done: set<RocId>,
                                cs: seq<Cmd>) {
    && Only(k0, k1, rs)
    && forall r :: r in k0 && r in rs ==> WriteOutcome(k0[r], k1[r], r in done, cs)
  }

  lemma WriteStart(k: map<RocId, Known>, rs: set<RocId>, done: set<RocId>, cs: seq<Cmd>)
    requires cs == []
    ensures WriteOutcomes(k, k, rs, done, cs)
  {
  }

  lemma RecordReady(k0: map<RocId, Known>, k1: map<RocId, Known>, rs: set<RocId>, err: set<RocId>, isNew: set<RocId>,
                    res: map<RocId, RocResult>, image: seq<Byte>, start: nat, off: nat, len: nat, k: nat)
    requires off + len <= |image| && len % 2 == 0 && k < RecordCount(len)
    requires rs <= res.Keys && Writable(k0, rs, isNew, res, start + off, start + off + len)
    requires WriteOutcomes(k0, k1, rs, rs - err, Records(image, start, off, len, k))
    ensures var c := Record(image, start, off, len, k); AllCommandReady(k1, rs, isNew, res, c, c)
  {
    var c := Record(image, start, off, len, k);
    forall r | r in rs ensures CommandReady(k1[r], r in isNew, res[r].newMiv, c, c) {
      assert WriteOutcome(k0[r], k1[r], r in rs - err, Records(image, start, off, len, k));
    }
  }

  lemma RecordJoins(k0: map<RocId, Known>, k1: map<RocId, Known>, k2: map<RocId, Known>, rs: set<RocId>,
                    err: set<RocId>, after: set<RocId>, res: map<RocId, RocResult>, image: seq<Byte>, start: nat,
                    off: nat, len: nat, k: nat)
    requires off + len <= |image| && len % 2 == 0 && k < RecordCount(len) && rs <= res.Keys && err <= after
    requires WriteOutcomes(k0, k1, rs, rs - err, Records(image, start, off, len, k))
    requires var c := Record(image, start, off, len, k); CommandOutcomes(k1, k2, rs - err, rs - after, res, c, c)
    ensures WriteOutcomes(k0, k2, rs, rs - after, Records(image, start, off, len, k + 1))
  {
    var c, cs := Record(image, start, off, len, k), Records(image, start, off, len, k);
    assert Records(image, start, off, len, k + 1) == cs + [c];
    forall r | r in k0 && r in rs ensures WriteOutcome(k0[r], k2[r], r in rs - after, cs + [c]) {
      RecordJoinsOne(k0[r], k1[r], k2[r], r in rs - err, r in rs - after, cs, c);
    }
  }

  lemma RecordJoinsOne(k0: Known, k1: Known, k2: Known, was: bool, done: bool, cs: seq<Cmd>, c: Cmd)
    requires WriteOutcome(k0, k1, was, cs) && c.Write? && c.no == 0 && (done ==> was)
    requires if was then CommandOutcome(k1, k2, done, c) else k2 == k1
    ensures WriteOutcome(k0, k2, done, cs + [c])
  {
    assert Untagged(c) == c;
    assert forall i :: 0 <= i < |k1.acts| ==> k2.acts[i] == k1.acts[i];
  }

  // ---------------------------------------------------------------- read-back of older MiVs

  /** Of these ROCs the same reply is awaited. */
  ghost predicate AllHope(k: map<RocId, Known>, rs: set<RocId>, hope: Expect) {
    forall r :: r in rs ==> r in k && k[r].hope == hope
  }

  lemma NoHopes(k: map<RocId, Known>, hope: Expect)
    ensures AllHope(k, {}, hope)
  {
  }

  lemma HopesMore(k1: map<RocId, Known>, k2: map<RocId, Known>, rs: set<RocId>, hope: Expect, r: RocId, ok: bool)
    requires AllHope(k1, rs, hope) && Only(k1, k2, {r}) && r !in rs && r in k2 && (ok ==> k2[r].hope == hope)
    ensures AllHope(k2, if ok then rs + {r} else rs, hope)
  {
  }

  /** What is known after a piece was asked for: it joins the ones before it only if it was equal. */
  predicate PieceKnown(k0: Known, k: map<RocId, Known>, r: RocId, equal: bool, piece: seq<Byte>) {
    && r in k
    && var was := k0.(due := k[r].due);
    k[r] == if equal then SeenMore(was, piece) else was
  }

  lemma HopeKeys(k: map<RocId, Known>, rs: set<RocId>, hope: Expect)
    requires AllHope(k, rs, hope)
    ensures rs <= k.Keys
  {
  }

  lemma PieceAwaited(k0: map<RocId, Known>, k1: map<RocId, Known>, rs: set<RocId>, addr: nat, n: nat, base: nat,
                     had: seq<Byte>, r: RocId)
    requires AllHope(k0, rs, ReadOf(addr, n, base, had)) && r in rs && addr == base + |had| && r in k1 && k1[r] == k0[r]
    ensures r in k0 && Awaits(k1[r].hope, addr, n) && k1[r].hope == ReadOf(addr, n, base, had)
  {
  }

  lemma PieceTracks(k0: Known, k: map<RocId, Known>, r: RocId, equal: bool, piece: seq<Byte>, addr: nat, n: nat, base: nat,
                    had: seq<Byte>)
    requires k0.hope == ReadOf(addr, n, base, had) && PieceKnown(k0, k, r, equal, piece)
    ensures r in k && ReadOnly(k0, k[r]) && Tracks(k[r], base, if equal then had + piece else had)
  {
  }

  /** The read-back has shown `seen` from address base on. */
  predicate Tracks(k: Known, base: nat, seen: seq<Byte>) {
    seen != [] ==> k.hope.ReadOf? && k.hope.base == base && k.hope.seen == seen
  }

  /** Reading back changes nothing else. */
  predicate ReadOnly(k0: Known, k1: Known) {
    k1.ledger == k0.ledger.(readSent := k1.ledger.readSent) && k1.acts == k0.acts
  }

  ghost predicate ReadOutcomes(k0: map<RocId, Known>, k1: map<RocId, Known>, rs: set<RocId>, base: nat,
                               bad: set<RocId>, had: seq<Byte>, seen: seq<Byte>) {
    && Only(k0, k1, rs)
    && forall r :: r in k0 && r in rs ==>
        ReadOnly(k0[r], k1[r]) && Tracks(k1[r], base, if r in bad then had else seen)
  }

  ghost predicate AllTrack(k: map<RocId, Known>, rs: set<RocId>, base: nat, seen: seq<Byte>) {
    && rs <= k.Keys
    && forall r :: r in rs ==> Tracks(k[r], base, seen)
  }

  lemma ReadStart(k: map<RocId, Known>, rs: set<RocId>, base: nat, had: seq<Byte>, seen: seq<Byte>)
    requires AllTrack(k, rs, base, had)
    ensures ReadOutcomes(k, k, rs, base, rs, had, seen)
  {
  }

  /** Another try for the ROCs still bad. */
  lemma ReadAgain(k0: map<RocId, Known>, k1: map<RocId, Known>, k2: map<RocId, Known>, rs: set<RocId>, base: nat,
                  bad: set<RocId>, still: set<RocId>, had: seq<Byte>, seen: seq<Byte>)
    requires ReadOutcomes(k0, k1, rs, base, bad, had, seen) && still <= bad <= rs <= k0.Keys
    requires ReadOutcomes(k1, k2, bad, base, still, had, seen)
    ensures ReadOutcomes(k0, k2, rs, base, still, had, seen)
  {
    forall r | r in k0 && r in rs
      ensures ReadOnly(k0[r], k2[r]) && Tracks(k2[r], base, if r in still then had else seen)
    {
      assert ReadOnly(k0[r], k1[r]);
      if r in bad { assert ReadOnly(k1[r], k2[r]); }
    }
  }

  lemma SentTracks(k1: map<RocId, Known>, k2: map<RocId, Known>, rs: set<RocId>, base: nat, had: seq<Byte>,
                   sent: set<RocId>)
    requires ReadOutcomes(k1, k2, rs, base, rs, had, had) && sent <= rs <= k1.Keys
    ensures AllTrack(k2, sent, base, had)
  {
  }

  /** One try: the read goes to all of rs, `sent` took it, and of these `wrong` did not answer with the image. */
  lemma ReadRound(k1: map<RocId, Known>, k2: map<RocId, Known>, k3: map<RocId, Known>, rs: set<RocId>, base: nat,
                  sent: set<RocId>, wrong: set<RocId>, had: seq<Byte>, seen: seq<Byte>)
    requires ReadOutcomes(k1, k2, rs, base, rs, had, had) && wrong <= sent <= rs <= k1.Keys
    requires ReadOutcomes(k2, k3, sent, base, wrong, had, seen)
    ensures ReadOutcomes(k1, k3, rs, base, (rs - sent) + wrong, had, seen)
  {
    forall r | r in k1 && r in rs
      ensures ReadOnly(k1[r], k3[r]) && Tracks(k3[r], base, if r in (rs - sent) + wrong then had else seen)
    {
      assert ReadOnly(k1[r], k2[r]);
      if r in sent { assert ReadOnly(k2[r], k3[r]); }
    }
  }

  lemma ReadTracks(k0: map<RocId, Known>, k1: map<RocId, Known>, rs: set<RocId>, base: nat, bad: set<RocId>,
                   had: seq<Byte>, seen: seq<Byte>)
    requires ReadOutcomes(k0, k1, rs, base, bad, had, seen) && rs <= k0.Keys
    ensures bad <= rs ==> AllTrack(k1, bad, base, had)
    ensures AllTrack(k1, rs - bad, base, seen) && k1.Keys == k0.Keys
  {
  }

  lemma AllTrackNothing(k: map<RocId, Known>, rs: set<RocId>, base: nat)
    requires rs <= k.Keys
    ensures AllTrack(k, rs, base, [])
  {
  }

  lemma ReadNone(k: map<RocId, Known>, rs: set<RocId>, base: nat, seen: seq<Byte>)
    requires rs <= k.Keys && seen == []
    ensures ReadOutcomes(k, k, rs, base, rs - rs, [], seen)
  {
  }

  lemma ReadRest(k0: map<RocId, Known>, k1: map<RocId, Known>, rs: set<RocId>, rest: set<RocId>, base: nat,
                 seen: seq<Byte>)
    requires ReadOutcomes(k0, k1, rs, base, rs - rest, [], seen) && rest <= rs <= k0.Keys
    ensures rest <= k1.Keys && AllTrack(k1, rest, base, seen)
  {
  }

  lemma PieceJoins(k0: map<RocId, Known>, k1: map<RocId, Known>, k2: map<RocId, Known>, rs: set<RocId>,
                   rest: set<RocId>, base: nat, bad: set<RocId>, had: seq<Byte>, seen: seq<Byte>)
    requires ReadOutcomes(k0, k1, rs, base, rs - rest, [], had) && bad <= rest <= rs <= k0.Keys
    requires ReadOutcomes(k1, k2, rest, base, bad, had, seen)
    ensures ReadOutcomes(k0, k2, rs, base, rs - (rest - bad), [], seen)
  {
    forall r | r in k0 && r in rs
      ensures ReadOnly(k0[r], k2[r]) && Tracks(k2[r], base, if r in rs - (rest - bad) then [] else seen)
    {
      assert ReadOnly(k0[r], k1[r]);
      if r in rest { assert ReadOnly(k1[r], k2[r]); }
    }
  }

  lemma NoneLeft(k0: map<RocId, Known>, k1: map<RocId, Known>, rs: set<RocId>, rest: set<RocId>, base: nat,
                 seen: seq<Byte>, other: seq<Byte>)
    requires ReadOutcomes(k0, k1, rs, base, rs - rest, [], seen) && rest == {}
    ensures ReadOutcomes(k0, k1, rs, base, rs - rest, [], other)
  {
  }

  lemma PieceLength(p: nat, piece: PieceSize, len: nat)
    requires p < len && p % 2 == 0 && len % 2 == 0
    ensures var n := Min(piece, len - p) + Min(piece, len - p) % 2;
            0 < n && n % 2 == 0 && p + n == Min(p + piece, len) && (p + piece) % 2 == 0
  {
  }

  /** May the next `len` bytes be verified by reading them back? */
  ghost predicate Readable(k: map<RocId, Known>, rs: set<RocId>, addr: nat, len: nat) {
    && rs <= k.Keys
    && forall r :: r in rs ==> k[r].ledger.lo == addr && addr + len <= k[r].ledger.end
  }

  /** A ROC that showed the content has it below its verified limit; otherwise nothing is verified. */
  predicate ReadBackOutcome(k0: Known, k1: Known, good: bool, content: seq<Byte>) {
    if good then
      && k1.acts == k0.acts
      && MovedUp(k0.ledger.(readSent := k1.ledger.readSent), k1.ledger, k0.ledger.lo + |content|)
      && k1.ledger.held == k0.ledger.held + content
    else ReadOnly(k0, k1)
  }

  ghost predicate ReadBackOutcomes(k0: map<RocId, Known>, k1: map<RocId, Known>, rs: set<RocId>, bad: set<RocId>,
                                   content: seq<Byte>) {
    && Only(k0, k1, rs)
    && forall r :: r in k0 && r in rs ==> ReadBackOutcome(k0[r], k1[r], r !in bad, content)
  }

  ghost function RaisedAll(k: map<RocId, Known>, rs: set<RocId>, content: seq<Byte>): (after: map<RocId, Known>)
    ensures after.Keys == k.Keys
  {
    map r | r in k :: if r in rs then k[r].(ledger := Shown(k[r].ledger, content)) else k[r]
  }

  lemma RaiseAll(digest: seq<Byte> -> nat, isNew: set<RocId>, issued: nat, mivs: map<RocId, Miv>,
                 k0: map<RocId, Known>, k1: map<RocId, Known>, rs: set<RocId>, rest: set<RocId>, addr: nat,
                 content: seq<Byte>)
    requires AllFine(digest, isNew, issued, mivs, k1) && rest <= rs && 0 < |content|
    requires Readable(k0, rs, addr, |content|)
    requires ReadOutcomes(k0, k1, rs, addr, rs - rest, [], content)
    ensures var k2 := RaisedAll(k1, rest, content);
            AllFine(digest, isNew, issued, mivs, k2) && ReadBackOutcomes(k0, k2, rs, rs - rest, content)
  {
    hide AllFine, LinkFine, MovedUp, Shown;
    var k2 := RaisedAll(k1, rest, content);
    forall r | r in k1
      ensures r in mivs && LinkFine(digest, r in isNew, issued, mivs[r], k2[r])
      ensures r in rs ==> ReadBackOutcome(k0[r], k2[r], r in rest, content)
    {
      OneFine(digest, isNew, issued, mivs, k1, r);
      if r in rest {
        RaiseOne(digest, r in isNew, issued, mivs[r], k0[r], k1[r], addr, content);
      }
    }
    MakeAllFine(digest, isNew, issued, mivs, k1, k2);
  }

  lemma RaiseOne(digest: seq<Byte> -> nat, isNew: bool, issued: nat, m: Miv, k0: Known, k1: Known, addr: nat,
                 content: seq<Byte>)
    requires LinkFine(digest, isNew, issued, m, k1) && ReadOnly(k0, k1) && Tracks(k1, addr, content) && content != []
    requires k0.ledger.lo == addr && addr + |content| <= k0.ledger.end
    ensures var k2 := k1.(ledger := Shown(k1.ledger, content));
            LinkFine(digest, isNew, issued, m, k2) && ReadBackOutcome(k0, k2, true, content)
  {
    SeenRaises(digest, isNew, issued, m, k1);
  }

  lemma MakeAllFine(digest: seq<Byte> -> nat, isNew: set<RocId>, issued: nat, mivs: map<RocId, Miv>,
                    k1: map<RocId, Known>, k2: map<RocId, Known>)
    requires AllFine(digest, isNew, issued, mivs, k1) && k2.Keys == k1.Keys
    requires forall r :: r in k1 ==> r in mivs && LinkFine(digest, r in isNew, issued, mivs[r], k2[r])
    ensures AllFine(digest, isNew, issued, mivs, k2)
  {
  }

  lemma ReadUntouched(k0: map<RocId, Known>, k1: map<RocId, Known>, rs: set<RocId>, base: nat, bad: set<RocId>,
                      had: seq<Byte>, seen: seq<Byte>, r: RocId)
    requires ReadOutcomes(k0, k1, rs, base, bad, had, seen) && r in k0 && r !in rs
    ensures r in k1 && k1[r] == k0[r]
  {
  }

  lemma ReadOneMore(k0: map<RocId, Known>, k1: map<RocId, Known>, k2: map<RocId, Known>, rs: set<RocId>, base: nat,
                    bad: set<RocId>, had: seq<Byte>, seen: seq<Byte>, r: RocId, ok: bool)
    requires ReadOutcomes(k0, k1, rs, base, bad, had, seen) && r in k0 && r !in rs && bad <= rs
    requires r in k1 && Only(k1, k2, {r}) && ReadOnly(k1[r], k2[r])
    requires Tracks(k2[r], base, if ok then seen else had)
    ensures ReadOutcomes(k0, k2, rs + {r}, base, if ok then bad else bad + {r}, had, seen)
  {
    forall x | x in k0 && x in rs
      ensures ReadOnly(k0[x], k2[x]) && Tracks(k2[x], base, if x in bad then had else seen)
    {
      assert ReadOnly(k0[x], k1[x]);
    }
  }

  // ---------------------------------------------------------------- a verified segment

  ghost predicate Verifiable(k: map<RocId, Known>, rs: set<RocId>, res: map<RocId, RocResult>, addr: nat, len: nat)
    requires rs <= res.Keys
  {
    && rs <= k.Keys
    && forall r :: r in rs ==>
        if res[r].newMiv then CrcReady(k[r], addr, len)
        else k[r].ledger.lo == addr && addr + len <= k[r].ledger.end
  }

  ghost predicate VerifyOutcome(digest: seq<Byte> -> nat, k0: Known, k1: Known, newMiv: bool, good: bool, addr: nat,
                                content: seq<Byte>) {
    if newMiv then CrcOutcome(digest, k0, k1, good, addr, |content|, digest(content))
    else ReadBackOutcome(k0, k1, good, content)
  }

  ghost predicate VerifyOutcomes(digest: seq<Byte> -> nat, k0: map<RocId, Known>, k1: map<RocId, Known>,
                                 rs: set<RocId>, res: map<RocId, RocResult>, bad: set<RocId>, addr: nat,
                                 content: seq<Byte>)
    requires rs <= res.Keys
  {
    && Only(k0, k1, rs)
    && forall r :: r in k0 && r in rs ==>
        VerifyOutcome(digest, k0[r], k1[r], res[r].newMiv, r !in bad, addr, content)
  }

  lemma VerifyParts(k: map<RocId, Known>, rs: set<RocId>, res: map<RocId, RocResult>, addr: nat, len: nat,
                    crcRocs: set<RocId>, rbRocs: set<RocId>)
    requires rs <= res.Keys && Verifiable(k, rs, res, addr, len)
    requires crcRocs == (set r | r in rs && res[r].newMiv) && rbRocs == (set r | r in rs && !res[r].newMiv)
    ensures AllCrcReady(k, crcRocs, addr, len) && Readable(k, rbRocs, addr, len)
  {
  }

  lemma CrcLeavesRest(digest: seq<Byte> -> nat, k0: map<RocId, Known>, k1: map<RocId, Known>, crcRocs: set<RocId>,
                      bad: set<RocId>, addr: nat, len: nat, want: nat, rbRocs: set<RocId>)
    requires crcRocs <= k0.Keys && CrcOutcomes(digest, k0, k1, crcRocs, bad, addr, len, want)
    requires crcRocs !! rbRocs && Readable(k0, rbRocs, addr, len)
    ensures Readable(k1, rbRocs, addr, len)
  {
  }

  lemma VerifyJoins(digest: seq<Byte> -> nat, k0: map<RocId, Known>, k1: map<RocId, Known>, k2: map<RocId, Known>,
                    rs: set<RocId>, res: map<RocId, RocResult>, crcRocs: set<RocId>, rbRocs: set<RocId>,
                    crcBad: set<RocId>, rbBad: set<RocId>, after: set<RocId>, addr: nat, content: seq<Byte>)
    requires rs <= res.Keys && crcRocs <= k0.Keys
    requires crcRocs == (set r | r in rs && res[r].newMiv) && rbRocs == (set r | r in rs && !res[r].newMiv)
    requires CrcOutcomes(digest, k0, k1, crcRocs, crcBad, addr, |content|, digest(content)) && crcBad <= crcRocs
    requires ReadBackOutcomes(k1, k2, rbRocs, rbBad, content) && rbBad <= rbRocs
    requires forall r :: r in rs ==> (r in after <==> r in crcBad + rbBad)
    ensures VerifyOutcomes(digest, k0, k2, rs, res, after, addr, content)
  {
    hide MovedUp, Certified;
    forall r | r in k0 && r in rs
      ensures VerifyOutcome(digest, k0[r], k2[r], res[r].newMiv, r !in after, addr, content)
    {
      if r in crcRocs {
        assert CrcOutcome(digest, k0[r], k1[r], r !in crcBad, addr, |content|, digest(content));
        assert r !in rbRocs;
      } else {
        assert r in rbRocs;
        assert ReadBackOutcome(k1[r], k2[r], r !in rbBad, content);
      }
    }
  }
}
