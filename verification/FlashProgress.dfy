/** How far the verified part of each flash has come. */
module FlashProgress {
  import opened Basics
  import opened FlashWorld
  import opened FlashImage
  import opened FlashLedger
  import opened FlashSteps

  /** A ROC that is still in the session, `done` image bytes verified: what is below the limit has the content of
      the image, and everything from the limit on may still be erased and written. */
  ghost predicate Underway(digest: seq<Byte> -> nat, isNew: bool, start: nat, image: seq<Byte>, newMiv: bool,
                           k: Known, done: nat) {
    && Sane(k.ledger)
    && k.ledger.start == start && k.ledger.end == FootprintEnd(start, |image|) <= FLASH_SIZE
    && (newMiv ==> isNew && !k.ledger.readSent)
    && k.ledger.lo == start + done && Content(digest, newMiv, k.ledger.held, image)
  }

  ghost predicate AllUnderway(digest: seq<Byte> -> nat, isNew: set<RocId>, start: nat, image: seq<Byte>,
                              res: map<RocId, RocResult>, k: map<RocId, Known>, rs: set<RocId>, done: nat)
  {
    && rs <= k.Keys && rs <= res.Keys
    && forall r :: r in rs ==> Underway(digest, r in isNew, start, image, res[r].newMiv, k[r], done)
  }

  predicate SentIap(k: Known) {
    exists i :: 0 <= i < |k.acts| && k.acts[i].Iap?
  }

  /** No IAP is sent, the range of the ROC stays what it was, and every erase and write goes inside it. */
  ghost predicate Bounded(k0: Known, k1: Known, isNew: bool) {
    && Ranged(k0, k1, isNew)
    && (!SentIap(k0) ==> !SentIap(k1))
  }

  ghost predicate Ranged(k0: Known, k1: Known, isNew: bool) {
    && k1.ledger.initial == k0.ledger.initial && k1.ledger.start == k0.ledger.start && k1.ledger.end == k0.ledger.end
    && (Inside(k0, isNew) ==> Inside(k1, isNew))
  }

  predicate Inside(k: Known, isNew: bool) {
    forall i :: 0 <= i < |k.acts| && Modifies(k.acts[i]) ==>
      k.ledger.start <= k.acts[i].addr && FootEnd(k.acts[i], isNew) <= k.ledger.end
  }

  ghost predicate AllBounded(k0: map<RocId, Known>, k1: map<RocId, Known>, isNew: set<RocId>) {
    && k1.Keys == k0.Keys
    && forall r :: r in k0 ==> Bounded(k0[r], k1[r], r in isNew)
  }

  lemma BoundedTwice(k0: map<RocId, Known>, k1: map<RocId, Known>, k2: map<RocId, Known>, isNew: set<RocId>)
    requires AllBounded(k0, k1, isNew) && AllBounded(k1, k2, isNew)
    ensures AllBounded(k0, k2, isNew)
  {
    forall r | r in k0 ensures Bounded(k0[r], k2[r], r in isNew) {
      assert Bounded(k0[r], k1[r], r in isNew) && Bounded(k1[r], k2[r], r in isNew);
    }
  }

  // ---------------------------------------------------------------- one attempt at a segment

  /** What an attempt sends: the erase, then the records. */
  function SegmentCommands(newMiv: bool, image: seq<Byte>, start: nat, off: nat, len: nat): seq<Cmd>
    requires off + len <= |image| && len % 2 == 0
  {
    [Chosen(newMiv, EraseNew(start + off), EraseOld(start + off))] + Records(image, start, off, len, RecordCount(len))
  }

  /** The first of them is an erase of exactly the 64 kB of the segment with a new MiV, and with an older one of these and
      the 64 kB behind. */
  lemma EraseFootprint(newMiv: bool, image: seq<Byte>, start: nat, off: nat, len: nat, x: nat)
    requires off + len <= |image| && len % 2 == 0
    ensures var c := SegmentCommands(newMiv, image, start, off, len)[0];
            && c.Erase?
            && (c.addr <= x < FootEnd(c, newMiv) <==>
                  start + off <= x < start + off + if newMiv then 65536 else 131072)
  {
  }

  /** The commands sent are `sent` or part of it, and all of it if the segment verified; the limit moves up over
      the segment only if it verified. */
  ghost predicate SegmentOutcome(digest: seq<Byte> -> nat, k0: Known, k1: Known, newMiv: bool, good: bool, addr: nat,
                                 content: seq<Byte>, sent: seq<Cmd>)
  {
    && k0.acts <= k1.acts
    && (forall i :: |k0.acts| <= i < |k1.acts| ==> k1.acts[i] in sent)
    && (good ==> k1.acts == k0.acts + sent)
    && VerifyOutcome(digest, k0.(acts := k1.acts), k1, newMiv, good, addr, content)
  }

  lemma AttemptAddsUp(digest: seq<Byte> -> nat, k0: Known, k1: Known, k2: Known, k3: Known, newMiv: bool,
                      erased: bool, written: bool, good: bool, erase: Cmd, records: seq<Cmd>, addr: nat,
                      content: seq<Byte>)
    requires Untagged(erase) == erase && CommandOutcome(k0, k1, erased, erase)
    requires WriteOutcome(k1, k2, written, records)
    requires if written then VerifyOutcome(digest, k2, k3, newMiv, good, addr, content) else k3 == k2
    requires good ==> written && erased
    ensures SegmentOutcome(digest, k0, k3, newMiv, good, addr, content, [erase] + records)
  {
    hide Certified, MovedUp;
    assert k3.acts == k2.acts;
    assert forall i :: |k0.acts| <= i < |k3.acts| ==> k3.acts[i] == erase || k3.acts[i] in records;
  }

  lemma SegmentFine(digest: seq<Byte> -> nat, isNew: bool, start: nat, image: seq<Byte>, newMiv: bool, k0: Known,
                    k1: Known, s: nat, good: bool, sent: seq<Cmd>)
    requires s < SegmentCount(|image|) && |image| % 2 == 0
    requires Underway(digest, isNew, start, image, newMiv, k0, Before(|image|, s))
    requires var off := s * BLOCK; var n := SegmentLength(|image|, s);
             SegmentOutcome(digest, k0, k1, newMiv, good, start + off, image[off..off + n], sent)
    ensures Underway(digest, isNew, start, image, newMiv, k1, Before(|image|, if good then s + 1 else s))
  {
    SegmentBounds(|image|, s);
    var off := s * BLOCK;
    var n := SegmentLength(|image|, s);
    if good && newMiv {
      SegmentJoins(digest, k0.ledger.held, k1.ledger.held, image, s, n);
    } else if good {
      BytesJoin(digest, k0.ledger.held, image, off, n);
    }
  }

  lemma SegmentBounded(digest: seq<Byte> -> nat, isNew: bool, start: nat, image: seq<Byte>, newMiv: bool, k0: Known,
                       k1: Known, s: nat, good: bool, writing: bool)
    requires s < SegmentCount(|image|) && |image| % 2 == 0
    requires Underway(digest, isNew, start, image, newMiv, k0, Before(|image|, s))
    requires var off := s * BLOCK; var n := SegmentLength(|image|, s);
             SegmentOutcome(digest, k0, k1, newMiv, good, start + off, image[off..off + n],
                            if writing then SegmentCommands(newMiv, image, start, off, n) else [])
    ensures Bounded(k0, k1, isNew)
  {
    SegmentBounds(|image|, s);
    var off := s * BLOCK;
    var n := SegmentLength(|image|, s);
    if writing {
      CommandsInside(isNew, newMiv, image, start, s);
    }
    forall i | 0 <= i < |k1.acts|
      ensures i < |k0.acts| ==> k1.acts[i] == k0.acts[i]
      ensures i >= |k0.acts| ==>
        Modifies(k1.acts[i]) && start <= k1.acts[i].addr && FootEnd(k1.acts[i], isNew) <= k0.ledger.end
    {
    }
  }

  /** The commands of a segment stay between its start and the end of the footprint. */
  lemma CommandsInside(isNew: bool, newMiv: bool, image: seq<Byte>, start: nat, s: nat)
    requires s < SegmentCount(|image|) && |image| % 2 == 0 && (newMiv ==> isNew)
    ensures var off := s * BLOCK; var n := SegmentLength(|image|, s);
            forall c :: c in SegmentCommands(newMiv, image, start, off, n) ==>
              Modifies(c) && start + off <= c.addr && FootEnd(c, isNew) <= FootprintEnd(start, |image|)
  {
    SegmentBounds(|image|, s);
    var off := s * BLOCK;
    var n := SegmentLength(|image|, s);
    var records := Records(image, start, off, n, RecordCount(n));
    forall c | c in SegmentCommands(newMiv, image, start, off, n)
      ensures Modifies(c) && start + off <= c.addr && FootEnd(c, isNew) <= FootprintEnd(start, |image|)
    {
      if c in records {
        var k :| 0 <= k < |records| && records[k] == c;
        assert c == Record(image, start, off, n, k);
      }
    }
  }

  // ---------------------------------------------------------------- several ROCs at once

  ghost predicate SegmentOutcomes(digest: seq<Byte> -> nat, k0: map<RocId, Known>, k1: map<RocId, Known>,
                                  rs: set<RocId>, res: map<RocId, RocResult>, bad: set<RocId>, start: nat,
                                  image: seq<Byte>, s: nat, writing: bool)
    requires |image| % 2 == 0 && s < SegmentCount(|image|) && rs <= res.Keys
  {
    var off := s * BLOCK;
    var n := SegmentLength(|image|, s);
    && Only(k0, k1, rs)
    && forall r :: r in k0 && r in rs ==>
        SegmentOutcome(digest, k0[r], k1[r], res[r].newMiv, r !in bad, start + off, image[off..off + n],
                       if writing then SegmentCommands(res[r].newMiv, image, start, off, n) else [])
  }

  lemma UnderwayReady(digest: seq<Byte> -> nat, isNew: set<RocId>, start: nat, image: seq<Byte>,
                      res: map<RocId, RocResult>, k: map<RocId, Known>, rs: set<RocId>, s: nat)
    requires |image| % 2 == 0 && s < SegmentCount(|image|)
    requires AllUnderway(digest, isNew, start, image, res, k, rs, Before(|image|, s))
    ensures rs <= k.Keys && rs <= res.Keys
    ensures var off := s * BLOCK; var n := SegmentLength(|image|, s);
            && AllCommandReady(k, rs, isNew, res, EraseNew(start + off), EraseOld(start + off))
            && Writable(k, rs, isNew, res, start + off, start + off + n)
            && Verifiable(k, rs, res, start + off, n)
    ensures rs != {} ==> start + |image| <= FLASH_SIZE
  {
    hide Content;
    SegmentBounds(|image|, s);
  }

  lemma ErasedIsWritable(k0: map<RocId, Known>, k1: map<RocId, Known>, rs: set<RocId>, done: set<RocId>,
                         isNew: set<RocId>, res: map<RocId, RocResult>, from: nat, to: nat)
    requires rs <= res.Keys && Writable(k0, rs, isNew, res, from, to)
    requires CommandOutcomes(k0, k1, rs, done, res, EraseNew(from), EraseOld(from))
    ensures Writable(k1, rs, isNew, res, from, to)
  {
    forall r | r in rs
      ensures k1[r].ledger.lo <= from && to <= k1[r].ledger.end && (res[r].newMiv ==> !k1[r].ledger.readSent)
    {
      assert CommandOutcome(k0[r], k1[r], r in done, Chosen(res[r].newMiv, EraseNew(from), EraseOld(from)));
    }
  }

  lemma WrittenIsVerifiable(k0: map<RocId, Known>, k1: map<RocId, Known>, k2: map<RocId, Known>, rs: set<RocId>,
                            done: set<RocId>, e2: set<RocId>, res: map<RocId, RocResult>, image: seq<Byte>,
                            start: nat, off: nat, len: nat)
    requires off + len <= |image| && len % 2 == 0 && rs <= res.Keys
    requires Verifiable(k0, rs, res, start + off, len)
    requires CommandOutcomes(k0, k1, rs, done, res, EraseNew(start + off), EraseOld(start + off))
    requires WriteOutcomes(k1, k2, rs, rs - e2, Records(image, start, off, len, RecordCount(len)))
    ensures Verifiable(k2, rs - e2, res, start + off, len)
  {
    forall r | r in rs ensures k2[r].ledger == k0[r].ledger {
      assert CommandOutcome(k0[r], k1[r], r in done, Chosen(res[r].newMiv, EraseNew(start + off), EraseOld(start + off)));
      assert WriteOutcome(k1[r], k2[r], r in rs - e2, Records(image, start, off, len, RecordCount(len)));
    }
  }

  lemma AttemptJoins(digest: seq<Byte> -> nat, k0: map<RocId, Known>, k1: map<RocId, Known>, k2: map<RocId, Known>,
                     k3: map<RocId, Known>, rs: set<RocId>, res: map<RocId, RocResult>, e1: set<RocId>,
                     e2: set<RocId>, e3: set<RocId>, start: nat, image: seq<Byte>, s: nat)
    requires |image| % 2 == 0 && s < SegmentCount(|image|) && rs <= res.Keys && e1 <= e2 <= e3 <= rs
    requires var off := s * BLOCK; var n := SegmentLength(|image|, s);
             && CommandOutcomes(k0, k1, rs, rs - e1, res, EraseNew(start + off), EraseOld(start + off))
             && WriteOutcomes(k1, k2, rs, rs - e2, Records(image, start, off, n, RecordCount(n)))
             && VerifyOutcomes(digest, k2, k3, rs - e2, res, e3, start + off, image[off..off + n])
    ensures SegmentOutcomes(digest, k0, k3, rs, res, e3, start, image, s, true)
  {
    hide VerifyOutcome, WriteOutcome, CommandOutcome, SegmentOutcome, Record;
    var off := s * BLOCK;
    var n := SegmentLength(|image|, s);
    forall r | r in k0 && r in rs
      ensures SegmentOutcome(digest, k0[r], k3[r], res[r].newMiv, r !in e3, start + off, image[off..off + n],
                             SegmentCommands(res[r].newMiv, image, start, off, n))
    {
      AttemptAddsUp(digest, k0[r], k1[r], k2[r], k3[r], res[r].newMiv, r !in e1, r !in e2, r !in e3,
                    Chosen(res[r].newMiv, EraseNew(start + off), EraseOld(start + off)),
                      Records(image, start, off, n, RecordCount(n)),
                    start + off, image[off..off + n]);
    }
  }

  /** The ROCs that verified segment s are one segment further, the others where they were. */
  lemma SegmentMoves(digest: seq<Byte> -> nat, isNew: set<RocId>, start: nat, image: seq<Byte>,
                     res: map<RocId, RocResult>, k0: map<RocId, Known>, k1: map<RocId, Known>, rs: set<RocId>,
                     bad: set<RocId>, s: nat, writing: bool)
    requires |image| % 2 == 0 && s < SegmentCount(|image|) && bad <= rs
    requires AllUnderway(digest, isNew, start, image, res, k0, rs, Before(|image|, s))
    requires SegmentOutcomes(digest, k0, k1, rs, res, bad, start, image, s, writing)
    ensures AllUnderway(digest, isNew, start, image, res, k1, rs - bad, Before(|image|, s + 1))
    ensures AllUnderway(digest, isNew, start, image, res, k1, bad, Before(|image|, s))
    ensures AllBounded(k0, k1, isNew)
    ensures k1.Keys == k0.Keys && forall r :: r in k0 && r !in rs ==> k1[r] == k0[r]
  {
    hide Underway, SegmentOutcome, Bounded;
    var off := s * BLOCK;
    var n := SegmentLength(|image|, s);
    forall r | r in k0
      ensures r in rs ==> Underway(digest, r in isNew, start, image, res[r].newMiv, k1[r],
                                   Before(|image|, if r in bad then s else s + 1))
      ensures Bounded(k0[r], k1[r], r in isNew)
    {
      if r in rs {
        var sent := if writing then SegmentCommands(res[r].newMiv, image, start, off, n) else [];
        SegmentFine(digest, r in isNew, start, image, res[r].newMiv, k0[r], k1[r], s, r !in bad, sent);
        SegmentBounded(digest, r in isNew, start, image, res[r].newMiv, k0[r], k1[r], s, r !in bad,
          writing);
      } else {
        SameIsBounded(k0[r], r in isNew);
      }
    }
  }

  lemma SameIsBounded(k: Known, isNew: bool)
    ensures Bounded(k, k, isNew)
  {
  }

  lemma VerifyJoinsAlone(digest: seq<Byte> -> nat, k0: map<RocId, Known>, k1: map<RocId, Known>, rs: set<RocId>,
                         res: map<RocId, RocResult>, bad: set<RocId>, start: nat, image: seq<Byte>, s: nat)
    requires |image| % 2 == 0 && s < SegmentCount(|image|) && rs <= res.Keys
    requires var off := s * BLOCK; var n := SegmentLength(|image|, s);
             VerifyOutcomes(digest, k0, k1, rs, res, bad, start + off, image[off..off + n])
    ensures SegmentOutcomes(digest, k0, k1, rs, res, bad, start, image, s, false)
  {
    hide Certified, MovedUp;
    var off := s * BLOCK;
    var n := SegmentLength(|image|, s);
    forall r | r in k0 && r in rs
      ensures SegmentOutcome(digest, k0[r], k1[r], res[r].newMiv, r !in bad, start + off,
                             image[off..off + n], [])
    {
      assert VerifyOutcome(digest, k0[r], k1[r], res[r].newMiv, r !in bad, start + off, image[off..off + n]);
    }
  }

  lemma AllBoundedStart(k: map<RocId, Known>, isNew: set<RocId>)
    ensures AllBounded(k, k, isNew)
  {
  }

  lemma NoneUnderway(digest: seq<Byte> -> nat, isNew: set<RocId>, start: nat, image: seq<Byte>,
                     res: map<RocId, RocResult>, k: map<RocId, Known>, done: nat)
    ensures AllUnderway(digest, isNew, start, image, res, k, {}, done)
  {
  }

  /** Only the kind of MiV matters, not the rest of the result. */
  lemma SameKindUnderway(digest: seq<Byte> -> nat, isNew: set<RocId>, start: nat, image: seq<Byte>,
                         res0: map<RocId, RocResult>, res1: map<RocId, RocResult>, k: map<RocId, Known>,
                         rs: set<RocId>, done: nat)
    requires AllUnderway(digest, isNew, start, image, res0, k, rs, done) && FailsOnly(res0, res1)
    ensures AllUnderway(digest, isNew, start, image, res1, k, rs, done)
  {
    hide Underway;
  }

  /** The ROCs that verified the segment now join the ones that did before. */
  lemma DoneStays(digest: seq<Byte> -> nat, isNew: set<RocId>, start: nat, image: seq<Byte>,
                  res: map<RocId, RocResult>, k0: map<RocId, Known>, k1: map<RocId, Known>, before: set<RocId>,
                  todo: set<RocId>, bad: set<RocId>, done: nat)
    requires AllUnderway(digest, isNew, start, image, res, k0, before, done) && before !! todo
    requires AllUnderway(digest, isNew, start, image, res, k1, todo - bad, done)
    requires k1.Keys == k0.Keys && forall r :: r in k0 && r !in todo ==> k1[r] == k0[r]
    ensures AllUnderway(digest, isNew, start, image, res, k1, before + (todo - bad), done)
  {
    hide Underway;
  }

  // ---------------------------------------------------------------- results

  /** The ROCs not failed. */
  function Living(res: map<RocId, RocResult>): (rs: set<RocId>)
    ensures rs <= res.Keys
  {
    set r | r in res && res[r].state != Failed
  }

  /** Failed stays Failed, and otherwise at most the retry counts change. */
  predicate FailsOnly(res0: map<RocId, RocResult>, res1: map<RocId, RocResult>) {
    && res1.Keys == res0.Keys
    && forall r :: r in res0 ==>
        && res1[r] == res0[r].(state := res1[r].state, segmentRetries := res1[r].segmentRetries)
        && (res1[r].state == res0[r].state || res1[r].state == Failed)
  }

  function WithFailed(res: map<RocId, RocResult>, rs: set<RocId>): (after: map<RocId, RocResult>)
    ensures FailsOnly(res, after)
    ensures Living(after) == Living(res) - rs
  {
    map r | r in res :: if r in rs then res[r].(state := Failed) else res[r]
  }

  function WithRetry(res: map<RocId, RocResult>, rs: set<RocId>): (after: map<RocId, RocResult>)
    ensures FailsOnly(res, after)
    ensures Living(after) == Living(res)
  {
    map r | r in res :: if r in rs then res[r].(segmentRetries := res[r].segmentRetries + 1) else res[r]
  }

  lemma FailsNone(res: map<RocId, RocResult>)
    ensures FailsOnly(res, res)
  {
  }

  lemma FailsTwice(res0: map<RocId, RocResult>, res1: map<RocId, RocResult>, res2: map<RocId, RocResult>)
    requires FailsOnly(res0, res1) && FailsOnly(res1, res2)
    ensures FailsOnly(res0, res2)
  {
  }

  /** Every ROC that is alive gets the state. */
  function WithState(res: map<RocId, RocResult>, state: RocState): (after: map<RocId, RocResult>)
    requires state != Failed
    ensures after.Keys == res.Keys && Living(after) == Living(res)
    ensures forall r :: r in res ==> after[r].newMiv == res[r].newMiv
  {
    map r | r in res :: if res[r].state != Failed then res[r].(state := state) else res[r]
  }

  /** Every ROC is Verified or Failed, and none that was Failed is Verified. */
  predicate MarkedVerified(res0: map<RocId, RocResult>, res1: map<RocId, RocResult>) {
    && res1.Keys == res0.Keys
    && forall r :: r in res0 ==>
        && res1[r] == res0[r].(state := res1[r].state, segmentRetries := res1[r].segmentRetries)
        && (res1[r].state == Verified || res1[r].state == Failed)
        && (res0[r].state == Failed ==> res1[r].state == Failed)
  }

  lemma FailsThenVerified(res0: map<RocId, RocResult>, res1: map<RocId, RocResult>)
    requires FailsOnly(WithState(res0, Uploading), res1)
    ensures MarkedVerified(res0, WithState(res1, Verified))
  {
  }

  lemma SameUnderway(digest: seq<Byte> -> nat, isNew: set<RocId>, start: nat, image: seq<Byte>,
                     res0: map<RocId, RocResult>, res1: map<RocId, RocResult>, k: map<RocId, Known>, done: nat)
    requires AllUnderway(digest, isNew, start, image, res0, k, Living(res0), done)
    requires res1.Keys == res0.Keys && Living(res1) == Living(res0)
    requires forall r :: r in res0 ==> res1[r].newMiv == res0[r].newMiv
    ensures AllUnderway(digest, isNew, start, image, res1, k, Living(res1), done)
  {
    hide Underway;
  }

  // ---------------------------------------------------------------- the whole image

  /** On every living ROC with a new MiV the CRC of the whole image agrees with the file. */
  ghost predicate WholeImageAgrees(digest: seq<Byte> -> nat, image: seq<Byte>, res: map<RocId, RocResult>,
                                   k: map<RocId, Known>) {
    forall r :: r in k && r in Living(res) && res[r].newMiv ==> digest(k[r].ledger.held) == digest(image)
  }

  lemma SameWholeImage(digest: seq<Byte> -> nat, image: seq<Byte>, res0: map<RocId, RocResult>,
                       res1: map<RocId, RocResult>, k: map<RocId, Known>)
    requires res1.Keys == res0.Keys && Living(res1) == Living(res0)
    requires forall r :: r in res0 ==> res1[r].newMiv == res0[r].newMiv
    ensures WholeImageAgrees(digest, image, res0, k) ==> WholeImageAgrees(digest, image, res1, k)
  {
  }

  lemma UnderwayCrcReady(digest: seq<Byte> -> nat, isNew: set<RocId>, start: nat, image: seq<Byte>,
                         res: map<RocId, RocResult>, k: map<RocId, Known>, rs: set<RocId>)
    requires AllUnderway(digest, isNew, start, image, res, k, Living(res), |image|)
    requires rs == set r | r in Living(res) && res[r].newMiv
    ensures AllCrcReady(k, rs, start, |image|)
    ensures rs == {} ==> WholeImageAgrees(digest, image, res, k)
  {
    hide Content;
    assert |image| <= Padded(|image|);
    assert forall r :: r in Living(res) && res[r].newMiv ==> r in rs;
  }

  lemma WholeImageCrc(digest: seq<Byte> -> nat, isNew: set<RocId>, start: nat, image: seq<Byte>,
                      res0: map<RocId, RocResult>, res1: map<RocId, RocResult>, k0: map<RocId, Known>,
                      k1: map<RocId, Known>, rs: set<RocId>, bad: set<RocId>)
    requires AllUnderway(digest, isNew, start, image, res0, k0, Living(res0), |image|)
    requires rs == (set r | r in Living(res0) && res0[r].newMiv) && rs <= k0.Keys && bad <= rs
    requires res1 == WithFailed(res0, bad)
    requires CrcOutcomes(digest, k0, k1, rs, bad, start, |image|, digest(image))
    ensures AllUnderway(digest, isNew, start, image, res1, k1, Living(res1), |image|)
    ensures WholeImageAgrees(digest, image, res1, k1)
    ensures AllBounded(k0, k1, isNew)
  {
    hide Content;
    forall r | r in k0
      ensures r in Living(res0) ==> Underway(digest, r in isNew, start, image, res0[r].newMiv, k1[r], |image|)
      ensures r in rs && r !in bad ==> digest(k1[r].ledger.held) == digest(image)
      ensures Bounded(k0[r], k1[r], r in isNew)
    {
      if r in rs {
        WholeImageOne(digest, r in isNew, start, image, k0[r], k1[r], r !in bad);
      }
    }
  }

  lemma WholeImageOne(digest: seq<Byte> -> nat, isNew: bool, start: nat, image: seq<Byte>, k0: Known, k1: Known,
                      good: bool)
    requires Underway(digest, isNew, start, image, true, k0, |image|)
    requires CrcOutcome(digest, k0, k1, good, start, |image|, digest(image))
    ensures Underway(digest, isNew, start, image, true, k1, |image|)
    ensures good ==> digest(k1.ledger.held) == digest(image)
    ensures Bounded(k0, k1, isNew)
  {
    hide Content;
    if good {
      assert k1.ledger.held == k1.ledger.held[..|k0.ledger.held|];
      assert k1.ledger.held[0..|image|] == k1.ledger.held;
    }
  }

  // ---------------------------------------------------------------- before the upload

  function LowerChar(c: char): char {
    if 'A' <= c <= 'Z' then c + 32 as char else c
  }

  function Lower(s: string): string {
    seq(|s|, i requires 0 <= i < |s| => LowerChar(s[i]))
  }

  /** The expected digits may be given in either case. */
  lemma ExpectedInEitherCase(text: string, expected: string)
    requires |text| == |expected| && forall i :: 0 <= i < |text| ==> text[i] in "0123456789abcdef"
    ensures Lower(expected) == text <==> forall i :: 0 <= i < |text| ==> SameDigit(text[i], expected[i])
  {
    forall i | 0 <= i < |text| ensures Lower(expected)[i] == text[i] <==> SameDigit(text[i], expected[i]) {
      assert text[i] in "0123456789abcdef";
      CaseOf(text[i], expected[i]);
    }
    if forall i :: 0 <= i < |text| ==> SameDigit(text[i], expected[i]) {
      assert Lower(expected) == text;
    }
  }

  predicate SameDigit(d: char, e: char) {
    e == d || exists k :: 0 <= k < 6 && d == "abcdef"[k] && e == "ABCDEF"[k]
  }

  lemma CaseOf(d: char, e: char)
    requires d in "0123456789abcdef"
    ensures LowerChar(e) == d <==> SameDigit(d, e)
  {
    if 'A' <= e <= 'F' && LowerChar(e) == d {
      var k := e as int - 'A' as int;
      assert d == "abcdef"[k] && e == "ABCDEF"[k];
    }
  }

  /** Two bytes to a word; 0xFF is erased flash. */
  function Even(image: seq<Byte>): (e: seq<Byte>)
    ensures |e| % 2 == 0 && image <= e
  {
    if |image| % 2 == 0 then image else image + [0xFF]
  }

  /** The file is the expected one and everything it may touch lies between the protected area and the end of the
      flash. */
  predicate Acceptable(opt: Options, sha256hex: seq<Byte> -> string, image: seq<Byte>) {
    && |opt.expectedSha256| == 64 && image != [] && sha256hex(image) == Lower(opt.expectedSha256)
    && opt.startAddress % BLOCK == 0 && opt.protectedBelow <= opt.startAddress
    && FootprintEnd(opt.startAddress, |Even(image)|) <= FLASH_SIZE
    && (opt.flashBytes == 0 || FootprintEnd(opt.startAddress, |Even(image)|) <= opt.flashBytes)
    && (opt.writeImage ==> opt.maxSegmentAttempts > 0)
  }

  function NewResults(rocs: set<RocId>): map<RocId, RocResult> {
    map r | r in rocs :: RocResult(Selected, false, 1016, 0)
  }

  /** Nothing sent and nothing verified yet. */
  ghost predicate Blank(start: nat, image: seq<Byte>, k: Known) {
    && Sane(k.ledger) && k.ledger.start == start == k.ledger.lo
    && k.ledger.end == FootprintEnd(start, |image|) <= FLASH_SIZE
    && !k.ledger.readSent && k.acts == []
  }

  ghost predicate AllBlank(digest: seq<Byte> -> nat, isNew: set<RocId>, start: nat, image: seq<Byte>,
                           k: map<RocId, Known>) {
    forall r :: r in k ==> Blank(start, image, k[r])
  }

  lemma BlankIsCrcReady(digest: seq<Byte> -> nat, isNew: set<RocId>, start: nat, image: seq<Byte>,
                        k: map<RocId, Known>)
    requires AllBlank(digest, isNew, start, image, k)
    ensures AllCrcReady(k, k.Keys, start, 2)
    ensures k.Keys != {} ==> start + 1016 <= FLASH_SIZE
  {
  }

  ghost predicate ReadsOnly(k0: map<RocId, Known>, k1: map<RocId, Known>, rs: set<RocId>) {
    && Only(k0, k1, rs)
    && forall r :: r in k0 && r in rs ==> ReadOnly(k0[r], k1[r])
  }

  lemma ReadsStart(k: map<RocId, Known>)
    ensures ReadsOnly(k, k, {})
  {
  }

  lemma ReadsOneMore(k0: map<RocId, Known>, k1: map<RocId, Known>, k2: map<RocId, Known>, rs: set<RocId>, r: RocId)
    requires ReadsOnly(k0, k1, rs) && r in k0 && r !in rs && r in k1
    requires Only(k1, k2, {r}) && ReadOnly(k1[r], k2[r])
    ensures ReadsOnly(k0, k2, rs + {r})
  {
  }

  function Probed(rocs: set<RocId>, found: set<RocId>, sizes: map<RocId, PieceSize>): map<RocId, RocResult> {
    map r | r in rocs ::
      if r in found then RocResult(Selected, true, 1016, 0)
      else if r in sizes then RocResult(Selected, false, sizes[r], 0)
      else RocResult(Failed, false, 1016, 0)
  }

  lemma ProbedStates(rocs: set<RocId>, found: set<RocId>, sizes: map<RocId, PieceSize>)
    ensures var res := Probed(rocs, found, sizes);
            && res.Keys == rocs
            && (forall r :: r in rocs ==> res[r].state == Selected || res[r].state == Failed)
            && forall r :: r in rocs ==>
                && (res[r].newMiv <==> r in found) && (res[r].state == Failed <==> r !in found && r !in sizes)
                && (r !in found && r in sizes ==> res[r].readBytes == sizes[r])
  {
  }

  lemma ProbedIsUnderway(digest: seq<Byte> -> nat, isNew: set<RocId>, start: nat, image: seq<Byte>,
                         k0: map<RocId, Known>, k1: map<RocId, Known>, k2: map<RocId, Known>, rocs: set<RocId>,
                         found: set<RocId>, older: set<RocId>, sizes: map<RocId, PieceSize>)
    requires AllBlank(digest, isNew, start, image, k0) && rocs == k0.Keys
    requires OnlyHopes(k0, k1, rocs) && ReadsOnly(k1, k2, older) && sizes.Keys <= older && found !! older
    requires found <= isNew
    ensures var res := Probed(rocs, found, sizes);
            AllUnderway(digest, isNew, start, image, res, k2, Living(res), 0)
    ensures AllBounded(k0, k2, isNew)
  {
    var res := Probed(rocs, found, sizes);
    forall r | r in k0
      ensures r in Living(res) ==> Underway(digest, r in isNew, start, image, res[r].newMiv, k2[r], 0)
      ensures Bounded(k0[r], k2[r], r in isNew)
    {
      assert Blank(start, image, k0[r]);
      assert k0[r].ledger.held == [];
      if r in older { assert ReadOnly(k1[r], k2[r]); }
      NothingVerified(digest, res[r].newMiv, image);
    }
  }
}
