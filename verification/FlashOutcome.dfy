/** What a whole session leaves behind. */
module FlashOutcome {
  import opened Basics
  import opened Activation
  import opened FlashWorld
  import opened FlashImage
  import opened FlashLedger
  import opened FlashProgress
  import opened FlashSteps

  /** The ROC as the session finds it: no command is under way; whatever is in the FIFO is not for the session. */
  ghost predicate Startable(m: Miv, isNew: bool) {
    && m.isNew == isNew && |m.flash| == FLASH_SIZE && m.pending == [] && !m.reading && !Mixed(m)
    && m.cap > 0 && m.cap % 2 == 0
    && forall i :: 0 <= i < |m.fifo| ==> m.fifo[i].words != [] && m.fifo[i].answers.None?
  }

  function Begun(mivs: map<RocId, Miv>, start: nat, size: nat): (k: map<RocId, Known>)
    ensures k.Keys == mivs.Keys
  {
    map r | r in mivs ::
      Known(Ledger(mivs[r].flash, start, FootprintEnd(start, size), start, [], false), Nothing, [], 0, false, false)
  }

  ghost predicate Ready(digest: seq<Byte> -> nat, sha256hex: seq<Byte> -> string, isNew: set<RocId>, opt: Options,
                        image: seq<Byte>, rocs: set<RocId>, k: map<RocId, Known>)
  {
    && 0 < |image| && |image| % 2 == 0 && (opt.writeImage ==> opt.maxSegmentAttempts > 0)
    && rocs == k.Keys && AllBlank(digest, isNew, opt.startAddress, image, k)
  }

  lemma ReadyParts(digest: seq<Byte> -> nat, sha256hex: seq<Byte> -> string, isNew: set<RocId>, opt: Options,
                   image: seq<Byte>, rocs: set<RocId>, k: map<RocId, Known>)
    requires Ready(digest, sha256hex, isNew, opt, image, rocs, k)
    ensures 0 < |image| && |image| % 2 == 0 && (opt.writeImage ==> opt.maxSegmentAttempts > 0)
    ensures rocs == k.Keys && AllBlank(digest, isNew, opt.startAddress, image, k)
  {
  }

  lemma BegunFine(digest: seq<Byte> -> nat, isNew: set<RocId>, issued: nat, opt: Options,
                  sha256hex: seq<Byte> -> string, given: seq<Byte>, image: seq<Byte>, mivs: map<RocId, Miv>)
    requires Acceptable(opt, sha256hex, given) && image == Even(given)
    requires forall r :: r in mivs ==> Startable(mivs[r], r in isNew)
    ensures var k := Begun(mivs, opt.startAddress, |image|);
            AllFine(digest, isNew, issued, mivs, k) && Ready(digest, sha256hex, isNew, opt, image, mivs.Keys, k)
  {
    var k := Begun(mivs, opt.startAddress, |image|);
    forall r | r in mivs
      ensures LinkFine(digest, r in isNew, issued, mivs[r], k[r]) && Blank(opt.startAddress, image, k[r])
    {
      assert Startable(mivs[r], r in isNew);
      assert mivs[r].flash[opt.startAddress..opt.startAddress] == [];
    }
  }

  lemma MarkedParts(res0: map<RocId, RocResult>, res1: map<RocId, RocResult>)
    requires MarkedVerified(res0, res1)
    ensures res1.Keys == res0.Keys && OnlyVerifiedOrFailed(res1)
  {
  }

  // ---------------------------------------------------------------- verified ROCs

  /** The whole image is below the verified limit, with matching content. */
  ghost predicate VerifiedRoc(digest: seq<Byte> -> nat, opt: Options, image: seq<Byte>, newMiv: bool, k: Known) {
    && Sane(k.ledger) && k.ledger.start == opt.startAddress
    && k.ledger.lo == opt.startAddress + |image| && Content(digest, newMiv, k.ledger.held, image)
    && (newMiv ==> !k.ledger.readSent)
    && (newMiv && opt.finalImageCrc ==> digest(k.ledger.held) == digest(image))
  }

  /** The session reported the image verified, or acted on it. */
  predicate Vouched(x: RocResult, k: Known) {
    x.state == Verified || x.state == Programmed || SentIap(k)
  }

  /** A ROC that was not failed is verified, and only verified ROCs were sent the IAP. */
  ghost predicate AllVerified(digest: seq<Byte> -> nat, isNew: set<RocId>, opt: Options, image: seq<Byte>,
                              res: map<RocId, RocResult>, k: map<RocId, Known>)
  {
    forall r :: r in k && r in res && Vouched(res[r], k[r]) ==>
      VerifiedRoc(digest, opt, image, res[r].newMiv, k[r])
  }

  ghost predicate NoIap(k: map<RocId, Known>) {
    forall r :: r in k ==> !SentIap(k[r])
  }

  ghost predicate AllRanged(k0: map<RocId, Known>, k1: map<RocId, Known>, isNew: set<RocId>) {
    && k1.Keys == k0.Keys
    && forall r :: r in k0 ==> Ranged(k0[r], k1[r], r in isNew)
  }

  lemma BoundedIsRanged(k0: map<RocId, Known>, k1: map<RocId, Known>, isNew: set<RocId>)
    requires AllBounded(k0, k1, isNew)
    ensures k1.Keys == k0.Keys && AllRanged(k0, k1, isNew)
    ensures NoIap(k0) ==> NoIap(k1)
  {
    hide Ranged;
    forall r | r in k0 ensures Bounded(k0[r], k1[r], r in isNew) {}
  }

  lemma IapIsRanged(k0: map<RocId, Known>, k1: map<RocId, Known>, k2: map<RocId, Known>, rs: set<RocId>, start: nat,
                    isNew: set<RocId>)
    requires AllRanged(k0, k1, isNew) && IapOnly(k1, k2, rs, start)
    ensures AllRanged(k0, k2, isNew)
  {
    forall r | r in k0 ensures Ranged(k0[r], k2[r], r in isNew) {
      assert Ranged(k0[r], k1[r], r in isNew);
      assert k2[r].ledger == k1[r].ledger;
      var a1, a2 := k1[r].acts, k2[r].acts;
      assert forall i :: 0 <= i < |a2| && Modifies(a2[i]) ==> i < |a1| && a2[i] == a1[i];
    }
  }

  lemma BlankNoIap(digest: seq<Byte> -> nat, isNew: set<RocId>, start: nat, image: seq<Byte>, k: map<RocId, Known>)
    requires AllBlank(digest, isNew, start, image, k)
    ensures NoIap(k)
  {
    forall r | r in k ensures !SentIap(k[r]) { assert Blank(start, image, k[r]); }
  }

  lemma UploadedIsVerified(digest: seq<Byte> -> nat, isNew: set<RocId>, opt: Options, image: seq<Byte>,
                           res: map<RocId, RocResult>, k: map<RocId, Known>)
    requires AllUnderway(digest, isNew, opt.startAddress, image, res, k, Living(res), |image|)
    requires opt.finalImageCrc ==> WholeImageAgrees(digest, image, res, k)
    requires OnlyVerifiedOrFailed(res) && NoIap(k)
    ensures AllVerified(digest, isNew, opt, image, res, k)
  {
    hide Content;
    forall r | r in k && r in res && res[r].state == Verified
      ensures VerifiedRoc(digest, opt, image, res[r].newMiv, k[r])
    {
      assert r in Living(res);
      assert Underway(digest, r in isNew, opt.startAddress, image, res[r].newMiv, k[r], |image|);
    }
  }

  lemma IapKeepsVerified(digest: seq<Byte> -> nat, isNew: set<RocId>, opt: Options, image: seq<Byte>,
                         res0: map<RocId, RocResult>, res1: map<RocId, RocResult>, polls: map<RocId, seq<Poll>>,
                         before: map<RocId, Word>, k0: map<RocId, Known>, k1: map<RocId, Known>)
    requires AllVerified(digest, isNew, opt, image, res0, k0) && Activated(res0, res1, polls, before, opt)
    requires NoIap(k0)
    requires IapOnly(k0, k1, InState(res0, Verified), opt.startAddress)
    ensures AllVerified(digest, isNew, opt, image, res1, k1)
  {
    hide Content, Success, Rejected;
    forall r | r in k1 && r in res1 && Vouched(res1[r], k1[r])
      ensures VerifiedRoc(digest, opt, image, res1[r].newMiv, k1[r])
    {
      assert r in InState(res0, Verified);
      assert VerifiedRoc(digest, opt, image, res0[r].newMiv, k0[r]);
    }
  }

  // ---------------------------------------------------------------- in terms of the flash itself

  /** Outside the footprint the flash is what it was, and every erase and write was addressed inside it. */
  ghost predicate SafeRoc(opt: Options, image: seq<Byte>, isNew: bool, m0: Miv, m1: Miv, k: Known) {
    && |m1.flash| == |m0.flash|
    && (forall i :: 0 <= i < |m1.flash| && !(opt.startAddress <= i < FootprintEnd(opt.startAddress, |image|)) ==>
          m1.flash[i] == m0.flash[i])
    && (forall i :: 0 <= i < |k.acts| && Modifies(k.acts[i]) ==>
          opt.startAddress <= k.acts[i].addr && FootEnd(k.acts[i], isNew) <= FootprintEnd(opt.startAddress, |image|))
  }

  ghost predicate AllSafe(opt: Options, image: seq<Byte>, isNew: set<RocId>, m0: map<RocId, Miv>, m1: map<RocId, Miv>,
                          k: map<RocId, Known>) {
    && m1.Keys == m0.Keys == k.Keys
    && forall r :: r in m0 ==> SafeRoc(opt, image, r in isNew, m0[r], m1[r], k[r])
  }

  /** The flash holds the image: by the CRC of every segment (and of the whole, when enabled) with a new MiV, byte
      by byte with an older one. */
  ghost predicate Holds(digest: seq<Byte> -> nat, opt: Options, image: seq<Byte>, newMiv: bool, flash: seq<Byte>) {
    && opt.startAddress + |image| <= |flash|
    && var held := flash[opt.startAddress..opt.startAddress + |image|];
    && Content(digest, newMiv, held, image)
    && (newMiv && opt.finalImageCrc ==> digest(held) == digest(image))
  }

  ghost predicate AllHold(digest: seq<Byte> -> nat, opt: Options, image: seq<Byte>, res: map<RocId, RocResult>,
                          m: map<RocId, Miv>, k: map<RocId, Known>)
  {
    && m.Keys == k.Keys
    && forall r :: r in m && r in res && (res[r].newMiv || !Mixed(m[r])) && Vouched(res[r], k[r]) ==>
        Holds(digest, opt, image, res[r].newMiv, m[r].flash)
  }

  lemma EndSafe(digest: seq<Byte> -> nat, isNew: set<RocId>, issued: nat, opt: Options, image: seq<Byte>,
                m0: map<RocId, Miv>, m1: map<RocId, Miv>, k1: map<RocId, Known>)
    requires (forall r :: r in m0 ==> |m0[r].flash| == FLASH_SIZE) && AllFine(digest, isNew, issued, m1, k1)
    requires AllRanged(Begun(m0, opt.startAddress, |image|), k1, isNew)
    ensures AllSafe(opt, image, isNew, m0, m1, k1)
  {
    var k0 := Begun(m0, opt.startAddress, |image|);
    forall r | r in m0 ensures SafeRoc(opt, image, r in isNew, m0[r], m1[r], k1[r]) {
      assert Ranged(k0[r], k1[r], r in isNew);
      OneFine(digest, isNew, issued, m1, k1, r);
      assert Inside(k0[r], r in isNew);
    }
  }

  lemma EndHolds(digest: seq<Byte> -> nat, isNew: set<RocId>, issued: nat, opt: Options, image: seq<Byte>,
                 res: map<RocId, RocResult>, m: map<RocId, Miv>, k: map<RocId, Known>)
    requires AllFine(digest, isNew, issued, m, k) && AllVerified(digest, isNew, opt, image, res, k)
    ensures AllHold(digest, opt, image, res, m, k)
  {
    hide Content;
    forall r | r in m && r in res && (res[r].newMiv || !Mixed(m[r])) && Vouched(res[r], k[r])
      ensures Holds(digest, opt, image, res[r].newMiv, m[r].flash)
    {
      OneFine(digest, isNew, issued, m, k, r);
      assert VerifiedRoc(digest, opt, image, res[r].newMiv, k[r]);
      assert m[r].flash[k[r].ledger.start..k[r].ledger.lo] == k[r].ledger.held;
    }
  }

  /** Of an older MiV to which every read was sent after an answer to the one before, and which answered nobody else
      while a read was awaited, nothing is mixed up. */
  ghost predicate AllInOrder(isNew: set<RocId>, m: map<RocId, Miv>, k: map<RocId, Known>) {
    forall r :: r in m && r in k && r !in isNew && !k[r].doubt && !m[r].disturbed ==> !Mixed(m[r])
  }

  lemma EndInOrder(digest: seq<Byte> -> nat, isNew: set<RocId>, issued: nat, m: map<RocId, Miv>, k: map<RocId, Known>)
    requires AllFine(digest, isNew, issued, m, k)
    ensures AllInOrder(isNew, m, k)
  {
    hide Good, Expected;
    forall r | r in m && r in k && r !in isNew && !k[r].doubt && !m[r].disturbed ensures !Mixed(m[r]) {
      OneFine(digest, isNew, issued, m, k, r);
    }
  }

  // ---------------------------------------------------------------- results

  /** Every ROC has one outcome: Verified or Failed without activation, Programmed (exactly on the evidence of
      its last poll) or Failed with it. */
  ghost predicate OutcomesKnown(res: map<RocId, RocResult>, polls: map<RocId, seq<Poll>>, before: map<RocId, Word>,
                                opt: Options) {
    && polls.Keys <= before.Keys
    && forall r :: r in res ==>
        && (res[r].state == Failed || res[r].state == if opt.program then Programmed else Verified)
        && (res[r].state == Programmed ==> r in polls && Success(polls[r], before[r], opt.expectedFwVersion))
  }

  lemma ActivatedIsKnown(res0: map<RocId, RocResult>, res1: map<RocId, RocResult>, polls: map<RocId, seq<Poll>>,
                         before: map<RocId, Word>, opt: Options)
    requires Activated(res0, res1, polls, before, opt) && opt.program
    ensures OutcomesKnown(res1, polls, before, opt) && res1.Keys == res0.Keys
  {
    hide Success, Rejected;
  }

  lemma NotActivated(res: map<RocId, RocResult>, polls: map<RocId, seq<Poll>>, before: map<RocId, Word>, opt: Options)
    requires OnlyVerifiedOrFailed(res) && !opt.program && polls == map[]
    ensures OutcomesKnown(res, polls, before, opt)
  {
  }
}
