/** What excuses that a ROC is failed during the upload. */
module FlashUpload {
  import opened Basics
  import opened FlashWorld
  import opened FlashImage
  import opened FlashLedger
  import opened FlashSteps
  import opened FlashProgress
  import opened FlashEvidence
  import opened FlashExcuse

  /** So many attempts at a segment, one after the other, all of which fail. */
  ghost predicate AttemptsFail(seg: seq<Access>, attempts: nat, newMiv: bool, opt: Options, image: seq<Byte>,
                               digest: seq<Byte> -> nat, off: nat, len: nat)
    requires off + len <= |image| && len % 2 == 0
    decreases attempts
  {
    if attempts == 0 then seg == []
    else exists k: nat ::
      && k <= |seg| && AttemptsFail(seg[..k], attempts - 1, newMiv, opt, image, digest, off, len)
      && AttemptFails(seg[k..], newMiv, opt, image, digest, off, len)
  }

  lemma OneMoreAttempt(before: seq<Access>, seg: seq<Access>, attempts: nat, newMiv: bool, opt: Options, image: seq<Byte>,
                       digest: seq<Byte> -> nat, off: nat, len: nat)
    requires off + len <= |image| && len % 2 == 0
    requires AttemptsFail(before, attempts, newMiv, opt, image, digest, off, len)
    requires AttemptFails(seg, newMiv, opt, image, digest, off, len)
    ensures AttemptsFail(before + seg, attempts + 1, newMiv, opt, image, digest, off, len)
  {
    var all, k := before + seg, |before|;
    assert all[..k] == before && all[k..] == seg;
  }

  /** The attempts at a segment so far: all of them have failed for the ROCs of `todo`. */
  ghost predicate Attempted(segs: Log, rs: set<RocId>, todo: set<RocId>, attempts: nat, res: map<RocId, RocResult>,
                            opt: Options, image: seq<Byte>, digest: seq<Byte> -> nat, off: nat, len: nat)
    requires off + len <= |image| && len % 2 == 0
  {
    && segs.Keys <= rs && todo <= rs <= res.Keys
    && forall r :: r in todo ==> AttemptsFail(Of(segs, r), attempts, res[r].newMiv, opt, image, digest, off, len)
  }

  lemma NotAttempted(rs: set<RocId>, res: map<RocId, RocResult>, opt: Options, image: seq<Byte>, digest: seq<Byte> -> nat,
                     off: nat, len: nat)
    requires off + len <= |image| && len % 2 == 0 && rs <= res.Keys
    ensures Attempted(map[], rs, rs, 0, res, opt, image, digest, off, len)
  {
  }

  lemma AttemptedOnce(log: Log, segs: Log, more: Log, rs: set<RocId>, todo: set<RocId>, err: set<RocId>, attempts: nat,
                      res: map<RocId, RocResult>, opt: Options, image: seq<Byte>, digest: seq<Byte> -> nat, off: nat, len: nat)
    requires off + len <= |image| && len % 2 == 0 && err <= todo
    requires Attempted(segs, rs, todo, attempts, res, opt, image, digest, off, len)
    requires AttemptEnded(more, todo, err, res, opt, image, digest, off, len)
    ensures AddAll(AddAll(log, segs), more) == AddAll(log, AddAll(segs, more))
    ensures Attempted(AddAll(segs, more), rs, err, attempts + 1, res, opt, image, digest, off, len)
  {
    hide AttemptsFail, AttemptFails, AddAll;
    BothAdded(log, segs, more);
    forall r | r in err
      ensures AttemptsFail(Of(AddAll(segs, more), r), attempts + 1, res[r].newMiv, opt, image, digest, off, len)
    {
      OfAdded(segs, more, r);
      OneMoreAttempt(Of(segs, r), Of(more, r), attempts, res[r].newMiv, opt, image, digest, off, len);
    }
    assert AddAll(segs, more).Keys == segs.Keys + more.Keys;
  }

  /** A ROC that fails at segment s: all attempts at it have failed, or, when nothing is written, its verification. */
  ghost predicate SegmentFails(seg: seq<Access>, newMiv: bool, opt: Options, image: seq<Byte>, digest: seq<Byte> -> nat,
                               s: nat)
    requires s < SegmentCount(|image|) && |image| % 2 == 0
  {
    var off, len := s * 0x10000, SegmentLength(|image|, s);
    if opt.writeImage then
      opt.maxSegmentAttempts > 0 && AttemptsFail(seg, opt.maxSegmentAttempts, newMiv, opt, image, digest, off, len)
    else VerifyFails(seg, newMiv, opt, image, digest, off, len)
  }

  /** Alive before and failed after. */
  predicate FailedNow(res0: map<RocId, RocResult>, res1: map<RocId, RocResult>, r: RocId) {
    r in res0 && r in res1 && res0[r].state != Failed && res1[r].state == Failed
  }

  ghost predicate SegmentExplains(segs: Log, res0: map<RocId, RocResult>, res1: map<RocId, RocResult>, opt: Options,
                                  image: seq<Byte>, digest: seq<Byte> -> nat, s: nat)
    requires s < SegmentCount(|image|) && |image| % 2 == 0
  {
    && segs.Keys <= Living(res0)
    && forall r :: FailedNow(res0, res1, r) ==> SegmentFails(Of(segs, r), res0[r].newMiv, opt, image, digest, s)
  }

  /** Kinds do not change. */
  lemma SameKinds(res0: map<RocId, RocResult>, res1: map<RocId, RocResult>)
    requires FailsOnly(res0, res1)
    ensures res1.Keys == res0.Keys && forall r :: r in res0 ==> res1[r].newMiv == res0[r].newMiv
    ensures Living(res1) <= Living(res0)
  {
  }

  lemma AttemptsExplain(segs: Log, res0: map<RocId, RocResult>, res: map<RocId, RocResult>, res1: map<RocId, RocResult>,
                        todo: set<RocId>, opt: Options, image: seq<Byte>, digest: seq<Byte> -> nat, s: nat)
    requires s < SegmentCount(|image|) && |image| % 2 == 0 && opt.writeImage && opt.maxSegmentAttempts > 0
    requires FailsOnly(res0, res) && Living(res) == Living(res0) && FailsOnly(res, res1)
    requires Attempted(segs, Living(res0), todo, opt.maxSegmentAttempts, res, opt, image, digest, s * BLOCK,
                       SegmentLength(|image|, s))
    requires Living(res1) == Living(res) - todo
    ensures SegmentExplains(segs, res0, res1, opt, image, digest, s)
  {
    hide AttemptsFail, FailsOnly;
    SameKinds(res0, res);
    SameKinds(res, res1);
    forall r | FailedNow(res0, res1, r) ensures SegmentFails(Of(segs, r), res0[r].newMiv, opt, image, digest, s) {
      assert r in Living(res0) && r !in Living(res1);
      assert r in todo;
    }
  }

  lemma NoneFails(segs: Log, res0: map<RocId, RocResult>, res1: map<RocId, RocResult>, opt: Options, image: seq<Byte>,
                  digest: seq<Byte> -> nat, s: nat)
    requires s < SegmentCount(|image|) && |image| % 2 == 0 && segs.Keys <= Living(res0) && Living(res1) == Living(res0)
    ensures SegmentExplains(segs, res0, res1, opt, image, digest, s)
  {
    forall r | r in res0 && res0[r].state != Failed ensures r in Living(res1) { assert r in Living(res0); }
  }

  lemma NoneFailsNow(segs: Log, res0: map<RocId, RocResult>, res: map<RocId, RocResult>, res1: map<RocId, RocResult>,
                     todo: set<RocId>, attempts: nat, opt: Options, image: seq<Byte>, digest: seq<Byte> -> nat, s: nat)
    requires s < SegmentCount(|image|) && |image| % 2 == 0 && Living(res1) == Living(res) == Living(res0)
    requires Attempted(segs, Living(res0), todo, attempts, res, opt, image, digest, s * BLOCK, SegmentLength(|image|, s))
    ensures SegmentExplains(segs, res0, res1, opt, image, digest, s)
  {
    NoneFails(segs, res0, res1, opt, image, digest, s);
  }

  lemma SameAttempts(segs: Log, rs: set<RocId>, todo: set<RocId>, attempts: nat, res0: map<RocId, RocResult>,
                     res1: map<RocId, RocResult>, opt: Options, image: seq<Byte>, digest: seq<Byte> -> nat, off: nat, len: nat)
    requires off + len <= |image| && len % 2 == 0 && FailsOnly(res0, res1)
    requires Attempted(segs, rs, todo, attempts, res0, opt, image, digest, off, len)
    ensures Attempted(segs, rs, todo, attempts, res1, opt, image, digest, off, len)
  {
    hide AttemptsFail;
    SameKinds(res0, res1);
  }

  lemma ChecksExplain(segs: Log, res: map<RocId, RocResult>, err: set<RocId>, opt: Options, image: seq<Byte>,
                      digest: seq<Byte> -> nat, s: nat)
    requires s < SegmentCount(|image|) && |image| % 2 == 0 && !opt.writeImage
    requires VerifyEnded(segs, Living(res), err, res, opt, image, digest, s * BLOCK, SegmentLength(|image|, s))
    ensures SegmentExplains(segs, res, WithFailed(res, err), opt, image, digest, s)
  {
    hide VerifyFails;
  }

  // ---------------------------------------------------------------- the whole upload

  function ImageAsk(opt: Options, image: seq<Byte>, digest: seq<Byte> -> nat): Ask {
    AskCrc(opt.startAddress, |image|, digest(image), opt.crcImageTimeoutMs)
  }

  /** A ROC is failed by the upload at one of the segments, or when the CRC of the whole image did not agree in two
      tries. */
  ghost predicate UploadFails(seg: seq<Access>, newMiv: bool, opt: Options, image: seq<Byte>, digest: seq<Byte> -> nat)
    requires |image| % 2 == 0
  {
    || (exists s: nat, k: nat ::
          s < SegmentCount(|image|) && k <= |seg| && SegmentFails(seg[k..], newMiv, opt, image, digest, s))
    || (newMiv && opt.finalImageCrc && EndsUnanswered(seg, ImageAsk(opt, image, digest), 2))
  }

  ghost predicate UploadExplains(segs: Log, res0: map<RocId, RocResult>, res1: map<RocId, RocResult>, opt: Options,
                                 image: seq<Byte>, digest: seq<Byte> -> nat)
    requires |image| % 2 == 0
  {
    && segs.Keys <= Living(res0)
    && forall r :: FailedNow(res0, res1, r) ==> UploadFails(Of(segs, r), res0[r].newMiv, opt, image, digest)
  }

  lemma NothingUploaded(res: map<RocId, RocResult>, opt: Options, image: seq<Byte>, digest: seq<Byte> -> nat)
    requires |image| % 2 == 0
    ensures UploadExplains(map[], res, res, opt, image, digest)
  {
  }

  lemma SegmentFailsUpload(before: seq<Access>, seg: seq<Access>, newMiv: bool, opt: Options, image: seq<Byte>,
                           digest: seq<Byte> -> nat, s: nat)
    requires s < SegmentCount(|image|) && |image| % 2 == 0 && SegmentFails(seg, newMiv, opt, image, digest, s)
    ensures UploadFails(before + seg, newMiv, opt, image, digest)
  {
    assert (before + seg)[|before|..] == seg;
  }

  /** One segment more. */
  lemma SegmentUploaded(log: Log, segs: Log, more: Log, res0: map<RocId, RocResult>, res1: map<RocId, RocResult>,
                        res2: map<RocId, RocResult>, opt: Options, image: seq<Byte>, digest: seq<Byte> -> nat, s: nat)
    requires s < SegmentCount(|image|) && |image| % 2 == 0 && FailsOnly(res0, res1) && FailsOnly(res1, res2)
    requires UploadExplains(segs, res0, res1, opt, image, digest)
    requires SegmentExplains(more, res1, res2, opt, image, digest, s)
    ensures AddAll(AddAll(log, segs), more) == AddAll(log, AddAll(segs, more))
    ensures UploadExplains(AddAll(segs, more), res0, res2, opt, image, digest)
  {
    hide UploadFails, SegmentFails, AddAll, FailsOnly;
    BothAdded(log, segs, more);
    SameKinds(res0, res1);
    SameKinds(res1, res2);
    forall r | FailedNow(res0, res2, r)
      ensures UploadFails(Of(AddAll(segs, more), r), res0[r].newMiv, opt, image, digest)
    {
      OfAdded(segs, more, r);
      if FailedNow(res0, res1, r) {
        assert r !in Living(res1);
        Joins(Of(segs, r), [], []);
      } else {
        SegmentFailsUpload(Of(segs, r), Of(more, r), res0[r].newMiv, opt, image, digest, s);
      }
    }
    assert AddAll(segs, more).Keys == segs.Keys + more.Keys;
  }

  lemma ImageFailsUpload(before: seq<Access>, seg: seq<Access>, newMiv: bool, opt: Options, image: seq<Byte>,
                         digest: seq<Byte> -> nat)
    requires |image| % 2 == 0 && newMiv && opt.finalImageCrc && TriesFail(ImageAsk(opt, image, digest), 2, seg)
    ensures UploadFails(before + seg, newMiv, opt, image, digest)
  {
    UnansweredAtOnce(seg, ImageAsk(opt, image, digest), 2);
    UnansweredStays(before, seg, ImageAsk(opt, image, digest), 2);
  }

  /** The CRC of the whole image. */
  ghost predicate ImageExplains(segs: Log, res0: map<RocId, RocResult>, res1: map<RocId, RocResult>, opt: Options,
                                image: seq<Byte>, digest: seq<Byte> -> nat)
  {
    && segs.Keys <= Living(res0)
    && forall r :: FailedNow(res0, res1, r) ==> res0[r].newMiv && TriesFail(ImageAsk(opt, image, digest), 2, Of(segs, r))
  }

  lemma NoImageCrc(res: map<RocId, RocResult>, opt: Options, image: seq<Byte>, digest: seq<Byte> -> nat)
    ensures ImageExplains(map[], res, res, opt, image, digest)
  {
  }

  lemma ImageCrcExplains(segs: Log, res: map<RocId, RocResult>, rs: set<RocId>, bad: set<RocId>, opt: Options,
                         image: seq<Byte>, digest: seq<Byte> -> nat)
    requires rs == (set r | r in Living(res) && res[r].newMiv) && Asked(ImageAsk(opt, image, digest), 2, segs, rs, bad)
    ensures ImageExplains(segs, res, WithFailed(res, bad), opt, image, digest)
  {
    hide TriesFail, EndsWell;
  }

  lemma ImageUploaded(log: Log, segs: Log, more: Log, res0: map<RocId, RocResult>, res1: map<RocId, RocResult>,
                      res2: map<RocId, RocResult>, opt: Options, image: seq<Byte>, digest: seq<Byte> -> nat)
    requires |image| % 2 == 0 && FailsOnly(res0, res1) && FailsOnly(res1, res2) && opt.finalImageCrc
    requires UploadExplains(segs, res0, res1, opt, image, digest)
    requires ImageExplains(more, res1, res2, opt, image, digest)
    ensures AddAll(AddAll(log, segs), more) == AddAll(log, AddAll(segs, more))
    ensures UploadExplains(AddAll(segs, more), res0, res2, opt, image, digest)
  {
    hide UploadFails, TriesFail, AddAll, FailsOnly;
    BothAdded(log, segs, more);
    SameKinds(res0, res1);
    SameKinds(res1, res2);
    forall r | FailedNow(res0, res2, r)
      ensures UploadFails(Of(AddAll(segs, more), r), res0[r].newMiv, opt, image, digest)
    {
      OfAdded(segs, more, r);
      if FailedNow(res0, res1, r) {
        assert r !in Living(res1);
        Joins(Of(segs, r), [], []);
      } else {
        ImageFailsUpload(Of(segs, r), Of(more, r), res0[r].newMiv, opt, image, digest);
      }
    }
    assert AddAll(segs, more).Keys == segs.Keys + more.Keys;
  }

  /** Marking the survivors as verified fails nobody. */
  lemma SurvivorsVerified(segs: Log, res0: map<RocId, RocResult>, res1: map<RocId, RocResult>, opt: Options,
                          image: seq<Byte>, digest: seq<Byte> -> nat)
    requires |image| % 2 == 0 && UploadExplains(segs, WithState(res0, Uploading), res1, opt, image, digest)
    requires FailsOnly(WithState(res0, Uploading), res1)
    ensures UploadExplains(segs, res0, WithState(res1, Verified), opt, image, digest)
  {
    hide UploadFails;
    forall r | FailedNow(res0, WithState(res1, Verified), r)
      ensures UploadFails(Of(segs, r), res0[r].newMiv, opt, image, digest)
    {
      assert FailedNow(WithState(res0, Uploading), res1, r);
    }
  }

  /** One segment more: what the loop keeps. */
  lemma OneMoreSegment(log: Log, segs: Log, more: Log, res0: map<RocId, RocResult>, res1: map<RocId, RocResult>,
                       res2: map<RocId, RocResult>, k0: map<RocId, Known>, k1: map<RocId, Known>, k2: map<RocId, Known>,
                       isNew: set<RocId>, opt: Options, image: seq<Byte>, digest: seq<Byte> -> nat, s: nat)
    requires s < SegmentCount(|image|) && |image| % 2 == 0 && FailsOnly(res0, res1) && FailsOnly(res1, res2)
    requires UploadExplains(segs, res0, res1, opt, image, digest)
    requires SegmentExplains(more, res1, res2, opt, image, digest, s)
    requires AllBounded(k0, k1, isNew) && AllBounded(k1, k2, isNew)
    ensures AddAll(AddAll(log, segs), more) == AddAll(log, AddAll(segs, more))
    ensures UploadExplains(AddAll(segs, more), res0, res2, opt, image, digest)
    ensures FailsOnly(res0, res2) && AllBounded(k0, k2, isNew)
  {
    hide *;
    SegmentUploaded(log, segs, more, res0, res1, res2, opt, image, digest, s);
    FailsTwice(res0, res1, res2);
    BoundedTwice(k0, k1, k2, isNew);
  }

  /** The same of the whole image. */
  lemma WholeImageMore(log: Log, segs: Log, more: Log, res0: map<RocId, RocResult>, res1: map<RocId, RocResult>,
                       res2: map<RocId, RocResult>, k0: map<RocId, Known>, k1: map<RocId, Known>, k2: map<RocId, Known>,
                       isNew: set<RocId>, opt: Options, image: seq<Byte>, digest: seq<Byte> -> nat)
    requires |image| % 2 == 0 && FailsOnly(res0, res1) && FailsOnly(res1, res2) && opt.finalImageCrc
    requires UploadExplains(segs, res0, res1, opt, image, digest)
    requires ImageExplains(more, res1, res2, opt, image, digest)
    requires AllBounded(k0, k1, isNew) && AllBounded(k1, k2, isNew)
    ensures AddAll(AddAll(log, segs), more) == AddAll(log, AddAll(segs, more))
    ensures UploadExplains(AddAll(segs, more), res0, res2, opt, image, digest)
    ensures FailsOnly(res0, res2) && AllBounded(k0, k2, isNew)
  {
    hide *;
    ImageUploaded(log, segs, more, res0, res1, res2, opt, image, digest);
    FailsTwice(res0, res1, res2);
    BoundedTwice(k0, k1, k2, isNew);
  }

  /** The survivors become Verified. */
  lemma UploadEnds(segs: Log, res0: map<RocId, RocResult>, res1: map<RocId, RocResult>, k: map<RocId, Known>,
                   isNew: set<RocId>, opt: Options, image: seq<Byte>, digest: seq<Byte> -> nat)
    requires |image| % 2 == 0 && UploadExplains(segs, WithState(res0, Uploading), res1, opt, image, digest)
    requires FailsOnly(WithState(res0, Uploading), res1)
    requires AllUnderway(digest, isNew, opt.startAddress, image, res1, k, Living(res1), |image|)
    ensures var res2 := WithState(res1, Verified);
            && UploadExplains(segs, res0, res2, opt, image, digest) && MarkedVerified(res0, res2)
            && AllUnderway(digest, isNew, opt.startAddress, image, res2, k, Living(res2), |image|)
            && (WholeImageAgrees(digest, image, res1, k) ==> WholeImageAgrees(digest, image, res2, k))
  {
    hide *;
    var res2 := WithState(res1, Verified);
    SameUnderway(digest, isNew, opt.startAddress, image, res1, res2, k, |image|);
    if WholeImageAgrees(digest, image, res1, k) { SameWholeImage(digest, image, res1, res2, k); }
    FailsThenVerified(res0, res1);
    SurvivorsVerified(segs, res0, res1, opt, image, digest);
  }
}
