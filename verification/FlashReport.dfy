/** Why each ROC of a session ended as it did: what was seen on its link, from the first access to the last. */
module FlashReport {
  import opened Activation
  import opened Basics
  import opened FlashEvidence
  import opened FlashIap
  import opened FlashLedger
  import opened FlashProbe
  import opened FlashProgress
  import opened FlashSteps
  import opened FlashUpload
  import opened FlashWorld

  /** The three parts of the session of one ROC: probe, upload, activation. */
  datatype Parts = Parts(probe: seq<Access>, upload: seq<Access>, iap: seq<Access>)

  /** What the session knows of a ROC at its end. */
  datatype Final = Final(x: RocResult, polls: Option<seq<Poll>>, before: Word)

  /** A ROC is failed when it could not be probed, on the evidence of the upload, when it did not take the IAP, or when
      the looks after it reject it; and it is programmed on the evidence of the looks. */
  ghost predicate EndExplained(parts: Parts, found: RocResult, end: Final, opt: Options, image: seq<Byte>,
                               digest: seq<Byte> -> nat)
    requires |image| % 2 == 0
  {
    && ProbeExplains(parts.probe, found, opt.startAddress, opt.readTimeoutMs)
    && end.x.newMiv == found.newMiv && end.x.readBytes == found.readBytes
    && match end.x.state
       case Failed =>
         || (found.state == Failed && parts.upload == parts.iap == [])
         || (found.state != Failed && parts.iap == [] && UploadFails(parts.upload, found.newMiv, opt, image, digest))
         || (opt.program && found.state != Failed && end.polls.None? && IapRefused(parts.iap))
         || (&& opt.program && found.state != Failed && end.polls.Some?
             && TakenAndSeen(parts.iap, opt.startAddress, end.before, end.polls.value, opt)
             && Rejected(end.polls.value, end.before, opt))
       case Programmed =>
         && opt.program && found.state != Failed && end.polls.Some?
         && TakenAndSeen(parts.iap, opt.startAddress, end.before, end.polls.value, opt)
         && Success(end.polls.value, end.before, opt.expectedFwVersion)
       case _ => found.state != Failed && parts.iap == [] && end.x.state == Verified && !opt.program
  }

  ghost predicate RocExplained(seg: seq<Access>, end: Final, opt: Options, image: seq<Byte>, digest: seq<Byte> -> nat)
    requires |image| % 2 == 0
  {
    exists parts: Parts, found: RocResult ::
      seg == parts.probe + (parts.upload + parts.iap) && EndExplained(parts, found, end, opt, image, digest)
  }

  function FinalOf(res: map<RocId, RocResult>, polls: map<RocId, seq<Poll>>, before: map<RocId, Word>, r: RocId): Final
    requires r in res && polls.Keys <= before.Keys
  {
    if r in polls then Final(res[r], Some(polls[r]), before[r]) else Final(res[r], None, 0)
  }

  /** Every ROC. */
  ghost predicate AllExplained(segs: Log, res: map<RocId, RocResult>, polls: map<RocId, seq<Poll>>,
                               before: map<RocId, Word>, opt: Options, image: seq<Byte>, digest: seq<Byte> -> nat)
    requires |image| % 2 == 0
  {
    && segs.Keys <= res.Keys && polls.Keys <= before.Keys
    && forall r :: r in res ==> RocExplained(Of(segs, r), FinalOf(res, polls, before, r), opt, image, digest)
  }

  lemma Explained(parts: Parts, found: RocResult, end: Final, opt: Options, image: seq<Byte>, digest: seq<Byte> -> nat)
    requires |image| % 2 == 0 && EndExplained(parts, found, end, opt, image, digest)
    ensures RocExplained(parts.probe + (parts.upload + parts.iap), end, opt, image, digest)
  {
  }

  /** One ROC, from what each part of the session says of it. */
  lemma ExplainOne(parts: Parts, found: RocResult, uploaded: RocResult, end: Final, opt: Options, image: seq<Byte>,
                   digest: seq<Byte> -> nat)
    requires |image| % 2 == 0
    requires ProbeExplains(parts.probe, found, opt.startAddress, opt.readTimeoutMs)
    requires uploaded.newMiv == found.newMiv && uploaded.readBytes == found.readBytes
    requires end.x.newMiv == uploaded.newMiv && end.x.readBytes == uploaded.readBytes
    requires uploaded.state == Verified || uploaded.state == Failed
    requires found.state == Failed ==> uploaded.state == Failed && parts.upload == []
    requires found.state != Failed && uploaded.state == Failed ==>
      UploadFails(parts.upload, found.newMiv, opt, image, digest)
    requires uploaded.state == Failed || !opt.program ==> end.x.state == uploaded.state && parts.iap == []
    requires uploaded.state == Verified && opt.program && end.polls.None? ==> end.x.state == Failed && IapRefused(parts.iap)
    requires uploaded.state == Verified && opt.program && end.polls.Some? ==>
      && TakenAndSeen(parts.iap, opt.startAddress, end.before, end.polls.value, opt)
      && (|| (end.x.state == Programmed && Success(end.polls.value, end.before, opt.expectedFwVersion))
          || (end.x.state == Failed && Rejected(end.polls.value, end.before, opt)))
    ensures RocExplained(parts.probe + (parts.upload + parts.iap), end, opt, image, digest)
  {
    hide ProbeExplains, UploadFails, IapRefused, TakenAndSeen, Success, Rejected;
    Explained(parts, found, end, opt, image, digest);
  }

  /** What the parts of the session say. */
  ghost predicate PartsTold(s1: Log, s2: Log, s3: Log, res1: map<RocId, RocResult>, res2: map<RocId, RocResult>,
                            res3: map<RocId, RocResult>, polls: map<RocId, seq<Poll>>, before: map<RocId, Word>,
                            opt: Options, image: seq<Byte>, digest: seq<Byte> -> nat)
    requires |image| % 2 == 0
  {
    && ProbeExplainsAll(s1, res1, opt.startAddress, opt.readTimeoutMs)
    && MarkedVerified(res1, res2) && UploadExplains(s2, res1, res2, opt, image, digest)
    && if opt.program then
         Activated(res2, res3, polls, before, opt) && IapExplains(s3, InState(res2, Verified), polls, before, opt)
       else res3 == res2 && s3 == map[] && polls == map[]
  }

  lemma PartsOfAll(s1: Log, s2: Log, s3: Log, res1: map<RocId, RocResult>, res2: map<RocId, RocResult>,
                   res3: map<RocId, RocResult>, polls: map<RocId, seq<Poll>>, before: map<RocId, Word>, opt: Options,
                   image: seq<Byte>, digest: seq<Byte> -> nat)
    requires |image| % 2 == 0 && PartsTold(s1, s2, s3, res1, res2, res3, polls, before, opt, image, digest)
    ensures polls.Keys <= before.Keys && s1.Keys + s2.Keys + s3.Keys <= res3.Keys
  {
    hide ProbeExplains, UploadFails, IapRefused, TakenAndSeen, Success, Rejected;
    assert s1.Keys <= res3.Keys && s2.Keys <= res3.Keys && s3.Keys <= res3.Keys;
  }

  lemma ExplainFor(s1: Log, s2: Log, s3: Log, res1: map<RocId, RocResult>, res2: map<RocId, RocResult>,
                   res3: map<RocId, RocResult>, polls: map<RocId, seq<Poll>>, before: map<RocId, Word>, opt: Options,
                   image: seq<Byte>, digest: seq<Byte> -> nat, r: RocId)
    requires |image| % 2 == 0 && PartsTold(s1, s2, s3, res1, res2, res3, polls, before, opt, image, digest) && r in res3
    ensures polls.Keys <= before.Keys
    ensures RocExplained(Of(s1, r) + (Of(s2, r) + Of(s3, r)), FinalOf(res3, polls, before, r), opt, image, digest)
  {
    hide ProbeExplains, UploadFails, IapRefused, TakenAndSeen, Success, Rejected, RocExplained;
    var parts := Parts(Of(s1, r), Of(s2, r), Of(s3, r));
    if r !in Living(res1) { assert parts.upload == []; }
    if r !in InState(res2, Verified) { assert parts.iap == []; }
    if FailedNow(res1, res2, r) { assert UploadFails(parts.upload, res1[r].newMiv, opt, image, digest); }
    ExplainOne(parts, res1[r], res2[r], FinalOf(res3, polls, before, r), opt, image, digest);
  }

  lemma ExplainAll(log: Log, s1: Log, s2: Log, s3: Log, res1: map<RocId, RocResult>, res2: map<RocId, RocResult>,
                   res3: map<RocId, RocResult>, polls: map<RocId, seq<Poll>>, before: map<RocId, Word>, opt: Options,
                   image: seq<Byte>, digest: seq<Byte> -> nat)
    requires |image| % 2 == 0 && PartsTold(s1, s2, s3, res1, res2, res3, polls, before, opt, image, digest)
    ensures var segs := AddAll(AddAll(s1, s2), s3);
            && AddAll(AddAll(AddAll(log, s1), s2), s3) == AddAll(log, segs)
            && AllExplained(segs, res3, polls, before, opt, image, digest)
  {
    hide RocExplained, AddAll, FinalOf, Of, PartsTold;
    RoundAdds(log, s1, s2, s3);
    PartsOfAll(s1, s2, s3, res1, res2, res3, polls, before, opt, image, digest);
    var segs := AddAll(AddAll(s1, s2), s3);
    forall r | r in res3 ensures RocExplained(Of(segs, r), FinalOf(res3, polls, before, r), opt, image, digest) {
      ExplainFor(s1, s2, s3, res1, res2, res3, polls, before, opt, image, digest, r);
    }
  }
}
