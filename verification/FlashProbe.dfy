/** What tells the session which MiV a ROC has, and what excuses that a ROC is failed before the upload. */
module FlashProbe {
  import opened Basics
  import opened FlashWorld
  import opened FlashWire
  import opened FlashLedger
  import opened FlashSteps
  import opened FlashEvidence

  // ---------------------------------------------------------------- the question

  /** The ROC never was idle within three seconds, or the question was not taken. */
  ghost predicate NotProbed(seg: seq<Access>) {
    && seg != []
    && (|| Threw(Last(seg))
        || (|seg| > 2 && seg[0].Timer? && NeverIdle(seg[..|seg| - 1]) && Over(seg[|seg| - 2].at, seg[0].at, 3000))
        || exists k: nat :: k < |seg| && NotTaken(seg[k..], 2000))
  }

  ghost predicate ProbesSent(segs: Log, asked: set<RocId>, tags: map<RocId, Word>, addr: nat) {
    && segs.Keys == asked && tags.Keys <= asked
    && forall r :: r in asked ==> if r in tags then CrcSent(segs[r], addr, 2, tags[r]) else NotProbed(segs[r])
  }

  lemma NoProbesSent(addr: nat)
    ensures ProbesSent(map[], {}, map[], addr)
  {
  }

  lemma OneMoreProbe(log: Log, segs: Log, asked: set<RocId>, tags: map<RocId, Word>, addr: nat, r: RocId,
                     seg: seq<Access>, ok: bool, t: Word)
    requires ProbesSent(segs, asked, tags, addr) && r !in asked
    requires if ok then CrcSent(seg, addr, 2, t) else NotProbed(seg)
    ensures Add(AddAll(log, segs), r, seg) == AddAll(log, segs[r := seg])
    ensures ProbesSent(segs[r := seg], asked + {r}, if ok then tags[r := t] else tags, addr)
  {
    hide CrcSent, NotProbed, Add, AddAll;
    OneMoreAdded(log, segs, r, seg);
  }

  lemma NeverIdleLong(wait: seq<Access>, last: Access)
    requires |wait| > 1 && wait[0].Timer? && NeverIdle(wait) && Over(Last(wait).at, wait[0].at, 3000)
    ensures NotProbed(wait + [last])
  {
    assert (wait + [last])[..|wait|] == wait;
  }

  lemma NotTakenAfter(wait: seq<Access>, seg: seq<Access>)
    requires NotTaken(seg, 2000)
    ensures NotProbed(wait + seg)
  {
    assert (wait + seg)[|wait|..] == seg;
  }

  // ---------------------------------------------------------------- the answer

  /** No reply of four words was there. */
  ghost predicate HeardNothing(seg: seq<Access>) {
    forall i :: 0 <= i < |seg| ==> seg[i].Count? && !Came(seg[i], 4)
  }

  /** A reply of four words was there, and it carried the tag and no error exactly if the MiV is a new one. */
  ghost predicate HeardReply(seg: seq<Access>, t: Word, newMiv: bool) {
    exists k: nat ::
      && k < |seg| && HeardNothing(seg[..k]) && Came(seg[k], 4)
      && (newMiv <==> GoodReply(seg[k..], t, 4) && WordsIn(Last(seg))[3] == 0)
  }

  /** The ROCs heard so far, and of which the answer was that of a new MiV. */
  ghost predicate ProbesHeard(segs: Log, tags: map<RocId, Word>, answered: set<RocId>, found: set<RocId>) {
    && segs.Keys <= tags.Keys && found <= answered <= tags.Keys
    && forall r :: r in tags ==>
        if r in answered then HeardReply(Of(segs, r), tags[r], r in found) else HeardNothing(Of(segs, r))
  }

  lemma NoProbesHeard(tags: map<RocId, Word>)
    ensures ProbesHeard(map[], tags, {}, {})
  {
  }

  lemma HeardNext(seg: seq<Access>, more: seq<Access>, t: Word, answered: bool, newMiv: bool)
    requires HeardNothing(seg) && more != [] && more[0].Count? && (answered <==> Came(more[0], 4)) && (!answered ==> |more| == 1)
    requires newMiv <==> answered && GoodReply(more, t, 4) && WordsIn(Last(more))[3] == 0
    ensures if answered then HeardReply(seg + more, t, newMiv) else HeardNothing(seg + more)
  {
    var all, k := seg + more, |seg|;
    if answered { assert all[..k] == seg && all[k..] == more && all[k] == more[0] && Last(all) == Last(more); }
  }

  lemma OneMoreHeard(log: Log, segs: Log, tags: map<RocId, Word>, answered: set<RocId>, found: set<RocId>, r: RocId,
                     more: seq<Access>, heard: bool, newMiv: bool)
    requires ProbesHeard(segs, tags, answered, found) && r in tags && r !in answered
    requires more != [] && more[0].Count? && (heard <==> Came(more[0], 4)) && (!heard ==> |more| == 1)
    requires newMiv <==> heard && GoodReply(more, tags[r], 4) && WordsIn(Last(more))[3] == 0
    ensures var after := segs[r := Of(segs, r) + more];
            && Add(AddAll(log, segs), r, more) == AddAll(log, after)
            && ProbesHeard(after, tags, if heard then answered + {r} else answered, if newMiv then found + {r} else found)
  {
    hide HeardReply, HeardNothing, GoodReply, Came, Add, AddAll;
    MoreAdded(log, segs, r, more);
    HeardNext(Of(segs, r), more, tags[r], heard, newMiv);
  }

  // ---------------------------------------------------------------- the read-back size of an older MiV

  predicate SizeKnown(a: Access) {
    a.Count? && !a.thrown && (Size(a) == 512 || Size(a) == 258)
  }

  /** No answer to the probing read, of a size that an older MiV gives, that stays until it is looked at again. */
  ghost predicate SizeUnknown(seg: seq<Access>, ms: int) {
    && seg != []
    && var z := Last(seg);
    || Threw(z)
    || (exists k: nat :: k < |seg| && NotTaken(seg[k..], 2000))
    || (z.Timer? && exists k: nat :: k < |seg| - 1 && seg[k].Timer? && z.at - seg[k].at >= 1000 * ms
                                    && forall j :: k < j < |seg| - 1 ==> !SizeKnown(seg[j]))
    || (z.Count? && !SizeKnown(z) && |seg| > 1 && SizeKnown(seg[|seg| - 2]))
  }

  /** The answer had 512 or 258 for its size, and the pieces are of 1016 or 508 bytes. */
  ghost predicate SizeShown(seg: seq<Access>, size: PieceSize) {
    exists k: nat :: k < |seg| && SizeKnown(seg[k]) && Size(seg[k]) == if size == 1016 then 512 else 258
  }

  lemma SizeNotTaken(wait: seq<Access>, seg: seq<Access>, ms: int)
    requires NotTaken(seg, 2000)
    ensures SizeUnknown(wait + seg, ms)
  {
    assert (wait + seg)[|wait|..] == seg;
  }

  lemma SizeTooLate(before: seq<Access>, looks: seq<Access>, at: nat, ms: int)
    requires |looks| > 0 && looks[0].Timer? && at - looks[0].at >= 1000 * ms
    requires forall j :: 0 < j < |looks| ==> !SizeKnown(looks[j])
    ensures SizeUnknown(before + looks + [Timer(at)], ms)
  {
    var seg, k := before + looks + [Timer(at)], |before|;
    assert seg[k] == looks[0];
    forall j | k < j < |seg| - 1 ensures !SizeKnown(seg[j]) { assert seg[j] == looks[j - k]; }
  }

  lemma SizeTooLateAt(before: seq<Access>, looks: seq<Access>, ms: int)
    requires |looks| > 1 && looks[0].Timer? && Last(looks).Timer? && Last(looks).at - looks[0].at >= 1000 * ms
    requires forall j :: 0 < j < |looks| - 1 ==> !SizeKnown(looks[j])
    ensures SizeUnknown(before + looks, ms)
  {
    SizeTooLate(before, looks[..|looks| - 1], Last(looks).at, ms);
    assert before + looks[..|looks| - 1] + [Timer(Last(looks).at)] == before + looks;
  }

  lemma SizeSeen(before: seq<Access>, a: Access, after: seq<Access>, size: PieceSize)
    requires SizeKnown(a) && Size(a) == if size == 1016 then 512 else 258
    ensures SizeShown(before + [a] + after, size)
  {
    assert (before + [a] + after)[|before|] == a;
  }

  ghost predicate SizesEnded(segs: Log, asked: set<RocId>, sizes: map<RocId, PieceSize>, ms: int) {
    && segs.Keys == asked && sizes.Keys <= asked
    && forall r :: r in asked ==> if r in sizes then SizeShown(segs[r], sizes[r]) else SizeUnknown(segs[r], ms)
  }

  lemma NoSizes(ms: int)
    ensures SizesEnded(map[], {}, map[], ms)
  {
  }

  lemma OneMoreSize(log: Log, segs: Log, asked: set<RocId>, sizes: map<RocId, PieceSize>, ms: int, r: RocId,
                    seg: seq<Access>, size: Option<PieceSize>)
    requires SizesEnded(segs, asked, sizes, ms) && r !in asked
    requires if size.Some? then SizeShown(seg, size.value) else SizeUnknown(seg, ms)
    ensures Add(AddAll(log, segs), r, seg) == AddAll(log, segs[r := seg])
    ensures SizesEnded(segs[r := seg], asked + {r}, if size.Some? then sizes[r := size.value] else sizes, ms)
  {
    hide SizeShown, SizeUnknown, Add, AddAll;
    OneMoreAdded(log, segs, r, seg);
  }

  // ---------------------------------------------------------------- all of it

  /** How a ROC came to its kind. Failed: not probed, or no read-back size. New: it answered the question with its tag and
      without error. Older: it did not, and its read-back size was seen. */
  ghost predicate ProbeExplains(seg: seq<Access>, x: RocResult, addr: nat, ms: int) {
    if x.state == Failed then NotProbed(seg) || EndsSizeUnknown(seg, ms)
    else exists a: seq<Access>, b: seq<Access>, c: seq<Access>, t: Word ::
      && seg == a + (b + c) && CrcSent(a, addr, 2, t)
      && if x.newMiv then c == [] && HeardReply(b, t, true)
         else (HeardReply(b, t, false) || HeardNothing(b)) && SizeShown(c, x.readBytes)
  }

  ghost predicate EndsSizeUnknown(seg: seq<Access>, ms: int) {
    exists k: nat :: k <= |seg| && SizeUnknown(seg[k..], ms)
  }

  lemma Explains(a: seq<Access>, b: seq<Access>, c: seq<Access>, t: Word, x: RocResult, addr: nat, ms: int)
    requires CrcSent(a, addr, 2, t)
    requires if x.newMiv then x.state != Failed && c == [] && HeardReply(b, t, true)
             else (HeardReply(b, t, false) || HeardNothing(b))
                  && if x.state == Failed then SizeUnknown(c, ms) else SizeShown(c, x.readBytes)
    ensures ProbeExplains(a + (b + c), x, addr, ms)
  {
    if x.state == Failed {
      assert (a + (b + c))[|a| + |b|..] == c;
    }
  }

  ghost predicate ProbeExplainsAll(segs: Log, res: map<RocId, RocResult>, addr: nat, ms: int) {
    && segs.Keys <= res.Keys
    && forall r :: r in res ==> ProbeExplains(Of(segs, r), res[r], addr, ms)
  }

  /** The parts of the probe, and the results drawn from them. */
  ghost predicate ProbeParts(s1: Log, s2: Log, s3: Log, rocs: set<RocId>, tags: map<RocId, Word>, answered: set<RocId>,
                             found: set<RocId>, sizes: map<RocId, PieceSize>, res: map<RocId, RocResult>, addr: nat, ms: int)
  {
    && ProbesSent(s1, rocs, tags, addr) && ProbesHeard(s2, tags, answered, found)
    && SizesEnded(s3, tags.Keys - found, sizes, ms) && res.Keys == rocs
    && forall r :: r in rocs ==>
        && (res[r].newMiv <==> r in found) && (res[r].state == Failed <==> r !in found && r !in sizes)
        && (r in sizes ==> res[r].readBytes == sizes[r])
  }

  lemma ProbeFor(s1: Log, s2: Log, s3: Log, rocs: set<RocId>, tags: map<RocId, Word>, answered: set<RocId>,
                 found: set<RocId>, sizes: map<RocId, PieceSize>, res: map<RocId, RocResult>, addr: nat, ms: int, r: RocId)
    requires ProbeParts(s1, s2, s3, rocs, tags, answered, found, sizes, res, addr, ms) && r in res
    ensures ProbeExplains(Of(s1, r) + (Of(s2, r) + Of(s3, r)), res[r], addr, ms)
  {
    hide CrcSent, NotProbed, HeardReply, HeardNothing, SizeShown, SizeUnknown, ProbeExplains;
    if r in tags {
      Explains(Of(s1, r), Of(s2, r), Of(s3, r), tags[r], res[r], addr, ms);
    } else {
      Joins(Of(s1, r), [], []);
      NotProbedExplains(Of(s1, r), res[r], addr, ms);
    }
  }

  lemma ProbeKeys(s1: Log, s2: Log, s3: Log, rocs: set<RocId>, tags: map<RocId, Word>, answered: set<RocId>,
                  found: set<RocId>, sizes: map<RocId, PieceSize>, res: map<RocId, RocResult>, addr: nat, ms: int)
    requires ProbeParts(s1, s2, s3, rocs, tags, answered, found, sizes, res, addr, ms)
    ensures s1.Keys + s2.Keys + s3.Keys <= res.Keys
  {
  }

  lemma ProbeLog(log: Log, s1: Log, s2: Log, s3: Log, rocs: set<RocId>, tags: map<RocId, Word>, answered: set<RocId>,
                 found: set<RocId>, sizes: map<RocId, PieceSize>, res: map<RocId, RocResult>, addr: nat, ms: int)
    requires ProbeParts(s1, s2, s3, rocs, tags, answered, found, sizes, res, addr, ms)
    ensures var segs := AddAll(AddAll(s1, s2), s3);
            && AddAll(AddAll(AddAll(log, s1), s2), s3) == AddAll(log, segs)
            && ProbeExplainsAll(segs, res, addr, ms)
  {
    hide ProbeParts, ProbeExplains, AddAll;
    var segs := AddAll(AddAll(s1, s2), s3);
    RoundAdds(log, s1, s2, s3);
    ProbeKeys(s1, s2, s3, rocs, tags, answered, found, sizes, res, addr, ms);
    forall r | r in res ensures ProbeExplains(Of(segs, r), res[r], addr, ms) {
      ProbeFor(s1, s2, s3, rocs, tags, answered, found, sizes, res, addr, ms, r);
    }
  }

  lemma NotProbedExplains(seg: seq<Access>, x: RocResult, addr: nat, ms: int)
    requires NotProbed(seg) && x.state == Failed
    ensures ProbeExplains(seg, x, addr, ms)
  {
  }
}
