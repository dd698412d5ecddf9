/** The session with its own checksums: what a vouched ROC holds when the digest is the CRC-32 of the file and the
    file is checked by its SHA-256. */
module FlashFile {
  import opened Basics
  import opened FlashCrc
  import opened FlashImage
  import opened FlashLedger
  import opened FlashOutcome
  import opened FlashProgress
  import opened FlashSession
  import opened FlashSteps
  import opened FlashWorld
  import Sha256

  function FileSha(file: seq<Byte>): string {
    Sha256.HexHash(Sha256.Digest(file))
  }

  /** Bytes [from, to) agree, or two of them that are four or more apart differ. */
  ghost predicate EqualOrWide(x: seq<Byte>, y: seq<Byte>, from: nat, to: nat)
    requires from <= to <= |x| && to <= |y|
  {
    || x[from..to] == y[from..to]
    || exists i: nat, j: nat :: from <= i && i + 4 <= j < to && x[i] != y[i] && x[j] != y[j]
  }

  lemma {:induction false} FirstDifference(x: seq<Byte>, y: seq<Byte>, from: nat, to: nat) returns (i: nat)
    requires from <= to <= |x| && to <= |y| && x[from..to] != y[from..to]
    ensures from <= i < to && x[i] != y[i] && forall k :: from <= k < i ==> x[k] == y[k]
    decreases if from <= to then to - from else 0
  {
    if x[from] != y[from] {
      i := from;
    } else {
      assert x[from..to] == [x[from]] + x[from + 1..to] && y[from..to] == [y[from]] + y[from + 1..to];
      i := FirstDifference(x, y, from + 1, to);
    }
  }

  /** A segment whose CRC-32 agrees with the file is the file's segment, or damaged over more than four bytes. */
  lemma MatchingSegment(held: seq<Byte>, image: seq<Byte>, s: nat)
    requires |held| <= |image| && s * BLOCK < |held| && SegmentMatches(FileCrc, held, image, s)
    ensures EqualOrWide(held, image, s * BLOCK, Min((s + 1) * BLOCK, |held|))
  {
    hide FileCrc;
    var a, e := s * BLOCK, Min((s + 1) * BLOCK, |held|);
    if held[a..e] != image[a..e] {
      var i := FirstDifference(held, image, a, e);
      var to := Min(i + 4, e);
      if forall k :: a <= k < e && !(i <= k < to) ==> held[k] == image[k] {
        DamagedSegmentFails(held, image, s, i, to);
        assert false;
      } else {
        var j: nat :| a <= j < e && !(i <= j < to) && held[j] != image[j];
      }
    }
  }

  /** What the flash of a vouched ROC holds: with an older MiV the image, with a new one segments that are those of
      the image or damaged over more than four bytes. */
  ghost predicate HoldsFile(opt: Options, image: seq<Byte>, newMiv: bool, flash: seq<Byte>) {
    && opt.startAddress + |image| <= |flash|
    && var held := flash[opt.startAddress..opt.startAddress + |image|];
    if newMiv then
      forall s: nat :: s * BLOCK < |held| ==> EqualOrWide(held, image, s * BLOCK, Min((s + 1) * BLOCK, |held|))
    else held == image
  }

  lemma HoldsWithCrc(opt: Options, image: seq<Byte>, newMiv: bool, flash: seq<Byte>)
    requires Holds(FileCrc, opt, image, newMiv, flash)
    ensures HoldsFile(opt, image, newMiv, flash)
  {
    hide FileCrc;
    var held := flash[opt.startAddress..opt.startAddress + |image|];
    if newMiv {
      forall s: nat | s * BLOCK < |held| ensures EqualOrWide(held, image, s * BLOCK, Min((s + 1) * BLOCK, |held|)) {
        assert SegmentMatches(FileCrc, held, image, s);
        MatchingSegment(held, image, s);
      }
    }
  }

  /** A whole session on a file. */
  method ProgramFile(rocs: set<RocId>, file: seq<Byte>, opt: Options, isNew: set<RocId>, mivs: map<RocId, Miv>)
    returns (session: Session, passed: bool, ok: bool)
    requires mivs.Keys == rocs && forall r :: r in mivs ==> Startable(mivs[r], r in isNew)
    ensures fresh(session)
    ensures passed ==> FileSha(file) == Lower(opt.expectedSha256)
    ensures !passed ==> !ok && session.mivs == mivs
    ensures passed ==> session.mivs.Keys == session.known.Keys
    ensures passed ==> forall r :: r in session.mivs && r in session.res && Vouched(session.res[r], session.known[r]) &&
                                   (session.res[r].newMiv || !Mixed(session.mivs[r])) ==>
                         HoldsFile(opt, Even(file), session.res[r].newMiv, session.mivs[r].flash)
    ensures passed ==> AllInOrder(isNew, session.mivs, session.known)
  {
    hide FileCrc, FileSha, Holds, HoldsFile, Vouched;
    session := new Session(rocs, file, opt, FileCrc, FileSha, isNew, mivs);
    ghost var polls, segs;
    passed, ok, polls, segs := session.Run();
    if passed {
      forall r | r in session.mivs && r in session.res && Vouched(session.res[r], session.known[r]) &&
                 (session.res[r].newMiv || !Mixed(session.mivs[r]))
        ensures HoldsFile(opt, Even(file), session.res[r].newMiv, session.mivs[r].flash)
      {
        HoldsWithCrc(opt, Even(file), session.res[r].newMiv, session.mivs[r].flash);
      }
    }
  }
}
