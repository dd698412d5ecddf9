/** When a ROC counts as programmed after the IAP was requested. */
module Activation {
  import opened Basics
  import opened FlashWorld
  import opened FlashLedger
  import opened FlashSteps

  /** One look at a ROC: milliseconds since the request, and DONE, PROG_RETURN and the firmware version, or
      None when a read failed. */
  datatype Poll = Poll(t: int, answer: Option<Answer>)

  datatype Answer = Answer(done: Word, ret: Word, ver: Word)

  /** A failed read and the all-ones value of a dead link are the same. */
  predicate Disconnected(p: Poll) {
    p.answer.None? || p.answer.value.done == 0xffff
  }

  ghost predicate WentDown(polls: seq<Poll>) {
    exists i :: 0 <= i < |polls| && Disconnected(polls[i])
  }

  lemma WentDownGrows(polls: seq<Poll>, p: Poll)
    ensures WentDown(polls + [p]) <==> WentDown(polls) || Disconnected(p)
  {
    if WentDown(polls) {
      var i :| 0 <= i < |polls| && Disconnected(polls[i]);
      assert (polls + [p])[i] == polls[i];
    }
    if Disconnected(p) { assert (polls + [p])[|polls|] == p; }
  }

  /** Evidence that the ROC runs the new image: it answers, is idle without error, its link was seen down or its
      version has changed to the expected one, and the version is the expected one where one is set. */
  ghost predicate Success(polls: seq<Poll>, before: Word, expected: Word) {
    && polls != []
    && var p := polls[|polls| - 1];
    && !Disconnected(p)
    && var a := p.answer.value;
    && (a.done == 0 || a.done >= 0x8000) && a.ret == 0
    && (WentDown(polls) || (expected != 0 && a.ver == expected && a.ver != before))
    && (expected != 0 ==> a.ver == expected)
  }

  /** The IAP service refused the image, or the time for the link to drop or to come back is over. */
  ghost predicate Rejected(polls: seq<Poll>, before: Word, opt: Options) {
    && polls != []
    && var p := polls[|polls| - 1];
    && !Success(polls, before, opt.expectedFwVersion)
    && (|| (!WentDown(polls) && p.answer.value.done >= 0x8000 && p.answer.value.ret != 0 && p.t > 200)
        || p.t > Deadline(WentDown(polls), opt))
  }

  function Deadline(wentDown: bool, opt: Options): int {
    if wentDown then opt.linkBackTimeoutMs else opt.authTimeoutMs
  }

  /** What the loop keeps of one ROC. */
  datatype Watch = Watch(wentDown: bool, answering: bool, resyncs: nat, finished: bool, ok: bool)

  /** The state kept agrees with what was seen: one of two outcomes, exactly when its evidence is there. */
  ghost predicate Tells(w: Watch, polls: seq<Poll>, before: Word, opt: Options) {
    && w.wentDown == WentDown(polls)
    && (polls != [] ==> w.answering == !Disconnected(polls[|polls| - 1]))
    && w.ok == Success(polls, before, opt.expectedFwVersion)
    && w.finished == (w.ok || Rejected(polls, before, opt))
    && (w.resyncs > 0 ==> w.resyncs <= opt.linkResyncTries)
  }

  const UNSEEN := Watch(false, false, 0, false, false)

  /** One look at a ROC that is not finished yet, in the order of the checks; `reset`: its link is to be reset. */
  method Judge(w: Watch, p: Poll, before: Word, opt: Options, ghost polls: seq<Poll>) returns (after: Watch,
               reset: bool)
    requires Tells(w, polls, before, opt) && !w.finished
    ensures Tells(after, polls + [p], before, opt)
    ensures after.resyncs == w.resyncs + (if reset then 1 else 0)
    ensures reset <==>
      Disconnected(p) && w.resyncs < opt.linkResyncTries && p.t > opt.linkResyncAfterMs * (w.resyncs + 1)
  {
    WentDownGrows(polls, p);
    assert (polls + [p])[|polls|] == p;
    var wentDown, finished, ok, resyncs := w.wentDown, false, false, w.resyncs;
    var disconnected := p.answer.None? || p.answer.value.done == 0xffff;
    var answering := !disconnected;
    if disconnected {
      wentDown := true;
    } else {
      var a := p.answer.value;
      if !wentDown && a.done >= 0x8000 && a.ret != 0 && p.t > 200 {
        finished := true;
      } else if (a.done != 0 && a.done < 0x8000) || a.ret != 0 {
      } else if wentDown || (opt.expectedFwVersion != 0 && a.ver == opt.expectedFwVersion && a.ver != before) {
        if opt.expectedFwVersion != 0 && a.ver != opt.expectedFwVersion {
          if p.t > opt.linkBackTimeoutMs { finished := true; }
        } else {
          finished, ok := true, true;
        }
      }
    }
    if !finished && !wentDown && p.t > opt.authTimeoutMs { finished := true; }
    var due := p.t > opt.linkResyncAfterMs * (resyncs + 1);
    reset := !finished && wentDown && !answering && resyncs < opt.linkResyncTries && due;
    if reset { resyncs := resyncs + 1; }
    // a reset in this look does not end the wait, the time limit does
    if !finished && wentDown && p.t > opt.linkBackTimeoutMs { finished := true; }
    after := Watch(wentDown, answering, resyncs, finished, ok);
  }

  ghost predicate AllTell(watch: map<RocId, Watch>, polls: map<RocId, seq<Poll>>, before: map<RocId, Word>,
                          opt: Options) {
    && polls.Keys == watch.Keys && watch.Keys <= before.Keys
    && forall r :: r in watch ==> Tells(watch[r], polls[r], before[r], opt)
  }

  lemma UnseenAll(watch: map<RocId, Watch>, polls: map<RocId, seq<Poll>>, before: map<RocId, Word>, opt: Options)
    requires polls.Keys == watch.Keys && watch.Keys <= before.Keys
    requires forall r :: r in watch ==> watch[r] == UNSEEN && polls[r] == []
    ensures AllTell(watch, polls, before, opt)
  {
  }

  lemma TellsOne(watch: map<RocId, Watch>, polls: map<RocId, seq<Poll>>, before: map<RocId, Word>, opt: Options,
                 r: RocId)
    requires AllTell(watch, polls, before, opt) && r in watch
    ensures r in polls && r in before && Tells(watch[r], polls[r], before[r], opt)
  {
  }

  lemma TellsOneMore(watch: map<RocId, Watch>, polls: map<RocId, seq<Poll>>, before: map<RocId, Word>, opt: Options,
                     r: RocId, w: Watch, p: Poll)
    requires AllTell(watch, polls, before, opt) && r in watch && r in polls && r in before
    requires Tells(w, polls[r] + [p], before[r], opt)
    ensures AllTell(watch[r := w], polls[r := polls[r] + [p]], before, opt)
  {
  }

  lemma StillOpen(watch: map<RocId, Watch>, r: RocId)
    requires r in Open(watch)
    ensures r in watch && !watch[r].finished
  {
  }

  lemma OpenOneLess(watch: map<RocId, Watch>, r: RocId, w: Watch)
    requires r in Open(watch)
    ensures Open(watch[r := w]) == if w.finished then Open(watch) - {r} else Open(watch)
  {
  }

  function Deadlines(opt: Options): int {
    Later(opt.authTimeoutMs, opt.linkBackTimeoutMs)
  }

  /** The results once every requested ROC has its outcome; the ones that did not take the request are failed. */
  function Outcome(res: map<RocId, RocResult>, watch: map<RocId, Watch>): map<RocId, RocResult> {
    map r | r in res ::
      if res[r].state == Verified then res[r].(state := if r in watch && watch[r].ok then Programmed else Failed)
      else res[r]
  }

  lemma Outcomes(res: map<RocId, RocResult>, watch: map<RocId, Watch>, polls: map<RocId, seq<Poll>>, before: map<RocId,
                 Word>, opt: Options)
    requires OnlyVerifiedOrFailed(res) && AllTell(watch, polls, before, opt) && Open(watch) == {}
    ensures Activated(res, Outcome(res, watch), polls, before, opt)
  {
    hide Success, Rejected, WentDown;
    forall r | r in watch
      ensures watch[r].ok == Success(polls[r], before[r], opt.expectedFwVersion)
      ensures watch[r].ok || Rejected(polls[r], before[r], opt)
    {
      assert Tells(watch[r], polls[r], before[r], opt);
      assert r !in Open(watch);
    }
  }

  function Later(a: int, b: int): int {
    if a < b then b else a
  }

  /** After both time limits there is an outcome. */
  lemma InTime(w: Watch, polls: seq<Poll>, p: Poll, before: Word, opt: Options)
    requires Tells(w, polls + [p], before, opt)
    ensures p.t > Later(opt.authTimeoutMs, opt.linkBackTimeoutMs) ==> w.finished
  {
    assert (polls + [p])[|polls|] == p;
  }

  function Open(watch: map<RocId, Watch>): (rs: set<RocId>)
    ensures rs <= watch.Keys
  {
    set r | r in watch && !watch[r].finished
  }

  lemma Fewer(a: set<RocId>, b: set<RocId>)
    requires a == {} && b != {}
    ensures |a| < |b|
  {
  }

  // ---------------------------------------------------------------- all ROCs

  function InState(res: map<RocId, RocResult>, state: RocState): (rs: set<RocId>)
    ensures rs <= res.Keys
  {
    set r | r in res && res[r].state == state
  }

  predicate OnlyVerifiedOrFailed(res: map<RocId, RocResult>) {
    forall r :: r in res ==> res[r].state == Verified || res[r].state == Failed
  }

  /** Nothing but the IAP of the image was sent, and to no other ROC than these. */
  ghost predicate IapOnly(k0: map<RocId, Known>, k1: map<RocId, Known>, rs: set<RocId>, start: nat) {
    && Only(k0, k1, rs)
    && forall r :: r in k0 && r in rs ==>
        && k1[r].ledger == k0[r].ledger
        && (k1[r].acts == k0[r].acts || k1[r].acts == k0[r].acts + [Iap(start)])
  }

  /** At most the IAP was written to r. */
  ghost predicate IapAtMost(k0: map<RocId, Known>, k1: map<RocId, Known>, r: RocId, start: nat) {
    r in k0 && (k1 == k0 || k1 == k0[r := Wrote(k0[r], Iap(start), Nothing)])
  }

  lemma IapStart(k: map<RocId, Known>, rs: set<RocId>, start: nat)
    ensures IapOnly(k, k, rs, start)
  {
  }

  lemma IapKeys(k0: map<RocId, Known>, k1: map<RocId, Known>, rs: set<RocId>, start: nat)
    requires IapOnly(k0, k1, rs, start)
    ensures k1.Keys == k0.Keys
  {
  }

  lemma IapUntouched(k0: map<RocId, Known>, k1: map<RocId, Known>, rs: set<RocId>, start: nat, r: RocId)
    requires IapOnly(k0, k1, rs, start) && r in k0 && r !in rs
    ensures r in k1 && k1[r] == k0[r]
  {
  }

  lemma IapOneMore(k0: map<RocId, Known>, k1: map<RocId, Known>, k2: map<RocId, Known>, rs: set<RocId>, start: nat,
                   r: RocId)
    requires IapOnly(k0, k1, rs, start) && r in k0 && r !in rs && r in k1 && k1[r] == k0[r]
    requires IapAtMost(k1, k2, r, start)
    ensures IapOnly(k0, k2, rs + {r}, start)
  {
  }

  /** Each verified ROC has one of two outcomes, Programmed exactly on the evidence of its last poll, Failed only
      if it did not take the request or its last poll rejects it; a failed one stays failed. */
  ghost predicate Activated(res0: map<RocId, RocResult>, res1: map<RocId, RocResult>, polls: map<RocId, seq<Poll>>,
                            before: map<RocId, Word>, opt: Options)
  {
    && res1.Keys == res0.Keys && polls.Keys <= before.Keys
    && forall r :: r in res0 ==>
        && res1[r] == res0[r].(state := res1[r].state)
        && (res1[r].state == Programmed || res1[r].state == Failed)
        && (res1[r].state == Programmed <==>
              res0[r].state == Verified && r in polls && Success(polls[r], before[r], opt.expectedFwVersion))
        && (res0[r].state == Verified && res1[r].state == Failed && r in polls ==> Rejected(polls[r], before[r], opt))
  }
}
