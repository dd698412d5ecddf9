/** What was seen while a ROC was programmed from its flash, and what excuses that it is failed then. */
module FlashIap {
  import opened Activation
  import opened Basics
  import opened FlashEvidence
  import opened FlashLedger
  import opened FlashSteps
  import opened FlashWire
  import opened FlashWorld

  // ---------------------------------------------------------------- the request

  /** The firmware version was read and then the IAP taken, at that time. */
  predicate IapTaken(seg: seq<Access>, start: nat, before: Word, at: nat) {
    && |seg| > 1 && seg[0] == Other(seg[0].at, false, 246, before)
    && Last(seg) == Sent(at, false, Iap(start), CommandWords(Iap(start)))
  }

  /** The version could not be read, or the IAP was not taken. */
  ghost predicate IapRefused(seg: seq<Access>) {
    seg != [] && ((|seg| == 1 && Threw(seg[0])) || NotTaken(seg[1..], 2000))
  }

  lemma IapAsked(version: Access, seg: seq<Access>, start: nat)
    requires version.Other? && !version.thrown && version.reg == 246
    ensures TookIt(seg, Iap(start)) ==> IapTaken([version] + seg, start, version.value, Last(seg).at)
    ensures NotTaken(seg, 2000) ==> IapRefused([version] + seg)
  {
    assert ([version] + seg)[1..] == seg;
  }

  /** At most the version of r is new. */
  predicate AtMostOf(was: map<RocId, Word>, before: map<RocId, Word>, r: RocId) {
    was.Keys <= before.Keys && forall x :: x in was && x != r ==> before[x] == was[x]
  }

  ghost predicate IapsSent(segs: Log, asked: set<RocId>, sent: map<RocId, nat>, before: map<RocId, Word>, start: nat) {
    && segs.Keys == asked && sent.Keys <= asked && sent.Keys <= before.Keys
    && forall r :: r in asked ==> if r in sent then IapTaken(segs[r], start, before[r], sent[r]) else IapRefused(segs[r])
  }

  lemma NoIapsSent(before: map<RocId, Word>, start: nat)
    ensures IapsSent(map[], {}, map[], before, start)
  {
  }

  lemma IapsSentTo(segs: Log, asked: set<RocId>, sent: map<RocId, nat>, before: map<RocId, Word>, start: nat)
    requires IapsSent(segs, asked, sent, before, start)
    ensures sent.Keys <= asked && sent.Keys <= before.Keys
  {
  }

  lemma OneMoreIap(log: Log, segs: Log, asked: set<RocId>, sent: map<RocId, nat>, was: map<RocId, Word>,
                   before: map<RocId, Word>, start: nat, r: RocId, seg: seq<Access>, ok: bool, at: nat)
    requires IapsSent(segs, asked, sent, was, start) && r !in asked
    requires AtMostOf(was, before, r)
    requires if ok then r in before && IapTaken(seg, start, before[r], at) else IapRefused(seg)
    ensures Add(AddAll(log, segs), r, seg) == AddAll(log, segs[r := seg])
    ensures IapsSent(segs[r := seg], asked + {r}, if ok then sent[r := at] else sent, before, start)
  {
    hide IapTaken, IapRefused, Add, AddAll;
    OneMoreAdded(log, segs, r, seg);
  }

  // ---------------------------------------------------------------- the looks

  /** DONE, PROG_RETURN and the firmware version, one after the other, until a read throws. */
  predicate Looked(seg: seq<Access>, p: Poll, sentAt: nat) {
    && |seg| > 1 && seg[0].Timer? && p.t == (seg[0].at - sentAt) / 1000 && seg[1].Done?
    && (|seg| > 2 ==> !seg[1].thrown && seg[2].Other? && seg[2].reg == 132)
    && (|seg| > 3 ==> !seg[2].thrown && seg[3].Other? && seg[3].reg == 246)
    && |seg| <= 4
    && if p.answer.None? then Threw(Last(seg))
       else |seg| == 4 && !seg[3].thrown && p.answer.value == Answer(seg[1].value, seg[2].value, seg[3].value)
  }

  lemma LookedAt(seg: seq<Access>, p: Poll, sentAt: nat)
    requires Looked(seg, p, sentAt)
    ensures |seg| > 1
  {
  }

  /** How often the link was reset. */
  function Resets(seg: seq<Access>): nat {
    if seg == [] then 0 else Resets(seg[..|seg| - 1]) + if Last(seg).Reset? then 1 else 0
  }

  /** The link is reset after a look that finds it dead, so many times and no sooner than so long after each other. */
  predicate ResetDue(p: Poll, resets: nat, opt: Options) {
    && (p.answer.None? || p.answer.value.done == 65535)
    && resets < opt.linkResyncTries && p.t > opt.linkResyncAfterMs * (resets + 1)
  }

  /** A look and the reset that follows it, if one is due. */
  predicate Watched(seg: seq<Access>, p: Poll, sentAt: nat, resets: nat, opt: Options) {
    if ResetDue(p, resets, opt) then |seg| > 1 && Last(seg).Reset? && Looked(seg[..|seg| - 1], p, sentAt)
    else Looked(seg, p, sentAt)
  }

  /** These are the looks that were made. */
  ghost predicate Seen(seg: seq<Access>, polls: seq<Poll>, sentAt: nat, opt: Options)
    decreases |polls|
  {
    if polls == [] then seg == []
    else exists k: nat ::
      && k <= |seg| && Seen(seg[..k], polls[..|polls| - 1], sentAt, opt)
      && Watched(seg[k..], polls[|polls| - 1], sentAt, Resets(seg[..k]), opt)
  }

  lemma SeenOneMore(before: seq<Access>, seg: seq<Access>, polls: seq<Poll>, p: Poll, sentAt: nat, opt: Options)
    requires Seen(before, polls, sentAt, opt) && Watched(seg, p, sentAt, Resets(before), opt)
    ensures Seen(before + seg, polls + [p], sentAt, opt)
  {
    var all, k, ps := before + seg, |before|, polls + [p];
    assert all[..k] == before && all[k..] == seg && ps[..|ps| - 1] == polls;
  }

  lemma {:induction false} ResetsJoin(a: seq<Access>, b: seq<Access>)
    ensures Resets(a + b) == Resets(a) + Resets(b)
    decreases |b|
  {
    if b == [] {
      assert a + b == a;
    } else {
      var all := a + b;
      assert all[..|all| - 1] == a + b[..|b| - 1];
      ResetsJoin(a, b[..|b| - 1]);
    }
  }

  lemma {:induction false} NoResets(seg: seq<Access>)
    requires forall i :: 0 <= i < |seg| ==> !seg[i].Reset?
    ensures Resets(seg) == 0
    decreases |seg|
  {
    if seg != [] { NoResets(seg[..|seg| - 1]); }
  }

  lemma ResetsInWatched(seg: seq<Access>, p: Poll, sentAt: nat, resets: nat, opt: Options)
    requires Watched(seg, p, sentAt, resets, opt)
    ensures Resets(seg) == if ResetDue(p, resets, opt) then 1 else 0
  {
    if ResetDue(p, resets, opt) { NoResets(seg[..|seg| - 1]); } else { NoResets(seg); }
  }

  /** What was seen of a ROC, and how often its link was reset. */
  ghost predicate SeenOf(seg: seq<Access>, polls: seq<Poll>, sentAt: nat, resets: nat, opt: Options) {
    Seen(seg, polls, sentAt, opt) && Resets(seg) == resets
  }

  lemma SeenOfMore(before: seq<Access>, seg: seq<Access>, polls: seq<Poll>, p: Poll, sentAt: nat, resets: nat, opt: Options)
    requires SeenOf(before, polls, sentAt, resets, opt) && Watched(seg, p, sentAt, resets, opt)
    ensures SeenOf(before + seg, polls + [p], sentAt, resets + if ResetDue(p, resets, opt) then 1 else 0, opt)
  {
    hide Seen, Watched, ResetDue;
    SeenOneMore(before, seg, polls, p, sentAt, opt);
    ResetsJoin(before, seg);
    ResetsInWatched(seg, p, sentAt, resets, opt);
  }

  /** Of every ROC that took the request. */
  ghost predicate AllSeen(segs: Log, polls: map<RocId, seq<Poll>>, sent: map<RocId, nat>, watch: map<RocId, Watch>,
                          opt: Options) {
    && segs.Keys <= sent.Keys == polls.Keys == watch.Keys
    && forall r :: r in sent ==> SeenOf(Of(segs, r), polls[r], sent[r], watch[r].resyncs, opt)
  }

  /** Before the first look. */
  function Unseen(rs: set<RocId>): (watch: map<RocId, Watch>)
    ensures watch.Keys == rs
  {
    map r | r in rs :: UNSEEN
  }

  ghost function NoPolls(rs: set<RocId>): (polls: map<RocId, seq<Poll>>)
    ensures polls.Keys == rs
  {
    map r | r in rs :: []
  }

  lemma NothingSeen(sent: map<RocId, nat>, before: map<RocId, Word>, opt: Options)
    requires sent.Keys <= before.Keys
    ensures AllTell(Unseen(sent.Keys), NoPolls(sent.Keys), before, opt)
    ensures AllSeen(map[], NoPolls(sent.Keys), sent, Unseen(sent.Keys), opt)
  {
    UnseenAll(Unseen(sent.Keys), NoPolls(sent.Keys), before, opt);
  }

  lemma AllSeenOneMore(log: Log, segs: Log, polls: map<RocId, seq<Poll>>, sent: map<RocId, nat>,
                       watch: map<RocId, Watch>, opt: Options, r: RocId, seg: seq<Access>, p: Poll, w: Watch)
    requires AllSeen(segs, polls, sent, watch, opt) && r in sent
    requires Watched(seg, p, sent[r], watch[r].resyncs, opt)
    requires w.resyncs == watch[r].resyncs + if ResetDue(p, watch[r].resyncs, opt) then 1 else 0
    ensures var after := segs[r := Of(segs, r) + seg];
            && Add(AddAll(log, segs), r, seg) == AddAll(log, after)
            && AllSeen(after, polls[r := polls[r] + [p]], sent, watch[r := w], opt)
  {
    hide SeenOf, Watched, ResetDue, Add, AddAll;
    MoreAdded(log, segs, r, seg);
    SeenOfMore(Of(segs, r), seg, polls[r], p, sent[r], watch[r].resyncs, opt);
  }

  // ---------------------------------------------------------------- both

  /** The ROC took the IAP, and these are the looks at it since. */
  ghost predicate TakenAndSeen(seg: seq<Access>, start: nat, before: Word, polls: seq<Poll>, opt: Options) {
    exists k: nat, at: nat :: k <= |seg| && IapTaken(seg[..k], start, before, at) && Seen(seg[k..], polls, at, opt)
  }

  lemma TakenThenSeen(a: seq<Access>, b: seq<Access>, start: nat, before: Word, polls: seq<Poll>, at: nat, opt: Options)
    requires IapTaken(a, start, before, at) && Seen(b, polls, at, opt)
    ensures TakenAndSeen(a + b, start, before, polls, opt)
  {
    var all, k := a + b, |a|;
    assert all[..k] == a && all[k..] == b;
  }

  ghost predicate IapExplains(segs: Log, go: set<RocId>, polls: map<RocId, seq<Poll>>, before: map<RocId, Word>,
                              opt: Options) {
    && segs.Keys <= go && polls.Keys <= go && polls.Keys <= before.Keys
    && forall r :: r in go ==>
        if r in polls then TakenAndSeen(Of(segs, r), opt.startAddress, before[r], polls[r], opt)
        else IapRefused(Of(segs, r))
  }

  lemma IapLog(log: Log, s1: Log, s2: Log, go: set<RocId>, sent: map<RocId, nat>, before: map<RocId, Word>,
               polls: map<RocId, seq<Poll>>, watch: map<RocId, Watch>, opt: Options)
    requires IapsSent(s1, go, sent, before, opt.startAddress) && AllSeen(s2, polls, sent, watch, opt)
    ensures AddAll(AddAll(log, s1), s2) == AddAll(log, AddAll(s1, s2))
    ensures IapExplains(AddAll(s1, s2), go, polls, before, opt)
  {
    hide IapTaken, IapRefused, Seen, Resets, TakenAndSeen, AddAll;
    BothAdded(log, s1, s2);
    var segs := AddAll(s1, s2);
    forall r | r in go
      ensures if r in polls then TakenAndSeen(Of(segs, r), opt.startAddress, before[r], polls[r], opt)
              else IapRefused(Of(segs, r))
    {
      OfAdded(s1, s2, r);
      if r in sent {
        assert SeenOf(Of(s2, r), polls[r], sent[r], watch[r].resyncs, opt);
        TakenThenSeen(Of(s1, r), Of(s2, r), opt.startAddress, before[r], polls[r], sent[r], opt);
      } else {
        Joins(Of(s1, r), [], []);
      }
    }
    assert segs.Keys == s1.Keys + s2.Keys;
  }
}
