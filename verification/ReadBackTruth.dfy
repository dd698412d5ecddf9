/** What the answer to a read is worth when the MiV does not tag it: DONE and the FIFO do not show whether an
    earlier read is still to be answered. */
module ReadBackTruth {
  import opened Basics
  import opened FlashWorld
  import opened FlashLedger

  /** What the session takes for the answer shows the flash as it is. */
  ghost predicate Truthful(m: Miv, a: nat, n: nat)
    requires n % 2 == 0 && a + n <= |m.flash|
  {
    CountRegister(m) == n / 2 + 4 ==> Flat(m.fifo[..WholeReplies(m.fifo, n / 2)]) == WordsOf(m.flash, a, n)
  }

  /** No other user's command is answered meanwhile. */
  predicate Alone(steps: seq<EnvStep>) {
    forall s :: s in steps ==> !s.Foreign?
  }

  /** A read whose answer has the length of ours is waiting. */
  predicate Rival(m: Miv, i: nat, n: nat) {
    && i < |m.pending| && m.pending[i].Read? && m.pending[i].bytes % 2 == 0 && 0 < m.pending[i].bytes
    && AnswerSize(m, m.pending[i].bytes) == n && m.pending[i].addr + m.pending[i].bytes <= |m.flash|
  }

  predicate Touches(c: Cmd, isNew: bool, x: nat) {
    Modifies(c) && c.addr <= x < FootEnd(c, isNew)
  }

  /** The waiting command j may change flash [a, a + n). */
  ghost predicate MayChange(m: Miv, j: nat, a: nat, n: nat) {
    j < |m.pending| && exists x: nat :: a <= x < a + n && Touches(m.pending[j], m.isNew, x)
  }

  /** The answer to the waiting read i is as good as that to a read of [a, a + n): it is the same read and nothing
      changes the range after it, or it shows the same words, in ranges that nothing changes any more. */
  ghost predicate Harmless(m: Miv, i: nat, a: nat, n: nat)
    requires Rival(m, i, n) && n % 2 == 0 && a + n <= |m.flash|
  {
    var b := m.pending[i].addr;
    && (b != a ==> WordsOf(m.flash, b, n) == WordsOf(m.flash, a, n))
    && (b != a ==> forall j: nat :: j < i ==> !MayChange(m, j, b, n))
    && (forall j: nat :: (b == a ==> j > i) ==> !MayChange(m, j, a, n))
  }

  /** An older MiV with an empty FIFO and no shorter read to answer. */
  ghost predicate Ordered(m: Miv, n: nat) {
    && !m.isNew && m.fifo == [] && n <= m.cap && m.cap % 2 == 0
    && forall i :: 0 <= i < |m.pending| && m.pending[i].Read? ==> m.pending[i].bytes >= n
  }

  /** Every answer that can still come, or is there, is longer than n bytes or as good as ours. */
  ghost predicate AllHarmless(m: Miv, a: nat, n: nat)
    requires n % 2 == 0 && a + n <= |m.flash|
  {
    && !m.isNew && n <= m.cap && m.cap % 2 == 0
    && (forall i :: 0 <= i < |m.pending| && m.pending[i].Read? ==> m.pending[i].bytes >= n)
    && (forall i: nat :: Rival(m, i, n) ==> Harmless(m, i, a, n))
    && (forall i :: 0 <= i < |m.fifo| ==> |m.fifo[i].words| >= n / 2)
    && (forall i :: 0 <= i < |m.fifo| && |m.fifo[i].words| == n / 2 ==>
          m.fifo[i].words == WordsOf(m.flash, a, n) && forall j: nat :: !MayChange(m, j, a, n))
  }

  /** A change outside a range leaves its words as they are. */
  lemma Elsewhere(m: Miv, fill: seq<Byte>, a: nat, n: nat)
    requires m.pending != [] && n % 2 == 0 && a + n <= |m.flash| && !MayChange(m, 0, a, n)
    ensures WordsOf(FlashAfter(m, m.pending[0], fill), a, n) == WordsOf(m.flash, a, n)
  {
    var f, c := FlashAfter(m, m.pending[0], fill), m.pending[0];
    forall x: nat | a <= x < a + n ensures f[x] == m.flash[x] {
      assert !Touches(c, m.isNew, x);
    }
  }

  lemma Shifts(m: Miv, r: Miv, a: nat, n: nat)
    requires m.pending != [] && r.pending == m.pending[1..] && r.isNew == m.isNew
    ensures forall j: nat :: MayChange(r, j, a, n) <==> MayChange(m, j + 1, a, n)
  {
    forall j: nat ensures MayChange(r, j, a, n) <==> MayChange(m, j + 1, a, n) {
      if j < |r.pending| { assert r.pending[j] == m.pending[j + 1]; }
    }
  }

  lemma ExecuteRival(digest: seq<Byte> -> nat, m: Miv, s: EnvStep, issued: nat, a: nat, n: nat, i: nat)
    requires 0 < n && n % 2 == 0 && a + n <= |m.flash| && AllHarmless(m, a, n)
    requires s.Execute? && m.pending != [] && m.busy
    requires Rival(ApplyEnv(digest, m, s, issued, false), i, n)
    ensures Harmless(ApplyEnv(digest, m, s, issued, false), i, a, n)
  {
    var r := ApplyEnv(digest, m, s, issued, false);
    assert r.pending[i] == m.pending[i + 1];
    assert Rival(m, i + 1, n) && Harmless(m, i + 1, a, n);
    var b := r.pending[i].addr;
    Shifts(m, r, a, n);
    Shifts(m, r, b, n);
    if b != a {
      assert !MayChange(m, 0, b, n) && !MayChange(m, 0, a, n);
      Elsewhere(m, s.fill, a, n);
      Elsewhere(m, s.fill, b, n);
    }
  }

  lemma ExecuteReply(digest: seq<Byte> -> nat, m: Miv, s: EnvStep, issued: nat, a: nat, n: nat, i: nat)
    requires 0 < n && n % 2 == 0 && a + n <= |m.flash| && AllHarmless(m, a, n)
    requires s.Execute? && m.pending != [] && m.busy
    requires i < |ApplyEnv(digest, m, s, issued, false).fifo|
    ensures var r := ApplyEnv(digest, m, s, issued, false);
            && |r.fifo[i].words| >= n / 2
            && (|r.fifo[i].words| == n / 2 ==>
                  r.fifo[i].words == WordsOf(r.flash, a, n) && forall j: nat :: !MayChange(r, j, a, n))
  {
    var r := ApplyEnv(digest, m, s, issued, false);
    Shifts(m, r, a, n);
    if i < |m.fifo| {
      if |m.fifo[i].words| == n / 2 { Elsewhere(m, s.fill, a, n); }
    } else {
      assert m.pending[0].Read?;
      if |s.reply| == n / 2 {
        assert Rival(m, 0, n) && Harmless(m, 0, a, n);
      }
    }
  }

  lemma StepStaysHarmless(digest: seq<Byte> -> nat, m: Miv, s: EnvStep, issued: nat, a: nat, n: nat)
    requires 0 < n && n % 2 == 0 && a + n <= |m.flash| && AllHarmless(m, a, n) && !s.Foreign?
    ensures AllHarmless(ApplyEnv(digest, m, s, issued, false), a, n)
  {
    var r := ApplyEnv(digest, m, s, issued, false);
    if s.Execute? && m.pending != [] && m.busy {
      forall i: nat | Rival(r, i, n) ensures Harmless(r, i, a, n) { ExecuteRival(digest, m, s, issued, a, n, i); }
      forall i: nat | i < |r.fifo|
        ensures |r.fifo[i].words| >= n / 2
        ensures |r.fifo[i].words| == n / 2 ==>
                  r.fifo[i].words == WordsOf(r.flash, a, n) && forall j: nat :: !MayChange(r, j, a, n)
      {
        ExecuteReply(digest, m, s, issued, a, n, i);
      }
      assert forall i :: 0 <= i < |r.pending| ==> r.pending[i] == m.pending[i + 1];
    } else {
      SameWaits(m, r, a, n);
    }
  }

  /** Only replies were taken away. */
  lemma SameWaits(m: Miv, r: Miv, a: nat, n: nat)
    requires n % 2 == 0 && a + n <= |m.flash| && AllHarmless(m, a, n)
    requires r.isNew == m.isNew && r.cap == m.cap && r.pending == m.pending && r.flash == m.flash
    requires r.fifo == m.fifo || (m.fifo != [] && r.fifo == m.fifo[1..])
    ensures AllHarmless(r, a, n)
  {
    assert forall x: nat, j: nat, k: nat :: MayChange(r, j, x, k) == MayChange(m, j, x, k);
    forall i: nat | Rival(r, i, n) ensures Harmless(r, i, a, n) { assert Rival(m, i, n) && Harmless(m, i, a, n); }
  }

  lemma {:induction false} RunStaysHarmless(digest: seq<Byte> -> nat, m: Miv, steps: seq<EnvStep>, issued: nat, a: nat,
                                            n: nat)
    requires 0 < n && n % 2 == 0 && a + n <= |m.flash| && AllHarmless(m, a, n) && Alone(steps)
    ensures AllHarmless(ApplyAll(digest, m, steps, issued, false), a, n)
    decreases |steps|
  {
    if steps != [] {
      StepStaysHarmless(digest, m, steps[0], issued, a, n);
      RunStaysHarmless(digest, ApplyEnv(digest, m, steps[0], issued, false), steps[1..], issued, a, n);
    }
  }

  lemma HarmlessIsTruthful(m: Miv, a: nat, n: nat)
    requires 0 < n <= 1016 && n % 2 == 0 && a + n <= |m.flash| && AllHarmless(m, a, n)
    ensures Truthful(m, a, n)
  {
    if CountRegister(m) == n / 2 + 4 {
      assert WordCount(m.fifo) == n / 2;
      var first, rest := m.fifo[0], m.fifo[1..];
      assert rest == [] && WholeReplies(m.fifo, n / 2) == 1;
      assert m.fifo[..1][1..] == [];
    }
  }

  // ---------------------------------------------------------------- runs to a wrong answer

  lemma TwoSteps(digest: seq<Byte> -> nat, m: Miv, s: EnvStep, t: EnvStep, issued: nat)
    ensures ApplyAll(digest, m, [s, t], issued, false)
            == ApplyEnv(digest, ApplyEnv(digest, m, s, issued, false), t, issued, false)
  {
    assert [s, t][1..] == [t] && [t][1..] == [];
    var r := ApplyEnv(digest, m, s, issued, false);
    assert ApplyAll(digest, r, [t], issued, false) == ApplyEnv(digest, r, t, issued, false);
  }

  lemma {:induction false} RunAdds(digest: seq<Byte> -> nat, m: Miv, xs: seq<EnvStep>, ys: seq<EnvStep>, issued: nat)
    ensures ApplyAll(digest, m, xs + ys, issued, false)
            == ApplyAll(digest, ApplyAll(digest, m, xs, issued, false), ys, issued, false)
    decreases |xs|
  {
    if xs == [] {
      assert xs + ys == ys;
    } else {
      assert (xs + ys)[0] == xs[0] && (xs + ys)[1..] == xs[1..] + ys;
      RunAdds(digest, ApplyEnv(digest, m, xs[0], issued, false), xs[1..], ys, issued);
    }
  }

  /** r is m but for the commands it has executed. */
  predicate Rest(m: Miv, r: Miv, k: nat) {
    k <= |m.pending| && r.pending == m.pending[k..] && r.isNew == m.isNew && r.cap == m.cap
  }

  lemma RestRival(m: Miv, r: Miv, k: nat, i: nat, n: nat)
    requires Rest(m, r, k) && k <= i && Rival(m, i, n) && |r.flash| == |m.flash|
    ensures Rival(r, i - k, n) && r.pending[i - k] == m.pending[i]
  {
  }

  lemma LoseOne(digest: seq<Byte> -> nat, m: Miv, issued: nat)
    requires m.pending != []
    ensures var r := ApplyAll(digest, m, [TakeUp, Execute([], [], true)], issued, false);
            Rest(m, r, 1) && r.flash == m.flash && r.fifo == m.fifo
  {
    TwoSteps(digest, m, TakeUp, Execute([], [], true), issued);
    var c := m.pending[0];
    if Modifies(c) && c.addr <= |m.flash| { assert Splice(m.flash, c.addr, []) == m.flash; }
  }

  /** The first k commands are taken up and executed; changes leave the flash as it was, and answers get lost. */
  lemma {:induction false} LoseFirst(digest: seq<Byte> -> nat, m: Miv, k: nat, issued: nat)
    returns (steps: seq<EnvStep>)
    requires k <= |m.pending|
    ensures Alone(steps)
    ensures var r := ApplyAll(digest, m, steps, issued, false); Rest(m, r, k) && r.flash == m.flash && r.fifo == m.fifo
    decreases k
  {
    if k == 0 {
      steps := [];
    } else {
      var lose := [TakeUp, Execute([], [], true)];
      var r := ApplyAll(digest, m, lose, issued, false);
      LoseOne(digest, m, issued);
      var rest := LoseFirst(digest, r, k - 1, issued);
      RunAdds(digest, m, lose, rest, issued);
      steps := lose + rest;
    }
  }

  /** An oldest command that is a read is taken up and answered. */
  lemma AnswerFirst(digest: seq<Byte> -> nat, m: Miv, issued: nat, n: nat)
    requires Rival(m, 0, n) && 0 < n <= 1016 && n % 2 == 0 && m.cap % 2 == 0 && m.fifo == []
    ensures var words := WordsOf(m.flash, m.pending[0].addr, n);
            var r := ApplyAll(digest, m, [TakeUp, Execute([], words, false)], issued, false);
            && r == m.(pending := m.pending[1..], busy := false, fifo := [Reply(words, Some(m.pending[0]))])
            && CountRegister(r) == n / 2 + 4 && WholeReplies(r.fifo, n / 2) == 1 && Flat(r.fifo[..1]) == words
  {
    var words := WordsOf(m.flash, m.pending[0].addr, n);
    var reply := Reply(words, Some(m.pending[0]));
    TwoSteps(digest, m, TakeUp, Execute([], words, false), issued);
    OneReply(reply, n);
  }

  lemma OneReply(reply: Reply, n: nat)
    requires 0 < n <= 1016 && n % 2 == 0 && |reply.words| == n / 2
    ensures WordCount([reply]) == n / 2 && WholeReplies([reply], n / 2) == 1 && Flat([reply][..1]) == reply.words
  {
    assert [reply][1..] == [] && [reply][..1] == [reply];
    assert WordCount([]) == 0 && Flat([]) == [];
  }

  function Other(b: Byte): Byte {
    if b == 0 then 1 else 0
  }

  /** A change that alters just one byte of its footprint. */
  lemma AlterFirst(digest: seq<Byte> -> nat, m: Miv, issued: nat, x: nat) returns (steps: seq<EnvStep>)
    requires m.pending != [] && Touches(m.pending[0], m.isNew, x) && x < |m.flash|
    ensures Alone(steps)
    ensures var r := ApplyAll(digest, m, steps, issued, false);
            Rest(m, r, 1) && r.flash == m.flash[x := Other(m.flash[x])] && r.fifo == m.fifo
  {
    var c := m.pending[0];
    var fill := m.flash[c.addr..x] + [Other(m.flash[x])];
    steps := [TakeUp, Execute(fill, [], true)];
    TwoSteps(digest, m, steps[0], steps[1], issued);
    assert Splice(m.flash, c.addr, fill) == m.flash[x := Other(m.flash[x])];
  }

  lemma OneByteDiffers(f: seq<Byte>, a: nat, g: seq<Byte>, b: nat, n: nat, k: nat)
    requires a + n <= |f| && b + n <= |g| && n % 2 == 0 && k < n && f[a + k] != g[b + k]
    ensures WordsOf(f, a, n) != WordsOf(g, b, n)
  {
    assert f[a..a + n][k] != g[b..b + n][k];
    if WordsOf(f, a, n) == WordsOf(g, b, n) { WordsDecide(f, a, g, b, n); }
  }

  /** The rival's answer, wrong when it comes. */
  lemma WrongNow(digest: seq<Byte> -> nat, m: Miv, a: nat, n: nat, issued: nat, i: nat) returns (steps: seq<EnvStep>)
    requires 0 < n <= 1016 && n % 2 == 0 && m.cap % 2 == 0 && a + n <= |m.flash| && m.fifo == []
    requires Rival(m, i, n) && WordsOf(m.flash, m.pending[i].addr, n) != WordsOf(m.flash, a, n)
    ensures Alone(steps) && !Truthful(ApplyAll(digest, m, steps, issued, false), a, n)
  {
    var lost := LoseFirst(digest, m, i, issued);
    var r := ApplyAll(digest, m, lost, issued, false);
    var answer := [TakeUp, Execute([], WordsOf(r.flash, r.pending[0].addr, n), false)];
    AnswerFirst(digest, r, issued, n);
    RunAdds(digest, m, lost, answer, issued);
    steps := lost + answer;
  }

  /** A change before it makes it wrong. */
  lemma WrongBefore(digest: seq<Byte> -> nat, m: Miv, a: nat, n: nat, issued: nat, i: nat, j: nat, x: nat)
    returns (steps: seq<EnvStep>)
    requires 0 < n <= 1016 && n % 2 == 0 && m.cap % 2 == 0 && a + n <= |m.flash| && m.fifo == [] && Rival(m, i, n)
    requires var b := m.pending[i].addr;
             && b != a && WordsOf(m.flash, b, n) == WordsOf(m.flash, a, n)
             && j < i && (b <= x < b + n || a <= x < a + n) && Touches(m.pending[j], m.isNew, x)
    ensures Alone(steps) && !Truthful(ApplyAll(digest, m, steps, issued, false), a, n)
  {
    hide ApplyAll, Truthful, WordsOf, AnswerSize;
    var lost := LoseFirst(digest, m, j, issued);
    var r := ApplyAll(digest, m, lost, issued, false);
    var alter := AlterFirst(digest, r, issued, x);
    var q := ApplyAll(digest, r, alter, issued, false);
    RestRival(m, r, j, i, n);
    RestRival(r, q, 1, i - j, n);
    AlteredDiffers(m.flash, q.flash, m.pending[i].addr, a, n, x);
    var wrong := WrongNow(digest, q, a, n, issued, i - j - 1);
    RunAdds(digest, m, lost, alter, issued);
    RunAdds(digest, m, lost + alter, wrong, issued);
    steps := lost + alter + wrong;
  }

  lemma AlteredDiffers(f: seq<Byte>, g: seq<Byte>, b: nat, a: nat, n: nat, x: nat)
    requires n % 2 == 0 && a + n <= |f| && b + n <= |f| && WordsOf(f, b, n) == WordsOf(f, a, n) && b != a
    requires (b <= x < b + n || a <= x < a + n) && g == f[x := Other(f[x])]
    ensures WordsOf(g, b, n) != WordsOf(g, a, n)
  {
    WordsDecide(f, b, f, a, n);
    var k := if b <= x < b + n then x - b else x - a;
    assert f[b..b + n][k] == f[a..a + n][k];
    OneByteDiffers(g, b, g, a, n, k);
  }

  /** A change after it makes it wrong. */
  lemma WrongAfter(digest: seq<Byte> -> nat, m: Miv, a: nat, n: nat, issued: nat, i: nat, j: nat, x: nat)
    returns (steps: seq<EnvStep>)
    requires 0 < n <= 1016 && n % 2 == 0 && m.cap % 2 == 0 && a + n <= |m.flash| && m.fifo == [] && Rival(m, i, n)
    requires WordsOf(m.flash, m.pending[i].addr, n) == WordsOf(m.flash, a, n)
    requires i < j < |m.pending| && a <= x < a + n && Touches(m.pending[j], m.isNew, x)
    ensures Alone(steps) && !Truthful(ApplyAll(digest, m, steps, issued, false), a, n)
  {
    hide ApplyAll, WordsOf, AnswerSize;
    var lost := LoseFirst(digest, m, i, issued);
    var r := ApplyAll(digest, m, lost, issued, false);
    RestRival(m, r, i, i, n);
    var words := WordsOf(r.flash, r.pending[0].addr, n);
    var answer := [TakeUp, Execute([], words, false)];
    AnswerFirst(digest, r, issued, n);
    var t := ApplyAll(digest, r, answer, issued, false);
    var more := LoseFirst(digest, t, j - i - 1, issued);
    var q := ApplyAll(digest, t, more, issued, false);
    assert q.pending[0] == m.pending[j];
    var alter := AlterFirst(digest, q, issued, x);
    OneByteDiffers(m.flash, a, m.flash[x := Other(m.flash[x])], a, n, x - a);
    RunAdds(digest, m, lost, answer, issued);
    RunAdds(digest, m, lost + answer, more, issued);
    RunAdds(digest, m, lost + answer + more, alter, issued);
    steps := lost + answer + more + alter;
  }

  lemma HarmMisleads(digest: seq<Byte> -> nat, m: Miv, a: nat, n: nat, issued: nat, i: nat)
    returns (steps: seq<EnvStep>)
    requires 0 < n <= 1016 && n % 2 == 0 && m.cap % 2 == 0 && a + n <= |m.flash| && m.fifo == []
    requires Rival(m, i, n) && !Harmless(m, i, a, n)
    ensures Alone(steps) && !Truthful(ApplyAll(digest, m, steps, issued, false), a, n)
  {
    hide ApplyAll, Truthful, WordsOf, Touches;
    var b := m.pending[i].addr;
    if WordsOf(m.flash, b, n) != WordsOf(m.flash, a, n) {
      steps := WrongNow(digest, m, a, n, issued, i);
    } else if b != a && exists j: nat :: j < i && MayChange(m, j, b, n) {
      var j: nat :| j < i && MayChange(m, j, b, n);
      var x: nat :| b <= x < b + n && Touches(m.pending[j], m.isNew, x);
      steps := WrongBefore(digest, m, a, n, issued, i, j, x);
    } else {
      var j: nat :| (b == a ==> j > i) && MayChange(m, j, a, n);
      var x: nat :| a <= x < a + n && Touches(m.pending[j], m.isNew, x);
      ChangeIsNoRead(m, i, j, x);
      if j < i {
        steps := WrongBefore(digest, m, a, n, issued, i, j, x);
      } else {
        steps := WrongAfter(digest, m, a, n, issued, i, j, x);
      }
    }
  }

  lemma ChangeIsNoRead(m: Miv, i: nat, j: nat, x: nat)
    requires i < |m.pending| && m.pending[i].Read? && j < |m.pending| && Touches(m.pending[j], m.isNew, x)
    ensures j != i
  {
  }

  /** What an older MiV answers to a read shows the flash as it is, in every run without another user's answer, exactly
      if every waiting read whose answer has the same length is harmless. DONE says nothing about that: it is idle as
      long as the MiV has taken up none of them. */
  lemma ReadTellsExactly(digest: seq<Byte> -> nat, m: Miv, a: nat, n: nat, issued: nat)
    requires 0 < n <= 1016 && n % 2 == 0 && a + n <= |m.flash| && Ordered(m, n)
    ensures var w := Written(m, Read(a, n), true);
            (forall steps :: Alone(steps) ==> Truthful(ApplyAll(digest, w, steps, issued, false), a, n))
            <==> forall i: nat :: Rival(m, i, n) ==> Harmless(m, i, a, n)
  {
    var w := Written(m, Read(a, n), true);
    WriteKeepsRivals(m, w, a, n);
    if forall i: nat :: Rival(m, i, n) ==> Harmless(m, i, a, n) {
      forall steps | Alone(steps) ensures Truthful(ApplyAll(digest, w, steps, issued, false), a, n) {
        RunStaysHarmless(digest, w, steps, issued, a, n);
        HarmlessIsTruthful(ApplyAll(digest, w, steps, issued, false), a, n);
      }
    } else {
      var i: nat :| Rival(m, i, n) && !Harmless(m, i, a, n);
      assert Rival(w, i, n) && !Harmless(w, i, a, n);
      var steps := HarmMisleads(digest, w, a, n, issued, i);
    }
  }

  lemma WriteKeepsRivals(m: Miv, w: Miv, a: nat, n: nat)
    requires 0 < n && n % 2 == 0 && a + n <= |m.flash| && Ordered(m, n) && w == Written(m, Read(a, n), true)
    ensures forall i: nat :: Rival(m, i, n) ==> Rival(w, i, n) && (Harmless(w, i, a, n) <==> Harmless(m, i, a, n))
    ensures (forall i: nat :: Rival(m, i, n) ==> Harmless(m, i, a, n)) ==> AllHarmless(w, a, n)
  {
    forall j: nat, x: nat, k: nat ensures MayChange(w, j, x, k) == MayChange(m, j, x, k) {
      if j < |m.pending| { assert w.pending[j] == m.pending[j]; }
    }
    forall i: nat | Rival(w, i, n)
      ensures i < |m.pending| ==> Rival(m, i, n)
      ensures i == |m.pending| ==> Harmless(w, i, a, n)
    {
    }
  }

  // ---------------------------------------------------------------- a run that is misled

  /** Two equal pieces of the image, and an older MiV that is slow to take up: the first read arrives although its
      write reported an error; DONE is still set and the FIFO empty, so the read is sent again; its first answer
      is right; the MiV is idle again, the next piece is asked for, and the second answer to the first read is taken
      for it. The piece passes whatever the flash holds there. */
  lemma RetriedReadMisleads(digest: seq<Byte> -> nat, m: Miv, k: Known, image: seq<Byte>, a: nat, off: nat, n: nat,
                            issued: nat)
    returns (k2: Known)
    requires LinkFine(digest, false, issued, m, k) && m.pending == [] && !m.busy && m.fifo == [] && n <= m.cap
    requires 0 < n <= 1016 && n % 2 == 0 && off + 2 * n <= |image| && a + 2 * n <= FLASH_SIZE
    requires WordsOf(m.flash, a, n) == WordsOf(image, off, n) == WordsOf(image, off + n, n)
    ensures var w1 := Written(m, Read(a, n), true);
            var w2 := Written(w1, Read(a, n), true);
            var words := WordsOf(m.flash, a, n);
            var r1 := ApplyAll(digest, w2, [TakeUp, Execute([], words, false)], issued, false);
            var d1 := Dropped(r1, WholeReplies(r1.fifo, n / 2));
            var w3 := Written(d1, Read(a + n, n), true);
            var r2 := ApplyAll(digest, w3, [TakeUp, Execute([], words, false)], issued, false);
            && !w1.busy && CountRegister(w1) == 0
            && CountRegister(r1) == n / 2 + 4 && Flat(r1.fifo[..WholeReplies(r1.fifo, n / 2)]) == WordsOf(image, off, n)
            && !d1.busy && CountRegister(d1) == 0
            && CountRegister(r2) == n / 2 + 4
            && Flat(r2.fifo[..WholeReplies(r2.fifo, n / 2)]) == WordsOf(image, off + n, n)
            && r2.flash == m.flash && Mixed(r2)
            && LinkFine(digest, false, issued, r2, k2) && k2.hope == ReadOf(a + n, n, a, image[off..off + n])
            && k2.doubt
  {
    var w1 := Written(m, Read(a, n), true);
    var w2 := Written(w1, Read(a, n), true);
    assert w1.pending == [Read(a, n)] && w2.pending == [Read(a, n), Read(a, n)];
    var words := WordsOf(m.flash, a, n);
    assert Rival(w2, 0, n);
    AnswerFirst(digest, w2, issued, n);
    var r1 := ApplyAll(digest, w2, [TakeUp, Execute([], words, false)], issued, false);
    var d1 := Dropped(r1, 1);
    var w3 := Written(d1, Read(a + n, n), true);
    assert d1.fifo == [] && d1.pending == [Read(a, n)] && Rival(w3, 0, n);
    AnswerFirst(digest, w3, issued, n);
    var r2 := ApplyAll(digest, w3, [TakeUp, Execute([], words, false)], issued, false);
    var k1 := FineTwice(digest, m, k, a, n, issued);
    k2 := FineOnward(digest, w2, k1, image, a, off, n, issued);
  }

  /** Nothing the session knows speaks against it: the same read twice, */
  lemma FineTwice(digest: seq<Byte> -> nat, m: Miv, k: Known, a: nat, n: nat, issued: nat) returns (k1: Known)
    requires LinkFine(digest, false, issued, m, k) && m.fifo == [] && 0 < n && n % 2 == 0 && a + n <= FLASH_SIZE
    ensures LinkFine(digest, false, issued, Written(Written(m, Read(a, n), true), Read(a, n), true), k1)
    ensures k1.hope == ReadOf(a, n, a, []) && k1.doubt
  {
    var read, want := Read(a, n), ReadOf(a, n, a, []);
    WriteFine(digest, false, issued, m, k, read, want, true);
    WriteFine(digest, false, issued, Written(m, read, true), Wrote(k, read, want), read, want, true);
    k1 := Wrote(Wrote(k, read, want), read, want);
  }

  /** its answer, the next read and what is taken for the answer to that. */
  lemma FineOnward(digest: seq<Byte> -> nat, m: Miv, k: Known, image: seq<Byte>, a: nat, off: nat, n: nat, issued: nat)
    returns (k2: Known)
    requires LinkFine(digest, false, issued, m, k) && k.hope == ReadOf(a, n, a, [])
    requires m.pending == [Read(a, n), Read(a, n)] && m.fifo == [] && n <= m.cap
    requires 0 < n <= 1016 && n % 2 == 0 && off + n <= |image| && a + 2 * n <= FLASH_SIZE
    requires WordsOf(m.flash, a, n) == WordsOf(image, off, n)
    ensures var answer := [TakeUp, Execute([], WordsOf(m.flash, a, n), false)];
            var r1 := ApplyAll(digest, m, answer, issued, false);
            var d1 := Dropped(r1, WholeReplies(r1.fifo, n / 2));
            var r2 := ApplyAll(digest, Written(d1, Read(a + n, n), true), answer, issued, false);
            && LinkFine(digest, false, issued, r2, k2) && k2.hope == ReadOf(a + n, n, a, image[off..off + n])
            && (k.doubt ==> k2.doubt)
  {
    hide LinkFine, ApplyAll;
    FlashSizes(digest, m, k, issued);
    var answer := [TakeUp, Execute([], WordsOf(m.flash, a, n), false)];
    var r1 := ApplyAll(digest, m, answer, issued, false);
    MovesOn(digest, m, k, answer, issued);
    assert Rival(m, 0, n);
    AnswerFirst(digest, m, issued, n);
    ReadFine(digest, false, issued, r1, k, n / 2, WholeReplies(r1.fifo, n / 2));
    var d1 := Dropped(r1, WholeReplies(r1.fifo, n / 2));
    SeenFine(digest, false, issued, d1, k, image, off);
    var ks := SeenMore(k, image[off..off + n]);
    assert [] + image[off..off + n] == image[off..off + n];
    var next, more := Read(a + n, n), ReadOf(a + n, n, a, image[off..off + n]);
    WriteFine(digest, false, issued, d1, ks, next, more, true);
    k2 := Wrote(ks, next, more);
    MovesOn(digest, Written(d1, next, true), k2, answer, issued);
  }

  lemma FlashSizes(digest: seq<Byte> -> nat, m: Miv, k: Known, issued: nat)
    requires LinkFine(digest, false, issued, m, k)
    ensures |m.flash| == FLASH_SIZE && !m.isNew && m.cap % 2 == 0
  {
  }

  lemma MovesOn(digest: seq<Byte> -> nat, m: Miv, k: Known, steps: seq<EnvStep>, issued: nat)
    requires LinkFine(digest, false, issued, m, k)
    ensures LinkFine(digest, false, issued, ApplyAll(digest, m, steps, issued, false), k)
  {
    EnvKeeps(digest, m, steps, k.top, issued, false, k.ledger, k.hope);
    OrderStays(digest, m, steps, issued, false, k.due, k.doubt);
  }
}
