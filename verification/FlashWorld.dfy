/** The world behind the DCS link of one ROC: its SPI flash, the processor (MiV) that runs the commands it has
    accepted in order and at its own pace, the reply FIFO, and the other users of the link.

    Environment assumptions, all of them made here:
    - nobody but the session changes the flash; the MiV changes it only inside the footprint of the erase or
      write it executes (what it leaves there is arbitrary);
    - what is read successfully is faithful; replies may be late, lost or taken away by others;
    - a reply of another user does not start with the tag the session awaits from this ROC;
    - a tagged command is answered before 65535 more tags have been given out, or not at all.

    DONE is stale: it stays set from the moment a command is written until the MiV takes it up. So an idle DONE and
    an empty FIFO do not show that no answer is still to come; `crossed` and `disturbed` note where that matters. */
module FlashWorld {
  import opened Basics
  import opened FlashTags

  const FLASH_SIZE: nat := 0x1_0000_0000
  const BLOCK: nat := 0x1_0000

  /** `no`: which of the session's tagged commands it is; 0: sent without tag. */
  datatype Cmd =
    | Erase(addr: nat, size: nat, no: nat)
    | Write(addr: nat, words: seq<Word>, no: nat)
    | Read(addr: nat, bytes: nat)
    | Crc(addr: nat, bytes: nat, no: nat)
    | Iap(addr: nat)

  function NoOf(c: Cmd): nat {
    match c
    case Erase(_, _, no) => no
    case Write(_, _, no) => no
    case Crc(_, _, no) => no
    case _ => 0
  }

  /** The tag a command carries, 0 for none. */
  function TagOf(c: Cmd): Word {
    WireTag(NoOf(c))
  }

  /** A reply in the FIFO and the command it answers (None: another user's). */
  datatype Reply = Reply(words: seq<Word>, answers: Option<Cmd>)

  datatype Miv = Miv(
    isNew: bool,              // firmware with tags and CRC
    cap: nat,                 // most bytes it answers a read with
    flash: seq<Byte>,
    pending: seq<Cmd>,        // accepted, not yet executed, oldest first
    busy: bool,               // the oldest has been taken up: DONE is low
    fifo: seq<Reply>,
    awaited: nat,             // number of the session's last command, 0 if it has no tag
    reading: bool,            // the session's last command is a read
    crossed: bool,            // a read was written while another answer was there or still to come
    disturbed: bool)          // another user was answered while a read was awaited

  /** Another answer may have been, or may be, taken for that of a read. */
  predicate Mixed(m: Miv) {
    m.crossed || m.disturbed
  }

  predicate Modifies(c: Cmd) {
    c.Erase? || c.Write?
  }

  /** The first address behind what the command may change. An older MiV asked to erase `size` bytes erases
      1 + size/64k + 1 blocks. */
  function FootEnd(c: Cmd, isNew: bool): nat
    requires Modifies(c)
  {
    match c
    case Erase(a, size, _) =>
      if isNew then a + (size + BLOCK - 1) / BLOCK * BLOCK else a + (size / BLOCK + 2) * BLOCK
    case Write(a, ws, _) => a + 2 * |ws|
  }

  function LoByte(w: Word): Byte { w % 256 }
  function HiByte(w: Word): Byte { w / 256 }

  /** Two flash bytes as one word, the first one low. */
  function Pack(lo: Byte, hi: Byte): Word { lo + 256 * hi }

  function U32(lo: Word, hi: Word): (n: nat)
    ensures n % 65536 == lo && n / 65536 == hi
  {
    (lo as nat) + 65536 * (hi as nat)
  }

  /** `bytes` flash bytes from `addr` on, two to a word. */
  function WordsOf(flash: seq<Byte>, addr: nat, bytes: nat): (ws: seq<Word>)
    requires addr + bytes <= |flash| && bytes % 2 == 0
    ensures |ws| == bytes / 2
  {
    seq(bytes / 2, k requires 0 <= k < bytes / 2 => Pack(flash[addr + 2 * k], flash[addr + 2 * k + 1]))
  }

  lemma WordAt(flash: seq<Byte>, addr: nat, bytes: nat, j: nat)
    requires addr + bytes <= |flash| && bytes % 2 == 0 && j < bytes / 2
    ensures WordsOf(flash, addr, bytes)[j] == Pack(flash[addr + 2 * j], flash[addr + 2 * j + 1])
  {
  }

  /** The byte at the lower address is the low one of its word. */
  lemma LowByteFirst(flash: seq<Byte>, addr: nat, bytes: nat, j: nat)
    requires addr + bytes <= |flash| && bytes % 2 == 0 && j < bytes / 2
    ensures WordsOf(flash, addr, bytes)[j] % 256 == flash[addr + 2 * j]
    ensures WordsOf(flash, addr, bytes)[j] / 256 == flash[addr + 2 * j + 1]
  {
    WordAt(flash, addr, bytes, j);
  }

  lemma PackDecides(lo: Byte, hi: Byte, lo': Byte, hi': Byte)
    requires Pack(lo, hi) == Pack(lo', hi')
    ensures lo == lo' && hi == hi'
  {
  }

  lemma SameByte(f: seq<Byte>, a: nat, g: seq<Byte>, b: nat, bytes: nat, k: nat)
    requires a + bytes <= |f| && b + bytes <= |g| && bytes % 2 == 0 && k < bytes
    requires WordsOf(f, a, bytes) == WordsOf(g, b, bytes)
    ensures f[a + k] == g[b + k]
  {
    hide WordsOf, Pack;
    var j := k / 2;
    WordAt(f, a, bytes, j);
    WordAt(g, b, bytes, j);
    PackDecides(f[a + 2 * j], f[a + 2 * j + 1], g[b + 2 * j], g[b + 2 * j + 1]);
  }

  /** Equal words mean equal bytes. */
  lemma WordsDecide(f: seq<Byte>, a: nat, g: seq<Byte>, b: nat, bytes: nat)
    requires a + bytes <= |f| && b + bytes <= |g| && bytes % 2 == 0
    requires WordsOf(f, a, bytes) == WordsOf(g, b, bytes)
    ensures f[a..a + bytes] == g[b..b + bytes]
  {
    hide WordsOf;
    var x, y := f[a..a + bytes], g[b..b + bytes];
    forall k | 0 <= k < bytes ensures x[k] == y[k] { SameByte(f, a, g, b, bytes, k); }
  }

  // ---------------------------------------------------------------- what can happen on its own

  datatype EnvStep =
    | TakeUp                                                  // the MiV takes up its oldest command
    | Execute(fill: seq<Byte>, reply: seq<Word>, lost: bool)  // and completes it
    | Taken                                                   // another user reads the first reply away
    | Foreign(words: seq<Word>)                               // another user's command is answered

  function Splice(flash: seq<Byte>, a: nat, fill: seq<Byte>): (f: seq<Byte>)
    requires a + |fill| <= |flash|
    ensures |f| == |flash|
    ensures forall i :: 0 <= i < |f| && !(a <= i < a + |fill|) ==> f[i] == flash[i]
  {
    flash[..a] + fill + flash[a + |fill|..]
  }

  /** The flash after the MiV has run c; what it leaves in the footprint is up to `fill`. */
  function FlashAfter(m: Miv, c: Cmd, fill: seq<Byte>): (f: seq<Byte>)
    ensures |f| == |m.flash|
  {
    if Modifies(c) && |fill| <= FootEnd(c, m.isNew) - c.addr && c.addr + |fill| <= |m.flash|
    then Splice(m.flash, c.addr, fill)
    else m.flash
  }

  /** A read of more bytes than that is answered with as many as the MiV can. */
  function AnswerSize(m: Miv, n: nat): (k: nat)
    ensures k <= n && k <= m.cap
  {
    if n > m.cap then m.cap else n
  }

  /** Is this what the MiV may answer to c? */
  predicate Answers(digest: seq<Byte> -> nat, m: Miv, c: Cmd, reply: seq<Word>) {
    match c
    case Erase(_, _, no) => m.isNew && no != 0 && |reply| == 3 && reply[0] == TagOf(c)
    case Write(_, _, no) => m.isNew && no != 0 && |reply| == 3 && reply[0] == TagOf(c)
    case Read(a, n) =>
      n > 0 && n % 2 == 0 && m.cap % 2 == 0 && a + n <= |m.flash| && reply == WordsOf(m.flash, a, AnswerSize(m, n))
    case Crc(a, n, no) =>
      && m.isNew && no != 0 && |reply| == 4 && reply[0] == TagOf(c)
      && (reply[3] == 0 ==> a + n <= |m.flash| && U32(reply[1], reply[2]) == digest(m.flash[a..a + n]))
    case Iap(_) => false
  }

  /** Fewer than 65535 tags were given out after the command's own. */
  predicate Recent(c: Cmd, issued: nat) {
    NoOf(c) == 0 || issued < NoOf(c) + 65535
  }

  /** One step; a step that is not possible changes nothing. While the session holds the DCS lock the other
      users wait. `issued` counts the tags the session has given out. */
  function ApplyEnv(digest: seq<Byte> -> nat, m: Miv, s: EnvStep, issued: nat, locked: bool): (r: Miv)
    ensures r.isNew == m.isNew && r.cap == m.cap && r.awaited == m.awaited && r.reading == m.reading
    ensures r.crossed == m.crossed && |r.flash| == |m.flash|
  {
    match s
    case TakeUp => m.(busy := m.pending != [])
    case Execute(fill, reply, lost) =>
      if m.pending == [] || !m.busy then m
      else
        var c := m.pending[0];
        m.(pending := m.pending[1..],
           busy := false,
           flash := FlashAfter(m, c, fill),
           fifo := if !lost && Recent(c, issued) && Answers(digest, m, c, reply) then m.fifo + [Reply(reply, Some(c))]
                   else m.fifo)
    case Taken => if locked || m.fifo == [] then m else m.(fifo := m.fifo[1..])
    case Foreign(ws) =>
      if locked || ws == [] || (m.awaited != 0 && ws[0] == WireTag(m.awaited)) then m
      else m.(fifo := m.fifo + [Reply(ws, None)], disturbed := m.disturbed || m.reading)
  }

  function ApplyAll(digest: seq<Byte> -> nat, m: Miv, steps: seq<EnvStep>, issued: nat, locked: bool): (r: Miv)
    ensures r.isNew == m.isNew && r.cap == m.cap && r.awaited == m.awaited && r.reading == m.reading
    ensures r.crossed == m.crossed && |r.flash| == |m.flash|
    decreases |steps|
  {
    if steps == [] then m
    else ApplyAll(digest, ApplyEnv(digest, m, steps[0], issued, locked), steps[1..], issued, locked)
  }

  // ---------------------------------------------------------------- what the session relies on

  /** What is known of one ROC: the flash when the session began, the range it may change, and the part of
      the range below `lo` that is verified and must not change any more. */
  datatype Ledger = Ledger(initial: seq<Byte>, start: nat, end: nat, lo: nat, held: seq<Byte>,
                           readSent: bool)   // has an untagged read been sent?

  predicate Sane(g: Ledger) {
    g.start <= g.lo <= g.end <= |g.initial| && |g.held| == g.lo - g.start
  }

  /** A command that may still be run changes nothing outside the range. */
  predicate InRange(c: Cmd, isNew: bool, g: Ledger) {
    Modifies(c) ==> g.start <= c.addr && FootEnd(c, isNew) <= g.end
  }

  /** And nothing below `lo`. */
  predicate Confined(c: Cmd, isNew: bool, g: Ledger) {
    Modifies(c) ==> g.lo <= c.addr && FootEnd(c, isNew) <= g.end
  }

  ghost predicate Good(m: Miv, g: Ledger) {
    && Sane(g)
    && |m.flash| == |g.initial| && m.cap > 0 && m.cap % 2 == 0
    && (forall i :: 0 <= i < |m.flash| && !(g.start <= i < g.end) ==> m.flash[i] == g.initial[i])
    && (!Mixed(m) ==> m.flash[g.start..g.lo] == g.held)
    && (forall i :: 0 <= i < |m.pending| ==> InRange(m.pending[i], m.isNew, g))
    && (!Mixed(m) ==> forall i :: 0 <= i < |m.pending| ==> Confined(m.pending[i], m.isNew, g))
    && (forall i :: 0 <= i < |m.fifo| ==> m.fifo[i].words != [])
    && (!g.readSent ==> Untouched(m))
  }

  /** No untagged reply is under way, and none was ever awaited. */
  ghost predicate Untouched(m: Miv) {
    && !m.reading && !Mixed(m)
    && (forall i :: 0 <= i < |m.pending| ==> !m.pending[i].Read?)
    && (forall i :: 0 <= i < |m.fifo| ==> !FromRead(m.fifo[i]))
  }

  /** The session's commands still under way are numbered up to `top`. */
  ghost predicate Numbered(m: Miv, top: nat) {
    forall i :: 0 <= i < |m.pending| ==> NoOf(m.pending[i]) <= top
  }

  /** Every reply in the FIFO answers a recent command of the session and shows its tag. */
  ghost predicate OwnReplies(m: Miv, top: nat, issued: nat) {
    forall i :: 0 <= i < |m.fifo| ==> OwnReply(m.fifo[i], top, issued)
  }

  predicate OwnReply(r: Reply, top: nat, issued: nat) {
    && r.answers.Some?
    && (r.answers.value.Read?
        || (0 < NoOf(r.answers.value) <= top && Recent(r.answers.value, issued) && Carries(r, TagOf(r.answers.value))))
  }

  /** The reply the session is waiting for. */
  datatype Expect =
    | Nothing
    | ResultOf(c: Cmd)                            // of a tagged erase or write
    | CrcOf(addr: nat, bytes: nat, no: nat)
    | ReadOf(addr: nat, bytes: nat, base: nat, seen: seq<Byte>)   // `seen`: read back so far, from `base` on

  ghost predicate NoChangePending(m: Miv) {
    forall i :: 0 <= i < |m.pending| ==> !Modifies(m.pending[i])
  }

  /** Whatever carries the awaited tag stems from the awaited CRC command, and once its reply is there, every
      change that was commanded before has been made. */
  ghost predicate CrcExpected(digest: seq<Byte> -> nat, m: Miv, a: nat, n: nat, no: nat) {
    && no != 0 && m.awaited == no && a + n <= |m.flash|
    && (forall i :: 0 <= i < |m.pending| ==> !m.pending[i].Read? && NoOf(m.pending[i]) <= no)
    && (forall i :: 0 <= i < |m.pending| && NoOf(m.pending[i]) == no ==>
          LastChangeBefore(m, i) && m.pending[i] == Crc(a, n, no))
    && (forall i :: 0 <= i < |m.fifo| && Carries(m.fifo[i], WireTag(no)) ==> TaggedReply(digest, m, m.fifo[i], a, n, no))
  }

  /** The number stands for command c alone; once a reply carries its tag, c is no longer pending. */
  ghost predicate ResultExpected(m: Miv, c: Cmd) {
    var no := NoOf(c);
    && no != 0 && m.awaited == no
    && (forall i :: 0 <= i < |m.pending| ==> NoOf(m.pending[i]) <= no)
    && (forall i :: 0 <= i < |m.pending| && NoOf(m.pending[i]) == no ==> i == |m.pending| - 1 && m.pending[i] == c)
    && (forall i :: 0 <= i < |m.fifo| && Carries(m.fifo[i], TagOf(c)) ==>
          m.isNew && m.fifo[i].answers == Some(c) && NotPending(m, no))
    && Untouched(m)
  }

  ghost predicate NotPending(m: Miv, no: nat) {
    forall i :: 0 <= i < |m.pending| ==> NoOf(m.pending[i]) != no
  }

  predicate FromRead(r: Reply) {
    r.answers.Some? && r.answers.value.Read?
  }

  predicate Carries(r: Reply, t: Word) {
    r.words != [] && r.words[0] == t
  }

  ghost predicate LastChangeBefore(m: Miv, i: nat) {
    forall j :: i < j < |m.pending| ==> !Modifies(m.pending[j])
  }

  ghost predicate TaggedReply(digest: seq<Byte> -> nat, m: Miv, r: Reply, a: nat, n: nat, no: nat)
    requires a + n <= |m.flash|
  {
    && m.isNew && r.answers == Some(Crc(a, n, no)) && |r.words| == 4 && NoChangePending(m)
    && (r.words[3] == 0 ==> U32(r.words[1], r.words[2]) == digest(m.flash[a..a + n]))
  }

  /** A command the MiV answers. */
  predicate Answered(isNew: bool, c: Cmd) {
    c.Read? || (isNew && NoOf(c) != 0)
  }

  predicate AnswerPending(m: Miv) {
    exists i :: 0 <= i < |m.pending| && Answered(m.isNew, m.pending[i])
  }

  /** A read has been sent. Unless answers may be mixed up, its own is the only one still to come; once it is there,
      or a part was read back before, every change that was commanded before has been made; and it shows the flash
      as it is. */
  ghost predicate ReadExpected(m: Miv, a: nat, n: nat, base: nat, seen: seq<Byte>) {
    && m.reading && n > 0 && n % 2 == 0 && m.cap % 2 == 0 && a + n <= |m.flash| && base + |seen| <= |m.flash|
    && (!Mixed(m) ==>
          && (forall i :: 0 <= i < |m.pending| && Answered(m.isNew, m.pending[i]) ==>
                i == |m.pending| - 1 && m.pending[i] == Read(a, n))
          && |m.fifo| <= 1 && (m.fifo != [] ==> !AnswerPending(m))
          && (m.fifo != [] || seen != [] ==> NoChangePending(m))
          && (forall i :: 0 <= i < |m.fifo| ==> m.fifo[i].words == WordsOf(m.flash, a, AnswerSize(m, n)))
          && m.flash[base..base + |seen|] == seen)
  }

  /** The number of the awaited command. */
  function NoAwaited(x: Expect): nat {
    match x
    case ResultOf(c) => NoOf(c)
    case CrcOf(_, _, no) => no
    case _ => 0
  }

  ghost predicate Expected(digest: seq<Byte> -> nat, m: Miv, x: Expect) {
    match x
    case Nothing => true
    case ResultOf(c) => ResultExpected(m, c)
    case CrcOf(a, n, no) => CrcExpected(digest, m, a, n, no)
    case ReadOf(a, n, base, seen) => ReadExpected(m, a, n, base, seen)
  }

  // ---------------------------------------------------------------- nothing that happens on its own spoils it

  lemma StepKeepsGood(digest: seq<Byte> -> nat, m: Miv, s: EnvStep, issued: nat, locked: bool, g: Ledger)
    requires Good(m, g)
    ensures Good(ApplyEnv(digest, m, s, issued, locked), g)
  {
    if s.Execute? && m.pending != [] && m.busy {
      ExecuteKeepsGood(digest, m, s, issued, locked, g);
    }
  }

  lemma ExecuteKeepsGood(digest: seq<Byte> -> nat, m: Miv, s: EnvStep, issued: nat, locked: bool, g: Ledger)
    requires Good(m, g) && s.Execute? && m.pending != [] && m.busy
    ensures Good(ApplyEnv(digest, m, s, issued, locked), g)
  {
    var r, c := ApplyEnv(digest, m, s, issued, locked), m.pending[0];
    assert InRange(c, m.isNew, g);
    if !Mixed(m) {
      assert Confined(c, m.isNew, g);
      assert r.flash[g.start..g.lo] == m.flash[g.start..g.lo];
    }
  }

  lemma StepKeepsNumbers(digest: seq<Byte> -> nat, m: Miv, s: EnvStep, top: nat, issued: nat, locked: bool)
    requires Numbered(m, top)
    ensures Numbered(ApplyEnv(digest, m, s, issued, locked), top)
    ensures locked && OwnReplies(m, top, issued) ==> OwnReplies(ApplyEnv(digest, m, s, issued, locked), top, issued)
  {
  }

  /** The answer to another command of the session does not carry the awaited tag. */
  lemma OtherTag(digest: seq<Byte> -> nat, m: Miv, c: Cmd, reply: seq<Word>, no: nat, issued: nat)
    requires Answers(digest, m, c, reply) && Recent(c, issued) && !c.Read? && NoOf(c) < no <= issued
    ensures reply != [] && reply[0] != WireTag(no)
  {
    TagsDistinct(NoOf(c), no);
  }

  lemma StepKeepsCrc(digest: seq<Byte> -> nat, m: Miv, s: EnvStep, issued: nat, locked: bool, a: nat, n: nat, no: nat)
    requires CrcExpected(digest, m, a, n, no) && no <= issued
    ensures CrcExpected(digest, ApplyEnv(digest, m, s, issued, locked), a, n, no)
  {
    var r, t := ApplyEnv(digest, m, s, issued, locked), WireTag(no);
    if s.Execute? && m.pending != [] && m.busy {
      var c := m.pending[0];
      if exists i :: 0 <= i < |m.fifo| && Carries(m.fifo[i], t) {
        var i :| 0 <= i < |m.fifo| && Carries(m.fifo[i], t);
        assert TaggedReply(digest, m, m.fifo[i], a, n, no);
        assert !Modifies(c);
      }
      forall i | 0 <= i < |r.pending| && NoOf(r.pending[i]) == no
        ensures LastChangeBefore(r, i) && r.pending[i] == Crc(a, n, no)
      {
        assert r.pending[i] == m.pending[i + 1];
        assert LastChangeBefore(m, i + 1);
        assert forall j :: i < j < |r.pending| ==> r.pending[j] == m.pending[j + 1];
      }
      forall i | 0 <= i < |r.fifo| && Carries(r.fifo[i], t)
        ensures TaggedReply(digest, r, r.fifo[i], a, n, no)
      {
        assert forall j :: 0 <= j < |r.pending| ==> r.pending[j] == m.pending[j + 1];
        if i < |m.fifo| {
          assert TaggedReply(digest, m, m.fifo[i], a, n, no);
        } else {
          if NoOf(c) < no { OtherTag(digest, m, c, s.reply, no, issued); }
          assert NoOf(c) == no && LastChangeBefore(m, 0);
        }
      }
    }
  }

  lemma StepKeepsResult(digest: seq<Byte> -> nat, m: Miv, s: EnvStep, issued: nat, locked: bool, c: Cmd)
    requires ResultExpected(m, c) && NoOf(c) <= issued
    ensures ResultExpected(ApplyEnv(digest, m, s, issued, locked), c)
  {
    var r, no := ApplyEnv(digest, m, s, issued, locked), NoOf(c);
    if s.Execute? && m.pending != [] && m.busy {
      assert forall i :: 0 <= i < |r.pending| ==> r.pending[i] == m.pending[i + 1];
      forall i | 0 <= i < |r.fifo| && Carries(r.fifo[i], TagOf(c))
        ensures r.isNew && r.fifo[i].answers == Some(c) && NotPending(r, no)
      {
        if i < |m.fifo| {
          assert NotPending(m, no);
        } else {
          if NoOf(m.pending[0]) < no { OtherTag(digest, m, m.pending[0], s.reply, no, issued); }
          assert NoOf(m.pending[0]) == no;
        }
      }
    }
  }

  lemma StepKeepsRead(digest: seq<Byte> -> nat, m: Miv, s: EnvStep, issued: nat, locked: bool, a: nat, n: nat,
                      base: nat, seen: seq<Byte>)
    requires ReadExpected(m, a, n, base, seen)
    ensures ReadExpected(ApplyEnv(digest, m, s, issued, locked), a, n, base, seen)
  {
    var r := ApplyEnv(digest, m, s, issued, locked);
    if s.Execute? && m.pending != [] && m.busy && !Mixed(m) {
      assert forall i :: 0 <= i < |r.pending| ==> r.pending[i] == m.pending[i + 1];
      if Modifies(m.pending[0]) { assert m.fifo == [] && seen == []; }
    }
  }

  lemma {:induction false} EnvKeeps(digest: seq<Byte> -> nat, m: Miv, steps: seq<EnvStep>, top: nat, issued: nat,
                                    locked: bool, g: Ledger, x: Expect)
    requires Good(m, g) && Expected(digest, m, x) && Numbered(m, top) && NoAwaited(x) <= issued
    ensures var r := ApplyAll(digest, m, steps, issued, locked);
            && Good(r, g) && Expected(digest, r, x) && Numbered(r, top)
            && (locked && OwnReplies(m, top, issued) ==> OwnReplies(r, top, issued))
    decreases |steps|
  {
    if steps != [] {
      StepKeepsGood(digest, m, steps[0], issued, locked, g);
      StepKeepsNumbers(digest, m, steps[0], top, issued, locked);
      match x {
        case Nothing =>
        case ResultOf(c) => StepKeepsResult(digest, m, steps[0], issued, locked, c);
        case CrcOf(a, n, no) => StepKeepsCrc(digest, m, steps[0], issued, locked, a, n, no);
        case ReadOf(a, n, base, seen) => StepKeepsRead(digest, m, steps[0], issued, locked, a, n, base, seen);
      }
      EnvKeeps(digest, ApplyEnv(digest, m, steps[0], issued, locked), steps[1..], top, issued, locked, g, x);
    }
  }

  /** What the session's own order of reads is worth, with an older MiV: `due` while no answer to its last read was
      seen, `doubt` once it sent a read then. */
  ghost predicate Orderly(m: Miv, due: bool, doubt: bool) {
    !m.isNew && !doubt && !m.disturbed ==> !m.crossed && (due || !AnswerPending(m))
  }

  /** With its last read answered and its FIFO found empty, an older MiV that is in order has nothing to say. */
  ghost predicate Silent(m: Miv, due: bool, doubt: bool) {
    !m.isNew && !doubt && !m.disturbed && !due ==> m.fifo == []
  }

  lemma OrderStep(digest: seq<Byte> -> nat, m: Miv, s: EnvStep, issued: nat, locked: bool)
    ensures var r := ApplyEnv(digest, m, s, issued, locked);
            && (m.disturbed ==> r.disturbed) && (AnswerPending(r) ==> AnswerPending(m))
            && (locked && !m.isNew && !AnswerPending(m) && m.fifo == [] ==> r.fifo == [])
  {
    var r := ApplyEnv(digest, m, s, issued, locked);
    if s.Execute? && m.pending != [] && m.busy {
      assert forall i :: 0 <= i < |r.pending| ==> r.pending[i] == m.pending[i + 1];
    }
  }

  lemma {:induction false} OrderStays(digest: seq<Byte> -> nat, m: Miv, steps: seq<EnvStep>, issued: nat, locked: bool,
                                      due: bool, doubt: bool)
    requires Orderly(m, due, doubt)
    ensures var r := ApplyAll(digest, m, steps, issued, locked);
            Orderly(r, due, doubt) && (locked && Silent(m, due, doubt) ==> Silent(r, due, doubt))
    decreases |steps|
  {
    hide ApplyEnv, AnswerPending;
    if steps != [] {
      OrderStep(digest, m, steps[0], issued, locked);
      OrderStays(digest, ApplyEnv(digest, m, steps[0], issued, locked), steps[1..], issued, locked, due, doubt);
    }
  }

  lemma WriteInOrder(m: Miv, c: Cmd, arrives: bool, due: bool, doubt: bool)
    requires Orderly(m, due, doubt) && Silent(m, due, doubt)
    ensures Orderly(Written(m, c, arrives), due || c.Read?, doubt || (c.Read? && due))
  {
    var w := Written(m, c, arrives);
    if !m.isNew && !c.Read? && AnswerPending(w) {
      var i :| 0 <= i < |w.pending| && Answered(false, w.pending[i]);
      assert i < |m.pending| && m.pending[i] == w.pending[i];
    }
  }

  // ---------------------------------------------------------------- what the session does

  /** REG_DONE: bit 15 set, or 0 when nothing was run since the restart. */
  predicate LooksIdle(done: Word) {
    done == 0 || done >= 0x8000
  }

  function WordCount(fifo: seq<Reply>): nat {
    if fifo == [] then 0 else |fifo[0].words| + WordCount(fifo[1..])
  }

  /** REG_COUNT: 0 for an empty FIFO, else the number of words plus 4. */
  function CountOf(fifo: seq<Reply>): Word {
    var n := WordCount(fifo);
    if n == 0 then 0 else if n + 4 < 2047 then n + 4 else 2047
  }

  function CountRegister(m: Miv): Word {
    CountOf(m.fifo)
  }

  /** The replies a block read of n words takes off the FIFO. */
  function WholeReplies(fifo: seq<Reply>, n: nat): (k: nat)
    ensures k <= |fifo|
  {
    if fifo == [] || |fifo[0].words| > n then 0 else 1 + WholeReplies(fifo[1..], n - |fifo[0].words|)
  }

  function Flat(fifo: seq<Reply>): seq<Word> {
    if fifo == [] then [] else fifo[0].words + Flat(fifo[1..])
  }

  /** A command is written to the ROC; it may get lost on the way. A read is mixed up with others if an answer is in
      the FIFO or still to come. */
  function Written(m: Miv, c: Cmd, arrives: bool): Miv {
    m.(pending := if arrives then m.pending + [c] else m.pending,
       awaited := NoOf(c),
       reading := c.Read?,
       crossed := m.crossed || (c.Read? && (m.fifo != [] || AnswerPending(m))))
  }

  /** The number is the last one given out and new to this ROC, whose FIFO shows only own, recent replies. */
  ghost predicate FreshNumber(m: Miv, no: nat, top: nat, issued: nat) {
    no != 0 ==> top < no == issued && Numbered(m, top) && OwnReplies(m, top, issued)
  }

  /** Nothing in the FIFO carries the tag of a fresh number. */
  lemma FreshTag(m: Miv, no: nat, top: nat, issued: nat)
    requires no != 0 && FreshNumber(m, no, top, issued) && forall i :: 0 <= i < |m.fifo| ==> !FromRead(m.fifo[i])
    ensures forall i :: 0 <= i < |m.fifo| ==> !Carries(m.fifo[i], WireTag(no))
  {
    forall i | 0 <= i < |m.fifo| ensures !Carries(m.fifo[i], WireTag(no)) {
      assert OwnReply(m.fifo[i], top, issued);
      TagsDistinct(NoOf(m.fifo[i].answers.value), no);
    }
  }

  /** Which expectation a command may raise. */
  ghost predicate Raises(m: Miv, g: Ledger, c: Cmd, x: Expect) {
    match x
    case Nothing => true
    case ResultOf(d) => c == d && Modifies(c) && NoOf(c) != 0 && !g.readSent
    case CrcOf(a, n, no) => c == Crc(a, n, no) && no != 0 && a + n <= |m.flash| && !g.readSent
    case ReadOf(a, n, base, seen) =>
      && c == Read(a, n) && n > 0 && n % 2 == 0 && m.cap % 2 == 0 && a + n <= |m.flash| && base + |seen| <= |m.flash|
      && (!Mixed(m) && seen != [] ==> NoChangePending(m) && m.flash[base..base + |seen|] == seen)
  }

  function Noted(g: Ledger, c: Cmd): Ledger {
    if c.Read? then g.(readSent := true) else g
  }

  lemma WriteKeepsGood(m: Miv, g: Ledger, c: Cmd, arrives: bool)
    requires Good(m, g) && Confined(c, m.isNew, g)
    ensures Good(Written(m, c, arrives), Noted(g, c))
  {
  }

  lemma WriteRaises(digest: seq<Byte> -> nat, m: Miv, g: Ledger, c: Cmd, x: Expect, arrives: bool, top: nat, issued: nat)
    requires Good(m, g) && Raises(m, g, c, x) && FreshNumber(m, NoOf(c), top, issued)
    ensures Expected(digest, Written(m, c, arrives), x)
  {
    var w := Written(m, c, arrives);
    if x.CrcOf? {
      FreshTag(m, x.no, top, issued);
      forall i | 0 <= i < |w.pending| && NoOf(w.pending[i]) == x.no ensures LastChangeBefore(w, i) && w.pending[i] == c {
        assert i == |m.pending|;
      }
    } else if x.ResultOf? {
      FreshTag(m, NoOf(c), top, issued);
    } else if x.ReadOf? {
      if !Mixed(w) { assert forall i :: 0 <= i < |m.pending| ==> !Answered(m.isNew, m.pending[i]); }
    }
  }

  /** What a successful block read tells, depending on what was expected. */
  ghost predicate Told(digest: seq<Byte> -> nat, m: Miv, x: Expect, words: seq<Word>) {
    match x
    case Nothing => true
    case ResultOf(c) => |words| == 3 && words[0] == TagOf(c) ==> m.isNew && NotPending(m, NoOf(c))
    case CrcOf(a, n, no) =>
      |words| == 4 && words[0] == WireTag(no) ==>
        && m.isNew && NoChangePending(m) && a + n <= |m.flash|
        && (words[3] == 0 ==> U32(words[1], words[2]) == digest(m.flash[a..a + n]))
    case ReadOf(a, n, base, seen) =>
      |words| == n / 2 ==>
        && n % 2 == 0 && a + n <= |m.flash|
        && (!Mixed(m) ==> NoChangePending(m) && words == WordsOf(m.flash, a, n))
  }

  lemma BlockReadTells(digest: seq<Byte> -> nat, m: Miv, g: Ledger, x: Expect, n: nat)
    requires Good(m, g) && Expected(digest, m, x)
    ensures var k := WholeReplies(m.fifo, n);
            Told(digest, m, x, Flat(m.fifo[..k]))
  {
    var k := WholeReplies(m.fifo, n);
    if k > 0 {
      var first, rest := m.fifo[0], m.fifo[..k][1..];
      assert Flat(m.fifo[..k]) == first.words + Flat(rest);
      assert first.words != [];
      if |rest| > 0 {
        assert rest[0] == m.fifo[1];
        assert Flat(rest) == rest[0].words + Flat(rest[1..]);
      }
      if x.CrcOf? && Carries(first, WireTag(x.no)) {
        assert TaggedReply(digest, m, first, x.addr, x.bytes, x.no);
      }
    }
  }

  lemma DropKeeps(digest: seq<Byte> -> nat, m: Miv, g: Ledger, x: Expect, top: nat, k: nat)
    requires Good(m, g) && Expected(digest, m, x) && Numbered(m, top) && k <= |m.fifo|
    ensures var d := m.(fifo := m.fifo[k..]); Good(d, g) && Expected(digest, d, x) && Numbered(d, top)
  {
    var d := m.(fifo := m.fifo[k..]);
    assert NoChangePending(m) ==> NoChangePending(d);
    assert forall i :: 0 <= i < |d.fifo| ==> d.fifo[i] == m.fifo[i + k];
    if x.CrcOf? {
      forall i | 0 <= i < |d.fifo| && Carries(d.fifo[i], WireTag(x.no))
        ensures TaggedReply(digest, d, d.fifo[i], x.addr, x.bytes, x.no)
      {
        assert TaggedReply(digest, m, m.fifo[i + k], x.addr, x.bytes, x.no);
      }
      forall i | 0 <= i < |d.pending| && NoOf(d.pending[i]) == x.no ensures LastChangeBefore(d, i) {
        assert LastChangeBefore(m, i);
      }
    }
  }

  /** Moving the verified part up to what the flash holds: allowed when no change is under way. */
  function Advanced(g: Ledger, flash: seq<Byte>, to: nat): Ledger
    requires g.start <= to <= |flash|
  {
    g.(lo := to, held := flash[g.start..to])
  }

  lemma AdvanceKeeps(m: Miv, g: Ledger, to: nat)
    requires Good(m, g) && NoChangePending(m) && !Mixed(m) && g.lo <= to <= g.end
    ensures Good(m, Advanced(g, m.flash, to))
    ensures Advanced(g, m.flash, to).held[..|g.held|] == g.held
  {
  }
}
