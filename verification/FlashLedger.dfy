/** What the session knows of each ROC while the world behind the links moves on. */
module FlashLedger {
  import opened Basics
  import opened FlashTags
  import opened FlashWorld

  type RocId = nat

  /** What may change in the flash of a ROC, the reply the session waits for, the erase, write and IAP commands
      written so far (without their tags; one that met a communication error may not have arrived), the number of the
      last tagged command, whether an answer to the last read is still due, and whether a read was ever sent while
      one was. */
  datatype Known = Known(ledger: Ledger, hope: Expect, acts: seq<Cmd>, top: nat, due: bool, doubt: bool)

  predicate Acts(c: Cmd) {
    c.Erase? || c.Write? || c.Iap?
  }

  function Untagged(c: Cmd): Cmd {
    match c
    case Erase(a, n, _) => Erase(a, n, 0)
    case Write(a, ws, _) => Write(a, ws, 0)
    case _ => c
  }

  /** What is known after command c was written. */
  function Wrote(k: Known, c: Cmd, want: Expect): Known {
    Known(Noted(k.ledger, c), want, if Acts(c) then k.acts + [Untagged(c)] else k.acts,
          if NoOf(c) != 0 then NoOf(c) else k.top, k.due || c.Read?, k.doubt || (c.Read? && k.due))
  }

  ghost predicate LinkFine(digest: seq<Byte> -> nat, isNew: bool, issued: nat, m: Miv, k: Known) {
    && m.isNew == isNew
    && |m.flash| == FLASH_SIZE
    && Good(m, k.ledger)
    && Expected(digest, m, k.hope)
    && Numbered(m, k.top) && k.top <= issued && NoAwaited(k.hope) <= issued
    && Orderly(m, k.due, k.doubt)
  }

  ghost predicate AllFine(digest: seq<Byte> -> nat, isNew: set<RocId>, issued: nat, mivs: map<RocId, Miv>,
                          known: map<RocId, Known>)
  {
    && mivs.Keys == known.Keys
    && forall r :: r in mivs ==> LinkFine(digest, r in isNew, issued, mivs[r], known[r])
  }

  lemma OneFine(digest: seq<Byte> -> nat, isNew: set<RocId>, issued: nat, mivs: map<RocId, Miv>,
                known: map<RocId, Known>, r: RocId)
    requires AllFine(digest, isNew, issued, mivs, known)
    ensures r in mivs <==> r in known
    ensures r in mivs ==> LinkFine(digest, r in isNew, issued, mivs[r], known[r])
  {
  }

  /** Replacing what belongs to one ROC. */
  lemma SetOneFine(digest: seq<Byte> -> nat, isNew: set<RocId>, issued: nat, mivs: map<RocId, Miv>,
                   known: map<RocId, Known>, r: RocId, m: Miv, k: Known)
    requires AllFine(digest, isNew, issued, mivs, known) && r in mivs
    requires LinkFine(digest, r in isNew, issued, m, k)
    ensures AllFine(digest, isNew, issued, mivs[r := m], known[r := k])
  {
  }

  /** Giving out another tag changes nothing. */
  lemma IssueFine(digest: seq<Byte> -> nat, isNew: set<RocId>, issued: nat, mivs: map<RocId, Miv>,
                  known: map<RocId, Known>)
    requires AllFine(digest, isNew, issued, mivs, known)
    ensures AllFine(digest, isNew, issued + 1, mivs, known)
    ensures forall r :: r in known ==> known[r].top <= issued
  {
    forall r | r in mivs ensures LinkFine(digest, r in isNew, issued + 1, mivs[r], known[r]) && known[r].top <= issued {
      assert LinkFine(digest, r in isNew, issued, mivs[r], known[r]);
    }
  }

  // ---------------------------------------------------------------- the world moves on

  function PassAll(digest: seq<Byte> -> nat, mivs: map<RocId, Miv>, script: map<RocId, seq<EnvStep>>, issued: nat,
                   locked: bool)
    : (after: map<RocId, Miv>)
    ensures after.Keys == mivs.Keys
  {
    map r | r in mivs :: ApplyAll(digest, mivs[r], if r in script then script[r] else [], issued, locked)
  }

  /** The FIFO shows only own, recent replies, or none at all: so after it was found empty, as long as the lock is
      held. */
  ghost predicate OwnFifo(m: Miv, k: Known, issued: nat) {
    OwnReplies(m, k.top, issued) && Silent(m, k.due, k.doubt)
  }

  /** Whatever happens on its own keeps all that is known. */
  lemma PassKeeps(digest: seq<Byte> -> nat, isNew: set<RocId>, mivs: map<RocId, Miv>, known: map<RocId, Known>,
                  script: map<RocId, seq<EnvStep>>, issued: nat, locked: bool)
    requires AllFine(digest, isNew, issued, mivs, known)
    ensures AllFine(digest, isNew, issued, PassAll(digest, mivs, script, issued, locked), known)
    ensures locked ==> forall r :: r in mivs && r in known && OwnFifo(mivs[r], known[r], issued) ==>
                         OwnFifo(PassAll(digest, mivs, script, issued, locked)[r], known[r], issued)
  {
    var after := PassAll(digest, mivs, script, issued, locked);
    forall r | r in mivs
      ensures LinkFine(digest, r in isNew, issued, after[r], known[r])
      ensures locked && OwnFifo(mivs[r], known[r], issued) ==> OwnFifo(after[r], known[r], issued)
    {
      var m, k, steps := mivs[r], known[r], if r in script then script[r] else [];
      assert LinkFine(digest, r in isNew, issued, m, k);
      EnvKeeps(digest, m, steps, k.top, issued, locked, k.ledger, k.hope);
      OrderStays(digest, m, steps, issued, locked, k.due, k.doubt);
    }
  }

  // ---------------------------------------------------------------- sending and reading

  /** May this reply be awaited for a command sent at the next idle moment? */
  ghost predicate MayRaise(k: Known, c: Cmd, want: Expect) {
    match want
    case Nothing => true
    case ResultOf(d) => c == d && Modifies(c) && NoOf(c) != 0 && !k.ledger.readSent
    case CrcOf(a, n, no) => c == Crc(a, n, no) && no != 0 && a + n <= FLASH_SIZE && !k.ledger.readSent
    case ReadOf(a, n, base, seen) =>
      && c == Read(a, n) && n > 0 && n % 2 == 0 && a + n <= FLASH_SIZE && base <= FLASH_SIZE
      && (seen == [] || (k.hope.ReadOf? && k.hope.base == base && k.hope.seen == seen))
  }

  /** A tagged command has the last number given out, and this ROC has not had it before. */
  predicate NewNumber(k: Known, c: Cmd, issued: nat) {
    NoOf(c) != 0 ==> k.top < NoOf(c) == issued
  }

  lemma WriteFine(digest: seq<Byte> -> nat, isNew: bool, issued: nat, m: Miv, k: Known, c: Cmd, want: Expect,
                  arrives: bool)
    requires LinkFine(digest, isNew, issued, m, k) && Confined(c, isNew, k.ledger) && MayRaise(k, c, want)
    requires NewNumber(k, c, issued) && OwnFifo(m, k, issued)
    ensures LinkFine(digest, isNew, issued, Written(m, c, arrives), Wrote(k, c, want))
  {
    assert Raises(m, k.ledger, c, want);
    WriteKeepsGood(m, k.ledger, c, arrives);
    WriteInOrder(m, c, arrives, k.due, k.doubt);
    WriteRaises(digest, m, k.ledger, c, want, arrives, k.top, issued);
  }

  lemma EmptyIsOwn(digest: seq<Byte> -> nat, isNew: bool, issued: nat, m: Miv, k: Known)
    requires LinkFine(digest, isNew, issued, m, k) && CountRegister(m) == 0
    ensures m.fifo == [] && OwnFifo(m, k, issued)
  {
  }

  /** A reply is there: so the read, if nothing was mixed up, has been answered. */
  lemma AnswerSeen(digest: seq<Byte> -> nat, isNew: bool, issued: nat, m: Miv, k: Known)
    requires LinkFine(digest, isNew, issued, m, k) && k.hope.ReadOf? && CountRegister(m) != 0
    ensures LinkFine(digest, isNew, issued, m, k.(due := false))
  {
    assert m.fifo != [];
    assert ReadExpected(m, k.hope.addr, k.hope.bytes, k.hope.base, k.hope.seen);
  }

  function Dropped(m: Miv, k: nat): Miv
    requires k <= |m.fifo|
  {
    m.(fifo := m.fifo[k..])
  }

  lemma ReadFine(digest: seq<Byte> -> nat, isNew: bool, issued: nat, m: Miv, k: Known, n: nat, gone: nat)
    requires LinkFine(digest, isNew, issued, m, k) && gone <= |m.fifo|
    ensures LinkFine(digest, isNew, issued, Dropped(m, gone), k)
    ensures Told(digest, Dropped(m, gone), k.hope, Flat(m.fifo[..WholeReplies(m.fifo, n)]))
  {
    BlockReadTells(digest, m, k.ledger, k.hope, n);
    DropKeeps(digest, m, k.ledger, k.hope, k.top, gone);
    assert NoChangePending(m) ==> NoChangePending(Dropped(m, gone));
    if k.hope.ResultOf? {
      assert NotPending(m, NoOf(k.hope.c)) ==> NotPending(Dropped(m, gone), NoOf(k.hope.c));
    }
  }

  // ---------------------------------------------------------------- verified content

  /** Flash [addr, addr+n) is below the verified limit and has this digest. */
  predicate Certified(digest: seq<Byte> -> nat, g: Ledger, addr: nat, n: nat, want: nat) {
    && Sane(g) && g.start <= addr && addr + n <= g.lo
    && digest(g.held[addr - g.start..addr - g.start + n]) == want
  }

  /** g1 is g0 with the verified limit moved up to `to`. */
  predicate MovedUp(g0: Ledger, g1: Ledger, to: nat) {
    && g1 == g0.(lo := g1.lo, held := g1.held)
    && Sane(g0) && Sane(g1)
    && g1.lo == (if to > g0.lo then to else g0.lo)
    && g1.held[..|g0.held|] == g0.held
  }

  function Raised(g: Ledger, m: Miv, to: nat): Ledger
    requires g.start <= to <= |m.flash|
  {
    if to > g.lo then Advanced(g, m.flash, to) else g
  }

  lemma SliceOfSlice<T>(s: seq<T>, a: nat, b: nat, from: nat, to: nat)
    requires a <= from <= to <= b <= |s|
    ensures s[a..b][from - a..to - a] == s[from..to]
  {
    var x, y := s[a..b][from - a..to - a], s[from..to];
    assert |x| == |y|;
    forall j | 0 <= j < |x| ensures x[j] == y[j] {
      assert x[j] == s[a..b][from - a + j];
    }
  }

  lemma RaiseFine(digest: seq<Byte> -> nat, isNew: bool, issued: nat, m: Miv, k: Known, addr: nat, n: nat)
    requires LinkFine(digest, isNew, issued, m, k) && NoChangePending(m) && !k.ledger.readSent
    requires k.ledger.start <= addr <= k.ledger.lo && addr + n <= k.ledger.end
    ensures var g := Raised(k.ledger, m, addr + n);
            && LinkFine(digest, isNew, issued, m, k.(ledger := g))
            && MovedUp(k.ledger, g, addr + n)
            && Certified(digest, g, addr, n, digest(m.flash[addr..addr + n]))
  {
    var g0 := k.ledger;
    var g := Raised(g0, m, addr + n);
    if addr + n > g0.lo { AdvanceKeeps(m, g0, addr + n); }
    SliceOfSlice(m.flash, g.start, g.lo, addr, addr + n);
    assert g.held == m.flash[g.start..g.lo];
    assert addr - g.start + n == addr + n - g.start;
  }

  /** The CRC of this range is awaited with this tag. */
  predicate AwaitsCrc(x: Expect, addr: nat, n: nat, t: Word) {
    x.CrcOf? && x.addr == addr && x.bytes == n && WireTag(x.no) == t
  }

  predicate AwaitsResult(x: Expect, c: Cmd, t: Word) {
    x.ResultOf? && Untagged(x.c) == Untagged(c) && TagOf(x.c) == t
  }

  predicate Awaits(x: Expect, addr: nat, n: nat) {
    x.ReadOf? && x.addr == addr && x.bytes == n && x.addr == x.base + |x.seen|
  }

  function SeenMore(k: Known, piece: seq<Byte>): Known {
    if k.hope.ReadOf? then k.(hope := k.hope.(seen := k.hope.seen + piece)) else k
  }

  /** A piece that was read back joins the ones before it. */
  lemma SeenFine(digest: seq<Byte> -> nat, isNew: bool, issued: nat, m: Miv, k: Known, image: seq<Byte>, off: nat)
    requires LinkFine(digest, isNew, issued, m, k) && k.hope.ReadOf? && k.hope.addr == k.hope.base + |k.hope.seen|
    requires off + k.hope.bytes <= |image|
    requires !Mixed(m) ==> NoChangePending(m) && WordsOf(m.flash, k.hope.addr, k.hope.bytes) == WordsOf(image, off,
                                                                                                      k.hope.bytes)
    ensures LinkFine(digest, isNew, issued, m, SeenMore(k, image[off..off + k.hope.bytes]))
  {
    if !Mixed(m) { WordsDecide(m.flash, k.hope.addr, image, off, k.hope.bytes); }
  }

  /** The limit moved up over content that was read back. */
  function Shown(g: Ledger, content: seq<Byte>): Ledger {
    g.(lo := g.lo + |content|, held := g.held + content)
  }

  /** All pieces read back: the limit moves up over them. */
  lemma SeenRaises(digest: seq<Byte> -> nat, isNew: bool, issued: nat, m: Miv, k: Known)
    requires LinkFine(digest, isNew, issued, m, k) && k.hope.ReadOf? && k.hope.base == k.ledger.lo
    requires k.ledger.lo + |k.hope.seen| <= k.ledger.end && k.hope.seen != []
    ensures LinkFine(digest, isNew, issued, m, k.(ledger := Shown(k.ledger, k.hope.seen)))
    ensures MovedUp(k.ledger, Shown(k.ledger, k.hope.seen), k.ledger.lo + |k.hope.seen|)
  {
    var g := Shown(k.ledger, k.hope.seen);
    assert g.held[..|k.ledger.held|] == k.ledger.held;
    ShownKeeps(m, k.ledger, k.hope.seen);
    assert ReadExpected(m, k.hope.addr, k.hope.bytes, k.hope.base, k.hope.seen);
  }

  lemma ShownKeeps(m: Miv, g: Ledger, seen: seq<Byte>)
    requires Good(m, g) && g.lo + |seen| <= g.end
    requires !Mixed(m) ==> NoChangePending(m) && m.flash[g.lo..g.lo + |seen|] == seen
    ensures g.start <= g.lo && Good(m, Shown(g, seen))
  {
    if !Mixed(m) {
      assert m.flash[g.start..g.lo + |seen|] == m.flash[g.start..g.lo] + m.flash[g.lo..g.lo + |seen|];
    }
  }
}
