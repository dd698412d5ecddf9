/** The 16-bit tags of the session's commands and the numbers behind them. */
module FlashTags {
  import opened Basics

  /** The next tag: 16 bits, never 0. */
  function NextTagOf(tag: Word): (r: Word)
    ensures r != 0
  {
    if tag == 65535 then 1 else tag + 1
  }

  /** The tag of the session's tagged command number `no`, counted from 1; 0 goes with a command without tag. */
  function WireTag(no: nat): Word {
    if no == 0 then 0 else NextTagOf(WireTag(no - 1))
  }

  lemma NextNumber(no: nat)
    ensures WireTag(no + 1) == NextTagOf(WireTag(no))
  {
  }

  lemma Wraps(y: nat)
    ensures (y + 1) % 65535 == if y % 65535 == 65534 then 0 else y % 65535 + 1
  {
  }

  lemma {:induction false} WireTagIs(no: nat)
    ensures WireTag(no) == if no == 0 then 0 else (no - 1) % 65535 + 1
    decreases no
  {
    if no > 1 {
      WireTagIs(no - 1);
      Wraps(no - 2);
    }
  }

  /** Of any 65535 consecutive tags no two are equal and none is 0. */
  lemma TagsDistinct(i: nat, j: nat)
    requires 0 < i < j < i + 65535
    ensures WireTag(i) != 0 && WireTag(i) != WireTag(j)
  {
    WireTagIs(i);
    WireTagIs(j);
    var x, d := i - 1, j - i;
    if x % 65535 == (x + d) % 65535 {
      assert d == 65535 * ((x + d) / 65535 - x / 65535);
    }
  }

  /** And the 65536th is the first again. */
  lemma TagsRepeat(i: nat)
    requires 0 < i
    ensures WireTag(i + 65535) == WireTag(i) != 0
  {
    WireTagIs(i);
    WireTagIs(i + 65535);
  }
}
