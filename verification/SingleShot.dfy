/** Splitting a single-shot join into chunks, and what each chunk writes. */
module SingleShot {
  import opened ModeBits
  import opened SharedPlan
  import opened DutyRatio
  import opened PlanGenerator
  import opened PlanControl

  /** level 0: `count` single shots in fine slots; else one single shot at the head of a coarse loop. */
  datatype Chunk = Chunk(count: nat, level: nat)

  function Total(chunks: seq<Chunk>): nat {
    if chunks == [] then 0 else Total(chunks[..|chunks| - 1]) + chunks[|chunks| - 1].count
  }

  lemma {:induction false} TotalFromFront(chunks: seq<Chunk>)
    requires chunks != []
    ensures Total(chunks) == chunks[0].count + Total(chunks[1..])
    decreases |chunks|
  {
    var n := |chunks| - 1;
    if n == 0 {
      assert chunks[..0] == [] && chunks[1..] == [];
    } else {
      TotalFromFront(chunks[..n]);
      assert chunks[..n][1..] == chunks[1..][..n - 1];
    }
  }

  /** The largest coarse loop, of level l at most, that fits into what remains; 0 if none does. */
  function BestLevel(v: seq<nat>, remaining: nat, l: nat): (best: nat)
    requires l < |v|
    ensures best <= l && (best > 0 ==> v[best] <= remaining)
    ensures forall k: nat :: best < k <= l ==> remaining < v[k]
  {
    if l == 0 || v[l] <= remaining then l else BestLevel(v, remaining, l - 1)
  }

  /** Coarse loops are for full duty only; else as many shots as there are active slots in one pass. */
  function NextChunk(v: seq<nat>, full: bool, active: nat, remaining: nat): Chunk
    requires |v| >= 1
  {
    var l := if full then BestLevel(v, remaining, Top(v)) else 0;
    if l > 0 then Chunk(v[l], l) else Chunk(if remaining > active then active else remaining, 0)
  }

  /** The schedule of a count: the largest chunk first, again and again. */
  function Greedy(v: seq<nat>, full: bool, active: nat, remaining: nat): seq<Chunk>
    requires Ladder(v) && active > 0
    decreases remaining
  {
    if remaining == 0 then []
    else
      var c := NextChunk(v, full, active, remaining);
      assert c.level > 0 ==> Rung(v, c.level);
      [c] + Greedy(v, full, active, remaining - c.count)
  }

  /** A coarse chunk covers one whole loop and needs full duty; a fine chunk has at least one and at most
      as many shots as there are active slots. */
  predicate Sound(v: seq<nat>, full: bool, active: nat, c: Chunk)
    requires Ladder(v)
  {
    if c.level > 0 then full && c.level <= Top(v) && c.count == v[c.level]
    else 1 <= c.count <= active
  }

  /** Largest loops first: once a fine chunk was chosen, no coarse one follows. */
  ghost predicate Descending(chunks: seq<Chunk>) {
    forall i, j :: 0 <= i < j < |chunks| ==> chunks[j].level <= chunks[i].level
  }

  lemma GreedyStep(v: seq<nat>, full: bool, active: nat, count: nat) returns (c: Chunk, rest: nat)
    requires Ladder(v) && active > 0 && count > 0
    ensures c == NextChunk(v, full, active, count) && Sound(v, full, active, c)
    ensures 0 < c.count <= count && rest == count - c.count
    ensures Greedy(v, full, active, count) == [c] + Greedy(v, full, active, rest)
    ensures rest > 0 ==> Greedy(v, full, active, rest)[0] == NextChunk(v, full, active, rest)
    ensures rest == 0 ==> Greedy(v, full, active, rest) == []
  {
    c := NextChunk(v, full, active, count);
    assert c.level > 0 ==> Rung(v, c.level);
    rest := count - c.count;
  }

  lemma DescendsFrom(c: Chunk, chunks: seq<Chunk>)
    requires Descending(chunks) && (chunks != [] ==> chunks[0].level <= c.level)
    ensures Descending([c] + chunks)
  {
  }

  /** The schedule adds up to the count, and its chunks can be executed. */
  lemma {:induction false} GreedyFits(v: seq<nat>, full: bool, active: nat, remaining: nat)
    requires Ladder(v) && active > 0
    ensures var chunks := Greedy(v, full, active, remaining);
            && Total(chunks) == remaining
            && (forall i :: 0 <= i < |chunks| ==> Sound(v, full, active, chunks[i]))
            && Descending(chunks)
    decreases remaining
  {
    if remaining > 0 {
      var c, rest := GreedyStep(v, full, active, remaining);
      hide Greedy, NextChunk, Sound, Ladder, Total, Descending;
      GreedyFits(v, full, active, rest);
      var more := Greedy(v, full, active, rest);
      TotalFromFront([c] + more);
      assert ([c] + more)[1..] == more;
      LevelFalls(v, full, active, remaining, rest);
      DescendsFrom(c, more);
    }
  }

  /** Less remaining, no larger loop. */
  lemma LevelFalls(v: seq<nat>, full: bool, active: nat, more: nat, less: nat)
    requires |v| >= 1 && less <= more
    ensures NextChunk(v, full, active, less).level <= NextChunk(v, full, active, more).level
  {
  }

  // ---------------------------------------------------------------- schedules that never step down

  /** A coarse chunk is followed by one of a lower coarse level. */
  predicate StepsDown(chunks: seq<Chunk>, i: nat) {
    i + 1 < |chunks| && chunks[i].level > chunks[i + 1].level > 0
  }

  ghost predicate Level(chunks: seq<Chunk>) {
    forall i: nat :: !StepsDown(chunks, i)
  }

  /** What remains of the count after the largest loop that fits, as often as it fits, is less than any coarse loop. */
  predicate OneLevelEnough(v: seq<nat>, full: bool, count: nat)
    requires Ladder(v)
  {
    var l := BestLevel(v, count, Top(v));
    assert l > 0 ==> Rung(v, l);
    full && l > 0 ==> count % v[l] < v[1]
  }

  lemma LevelFromFront(c: Chunk, chunks: seq<Chunk>)
    ensures Level([c] + chunks) <==> Level(chunks) && (chunks != [] ==> !(c.level > chunks[0].level > 0))
  {
    var all := [c] + chunks;
    if Level(all) {
      forall i: nat ensures !StepsDown(chunks, i) { assert !StepsDown(all, i + 1); }
      assert !StepsDown(all, 0);
    }
    if Level(chunks) && (chunks != [] ==> !(c.level > chunks[0].level > 0)) {
      forall i: nat ensures !StepsDown(all, i) { if i > 0 { assert !StepsDown(chunks, i - 1); } }
    }
  }

  lemma ModOnce(x: nat, d: nat)
    requires 0 < d <= x
    ensures (x - d) % d == x % d
  {
    DivModUnique(x, d, (x - d) / d + 1, (x - d) % d);
  }

  lemma ModNone(x: nat, d: nat)
    requires x < d
    ensures x % d == x
  {
  }

  /** The schedule of a count never steps down between coarse levels exactly if one level is enough. */
  lemma {:induction false} GreedyIsLevel(v: seq<nat>, full: bool, active: nat, count: nat)
    requires Ladder(v) && active > 0
    ensures Level(Greedy(v, full, active, count)) <==> OneLevelEnough(v, full, count)
    decreases count
  {
    if count == 0 {
      NothingIsLevel(v, full, active);
    } else {
      var c, rest := GreedyStep(v, full, active, count);
      LevelFalls(v, full, active, count, rest);
      hide Greedy, Ladder, Level;
      GreedyIsLevel(v, full, active, rest);
      LevelFromFront(c, Greedy(v, full, active, rest));
      NothingIsLevel(v, full, active);
      if c.level > 0 {
        OneLevelNext(v, count, rest, c.level);
      }
    }
  }

  lemma NothingIsLevel(v: seq<nat>, full: bool, active: nat)
    requires Ladder(v) && active > 0
    ensures Level(Greedy(v, full, active, 0)) && OneLevelEnough(v, full, 0) && BestLevel(v, 0, Top(v)) == 0
  {
    var l := BestLevel(v, 0, Top(v));
    assert l > 0 ==> Rung(v, l);
  }

  /** After a chunk of level l one level is still enough, and the next chunk is of that level or a fine one. */
  lemma OneLevelNext(v: seq<nat>, count: nat, rest: nat, l: nat)
    requires Ladder(v) && 1 <= l <= Top(v) && l == BestLevel(v, count, Top(v)) && rest == count - v[l]
    ensures var k := BestLevel(v, rest, Top(v));
            OneLevelEnough(v, true, count) <==> OneLevelEnough(v, true, rest) && (k == l || k == 0)
  {
    var k := BestLevel(v, rest, Top(v));
    assert Rung(v, l) && Rung(v, 1);
    ModOnce(count, v[l]);
    if v[l] <= rest {
      assert k == l;
    } else {
      ModNone(rest, v[l]);
      if 0 < k && k > 1 { Ascends(v, 1, k); }
    }
  }

  /** The fine slots that are on in one pass: the first M of every N. */
  method ActiveSlots(v: seq<nat>, duty: Duty) returns (slots: seq<nat>)
    requires Ladder(v) && 0 < duty.n <= v[0]
    ensures forall i: nat :: i in slots <==> i < v[0] && i % duty.n < duty.m
    ensures forall j, k :: 0 <= j < k < |slots| ==> slots[j] < slots[k]
    ensures duty.n <= duty.m ==> |slots| == v[0]
  {
    slots := [];
    for i := 0 to v[0]
      invariant forall k: nat :: k in slots <==> k < i && k % duty.n < duty.m
      invariant forall j, k :: 0 <= j < k < |slots| ==> slots[j] < slots[k]
      invariant duty.n <= duty.m ==> |slots| == i
    {
      var finePhase, subFinePhase := i, if duty.n > 0 then i % duty.n else 0;
      if duty.n == v[0] { ModNone(i, v[0]); }
      if (duty.n == v[0] && finePhase < duty.m) || (duty.n < v[0] && subFinePhase < duty.m) {
        assert forall j :: 0 <= j < |slots| ==> slots[j] in slots;
        slots := slots + [i];
      }
    }
  }

  lemma NothingLeft(v: seq<nat>, full: bool, active: nat)
    requires Ladder(v) && active > 0
    ensures Greedy(v, full, active, 0) == []
  {
  }

  /** The chunks of a requested count. */
  method Decompose(v: seq<nat>, full: bool, active: nat, count: nat) returns (chunks: seq<Chunk>)
    requires Ladder(v) && active > 0
    ensures chunks == Greedy(v, full, active, count)
  {
    hide Greedy, Sound;
    chunks := [];
    var remaining := count;
    NothingLeft(v, full, active);
    while remaining > 0
      invariant 0 <= remaining <= count
      invariant chunks + Greedy(v, full, active, remaining) == Greedy(v, full, active, count)
    {
      var chunk := remaining;
      var coarse := 0;
      if full {
        var l := Top(v);
        while l > 0
          invariant 0 <= l <= Top(v)
          invariant coarse == 0 && chunk == remaining
          invariant BestLevel(v, remaining, Top(v)) == BestLevel(v, remaining, l)
        {
          if v[l] <= remaining {
            chunk := v[l];
            coarse := l;
            break;
          }
          l := l - 1;
        }
      }
      if coarse == 0 && chunk > active {
        chunk := active;
      }
      ghost var c, rest := GreedyStep(v, full, active, remaining);
      assert c == Chunk(chunk, coarse);
      assert chunks + ([c] + Greedy(v, full, active, rest)) == chunks + [c] + Greedy(v, full, active, rest);
      chunks := chunks + [Chunk(chunk, coarse)];
      remaining := remaining - chunk;
    }
  }

  // ---------------------------------------------------------------- what a chunk writes

  /** The operands of a chunk; `armed` is false for its preparation plan. A coarse chunk keeps the bits at
      every AND but the closing one of its loop; a fine chunk clears them at every AND. */
  function ChunkGiven(v: seq<nat>, prev: Operands, bits: Mask, slots: seq<nat>, c: Chunk, armed: bool): (x: Operands)
    requires Ladder(v) && Sized(v, prev) && c.level <= Top(v)
    ensures Sized(v, x)
  {
    prev.(
      ands := seq(|prev.ands|, k requires 0 <= k < |prev.ands| =>
        if c.level > 0 && k != v[0] + c.level then prev.ands[k] + bits else prev.ands[k] - bits),
      shots := seq(Top(v) + v[0], k requires 0 <= k < Top(v) + v[0] =>
        if armed && Shoots(v, slots, c, k) then bits else {}))
  }

  /** Is the single shot with this index of the mask vector armed? */
  predicate Shoots(v: seq<nat>, slots: seq<nat>, c: Chunk, k: nat)
    requires Ladder(v) && c.level <= Top(v)
  {
    if c.level > 0 then k == Top(v) - c.level
    else k >= Top(v) && (exists j :: 0 <= j < |slots| && j < c.count && slots[j] == k - Top(v))
  }

  /** The plan is generated with no periodic bits. */
  function ChunkOperands(v: seq<nat>, prev: Operands, bits: Mask, slots: seq<nat>, c: Chunk, armed: bool): (x: Operands)
    requires Ladder(v) && Sized(v, prev) && c.level <= Top(v)
    ensures Sized(v, x)
  {
    Joined(v, ChunkGiven(v, prev, bits, slots, c, armed), Request({}, Duty(1, 1), 0), true)
  }

  /** The chunk's operands at one bit of the subsystem. */
  lemma ChunkBits(v: seq<nat>, prev: Operands, bits: Mask, slots: seq<nat>, c: Chunk, armed: bool, b: Bit)
    requires Ladder(v) && Sized(v, prev) && c.level <= Top(v) && b in bits
    ensures var x := ChunkOperands(v, prev, bits, slots, c, armed);
            && (forall k: nat :: k < |x.ands| ==> On(x.ands[k], b) == (c.level > 0 && k != v[0] + c.level))
            && (forall k: nat :: k < |x.ors| ==> On(x.ors[k], b) == On(prev.ors[k], b))
            && (forall k: nat :: k < |x.shots| ==> On(x.shots[k], b) == (armed && Shoots(v, slots, c, k)))
  {
  }
}
