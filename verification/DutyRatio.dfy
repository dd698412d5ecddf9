/** Resolving a requested on:event ratio to M events on per N, with N locked to the standard values.
    The source computes with doubles; here the ratio is an exact fraction. */
module DutyRatio {
  import opened SharedPlan

  datatype Error =
    | ZeroClocks
    | SubFineMTooLarge
    | SubFineNNotDivisor
    | UnresolvedN
    | CoarseMNotOne
    | MaskSizes
    | SingleShotSizes

  datatype Result<+T> = Ok(value: T) | Err(error: Error)

  datatype Duty = Duty(m: nat, n: nat)

  /** Floor of (wanted on-events per event) * n. */
  function Scaled(clocksPerOn: nat, clocksPerEvent: nat, n: nat): nat
    requires clocksPerOn > 0
  {
    clocksPerEvent * n / clocksPerOn
  }

  /** The least standard N at which the target is not rounded to nothing decides. */
  ghost predicate Resolves(v: seq<nat>, clocksPerOn: nat, clocksPerEvent: nat, d: Duty)
    requires |v| >= 1 && clocksPerOn > 0
  {
    if exists k: nat :: k < |v| && Scaled(clocksPerOn, clocksPerEvent, v[k]) > 0 then
      exists k: nat ::
        && k < |v|
        && d.n == v[k]
        && Scaled(clocksPerOn, clocksPerEvent, v[k]) > 0
        && (forall j: nat :: j < k ==> Scaled(clocksPerOn, clocksPerEvent, v[j]) == 0)
        && d.m == if v[k] > v[0] then 1 else Scaled(clocksPerOn, clocksPerEvent, v[k])
    else
      d == Duty(1, v[|v| - 1])
  }

  method GetRatioOfOnPerEvents(v: seq<nat>, clocksPerOn: nat, clocksPerEvent: nat)
    returns (r: Result<Duty>)
    requires |v| >= 1
    ensures r.Err? <==> clocksPerOn == 0 || clocksPerEvent == 0
    ensures r.Err? ==> r.error == ZeroClocks
    ensures r.Ok? ==> Resolves(v, clocksPerOn, clocksPerEvent, r.value)
  {
    if clocksPerEvent == 0 { return Err(ZeroClocks); }
    if clocksPerOn == 0 { return Err(ZeroClocks); }
    var m, n := 0, 0;
    var k := 0;
    while k < |v|
      invariant k <= |v|
      invariant m == n == 0
      invariant forall j: nat :: j < k ==> Scaled(clocksPerOn, clocksPerEvent, v[j]) == 0
    {
      var scaled := Scaled(clocksPerOn, clocksPerEvent, v[k]);
      if scaled > 0 {
        m := if v[k] > v[0] then 1 else scaled;
        n := v[k];
        break;
      }
      k := k + 1;
    }
    if m == 0 {
      m, n := 1, v[|v| - 1];
    }
    return Ok(Duty(m, n));
  }

  /** What a join may rely on after the ratio was fixed. */
  predicate Usable(v: seq<nat>, d: Duty)
    requires |v| >= 1
  {
    || (0 < d.n < v[0] && v[0] % d.n == 0 && 0 < d.m <= d.n)
    || (d.n == v[0] && d.m > 0)
    || (d.n > v[0] && d.n in v && d.m == 1)
  }

  predicate Acceptable(v: seq<nat>, d: Duty)
    requires |v| >= 1
  {
    && d.m > 0 && d.n > 0
    && (d.n < v[0] ==> d.m <= d.n && v[0] % d.n == 0)
  }

  /** A request is refused exactly when it is zero or an impossible sub-fine ratio; in particular the two
      closing checks of the source (UnresolvedN, CoarseMNotOne) never fire. */
  method MnFixRatio(v: seq<nat>, d: Duty) returns (r: Result<Duty>)
    requires Ladder(v)
    ensures r.Ok? <==> Acceptable(v, d)
    ensures r.Err? ==> r.error != UnresolvedN && r.error != CoarseMNotOne
    ensures r.Ok? ==> Usable(v, r.value)
    ensures r.Ok? && d.n < v[0] ==> r.value == d
    ensures r.Ok? && d.n >= v[0] ==> Resolves(v, d.n, d.m, r.value)
  {
    if d.n > 0 && d.n < v[0] {
      if d.m == 0 || d.m > d.n { return Err(SubFineMTooLarge); }
      if v[0] % d.n != 0 { return Err(SubFineNNotDivisor); }
      return Ok(d);
    }
    r := GetRatioOfOnPerEvents(v, d.n, d.m);
    if r.Err? { return; }
    var fixed := r.value;
    LadderAscends(v);
    var validN := false;
    for k := 0 to |v|
      invariant validN <==> fixed.n in v[..k]
    {
      if fixed.n == v[k] { validN := true; break; }
    }
    if !validN { return Err(UnresolvedN); }
    if fixed.n != v[0] && fixed.m != 1 { return Err(CoarseMNotOne); }
  }

  lemma LadderAscends(v: seq<nat>)
    requires Ladder(v)
    ensures forall j: nat, k: nat :: j < k < |v| ==> v[j] < v[k]
  {
    forall j: nat, k: nat | j < k < |v| ensures v[j] < v[k] {
      Ascends(v, j, k);
    }
  }

  lemma {:induction false} Ascends(v: seq<nat>, j: nat, k: nat)
    requires Ladder(v) && j < k < |v|
    ensures v[j] < v[k]
    decreases k
  {
    assert Rung(v, k);
    if j < k - 1 { Ascends(v, j, k - 1); }
  }

  /** How far the resolved ratio can be from the requested m:n. */
  lemma ResolvedAccuracy(d: Duty, fixed: Duty)
    requires d.m > 0 && d.n >= 100
    requires Resolves(STANDARD_N, d.n, d.m, fixed)
    ensures fixed.n == 100 ==> fixed.m * d.n <= d.m * 100 < (fixed.m + 1) * d.n
    ensures fixed.n > 100 && d.m * 1000000000 >= d.n ==>
              fixed.m == 1 && d.n <= d.m * fixed.n && d.m * fixed.n < 10 * d.n
    ensures d.m * 1000000000 < d.n ==> fixed == Duty(1, 1000000000)
  {
    var v := STANDARD_N;
    if k: nat :| k < |v| && Scaled(d.n, d.m, v[k]) > 0 {
      var c: nat :| c < |v| && fixed.n == v[c] && Scaled(d.n, d.m, v[c]) > 0
        && (forall j: nat :: j < c ==> Scaled(d.n, d.m, v[j]) == 0)
        && fixed.m == if v[c] > v[0] then 1 else Scaled(d.n, d.m, v[c]);
      AccuracyAt(d, c);
    } else {
      assert Scaled(d.n, d.m, v[9]) == 0;
      FloorBounds(d.m * 1000000000, d.n);
    }
  }

  /** The chosen value scales the ratio to at least one event, the value before it to less than one. */
  lemma AccuracyAt(d: Duty, c: nat)
    requires d.m > 0 && d.n >= 100 && c < |STANDARD_N|
    requires Scaled(d.n, d.m, STANDARD_N[c]) > 0
    requires forall j: nat :: j < c ==> Scaled(d.n, d.m, STANDARD_N[j]) == 0
    ensures c == 0 ==> var m := Scaled(d.n, d.m, 100); m * d.n <= d.m * 100 < (m + 1) * d.n
    ensures c > 0 ==> d.n <= d.m * STANDARD_N[c] < 10 * d.n
    ensures d.n <= d.m * 1000000000
    ensures STANDARD_N[c] > 100 <==> c > 0
  {
    var hi := STANDARD_N[c];
    FloorBounds(d.m * hi, d.n);
    if c > 0 {
      var lo := STANDARD_N[c - 1];
      StandardSteps(c);
      FloorBounds(d.m * lo, d.n);
      TenfoldStep(d.m, d.n, lo, hi);
    }
    Monotone(d.m, hi, 1000000000);
  }

  lemma TenfoldStep(m: nat, n: nat, lo: nat, hi: nat)
    requires m * lo < n && hi <= 10 * lo
    ensures m * hi < 10 * n
  {
    Monotone(m, hi, 10 * lo);
    assert m * (10 * lo) == 10 * (m * lo);
  }

  lemma Monotone(m: nat, x: nat, y: nat)
    requires x <= y
    ensures m * x <= m * y
  {
  }

  lemma FloorBounds(x: nat, n: nat)
    requires n > 0
    ensures x / n * n <= x < (x / n + 1) * n
    ensures x / n > 0 <==> x >= n
  {
  }

  lemma StandardSteps(k: nat)
    requires 0 < k < |STANDARD_N|
    ensures STANDARD_N[k] <= 10 * STANDARD_N[k - 1] && STANDARD_N[k] > 100 && STANDARD_N[0] == 100
    ensures STANDARD_N[k] <= 1000000000
  {
    if k <= 3 { assert k == 1 || k == 2 || k == 3; }
    else if k <= 6 { assert k == 4 || k == 5 || k == 6; }
    else { assert k == 7 || k == 8 || k == 9; }
  }
}
