/** The operator's replica target: defaults, a ceiling computed through float64, and a clamp. */
module Replicas {
  import opened Float64
  import opened Options

  newtype int32 = x: int | -0x8000_0000 <= x < 0x8000_0000

  /** math.Ceil. */
  function Ceil(x: real): (k: int)
    ensures k as real >= x > (k - 1) as real
  {
    -((-x).Floor)
  }

  /** Division of float64 values: the exact quotient, rounded (section 5.4.1 of IEEE 754-2019). */
  function Divide(x: real, y: real): real
    requires y != 0.0
  {
    Round(x / y)
  }

  /** The integer ceiling of a/b. */
  function CeilDiv(a: int, b: int): (k: int)
    requires b > 0
    ensures (k - 1) * b < a <= k * b
  {
    var k := -((-a) / b);
    assert (-k) * b <= -a < (-k) * b + b;
    assert (-k) * b == -(k * b) && (k - 1) * b == k * b - b;
    k
  }

  lemma ProductOrder(x: int, y: int, b: int)
    requires x <= y && b >= 0
    ensures x * b <= y * b
  {
    assert (y - x) * b >= 0;
  }

  /** The ceiling is the least multiplier that covers a. */
  lemma CeilDivIsLeast(a: int, b: int, r: int)
    requires b > 0
    ensures r * b >= a <==> r >= CeilDiv(a, b)
  {
    var k := CeilDiv(a, b);
    if r >= k {
      ProductOrder(k, r, b);
    } else {
      ProductOrder(r, k - 1, b);
    }
  }

  // ---------- the quotient lies between two doubles ----------

  lemma QuotientBelow(a: int, b: int, k: int)
    requires b > 0 && a <= k * b
    ensures a as real / b as real <= k as real
  {
    assert a as real <= k as real * b as real;
  }

  lemma QuotientAbove(a: int, b: int, m: int)
    requires b > 0 && m * b <= a
    ensures m as real <= a as real / b as real
  {
    assert m as real * b as real <= a as real;
  }

  /** The ceiling lies between 0 and the dividend. */
  lemma CeilDivRange(a: int, b: int)
    requires b > 0
    ensures if a >= 0 then 0 <= CeilDiv(a, b) <= a else a <= CeilDiv(a, b) <= 0
  {
    CeilDivIsLeast(a, b, 0);
    CeilDivIsLeast(a, b, -1);
    CeilDivIsLeast(a, b, a);
    CeilDivIsLeast(a, b, a - 1);
    if a >= 0 {
      ProductOrder(1, b, a);
    } else {
      ProductOrder(1, b, 1 - a);
      assert (a - 1) * b == -((1 - a) * b);
    }
  }

  /** A power of two from b up to, not including, 2b. */
  lemma {:induction false} BinaryCover(b: int) returns (e: nat)
    requires b >= 1
    ensures b <= Shifted(1, e) < 2 * b
  {
    if b == 1 {
      e := 0;
    } else {
      e := BinaryCover(b - 1);
      if Shifted(1, e) < b {
        e := e + 1;
      }
    }
  }

  lemma {:induction false} CoverIsSmall(e: nat)
    requires Shifted(1, e) <= 0x1_0000_0000
    ensures e < 39
  {
    if e >= 39 {
      ThirteenDoublings(1.0);
      ThirteenDoublings(8192.0);
      ThirteenDoublings(67108864.0);
      ScaleCompose(1.0, 13, 13);
      ScaleCompose(1.0, 26, 13);
      ScaleGrows(1.0, 39, e);
      ShiftedIsScale(1, e);
    }
  }

  lemma Doubled(x: real, t: real)
    ensures 2.0 * (x * t) == x * (2.0 * t)
  {
  }

  lemma {:induction false} ScaleIsProduct(x: real, k: nat)
    ensures Scale(x, k) == x * Shifted(1, k) as real
  {
    if k > 0 {
      ScaleIsProduct(x, k - 1);
      assert Shifted(1, k) == 2 * Shifted(1, k - 1);
      Doubled(x, Shifted(1, k - 1) as real);
    }
  }

  lemma QuotientTimes(a: int, b: int, t: int)
    requires b > 0
    ensures (a * t) as real / b as real == (a as real / b as real) * t as real
  {
    assert (a * t) as real == a as real * t as real;
  }

  /** m, the floor of a*t/b, stays above (k-1)*t whenever a exceeds (k-1)*b and t covers b. */
  lemma FloorStaysAbove(a: int, b: int, t: int, k: int, m: int)
    requires 0 < b <= t && (k - 1) * b < a && m * b <= a * t < (m + 1) * b
    ensures m > (k - 1) * t
  {
    assert ((k - 1) * b + 1) * t == ((k - 1) * t) * b + t;
    assert (m + 1) * b == m * b + b;
    ProductOrder((k - 1) * b + 1, a, t);
    if m <= (k - 1) * t {
      ProductOrder(m, (k - 1) * t, b);
    }
  }

  lemma FloorIsSmall(a: int, b: int, t: int, m: int)
    requires 0 < b <= t < 2 * b && m * b <= a * t < (m + 1) * b
    ensures if a >= 0 then 0 <= m <= 2 * a else 2 * a - 1 <= m < 0
  {
    if a >= 0 {
      ProductOrder(t, 2 * b, a);
      assert a * (2 * b) == (2 * a) * b;
      if m > 2 * a {
        ProductOrder(2 * a + 1, m, b);
      }
      if m < 0 {
        ProductOrder(m + 1, 0, b);
        ProductOrder(0, t, a);
      }
    } else {
      ProductOrder(t, 2 * b, -a);
      assert (-a) * (2 * b) == -((2 * a) * b) && (-a) * t == -(a * t);
      if m < 2 * a - 1 {
        ProductOrder(m + 1, 2 * a - 1, b);
      }
      if m >= 0 {
        ProductOrder(0, m, b);
        ProductOrder(1, t, -a);
      }
    }
  }

  lemma FloorBounds(x: int, b: int)
    requires b > 0
    ensures (x / b) * b <= x < (x / b + 1) * b
  {
    assert (x / b + 1) * b == (x / b) * b + b;
  }

  lemma SeparatorBelow(a: int, b: int, e: nat, m: int)
    requires b > 0 && m * b <= a * Shifted(1, e)
    ensures Scale(m as real, -(e as int)) <= a as real / b as real
  {
    var q, t := a as real / b as real, Shifted(1, e);
    QuotientAbove(a * t, b, m);
    QuotientTimes(a, b, t);
    ScaleIsProduct(q, e);
    ScaleOrder(m as real, Scale(q, e), -(e as int));
    ScaleCompose(q, e, -(e as int));
  }

  lemma SeparatorAbove(j: int, e: nat, m: int)
    requires m > j * Shifted(1, e)
    ensures j as real < Scale(m as real, -(e as int))
  {
    ScaleIsProduct(j as real, e);
    assert (j * Shifted(1, e)) as real == j as real * Shifted(1, e) as real;
    ScaleOrder(m as real, Scale(j as real, e), -(e as int));
    ScaleCompose(j as real, e, -(e as int));
  }

  /** Some double separates k-1 from a quotient that exceeds it. */
  lemma Separator(a: int, b: int, k: int) returns (y: real)
    requires -0x8000_0000 <= a < 0x8000_0000 && 1 <= b < 0x8000_0000 && (k - 1) * b < a
    ensures IsDouble(y) && (k - 1) as real < y <= a as real / b as real
    ensures Abs(y) <= LIMIT as real
  {
    var e := BinaryCover(b);
    var t := Shifted(1, e);
    var m := (a * t) / b;
    CoverIsSmall(e);
    FloorBounds(a * t, b);
    FloorIsSmall(a, b, t, m);
    FloorStaysAbove(a, b, t, k, m);
    y := Scale(m as real, -(e as int));
    assert Represents(m, -(e as int), y);
    SeparatorBelow(a, b, e, m);
    SeparatorAbove(k - 1, e, m);
    ScaleGrows(Abs(m as real), -(e as int), 0);
    ScaleAbs(m as real, -(e as int));
  }

  /** The float64 ceiling is the integer ceiling, for every int32 dividend and every positive int32 divisor. */
  lemma CeilExact(a: int, b: int)
    requires -0x8000_0000 <= a < 0x8000_0000 && 1 <= b < 0x8000_0000
    ensures Ceil(Divide(a as real, b as real)) == CeilDiv(a, b)
  {
    var k, q := CeilDiv(a, b), a as real / b as real;
    CeilDivRange(a, b);
    QuotientBelow(a, b, k);
    var y := Separator(a, b, k);
    SmallIntegersAreDoubles(k);
    SmallIsInRange(y);
    SmallIsInRange(q);
    SmallIsInRange(k as real);
    RoundMonotone(y, q);
    RoundMonotone(q, k as real);
    RoundKeepsDoubles(y);
    RoundKeepsDoubles(k as real);
  }

  // ---------- the reconcile step ----------

  /** The spec's fields, with the source's defaults for absent or non-positive ones. */
  datatype Spec = Spec(minReplicas: int32, maxReplicas: int32, scaleThreshold: int32)

  function Resolved(spec: Spec): Spec {
    Spec(if spec.minReplicas <= 0 then 1 else spec.minReplicas,
         if spec.maxReplicas <= 0 then 10 else spec.maxReplicas,
         if spec.scaleThreshold <= 0 then 5 else spec.scaleThreshold)
  }

  /** r replicas keep up with the queue. */
  predicate Covers(r: int32, threshold: int32, depth: int32) {
    r as int * threshold as int >= depth as int
  }

  /**
   The least count from lo to hi that keeps up with the queue, or hi if none does. When the bounds are crossed the upper
   one wins.
   */
  ghost predicate IsLeast(target: int32, lo: int32, hi: int32, threshold: int32, depth: int32) {
    if lo > hi then target == hi
    else
      && lo <= target <= hi
      && (Covers(target, threshold, depth) || target == hi)
      && forall r: int32 :: lo <= r <= hi && Covers(r, threshold, depth) ==> target <= r
  }

  /** What a target promises: that count for the bounds and the threshold in force. */
  ghost predicate IsTarget(target: int32, spec: Spec, depth: int32) {
    var s := Resolved(spec);
    IsLeast(target, s.minReplicas, s.maxReplicas, s.scaleThreshold, depth)
  }

  /** A field of the spec has this value in force: its own if it is positive, the default if it is absent or not. */
  predicate InForce(field: int32, default: int32, value: int32) {
    if field >= 1 then value == field else value == default
  }

  /** Absent fields mean from 1 to 10 replicas, and 5 queued requests to each. */
  predicate AllInForce(spec: Spec, lo: int32, hi: int32, per: int32) {
    InForce(spec.minReplicas, 1, lo) && InForce(spec.maxReplicas, 10, hi) && InForce(spec.scaleThreshold, 5, per)
  }

  /** A target in terms of the fields themselves, whichever of them are given. */
  lemma TargetOfFields(target: int32, spec: Spec, depth: int32, lo: int32, hi: int32, per: int32)
    requires AllInForce(spec, lo, hi, per)
    ensures IsTarget(target, spec, depth) <==> IsLeast(target, lo, hi, per, depth)
    ensures IsTarget(target, spec, depth) ==>
              && 1 <= target <= hi && (lo <= hi ==> lo <= target)
              && target as int == if lo > hi || CeilDiv(depth as int, per as int) > hi as int then hi as int
                                  else if CeilDiv(depth as int, per as int) < lo as int then lo as int
                                  else CeilDiv(depth as int, per as int)
  {
    var k := CeilDiv(depth as int, per as int);
    CeilDivRange(depth as int, per as int);
    if IsLeast(target, lo, hi, per, depth) && lo <= hi {
      CeilDivIsLeast(depth as int, per as int, target as int);
      if lo as int <= k <= hi as int {
        CeilDivIsLeast(depth as int, per as int, k);
        assert Covers(k as int32, per, depth);
      } else if k < lo as int {
        CeilDivIsLeast(depth as int, per as int, lo as int);
        assert Covers(lo, per, depth);
      }
    }
  }

  lemma TargetIsUnique(spec: Spec, depth: int32, a: int32, b: int32)
    requires IsTarget(a, spec, depth) && IsTarget(b, spec, depth)
    ensures a == b
  {
  }

  /** Clamping the ceiling into the bounds gives the target. */
  lemma ClampedCeilingIsTarget(spec: Spec, depth: int32, k: int32, target: int32)
    requires k as int == CeilDiv(depth as int, Resolved(spec).scaleThreshold as int)
    requires var s := Resolved(spec);
             target == if k > s.maxReplicas || s.minReplicas > s.maxReplicas then s.maxReplicas
                       else if k < s.minReplicas then s.minReplicas else k
    ensures IsTarget(target, spec, depth)
  {
    var s := Resolved(spec);
    CeilDivIsLeast(depth as int, s.scaleThreshold as int, target as int);
    forall r: int32 | s.minReplicas <= r <= s.maxReplicas && Covers(r, s.scaleThreshold, depth)
      ensures s.minReplicas <= s.maxReplicas ==> target <= r
    {
      CeilDivIsLeast(depth as int, s.scaleThreshold as int, r as int);
    }
  }

  /** The Deployment being scaled: its wanted replicas (absent means one) and the observed count. */
  class Deployment {
    var replicas: Option<int32>
    var observed: int32

    constructor (replicas: Option<int32>, observed: int32)
      ensures this.replicas == replicas && this.observed == observed
    {
      this.replicas, this.observed := replicas, observed;
    }

    function Wanted(): int32
      reads this
    {
      if replicas.Some? then replicas.value else 1
    }
  }

  class SentinelDeployment {
    const spec: Spec
    var statusReplicas: int32
    var activeQueueDepth: int32

    constructor (spec: Spec)
      ensures this.spec == spec
    {
      this.spec := spec;
      statusReplicas, activeQueueDepth := 0, 0;
    }

    /** The number of replicas for a queue depth. */
    method TargetReplicas(queueDepth: int32) returns (targetReplicas: int32)
      ensures IsTarget(targetReplicas, spec, queueDepth)
      ensures targetReplicas >= 1 && (spec.maxReplicas <= 0 ==> targetReplicas <= 10)
      ensures spec.minReplicas <= 0 && spec.maxReplicas <= 0 && spec.scaleThreshold <= 0 ==>
                IsLeast(targetReplicas, 1, 10, 5, queueDepth)
      ensures spec.minReplicas >= 1 && spec.maxReplicas >= 1 && spec.scaleThreshold >= 1 ==>
                IsLeast(targetReplicas, spec.minReplicas, spec.maxReplicas, spec.scaleThreshold, queueDepth)
      ensures forall lo, hi, per ::
                AllInForce(spec, lo, hi, per) ==> IsLeast(targetReplicas, lo, hi, per, queueDepth)
    {
      var minReplicas := spec.minReplicas;
      if minReplicas <= 0 {
        minReplicas := 1;
      }
      var maxReplicas := spec.maxReplicas;
      if maxReplicas <= 0 {
        maxReplicas := 10;
      }
      var scaleThreshold := spec.scaleThreshold;
      if scaleThreshold <= 0 {
        scaleThreshold := 5;
      }
      CeilExact(queueDepth as int, scaleThreshold as int);
      CeilDivRange(queueDepth as int, scaleThreshold as int);
      targetReplicas := Ceil(Divide(queueDepth as real, scaleThreshold as real)) as int32;
      ghost var k := targetReplicas;
      if targetReplicas < minReplicas {
        targetReplicas := minReplicas;
      }
      if targetReplicas > maxReplicas {
        targetReplicas := maxReplicas;
      }
      ClampedCeilingIsTarget(spec, queueDepth, k, targetReplicas);
      TargetOfFields(targetReplicas, spec, queueDepth, minReplicas, maxReplicas, scaleThreshold);
    }

    /** One reconcile pass. An unreadable queue counts as empty; a missing deployment is left for later. */
    method Reconcile(gateway: Option<int32>, target: Deployment?) returns (scaled: bool)
      modifies this, if target == null then {} else {target}
      ensures activeQueueDepth == if gateway.Some? then gateway.value else 0
      ensures statusReplicas == if target == null then 0 else target.observed
      ensures target != null ==> target.observed == old(target.observed)
      ensures target == null ==> !scaled
      ensures target != null && old(target.replicas).Some? ==>
                (scaled <==> !IsTarget(old(target.replicas).value, spec, activeQueueDepth))
      ensures target != null && old(target.replicas).None? ==> (scaled <==> !IsTarget(1, spec, activeQueueDepth))
      ensures scaled ==> target.replicas.Some? && IsTarget(target.replicas.value, spec, activeQueueDepth)
      ensures !scaled && target != null ==> target.replicas == old(target.replicas)
    {
      var queueDepth := if gateway.Some? then gateway.value else 0;
      var targetReplicas := TargetReplicas(queueDepth);
      scaled := false;
      if target != null {
        if target.Wanted() != targetReplicas {
          target.replicas := Some(targetReplicas);
          scaled := true;
        }
      }
      var currentStatusReplicas := if target != null then target.observed else 0;
      if statusReplicas != currentStatusReplicas || activeQueueDepth != queueDepth || scaled {
        statusReplicas, activeQueueDepth := currentStatusReplicas, queueDepth;
      }
    }
  }

  /** A second pass over the same queue depth scales nothing. */
  method ReconcileSettles(sentinel: SentinelDeployment, gateway: Option<int32>, target: Deployment)
    returns (again: bool)
    modifies sentinel, target
    ensures !again
    ensures IsTarget(
              if target.replicas == None then 1 else target.replicas.value, sentinel.spec,
              if gateway == None then 0 else gateway.value)
  {
    var first := sentinel.Reconcile(gateway, target);
    again := sentinel.Reconcile(gateway, target);
  }
}
