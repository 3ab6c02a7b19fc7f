/** What the rules of integration.py compute. Each rule is shown to be a weighted sum
    of the products a[i]·dh[i] over lower..upper with the textbook composite weights;
    the strided index sets of the source are shown to split the interior; and from
    there follow exactness on constants (under the parity each rule needs), exactness
    of the trapezoid rule on lines and of Simpson's rule on parabolas, the degenerate
    value for lower == upper, and the behaviour of the callable entry point. */
module Quadrature {
  import opened Results
  import opened Integration

  datatype Rule = Trapezoid | SimpsonRule | BooleRule

  /** The rule each label selects in `Integration.integrate`. */
  function RuleOf(name: string): (r: Rule)
    ensures r == Trapezoid <==> name == TRAPZ
    ensures r == SimpsonRule <==> name == SIMPSON && name != TRAPZ
  {
    if name == TRAPZ then Trapezoid else if name == SIMPSON then SimpsonRule else BooleRule
  }

  /** The source function implementing each rule. */
  function Apply(rule: Rule, a: seq<real>, lower: int, upper: int, dh: seq<real>): Result<real>
  {
    match rule
    case Trapezoid => Trapz(a, lower, upper, dh)
    case SimpsonRule => Simpson(a, lower, upper, dh)
    case BooleRule => Boole(a, lower, upper, dh)
  }

  /** a[i]·dh[i], and 0 outside the arrays. */
  function Product(a: seq<real>, dh: seq<real>, i: int): real
  {
    if 0 <= i < |a| && 0 <= i < |dh| then a[i] * dh[i] else 0.0
  }

  function EndWeight(rule: Rule): real
  {
    match rule
    case Trapezoid => 1.0 / 2.0
    case SimpsonRule => 1.0 / 3.0
    case BooleRule => 14.0 / 45.0
  }

  /** The composite weight of sample i on lower..upper: the end weight at both ends
      (twice over when the ends coincide), and inside the rule's pattern by the
      distance from `lower`. */
  function Weight(rule: Rule, lower: int, upper: int, i: int): real
  {
    if i < lower || upper < i then 0.0
    else if lower == upper then 2.0 * EndWeight(rule)
    else if i == lower || i == upper then EndWeight(rule)
    else match rule
      case Trapezoid => 1.0
      case SimpsonRule => if (i - lower) % 2 == 1 then 4.0 / 3.0 else 2.0 / 3.0
      case BooleRule =>
        if (i - lower) % 2 == 1 then 64.0 / 45.0
        else if (i - lower) % 4 == 2 then 24.0 / 45.0
        else 28.0 / 45.0
  }

  /** Σ Weight(rule, lower, upper, i)·a[i]·dh[i] over lo <= i < hi. */
  function WeightedSum(rule: Rule, a: seq<real>, dh: seq<real>, lower: int, upper: int, lo: int, hi: int): real
    decreases hi - lo
  {
    if lo >= hi then 0.0
    else Weight(rule, lower, upper, lo) * Product(a, dh, lo) + WeightedSum(rule, a, dh, lower, upper, lo + 1, hi)
  }

  /** The reference value of a rule on lower..upper. */
  function Composite(rule: Rule, a: seq<real>, dh: seq<real>, lower: int, upper: int): real
  {
    WeightedSum(rule, a, dh, lower, upper, lower, upper + 1)
  }

  // ---------------------------------------------------------------------------
  // The strided index sets of the source

  /** i is one of start, start+step, ... below stop: an index `diap(_, start, stop, step)` keeps. */
  predicate InStride(i: int, start: int, stop: int, step: nat)
  {
    step > 0 && start <= i < stop && (i - start) % step == 0
  }

  function Ind(b: bool): real { if b then 1.0 else 0.0 }

  /** How many of the rule's interior strided sets contain i. */
  function Covering(rule: Rule, lower: int, upper: int, i: int): nat
  {
    var one := (start: int, step: nat) => if InStride(i, start, upper, step) then 1 else 0;
    match rule
    case Trapezoid => one(lower + 1, 1)
    case SimpsonRule => one(lower + 1, 2) + one(lower + 2, 2)
    case BooleRule => one(lower + 1, 2) + one(lower + 2, 4) + one(lower + 4, 4)
  }

  /** The weight the source's formula gives index i: its end terms and strided sums. */
  function Coverage(rule: Rule, lower: int, upper: int, i: int): real
  {
    var ends := Ind(i == lower) + Ind(i == upper);
    match rule
    case Trapezoid => ends / 2.0 + Ind(InStride(i, lower + 1, upper, 1))
    case SimpsonRule =>
      (ends + 4.0 * Ind(InStride(i, lower + 1, upper, 2)) + 2.0 * Ind(InStride(i, lower + 2, upper, 2))) / 3.0
    case BooleRule =>
      (14.0 * ends + 64.0 * Ind(InStride(i, lower + 1, upper, 2))
        + 24.0 * Ind(InStride(i, lower + 2, upper, 4)) + 28.0 * Ind(InStride(i, lower + 4, upper, 4))) / 45.0
  }

  /** Each rule's strided sets cover every interior index exactly once and no endpoint. */
  lemma SetsPartitionInterior(rule: Rule, lower: int, upper: int, i: int)
    requires lower <= upper
    ensures Covering(rule, lower, upper, i) == if lower < i < upper then 1 else 0
  {
    var d := i - lower;
    if lower < i < upper {
      assert d % 2 == 1 || d % 4 == 2 || d % 4 == 0;
    }
  }

  /** The source's formula gives every index its composite weight. */
  lemma WeightIsCoverage(rule: Rule, lower: int, upper: int, i: int)
    requires lower <= upper
    ensures Weight(rule, lower, upper, i) == Coverage(rule, lower, upper, i)
  {
    SetsPartitionInterior(rule, lower, upper, i);
    var d := i - lower;
    if lower < i < upper {
      assert d % 2 == 1 <==> InStride(i, lower + 1, upper, 2);
      assert d % 4 == 2 <==> InStride(i, lower + 2, upper, 4);
    }
  }

  // ---------------------------------------------------------------------------
  // Sums over the strided sets

  /** Σ a[i]·dh[i] over the i in lo..hi-1 that lie in the strided set. */
  function MaskSum(a: seq<real>, dh: seq<real>, start: int, stop: int, step: nat, lo: int, hi: int): real
    decreases hi - lo
  {
    if lo >= hi then 0.0
    else
      (if InStride(lo, start, stop, step) then Product(a, dh, lo) else 0.0)
      + MaskSum(a, dh, start, stop, step, lo + 1, hi)
  }

  /** a[start]·dh[start] + a[start+step]·dh[start+step] + ... below stop. */
  function StridedSum(a: seq<real>, dh: seq<real>, start: int, stop: int, step: nat): real
    requires step > 0
    decreases stop - start
  {
    if start >= stop then 0.0 else Product(a, dh, start) + StridedSum(a, dh, start + step, stop, step)
  }

  /** The source's formula with each strided sum taken over lo..hi-1. */
  function Split(rule: Rule, a: seq<real>, dh: seq<real>, lower: int, upper: int, lo: int, hi: int): real
  {
    var ends := MaskSum(a, dh, lower, lower + 1, 1, lo, hi) + MaskSum(a, dh, upper, upper + 1, 1, lo, hi);
    match rule
    case Trapezoid => ends / 2.0 + MaskSum(a, dh, lower + 1, upper, 1, lo, hi)
    case SimpsonRule =>
      (ends + 4.0 * MaskSum(a, dh, lower + 1, upper, 2, lo, hi) + 2.0 * MaskSum(a, dh, lower + 2, upper, 2, lo, hi)) / 3.0
    case BooleRule =>
      (14.0 * ends + 64.0 * MaskSum(a, dh, lower + 1, upper, 2, lo, hi)
        + 24.0 * MaskSum(a, dh, lower + 2, upper, 4, lo, hi) + 28.0 * MaskSum(a, dh, lower + 4, upper, 4, lo, hi)) / 45.0
  }

  lemma {:induction false} WeightedSumSplits(rule: Rule, a: seq<real>, dh: seq<real>, lower: int, upper: int, lo: int, hi: int)
    requires lower <= upper
    decreases hi - lo
    ensures WeightedSum(rule, a, dh, lower, upper, lo, hi) == Split(rule, a, dh, lower, upper, lo, hi)
  {
    if lo < hi {
      WeightedSumSplits(rule, a, dh, lower, upper, lo + 1, hi);
      WeightIsCoverage(rule, lower, upper, lo);
    }
  }

  lemma {:induction false} MaskEmpty(a: seq<real>, dh: seq<real>, start: int, stop: int, step: nat, lo: int, hi: int)
    requires stop <= start
    decreases hi - lo
    ensures MaskSum(a, dh, start, stop, step, lo, hi) == 0.0
  {
    if lo < hi {
      MaskEmpty(a, dh, start, stop, step, lo + 1, hi);
    }
  }

  /** The strides the rules slice with. */
  predicate RuleStep(k: nat) { k == 1 || k == 2 || k == 4 }

  lemma ModShift(x: int, k: nat)
    requires RuleStep(k)
    ensures (x - k) % k == x % k
    ensures x > 0 && x % k == 0 ==> x >= k
  {
    if k == 1 {
    } else if k == 2 {
    } else {
    }
  }

  /** Past `start`, the set starting at `start` is the set starting one step later. */
  lemma {:induction false} MaskShift(a: seq<real>, dh: seq<real>, start: int, stop: int, step: nat, lo: int, hi: int)
    requires RuleStep(step) && start < lo
    decreases hi - lo
    ensures MaskSum(a, dh, start, stop, step, lo, hi) == MaskSum(a, dh, start + step, stop, step, lo, hi)
  {
    if lo < hi {
      ModShift(lo - start, step);
      assert InStride(lo, start, stop, step) <==> InStride(lo, start + step, stop, step);
      MaskShift(a, dh, start, stop, step, lo + 1, hi);
    }
  }

  /** Summing over a window that contains the set gives the strided sum. */
  lemma {:induction false} MaskIsStrided(a: seq<real>, dh: seq<real>, start: int, stop: int, step: nat, lo: int, hi: int)
    requires RuleStep(step) && lo <= start && stop <= hi
    decreases hi - lo
    ensures MaskSum(a, dh, start, stop, step, lo, hi) == StridedSum(a, dh, start, stop, step)
  {
    if stop <= start {
      MaskEmpty(a, dh, start, stop, step, lo, hi);
    } else if lo < start {
      MaskIsStrided(a, dh, start, stop, step, lo + 1, hi);
    } else {
      MaskShift(a, dh, start, stop, step, lo + 1, hi);
      MaskIsStrided(a, dh, start + step, stop, step, lo + 1, hi);
    }
  }

  /** The numpy strided product sum is the strided sum when both arrays are aligned. */
  lemma {:induction false} StridedProductsExact(a: seq<real>, dh: seq<real>, start: int, stop: int, step: nat)
    requires step > 0 && 0 <= start && 0 <= stop <= |a| == |dh|
    ensures StridedProducts(a, dh, start, stop, step) == Ok(StridedSum(a, dh, start, stop, step))
  {
    if start > |a| {
      assert Slice(a, start, stop, step) == [];
      assert Slice(dh, start, stop, step) == [];
    } else {
      StridedDot(a, dh, start, stop, step);
    }
  }

  lemma {:induction false} StridedDot(a: seq<real>, dh: seq<real>, start: nat, stop: nat, step: nat)
    requires step > 0 && stop <= |a| == |dh|
    decreases stop - start
    ensures Broadcast(Strided(a, start, stop, step), Strided(dh, start, stop, step), Times).Ok?
    ensures Sum(Broadcast(Strided(a, start, stop, step), Strided(dh, start, stop, step), Times).value)
      == StridedSum(a, dh, start, stop, step)
  {
    assert |Strided(a, start, stop, step)| == |Strided(dh, start, stop, step)|;
    if start < stop {
      var x', y' := Strided(a, start + step, stop, step), Strided(dh, start + step, stop, step);
      assert Strided(a, start, stop, step) == [a[start]] + x';
      assert Strided(dh, start, stop, step) == [dh[start]] + y';
      StridedDot(a, dh, start + step, stop, step);
      DotCons(a[start], x', dh[start], y');
      assert Product(a, dh, start) == a[start] * dh[start];
      assert StridedSum(a, dh, start, stop, step) == a[start] * dh[start] + StridedSum(a, dh, start + step, stop, step);
    }
  }

  lemma DotCons(x0: real, x: seq<real>, y0: real, y: seq<real>)
    requires |x| == |y|
    ensures Broadcast([x0] + x, [y0] + y, Times).Ok?
    ensures Sum(Broadcast([x0] + x, [y0] + y, Times).value) == x0 * y0 + Sum(Broadcast(x, y, Times).value)
  {
    BroadcastCons(x0, x, y0, y, Times);
    var p' := Broadcast(x, y, Times).value;
    assert ([Times(x0, y0)] + p')[1..] == p';
  }

  /** Pairing up two equal-length vectors proceeds element by element. */
  lemma BroadcastCons(x0: real, x: seq<real>, y0: real, y: seq<real>, op: (real, real) -> real)
    requires |x| == |y|
    ensures Broadcast([x0] + x, [y0] + y, op) == Ok([op(x0, y0)] + Broadcast(x, y, op).value)
  {
    var p := Broadcast([x0] + x, [y0] + y, op).value;
    var p' := Broadcast(x, y, op).value;
    assert p == [op(x0, y0)] + p' by {
      forall i | 0 <= i < |p| ensures p[i] == ([op(x0, y0)] + p')[i] {
        if i > 0 {
          assert p[i] == op(x[i - 1], y[i - 1]);
        }
      }
    }
  }

  /** The end terms of the formulas, summed over lower..upper, are the two end products. */
  lemma EndsMask(a: seq<real>, dh: seq<real>, lower: int, upper: int)
    requires 0 <= lower <= upper < |a| == |dh|
    ensures MaskSum(a, dh, lower, lower + 1, 1, lower, upper + 1) == a[lower] * dh[lower]
    ensures MaskSum(a, dh, upper, upper + 1, 1, lower, upper + 1) == a[upper] * dh[upper]
  {
    MaskIsStrided(a, dh, lower, lower + 1, 1, lower, upper + 1);
    MaskIsStrided(a, dh, upper, upper + 1, 1, lower, upper + 1);
  }

  /** `trapz` once its numpy sum is known, for indices inside the arrays. */
  lemma TrapzOfSums(a: seq<real>, dh: seq<real>, lower: int, upper: int, inner: real)
    requires 0 <= lower <= upper < |a| == |dh|
    requires StridedProducts(a, dh, lower + 1, upper, 1) == Ok(inner)
    ensures Trapz(a, lower, upper, dh) == Ok(inner + (a[lower] * dh[lower] + a[upper] * dh[upper]) / 2.0)
  {
    var r := Trapz(a, lower, upper, dh);
    assert Item(a, lower) == Ok(a[lower]) && Item(dh, lower) == Ok(dh[lower]);
    assert Item(a, upper) == Ok(a[upper]) && Item(dh, upper) == Ok(dh[upper]);
    assert r.Ok? && r.value == inner + (a[lower] * dh[lower] + a[upper] * dh[upper]) / 2.0;
  }

  /** `simpson` once its numpy sums are known. */
  lemma SimpsonOfSums(a: seq<real>, dh: seq<real>, lower: int, upper: int, odd: real, even: real)
    requires 0 <= lower <= upper < |a| == |dh|
    requires StridedProducts(a, dh, lower + 1, upper, 2) == Ok(odd)
    requires StridedProducts(a, dh, lower + 2, upper, 2) == Ok(even)
    ensures Simpson(a, lower, upper, dh) == Ok((a[lower] * dh[lower] + a[upper] * dh[upper] + 4.0 * odd + 2.0 * even) / 3.0)
  {
    var r := Simpson(a, lower, upper, dh);
    assert Item(a, lower) == Ok(a[lower]) && Item(dh, lower) == Ok(dh[lower]);
    assert Item(a, upper) == Ok(a[upper]) && Item(dh, upper) == Ok(dh[upper]);
    assert r.Ok? && r.value == (a[lower] * dh[lower] + a[upper] * dh[upper] + 4.0 * odd + 2.0 * even) / 3.0;
  }

  /** `boole` once its numpy sums are known. */
  lemma BooleOfSums(a: seq<real>, dh: seq<real>, lower: int, upper: int, odd: real, two: real, four: real)
    requires 0 <= lower <= upper < |a| == |dh|
    requires StridedProducts(a, dh, lower + 1, upper, 2) == Ok(odd)
    requires StridedProducts(a, dh, lower + 2, upper, 4) == Ok(two)
    requires StridedProducts(a, dh, lower + 4, upper, 4) == Ok(four)
    ensures Boole(a, lower, upper, dh)
      == Ok((14.0 * (a[lower] * dh[lower] + a[upper] * dh[upper]) + 64.0 * odd + 24.0 * two + 28.0 * four) / 45.0)
  {
    var r := Boole(a, lower, upper, dh);
    assert Item(a, lower) == Ok(a[lower]) && Item(dh, lower) == Ok(dh[lower]);
    assert Item(a, upper) == Ok(a[upper]) && Item(dh, upper) == Ok(dh[upper]);
    assert r.Ok? && r.value == (14.0 * (a[lower] * dh[lower] + a[upper] * dh[upper]) + 64.0 * odd + 24.0 * two + 28.0 * four) / 45.0;
  }

  /** `trapz` with its numpy sum written as a strided sum. */
  lemma TrapzFormula(a: seq<real>, dh: seq<real>, lower: int, upper: int)
    requires 0 <= lower <= upper < |a| == |dh|
    ensures Trapz(a, lower, upper, dh) == Ok(StridedSum(a, dh, lower + 1, upper, 1)
      + (a[lower] * dh[lower] + a[upper] * dh[upper]) / 2.0)
  {
    StridedProductsExact(a, dh, lower + 1, upper, 1);
    TrapzOfSums(a, dh, lower, upper, StridedSum(a, dh, lower + 1, upper, 1));
  }

  /** `simpson` with its numpy sums written as strided sums. */
  lemma SimpsonFormula(a: seq<real>, dh: seq<real>, lower: int, upper: int)
    requires 0 <= lower <= upper < |a| == |dh|
    ensures Simpson(a, lower, upper, dh) == Ok((a[lower] * dh[lower] + a[upper] * dh[upper]
      + 4.0 * StridedSum(a, dh, lower + 1, upper, 2) + 2.0 * StridedSum(a, dh, lower + 2, upper, 2)) / 3.0)
  {
    SimpsonSumsExact(a, dh, lower, upper);
    SimpsonOfSums(a, dh, lower, upper, StridedSum(a, dh, lower + 1, upper, 2), StridedSum(a, dh, lower + 2, upper, 2));
  }

  /** The two numpy sums of `simpson` are strided sums. */
  lemma SimpsonSumsExact(a: seq<real>, dh: seq<real>, lower: int, upper: int)
    requires 0 <= lower <= upper < |a| == |dh|
    ensures StridedProducts(a, dh, lower + 1, upper, 2) == Ok(StridedSum(a, dh, lower + 1, upper, 2))
    ensures StridedProducts(a, dh, lower + 2, upper, 2) == Ok(StridedSum(a, dh, lower + 2, upper, 2))
  {
    StridedProductsExact(a, dh, lower + 1, upper, 2);
    StridedProductsExact(a, dh, lower + 2, upper, 2);
  }

  /** The three numpy sums of `boole` are strided sums. */
  lemma BooleSumsExact(a: seq<real>, dh: seq<real>, lower: int, upper: int)
    requires 0 <= lower <= upper < |a| == |dh|
    ensures StridedProducts(a, dh, lower + 1, upper, 2) == Ok(StridedSum(a, dh, lower + 1, upper, 2))
    ensures StridedProducts(a, dh, lower + 2, upper, 4) == Ok(StridedSum(a, dh, lower + 2, upper, 4))
    ensures StridedProducts(a, dh, lower + 4, upper, 4) == Ok(StridedSum(a, dh, lower + 4, upper, 4))
  {
    StridedProductsExact(a, dh, lower + 1, upper, 2);
    StridedProductsExact(a, dh, lower + 2, upper, 4);
    StridedProductsExact(a, dh, lower + 4, upper, 4);
  }

  /** `boole` with its numpy sums written as strided sums. */
  lemma BooleFormula(a: seq<real>, dh: seq<real>, lower: int, upper: int)
    requires 0 <= lower <= upper < |a| == |dh|
    ensures Boole(a, lower, upper, dh).Ok?
    ensures Boole(a, lower, upper, dh).value == (14.0 * (a[lower] * dh[lower] + a[upper] * dh[upper])
      + 64.0 * StridedSum(a, dh, lower + 1, upper, 2) + 24.0 * StridedSum(a, dh, lower + 2, upper, 4)
      + 28.0 * StridedSum(a, dh, lower + 4, upper, 4)) / 45.0
  {
    BooleSumsExact(a, dh, lower, upper);
    BooleOfSums(a, dh, lower, upper, StridedSum(a, dh, lower + 1, upper, 2),
      StridedSum(a, dh, lower + 2, upper, 4), StridedSum(a, dh, lower + 4, upper, 4));
  }

  lemma TrapzIsWeighted(a: seq<real>, dh: seq<real>, lower: int, upper: int)
    requires 0 <= lower <= upper < |a| == |dh|
    ensures Trapz(a, lower, upper, dh) == Ok(Composite(Trapezoid, a, dh, lower, upper))
  {
    var lo, hi := lower, upper + 1;
    WeightedSumSplits(Trapezoid, a, dh, lower, upper, lo, hi);
    EndsMask(a, dh, lower, upper);
    MaskIsStrided(a, dh, lower + 1, upper, 1, lo, hi);
    TrapzFormula(a, dh, lower, upper);
  }

  lemma SimpsonIsWeighted(a: seq<real>, dh: seq<real>, lower: int, upper: int)
    requires 0 <= lower <= upper < |a| == |dh|
    ensures Simpson(a, lower, upper, dh) == Ok(Composite(SimpsonRule, a, dh, lower, upper))
  {
    var lo, hi := lower, upper + 1;
    WeightedSumSplits(SimpsonRule, a, dh, lower, upper, lo, hi);
    EndsMask(a, dh, lower, upper);
    MaskIsStrided(a, dh, lower + 1, upper, 2, lo, hi);
    MaskIsStrided(a, dh, lower + 2, upper, 2, lo, hi);
    SimpsonFormula(a, dh, lower, upper);
  }

  lemma BooleIsWeighted(a: seq<real>, dh: seq<real>, lower: int, upper: int)
    requires 0 <= lower <= upper < |a| == |dh|
    ensures Boole(a, lower, upper, dh) == Ok(Composite(BooleRule, a, dh, lower, upper))
  {
    var lo, hi := lower, upper + 1;
    WeightedSumSplits(BooleRule, a, dh, lower, upper, lo, hi);
    EndsMask(a, dh, lower, upper);
    MaskIsStrided(a, dh, lower + 1, upper, 2, lo, hi);
    MaskIsStrided(a, dh, lower + 2, upper, 4, lo, hi);
    MaskIsStrided(a, dh, lower + 4, upper, 4, lo, hi);
    BooleFormula(a, dh, lower, upper);
  }

  /** Each rule of the source is its composite-weight quadrature whenever the indices
      are inside the two aligned arrays. */
  lemma RuleIsWeighted(rule: Rule, a: seq<real>, dh: seq<real>, lower: int, upper: int)
    requires 0 <= lower <= upper < |a| == |dh|
    ensures Apply(rule, a, lower, upper, dh) == Ok(Composite(rule, a, dh, lower, upper))
  {
    match rule
    case Trapezoid => TrapzIsWeighted(a, dh, lower, upper);
    case SimpsonRule => SimpsonIsWeighted(a, dh, lower, upper);
    case BooleRule => BooleIsWeighted(a, dh, lower, upper);
  }

  /** `integrate` is the quadrature of the rule its label selects: Trapezoid for the
      TRAPZ label, Simpson for the SIMPSON label and Boole for every other string. */
  lemma IntegrateIsWeighted(name: string, a: seq<real>, dh: seq<real>, lower: int, upper: int)
    requires 0 <= lower <= upper < |a| == |dh|
    ensures Integrate(name, a, lower, upper, dh) == Ok(Composite(RuleOf(name), a, dh, lower, upper))
  {
    RuleIsWeighted(RuleOf(name), a, dh, lower, upper);
  }

  // ---------------------------------------------------------------------------
  // Degenerate and constant integrands

  /** With lower == upper no rule returns 0: both end terms fall on the same sample. */
  lemma DegenerateInterval(a: seq<real>, dh: seq<real>, l: int)
    requires 0 <= l < |a| == |dh|
    ensures Trapz(a, l, l, dh) == Ok(a[l] * dh[l])
    ensures Simpson(a, l, l, dh) == Ok(2.0 / 3.0 * (a[l] * dh[l]))
    ensures Boole(a, l, l, dh) == Ok(28.0 / 45.0 * (a[l] * dh[l]))
  {
    TrapzFormula(a, dh, l, l);
    SimpsonFormula(a, dh, l, l);
    BooleFormula(a, dh, l, l);
  }

  /** a == c and dh == d on every index of lower..upper, both arrays covering it; stated
      from the top index down, so that the solver unfolds it only on demand. */
  predicate Constant(a: seq<real>, dh: seq<real>, lower: int, upper: int, c: real, d: real)
    decreases upper - lower
  {
    0 <= lower <= upper < |a| == |dh| && a[upper] == c && dh[upper] == d
    && (lower < upper ==> Constant(a, dh, lower, upper - 1, c, d))
  }

  /** Constant holds exactly when every sample of the window is (c, d). */
  lemma {:induction false} ConstantIff(a: seq<real>, dh: seq<real>, lower: int, upper: int, c: real, d: real)
    requires 0 <= lower <= upper < |a| == |dh|
    decreases upper - lower
    ensures Constant(a, dh, lower, upper, c, d) <==> forall i :: lower <= i <= upper ==> a[i] == c && dh[i] == d
  {
    if lower < upper {
      ConstantIff(a, dh, lower, upper - 1, c, d);
    }
  }

  lemma {:induction false} ConstantAt(a: seq<real>, dh: seq<real>, lower: int, upper: int, c: real, d: real, i: int)
    requires Constant(a, dh, lower, upper, c, d) && lower <= i <= upper
    decreases upper - lower
    ensures a[i] == c && dh[i] == d
  {
    if i < upper {
      ConstantAt(a, dh, lower, upper - 1, c, d, i);
    }
  }

  lemma {:induction false} StridedConstant(a: seq<real>, dh: seq<real>, lower: int, upper: int, c: real, d: real,
                                           start: int, stop: int, step: nat)
    requires Constant(a, dh, lower, upper, c, d) && step > 0 && lower <= start && stop <= upper + 1
    decreases stop - start
    ensures StridedSum(a, dh, start, stop, step) == c * d * StrideCount(start, stop, step) as real
  {
    if start < stop {
      ConstantAt(a, dh, lower, upper, c, d, start);
      StridedConstant(a, dh, lower, upper, c, d, start + step, stop, step);
    }
  }

  /** m strides of length k fit in start .. start + k·m - j whenever 0 <= j < k. */
  lemma {:induction false} CountStrides(start: int, k: nat, m: nat, j: nat)
    requires 0 <= j < k
    decreases m
    ensures StrideCount(start, start + k * m - j, k) == m
  {
    if m > 0 {
      assert start + k * m - j == (start + k) + k * (m - 1) - j;
      CountStrides(start + k, k, m - 1, j);
    }
  }

  /** Trapezoid is exact on a constant integrand for every upper > lower. */
  lemma TrapzConstant(a: seq<real>, dh: seq<real>, lower: int, upper: int, c: real, d: real)
    requires Constant(a, dh, lower, upper, c, d) && lower < upper
    ensures Trapz(a, lower, upper, dh) == Ok(c * d * (upper - lower) as real)
  {
    TrapzFormula(a, dh, lower, upper);
    CountStrides(lower + 1, 1, upper - lower - 1, 0);
    TrapzSumsConstant(a, dh, lower, upper, c, d);
    var r := Trapz(a, lower, upper, dh);
    assert r.Ok? && r.value == c * d * (upper - lower) as real;
  }

  /** The trapezoid formula on the strided sum of a constant integrand. */
  lemma TrapzSumsConstant(a: seq<real>, dh: seq<real>, lower: int, upper: int, c: real, d: real)
    requires Constant(a, dh, lower, upper, c, d)
    requires StrideCount(lower + 1, upper, 1) == upper - lower - 1
    ensures StridedSum(a, dh, lower + 1, upper, 1) + (a[lower] * dh[lower] + a[upper] * dh[upper]) / 2.0
      == c * d * (upper - lower) as real
  {
    StridedConstant(a, dh, lower, upper, c, d, lower + 1, upper, 1);
    EndsConstant(a, dh, lower, upper, c, d);
    TrapzWeightsSum(a[lower] * dh[lower], a[upper] * dh[upper], StridedSum(a, dh, lower + 1, upper, 1),
      c, d, upper - lower, StrideCount(lower + 1, upper, 1));
  }

  /** Simpson is exact on a constant integrand when upper - lower is even and positive. */
  lemma SimpsonConstant(a: seq<real>, dh: seq<real>, lower: int, upper: int, c: real, d: real)
    requires Constant(a, dh, lower, upper, c, d) && lower < upper && (upper - lower) % 2 == 0
    ensures Simpson(a, lower, upper, dh) == Ok(c * d * (upper - lower) as real)
  {
    SimpsonFormula(a, dh, lower, upper);
    SimpsonCounts(lower, upper);
    SimpsonSumsConstant(a, dh, lower, upper, c, d);
    var r := Simpson(a, lower, upper, dh);
    assert r.Ok? && r.value == c * d * (upper - lower) as real;
  }

  /** The Simpson formula on strided sums of a constant integrand. */
  lemma SimpsonSumsConstant(a: seq<real>, dh: seq<real>, lower: int, upper: int, c: real, d: real)
    requires Constant(a, dh, lower, upper, c, d)
    requires 2 * StrideCount(lower + 1, upper, 2) == upper - lower
    requires StrideCount(lower + 2, upper, 2) == StrideCount(lower + 1, upper, 2) - 1
    ensures (a[lower] * dh[lower] + a[upper] * dh[upper]
      + 4.0 * StridedSum(a, dh, lower + 1, upper, 2) + 2.0 * StridedSum(a, dh, lower + 2, upper, 2)) / 3.0
      == c * d * (upper - lower) as real
  {
    StridedConstant(a, dh, lower, upper, c, d, lower + 1, upper, 2);
    StridedConstant(a, dh, lower, upper, c, d, lower + 2, upper, 2);
    EndsConstant(a, dh, lower, upper, c, d);
    SimpsonWeightsSum(a[lower] * dh[lower], a[upper] * dh[upper],
      StridedSum(a, dh, lower + 1, upper, 2), StridedSum(a, dh, lower + 2, upper, 2), c, d, upper - lower,
      StrideCount(lower + 1, upper, 2), StrideCount(lower + 2, upper, 2));
  }

  /** Boole is exact on a constant integrand when upper - lower is a positive multiple of 4. */
  lemma BooleConstant(a: seq<real>, dh: seq<real>, lower: int, upper: int, c: real, d: real)
    requires Constant(a, dh, lower, upper, c, d) && lower < upper && (upper - lower) % 4 == 0
    ensures Boole(a, lower, upper, dh) == Ok(c * d * (upper - lower) as real)
  {
    BooleFormula(a, dh, lower, upper);
    BooleCounts(lower, upper);
    BooleSumsConstant(a, dh, lower, upper, c, d);
    var r := Boole(a, lower, upper, dh);
    assert r.Ok? && r.value == c * d * (upper - lower) as real;
  }

  /** The Boole formula on strided sums of a constant integrand. */
  lemma BooleSumsConstant(a: seq<real>, dh: seq<real>, lower: int, upper: int, c: real, d: real)
    requires Constant(a, dh, lower, upper, c, d)
    requires 4 * StrideCount(lower + 2, upper, 4) == upper - lower
    requires StrideCount(lower + 1, upper, 2) == 2 * StrideCount(lower + 2, upper, 4)
    requires StrideCount(lower + 4, upper, 4) == StrideCount(lower + 2, upper, 4) - 1
    ensures (14.0 * (a[lower] * dh[lower] + a[upper] * dh[upper])
      + 64.0 * StridedSum(a, dh, lower + 1, upper, 2) + 24.0 * StridedSum(a, dh, lower + 2, upper, 4)
      + 28.0 * StridedSum(a, dh, lower + 4, upper, 4)) / 45.0
      == c * d * (upper - lower) as real
  {
    StridedConstant(a, dh, lower, upper, c, d, lower + 1, upper, 2);
    StridedConstant(a, dh, lower, upper, c, d, lower + 2, upper, 4);
    StridedConstant(a, dh, lower, upper, c, d, lower + 4, upper, 4);
    EndsConstant(a, dh, lower, upper, c, d);
    BooleWeightsSum(a[lower] * dh[lower], a[upper] * dh[upper],
      StridedSum(a, dh, lower + 1, upper, 2), StridedSum(a, dh, lower + 2, upper, 4),
      StridedSum(a, dh, lower + 4, upper, 4), c, d, upper - lower,
      StrideCount(lower + 1, upper, 2), StrideCount(lower + 2, upper, 4), StrideCount(lower + 4, upper, 4));
  }

  /** Without the parity Simpson is not exact: over three intervals it gives 8/3 of c·d, not 3. */
  lemma SimpsonOddInterval(a: seq<real>, dh: seq<real>, lower: int, c: real, d: real)
    requires Constant(a, dh, lower, lower + 3, c, d)
    ensures Simpson(a, lower, lower + 3, dh) == Ok(8.0 / 3.0 * (c * d))
  {
    SimpsonFormula(a, dh, lower, lower + 3);
    StridedConstant(a, dh, lower, lower + 3, c, d, lower + 1, lower + 3, 2);
    StridedConstant(a, dh, lower, lower + 3, c, d, lower + 2, lower + 3, 2);
    CountStrides(lower + 1, 2, 1, 0);
    CountStrides(lower + 2, 2, 1, 1);
    EndsConstant(a, dh, lower, lower + 3, c, d);
    var p := c * d;
    var r := Simpson(a, lower, lower + 3, dh);
    assert r.Ok? && r.value == (p + p + 4.0 * p + 2.0 * p) / 3.0;
  }

  /** The sizes of the Simpson sets on an even number of intervals. */
  lemma SimpsonCounts(lower: int, upper: int)
    requires lower < upper && (upper - lower) % 2 == 0
    ensures 2 * StrideCount(lower + 1, upper, 2) == upper - lower
    ensures StrideCount(lower + 2, upper, 2) == StrideCount(lower + 1, upper, 2) - 1
  {
    var m := (upper - lower) / 2;
    assert upper == lower + 2 * m;
    CountStrides(lower + 1, 2, m, 1);
    CountStrides(lower + 2, 2, m - 1, 0);
  }

  /** The sizes of the Boole sets on a multiple of four intervals. */
  lemma BooleCounts(lower: int, upper: int)
    requires lower < upper && (upper - lower) % 4 == 0
    ensures 4 * StrideCount(lower + 2, upper, 4) == upper - lower
    ensures StrideCount(lower + 1, upper, 2) == 2 * StrideCount(lower + 2, upper, 4)
    ensures StrideCount(lower + 4, upper, 4) == StrideCount(lower + 2, upper, 4) - 1
  {
    var m := (upper - lower) / 4;
    assert upper == lower + 4 * m;
    CountStrides(lower + 1, 2, 2 * m, 1);
    CountStrides(lower + 2, 4, m, 2);
    CountStrides(lower + 4, 4, m - 1, 0);
  }

  /** The trapezoid weights of n = n1 + 1 intervals add up to n. */
  lemma TrapzWeightsSum(e1: real, e2: real, s1: real, c: real, d: real, n: int, n1: int)
    requires n1 == n - 1
    requires e1 == c * d && e2 == c * d && s1 == c * d * n1 as real
    ensures s1 + (e1 + e2) / 2.0 == c * d * n as real
  {
    var p, x := c * d, n as real;
    assert n1 as real == x - 1.0;
    assert p * (x - 1.0) + (p + p) / 2.0 == p * x;
  }

  /** The Simpson weights of n = 2·n1 intervals add up to n. */
  lemma SimpsonWeightsSum(e1: real, e2: real, s1: real, s2: real, c: real, d: real, n: int, n1: int, n2: int)
    requires 2 * n1 == n && n2 == n1 - 1
    requires e1 == c * d && e2 == c * d && s1 == c * d * n1 as real && s2 == c * d * n2 as real
    ensures (e1 + e2 + 4.0 * s1 + 2.0 * s2) / 3.0 == c * d * n as real
  {
    var p, x := c * d, n1 as real;
    assert n2 as real == x - 1.0 && n as real == 2.0 * x;
    assert p + p + 4.0 * (p * x) + 2.0 * (p * (x - 1.0)) == 6.0 * (p * x);
  }

  /** The Boole weights of n = 4·n2 intervals add up to n. */
  lemma BooleWeightsSum(e1: real, e2: real, s1: real, s2: real, s4: real, c: real, d: real, n: int,
                        n1: int, n2: int, n4: int)
    requires 4 * n2 == n && n1 == 2 * n2 && n4 == n2 - 1
    requires e1 == c * d && e2 == c * d
    requires s1 == c * d * n1 as real && s2 == c * d * n2 as real && s4 == c * d * n4 as real
    ensures (14.0 * (e1 + e2) + 64.0 * s1 + 24.0 * s2 + 28.0 * s4) / 45.0 == c * d * n as real
  {
    var p, x := c * d, n2 as real;
    assert n4 as real == x - 1.0 && n1 as real == 2.0 * x && n as real == 4.0 * x;
    assert 14.0 * (p + p) + 64.0 * (p * (2.0 * x)) + 24.0 * (p * x) + 28.0 * (p * (x - 1.0)) == 180.0 * (p * x);
  }

  lemma EndsConstant(a: seq<real>, dh: seq<real>, lower: int, upper: int, c: real, d: real)
    requires Constant(a, dh, lower, upper, c, d)
    ensures a[lower] * dh[lower] == c * d && a[upper] * dh[upper] == c * d
  {
    ConstantAt(a, dh, lower, upper, c, d, lower);
  }

  // ---------------------------------------------------------------------------
  // Exactness on polynomial samples

  /** α + β·x + γ·x². */
  function Quadratic(alpha: real, beta: real, gamma: real, x: real): real
  {
    alpha + beta * x + gamma * x * x
  }

  /** The antiderivative of Quadratic that vanishes at 0. */
  function Antiderivative(alpha: real, beta: real, gamma: real, x: real): real
  {
    alpha * x + beta * x * x / 2.0 + gamma * x * x * x / 3.0
  }

  /** On lower..upper the samples are the quadratic at the height index, on equal layers of thickness d. */
  predicate Sampled(a: seq<real>, dh: seq<real>, lower: int, upper: int, alpha: real, beta: real, gamma: real, d: real)
  {
    0 <= lower <= upper < |a| == |dh|
    && forall i :: lower <= i <= upper ==> a[i] == Quadratic(alpha, beta, gamma, i as real) && dh[i] == d
  }

  /** One trapezoid is exact on a line. */
  lemma TrapezoidPanel(alpha: real, beta: real, x: real)
    ensures (Quadratic(alpha, beta, 0.0, x) + Quadratic(alpha, beta, 0.0, x + 1.0)) / 2.0
         == Antiderivative(alpha, beta, 0.0, x + 1.0) - Antiderivative(alpha, beta, 0.0, x)
  {
    assert (x + 1.0) * (x + 1.0) == x * x + 2.0 * x + 1.0;
  }

  /** One Simpson panel of two intervals is exact on a parabola. */
  lemma SimpsonPanel(alpha: real, beta: real, gamma: real, x: real)
    ensures (Quadratic(alpha, beta, gamma, x) + 4.0 * Quadratic(alpha, beta, gamma, x + 1.0)
             + Quadratic(alpha, beta, gamma, x + 2.0)) / 3.0
         == Antiderivative(alpha, beta, gamma, x + 2.0) - Antiderivative(alpha, beta, gamma, x)
  {
    assert (x + 1.0) * (x + 1.0) == x * x + 2.0 * x + 1.0;
    assert (x + 2.0) * (x + 2.0) == x * x + 4.0 * x + 4.0;
    assert (x + 2.0) * (x + 2.0) * (x + 2.0) == x * x * x + 6.0 * x * x + 12.0 * x + 8.0;
    assert gamma * (x + 2.0) * (x + 2.0) * (x + 2.0) == gamma * (x * x * x) + gamma * (6.0 * x * x) + gamma * (12.0 * x) + gamma * 8.0;
    assert gamma * (x + 1.0) * (x + 1.0) == gamma * (x * x) + gamma * (2.0 * x) + gamma;
    assert gamma * (x + 2.0) * (x + 2.0) == gamma * (x * x) + gamma * (4.0 * x) + gamma * 4.0;
  }

  /** Scaling the coefficients by d scales the quadratic and its antiderivative by d. */
  lemma Scaled(alpha: real, beta: real, gamma: real, d: real, x: real)
    ensures d * Quadratic(alpha, beta, gamma, x) == Quadratic(d * alpha, d * beta, d * gamma, x)
    ensures d * Antiderivative(alpha, beta, gamma, x) == Antiderivative(d * alpha, d * beta, d * gamma, x)
  {
    assert d * (gamma * x * x) == d * gamma * x * x;
    assert d * (beta * x * x / 2.0) == d * beta * x * x / 2.0;
    assert d * (gamma * x * x * x / 3.0) == d * gamma * x * x * x / 3.0;
  }

  /** The product a[i]·dh[i] as a function of the height, for quadratic samples on layers of
      thickness d, and its antiderivative. */
  function SampleOf(alpha: real, beta: real, gamma: real, d: real): real -> real
  {
    x => Quadratic(d * alpha, d * beta, d * gamma, x)
  }

  function IntegralOf(alpha: real, beta: real, gamma: real, d: real): real -> real
  {
    x => Antiderivative(d * alpha, d * beta, d * gamma, x)
  }

  /** On lower..upper the products a[i]·dh[i] are g at the height index. */
  predicate ProductsBy(a: seq<real>, dh: seq<real>, lower: int, upper: int, g: real -> real)
  {
    0 <= lower <= upper < |a| == |dh| && forall i :: lower <= i <= upper ==> Product(a, dh, i) == g(i as real)
  }

  /** The trapezoid over [x, x + 1], x = i, gives G(x + 1) − G(x). */
  predicate TrapezoidExactAt(g: real -> real, G: real -> real, i: int)
  {
    var x := i as real;
    (g(x) + g(x + 1.0)) / 2.0 == G(x + 1.0) - G(x)
  }

  /** Simpson's panel over [x, x + 2], x = i, gives G(x + 2) − G(x). */
  predicate SimpsonExactAt(g: real -> real, G: real -> real, i: int)
  {
    var x := i as real;
    (g(x) + 4.0 * g(x + 1.0) + g(x + 2.0)) / 3.0 == G(x + 2.0) - G(x)
  }

  lemma QuadraticProducts(a: seq<real>, dh: seq<real>, lower: int, upper: int, alpha: real, beta: real, gamma: real, d: real)
    requires Sampled(a, dh, lower, upper, alpha, beta, gamma, d)
    ensures ProductsBy(a, dh, lower, upper, SampleOf(alpha, beta, gamma, d))
  {
    forall i | lower <= i <= upper
      ensures Product(a, dh, i) == SampleOf(alpha, beta, gamma, d)(i as real)
    {
      ProductAt(a[i], dh[i], alpha, beta, gamma, d, i as real);
    }
  }

  lemma ProductAt(ai: real, dhi: real, alpha: real, beta: real, gamma: real, d: real, x: real)
    requires ai == Quadratic(alpha, beta, gamma, x) && dhi == d
    ensures ai * dhi == SampleOf(alpha, beta, gamma, d)(x)
  {
    Scaled(alpha, beta, gamma, d, x);
  }

  /** d times the integral of the quadratic from lo to hi, taken as the integral of the
      quadratic whose coefficients are scaled by d. */
  function Integral(alpha: real, beta: real, gamma: real, d: real, lo: real, hi: real): real
  {
    Antiderivative(d * alpha, d * beta, d * gamma, hi) - Antiderivative(d * alpha, d * beta, d * gamma, lo)
  }

  /** Integral is d times the difference of the antiderivative. */
  lemma IntegralScales(alpha: real, beta: real, gamma: real, d: real, lo: real, hi: real)
    ensures Integral(alpha, beta, gamma, d, lo, hi)
         == d * (Antiderivative(alpha, beta, gamma, hi) - Antiderivative(alpha, beta, gamma, lo))
  {
    Scaled(alpha, beta, gamma, d, hi);
    Scaled(alpha, beta, gamma, d, lo);
  }

  lemma TrapezoidPanels(alpha: real, beta: real, d: real, lower: int, upper: int)
    ensures forall i :: lower <= i < upper ==> TrapezoidExactAt(SampleOf(alpha, beta, 0.0, d), IntegralOf(alpha, beta, 0.0, d), i)
  {
    forall i | lower <= i < upper
      ensures TrapezoidExactAt(SampleOf(alpha, beta, 0.0, d), IntegralOf(alpha, beta, 0.0, d), i)
    {
      TrapezoidPanel(d * alpha, d * beta, i as real);
      assert d * 0.0 == 0.0;
    }
  }

  lemma SimpsonPanels(alpha: real, beta: real, gamma: real, d: real, lower: int, upper: int)
    ensures forall i :: lower <= i < upper ==> SimpsonExactAt(SampleOf(alpha, beta, gamma, d), IntegralOf(alpha, beta, gamma, d), i)
  {
    forall i | lower <= i < upper
      ensures SimpsonExactAt(SampleOf(alpha, beta, gamma, d), IntegralOf(alpha, beta, gamma, d), i)
    {
      SimpsonPanel(d * alpha, d * beta, d * gamma, i as real);
    }
  }

  /** From an interior index lo on, the trapezoid weights on products g give G(upper) − G(lo)
      plus half the product at lo, when every trapezoid is exact for the antiderivative G. */
  lemma {:induction false} TrapzTail(a: seq<real>, dh: seq<real>, lower: int, upper: int, g: real -> real, G: real -> real, lo: int)
    requires ProductsBy(a, dh, lower, upper, g) && lower < lo <= upper
    requires forall i :: lo <= i < upper ==> TrapezoidExactAt(g, G, i)
    ensures WeightedSum(Trapezoid, a, dh, lower, upper, lo, upper + 1) == G(upper as real) - G(lo as real) + g(lo as real) / 2.0
    decreases upper - lo
  {
    var x := lo as real;
    if lo == upper {
      assert WeightedSum(Trapezoid, a, dh, lower, upper, lo + 1, upper + 1) == 0.0;
    } else {
      assert (lo + 1) as real == x + 1.0;
      TrapzTail(a, dh, lower, upper, g, G, lo + 1);
      assert TrapezoidExactAt(g, G, lo);
    }
  }

  /** The composite trapezoid weights on products g give G(upper) − G(lower) when every
      trapezoid is exact for the antiderivative G. */
  lemma TrapzWeightsExact(a: seq<real>, dh: seq<real>, lower: int, upper: int, g: real -> real, G: real -> real)
    requires ProductsBy(a, dh, lower, upper, g) && lower < upper
    requires forall i :: lower <= i < upper ==> TrapezoidExactAt(g, G, i)
    ensures Composite(Trapezoid, a, dh, lower, upper) == G(upper as real) - G(lower as real)
  {
    var x := lower as real;
    assert (lower + 1) as real == x + 1.0;
    TrapzTail(a, dh, lower, upper, g, G, lower + 1);
    assert TrapezoidExactAt(g, G, lower);
  }

  /** The composite trapezoid weights integrate a line exactly. */
  lemma TrapzWeightsLinear(a: seq<real>, dh: seq<real>, lower: int, upper: int, alpha: real, beta: real, d: real)
    requires Sampled(a, dh, lower, upper, alpha, beta, 0.0, d) && lower < upper
    ensures Composite(Trapezoid, a, dh, lower, upper) == Integral(alpha, beta, 0.0, d, lower as real, upper as real)
  {
    var G := IntegralOf(alpha, beta, 0.0, d);
    assert G(upper as real) - G(lower as real) == Integral(alpha, beta, 0.0, d, lower as real, upper as real);
    assert Composite(Trapezoid, a, dh, lower, upper) == G(upper as real) - G(lower as real) by {
      QuadraticProducts(a, dh, lower, upper, alpha, beta, 0.0, d);
      TrapezoidPanels(alpha, beta, d, lower, upper);
      TrapzWeightsExact(a, dh, lower, upper, SampleOf(alpha, beta, 0.0, d), G);
    }
  }

  /** On linear samples over equal layers the trapezoid rule is exact: it returns d times
      the integral of the line from lower to upper. */
  lemma TrapzLinear(a: seq<real>, dh: seq<real>, lower: int, upper: int, alpha: real, beta: real, d: real)
    requires Sampled(a, dh, lower, upper, alpha, beta, 0.0, d) && lower < upper
    ensures Trapz(a, lower, upper, dh) == Ok(Integral(alpha, beta, 0.0, d, lower as real, upper as real))
  {
    TrapzIsWeighted(a, dh, lower, upper);
    TrapzWeightsLinear(a, dh, lower, upper, alpha, beta, d);
  }

  /** From an interior index lo at an even distance from lower, the Simpson weights on
      products g give G(upper) − G(lo) plus a third of the product at lo, when every panel
      is exact for the antiderivative G. */
  lemma {:induction false} SimpsonTail(a: seq<real>, dh: seq<real>, lower: int, upper: int, g: real -> real, G: real -> real, lo: int)
    requires ProductsBy(a, dh, lower, upper, g) && lower < lo <= upper
    requires (upper - lower) % 2 == 0 && (lo - lower) % 2 == 0
    requires forall i :: lo <= i < upper ==> SimpsonExactAt(g, G, i)
    ensures WeightedSum(SimpsonRule, a, dh, lower, upper, lo, upper + 1) == G(upper as real) - G(lo as real) + g(lo as real) / 3.0
    decreases upper - lo
  {
    var x := lo as real;
    if lo == upper {
      assert WeightedSum(SimpsonRule, a, dh, lower, upper, lo + 1, upper + 1) == 0.0;
    } else {
      assert (lo + 1 - lower) % 2 == 1;
      assert (lo + 1) as real == x + 1.0 && (lo + 2) as real == x + 2.0;
      SimpsonTail(a, dh, lower, upper, g, G, lo + 2);
      assert SimpsonExactAt(g, G, lo);
    }
  }

  /** The composite Simpson weights on products g give G(upper) − G(lower) when every panel
      is exact for the antiderivative G and the number of intervals is even. */
  lemma SimpsonWeightsExact(a: seq<real>, dh: seq<real>, lower: int, upper: int, g: real -> real, G: real -> real)
    requires ProductsBy(a, dh, lower, upper, g) && lower < upper && (upper - lower) % 2 == 0
    requires forall i :: lower <= i < upper ==> SimpsonExactAt(g, G, i)
    ensures Composite(SimpsonRule, a, dh, lower, upper) == G(upper as real) - G(lower as real)
  {
    var x := lower as real;
    assert (lower + 1) as real == x + 1.0 && (lower + 2) as real == x + 2.0;
    assert Weight(SimpsonRule, lower, upper, lower + 1) == 4.0 / 3.0;
    assert Product(a, dh, lower) == g(x) && Product(a, dh, lower + 1) == g(x + 1.0);
    var s2 := WeightedSum(SimpsonRule, a, dh, lower, upper, lower + 2, upper + 1);
    assert WeightedSum(SimpsonRule, a, dh, lower, upper, lower + 1, upper + 1) == 4.0 / 3.0 * g(x + 1.0) + s2;
    assert Composite(SimpsonRule, a, dh, lower, upper) == 1.0 / 3.0 * g(x) + 4.0 / 3.0 * g(x + 1.0) + s2;
    SimpsonTail(a, dh, lower, upper, g, G, lower + 2);
    assert SimpsonExactAt(g, G, lower);
  }

  /** The composite Simpson weights integrate a parabola exactly on an even number of intervals. */
  lemma SimpsonWeightsQuadratic(a: seq<real>, dh: seq<real>, lower: int, upper: int, alpha: real, beta: real, gamma: real, d: real)
    requires Sampled(a, dh, lower, upper, alpha, beta, gamma, d) && lower < upper && (upper - lower) % 2 == 0
    ensures Composite(SimpsonRule, a, dh, lower, upper) == Integral(alpha, beta, gamma, d, lower as real, upper as real)
  {
    var G := IntegralOf(alpha, beta, gamma, d);
    assert G(upper as real) - G(lower as real) == Integral(alpha, beta, gamma, d, lower as real, upper as real);
    assert Composite(SimpsonRule, a, dh, lower, upper) == G(upper as real) - G(lower as real) by {
      QuadraticProducts(a, dh, lower, upper, alpha, beta, gamma, d);
      SimpsonPanels(alpha, beta, gamma, d, lower, upper);
      SimpsonWeightsExact(a, dh, lower, upper, SampleOf(alpha, beta, gamma, d), G);
    }
  }

  /** On quadratic samples over equal layers and an even number of intervals Simpson's
      rule is exact: it returns d times the integral of the parabola from lower to upper. */
  lemma SimpsonQuadratic(a: seq<real>, dh: seq<real>, lower: int, upper: int, alpha: real, beta: real, gamma: real, d: real)
    requires Sampled(a, dh, lower, upper, alpha, beta, gamma, d) && lower < upper && (upper - lower) % 2 == 0
    ensures Simpson(a, lower, upper, dh) == Ok(Integral(alpha, beta, gamma, d, lower as real, upper as real))
  {
    SimpsonIsWeighted(a, dh, lower, upper);
    SimpsonWeightsQuadratic(a, dh, lower, upper, alpha, beta, gamma, d);
  }

  // ---------------------------------------------------------------------------
  // The callable entry point

  /** With lower == 0 the table's indices are the caller's, so `integrate_callable`
      integrates [f(0), ..., f(upper)] with the selected rule. */
  lemma CallableFromZero(name: string, f: int -> Result<real>, upper: int, dh: seq<real>, table: seq<real>)
    requires 0 <= upper && |dh| == upper + 1 && |table| == upper + 1
    requires forall i :: 0 <= i <= upper ==> f(i) == Ok(table[i])
    ensures IntegrateCallable(name, f, 0, upper, dh) == Integrate(name, table, 0, upper, dh)
    ensures IntegrateCallable(name, f, 0, upper, dh) == Ok(Composite(RuleOf(name), table, dh, 0, upper))
  {
    var t := Tabulate(f, 0, upper + 1);
    assert t.Ok? && t.value == table;
    IntegrateIsWeighted(name, table, dh, 0, upper);
  }

  /** Every rule reads a[upper], so a table too short for it makes the rule raise. */
  lemma RuleNeedsUpper(rule: Rule, a: seq<real>, lower: int, upper: int, dh: seq<real>)
    requires upper >= |a| || upper < -|a|
    ensures Apply(rule, a, lower, upper, dh).Err?
  {
    assert Item(a, upper).Err?;
  }

  /** With lower > 0 the table is indexed from 0 while `upper` is not shifted, and with
      lower > upper the table is empty: either way `integrate_callable` raises. */
  lemma CallableOffsetRaises(name: string, f: int -> Result<real>, lower: int, upper: int, dh: seq<real>)
    requires 0 < lower || upper < lower
    ensures IntegrateCallable(name, f, lower, upper, dh).Err?
  {
    var t := Tabulate(f, lower, upper + 1);
    if t.Ok? {
      RuleNeedsUpper(RuleOf(name), t.value, lower, upper, dh);
    }
  }
}
