/** The quadrature engine of integration.py: rank-dispatching accessors, the three
    composite rules over irregularly weighted samples, the rule selection by name and
    the integration of a function tabulated at integer height indices.

    Arrays are modelled as exact reals. Python's indexing (negative indices count from
    the end) and slicing (bounds clamped to the array) and numpy's broadcasting of a
    length-1 operand are written out, because the rules rely on them at the edges.
    The rules are stated for 1-D samples, on which `at` and `diap` reduce to Item and
    Slice (the contracts of At and Diap say exactly that for a Vec), so the rules call
    Item and Slice directly. */
module Integration {
  import opened Results

  /** A numpy value of rank 0, of rank 1, or of rank 2 + extraAxes (contents not modelled). */
  datatype Arr = Scalar(value: real) | Vec(items: seq<real>) | Tensor(extraAxes: nat)

  function Rank(a: Arr): nat
  {
    match a
    case Scalar(_) => 0
    case Vec(_) => 1
    case Tensor(extra) => 2 + extra
  }

  /** Python's `s[i]`: a negative index counts from the end; anything else out of range raises. */
  function Item(s: seq<real>, i: int): (r: Result<real>)
    ensures r.Ok? <==> -|s| <= i < |s|
    ensures r.Err? ==> r.error == IndexError
    ensures 0 <= i < |s| ==> r == Ok(s[i])
    ensures -|s| <= i < 0 ==> r == Ok(s[i + |s|])
  {
    if 0 <= i < |s| then Ok(s[i])
    else if -|s| <= i < 0 then Ok(s[i + |s|])
    else Err(IndexError)
  }

  /** Python accepts `s[i]` exactly for these indices. */
  predicate Within(s: seq<real>, i: int)
  {
    -|s| <= i < |s|
  }

  /** How Python normalises a slice bound for a sequence of length n (positive step). */
  function Bound(i: int, n: nat): (r: nat)
    ensures r <= n
    ensures 0 <= i <= n ==> r == i
  {
    if i < 0 then (if i + n < 0 then 0 else i + n)
    else if i > n then n
    else i
  }

  /** Number of indices lo, lo+step, ... that lie strictly below `hi`. */
  function StrideCount(lo: int, hi: int, step: nat): nat
    requires step > 0
    decreases hi - lo
  {
    if lo >= hi then 0 else 1 + StrideCount(lo + step, hi, step)
  }

  /** s[lo], s[lo+step], ..., keeping only indices strictly below `hi`. */
  function Strided(s: seq<real>, lo: nat, hi: nat, step: nat): (r: seq<real>)
    requires step > 0 && hi <= |s|
    decreases (hi as int) - (lo as int)
    ensures |r| == StrideCount(lo, hi, step)
  {
    if lo >= hi then [] else [s[lo]] + Strided(s, lo + step, hi, step)
  }

  /** The k-th element of a strided slice is s[lo + k·step], and that index is below `hi`. */
  lemma {:induction false} StridedAt(s: seq<real>, lo: nat, hi: nat, step: nat, k: nat)
    requires step > 0 && hi <= |s| && k < |Strided(s, lo, hi, step)|
    decreases k
    ensures lo + k * step < hi && Strided(s, lo, hi, step)[k] == s[lo + k * step]
  {
    if k > 0 {
      StridedAt(s, lo + step, hi, step, k - 1);
      StepShift(lo, step, k);
    }
  }

  /** The index one step past the last element of a strided slice is not below `hi`. */
  lemma {:induction false} StridedEnd(s: seq<real>, lo: nat, hi: nat, step: nat)
    requires step > 0 && hi <= |s|
    decreases (hi as int) - (lo as int)
    ensures lo + |Strided(s, lo, hi, step)| * step >= hi
  {
    if lo < hi {
      var n := |Strided(s, lo + step, hi, step)|;
      StridedEnd(s, lo + step, hi, step);
      StepShift(lo, step, n + 1);
    }
  }

  lemma StepShift(lo: int, step: int, k: int)
    ensures lo + k * step == (lo + step) + (k - 1) * step
  {
  }

  /** Python's `s[start:stop:step]` for a positive step: as many elements as there are
      strides from the normalised start to below the normalised stop, so that one more
      step would reach or pass that stop. */
  function Slice(s: seq<real>, start: int, stop: int, step: nat): (r: seq<real>)
    requires step > 0
    ensures |r| == StrideCount(Bound(start, |s|), Bound(stop, |s|), step)
    ensures Bound(start, |s|) + |r| * step >= Bound(stop, |s|)
  {
    StridedEnd(s, Bound(start, |s|), Bound(stop, |s|), step);
    Strided(s, Bound(start, |s|), Bound(stop, |s|), step)
  }

  /** The k-th element of `s[start:stop:step]` is s[lo + k·step] for the normalised start
      lo, and that index lies below the normalised stop. */
  lemma SliceAt(s: seq<real>, start: int, stop: int, step: nat, k: nat)
    requires step > 0 && k < |Slice(s, start, stop, step)|
    ensures var lo, hi := Bound(start, |s|), Bound(stop, |s|);
      lo + k * step < hi && Slice(s, start, stop, step)[k] == s[lo + k * step]
  {
    StridedAt(s, Bound(start, |s|), Bound(stop, |s|), step, k);
  }

  /** `at(a, index)` (integration.py:18-26): a scalar is returned whatever the index,
      a vector is indexed, any rank other than 0, 1 and 3 raises. */
  function At(a: Arr, index: int): (r: Result<Arr>)
    requires Rank(a) != 3
    ensures a.Scalar? ==> r == Ok(a)
    ensures a.Vec? && 0 <= index < |a.items| ==> r == Ok(Scalar(a.items[index]))
    ensures a.Vec? && -|a.items| <= index < 0 ==> r == Ok(Scalar(a.items[index + |a.items|]))
    ensures a.Vec? && (index < -|a.items| || |a.items| <= index) ==> r == Err(IndexError)
    ensures a.Tensor? ==> r == Err(WrongRank)
  {
    match a
    case Scalar(_) => Ok(a)
    case Vec(items) => var x :- Item(items, index); Ok(Scalar(x))
    case Tensor(_) => Err(WrongRank)
  }

  /** `diap(a, start, stop, step)` (integration.py:7-15): a scalar is returned untouched,
      a vector is sliced, any rank other than 0, 1 and 3 raises. */
  function Diap(a: Arr, start: int, stop: int, step: nat): (r: Result<Arr>)
    requires step > 0 && Rank(a) != 3
    ensures a.Scalar? ==> r == Ok(a)
    ensures a.Vec? ==> r.Ok? && r.value.Vec?
    ensures a.Vec? ==> var lo, hi := Bound(start, |a.items|), Bound(stop, |a.items|);
      forall k :: 0 <= k < |r.value.items| ==> lo + k * step < hi && r.value.items[k] == a.items[lo + k * step]
    ensures a.Vec? ==> Bound(start, |a.items|) + |r.value.items| * step >= Bound(stop, |a.items|)
    ensures a.Tensor? ==> r == Err(WrongRank)
  {
    match a
    case Scalar(_) => Ok(a)
    case Vec(items) =>
      var lo, hi := Bound(start, |items|), Bound(stop, |items|);
      assert forall k :: 0 <= k < |Slice(items, start, stop, step)| ==>
        lo + k * step < hi && Slice(items, start, stop, step)[k] == items[lo + k * step] by {
        forall k | 0 <= k < |Slice(items, start, stop, step)|
          ensures lo + k * step < hi && Slice(items, start, stop, step)[k] == items[lo + k * step]
        {
          SliceAt(items, start, stop, step, k);
        }
      }
      Ok(Vec(Slice(items, start, stop, step)))
    case Tensor(_) => Err(WrongRank)
  }

  /** numpy's elementwise `x op y` on two vectors: equal lengths pair up, a length-1
      operand is broadcast against the other, anything else raises. */
  function Broadcast(x: seq<real>, y: seq<real>, op: (real, real) -> real): (r: Result<seq<real>>)
    ensures r.Ok? <==> |x| == |y| || |x| == 1 || |y| == 1
    ensures r.Err? ==> r.error == BroadcastError
    ensures r.Ok? ==> |r.value| == (if |x| == 1 then |y| else |x|)
    ensures r.Ok? ==> forall i :: 0 <= i < |r.value| ==>
      r.value[i] == op(if |x| == 1 then x[0] else x[i], if |y| == 1 then y[0] else y[i])
  {
    if |x| == |y| then Ok(seq(|x|, i requires 0 <= i < |x| => op(x[i], y[i])))
    else if |x| == 1 then Ok(seq(|y|, i requires 0 <= i < |y| => op(x[0], y[i])))
    else if |y| == 1 then Ok(seq(|x|, i requires 0 <= i < |x| => op(x[i], y[0])))
    else Err(BroadcastError)
  }

  function Times(u: real, v: real): real { u * v }

  function Plus(u: real, v: real): real { u + v }

  /** `np.sum` over the last (only) axis. */
  function Sum(s: seq<real>): real
  {
    if s == [] then 0.0 else s[0] + Sum(s[1..])
  }

  /** `np.sum(diap(a, lo, hi, step) * diap(dh, lo, hi, step))`, the strided sums of the rules. */
  function StridedProducts(a: seq<real>, dh: seq<real>, lo: int, hi: int, step: nat): (r: Result<real>)
    requires step > 0
    ensures |a| == |dh| ==> r.Ok?
    ensures r.Err? ==> r.error == BroadcastError
    ensures 0 <= hi <= lo ==> r == Ok(0.0)
  {
    var p :- Broadcast(Slice(a, lo, hi, step), Slice(dh, lo, hi, step), Times);
    Ok(Sum(p))
  }

  /** The labels of `Integration.Methods` (integration.py:30-33). */
  const TRAPZ: string := "1. Метод трапеций"
  const SIMPSON: string := "2. Формула Симпсона"
  const BOOLE: string := "3. Правило Буля"

  /** `Integration.trapz` (integration.py:36-38). */
  function Trapz(a: seq<real>, lower: int, upper: int, dh: seq<real>): (r: Result<real>)
    ensures |a| == |dh| && 0 <= lower <= upper < |a| ==> r.Ok?
    ensures r.Ok? ==> Within(a, lower) && Within(a, upper) && Within(dh, lower) && Within(dh, upper)
  {
    var inner :- StridedProducts(a, dh, lower + 1, upper, 1);
    var al :- Item(a, lower);
    var dl :- Item(dh, lower);
    var au :- Item(a, upper);
    var du :- Item(dh, upper);
    Ok(inner + (al * dl + au * du) / 2.0)
  }

  /** `Integration.simpson` (integration.py:41-44). */
  function Simpson(a: seq<real>, lower: int, upper: int, dh: seq<real>): (r: Result<real>)
    ensures |a| == |dh| && 0 <= lower <= upper < |a| ==> r.Ok?
    ensures r.Ok? ==> Within(a, lower) && Within(a, upper) && Within(dh, lower) && Within(dh, upper)
  {
    var al :- Item(a, lower);
    var dl :- Item(dh, lower);
    var au :- Item(a, upper);
    var du :- Item(dh, upper);
    var odd :- StridedProducts(a, dh, lower + 1, upper, 2);
    var even :- StridedProducts(a, dh, lower + 2, upper, 2);
    Ok((al * dl + au * du + 4.0 * odd + 2.0 * even) / 3.0)
  }

  /** `Integration.boole` (integration.py:47-51). */
  function Boole(a: seq<real>, lower: int, upper: int, dh: seq<real>): (r: Result<real>)
    ensures |a| == |dh| && 0 <= lower <= upper < |a| ==> r.Ok?
    ensures r.Ok? ==> Within(a, lower) && Within(a, upper) && Within(dh, lower) && Within(dh, upper)
  {
    var al :- Item(a, lower);
    var dl :- Item(dh, lower);
    var au :- Item(a, upper);
    var du :- Item(dh, upper);
    var odd :- StridedProducts(a, dh, lower + 1, upper, 2);
    var two :- StridedProducts(a, dh, lower + 2, upper, 4);
    var four :- StridedProducts(a, dh, lower + 4, upper, 4);
    Ok((14.0 * (al * dl + au * du) + 64.0 * odd + 24.0 * two + 28.0 * four) / 45.0)
  }

  /** `Integration.integrate` (integration.py:54-60): any name but the first two means Boole. */
  function Integrate(name: string, a: seq<real>, lower: int, upper: int, dh: seq<real>): (r: Result<real>)
    ensures |a| == |dh| && 0 <= lower <= upper < |a| ==> r.Ok?
    ensures r.Ok? ==> Within(a, lower) && Within(a, upper) && Within(dh, lower) && Within(dh, upper)
  {
    if name == TRAPZ then Trapz(a, lower, upper, dh)
    else if name == SIMPSON then Simpson(a, lower, upper, dh)
    else Boole(a, lower, upper, dh)
  }

  /** `[f(i) for i in range(lo, hi)]`: the first call that raises aborts the list. */
  function Tabulate(f: int -> Result<real>, lo: int, hi: int): (r: Result<seq<real>>)
    decreases hi - lo
    ensures r.Ok? <==> forall i :: lo <= i < hi ==> f(i).Ok?
    ensures r.Ok? ==> |r.value| == (if lo < hi then hi - lo else 0)
    ensures r.Ok? ==> forall k :: 0 <= k < |r.value| ==> r.value[k] == f(lo + k).value
  {
    if lo >= hi then Ok([])
    else
      var x :- f(lo);
      var rest :- Tabulate(f, lo + 1, hi);
      Ok([x] + rest)
  }

  /** `Integration.integrate_callable` (integration.py:63-67) for a scalar-valued `f`:
      the table is indexed lo 0 while `dh` keeps the caller's indices. */
  function IntegrateCallable(name: string, f: int -> Result<real>, lower: int, upper: int, dh: seq<real>): (r: Result<real>)
    ensures r.Ok? ==> lower <= upper && Within(dh, lower) && Within(dh, upper)
    ensures r.Ok? ==> forall i :: lower <= i <= upper ==> f(i).Ok?
    ensures lower == 0 <= upper && |dh| == upper + 1 && (forall i :: 0 <= i <= upper ==> f(i).Ok?) ==> r.Ok?
  {
    var a :- Tabulate(f, lower, upper + 1);
    Integrate(name, a, lower, upper, dh)
  }
}
