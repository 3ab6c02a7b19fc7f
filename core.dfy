/** The radiative-transfer driver of core.py: preparing the atmospheric profile (altitude
    window, layer thicknesses), the downwelling brightness temperature at one frequency
    (an integral nested inside another), the progress counter that throttles its writes,
    and the run over the frequency grid that collects, sorts and saves the spectrum.

    The attenuation models, the exponential and the cosine are parameters (`Externals`).
    The process pool is an arbitrary arrival order of the frequencies, and the two files
    under `.tmp` are an append-only log of writes (`Store`). */
module Core {
  import opened Results
  import opened Integration
  import opened Quadrature
  import Vapor

  // ---------------------------------------------------------------------------
  // Profile preparation (core.py:47-51)

  /** `(h_start <= alt) & (alt <= h_stop)`. */
  function Window(alt: seq<real>, hStart: real, hStop: real): (m: seq<bool>)
    ensures |m| == |alt|
    ensures forall i :: 0 <= i < |alt| ==> (m[i] <==> hStart <= alt[i] <= hStop)
  {
    seq(|alt|, i requires 0 <= i < |alt| => hStart <= alt[i] && alt[i] <= hStop)
  }

  /** numpy's boolean indexing `s[m]`: the elements where the mask holds, in order. */
  function Select(s: seq<real>, m: seq<bool>): (r: seq<real>)
    requires |s| == |m|
    ensures |r| == |Kept(m)|
  {
    if s == [] then []
    else (if m[0] then [s[0]] else []) + Select(s[1..], m[1..])
  }

  /** The indices where the mask holds, in increasing order. */
  function Kept(m: seq<bool>): (r: seq<nat>)
  {
    if m == [] then []
    else (if m[0] then [0] else []) + Shift(Kept(m[1..]))
  }

  function Shift(s: seq<nat>): (r: seq<nat>)
    ensures |r| == |s| && forall k :: 0 <= k < |s| ==> r[k] == s[k] + 1
  {
    seq(|s|, k requires 0 <= k < |s| => s[k] + 1)
  }

  /** The kept indices are in range and the mask holds at each of them. */
  lemma {:induction false} KeptSound(m: seq<bool>)
    ensures forall k :: 0 <= k < |Kept(m)| ==> Kept(m)[k] < |m| && m[Kept(m)[k]]
  {
    if m != [] {
      KeptSound(m[1..]);
      var head: seq<nat> := if m[0] then [0] else [];
      assert Kept(m) == head + Shift(Kept(m[1..]));
    }
  }

  /** The kept indices are strictly increasing. */
  lemma {:induction false} KeptIncreasing(m: seq<bool>)
    ensures forall k, l :: 0 <= k < l < |Kept(m)| ==> Kept(m)[k] < Kept(m)[l]
  {
    if m != [] {
      KeptIncreasing(m[1..]);
      var head: seq<nat> := if m[0] then [0] else [];
      assert Kept(m) == head + Shift(Kept(m[1..]));
    }
  }

  /** Every index where the mask holds is kept. */
  lemma {:induction false} KeptComplete(m: seq<bool>)
    ensures forall i :: 0 <= i < |m| && m[i] ==> i in Kept(m)
  {
    if m != [] {
      var rest := Kept(m[1..]);
      KeptComplete(m[1..]);
      var head: seq<nat> := if m[0] then [0] else [];
      assert Kept(m) == head + Shift(rest);
      forall i | 0 <= i < |m| && m[i] ensures i in Kept(m) {
        if i > 0 {
          assert m[1..][i - 1];
          var k :| 0 <= k < |rest| && rest[k] == i - 1;
          assert Kept(m)[|head| + k] == i;
        }
      }
    }
  }

  /** The kept indices are increasing, in range, and exactly those where the mask holds. */
  lemma KeptIndices(m: seq<bool>)
    ensures forall k :: 0 <= k < |Kept(m)| ==> Kept(m)[k] < |m| && m[Kept(m)[k]]
    ensures forall k, l :: 0 <= k < l < |Kept(m)| ==> Kept(m)[k] < Kept(m)[l]
    ensures forall i :: 0 <= i < |m| && m[i] ==> i in Kept(m)
  {
    KeptSound(m);
    KeptIncreasing(m);
    KeptComplete(m);
  }

  /** Selecting with a mask picks the elements at the kept indices: the same indices for
      every array filtered with the same mask, which keeps them aligned. */
  lemma SelectAt(s: seq<real>, m: seq<bool>)
    requires |s| == |m|
    ensures |Select(s, m)| == |Kept(m)|
    ensures forall k :: 0 <= k < |Kept(m)| ==> Kept(m)[k] < |s| && Select(s, m)[k] == s[Kept(m)[k]]
  {
    forall k | 0 <= k < |Kept(m)| ensures Kept(m)[k] < |s| && Select(s, m)[k] == s[Kept(m)[k]] {
      SelectIndex(s, m, k);
    }
  }

  /** The k-th selected element is the element at the k-th kept index. */
  lemma {:induction false} SelectIndex(s: seq<real>, m: seq<bool>, k: nat)
    requires |s| == |m| && k < |Kept(m)|
    ensures Kept(m)[k] < |s| && Select(s, m)[k] == s[Kept(m)[k]]
    decreases |s|
  {
    var rest, kept := Select(s[1..], m[1..]), Shift(Kept(m[1..]));
    if m[0] {
      assert Select(s, m) == [s[0]] + rest && Kept(m) == [0] + kept;
      if k > 0 {
        SelectIndex(s[1..], m[1..], k - 1);
        assert Kept(m)[k] == kept[k - 1] == Kept(m[1..])[k - 1] + 1;
      }
    } else {
      assert Select(s, m) == rest && Kept(m) == kept;
      SelectIndex(s[1..], m[1..], k);
    }
  }

  /** The window filter keeps exactly the samples inside [hStart, hStop], in their order. */
  lemma WindowFilter(alt: seq<real>, hStart: real, hStop: real)
    ensures var m := Window(alt, hStart, hStop);
      forall k :: 0 <= k < |Select(alt, m)| ==> hStart <= Select(alt, m)[k] <= hStop
    ensures var m := Window(alt, hStart, hStop);
      forall i :: 0 <= i < |alt| && hStart <= alt[i] <= hStop ==> i in Kept(m)
    ensures var m := Window(alt, hStart, hStop);
      forall k, l :: 0 <= k < l < |Kept(m)| ==> Kept(m)[k] < Kept(m)[l]
  {
    var m := Window(alt, hStart, hStop);
    SelectAt(alt, m);
    KeptIndices(m);
  }

  /** `np.diff`: differences of neighbours, one fewer than the elements. */
  function Diff(s: seq<real>): (r: seq<real>)
    ensures |r| == if s == [] then 0 else |s| - 1
  {
    if |s| <= 1 then [] else seq(|s| - 1, i requires 0 <= i < |s| - 1 => s[i + 1] - s[i])
  }

  /** `np.diff(np.insert(alt, 0, h_start))`: the layer thicknesses (core.py:50). */
  function Thickness(alt: seq<real>, hStart: real): (dh: seq<real>)
    ensures |dh| == |alt|
    ensures |alt| > 0 ==> dh[0] == alt[0] - hStart
    ensures forall i :: 0 < i < |alt| ==> dh[i] == alt[i] - alt[i - 1]
  {
    Diff([hStart] + alt)
  }

  /** The differences telescope: they add up to last minus first. */
  lemma {:induction false} SumDiff(s: seq<real>)
    requires |s| > 0
    ensures Sum(Diff(s)) == s[|s| - 1] - s[0]
  {
    if |s| > 1 {
      var d, rest := Diff(s), Diff(s[1..]);
      assert d[1..] == rest by {
        forall i | 0 <= i < |rest| ensures d[1..][i] == rest[i] {
          assert d[i + 1] == s[i + 2] - s[i + 1];
        }
      }
      assert d == [d[0]] + d[1..];
      SumDiff(s[1..]);
    }
  }

  /** The layers span the window from hStart up to the highest kept altitude. */
  lemma ThicknessSum(alt: seq<real>, hStart: real)
    ensures Sum(Thickness(alt, hStart)) == if alt == [] then 0.0 else alt[|alt| - 1] - hStart
  {
    SumDiff([hStart] + alt);
  }

  // ---------------------------------------------------------------------------
  // The downwelling brightness temperature (core.py:54-76)

  /** A specific attenuation model: (model, frequency, T, P, rho) to one value per height. */
  type Gamma = (string, real, seq<real>, seq<real>, seq<Result<real>>) -> seq<real>

  /** What the driver calls but this model does not define: numpy's exponential and
      cosine, and the oxygen and water-vapour attenuation models. */
  datatype Externals = Externals(exp: real -> real, cos: real -> real, oxygen: Gamma, waterVapor: Gamma)

  /** The prepared profile that `bt_downwelling` reads. An `Err` entry of `rho` marks a layer
      where the scalar humidity conversion divides by zero; numpy stores inf or nan there
      (or 0, at the pole of the saturated-pressure exponent, where exp(−inf) = 0). */
  datatype Profile = Profile(
    oxygenModel: string, waterVaporModel: string, integrationMethod: string,
    T: seq<real>, P: seq<real>, rho: seq<Result<real>>, dh: seq<real>,
    sec: real, relicBackground: bool)

  /** One row of the spectrum: a frequency and its brightness temperature. */
  datatype Sample = Sample(nu: real, tb: real)

  /** The temperature of the cosmic microwave background, in kelvin (core.py:74). */
  const RELIC: real := 2.72548

  /** `g`, the total attenuation per height along the slant path (core.py:56-61). */
  function Attenuation(p: Profile, ext: Externals, nu: real): (r: Result<seq<real>>)
    ensures var ox, wv := ext.oxygen(p.oxygenModel, nu, p.T, p.P, p.rho),
                          ext.waterVapor(p.waterVaporModel, nu, p.T, p.P, p.rho);
      r.Ok? <==> |ox| == |wv| || |ox| == 1 || |wv| == 1
    ensures r.Err? ==> r.error == BroadcastError
    ensures var ox, wv := ext.oxygen(p.oxygenModel, nu, p.T, p.P, p.rho),
                          ext.waterVapor(p.waterVaporModel, nu, p.T, p.P, p.rho);
      r.Ok? && |ox| == |wv| ==>
        |r.value| == |ox| && forall i :: 0 <= i < |ox| ==> r.value[i] == p.sec * (ox[i] + wv[i])
  {
    var total :- Broadcast(ext.oxygen(p.oxygenModel, nu, p.T, p.P, p.rho),
                           ext.waterVapor(p.waterVaporModel, nu, p.T, p.P, p.rho), Plus);
    Ok(seq(|total|, i requires 0 <= i < |total| => p.sec * total[i]))
  }

  /** `T + 273.15` elementwise. */
  function Kelvin(T: seq<real>): (r: seq<real>)
    ensures |r| == |T| && forall i :: 0 <= i < |T| ==> r[i] == T[i] + 273.15
  {
    seq(|T|, i requires 0 <= i < |T| => T[i] + 273.15)
  }

  /** The inner `f(h)` (core.py:64-66): the emission of layer h, attenuated by the optical
      depth from the ground up to h. `at` on a vector is Python indexing (`Item`). */
  function Emission(p: Profile, ext: Externals, g: seq<real>, h: int): (r: Result<real>)
    ensures r.Ok? ==> Within(g, h) && -|p.T| <= h < |p.T| && Integrate(p.integrationMethod, g, 0, h, p.dh).Ok?
    ensures r.Ok? && 0 <= h ==>
      r.value == (p.T[h] + 273.15) * g[h] * ext.exp(-1.0 * Integrate(p.integrationMethod, g, 0, h, p.dh).value)
    ensures 0 <= h < |g| && |g| == |p.T| == |p.dh| ==> r.Ok?
  {
    var depth, t, gh := Integrate(p.integrationMethod, g, 0, h, p.dh), Item(Kelvin(p.T), h), Item(g, h);
    if depth.Err? then Err(depth.error)
    else if t.Err? then Err(t.error)
    else if gh.Err? then Err(gh.error)
    else Ok(t.value * gh.value * ext.exp(-1.0 * depth.value))
  }

  /** `brt`: the outer integral, of f over heights 0 .. len(g)-1 (core.py:68-69). */
  function Brightness(p: Profile, ext: Externals, g: seq<real>): (r: Result<real>)
    ensures g == [] ==> r.Err?
    ensures r.Ok? ==> forall h :: 0 <= h < |g| ==> Emission(p, ext, g, h).Ok?
    ensures 0 < |g| && |g| == |p.T| == |p.dh| ==> r.Ok?
  {
    var f := h => Emission(p, ext, g, h);
    var r := IntegrateCallable(p.integrationMethod, f, 0, |g| - 1, p.dh);
    assert r.Ok? ==> forall h :: 0 <= h < |g| ==> Emission(p, ext, g, h).Ok? by {
      if r.Ok? {
        forall h | 0 <= h < |g| ensures Emission(p, ext, g, h).Ok? {
          assert f(h).Ok?;
        }
      }
    }
    r
  }

  /** The relic background seen through the whole column, or 0 (core.py:71-74). */
  function Background(p: Profile, ext: Externals, g: seq<real>): (r: Result<real>)
    ensures !p.relicBackground ==> r == Ok(0.0)
    ensures p.relicBackground ==> (r.Ok? <==> Integrate(p.integrationMethod, g, 0, |g| - 1, p.dh).Ok?)
    ensures p.relicBackground && r.Ok? ==>
      r.value == RELIC * ext.exp(-1.0 * Integrate(p.integrationMethod, g, 0, |g| - 1, p.dh).value)
  {
    if p.relicBackground then
      var tau := Integrate(p.integrationMethod, g, 0, |g| - 1, p.dh);
      if tau.Ok? then Ok(RELIC * ext.exp(-1.0 * tau.value)) else Err(tau.error)
    else Ok(0.0)
  }

  /** `bt_downwelling(nu)` (core.py:54-76): the frequency and its brightness temperature. */
  function BtDownwelling(p: Profile, ext: Externals, nu: real): (r: Result<Sample>)
    ensures r.Ok? ==> r.value.nu == nu
    ensures r.Ok? ==> Attenuation(p, ext, nu).Ok? && var g := Attenuation(p, ext, nu).value;
      Brightness(p, ext, g).Ok? && Background(p, ext, g).Ok?
      && r.value.tb == Brightness(p, ext, g).value + Background(p, ext, g).value
  {
    var g :- Attenuation(p, ext, nu);
    var brt :- Brightness(p, ext, g);
    var background :- Background(p, ext, g);
    Ok(Sample(nu, brt + background))
  }

  /** Without the relic background the temperature is the outer integral alone. */
  lemma NoBackground(p: Profile, ext: Externals, nu: real)
    requires BtDownwelling(p, ext, nu).Ok? && !p.relicBackground
    ensures Attenuation(p, ext, nu).Ok?
    ensures var g := Attenuation(p, ext, nu).value;
      Brightness(p, ext, g).Ok? && BtDownwelling(p, ext, nu).value.tb == Brightness(p, ext, g).value
  {
  }

  /** The outer integral is the quadrature rule applied to the table of f(0) .. f(len(g)-1),
      weighted by the layer thicknesses. */
  lemma OuterIntegral(p: Profile, ext: Externals, g: seq<real>, table: seq<real>)
    requires |g| > 0 && |p.dh| == |g| && |table| == |g|
    requires forall h :: 0 <= h < |g| ==> Emission(p, ext, g, h) == Ok(table[h])
    ensures Brightness(p, ext, g) == Ok(Quadrature.Composite(RuleOf(p.integrationMethod), table, p.dh, 0, |g| - 1))
  {
    CallableFromZero(p.integrationMethod, h => Emission(p, ext, g, h), |g| - 1, p.dh, table);
  }

  /** An empty altitude window leaves no heights: the outer integral indexes an empty
      table and raises IndexError rather than producing a value. */
  lemma EmptyWindow(p: Profile, ext: Externals, nu: real)
    requires Attenuation(p, ext, nu) == Ok([]) && p.dh == []
    ensures BtDownwelling(p, ext, nu) == Err(IndexError)
  {
    var f := h => Emission(p, ext, [], h);
    assert Tabulate(f, 0, 0) == Ok([]);
    var b := Brightness(p, ext, []);
    assert b == Integrate(p.integrationMethod, [], 0, -1, []);
    assert StridedProducts([], [], 1, -1, 1) == Ok(0.0);
    assert b == Err(IndexError);
  }

  // ---------------------------------------------------------------------------
  // The spectrum: results sorted by frequency (core.py:82-89)

  predicate SortedByFrequency(s: seq<Sample>)
  {
    forall i, j :: 0 <= i < j < |s| ==> s[i].nu <= s[j].nu
  }

  /** Inserts x after every row whose frequency is not above its own. */
  function InsertByFrequency(x: Sample, s: seq<Sample>): (r: seq<Sample>)
    ensures multiset(r) == multiset(s) + multiset{x}
  {
    if s == [] || x.nu < s[0].nu then [x] + s
    else
      assert s == [s[0]] + s[1..];
      [s[0]] + InsertByFrequency(x, s[1..])
  }

  /** Every row of the insertion is the new row or a row of s. */
  lemma InsertedFrom(x: Sample, s: seq<Sample>, k: int)
    requires 0 <= k < |InsertByFrequency(x, s)|
    ensures InsertByFrequency(x, s)[k] == x || InsertByFrequency(x, s)[k] in s
  {
    var r := InsertByFrequency(x, s);
    assert r[k] in multiset(s) + multiset{x};
  }

  /** Insertion into a sorted sequence keeps it sorted. */
  lemma {:induction false} InsertSorted(x: Sample, s: seq<Sample>)
    requires SortedByFrequency(s)
    ensures SortedByFrequency(InsertByFrequency(x, s))
  {
    if s != [] && x.nu >= s[0].nu {
      var rest := InsertByFrequency(x, s[1..]);
      InsertSorted(x, s[1..]);
      var r := [s[0]] + rest;
      assert r == InsertByFrequency(x, s);
      forall i, j | 0 <= i < j < |r| ensures r[i].nu <= r[j].nu {
        if i > 0 {
          assert r[i] == rest[i - 1] && r[j] == rest[j - 1];
        } else {
          InsertedFrom(x, s[1..], j - 1);
        }
      }
    }
  }

  /** `sorted(results, key=lambda _: _[0])`: a stable sort by frequency. */
  function SortByFrequency(s: seq<Sample>): (r: seq<Sample>)
    ensures multiset(r) == multiset(s)
    ensures SortedByFrequency(r)
  {
    if s == [] then []
    else
      assert s == s[..|s| - 1] + [s[|s| - 1]];
      var sorted := SortByFrequency(s[..|s| - 1]);
      InsertSorted(s[|s| - 1], sorted);
      InsertByFrequency(s[|s| - 1], sorted)
  }

  /** A computation of one spectrum row per frequency, such as `bt_downwelling`. */
  type Solver = real -> Result<Sample>

  /** The solver returns the frequency it was given as the first component of its row. */
  ghost predicate KeepsFrequency(bt: Solver)
  {
    forall nu :: bt(nu).Ok? ==> bt(nu).value.nu == nu
  }

  /** Every row of the sequence is what the solver returns for its frequency. */
  predicate Genuine(bt: Solver, s: seq<Sample>)
  {
    forall i :: 0 <= i < |s| ==> bt(s[i].nu) == Ok(s[i])
  }

  lemma GenuinePermutation(bt: Solver, a: seq<Sample>, b: seq<Sample>)
    requires multiset(a) == multiset(b) && Genuine(bt, a)
    ensures Genuine(bt, b)
  {
    forall i | 0 <= i < |b| ensures bt(b[i].nu) == Ok(b[i]) {
      assert b[i] in multiset(a);
    }
  }

  /** Two frequency-sorted arrangements of the same genuine rows are the same sequence:
      a frequency determines its row. */
  lemma {:induction false} SortedUnique(bt: Solver, a: seq<Sample>, b: seq<Sample>)
    requires SortedByFrequency(a) && SortedByFrequency(b)
    requires multiset(a) == multiset(b) && Genuine(bt, a)
    ensures a == b
    decreases |a|
  {
    assert |a| == |multiset(a)| == |b|;
    if a != [] {
      SortedHeads(bt, a, b);
      MultisetHead(a);
      MultisetHead(b);
      MultisetCancel(multiset(a[1..]), multiset(b[1..]), a[0]);
      SortedUnique(bt, a[1..], b[1..]);
      assert a == [a[0]] + a[1..] && b == [b[0]] + b[1..];
    }
  }

  /** Two frequency-sorted arrangements of the same genuine rows start with the same row. */
  lemma SortedHeads(bt: Solver, a: seq<Sample>, b: seq<Sample>)
    requires SortedByFrequency(a) && SortedByFrequency(b) && a != []
    requires multiset(a) == multiset(b) && Genuine(bt, a)
    ensures b != [] && a[0] == b[0]
  {
    GenuinePermutation(bt, a, b);
    assert a[0] in multiset(b);
    var j :| 0 <= j < |b| && b[j] == a[0];
    assert b[0] in multiset(a);
    var i :| 0 <= i < |a| && a[i] == b[0];
    assert a[0].nu == b[0].nu;
  }

  /** The first element and the rest make up the whole. */
  lemma MultisetHead<T>(s: seq<T>)
    requires s != []
    ensures multiset(s) == multiset(s[1..]) + multiset{s[0]}
  {
    assert s == [s[0]] + s[1..];
  }

  lemma MultisetCancel<T>(m: multiset<T>, n: multiset<T>, x: T)
    requires m + multiset{x} == n + multiset{x}
    ensures m == n
  {
    assert m == (m + multiset{x}) - multiset{x};
    assert n == (n + multiset{x}) - multiset{x};
  }

  /** The solver succeeds at every frequency of the grid. */
  predicate Computed(bt: Solver, nus: seq<real>)
  {
    forall i :: 0 <= i < |nus| ==> bt(nus[i]).Ok?
  }

  /** The rows for the frequencies in the given order. */
  function Rows(bt: Solver, nus: seq<real>): (r: seq<Sample>)
    requires Computed(bt, nus)
    ensures |r| == |nus|
  {
    seq(|nus|, i requires 0 <= i < |nus| => bt(nus[i]).value)
  }

  /** A solver that keeps its frequency produces genuine rows. */
  lemma RowsGenuine(bt: Solver, nus: seq<real>)
    requires KeepsFrequency(bt) && Computed(bt, nus)
    ensures Genuine(bt, Rows(bt, nus))
  {
    var r := Rows(bt, nus);
    forall i | 0 <= i < |r| ensures bt(r[i].nu) == Ok(r[i]) {
      var o := bt(nus[i]);
      assert o.Ok? && r[i] == o.value && o.value.nu == nus[i];
    }
  }

  /** The saved spectrum: the rows for the grid, sorted by frequency. */
  function Spectrum(bt: Solver, nus: seq<real>): (r: seq<Sample>)
    requires Computed(bt, nus)
    ensures |r| == |nus| && SortedByFrequency(r) && multiset(r) == multiset(Rows(bt, nus))
  {
    var r := SortByFrequency(Rows(bt, nus));
    assert |multiset(r)| == |multiset(Rows(bt, nus))|;
    r
  }

  lemma ComputedPermutation(bt: Solver, a: seq<real>, b: seq<real>)
    requires multiset(a) == multiset(b) && Computed(bt, a)
    ensures Computed(bt, b)
  {
    forall i | 0 <= i < |b| ensures bt(b[i]).Ok? {
      assert b[i] in multiset(a);
    }
  }

  /** Removing the j-th frequency removes the j-th row. */
  lemma RowsWithout(bt: Solver, b: seq<real>, j: int)
    requires Computed(bt, b) && 0 <= j < |b|
    ensures Computed(bt, b[..j] + b[j + 1..])
    ensures multiset(Rows(bt, b)) == multiset(Rows(bt, b[..j] + b[j + 1..])) + multiset{bt(b[j]).value}
  {
    var rest := b[..j] + b[j + 1..];
    assert forall i :: 0 <= i < |rest| ==> rest[i] == (if i < j then b[i] else b[i + 1]);
    var rows := Rows(bt, b);
    var left := rows[..j] + rows[j + 1..];
    var fewer := Rows(bt, rest);
    assert |fewer| == |left|;
    forall i | 0 <= i < |left| ensures fewer[i] == left[i] {
      if i < j {
        assert fewer[i] == bt(b[i]).value;
      } else {
        assert fewer[i] == bt(b[i + 1]).value;
      }
    }
    assert fewer == left;
    assert rows == rows[..j] + [rows[j]] + rows[j + 1..];
  }

  /** Removing the j-th element removes one occurrence of it. */
  lemma MultisetWithout(b: seq<real>, j: int)
    requires 0 <= j < |b|
    ensures multiset(b) == multiset(b[..j] + b[j + 1..]) + multiset{b[j]}
  {
    assert b == b[..j] + [b[j]] + b[j + 1..];
  }

  /** Rows for frequencies that arrive in another order are the same rows in another order. */
  lemma {:induction false} RowsPermutation(bt: Solver, a: seq<real>, b: seq<real>)
    requires multiset(a) == multiset(b) && Computed(bt, a)
    ensures Computed(bt, b)
    ensures multiset(Rows(bt, a)) == multiset(Rows(bt, b))
    decreases |a|
  {
    ComputedPermutation(bt, a, b);
    if a != [] {
      var x := a[0];
      assert x in multiset(b);
      var j :| 0 <= j < |b| && b[j] == x;
      var rest := b[..j] + b[j + 1..];
      MultisetWithout(b, j);
      var ma, mr := multiset(a[1..]), multiset(rest);
      assert a == [x] + a[1..];
      assert multiset(a) == ma + multiset{x};
      MultisetCancel(ma, mr, x);
      RowsPermutation(bt, a[1..], rest);
      RowsStep(bt, a, b, j);
    }
  }

  /** Matching the first frequency of a with the j-th of b reduces the comparison of
      their rows to the rest. */
  lemma RowsStep(bt: Solver, a: seq<real>, b: seq<real>, j: int)
    requires Computed(bt, a) && Computed(bt, b) && a != [] && 0 <= j < |b| && b[j] == a[0]
    requires Computed(bt, a[1..]) && Computed(bt, b[..j] + b[j + 1..])
    requires multiset(Rows(bt, a[1..])) == multiset(Rows(bt, b[..j] + b[j + 1..]))
    ensures multiset(Rows(bt, a)) == multiset(Rows(bt, b))
  {
    RowsWithout(bt, b, j);
    var ra := Rows(bt, a);
    var rt := Rows(bt, a[1..]);
    assert ra == [ra[0]] + rt;
  }

  /** The spectrum does not depend on the order in which the frequencies' rows arrive. */
  lemma SpectrumIndependent(bt: Solver, arrivals: seq<real>, nus: seq<real>)
    requires KeepsFrequency(bt)
    requires multiset(arrivals) == multiset(nus) && Computed(bt, arrivals)
    ensures Computed(bt, nus)
    ensures SortByFrequency(Rows(bt, arrivals)) == Spectrum(bt, nus)
  {
    RowsPermutation(bt, arrivals, nus);
    var a := SortByFrequency(Rows(bt, arrivals));
    RowsGenuine(bt, arrivals);
    GenuinePermutation(bt, Rows(bt, arrivals), a);
    SortedUnique(bt, a, Spectrum(bt, nus));
  }

  /** `bt_downwelling` on a prepared profile is a solver that keeps its frequency. */
  lemma DownwellingKeepsFrequency(p: Profile, ext: Externals)
    ensures KeepsFrequency(nu => BtDownwelling(p, ext, nu))
  {
    var bt := nu => BtDownwelling(p, ext, nu);
    forall nu | bt(nu).Ok? ensures bt(nu).value.nu == nu {
      assert bt(nu) == BtDownwelling(p, ext, nu);
    }
  }

  // ---------------------------------------------------------------------------
  // The files under .tmp (core.py:28-29, 91-95)

  /** A write to `.tmp`: the progress percent, or the saved spectrum. */
  datatype Event = Progress(percent: int) | Saved(rows: seq<Sample>)

  /** Two writes after a log and its reports leave the log in front, then the reports,
      then the two events. */
  lemma Appended(log: seq<Event>, reports: seq<Event>, x: Event, y: Event, events: seq<Event>)
    requires events == log + reports + [x] + [y]
    ensures events == log + reports + [x, y]
    ensures events[..|log|] == log && events[|log|..] == reports + [x, y]
    ensures forall i :: |log| <= i < |log| + |reports| ==> events[i] == reports[i - |log|]
  {
    assert events[..|log|] == log;
    assert events[|log|..] == reports + [x, y];
  }

  /** The `.tmp` directory, as the sequence of writes made to it. */
  class Store {
    var events: seq<Event>

    constructor()
      ensures events == []
    {
      events := [];
    }

    method Write(e: Event)
      modifies this
      ensures events == old(events) + [e]
    {
      events := events + [e];
    }
  }

  // ---------------------------------------------------------------------------
  // The progress counter (core.py:12-30)

  /** Python's `int(x)`: truncation toward zero. */
  function Truncate(x: real): (r: int)
    ensures 0.0 <= x ==> r as real <= x < r as real + 1.0
    ensures x < 0.0 ==> r as real - 1.0 < x <= r as real
  {
    if x >= 0.0 then x.Floor else -((-x).Floor)
  }

  /** The percent the setter writes for a count `value` out of `total` (core.py:24-26). */
  function Percent(value: int, total: int): (p: int)
    requires total != 0
    ensures p <= 99
    ensures var x := value as real / total as real * 100.0;
      (x < 100.0 ==> p == Truncate(x)) && (x >= 100.0 ==> p == 99)
    ensures 0 <= value && 0 < total ==> 0 <= p
  {
    var q := Truncate(value as real / total as real * 100.0);
    if q >= 100 then 99 else q
  }

  /** The reported percent never goes back as the count grows. */
  lemma PercentMonotone(v: int, w: int, total: int)
    requires 0 < total && v <= w
    ensures Percent(v, total) <= Percent(w, total)
  {
    var t := total as real;
    var x, y := v as real / t, w as real / t;
    assert x * t == v as real && y * t == w as real;
    assert (y - x) * t == (w - v) as real;
    assert x <= y;
    assert x * 100.0 <= y * 100.0;
  }

  /** How many of m successive assignments, starting with the counter at k, write. */
  function Writes(k: nat, m: nat): nat
  {
    if m == 0 then 0 else Writes(k, m - 1) + (if (k + m - 1) % 10 == 0 then 1 else 0)
  }

  /** From a fresh counter, the assignments that write are the 1st, the 11th, the 21st, ... */
  lemma {:induction false} ThrottledWrites(m: nat)
    ensures Writes(0, m) == (m + 9) / 10
  {
    if m > 0 {
      ThrottledWrites(m - 1);
    }
  }

  /** `Tqdm`: the progress bar whose `n` setter also reports to `.tmp/progress`. */
  class ProgressBar {
    var n: int
    var k: nat
    const total: int
    const store: Store

    /** The object before tqdm's own `__init__` runs: the counter is zeroed (core.py:14)
        and the total stored; the count is not assigned yet. */
    constructor(total: int, store: Store)
      ensures this.total == total && this.store == store && n == 0 && k == 0
    {
      this.total := total;
      this.store := store;
      n := 0;
      k := 0;
    }

    /** `Tqdm(iterable, total=total)` (core.py:13-15): after the counter is zeroed, tqdm's
        `__init__` assigns `n = 0` through the setter. That first assignment writes
        progress 0; with no total it raises ZeroDivisionError and writes nothing. */
    static method Create(total: int, store: Store) returns (r: Result<ProgressBar>)
      modifies store
      ensures total == 0 <==> r.Err?
      ensures r.Err? ==> r.error == ZeroDivision && store.events == old(store.events)
      ensures r.Ok? ==> fresh(r.value) && r.value.total == total && r.value.store == store
      ensures r.Ok? ==> r.value.n == 0 && r.value.k == 1 && store.events == old(store.events) + [Progress(0)]
    {
      var bar := new ProgressBar(total, store);
      var init := bar.SetN(0);
      if init.Err? {
        return Err(init.error);
      }
      assert Percent(0, total) == 0;
      r := Ok(bar);
    }

    /** The `n` setter (core.py:21-30): stores the count; then, every tenth assignment,
        writes the clamped percent; then counts the assignment. With no total the
        division raises after the count is stored. */
    method SetN(value: int) returns (r: Result<()>)
      modifies this, store
      ensures n == value
      ensures total == 0 ==> r == Err(ZeroDivision) && k == old(k) && store.events == old(store.events)
      ensures total != 0 ==> r == Ok(()) && k == old(k) + 1
      ensures total != 0 ==>
        store.events == old(store.events) + (if old(k) % 10 == 0 then [Progress(Percent(value, total))] else [])
    {
      n := value;
      if total == 0 {
        return Err(ZeroDivision);
      }
      var percent := Percent(value, total);
      if k % 10 == 0 {
        store.Write(Progress(percent));
      }
      k := k + 1;
      r := Ok(());
    }
  }

  // ---------------------------------------------------------------------------
  // The driver (core.py:33-95)

  /** np.pi. */
  const PI: real := 3.141592653589793

  /** The attributes `Initialize` holds once its defaults are overridden by the keyword
      arguments (core.py:35-45); the frequency grid is given explicitly. */
  datatype Settings = Settings(
    oxygenModel: string, waterVaporModel: string, integrationMethod: string,
    hStart: real, hStop: real, theta: real, relicBackground: bool,
    T: seq<real>, P: seq<real>, rhoRel: seq<real>, alt: seq<real>, frequencies: seq<real>)

  /** `absolute_humidity(T, P, rho_rel)` on the filtered arrays, by the default method,
      layer by layer. numpy divides arrays without raising, so a layer whose scalar
      conversion fails is marked NonFinite; elsewhere the layer holds the density whose
      partial pressure is rho_rel percent of the saturated pressure there. */
  function Humidity(T: seq<real>, P: seq<real>, rhoRel: seq<real>, exp: real -> real): (r: seq<Result<real>>)
    requires |T| == |P| == |rhoRel|
    ensures |r| == |T|
    ensures forall i :: 0 <= i < |T| ==>
      (r[i].Ok? <==> Vapor.SaturatedPressure(T[i], Some(P[i]), Vapor.WMO2008, exp).Ok? && T[i] != -273.15)
    ensures forall i :: 0 <= i < |T| && r[i].Ok? ==>
      Vapor.Pressure(T[i], r[i].value) == rhoRel[i] / 100.0 * Vapor.SaturatedPressure(T[i], Some(P[i]), Vapor.WMO2008, exp).value
    ensures forall i :: 0 <= i < |T| && r[i].Err? ==> r[i].error == NonFinite
  {
    seq(|T|, i requires 0 <= i < |T| => ArrayValue(Vapor.AbsoluteHumidity(T[i], Some(P[i]), rhoRel[i], Vapor.WMO2008, exp)))
  }

  /** A scalar result as a numpy array stores it: a failure is a non-finite entry. */
  function ArrayValue(x: Result<real>): (r: Result<real>)
    ensures r.Ok? <==> x.Ok?
    ensures x.Ok? ==> r == x
    ensures r.Err? ==> r.error == NonFinite
  {
    if x.Ok? then x else Err(NonFinite)
  }

  /** The number of true entries. */
  function Count(bs: seq<bool>): nat
  {
    if bs == [] then 0 else Count(bs[..|bs| - 1]) + (if bs[|bs| - 1] then 1 else 0)
  }

  /** Extending a prefix by one entry counts that entry. */
  lemma CountPrefix(bs: seq<bool>, j: nat)
    requires j < |bs|
    ensures Count(bs[..j + 1]) == Count(bs[..j]) + (if bs[j] then 1 else 0)
  {
    assert bs[..j + 1][..j] == bs[..j];
  }

  /** The progress events the loop writes, out of `total` frequencies, when the entries
      of `refresh` say after which results the bar's count is assigned and the counter
      stood at k0 before the loop: after the j-th result (counting from 1) the assignment
      writes Percent(j, total) if the counter is then a multiple of ten. */
  function Reports(refresh: seq<bool>, total: int, k0: nat): seq<Event>
    requires |refresh| <= total
  {
    if refresh == [] then []
    else
      var j := |refresh| - 1;
      Reports(refresh[..j], total, k0)
        + (if refresh[j] && (k0 + Count(refresh[..j])) % 10 == 0 then [Progress(Percent(j + 1, total))] else [])
  }

  lemma ReportsStep(refresh: seq<bool>, total: int, k0: nat, j: nat)
    requires j < |refresh| <= total
    ensures Reports(refresh[..j + 1], total, k0) == Reports(refresh[..j], total, k0)
      + (if refresh[j] && (k0 + Count(refresh[..j])) % 10 == 0 then [Progress(Percent(j + 1, total))] else [])
  {
    assert refresh[..j + 1][..j] == refresh[..j];
  }

  /** When the counter starts on a multiple of ten, the first result after which the
      count is assigned is reported first. */
  lemma {:induction false} ReportsFirst(refresh: seq<bool>, total: int, k0: nat)
    requires |refresh| <= total && 0 < |refresh| && refresh[0] && k0 % 10 == 0
    ensures 0 < |Reports(refresh, total, k0)| && Reports(refresh, total, k0)[0] == Progress(Percent(1, total))
  {
    var j := |refresh| - 1;
    if j > 0 {
      ReportsFirst(refresh[..j], total, k0);
    }
  }

  /** The write of tqdm's closing `self.n = n` once m results were delivered, the counter
      standing at one more than the loop's assignments. */
  function Closing(refresh: seq<bool>, total: int, m: nat): seq<Event>
    requires m <= |refresh| && total != 0
  {
    if (1 + Count(refresh[..m])) % 10 == 0 then [Progress(Percent(m, total))] else []
  }

  /** The whole log of a bar that delivered m results: the initial assignment of 0, the
      loop's assignments, and the closing one. */
  function ProgressLog(refresh: seq<bool>, total: int, m: nat): seq<Event>
    requires m <= |refresh| <= total && 0 < total
  {
    [Progress(Percent(0, total))] + Reports(refresh[..m], total, 1) + Closing(refresh, total, m)
  }

  /** Only assignments made while the counter is a multiple of ten write. */
  lemma {:induction false} ReportsCount(refresh: seq<bool>, total: int, k0: nat)
    requires |refresh| <= total
    ensures |Reports(refresh, total, k0)| == Writes(k0, Count(refresh))
  {
    if refresh != [] {
      ReportsCount(refresh[..|refresh| - 1], total, k0);
    }
  }

  /** Counting from a fresh counter is one write plus counting from 1. */
  lemma {:induction false} WritesShift(m: nat)
    ensures Writes(0, m + 1) == 1 + Writes(1, m)
  {
    if m > 0 {
      WritesShift(m - 1);
    }
  }

  /** The bar's log holds the writes of all its Count + 2 assignments, from a fresh counter. */
  lemma LogCount(refresh: seq<bool>, total: int)
    requires |refresh| <= total && 0 < total
    ensures |ProgressLog(refresh, total, |refresh|)| == Writes(0, Count(refresh) + 2)
  {
    assert refresh[..|refresh|] == refresh;
    ReportsCount(refresh, total, 1);
    WritesShift(Count(refresh) + 1);
  }

  /** Progress events only, each a percent in 0..99, none lower than an earlier one. */
  predicate Reporting(es: seq<Event>)
  {
    (forall i :: 0 <= i < |es| ==> es[i].Progress? && 0 <= es[i].percent <= 99)
    && forall i, l :: 0 <= i < l < |es| ==> es[i].percent <= es[l].percent
  }

  /** The progress events of a log never go down. */
  predicate Rising(es: seq<Event>)
  {
    forall i, l :: 0 <= i < l < |es| && es[i].Progress? && es[l].Progress? ==> es[i].percent <= es[l].percent
  }

  /** The reported percents stay below 100, never exceed that of the latest result, and
      never go down. */
  lemma {:induction false} ReportsRise(refresh: seq<bool>, total: int, k0: nat)
    requires |refresh| <= total && 0 < total
    ensures Reporting(Reports(refresh, total, k0))
    ensures forall e :: e in Reports(refresh, total, k0) ==> e.Progress? && e.percent <= Percent(|refresh|, total)
  {
    if refresh != [] {
      var j := |refresh| - 1;
      ReportsRise(refresh[..j], total, k0);
      PercentMonotone(j, j + 1, total);
    }
  }

  /** The loop's reports and the closing write stay below 100, never go down, and
      never exceed the percent of the results delivered. */
  lemma ClosingRise(refresh: seq<bool>, total: int, m: nat)
    requires m <= |refresh| <= total && 0 < total
    ensures Reporting(Reports(refresh[..m], total, 1) + Closing(refresh, total, m))
    ensures forall e :: e in Reports(refresh[..m], total, 1) + Closing(refresh, total, m) ==>
      e.Progress? && e.percent <= Percent(m, total)
  {
    ReportsRise(refresh[..m], total, 1);
  }

  /** The bar's whole log starts at 0 and never goes down. */
  lemma LogRise(refresh: seq<bool>, total: int, m: nat)
    requires m <= |refresh| <= total && 0 < total
    ensures ProgressLog(refresh, total, m)[0] == Progress(0)
    ensures Reporting(ProgressLog(refresh, total, m))
    ensures forall e :: e in ProgressLog(refresh, total, m) ==> e.Progress? && e.percent <= Percent(m, total)
  {
    var tail := Reports(refresh[..m], total, 1) + Closing(refresh, total, m);
    ClosingRise(refresh, total, m);
    PercentMonotone(0, m, total);
    assert Percent(0, total) == 0;
    assert ProgressLog(refresh, total, m) == [Progress(0)] + tail;
  }

  lemma ReportingRises(es: seq<Event>)
    requires Reporting(es)
    ensures Rising(es)
  {
  }

  /** Saving and the final 100 keep the log rising. */
  lemma FinalReport(refresh: seq<bool>, total: int, rows: seq<Sample>)
    requires |refresh| <= total && 0 < total
    ensures Rising(ProgressLog(refresh, total, |refresh|) + [Saved(rows), Progress(100)])
  {
    LogRise(refresh, total, |refresh|);
  }

  /** One turn of the loop for the bar: after the (j+1)-th result its count is assigned
      when `refresh` says so, which adds that result's report to the log. */
  method Advance(bar: ProgressBar, refresh: seq<bool>, j: nat, ghost log: seq<Event>)
    requires j < |refresh| <= bar.total
    requires bar.k == 1 + Count(refresh[..j])
    requires bar.store.events == log + Reports(refresh[..j], bar.total, 1)
    modifies bar, bar.store
    ensures bar.k == 1 + Count(refresh[..j + 1])
    ensures bar.n == (if refresh[j] then j + 1 else old(bar.n))
    ensures bar.store.events == log + Reports(refresh[..j + 1], bar.total, 1)
  {
    CountPrefix(refresh, j);
    ReportsStep(refresh, bar.total, 1, j);
    if refresh[j] {
      var done := bar.SetN(j + 1);
    }
  }

  /** The loop of `Initialize.__call__` over a bar already created (core.py:82-88): results
      are appended in the order they arrive, the bar's count is assigned after those whose
      `refresh` entry is true, and the first result that raises aborts the loop. Either
      way tqdm's iterator assigns the number of results delivered as it ends. */
  method Collect(bt: Solver, arrivals: seq<real>, refresh: seq<bool>, bar: ProgressBar)
    returns (r: Result<seq<Sample>>)
    requires |refresh| == |arrivals| && bar.total == |arrivals| > 0 && bar.k == 1
    modifies bar, bar.store
    ensures r.Ok? <==> Computed(bt, arrivals)
    ensures r.Ok? ==> r.value == Rows(bt, arrivals)
    ensures r.Ok? ==>
      bar.store.events == old(bar.store.events) + Reports(refresh, |arrivals|, 1) + Closing(refresh, |arrivals|, |arrivals|)
    ensures r.Ok? ==> bar.k == Count(refresh) + 2 && bar.n == |arrivals|
    ensures r.Err? ==> exists j :: (0 <= j < |arrivals| && Computed(bt, arrivals[..j]) && bt(arrivals[j]).Err?
      && r.error == bt(arrivals[j]).error && bar.n == j
      && bar.store.events == old(bar.store.events) + Reports(refresh[..j], |arrivals|, 1) + Closing(refresh, |arrivals|, j))
    ensures |bar.store.events| >= |old(bar.store.events)|
    ensures bar.store.events[..|old(bar.store.events)|] == old(bar.store.events)
  {
    var store := bar.store;
    var results: seq<Sample> := [];
    var j := 0;
    while j < |arrivals|
      invariant 0 <= j <= |arrivals|
      invariant Computed(bt, arrivals[..j])
      invariant results == Rows(bt, arrivals[..j])
      invariant bar.store == store && bar.total == |arrivals| && bar.k == 1 + Count(refresh[..j])
      invariant store.events == old(store.events) + Reports(refresh[..j], |arrivals|, 1)
    {
      var s := bt(arrivals[j]);
      if s.Err? {
        assert !Computed(bt, arrivals);
        var closing := bar.SetN(j);
        return Err(s.error);
      }
      results := results + [s.value];
      assert arrivals[..j + 1] == arrivals[..j] + [arrivals[j]];
      Advance(bar, refresh, j, old(store.events));
      j := j + 1;
    }
    assert arrivals[..j] == arrivals && refresh[..j] == refresh;
    var closing := bar.SetN(j);
    r := Ok(results);
  }

  /** The body of `Initialize.__call__` (core.py:78-95) for any solver that labels each
      result with its own frequency. The pool delivers the result for each frequency of
      the grid once, in the order `arrivals`; the progress bar, created with the grid's
      length as its total, assigns its count after the results whose `refresh` entry is
      true. Results are appended as they arrive, sorted by frequency, saved, and only then
      is progress set to 100. An empty grid raises as the bar is created; the first result
      that raises aborts the run before anything is saved. */
  method Sweep(bt: Solver, frequencies: seq<real>, arrivals: seq<real>, refresh: seq<bool>, store: Store)
    returns (r: Result<()>)
    requires KeepsFrequency(bt)
    requires multiset(arrivals) == multiset(frequencies) && |refresh| == |arrivals|
    modifies store
    ensures r.Ok? <==> |frequencies| > 0 && Computed(bt, frequencies)
    ensures |frequencies| == 0 ==> r == Err(ZeroDivision) && store.events == old(store.events)
    ensures |store.events| >= |old(store.events)| && store.events[..|old(store.events)|] == old(store.events)
    ensures var end := if r.Ok? then |store.events| - 2 else |store.events|;
      forall i :: |old(store.events)| <= i < end ==>
        store.events[i].Progress? && 0 <= store.events[i].percent <= 99
    ensures r.Ok? ==> (store.events == old(store.events) + ProgressLog(refresh, |arrivals|, |arrivals|)
      + [Saved(Spectrum(bt, frequencies)), Progress(100)])
    ensures r.Err? && |frequencies| > 0 ==> exists j :: (0 <= j < |arrivals| && Computed(bt, arrivals[..j])
      && bt(arrivals[j]).Err? && r.error == bt(arrivals[j]).error
      && store.events == old(store.events) + ProgressLog(refresh, |arrivals|, j))
    ensures r.Ok? ==> |store.events| == |old(store.events)| + Writes(0, Count(refresh) + 2) + 2
    ensures Rising(store.events[|old(store.events)|..])
  {
    assert |arrivals| == |multiset(arrivals)| == |frequencies|;
    var created := ProgressBar.Create(|frequencies|, store);
    if created.Err? {
      return Err(created.error);
    }
    var bar := created.value;
    ghost var start := store.events;
    var collected := Collect(bt, arrivals, refresh, bar);
    if collected.Err? {
      if Computed(bt, frequencies) {
        ComputedPermutation(bt, frequencies, arrivals);
      }
      ghost var j :| 0 <= j < |arrivals| && Computed(bt, arrivals[..j]) && bt(arrivals[j]).Err?
        && collected.error == bt(arrivals[j]).error
        && store.events == start + Reports(refresh[..j], |arrivals|, 1) + Closing(refresh, |arrivals|, j);
      Logged(old(store.events), refresh, |arrivals|, j, store.events);
      return Err(collected.error);
    }
    ComputedPermutation(bt, arrivals, frequencies);
    assert refresh[..|arrivals|] == refresh;
    Logged(old(store.events), refresh, |arrivals|, |arrivals|, store.events);
    Save(bt, frequencies, arrivals, collected.value, store);
    SavedCount(old(store.events), refresh, |arrivals|, Spectrum(bt, frequencies), store.events);
    SavedRising(old(store.events), refresh, |arrivals|, Spectrum(bt, frequencies), store.events);
    r := Ok(());
  }

  /** The end of a run that computed every result (core.py:89-95): the rows are sorted by
      frequency and saved, then progress is set to 100. */
  method Save(bt: Solver, frequencies: seq<real>, arrivals: seq<real>, results: seq<Sample>, store: Store)
    requires KeepsFrequency(bt) && multiset(arrivals) == multiset(frequencies)
    requires Computed(bt, arrivals) && results == Rows(bt, arrivals) && Computed(bt, frequencies)
    modifies store
    ensures store.events == old(store.events) + [Saved(Spectrum(bt, frequencies)), Progress(100)]
  {
    var rows := SortByFrequency(results);
    SpectrumIndependent(bt, arrivals, frequencies);
    store.Write(Saved(rows));
    store.Write(Progress(100));
  }

  /** After the bar's log, the saved spectrum and the final 100, the earlier log is kept
      and the writes number the bar's throttled writes plus two. */
  lemma SavedCount(log: seq<Event>, refresh: seq<bool>, total: int, rows: seq<Sample>, events: seq<Event>)
    requires |refresh| <= total && 0 < total
    requires events == log + ProgressLog(refresh, total, |refresh|) + [Saved(rows), Progress(100)]
    ensures |events| == |log| + Writes(0, Count(refresh) + 2) + 2
    ensures events[..|log|] == log
  {
    assert events[..|log|] == log;
    LogCount(refresh, total);
  }

  /** After the bar's log, the saved spectrum and the final 100, every progress event
      before the last two is in 0..99, and the progress never goes down. */
  lemma SavedRising(log: seq<Event>, refresh: seq<bool>, total: int, rows: seq<Sample>, events: seq<Event>)
    requires |refresh| <= total && 0 < total
    requires events == log + ProgressLog(refresh, total, |refresh|) + [Saved(rows), Progress(100)]
    ensures forall i :: |log| <= i < |events| - 2 ==> events[i].Progress? && 0 <= events[i].percent <= 99
    ensures Rising(events[|log|..])
  {
    var reports := ProgressLog(refresh, total, |refresh|);
    assert events == log + reports + [Saved(rows)] + [Progress(100)];
    Appended(log, reports, Saved(rows), Progress(100), events);
    LogRise(refresh, total, |refresh|);
    FinalReport(refresh, total, rows);
  }

  /** A log made of the initial write and the bar's later writes holds the bar's whole log,
      whose events are rising progress in 0..99. */
  lemma Logged(log: seq<Event>, refresh: seq<bool>, total: int, m: nat, events: seq<Event>)
    requires m <= |refresh| <= total && 0 < total
    requires events == log + [Progress(0)] + Reports(refresh[..m], total, 1) + Closing(refresh, total, m)
    ensures events == log + ProgressLog(refresh, total, m)
    ensures events[..|log|] == log && events[|log|..] == ProgressLog(refresh, total, m)
    ensures Reporting(events[|log|..]) && Rising(events[|log|..])
  {
    assert Percent(0, total) == 0;
    LogRise(refresh, total, m);
  }

  class Initialize {
    var oxygenModel: string
    var waterVaporModel: string
    var integrationMethod: string
    var hStart: real
    var hStop: real
    var theta: real
    var relicBackground: bool
    var T: seq<real>
    var P: seq<real>
    var rhoRel: seq<real>
    var alt: seq<real>
    var rho: seq<Result<real>>
    var dh: seq<real>
    var sec: real
    var frequencies: seq<real>
    const ext: Externals
    const store: Store

    /** `Initialize.__init__` (core.py:34-52): the four profile arrays are cut to the
        altitude window with one mask, then humidity, layer thicknesses and the secant
        of the zenith angle are derived from what is left. */
    constructor(s: Settings, ext: Externals, store: Store)
      requires |s.T| == |s.alt| && |s.P| == |s.alt| && |s.rhoRel| == |s.alt|
      requires ext.cos(s.theta * PI / 180.0) != 0.0
      ensures this.ext == ext && this.store == store
      ensures oxygenModel == s.oxygenModel && waterVaporModel == s.waterVaporModel
      ensures integrationMethod == s.integrationMethod && relicBackground == s.relicBackground
      ensures hStart == s.hStart && hStop == s.hStop && theta == s.theta
      ensures var m := Window(s.alt, s.hStart, s.hStop);
        T == Select(s.T, m) && P == Select(s.P, m) && rhoRel == Select(s.rhoRel, m) && alt == Select(s.alt, m)
      ensures |T| == |P| == |rhoRel| == |alt| == |rho| == |dh|
      ensures rho == Humidity(T, P, rhoRel, ext.exp)
      ensures dh == Thickness(alt, hStart)
      ensures sec == 1.0 / ext.cos(theta * PI / 180.0)
      ensures frequencies == s.frequencies
    {
      var cond := Window(s.alt, s.hStart, s.hStop);
      var t, p, rel, a := Select(s.T, cond), Select(s.P, cond), Select(s.rhoRel, cond), Select(s.alt, cond);
      this.ext := ext;
      this.store := store;
      oxygenModel, waterVaporModel := s.oxygenModel, s.waterVaporModel;
      integrationMethod := s.integrationMethod;
      hStart, hStop := s.hStart, s.hStop;
      theta := s.theta;
      relicBackground := s.relicBackground;
      T, P, rhoRel, alt := t, p, rel, a;
      rho := Humidity(t, p, rel, ext.exp);
      dh := Thickness(a, s.hStart);
      sec := 1.0 / ext.cos(s.theta * PI / 180.0);
      frequencies := s.frequencies;
    }

    /** What `bt_downwelling` reads. */
    function Prepared(): Profile
      reads this
    {
      Profile(oxygenModel, waterVaporModel, integrationMethod, T, P, rho, dh, sec, relicBackground)
    }

    /** The bound method `self.bt_downwelling` that the pool maps over the grid. */
    function Downwelling(): Solver
      reads this
    {
      var p, e := Prepared(), ext;
      nu => BtDownwelling(p, e, nu)
    }

    /** `Initialize.__call__` (core.py:78-95): the sweep with the bound `bt_downwelling`. */
    method Run(arrivals: seq<real>, refresh: seq<bool>) returns (r: Result<()>)
      requires multiset(arrivals) == multiset(frequencies) && |refresh| == |arrivals|
      modifies store
      ensures r.Ok? <==> |frequencies| > 0 && Computed(Downwelling(), frequencies)
      ensures |frequencies| == 0 ==> r == Err(ZeroDivision) && store.events == old(store.events)
      ensures |store.events| >= |old(store.events)| && store.events[..|old(store.events)|] == old(store.events)
      ensures var end := if r.Ok? then |store.events| - 2 else |store.events|;
        forall i :: |old(store.events)| <= i < end ==>
          store.events[i].Progress? && 0 <= store.events[i].percent <= 99
      ensures r.Ok? ==> (store.events == old(store.events) + ProgressLog(refresh, |arrivals|, |arrivals|)
        + [Saved(Spectrum(Downwelling(), frequencies)), Progress(100)])
      ensures r.Err? && |frequencies| > 0 ==> exists j :: (0 <= j < |arrivals| && Computed(Downwelling(), arrivals[..j])
        && Downwelling()(arrivals[j]).Err? && r.error == Downwelling()(arrivals[j]).error
        && store.events == old(store.events) + ProgressLog(refresh, |arrivals|, j))
      ensures r.Ok? ==> |store.events| == |old(store.events)| + Writes(0, Count(refresh) + 2) + 2
      ensures Rising(store.events[|old(store.events)|..])
    {
      DownwellingKeepsFrequency(Prepared(), ext);
      r := Sweep(Downwelling(), frequencies, arrivals, refresh, store);
    }
  }
}
