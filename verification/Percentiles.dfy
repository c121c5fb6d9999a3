/** The benchmark's interpolated percentile (benchmarks/common.py), over exact reals. */
module Percentiles {
  import opened Options

  // ---------------------------------------------------------------- sorting

  ghost predicate Ordered(s: seq<real>) {
    forall i, j :: 0 <= i <= j < |s| ==> s[i] <= s[j]
  }

  function Insert(x: real, s: seq<real>): (r: seq<real>)
    ensures |r| == |s| + 1
  {
    if s == [] || x <= s[0] then [x] + s else [s[0]] + Insert(x, s[1..])
  }

  /** `sorted(values)` */
  function Sorted(values: seq<real>): (r: seq<real>)
    ensures |r| == |values|
  {
    if values == [] then [] else Insert(values[0], Sorted(values[1..]))
  }

  lemma {:induction false} InsertContents(x: real, s: seq<real>)
    ensures multiset(Insert(x, s)) == multiset(s) + multiset{x}
  {
    if s != [] && x > s[0] {
      InsertContents(x, s[1..]);
      assert s == [s[0]] + s[1..];
    }
  }

  lemma {:induction false} InsertOrdered(x: real, s: seq<real>, low: real)
    requires Ordered(s) && low <= x && (s != [] ==> low <= s[0])
    ensures Ordered(Insert(x, s)) && low <= Insert(x, s)[0]
  {
    if s != [] && x > s[0] {
      var r := Insert(x, s[1..]);
      InsertOrdered(x, s[1..], s[0]);
      assert Ordered(r) && s[0] <= r[0];
      PrependOrdered(s[0], r);
    } else {
      PrependOrdered(x, s);
    }
  }

  lemma PrependOrdered(x: real, s: seq<real>)
    requires Ordered(s) && (s != [] ==> x <= s[0])
    ensures Ordered([x] + s)
  {
    var r := [x] + s;
    forall i, j | 0 <= i <= j < |r|
      ensures r[i] <= r[j]
    {
      if i == 0 && j > 0 { assert s[0] <= s[j - 1]; }
    }
  }

  lemma {:induction false} SortedCorrect(values: seq<real>)
    ensures Ordered(Sorted(values)) && multiset(Sorted(values)) == multiset(values)
  {
    if values != [] {
      SortedCorrect(values[1..]);
      var rest := Sorted(values[1..]);
      InsertContents(values[0], rest);
      InsertOrdered(values[0], rest, if rest != [] && rest[0] < values[0] then rest[0] else values[0]);
      assert values == [values[0]] + values[1..];
    }
  }

  lemma HeadIsLeast(a: seq<real>, b: seq<real>)
    requires Ordered(b) && a != [] && multiset(a) == multiset(b)
    ensures b != [] && b[0] <= a[0]
  {
    assert a[0] in multiset(b);
    var j :| 0 <= j < |b| && b[j] == a[0];
  }

  lemma TailContents(a: seq<real>)
    requires a != []
    ensures multiset(a[1..]) == multiset(a) - multiset{a[0]}
  {
    assert a == [a[0]] + a[1..];
  }

  /** There is only one ordered arrangement of a multiset, so any correct sort will do. */
  lemma {:induction false} OrderedIsUnique(a: seq<real>, b: seq<real>)
    requires Ordered(a) && Ordered(b) && multiset(a) == multiset(b)
    ensures a == b
    decreases |a|
  {
    if a == [] {
      assert |multiset(b)| == 0;
    } else {
      HeadIsLeast(a, b);
      HeadIsLeast(b, a);
      TailContents(a);
      TailContents(b);
      OrderedIsUnique(a[1..], b[1..]);
      assert a == [a[0]] + a[1..] && b == [b[0]] + b[1..];
    }
  }

  // ---------------------------------------------------------------- interpolation

  function Blend(a: real, b: real, w: real): real { a + (b - a) * w }

  lemma ProductNonNegative(a: real, b: real)
    requires a >= 0.0 && b >= 0.0
    ensures a * b >= 0.0
  {
  }

  lemma BlendBetween(a: real, b: real, w: real)
    requires a <= b && 0.0 <= w <= 1.0
    ensures a <= Blend(a, b, w) <= b
  {
    ProductNonNegative(b - a, w);
    ProductNonNegative(b - a, 1.0 - w);
    assert (b - a) * w + (b - a) * (1.0 - w) == b - a;
  }

  lemma BlendMonotone(a: real, b: real, w: real, v: real)
    requires a <= b && w <= v
    ensures Blend(a, b, w) <= Blend(a, b, v)
  {
    ProductNonNegative(b - a, v - w);
    assert (b - a) * v - (b - a) * w == (b - a) * (v - w);
  }

  lemma BlendDominates(a: real, b: real, c: real, d: real, w: real)
    requires a <= c && b <= d && 0.0 <= w <= 1.0
    ensures Blend(a, b, w) <= Blend(c, d, w)
  {
    ProductNonNegative(c - a, 1.0 - w);
    ProductNonNegative(d - b, w);
    assert Blend(c, d, w) - Blend(a, b, w) == (c - a) * (1.0 - w) + (d - b) * w;
  }

  /** `int(k)`: truncation toward zero. */
  function Truncate(k: real): int { if k >= 0.0 then k.Floor else -(-k).Floor }

  /** List indexing: a negative index counts from the end, others are an `IndexError`. */
  function At(s: seq<real>, i: int): Option<real> {
    if 0 <= i < |s| then Some(s[i])
    else if -|s| <= i < 0 then Some(s[|s| + i])
    else None
  }

  /** Value at fractional position k of an ordered sample, None for an `IndexError`. */
  function Interpolate(s: seq<real>, k: real): Option<real> {
    var f := Truncate(k);
    var c := if f + 1 < |s| - 1 then f + 1 else |s| - 1;
    if f == c then At(s, f)
    else match (At(s, f), At(s, c))
         case (Some(a), Some(b)) => Some(Blend(a, b, k - f as real))
         case _ => None
  }

  function Position(n: nat, p: real): real { (n - 1) as real * (p / 100.0) }

  /** None for an `IndexError`. */
  function Percentile(values: seq<real>, p: real): Option<real>
    requires values != []
  {
    Interpolate(Sorted(values), Position(|values|, p))
  }

  /** The percentage is too far from 0 to 100 for a sample of n values: for two values
      from 200 up, for one never. */
  predicate OutOfSample(n: nat, p: real) {
    var k := (n - 1) as real * p;
    k >= 100.0 * n as real || k <= -100.0 * (n + 1) as real
  }

  datatype Outcome = Raised | Returned(result: map<real, Option<real>>)

  /** The body of the loop, for one percentage; None where it raises. */
  method ReadPercentile(ordered: seq<real>, p: real) returns (value: Option<real>)
    requires ordered != []
    ensures value == Interpolate(ordered, Position(|ordered|, p))
  {
    var k := (|ordered| - 1) as real * (p / 100.0);
    assert k == Position(|ordered|, p);
    var f := Truncate(k);
    var c := if f + 1 < |ordered| - 1 then f + 1 else |ordered| - 1;
    var low := At(ordered, f);
    if low.None? || f == c { return low; }
    var high := At(ordered, c);
    if high.None? { return None; }
    value := Some(Blend(low.value, high.value, k - f as real));
  }

  /** The result dictionary, filled one percentile at a time. */
  method ComputePercentiles(values: seq<real>, ps: seq<real>) returns (outcome: Outcome)
    ensures outcome.Raised? <==> values != [] && exists p :: p in ps && OutOfSample(|values|, p)
    ensures outcome.Returned? ==> forall p :: p in outcome.result <==> p in ps
    ensures outcome.Returned? && values == [] ==> forall p :: p in ps ==> outcome.result[p] == None
    ensures outcome.Returned? && values != [] ==>
              forall p :: p in ps ==> outcome.result[p].Some? && outcome.result[p] == Percentile(values, p)
  {
    if values == [] { return Returned(map p | p in ps :: None); }
    var ordered := Sorted(values);
    var result: map<real, Option<real>> := map[];
    for i := 0 to |ps|
      invariant forall p :: p in result <==> p in ps[..i]
      invariant forall p :: p in result ==>
                  !OutOfSample(|values|, p) && result[p].Some? && result[p] == Percentile(values, p)
    {
      var value := ReadPercentile(ordered, ps[i]);
      RaisesIff(values, ps[i]);
      if value.None? { return Raised; }
      result := result[ps[i] := value];
    }
    assert ps[..|ps|] == ps;
    outcome := Returned(result);
  }

  lemma TruncateBounds(k: real, n: int)
    requires n > 0
    ensures Truncate(k) >= n <==> k >= n as real
    ensures Truncate(k) < -n <==> k <= -((n + 1) as real)
  {
  }

  lemma InterpolateFailsIff(s: seq<real>, k: real)
    requires s != []
    ensures Interpolate(s, k) == None <==> k >= |s| as real || k <= -((|s| + 1) as real)
  {
    TruncateBounds(k, |s|);
  }

  lemma PositionScales(n: nat, p: real)
    ensures 100.0 * Position(n, p) == (n - 1) as real * p
  {
  }

  /** The program raises exactly for a percentage out of the sample's range. */
  lemma RaisesIff(values: seq<real>, p: real)
    requires values != []
    ensures Percentile(values, p) == None <==> OutOfSample(|values|, p)
  {
    InterpolateFailsIff(Sorted(values), Position(|values|, p));
    PositionScales(|values|, p);
  }

  /** It does raise, and below zero it can leave the sample without raising. */
  lemma OutsideTheScale()
    ensures Percentile([0.0, 1.0], 200.0) == None
    ensures Percentile([0.0, 1.0], -50.0) == Some(-0.5)
    ensures Percentile([0.0, 1.0], -150.0) == Some(1.5)
    ensures Percentile([3.0], 1000.0) == Some(3.0)
  {
    RaisesIff([0.0, 1.0], 200.0);
    var pair: seq<real> := [0.0, 1.0];
    assert pair[1..] == [1.0] && [1.0][1..] == [];
    assert Sorted([1.0]) == [1.0];
    assert Sorted(pair) == [0.0, 1.0];
    assert Position(2, -50.0) == -0.5 && Truncate(-0.5) == 0;
    assert Position(2, -150.0) == -1.5 && Truncate(-1.5) == -1;
    assert Sorted([3.0]) == [3.0] && Position(1, 1000.0) == 0.0;
  }

  // ---------------------------------------------------------------- within the sample

  lemma InterpolateInside(s: seq<real>, k: real)
    requires 0.0 <= k < |s| as real
    ensures var f := k.Floor;
            0 <= f < |s| && Interpolate(s, k) == Some(if f + 1 < |s| then Blend(s[f], s[f + 1], k - f as real) else s[f])
  {
  }

  /** Between two neighbours, the interpolated value lies between them. */
  lemma InterpolateBetween(s: seq<real>, k: real)
    requires Ordered(s) && 0.0 <= k < |s| as real
    ensures 0 <= k.Floor < |s| && Interpolate(s, k).Some? && s[k.Floor] <= Interpolate(s, k).value
    ensures k.Floor + 1 < |s| ==> Interpolate(s, k).value <= s[k.Floor + 1]
    ensures k.Floor + 1 == |s| ==> Interpolate(s, k).value == s[k.Floor]
  {
    var f := k.Floor;
    InterpolateInside(s, k);
    if f + 1 < |s| { BlendBetween(s[f], s[f + 1], k - f as real); }
  }

  lemma InterpolateMonotone(s: seq<real>, k: real, l: real)
    requires Ordered(s) && 0.0 <= k <= l < |s| as real
    ensures Interpolate(s, k).Some? && Interpolate(s, l).Some? && Interpolate(s, k).value <= Interpolate(s, l).value
  {
    var f := k.Floor;
    InterpolateInside(s, k);
    InterpolateInside(s, l);
    if f == l.Floor {
      if f + 1 < |s| { BlendMonotone(s[f], s[f + 1], k - f as real, l - f as real); }
    } else {
      InterpolateBetween(s, k);
      InterpolateBetween(s, l);
      assert s[f + 1] <= s[l.Floor];
    }
  }

  // ---------------------------------------------------------------- dominance

  ghost predicate Dominates(b: seq<real>, a: seq<real>) {
    |a| == |b| && forall i :: 0 <= i < |a| ==> a[i] <= b[i]
  }

  lemma {:induction false} InsertDominates(x: real, a: seq<real>, y: real, b: seq<real>)
    requires x <= y && Dominates(b, a) && Ordered(a) && Ordered(b)
    ensures Dominates(Insert(y, b), Insert(x, a))
    decreases |a|
  {
    if a != [] {
      if x <= a[0] && y > b[0] {
        // [x] + a against [b[0]] + Insert(y, rest of b)
        ShiftDominates(a, y, b);
      } else if x > a[0] && y <= b[0] {
        // [a[0]] + Insert(x, rest of a) against [y] + b
        InsertBelow(x, a[1..], b);
      } else if x > a[0] {
        InsertDominates(x, a[1..], y, b[1..]);
      }
    }
  }

  /** Inserting something at least as large as the head keeps the tail above the old sequence. */
  lemma {:induction false} ShiftDominates(a: seq<real>, y: real, b: seq<real>)
    requires a != [] && Dominates(b, a) && Ordered(b) && y >= b[0]
    ensures Dominates(Insert(y, b[1..]), a)
    decreases |a|
  {
    if |a| > 1 && y > b[1] {
      ShiftDominates(a[1..], y, b[1..]);
      assert b[1..][1..] == b[2..];
      var r := Insert(y, b[1..]);
      assert r == [b[1]] + Insert(y, b[1..][1..]);
      assert a == [a[0]] + a[1..];
      assert forall i :: 1 <= i < |a| ==> r[i] == Insert(y, b[1..][1..])[i - 1] && a[i] == a[1..][i - 1];
    }
  }

  lemma {:induction false} InsertBelow(x: real, a: seq<real>, b: seq<real>)
    requires |b| == |a| + 1 && x <= b[0] && (forall i :: 0 <= i < |a| ==> a[i] <= b[i + 1]) && Ordered(b) && Ordered(a)
    ensures Dominates(b, Insert(x, a))
    decreases |a|
  {
    if a != [] && x > a[0] {
      InsertBelow(x, a[1..], b[1..]);
    }
  }

  lemma {:induction false} SortedDominates(a: seq<real>, b: seq<real>)
    requires Dominates(b, a)
    ensures Dominates(Sorted(b), Sorted(a))
  {
    if a != [] {
      SortedDominates(a[1..], b[1..]);
      SortedCorrect(a[1..]);
      SortedCorrect(b[1..]);
      InsertDominates(a[0], Sorted(a[1..]), b[0], Sorted(b[1..]));
    }
  }

  lemma InterpolateDominates(s: seq<real>, t: seq<real>, k: real)
    requires Dominates(t, s) && 0.0 <= k < |s| as real
    ensures Interpolate(s, k).Some? && Interpolate(t, k).Some? && Interpolate(s, k).value <= Interpolate(t, k).value
  {
    var f := k.Floor;
    InterpolateInside(s, k);
    InterpolateInside(t, k);
    if f + 1 < |s| { BlendDominates(s[f], s[f + 1], t[f], t[f + 1], k - f as real); }
  }

  // ---------------------------------------------------------------- main results

  /** Percentages from 0 up to where the program raises give positions in the sample. */
  lemma PositionInside(n: nat, p: real, q: real)
    requires n > 0 && 0.0 <= p <= q && !OutOfSample(n, q)
    ensures 0.0 <= Position(n, p) <= Position(n, q) < n as real
  {
    PositionScales(n, q);
    ProductNonNegative((n - 1) as real, p / 100.0);
    ProductNonNegative((n - 1) as real, q / 100.0 - p / 100.0);
    assert Position(n, q) - Position(n, p) == (n - 1) as real * (q / 100.0 - p / 100.0);
  }

  /** A percentile lies within the sample, ignores the order of the input and does
      not decrease when the percentage does not. */
  lemma PercentileLaws(values: seq<real>, p: real, q: real)
    requires values != [] && 0.0 <= p <= q && !OutOfSample(|values|, q)
    ensures Percentile(values, p).Some? && Percentile(values, q).Some?
    ensures Percentile(values, p).value <= Percentile(values, q).value
    ensures exists low, high :: low in values && high in values && low <= Percentile(values, p).value <= high
    ensures forall other :: multiset(other) == multiset(values) && other != [] ==> Percentile(other, p) == Percentile(values, p)
  {
    var s := Sorted(values);
    SortedCorrect(values);
    PositionInside(|values|, p, q);
    InterpolateMonotone(s, Position(|values|, p), Position(|values|, q));
    WithinSample(values, Position(|values|, p));
    forall other | multiset(other) == multiset(values) && other != []
      ensures Percentile(other, p) == Percentile(values, p)
    {
      SortedCorrect(other);
      OrderedIsUnique(Sorted(other), s);
    }
  }

  lemma WithinSample(values: seq<real>, k: real)
    requires values != [] && 0.0 <= k < |values| as real
    ensures Interpolate(Sorted(values), k).Some?
    ensures exists low, high :: low in values && high in values && low <= Interpolate(Sorted(values), k).value <= high
  {
    var s := Sorted(values);
    SortedCorrect(values);
    InterpolateBetween(s, k);
    var low, high := s[k.Floor], s[if k.Floor + 1 < |s| then k.Floor + 1 else k.Floor];
    assert low in multiset(s) && high in multiset(s);
    assert low in multiset(values) && high in multiset(values);
    assert low in values && high in values && low <= Interpolate(s, k).value <= high;
  }

  lemma InterpolateEnds(s: seq<real>, k: real)
    requires s != [] && (|s| - 1) as real <= k < |s| as real
    ensures Interpolate(s, 0.0) == Some(s[0]) && Interpolate(s, k) == Some(s[|s| - 1])
  {
    InterpolateInside(s, 0.0);
    InterpolateInside(s, k);
  }

  lemma PositionEnds(n: nat, p: real)
    requires n > 0 && p >= 100.0 && !OutOfSample(n, p)
    ensures Position(n, 0.0) == 0.0 && (n - 1) as real <= Position(n, p) < n as real
  {
    PositionInside(n, 100.0, p);
  }

  /** 0 gives a least value of the sample; 100, and more until it raises, a greatest. */
  lemma PercentileEnds(values: seq<real>, p: real, v: real)
    requires v in values && p >= 100.0 && !OutOfSample(|values|, p)
    ensures Percentile(values, 0.0).Some? && Percentile(values, 0.0).value <= v
    ensures Percentile(values, p).Some? && v <= Percentile(values, p).value
  {
    var s := Sorted(values);
    var n := |values|;
    SortedCorrect(values);
    assert v in multiset(s);
    PositionEnds(n, p);
    InterpolateEnds(s, Position(n, p));
  }

  /** Replacing every sample by one at least as large never lowers a percentile. */
  lemma PercentileDominates(values: seq<real>, larger: seq<real>, p: real)
    requires values != [] && Dominates(larger, values) && 0.0 <= p && !OutOfSample(|values|, p)
    ensures Percentile(values, p).Some? && Percentile(larger, p).Some?
    ensures Percentile(values, p).value <= Percentile(larger, p).value
  {
    SortedDominates(values, larger);
    PositionInside(|values|, p, p);
    InterpolateDominates(Sorted(values), Sorted(larger), Position(|values|, p));
  }

  // ---------------------------------------------------------------- what is interpolated

  lemma BlendIs(a: real, b: real, d: real, w: real)
    requires d == w
    ensures Blend(a, b, d) == a * (1.0 - w) + b * w
  {
    assert (b - a) * w == b * w - a * w;
    assert a * (1.0 - w) == a * 1.0 - a * w;
  }

  lemma InterpolateNext(s: seq<real>, i: nat, k: real, w: real)
    requires i + 1 < |s| && k == (i + 1) as real && w == 1.0
    ensures Interpolate(s, k).Some? && Interpolate(s, k).value == s[i] * (1.0 - w) + s[i + 1] * w
  {
    InterpolateInside(s, k);
    assert s[i] * (1.0 - w) + s[i + 1] * w == s[i + 1];
    if i + 2 < |s| {
      BlendIs(s[i + 1], s[i + 2], k - k.Floor as real, 0.0);
      assert s[i + 1] * (1.0 - 0.0) + s[i + 2] * 0.0 == s[i + 1];
    }
  }

  lemma InterpolateInner(s: seq<real>, i: nat, k: real, w: real)
    requires i + 1 < |s| && k == i as real + w && 0.0 <= w < 1.0
    ensures Interpolate(s, k).Some? && Interpolate(s, k).value == s[i] * (1.0 - w) + s[i + 1] * w
  {
    InterpolateInside(s, k);
    assert k.Floor == i;
    BlendIs(s[i], s[i + 1], k - i as real, w);
  }

  lemma InterpolateAt(s: seq<real>, i: nat, k: real, w: real)
    requires i + 1 < |s| && k == i as real + w && 0.0 <= w <= 1.0
    ensures Interpolate(s, k).Some? && Interpolate(s, k).value == s[i] * (1.0 - w) + s[i + 1] * w
  {
    if w == 1.0 { InterpolateNext(s, i, k, w); } else { InterpolateInner(s, i, k, w); }
  }

  /** With p at the position i + w of the sorted sample, whatever sorted it, the
      percentile lies the fraction w of the way from the i-th value to the next. */
  lemma PercentileBetween(values: seq<real>, s: seq<real>, p: real, i: nat, w: real)
    requires Ordered(s) && multiset(s) == multiset(values) && i + 1 < |values| && 0.0 <= w <= 1.0
    requires (|values| - 1) as real * p == 100.0 * (i as real + w)
    ensures |s| == |values| && Percentile(values, p).Some?
    ensures Percentile(values, p).value == s[i] * (1.0 - w) + s[i + 1] * w
  {
    SortedCorrect(values);
    OrderedIsUnique(s, Sorted(values));
    PositionScales(|values|, p);
    InterpolateAt(s, i, Position(|values|, p), w);
  }

  function Negated(s: seq<real>): (r: seq<real>)
    ensures |r| == |s| && forall i :: 0 <= i < |s| ==> r[i] == -s[i]
  {
    seq(|s|, i requires 0 <= i < |s| => -s[i])
  }

  function Mirrored(s: seq<real>): (r: seq<real>)
    ensures |r| == |s| && forall i :: 0 <= i < |s| ==> r[i] == -s[|s| - 1 - i]
  {
    seq(|s|, i requires 0 <= i < |s| => -s[|s| - 1 - i])
  }

  lemma NegatedHead(s: seq<real>)
    requires s != []
    ensures Negated(s) == [-s[0]] + Negated(s[1..]) && Mirrored(s) == Mirrored(s[1..]) + [-s[0]]
  {
  }

  lemma HeadCount(x: real, s: seq<real>, v: real)
    ensures multiset([x] + s)[v] == multiset(s)[v] + if x == v then 1 else 0
    ensures multiset(s + [x])[v] == multiset(s)[v] + if x == v then 1 else 0
  {
  }

  lemma {:induction false} NegatedContents(s: seq<real>, v: real, u: real)
    requires u == -v
    ensures multiset(Negated(s))[v] == multiset(s)[u] == multiset(Mirrored(s))[v]
  {
    if s != [] {
      var x, rest := -s[0], s[1..];
      NegatedContents(rest, v, u);
      NegatedHead(s);
      HeadCount(s[0], rest, u);
      HeadCount(x, Negated(rest), v);
      HeadCount(x, Mirrored(rest), v);
      assert s == [s[0]] + rest;
    }
  }

  /** Negating and reversing a sorted sample sorts the negated sample. */
  lemma MirroredSorts(values: seq<real>, s: seq<real>)
    requires Ordered(s) && multiset(s) == multiset(values)
    ensures Ordered(Mirrored(s)) && multiset(Mirrored(s)) == multiset(Negated(values))
  {
    forall v
      ensures multiset(Mirrored(s))[v] == multiset(Negated(values))[v]
    {
      NegatedContents(s, v, -v);
      NegatedContents(values, v, -v);
    }
  }

  /** The neighbours of a position and how far it is between them. */
  lemma PositionParts(n: nat, k: real) returns (i: nat, w: real)
    requires n > 1 && 0.0 <= k <= (n - 1) as real
    ensures i + 1 < n && 0.0 <= w <= 1.0 && k == i as real + w
  {
    i := if k.Floor + 1 < n then k.Floor else n - 2;
    w := k - i as real;
  }

  lemma PositionWithin(n: nat, p: real)
    requires n > 0 && 0.0 <= p <= 100.0
    ensures 0.0 <= Position(n, p) <= (n - 1) as real
    ensures (n - 1) as real * p == 100.0 * Position(n, p)
    ensures (n - 1) as real * (100.0 - p) == 100.0 * ((n - 1) as real - Position(n, p))
  {
    PositionScales(n, p);
    ProductNonNegative((n - 1) as real, p);
    ProductNonNegative((n - 1) as real, 100.0 - p);
    assert (n - 1) as real * (100.0 - p) == (n - 1) as real * 100.0 - (n - 1) as real * p;
  }

  lemma MirrorSum(a: real, b: real, w: real, x: real, y: real, v: real)
    requires x == -b && y == -a && v == 1.0 - w
    ensures x * (1.0 - v) + y * v == -(a * (1.0 - w) + b * w)
  {
    assert 1.0 - v == w;
    assert (-b) * w == -(b * w) && (-a) * v == -(a * v);
  }

  lemma InterpolateMirrored(s: seq<real>, k: real, l: real)
    requires s != [] && 0.0 <= k && 0.0 <= l && k + l == (|s| - 1) as real
    ensures Interpolate(s, k).Some? && Interpolate(Mirrored(s), l).Some?
    ensures Interpolate(Mirrored(s), l).value == -Interpolate(s, k).value
  {
    if |s| == 1 {
      InterpolateInside(s, k);
      InterpolateInside(Mirrored(s), l);
    } else {
      var i, w := PositionParts(|s|, k);
      MirroredBetween(s, i, w, k, l);
    }
  }

  lemma MirroredBetween(s: seq<real>, i: nat, w: real, k: real, l: real)
    requires i + 1 < |s| && 0.0 <= w <= 1.0 && k == i as real + w && k + l == (|s| - 1) as real
    ensures Interpolate(s, k).Some? && Interpolate(Mirrored(s), l).Some?
    ensures Interpolate(Mirrored(s), l).value == -Interpolate(s, k).value
  {
    var x := s[i] * (1.0 - w) + s[i + 1] * w;
    ValueAt(s, i, w, k, x);
    MirroredValueAt(s, i, w, l, x);
  }

  lemma ValueAt(s: seq<real>, i: nat, w: real, k: real, x: real)
    requires i + 1 < |s| && 0.0 <= w <= 1.0 && k == i as real + w && x == s[i] * (1.0 - w) + s[i + 1] * w
    ensures Interpolate(s, k) == Some(x)
  {
    InterpolateAt(s, i, k, w);
  }

  lemma MirroredValueAt(s: seq<real>, i: nat, w: real, l: real, x: real)
    requires i + 1 < |s| && 0.0 <= w <= 1.0 && i as real + w + l == (|s| - 1) as real
    requires x == s[i] * (1.0 - w) + s[i + 1] * w
    ensures Interpolate(Mirrored(s), l) == Some(-x)
  {
    var j, v, t := |s| - 2 - i, 1.0 - w, Mirrored(s);
    MirrorSum(s[i], s[i + 1], w, t[j], t[j + 1], v);
    ValueAt(t, j, v, l, -x);
  }

  lemma NegatedSorts(values: seq<real>)
    ensures Sorted(Negated(values)) == Mirrored(Sorted(values))
  {
    SortedCorrect(values);
    SortedCorrect(Negated(values));
    MirroredSorts(values, Sorted(values));
    OrderedIsUnique(Sorted(Negated(values)), Mirrored(Sorted(values)));
  }

  lemma PositionMirrors(n: nat, p: real)
    requires n > 0 && 0.0 <= p <= 100.0
    ensures 0.0 <= Position(n, p) && 0.0 <= Position(n, 100.0 - p)
    ensures Position(n, p) + Position(n, 100.0 - p) == (n - 1) as real
  {
    PositionWithin(n, p);
    PositionWithin(n, 100.0 - p);
  }

  /** High and low percentiles mirror each other: the p-th of a sample is the negated
      (100 - p)-th of the negated sample. */
  lemma PercentileReflects(values: seq<real>, p: real)
    requires values != [] && 0.0 <= p <= 100.0
    ensures Percentile(values, p).Some? && Percentile(Negated(values), 100.0 - p).Some?
    ensures Percentile(Negated(values), 100.0 - p).value == -Percentile(values, p).value
  {
    NegatedSorts(values);
    PositionMirrors(|values|, p);
    InterpolateMirrored(Sorted(values), Position(|values|, p), Position(|values|, 100.0 - p));
  }
}
