/** Rubric arithmetic: values to scores in [0, 1], aggregates, rounding and the pass gate. Numbers are reals. */
module Scoring {
  import opened Basics

  // ---- Rubrics and values --------------------------------------------------------------------

  datatype Dimension =
    | Numeric(key: string, min: real, max: real)
    | Ordinal(key: string, levels: seq<string>)
    | Boolean(key: string)
    | Programmatic(key: string)

  /** A dimension value; Check is the outcome of a programmatic assertion. */
  datatype Value = Number(x: real) | Label(text: string) | Flag(b: bool) | Check(pass: bool) | Missing

  datatype Method = WeightedMean | Mean | Min

  datatype Rubric = Rubric(dims: seq<Dimension>, how: Method, weights: map<string, real>,
                           ordinalMap: map<string, map<string, real>>, gate: Option<real>)

  /** What the rubric schema demands: no negative weight, a gate in [0, 1], at least two levels. */
  ghost predicate WellFormed(r: Rubric) {
    && (forall k :: k in r.weights ==> r.weights[k] >= 0.0)
    && (r.gate.Some? ==> 0.0 <= r.gate.value <= 1.0)
    && forall d :: d in r.dims && d.Ordinal? ==> |d.levels| >= 2
  }

  function Clamp01(x: real): (r: real)
    ensures 0.0 <= r <= 1.0 && (0.0 <= x <= 1.0 ==> r == x)
  {
    if x < 0.0 then 0.0 else if x > 1.0 then 1.0 else x
  }

  function IndexOf(levels: seq<string>, s: string): (r: int)
    ensures r == -1 <==> s !in levels
    ensures r != -1 ==> 0 <= r < |levels| && levels[r] == s
  {
    if levels == [] then -1
    else if levels[0] == s then 0
    else
      var r := IndexOf(levels[1..], s);
      if r == -1 then -1 else r + 1
  }

  function Mapped(r: Rubric, key: string, level: string): Option<real> {
    if key in r.ordinalMap && level in r.ordinalMap[key] then Some(r.ordinalMap[key][level]) else None
  }

  function Normalize(r: Rubric, d: Dimension, v: Value): (s: Option<real>)
    ensures s.Some? ==> 0.0 <= s.value <= 1.0
  {
    match d
    case Numeric(_, min, max) =>
      if !v.Number? then None
      else if max - min <= 0.0 then Some(if v.x >= max then 1.0 else 0.0)
      else Some(Clamp01((v.x - min) / (max - min)))
    case Boolean(_) => if v.Flag? then Some(if v.b then 1.0 else 0.0) else None
    case Ordinal(key, levels) =>
      if !v.Label? then None
      else
        var mapped, i := Mapped(r, key, v.text), IndexOf(levels, v.text);
        if mapped.Some? then Some(Clamp01(mapped.value))
        else if i < 0 then None
        else if |levels| <= 1 then Some(1.0)
        else
          Some(i as real / (|levels| - 1) as real)
    case Programmatic(_) =>
      if v.Flag? then Some(if v.b then 1.0 else 0.0)
      else if v.Check? then Some(if v.pass then 1.0 else 0.0)
      else None
  }

  /** A proper scale is divided evenly, and values beyond its ends count as the ends; levels likewise unless mapped. */
  lemma NormalizeMeans(r: Rubric, d: Dimension, v: Value)
    ensures d.Numeric? && v.Number? && d.min < d.max && d.min <= v.x <= d.max ==>
              Normalize(r, d, v).Some? && Normalize(r, d, v).value * (d.max - d.min) == v.x - d.min
    ensures d.Numeric? && v.Number? && d.min < d.max && v.x < d.min ==> Normalize(r, d, v) == Some(0.0)
    ensures d.Numeric? && v.Number? && (if d.min < d.max then v.x > d.max else v.x >= d.max) ==> Normalize(r, d, v) == Some(1.0)
    ensures d.Numeric? && v.Number? && d.min >= d.max && v.x < d.max ==> Normalize(r, d, v) == Some(0.0)
    ensures v == Flag(true) && !d.Numeric? && !d.Ordinal? ==> Normalize(r, d, v) == Some(1.0)
    ensures v == Flag(false) && !d.Numeric? && !d.Ordinal? ==> Normalize(r, d, v) == Some(0.0)
    ensures d.Programmatic? && v.Check? ==> Normalize(r, d, v) == Some(if v.pass then 1.0 else 0.0)
    ensures v == Missing ==> Normalize(r, d, v) == None
  {
    if d.Numeric? && v.Number? && d.min < d.max {
      ShareOf(v.x - d.min, d.max - d.min);
    }
  }

  lemma ShareOf(x: real, span: real)
    requires span > 0.0
    ensures (x / span) * span == x
    ensures (x < 0.0 ==> x / span < 0.0) && (0.0 <= x <= span ==> 0.0 <= x / span <= 1.0) && (x > span ==> x / span > 1.0)
  {
    var q := x / span;
    assert q * span == x;
    assert q >= 0.0 ==> q * span >= 0.0;
    assert q < 0.0 ==> q * span < 0.0;
    assert q <= 1.0 ==> q * span <= span;
    assert q > 1.0 ==> q * span > span;
  }

  /** A level scores what the rubric maps it to, within [0, 1], or by its place among the levels, the last scoring 1. */
  lemma LevelScores(r: Rubric, d: Dimension, i: nat)
    requires d.Ordinal? && i < |d.levels| && Distinct(d.levels)
    ensures
      var s := Normalize(r, d, Label(d.levels[i]));
      && s.Some?
      && (d.key in r.ordinalMap && d.levels[i] in r.ordinalMap[d.key] && 0.0 <= r.ordinalMap[d.key][d.levels[i]] <= 1.0 ==>
            s.value == r.ordinalMap[d.key][d.levels[i]])
      && (!(d.key in r.ordinalMap && d.levels[i] in r.ordinalMap[d.key]) ==>
            s.value * (|d.levels| - 1) as real == i as real || (|d.levels| == 1 && s.value == 1.0))
  {
    assert d.levels[i] in d.levels;
  }

  lemma DivideMonotone(x: real, y: real, d: real)
    requires d > 0.0 && x <= y
    ensures x / d <= y / d
  {
    var p, q := x / d, y / d;
    assert p * d == x && q * d == y;
    assert p > q ==> p * d > q * d;
  }

  // ---- Validation ----------------------------------------------------------------------------

  /** The canonical stored value of a raw one, or None for a validation error. */
  function Validate(d: Dimension, v: Value): Option<Value> {
    match d
    case Numeric(_, min, max) => if v.Number? && min <= v.x <= max then Some(v) else None
    case Ordinal(_, levels) => if v.Label? && v.text in levels then Some(v) else None
    case Boolean(_) =>
      if v.Flag? then Some(v)
      else if v == Label("true") then Some(Flag(true))
      else if v == Label("false") then Some(Flag(false))
      else None
    case Programmatic(_) =>
      if v.Flag? then Some(Check(v.b)) else if v.Check? then Some(v) else None
  }

  /** What passes validation: a number on the scale, one of the levels, a flag or its spelling, an outcome. */
  lemma ValidIff(d: Dimension, v: Value)
    ensures Validate(d, v).Some? <==>
            || (d.Numeric? && v.Number? && d.min <= v.x && v.x <= d.max)
            || (d.Ordinal? && v.Label? && v.text in d.levels)
            || (d.Boolean? && v in {Flag(true), Flag(false), Label("true"), Label("false")})
            || (d.Programmatic? && (v.Flag? || v.Check?))
    ensures Validate(d, v).Some? ==>
              Validate(d, v).value ==
              if d.Boolean? && v.Label? then Flag(v.text == "true") else if d.Programmatic? && v.Flag? then Check(v.b) else v
  {
    assert "true" != "false" by { assert |"true"| != |"false"|; }
  }

  /** Whatever passes validation has a score: only skipped dimensions are left out of an aggregate. */
  lemma ValidatedValuesScore(r: Rubric, d: Dimension, v: Value)
    requires Validate(d, v).Some?
    ensures Normalize(r, d, Validate(d, v).value).Some?
  {
  }

  /** Raising a number on its scale never lowers its score, and the ends of a proper scale score 0 and 1. */
  lemma NumericScores(r: Rubric, d: Dimension, x: real, y: real)
    requires d.Numeric? && x <= y
    ensures Normalize(r, d, Number(x)).value <= Normalize(r, d, Number(y)).value
    ensures d.min < d.max ==> Normalize(r, d, Number(d.min)) == Some(0.0) && Normalize(r, d, Number(d.max)) == Some(1.0)
  {
    var span := d.max - d.min;
    if span > 0.0 {
      DivideMonotone(x - d.min, y - d.min, span);
      assert span / span == 1.0 && 0.0 / span == 0.0;
    }
  }

  // ---- Aggregates ----------------------------------------------------------------------------

  datatype Entry = Entry(key: string, score: real)

  function Weight(r: Rubric, key: string): real {
    if key in r.weights then r.weights[key] else 1.0
  }

  function Weighed(r: Rubric, e: Entry): real {
    Weight(r, e.key) * e.score
  }

  function Sum(es: seq<Entry>): real {
    if es == [] then 0.0 else Sum(es[..|es| - 1]) + es[|es| - 1].score
  }

  function WeightedSum(r: Rubric, es: seq<Entry>): real {
    if es == [] then 0.0
    else WeightedSum(r, es[..|es| - 1]) + Weighed(r, es[|es| - 1])
  }

  function TotalWeight(r: Rubric, es: seq<Entry>): real {
    if es == [] then 0.0 else TotalWeight(r, es[..|es| - 1]) + Weight(r, es[|es| - 1].key)
  }

  function Least(es: seq<Entry>): (m: real)
    requires es != []
    ensures forall e :: e in es ==> m <= e.score
    ensures exists i :: 0 <= i < |es| && es[i].score == m
  {
    var n := |es| - 1;
    assert es == es[..n] + [es[n]];
    if n == 0 then
      assert es[0] in es;
      es[0].score
    else
      var m := Least(es[..n]);
      assert es[n] in es;
      if es[n].score < m then es[n].score else m
  }

  function Ratio(x: real, d: real): real
    requires d != 0.0
  {
    x / d
  }

  /** The aggregate of the scored dimensions; None when there is none, or no weight at all. */
  function Aggregate(r: Rubric, es: seq<Entry>): Option<real> {
    if es == [] then None
    else match r.how
         case Min => Some(Least(es))
         case Mean => Some(Ratio(Sum(es), |es| as real))
         case WeightedMean => if TotalWeight(r, es) > 0.0 then Some(Ratio(WeightedSum(r, es), TotalWeight(r, es))) else None
  }

  function Total(xs: seq<real>): real {
    if xs == [] then 0.0 else xs[0] + Total(xs[1..])
  }

  lemma {:induction false} TotalAppends(xs: seq<real>, x: real)
    ensures Total(xs + [x]) == Total(xs) + x
  {
    if xs == [] {
      assert [x][1..] == [] && xs + [x] == [x];
    } else {
      assert (xs + [x])[1..] == xs[1..] + [x];
      TotalAppends(xs[1..], x);
    }
  }

  lemma {:induction false} SumIsTotal(es: seq<Entry>, scores: seq<real>)
    requires |scores| == |es| && forall i :: 0 <= i < |es| ==> scores[i] == es[i].score
    ensures Sum(es) == Total(scores)
  {
    if es != [] {
      var n := |es| - 1;
      SumIsTotal(es[..n], scores[..n]);
      TotalAppends(scores[..n], scores[n]);
      assert scores == scores[..n] + [scores[n]];
    }
  }

  /** An unlisted key weighs 1. */
  ghost predicate WeightsOf(r: Rubric, es: seq<Entry>, weights: seq<real>) {
    |weights| == |es| && forall i :: 0 <= i < |es| ==> weights[i] == if es[i].key in r.weights then r.weights[es[i].key] else 1.0
  }

  ghost predicate ProductsOf(r: Rubric, es: seq<Entry>, products: seq<real>) {
    |products| == |es| && forall i :: 0 <= i < |es| ==>
      products[i] == if es[i].key in r.weights then r.weights[es[i].key] * es[i].score else es[i].score
  }

  lemma {:induction false} WeightIsTotal(r: Rubric, es: seq<Entry>, weights: seq<real>)
    requires WeightsOf(r, es, weights)
    ensures TotalWeight(r, es) == Total(weights)
  {
    if es != [] {
      var n := |es| - 1;
      WeightIsTotal(r, es[..n], weights[..n]);
      TotalAppends(weights[..n], weights[n]);
      assert weights == weights[..n] + [weights[n]];
    }
  }

  lemma {:induction false} WeightedIsTotal(r: Rubric, es: seq<Entry>, products: seq<real>)
    requires ProductsOf(r, es, products)
    ensures WeightedSum(r, es) == Total(products)
  {
    if es != [] {
      var n := |es| - 1;
      assert ProductsOf(r, es[..n], products[..n]);
      assert products[n] == Weighed(r, es[n]);
      hide ProductsOf, Weighed;
      WeightedIsTotal(r, es[..n], products[..n]);
      TotalAppends(products[..n], products[n]);
      assert products == products[..n] + [products[n]];
    }
  }

  lemma DivideBack(x: real, d: real)
    requires d != 0.0
    ensures Ratio(x, d) * d == x
  {
  }

  lemma LeastMeans(r: Rubric, es: seq<Entry>, scores: seq<real>)
    requires r.how == Min && es != [] && |scores| == |es| && forall i :: 0 <= i < |es| ==> scores[i] == es[i].score
    ensures Aggregate(r, es).Some? && Aggregate(r, es).value in scores && forall i :: 0 <= i < |scores| ==> Aggregate(r, es).value <= scores[i]
  {
    var least := Least(es);
    var i :| 0 <= i < |es| && es[i].score == least;
    assert scores[i] == least;
    forall k | 0 <= k < |scores| ensures least <= scores[k] { assert es[k] in es; }
  }

  lemma MeanMeans(r: Rubric, es: seq<Entry>, scores: seq<real>)
    requires r.how == Mean && es != [] && |scores| == |es| && forall i :: 0 <= i < |es| ==> scores[i] == es[i].score
    ensures Aggregate(r, es).Some? && Aggregate(r, es).value * |es| as real == Total(scores)
  {
    SumIsTotal(es, scores);
    var d := |es| as real;
    assert d != 0.0 && Aggregate(r, es) == Some(Ratio(Sum(es), d));
    hide Sum, Total, Ratio, Aggregate;
    DivideBack(Sum(es), d);
  }

  /** The mean by weights, and none when nothing carries weight. */
  lemma WeightedMeanMeans(r: Rubric, es: seq<Entry>, weights: seq<real>, products: seq<real>)
    requires r.how == WeightedMean && es != [] && WeightsOf(r, es, weights) && ProductsOf(r, es, products)
    ensures Aggregate(r, es).Some? <==> Total(weights) > 0.0
    ensures Aggregate(r, es).Some? ==> Aggregate(r, es).value * Total(weights) == Total(products)
  {
    hide WeightsOf, ProductsOf, WeightedSum, TotalWeight, Total, Ratio;
    WeightIsTotal(r, es, weights);
    WeightedIsTotal(r, es, products);
    if Total(weights) > 0.0 { DivideBack(WeightedSum(r, es), TotalWeight(r, es)); }
  }

  method AggregateScore(r: Rubric, es: seq<Entry>) returns (score: Option<real>)
    ensures score == Aggregate(r, es)
  {
    if es == [] { return None; }
    assert es[..|es|] == es;
    match r.how
    case Min => return Some(Least(es));
    case Mean =>
      var sum := 0.0;
      for i := 0 to |es|
        invariant sum == Sum(es[..i])
      {
        assert es[..i + 1][..i] == es[..i];
        sum := sum + es[i].score;
      }
      return Some(Ratio(sum, |es| as real));
    case WeightedMean =>
      var num, den := 0.0, 0.0;
      for i := 0 to |es|
        invariant num == WeightedSum(r, es[..i]) && den == TotalWeight(r, es[..i])
      {
        assert es[..i + 1][..i] == es[..i];
        var w := Weight(r, es[i].key);
        num, den := num + Weighed(r, es[i]), den + w;
      }
      if den > 0.0 { return Some(Ratio(num, den)); }
      return None;
  }

  lemma ScaleWeight(w: real, lo: real, s: real, hi: real)
    requires w >= 0.0 && lo <= s <= hi
    ensures lo * w <= w * s <= hi * w
  {
  }

  lemma {:induction false} SumBetween(es: seq<Entry>, lo: real, hi: real)
    requires forall e :: e in es ==> lo <= e.score <= hi
    ensures lo * |es| as real <= Sum(es) <= hi * |es| as real
  {
    if es != [] {
      var init, last := es[..|es| - 1], es[|es| - 1];
      assert last in es;
      SumBetween(init, lo, hi);
      StepAbove(lo, |init| as real, Sum(init), 1.0, last.score);
      StepBelow(hi, |init| as real, Sum(init), 1.0, last.score);
    }
  }

  lemma {:induction false} WeightedAbove(r: Rubric, es: seq<Entry>, lo: real)
    requires WellFormed(r) && forall e :: e in es ==> lo <= e.score
    ensures lo * TotalWeight(r, es) <= WeightedSum(r, es)
  {
    if es != [] {
      var init, last := es[..|es| - 1], es[|es| - 1];
      assert last in es;
      WeightedAbove(r, init, lo);
      var t := TotalWeight(r, init);
      StepAbove(lo, t, WeightedSum(r, init), Weight(r, last.key), last.score);
    }
  }

  lemma StepAbove(lo: real, total: real, sum: real, w: real, score: real)
    requires lo * total <= sum && w >= 0.0 && lo <= score
    ensures lo * (total + w) <= sum + w * score
  {
    ScaleWeight(w, lo, score, score);
    assert lo * (total + w) == lo * total + lo * w;
  }

  lemma {:induction false} WeightedBelow(r: Rubric, es: seq<Entry>, hi: real)
    requires WellFormed(r) && forall e :: e in es ==> e.score <= hi
    ensures WeightedSum(r, es) <= hi * TotalWeight(r, es)
  {
    if es != [] {
      var init, last := es[..|es| - 1], es[|es| - 1];
      assert last in es;
      WeightedBelow(r, init, hi);
      var t := TotalWeight(r, init);
      StepBelow(hi, t, WeightedSum(r, init), Weight(r, last.key), last.score);
    }
  }

  lemma StepBelow(hi: real, total: real, sum: real, w: real, score: real)
    requires sum <= hi * total && w >= 0.0 && score <= hi
    ensures sum + w * score <= hi * (total + w)
  {
    ScaleWeight(w, score, score, hi);
    assert hi * (total + w) == hi * total + hi * w;
  }

  /** An aggregate lies between any bounds on the scores, hence between the least and the greatest; so in [0, 1]. */
  lemma AggregateBetween(r: Rubric, es: seq<Entry>, lo: real, hi: real)
    requires WellFormed(r) && Aggregate(r, es).Some? && forall e :: e in es ==> lo <= e.score <= hi
    ensures lo <= Aggregate(r, es).value <= hi
  {
    hide Sum, WeightedSum, TotalWeight, Ratio;
    match r.how
    case Min =>
    case Mean =>
      SumBetween(es, lo, hi);
      RatioBetween(Sum(es), |es| as real, lo, hi);
    case WeightedMean =>
      WeightedAbove(r, es, lo);
      WeightedBelow(r, es, hi);
      RatioBetween(WeightedSum(r, es), TotalWeight(r, es), lo, hi);
  }

  lemma RatioBetween(x: real, d: real, lo: real, hi: real)
    requires d > 0.0 && lo * d <= x <= hi * d
    ensures lo <= Ratio(x, d) <= hi
  {
    var q := Ratio(x, d);
    assert q * d == x;
    assert q < lo ==> q * d < lo * d;
    assert q > hi ==> q * d > hi * d;
  }

  /** The same dimensions, none scored lower. */
  ghost predicate Raised(es: seq<Entry>, fs: seq<Entry>) {
    |es| == |fs| && forall i :: 0 <= i < |es| ==> es[i].key == fs[i].key && es[i].score <= fs[i].score
  }

  lemma {:induction false} SumsRaised(r: Rubric, es: seq<Entry>, fs: seq<Entry>)
    requires WellFormed(r) && Raised(es, fs)
    ensures Sum(es) <= Sum(fs) && WeightedSum(r, es) <= WeightedSum(r, fs) && TotalWeight(r, es) == TotalWeight(r, fs)
  {
    if es != [] {
      var n := |es| - 1;
      SumsRaised(r, es[..n], fs[..n]);
      ScaleWeight(Weight(r, es[n].key), es[n].score, es[n].score, fs[n].score);
      assert Weighed(r, es[n]) <= Weighed(r, fs[n]);
      hide Weighed;
    }
  }

  /** Raising scores never lowers the aggregate, and never makes it appear or vanish. */
  lemma AggregateMonotone(r: Rubric, es: seq<Entry>, fs: seq<Entry>)
    requires WellFormed(r) && Raised(es, fs)
    ensures Aggregate(r, es).Some? <==> Aggregate(r, fs).Some?
    ensures Aggregate(r, es).Some? ==> Aggregate(r, es).value <= Aggregate(r, fs).value
  {
    hide Sum, WeightedSum, TotalWeight, Least;
    if es != [] {
      SumsRaised(r, es, fs);
      match r.how
      case Min =>
      case Mean => DivideMonotone(Sum(es), Sum(fs), |es| as real);
      case WeightedMean =>
        if TotalWeight(r, es) > 0.0 {
          DivideMonotone(WeightedSum(r, es), WeightedSum(r, fs), TotalWeight(r, es));
        }
    }
  }

  // ---- Rounding ------------------------------------------------------------------------------

  /** Six decimals; halves round up. */
  function Round(x: real): real {
    (x * 1000000.0 + 0.5).Floor as real / 1000000.0
  }

  lemma RoundIsClose(x: real)
    ensures x - 0.0000005 < Round(x) <= x + 0.0000005
  {
  }

  lemma RoundIsMillionths(x: real) returns (k: int)
    ensures Round(x) == k as real / 1000000.0
  {
    k := (x * 1000000.0 + 0.5).Floor;
  }

  lemma {:induction false} RoundMonotone(x: real, y: real)
    requires x <= y
    ensures Round(x) <= Round(y)
  {
    var a, b := x * 1000000.0 + 0.5, y * 1000000.0 + 0.5;
    FloorMonotone(a, b);
    DivideMonotone(a.Floor as real, b.Floor as real, 1000000.0);
  }

  lemma FloorMonotone(a: real, b: real)
    requires a <= b
    ensures a.Floor <= b.Floor
  {
  }

  lemma RoundStaysInUnit(x: real)
    requires 0.0 <= x <= 1.0
    ensures 0.0 <= Round(x) <= 1.0
  {
    assert Round(0.0) == 0.0 && Round(1.0) == 1.0;
    RoundMonotone(0.0, x);
    RoundMonotone(x, 1.0);
  }

  // ---- The aggregate row ---------------------------------------------------------------------

  /** An assignment to a record: a key keeps its place when it is assigned again. */
  function Put(fields: seq<(string, Option<real>)>, key: string, v: Option<real>): seq<(string, Option<real>)> {
    if fields == [] then [(key, v)]
    else if fields[0].0 == key then [(key, v)] + fields[1..]
    else [fields[0]] + Put(fields[1..], key, v)
  }

  function ValueOf(values: map<string, Value>, key: string): Value {
    if key in values then values[key] else Missing
  }

  function PerDimension(r: Rubric, n: nat, values: map<string, Value>): (fields: seq<(string, Option<real>)>)
    requires n <= |r.dims|
  {
    if n == 0 then []
    else Put(PerDimension(r, n - 1, values), r.dims[n - 1].key, Normalize(r, r.dims[n - 1], ValueOf(values, r.dims[n - 1].key)))
  }

  /** The dimensions that have a score; skipped ones are left out. */
  function Scored(fields: seq<(string, Option<real>)>): seq<Entry> {
    if fields == [] then []
    else
      var n := |fields| - 1;
      Scored(fields[..n]) + if fields[n].1.Some? then [Entry(fields[n].0, fields[n].1.value)] else []
  }

  datatype Row = Row(score: Option<real>, pass: Option<bool>)

  function RowOf(r: Rubric, values: map<string, Value>, failed: bool): Row {
    var raw := Aggregate(r, Scored(PerDimension(r, |r.dims|, values)));
    var score := if failed then Some(0.0) else if raw == None then None else Some(Round(raw.value));
    Row(score, if r.gate == None then None else Some(score.Some? && score.value >= r.gate.value))
  }

  method BuildAggregate(r: Rubric, values: map<string, Value>, failed: bool) returns (row: Row)
    ensures row == RowOf(r, values, failed)
  {
    var fields: seq<(string, Option<real>)> := [];
    for i := 0 to |r.dims|
      invariant fields == PerDimension(r, i, values)
    {
      fields := Put(fields, r.dims[i].key, Normalize(r, r.dims[i], ValueOf(values, r.dims[i].key)));
    }
    var raw := AggregateScore(r, Scored(fields));
    var score := if failed then Some(0.0) else if raw == None then None else Some(Round(raw.value));
    row := Row(score, if r.gate == None then None else Some(score.Some? && score.value >= r.gate.value));
  }

  /** When no key repeats, the fields are the rubric's dimensions in order, each with the score of its own value. */
  lemma {:induction false} PerDimensionMeans(r: Rubric, n: nat, values: map<string, Value>)
    requires n <= |r.dims| && forall i, j :: 0 <= i < j < n ==> r.dims[i].key != r.dims[j].key
    ensures |PerDimension(r, n, values)| == n
    ensures forall i :: 0 <= i < n ==>
              var d := r.dims[i];
              PerDimension(r, n, values)[i] == (d.key, Normalize(r, d, if d.key in values then values[d.key] else Missing))
  {
    hide Normalize, Put;
    if n > 0 {
      PerDimensionMeans(r, n - 1, values);
      PutNew(PerDimension(r, n - 1, values), r.dims[n - 1].key, Normalize(r, r.dims[n - 1], ValueOf(values, r.dims[n - 1].key)));
    }
  }

  lemma {:induction false} PutNew(fields: seq<(string, Option<real>)>, key: string, v: Option<real>)
    requires forall i :: 0 <= i < |fields| ==> fields[i].0 != key
    ensures Put(fields, key, v) == fields + [(key, v)]
  {
    if fields != [] { PutNew(fields[1..], key, v); }
  }

  /** A key that repeats keeps its place and takes the later score. */
  lemma {:induction false} PutAgain(fields: seq<(string, Option<real>)>, key: string, v: Option<real>, i: nat)
    requires i < |fields| && fields[i].0 == key && forall j :: 0 <= j < i ==> fields[j].0 != key
    ensures Put(fields, key, v) == fields[i := (key, v)]
  {
    if i > 0 { PutAgain(fields[1..], key, v, i - 1); }
  }

  /** Skipped dimensions are left out; the others keep their order. */
  lemma {:induction false} ScoredSplits(a: seq<(string, Option<real>)>, b: seq<(string, Option<real>)>)
    ensures Scored(a + b) == Scored(a) + Scored(b)
    ensures forall key: string :: Scored([(key, None)]) == []
    ensures forall key: string, x: real :: Scored([(key, Some(x))]) == [Entry(key, x)]
  {
    forall key: string ensures Scored([(key, None)]) == [] {
      var skipped: seq<(string, Option<real>)> := [(key, None)];
      assert skipped[..0] == [] && Scored([]) == [];
    }
    forall key: string, x: real ensures Scored([(key, Some(x))]) == [Entry(key, x)] {
      assert [(key, Some(x))][..0] == [] && Scored([]) == [];
    }
    if b == [] {
      assert a + b == a;
    } else {
      assert (a + b)[..|a + b| - 1] == a + b[..|b| - 1];
      ScoredSplits(a, b[..|b| - 1]);
    }
  }

  ghost predicate InUnit(fields: seq<(string, Option<real>)>) {
    forall f :: f in fields && f.1.Some? ==> 0.0 <= f.1.value <= 1.0
  }

  lemma {:induction false} PutInUnit(fields: seq<(string, Option<real>)>, key: string, v: Option<real>)
    requires InUnit(fields) && (v.Some? ==> 0.0 <= v.value <= 1.0)
    ensures InUnit(Put(fields, key, v))
  {
    if fields != [] {
      assert fields[0] in fields;
      assert forall f :: f in fields[1..] ==> f in fields;
      PutInUnit(fields[1..], key, v);
    }
  }

  lemma {:induction false} PerDimensionInUnit(r: Rubric, n: nat, values: map<string, Value>)
    requires n <= |r.dims|
    ensures InUnit(PerDimension(r, n, values))
  {
    if n > 0 {
      PerDimensionInUnit(r, n - 1, values);
      PutInUnit(PerDimension(r, n - 1, values), r.dims[n - 1].key, Normalize(r, r.dims[n - 1], ValueOf(values, r.dims[n - 1].key)));
    }
  }

  lemma {:induction false} ScoredInUnit(fields: seq<(string, Option<real>)>)
    requires InUnit(fields)
    ensures forall e :: e in Scored(fields) ==> 0.0 <= e.score <= 1.0
  {
    if fields != [] {
      var n := |fields| - 1;
      assert fields[n] in fields;
      assert forall f :: f in fields[..n] ==> f in fields;
      ScoredInUnit(fields[..n]);
    }
  }

  /** The score of an aggregate row lies in [0, 1], and that of a failed session is 0. */
  lemma {:induction false} RowScoreInUnit(r: Rubric, values: map<string, Value>, failed: bool)
    requires WellFormed(r)
    ensures var row := RowOf(r, values, failed); row.score.Some? ==> 0.0 <= row.score.value <= 1.0
    ensures failed ==> RowOf(r, values, failed).score == Some(0.0)
    ensures var row, whole := RowOf(r, values, failed), Aggregate(r, Scored(PerDimension(r, |r.dims|, values)));
            !failed ==>
              && (row.score == None <==> whole == None)
              && (whole.Some? ==> whole.value - 0.0000005 < row.score.value <= whole.value + 0.0000005)
    ensures var row := RowOf(r, values, failed);
            && (row.pass == None <==> r.gate == None)
            && (row.pass == Some(true) <==> r.gate.Some? && row.score.Some? && r.gate.value <= row.score.value)
  {
    hide Round, Aggregate, Scored, PerDimension;
    var es := Scored(PerDimension(r, |r.dims|, values));
    PerDimensionInUnit(r, |r.dims|, values);
    ScoredInUnit(PerDimension(r, |r.dims|, values));
    if Aggregate(r, es).Some? {
      AggregateBetween(r, es, 0.0, 1.0);
      RoundStaysInUnit(Aggregate(r, es).value);
      RoundIsClose(Aggregate(r, es).value);
    }
  }

  /** "A session that did not complete cannot pass" holds exactly for gates above zero, and the schema allows zero. */
  lemma FailedPassesIff(r: Rubric, values: map<string, Value>)
    requires WellFormed(r)
    ensures RowOf(r, values, true).pass == Some(true) <==> r.gate == Some(0.0)
  {
  }

  // ---- Raising one value ---------------------------------------------------------------------

  /** Field by field: the same keys, skipped alike, and no score lower. */
  ghost predicate FieldsRaised(a: seq<(string, Option<real>)>, b: seq<(string, Option<real>)>) {
    |a| == |b| && forall i :: 0 <= i < |a| ==> FieldRaised(a[i], b[i])
  }

  ghost predicate FieldRaised(a: (string, Option<real>), b: (string, Option<real>)) {
    a.0 == b.0 && (a.1.Some? <==> b.1.Some?) && (a.1.Some? ==> a.1.value <= b.1.value)
  }

  lemma {:induction false} PutRaised(a: seq<(string, Option<real>)>, b: seq<(string, Option<real>)>, key: string, v: Option<real>, w: Option<real>)
    requires FieldsRaised(a, b) && FieldRaised((key, v), (key, w))
    ensures FieldsRaised(Put(a, key, v), Put(b, key, w))
  {
    if a != [] {
      assert FieldRaised(a[0], b[0]);
      forall i | 0 <= i < |a[1..]| ensures FieldRaised(a[1..][i], b[1..][i]) {
        assert FieldRaised(a[i + 1], b[i + 1]);
      }
      PutRaised(a[1..], b[1..], key, v, w);
    }
  }

  /** No dimension is scored lower from `v` than from `w`, and the same ones are skipped. */
  ghost predicate ValuesRaised(r: Rubric, v: map<string, Value>, w: map<string, Value>) {
    forall d :: d in r.dims ==>
      FieldRaised((d.key, Normalize(r, d, ValueOf(v, d.key))), (d.key, Normalize(r, d, ValueOf(w, d.key))))
  }

  lemma {:induction false} PerDimensionRaised(r: Rubric, n: nat, v: map<string, Value>, w: map<string, Value>)
    requires n <= |r.dims| && ValuesRaised(r, v, w)
    ensures FieldsRaised(PerDimension(r, n, v), PerDimension(r, n, w))
  {
    hide Normalize;
    if n > 0 {
      var d := r.dims[n - 1];
      assert d in r.dims;
      PerDimensionRaised(r, n - 1, v, w);
      PutRaised(PerDimension(r, n - 1, v), PerDimension(r, n - 1, w), d.key,
                Normalize(r, d, ValueOf(v, d.key)), Normalize(r, d, ValueOf(w, d.key)));
    }
  }

  lemma {:induction false} ScoredRaised(a: seq<(string, Option<real>)>, b: seq<(string, Option<real>)>)
    requires FieldsRaised(a, b)
    ensures Raised(Scored(a), Scored(b))
  {
    if a != [] {
      var n := |a| - 1;
      assert FieldRaised(a[n], b[n]);
      forall i | 0 <= i < n ensures FieldRaised(a[..n][i], b[..n][i]) {
        assert FieldRaised(a[i], b[i]);
      }
      ScoredRaised(a[..n], b[..n]);
    }
  }

  /** Raising values never lowers a row's score nor turns a pass into a fail, for each way to aggregate. */
  lemma {:induction false} RaisingNeverFails(r: Rubric, v: map<string, Value>, w: map<string, Value>, failed: bool)
    requires WellFormed(r) && ValuesRaised(r, v, w)
    ensures var a, b := RowOf(r, v, failed), RowOf(r, w, failed);
            && (a.score.Some? <==> b.score.Some?) && (a.score.Some? ==> a.score.value <= b.score.value)
            && (a.pass == Some(true) ==> b.pass == Some(true))
  {
    hide Round, Aggregate, Scored, PerDimension;
    var es, fs := Scored(PerDimension(r, |r.dims|, v)), Scored(PerDimension(r, |r.dims|, w));
    PerDimensionRaised(r, |r.dims|, v, w);
    ScoredRaised(PerDimension(r, |r.dims|, v), PerDimension(r, |r.dims|, w));
    AggregateMonotone(r, es, fs);
    if Aggregate(r, es).Some? {
      RoundMonotone(Aggregate(r, es).value, Aggregate(r, fs).value);
    }
  }
}
