/** The logistic scorecard: raw-unit export, log-odds, and closed-form Shapley values. */
module Scorecard {
  import opened Wrappers
  import opened Rounding
  import opened Sequences
  import opened Contributions

  /** A feature value as `_coerce` sees it. */
  datatype Raw = Absent | Flag(b: bool) | Number(v: real) | Text(s: string) | Other

  /** A dictionary in insertion order. */
  type Dict<V> = seq<(string, V)>

  predicate DistinctKeys<V>(d: Dict<V>) {
    forall i, j :: 0 <= i < j < |d| ==> d[i].0 != d[j].0
  }

  datatype Model = Model(intercept: real, weights: map<string, real>)

  /** The value of a one-letter grade, once stripped and upper-cased. */
  function Grade(s: string): Option<real> {
    if s == "A" then Some(1.0)
    else if s == "B" then Some(0.75)
    else if s == "C" then Some(0.5)
    else if s == "D" then Some(0.1)
    else None
  }

  function Coerce(feature: string, raw: Raw, normalise: string -> string): Option<real> {
    match raw
    case Absent => None
    case Flag(b) => Some(if b then 1.0 else 0.0)
    case Number(v) => Some(v)
    case Text(s) => if feature == "shg_grade" then Grade(normalise(s)) else None
    case Other => None
  }

  /** The value a feature enters the model with, if it does. */
  function Used(m: Model, feature: string, raw: Raw, normalise: string -> string): Option<real> {
    if feature in m.weights then Coerce(feature, raw, normalise) else None
  }

  function Term(m: Model, feature: string, raw: Raw, normalise: string -> string): real {
    var v := Used(m, feature, raw, normalise);
    if v.Some? then m.weights[feature] * v.value else 0.0
  }

  function LogOdds(m: Model, features: Dict<Raw>, normalise: string -> string): real {
    if features == [] then m.intercept
    else
      var (feature, raw) := features[|features| - 1];
      LogOdds(m, features[..|features| - 1], normalise) + Term(m, feature, raw, normalise)
  }

  /** The accumulation loop of `predict_probability`, up to the logistic function itself. */
  method AccumulateLogOdds(m: Model, features: Dict<Raw>, normalise: string -> string) returns (logOdds: real)
    ensures logOdds == LogOdds(m, features, normalise)
  {
    logOdds := m.intercept;
    var i := 0;
    while i < |features|
      invariant 0 <= i <= |features|
      invariant logOdds == LogOdds(m, features[..i], normalise)
    {
      var (feature, raw) := features[i];
      assert features[..i + 1][..i] == features[..i];
      if feature in m.weights {
        var v := Coerce(feature, raw, normalise);
        if v.Some? {
          logOdds := logOdds + m.weights[feature] * v.value;
        }
      }
      i := i + 1;
    }
    assert features[..i] == features;
  }

  // ---------- Shapley values ----------

  function Reference(refs: map<string, real>, feature: string): real {
    if feature in refs then refs[feature] else 0.0
  }

  /** The closed-form Shapley value of one feature of a linear model. */
  function ShapValue(weight: real, value: real, reference: real): real {
    weight * (value - reference)
  }

  /** The contribution of one dictionary entry, if the model uses it. */
  function Share(m: Model, refs: map<string, real>, entry: (string, Raw), normalise: string -> string)
    : seq<Contribution>
  {
    var v := Used(m, entry.0, entry.1, normalise);
    if v.Some?
    then [Contribution(entry.0, v.value, ShapValue(m.weights[entry.0], v.value, Reference(refs, entry.0)))]
    else []
  }

  function Explain(m: Model, refs: map<string, real>, features: Dict<Raw>, normalise: string -> string)
    : seq<Contribution>
  {
    if features == [] then []
    else
      Explain(m, refs, features[..|features| - 1], normalise)
      + Share(m, refs, features[|features| - 1], normalise)
  }

  lemma {:induction false} ExplainSnoc(m: Model, refs: map<string, real>, features: Dict<Raw>, last: (string, Raw),
                    normalise: string -> string)
    ensures Explain(m, refs, features + [last], normalise)
         == Explain(m, refs, features, normalise) + Share(m, refs, last, normalise)
  {
    assert (features + [last])[..|features|] == features;
  }

  /** `compute_shap_values`. */
  method ComputeShapValues(m: Model, refs: map<string, real>, features: Dict<Raw>, normalise: string -> string)
    returns (contributions: seq<Contribution>)
    ensures contributions == Sort(Explain(m, refs, features, normalise))
  {
    hide ShapValue, Reference;
    contributions := [];
    var i := 0;
    while i < |features|
      invariant 0 <= i <= |features|
      invariant contributions == Explain(m, refs, features[..i], normalise)
    {
      var (feature, raw) := features[i];
      ExplainSnoc(m, refs, features[..i], features[i], normalise);
      assert features[..i + 1] == features[..i] + [features[i]];
      if feature in m.weights {
        var v := Coerce(feature, raw, normalise);
        if v.Some? {
          var shap := ShapValue(m.weights[feature], v.value, Reference(refs, feature));
          contributions := contributions + [Contribution(feature, v.value, shap)];
        }
      }
      i := i + 1;
    }
    assert features[..i] == features;
    contributions := Sort(contributions);
  }

  /** An entry with its value replaced by the reference value, if the model uses it. */
  function EntryAtReference(m: Model, refs: map<string, real>, entry: (string, Raw), normalise: string -> string)
    : (string, Raw)
  {
    if Used(m, entry.0, entry.1, normalise).Some? then (entry.0, Number(Reference(refs, entry.0))) else entry
  }

  /** The reference borrower: every feature the model uses set to its reference value. */
  function AtReference(m: Model, refs: map<string, real>, features: Dict<Raw>, normalise: string -> string): Dict<Raw> {
    if features == [] then []
    else
      AtReference(m, refs, features[..|features| - 1], normalise)
      + [EntryAtReference(m, refs, features[|features| - 1], normalise)]
  }

  lemma {:induction false} ShareTotal(m: Model, refs: map<string, real>, entry: (string, Raw),
                                      normalise: string -> string)
    ensures var at := EntryAtReference(m, refs, entry, normalise);
      Total(Share(m, refs, entry, normalise))
      == Term(m, entry.0, entry.1, normalise) - Term(m, at.0, at.1, normalise)
  {
    var v := Used(m, entry.0, entry.1, normalise);
    if v.Some? {
      var w, r := m.weights[entry.0], Reference(refs, entry.0);
      Distribute(w, v.value, r);
      TotalSnoc([], Contribution(entry.0, v.value, ShapValue(w, v.value, r)));
      assert Share(m, refs, entry, normalise) == [] + [Contribution(entry.0, v.value, ShapValue(w, v.value, r))];
    }
  }

  lemma {:induction false} TotalConcat(s: seq<Contribution>, t: seq<Contribution>)
    ensures Total(s + t) == Total(s) + Total(t)
  {
    if t == [] {
      assert s + t == s;
    } else {
      assert (s + t)[..|s + t| - 1] == s + t[..|t| - 1];
      TotalConcat(s, t[..|t| - 1]);
    }
  }

  lemma {:induction false} LogOddsSnoc(m: Model, features: Dict<Raw>, last: (string, Raw), normalise: string -> string)
    ensures LogOdds(m, features + [last], normalise)
         == LogOdds(m, features, normalise) + Term(m, last.0, last.1, normalise)
  {
    assert (features + [last])[..|features|] == features;
  }

  lemma {:induction false} ExplainTotal(m: Model, refs: map<string, real>, features: Dict<Raw>,
                                        normalise: string -> string)
    ensures Total(Explain(m, refs, features, normalise))
         == LogOdds(m, features, normalise)
            - LogOdds(m, AtReference(m, refs, features, normalise), normalise)
  {
    hide Share, Term, EntryAtReference, Total;
    if features == [] {
      EmptyTotal();
    } else {
      var earlier, last := features[..|features| - 1], features[|features| - 1];
      ExplainTotal(m, refs, earlier, normalise);
      ShareTotal(m, refs, last, normalise);
      TotalConcat(Explain(m, refs, earlier, normalise), Share(m, refs, last, normalise));
      LogOddsSnoc(m, AtReference(m, refs, earlier, normalise), EntryAtReference(m, refs, last, normalise), normalise);
    }
  }

  lemma {:induction false} EmptyTotal()
    ensures Total([]) == 0.0
  {
  }

  /** Contributions add up to the log-odds minus those of the reference borrower with the same features. */
  lemma {:induction false} ShapleyEfficiency(m: Model, refs: map<string, real>, features: Dict<Raw>,
                                             normalise: string -> string)
    ensures Total(Sort(Explain(m, refs, features, normalise)))
         == LogOdds(m, features, normalise)
            - LogOdds(m, AtReference(m, refs, features, normalise), normalise)
  {
    TotalOfSort(Explain(m, refs, features, normalise));
    ExplainTotal(m, refs, features, normalise);
  }

  lemma {:induction false} Distribute(f: real, a: real, b: real)
    ensures f * (a - b) == f * a - f * b
  {
  }

  // ---------- iteration order ----------

  lemma {:induction false} ExplainSource(m: Model, refs: map<string, real>, features: Dict<Raw>,
                                         normalise: string -> string, c: Contribution)
    requires c in Explain(m, refs, features, normalise)
    ensures exists i :: 0 <= i < |features| && c in Share(m, refs, features[i], normalise)
  {
    hide Share;
    var n := |features| - 1;
    if c in Explain(m, refs, features[..n], normalise) {
      ExplainSource(m, refs, features[..n], normalise, c);
    }
  }

  lemma {:induction false} ExplainNamesUnique(m: Model, refs: map<string, real>, features: Dict<Raw>,
                                              normalise: string -> string)
    requires DistinctKeys(features)
    ensures NamesUnique(multiset(Explain(m, refs, features, normalise)))
  {
    hide Explain, Reference, Used;
    forall c, d | c in Explain(m, refs, features, normalise) && d in Explain(m, refs, features, normalise)
                  && c.feature == d.feature
      ensures c == d
    {
      ExplainSource(m, refs, features, normalise, c);
      ExplainSource(m, refs, features, normalise, d);
      var i :| 0 <= i < |features| && c in Share(m, refs, features[i], normalise);
      var j :| 0 <= j < |features| && d in Share(m, refs, features[j], normalise);
      assert c.feature == features[i].0 && d.feature == features[j].0;
    }
  }

  lemma {:induction false} ExplainConcat(m: Model, refs: map<string, real>, a: Dict<Raw>, b: Dict<Raw>,
                                         normalise: string -> string)
    ensures Explain(m, refs, a + b, normalise) == Explain(m, refs, a, normalise) + Explain(m, refs, b, normalise)
  {
    hide Share;
    if b == [] {
      assert a + b == a;
    } else {
      var earlier := b[..|b| - 1];
      assert a + b == (a + earlier) + [b[|b| - 1]];
      ExplainConcat(m, refs, a, earlier, normalise);
      ExplainSnoc(m, refs, a + earlier, b[|b| - 1], normalise);
    }
  }

  /** Moving one entry to the front only rearranges the contributions. */
  lemma {:induction false} MoveToFront(m: Model, refs: map<string, real>, b: Dict<Raw>, k: nat,
                                       normalise: string -> string)
    requires k < |b|
    ensures multiset(Explain(m, refs, b, normalise))
         == multiset(Share(m, refs, b[k], normalise))
            + multiset(Explain(m, refs, b[..k] + b[k + 1..], normalise))
    ensures multiset(b[..k] + b[k + 1..]) == multiset(b) - multiset{b[k]}
  {
    hide Share, Explain;
    var x, y := b[..k], b[k + 1..];
    assert b == x + [b[k]] + y;
    ExplainConcat(m, refs, x, y, normalise);
    ExplainConcat(m, refs, x + [b[k]], y, normalise);
    ExplainSnoc(m, refs, x, b[k], normalise);
  }

  /** Two dictionaries with the same entries have the same contributions, in some order. */
  lemma {:induction false} ExplainContents(m: Model, refs: map<string, real>, a: Dict<Raw>, b: Dict<Raw>,
                                           normalise: string -> string)
    requires multiset(a) == multiset(b)
    ensures multiset(Explain(m, refs, a, normalise)) == multiset(Explain(m, refs, b, normalise))
    decreases |a|
  {
    hide Share, Explain;
    if a == [] {
      NothingLeft(b);
    } else {
      assert a[0] in multiset(b);
      var k :| 0 <= k < |b| && b[k] == a[0];
      MoveToFront(m, refs, a, 0, normalise);
      MoveToFront(m, refs, b, k, normalise);
      assert a[..0] + a[1..] == a[1..];
      ExplainContents(m, refs, a[1..], b[..k] + b[k + 1..], normalise);
    }
  }

  /** The explanation does not depend on dictionary iteration order. */
  lemma {:induction false} ExplanationDeterministic(m: Model, refs: map<string, real>, a: Dict<Raw>, b: Dict<Raw>,
                                 normalise: string -> string)
    requires multiset(a) == multiset(b) && DistinctKeys(a)
    ensures Sort(Explain(m, refs, a, normalise)) == Sort(Explain(m, refs, b, normalise))
  {
    ExplainContents(m, refs, a, b, normalise);
    ExplainNamesUnique(m, refs, a, normalise);
    SortIgnoresOrder(Explain(m, refs, a, normalise), Explain(m, refs, b, normalise));
  }

  // ---------- raw-unit export ----------

  /** One fitted coefficient with the mean and deviation its feature was standardised by. */
  datatype Fitted = Fitted(weight: real, mean: real, deviation: real)

  /** A standardised feature's share of the trained log-odds. */
  function StandardisedTerm(f: Fitted, x: real): real
    requires f.deviation != 0.0
  {
    f.weight * ((x - f.mean) / f.deviation)
  }

  /** What the mean takes off the intercept on export. */
  function Shift(f: Fitted): real
    requires f.deviation != 0.0
  {
    f.weight * f.mean / f.deviation
  }

  /** The trained model on standardised inputs. */
  function StandardisedLogOdds(intercept: real, fits: seq<Fitted>, xs: seq<real>): real
    requires |fits| == |xs| && forall i :: 0 <= i < |fits| ==> fits[i].deviation != 0.0
  {
    if fits == [] then intercept
    else
      var f, n := fits[|fits| - 1], |fits| - 1;
      StandardisedLogOdds(intercept, fits[..n], xs[..n]) + StandardisedTerm(f, xs[n])
  }

  /** Exported raw-unit weights. */
  function RawWeights(fits: seq<Fitted>): (ws: seq<real>)
    requires forall i :: 0 <= i < |fits| ==> fits[i].deviation != 0.0
    ensures |ws| == |fits|
  {
    seq(|fits|, i requires 0 <= i < |fits| => fits[i].weight / fits[i].deviation)
  }

  function ShiftSum(fits: seq<Fitted>): real
    requires forall i :: 0 <= i < |fits| ==> fits[i].deviation != 0.0
  {
    if fits == [] then 0.0
    else ShiftSum(fits[..|fits| - 1]) + Shift(fits[|fits| - 1])
  }

  /** Exported raw-unit intercept. */
  function RawIntercept(intercept: real, fits: seq<Fitted>): real
    requires forall i :: 0 <= i < |fits| ==> fits[i].deviation != 0.0
  {
    intercept - ShiftSum(fits)
  }

  function Linear(intercept: real, ws: seq<real>, xs: seq<real>): real
    requires |ws| == |xs|
  {
    if ws == [] then intercept
    else Linear(intercept, ws[..|ws| - 1], xs[..|ws| - 1]) + ws[|ws| - 1] * xs[|ws| - 1]
  }

  /** The exported model gives the trained model's log-odds on every raw input. */
  lemma {:induction false} ExportKeepsLogOdds(intercept: real, fits: seq<Fitted>, xs: seq<real>)
    requires |fits| == |xs| && forall i :: 0 <= i < |fits| ==> fits[i].deviation != 0.0
    ensures Linear(RawIntercept(intercept, fits), RawWeights(fits), xs) == StandardisedLogOdds(intercept, fits, xs)
  {
    LinearShift(intercept, -ShiftSum(fits), RawWeights(fits), xs);
    ExportTerms(intercept, fits, xs);
  }

  lemma {:induction false} LinearShift(a: real, d: real, ws: seq<real>, xs: seq<real>)
    requires |ws| == |xs|
    ensures Linear(a + d, ws, xs) == Linear(a, ws, xs) + d
  {
    if ws != [] {
      LinearShift(a, d, ws[..|ws| - 1], xs[..|ws| - 1]);
    }
  }

  lemma {:induction false} ExportTerms(intercept: real, fits: seq<Fitted>, xs: seq<real>)
    requires |fits| == |xs| && forall i :: 0 <= i < |fits| ==> fits[i].deviation != 0.0
    ensures Linear(intercept, RawWeights(fits), xs) - ShiftSum(fits) == StandardisedLogOdds(intercept, fits, xs)
  {
    hide StandardisedTerm, Shift;
    if fits != [] {
      var n := |fits| - 1;
      var f := fits[n];
      ExportTerms(intercept, fits[..n], xs[..n]);
      assert RawWeights(fits)[..n] == RawWeights(fits[..n]);
      Rescale(f, xs[n]);
    }
  }

  lemma {:induction false} Rescale(f: Fitted, x: real)
    requires f.deviation != 0.0
    ensures StandardisedTerm(f, x) == f.weight / f.deviation * x - Shift(f)
  {
    var w, mu, sigma := f.weight, f.mean, f.deviation;
    var i := 1.0 / sigma;
    assert (x - mu) / sigma == (x - mu) * i && w / sigma == w * i && w * mu / sigma == w * mu * i;
    Expand(w, mu, i, x);
  }

  lemma {:induction false} Expand(w: real, mu: real, i: real, x: real)
    ensures w * ((x - mu) * i) == w * i * x - w * mu * i
  {
  }
}
