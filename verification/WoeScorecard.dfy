/** The WoE scorecard: integer points per bin against the real log-odds they stand for. */
module WoeScorecards {
  import opened Wrappers
  import opened Rounding
  import opened Binning
  import opened Woe
  import opened WoeTheorems
  import opened Contributions
  import opened Calibration

  /** A dictionary's items in insertion order. */
  type Weights = seq<(string, real)>

  datatype Model = Model(
    rules: map<string, FeatureRule>, intercept: real, weights: Weights, factor: real, offset: real)

  /** `features.get(name)`. */
  function Get(features: map<string, Cell>, name: string): Cell {
    if name in features then features[name] else Missing
  }

  /** `transform_value`: zero for a feature that was never fitted. */
  function WoeOf(rules: map<string, FeatureRule>, name: string, c: Cell): real {
    if name in rules then TransformValue(rules[name], c) else 0.0
  }

  /** A feature's share of the log-odds. */
  function Weighted(w: real, woe: real): real {
    w * woe
  }

  // ---------- log-odds ----------

  function LogOdds(m: Model, features: map<string, Cell>, weights: Weights): real {
    if weights == [] then m.intercept
    else
      var (name, w) := weights[|weights| - 1];
      LogOdds(m, features, weights[..|weights| - 1]) + Weighted(w, WoeOf(m.rules, name, Get(features, name)))
  }

  // ---------- the points table ----------

  /** Features the total is spread over, at least one. */
  function Spread(m: Model): nat {
    if |m.weights| == 0 then 1 else |m.weights|
  }

  /** Unrounded points of one bin. */
  function ExactPoints(m: Model, w: real, woe: real): real {
    var n := Spread(m) as real;
    m.offset / n - m.factor * (m.intercept / n + Weighted(w, woe))
  }

  function BinPoints(m: Model, w: real, woe: real): int {
    Round(ExactPoints(m, w, woe))
  }

  /** One feature's label-to-points dictionary; a repeated label keeps the last bin's points. */
  function FeatureTable(m: Model, w: real, bins: seq<WoEBin>): map<Label, int> {
    if bins == [] then map[]
    else
      var last := bins[|bins| - 1];
      FeatureTable(m, w, bins[..|bins| - 1])[last.tag := BinPoints(m, w, last.woe)]
  }

  function PointsTable(m: Model, weights: Weights): map<string, map<Label, int>> {
    if weights == [] then map[]
    else
      var (name, w) := weights[|weights| - 1];
      var earlier := PointsTable(m, weights[..|weights| - 1]);
      if name in m.rules then earlier[name := FeatureTable(m, w, m.rules[name].bins)] else earlier
  }

  // ---------- scoring by points ----------

  /** Label of the first matching value bin, or Missing. */
  function MatchedLabel(bins: seq<WoEBin>, c: Cell): Label {
    if bins == [] then MissingLabel
    else if bins[0].tag != MissingLabel && bins[0].Matches(c) then bins[0].tag
    else MatchedLabel(bins[1..], c)
  }

  function LabelFor(rule: FeatureRule, c: Cell): Label {
    if c.Missing? then MissingLabel else MatchedLabel(rule.bins, c)
  }

  function PointsOf(m: Model, table: map<string, map<Label, int>>, name: string, c: Cell): int {
    if name !in m.rules then 0
    else
      var tag := LabelFor(m.rules[name], c);
      if name in table && tag in table[name] then table[name][tag] else 0
  }

  function TotalPoints(m: Model, table: map<string, map<Label, int>>, features: map<string, Cell>,
                       weights: Weights): int
  {
    if weights == [] then 0
    else
      var name := weights[|weights| - 1].0;
      TotalPoints(m, table, features, weights[..|weights| - 1]) + PointsOf(m, table, name, Get(features, name))
  }

  // ---------- explanation ----------

  /** The value shown beside a contribution; `grade` stands for the grade dictionary applied to a text cell. */
  function ShownValue(c: Cell, name: string, grade: string -> real): real {
    match c
    case Missing => 0.0
    case Number(v) => v
    case Text => grade(name)
  }

  function Explain(m: Model, features: map<string, Cell>, weights: Weights, grade: string -> real)
    : (cs: seq<Contribution>)
    ensures |cs| == |weights|
  {
    if weights == [] then []
    else
      var (name, w) := weights[|weights| - 1];
      var c := Get(features, name);
      Explain(m, features, weights[..|weights| - 1], grade)
      + [Contribution(name, ShownValue(c, name, grade), Weighted(w, WoeOf(m.rules, name, c)))]
  }

  class WoEScorecard {
    const model: Model
    var pointsTable: map<string, map<Label, int>>

    /** Builds the points table feature by feature, bin by bin. */
    constructor (model: Model)
      ensures this.model == model && pointsTable == PointsTable(model, model.weights)
    {
      this.model := model;
      pointsTable := map[];
      new;
      var i := 0;
      while i < |model.weights|
        invariant 0 <= i <= |model.weights|
        invariant pointsTable == PointsTable(model, model.weights[..i])
      {
        var (feat, w) := model.weights[i];
        assert model.weights[..i + 1][..i] == model.weights[..i];
        if feat in model.rules {
          var entry := BuildFeatureTable(model, w, model.rules[feat].bins);
          pointsTable := pointsTable[feat := entry];
        }
        i := i + 1;
      }
      assert model.weights[..i] == model.weights;
    }

    static method BuildFeatureTable(m: Model, w: real, bins: seq<WoEBin>) returns (entry: map<Label, int>)
      ensures entry == FeatureTable(m, w, bins)
    {
      entry := map[];
      var k := 0;
      while k < |bins|
        invariant 0 <= k <= |bins|
        invariant entry == FeatureTable(m, w, bins[..k])
      {
        assert bins[..k + 1][..k] == bins[..k];
        entry := entry[bins[k].tag := BinPoints(m, w, bins[k].woe)];
        k := k + 1;
      }
      assert bins[..k] == bins;
    }

    /** The accumulation loop of `predict_raw_probability`. */
    method PredictLogOdds(features: map<string, Cell>) returns (logOdds: real)
      ensures logOdds == LogOdds(model, features, model.weights)
    {
      logOdds := model.intercept;
      var i := 0;
      while i < |model.weights|
        invariant 0 <= i <= |model.weights|
        invariant logOdds == LogOdds(model, features, model.weights[..i])
      {
        var (feat, w) := model.weights[i];
        assert model.weights[..i + 1][..i] == model.weights[..i];
        var woe := WoeOf(model.rules, feat, Get(features, feat));
        logOdds := logOdds + Weighted(w, woe);
        i := i + 1;
      }
      assert model.weights[..i] == model.weights;
    }

    static method MatchBin(rule: FeatureRule, c: Cell) returns (tag: Label)
      ensures tag == LabelFor(rule, c)
    {
      tag := MissingLabel;
      if c.Missing? {
        return;
      }
      var k := 0;
      while k < |rule.bins|
        invariant 0 <= k <= |rule.bins|
        invariant tag == MissingLabel
        invariant MatchedLabel(rule.bins[k..], c) == MatchedLabel(rule.bins, c)
      {
        var b := rule.bins[k];
        assert rule.bins[k..][1..] == rule.bins[k + 1..];
        if b.tag != MissingLabel && b.Matches(c) {
          return b.tag;
        }
        k := k + 1;
      }
    }

    /** `compute_points`. */
    method ComputePoints(features: map<string, Cell>) returns (points: int)
      ensures points == ClampInt(300, 900, TotalPoints(model, pointsTable, features, model.weights))
    {
      var total := 0;
      var i := 0;
      while i < |model.weights|
        invariant 0 <= i <= |model.weights|
        invariant total == TotalPoints(model, pointsTable, features, model.weights[..i])
      {
        var feat := model.weights[i].0;
        assert model.weights[..i + 1][..i] == model.weights[..i];
        if feat in model.rules {
          var tag := MatchBin(model.rules[feat], Get(features, feat));
          if feat in pointsTable && tag in pointsTable[feat] {
            total := total + pointsTable[feat][tag];
          }
        }
        i := i + 1;
      }
      assert model.weights[..i] == model.weights;
      points := ClampInt(300, 900, total);
    }

    /** `compute_shap_values`. */
    method ComputeShapValues(features: map<string, Cell>, grade: string -> real) returns (cs: seq<Contribution>)
      ensures cs == Sort(Explain(model, features, model.weights, grade))
    {
      cs := [];
      var i := 0;
      while i < |model.weights|
        invariant 0 <= i <= |model.weights|
        invariant cs == Explain(model, features, model.weights[..i], grade)
      {
        var (feat, w) := model.weights[i];
        assert model.weights[..i + 1][..i] == model.weights[..i];
        var c := Get(features, feat);
        var woe := WoeOf(model.rules, feat, c);
        cs := cs + [Contribution(feat, ShownValue(c, feat, grade), Weighted(w, woe))];
        i := i + 1;
      }
      assert model.weights[..i] == model.weights;
      cs := Sort(cs);
    }
  }
}
