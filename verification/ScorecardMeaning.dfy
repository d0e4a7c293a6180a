/** What one contribution means, in both scorecards; what a value is read as; and that an exported model scores as the
    trained one did. */
module ScorecardMeaning {
  import opened Wrappers
  import opened Sequences
  import opened Contributions
  import opened Scorecard

  // ---------- what a value is read as ----------

  /** A flag that is set weighs as much as the best grade and one that is not as nothing; a better grade never weighs
      less; any other letter, and a text anywhere else, is not used. */
  lemma {:induction false} CoerceMeaning(feature: string, s: string, normalise: string -> string)
    ensures Coerce(feature, Flag(true), normalise) == Some(1.0) && Coerce(feature, Flag(false), normalise) == Some(0.0)
    ensures Coerce(feature, Text(s), normalise).Some?
       <==> feature == "shg_grade" && normalise(s) in ["A", "B", "C", "D"]
    ensures Grade("A") == Some(1.0) && Grade("B") == Some(0.75) && Grade("C") == Some(0.5) && Grade("D") == Some(0.1)
    ensures Coerce(feature, Absent, normalise) == None
  {
    assert "A"[0] != "B"[0] && "A"[0] != "C"[0] && "A"[0] != "D"[0] && "B"[0] != "C"[0] && "B"[0] != "D"[0];
    assert "C"[0] != "D"[0];
  }

  // ---------- one contribution ----------

  lemma {:induction false} LogOddsOfUpdate(m: Model, features: Dict<Raw>, i: nat, entry: (string, Raw),
                                           normalise: string -> string)
    requires i < |features|
    ensures LogOdds(m, features[i := entry], normalise)
         == LogOdds(m, features, normalise) - Term(m, features[i].0, features[i].1, normalise)
            + Term(m, entry.0, entry.1, normalise)
  {
    hide Term;
    var n := |features| - 1;
    if i < n {
      assert features[i := entry][..n] == features[..n][i := entry];
      LogOddsOfUpdate(m, features[..n], i, entry, normalise);
    } else {
      assert features[i := entry][..n] == features[..n];
    }
  }

  lemma {:induction false} ExplainHas(m: Model, refs: map<string, real>, features: Dict<Raw>, i: nat,
                                      normalise: string -> string)
    requires i < |features| && Used(m, features[i].0, features[i].1, normalise).Some?
    ensures Share(m, refs, features[i], normalise) != []
    ensures Share(m, refs, features[i], normalise)[0] in Explain(m, refs, features, normalise)
  {
    hide Used, ShapValue, Reference;
    var n := |features| - 1;
    if i < n {
      ExplainHas(m, refs, features[..n], i, normalise);
      assert features[..n][i] == features[i];
    }
  }

  /** The contribution of a feature the model uses is the change of the log-odds when that feature, and no other, moves
      from its reference value to the borrower's. */
  lemma {:induction false} ShapleyMarginal(m: Model, refs: map<string, real>, features: Dict<Raw>, i: nat,
                                           normalise: string -> string)
    requires i < |features| && Used(m, features[i].0, features[i].1, normalise).Some?
    ensures var (name, raw) := features[i];
      var reference := if name in refs then refs[name] else 0.0;
      exists c :: c in Sort(Explain(m, refs, features, normalise)) && c.feature == name
        && Some(c.value) == Coerce(name, raw, normalise)
        && c.shap == LogOdds(m, features, normalise) - LogOdds(m, features[i := (name, Number(reference))], normalise)
  {
    var (name, raw) := features[i];
    var entry := (name, Number(Reference(refs, name)));
    LogOddsOfUpdate(m, features, i, entry, normalise);
    ExplainHas(m, refs, features, i, normalise);
    var c := Share(m, refs, features[i], normalise)[0];
    ShareIs(m, refs, features[i], normalise);
    SortHas(Explain(m, refs, features, normalise), c);
    hide Explain, Share, Sort, LogOdds, Coerce, Term;
    assert c in Sort(Explain(m, refs, features, normalise));
  }

  lemma {:induction false} ShareIs(m: Model, refs: map<string, real>, entry: (string, Raw), normalise: string -> string)
    requires Used(m, entry.0, entry.1, normalise).Some?
    ensures Share(m, refs, entry, normalise) != []
    ensures var c := Share(m, refs, entry, normalise)[0];
      && c.feature == entry.0 && Some(c.value) == Coerce(entry.0, entry.1, normalise)
      && c.shap == Term(m, entry.0, entry.1, normalise) - Term(m, entry.0, Number(Reference(refs, entry.0)), normalise)
  {
    var v := Coerce(entry.0, entry.1, normalise).value;
    Distribute(m.weights[entry.0], v, Reference(refs, entry.0));
    hide Coerce, Reference;
    assert Coerce(entry.0, Number(Reference(refs, entry.0)), normalise) == Some(Reference(refs, entry.0)) by {
      NumberIsItself(entry.0, Reference(refs, entry.0), normalise);
    }
  }

  lemma {:induction false} NumberIsItself(name: string, v: real, normalise: string -> string)
    ensures Coerce(name, Number(v), normalise) == Some(v)
  {
  }

  lemma {:induction false} SortHas(s: seq<Contribution>, c: Contribution)
    requires c in s
    ensures c in Sort(s)
  {
    SortMeaning(s);
    assert c in multiset(s);
  }

  // ---------- the exported model ----------

  /** The model and the features that the fitted coefficients are exported to, for features named in order. */
  ghost predicate Exported(m: Model, intercept: real, fits: seq<Fitted>, names: seq<string>)
    requires forall i :: 0 <= i < |fits| ==> fits[i].deviation != 0.0
  {
    && m.intercept == RawIntercept(intercept, fits)
    && |names| == |fits|
    && forall i :: 0 <= i < |fits| ==> names[i] in m.weights && m.weights[names[i]] == RawWeights(fits)[i]
  }

  function Named(names: seq<string>, xs: seq<real>): (d: Dict<Raw>)
    requires |names| == |xs|
    ensures |d| == |names| && forall i :: 0 <= i < |d| ==> d[i] == (names[i], Number(xs[i]))
  {
    seq(|names|, i requires 0 <= i < |names| => (names[i], Number(xs[i])))
  }

  lemma {:induction false} LogOddsIsLinear(m: Model, names: seq<string>, ws: seq<real>, xs: seq<real>,
                                           normalise: string -> string)
    requires |names| == |ws| == |xs|
    requires forall i :: 0 <= i < |names| ==> names[i] in m.weights && m.weights[names[i]] == ws[i]
    ensures LogOdds(m, Named(names, xs), normalise) == Linear(m.intercept, ws, xs)
  {
    if names != [] {
      var n := |names| - 1;
      LogOddsIsLinear(m, names[..n], ws[..n], xs[..n], normalise);
      assert Named(names, xs)[..n] == Named(names[..n], xs[..n]);
      NumberIsItself(names[n], xs[n], normalise);
      hide Coerce;
    }
  }

  /** The exported model gives a borrower the log-odds the trained one gave the standardised features. */
  lemma {:induction false} ExportScoresAlike(m: Model, intercept: real, fits: seq<Fitted>, names: seq<string>,
                                             xs: seq<real>, normalise: string -> string)
    requires |xs| == |fits| && forall i :: 0 <= i < |fits| ==> fits[i].deviation != 0.0
    requires Exported(m, intercept, fits, names)
    ensures LogOdds(m, Named(names, xs), normalise) == StandardisedLogOdds(intercept, fits, xs)
  {
    hide LogOdds, Linear, StandardisedLogOdds, RawIntercept, Named;
    LogOddsIsLinear(m, names, RawWeights(fits), xs, normalise);
    ExportKeepsLogOdds(intercept, fits, xs);
  }
}
