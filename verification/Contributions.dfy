/** Explanation lists: contributions sorted by size, ties by feature name. */
module Contributions {
  import opened Rounding
  import opened Sequences

  datatype Contribution = Contribution(feature: string, value: real, shap: real)

  /** Python's `<=` on strings: lexicographic by code point. */
  predicate StrLeq(s: string, t: string) {
    s == "" || (t != "" && (s[0] < t[0] || (s[0] == t[0] && StrLeq(s[1..], t[1..]))))
  }

  /** The sort key `(-abs(shap), feature)`, compared. */
  predicate Before(c: Contribution, d: Contribution) {
    Abs(c.shap) > Abs(d.shap) || (Abs(c.shap) == Abs(d.shap) && StrLeq(c.feature, d.feature))
  }

  function Insert(c: Contribution, s: seq<Contribution>): seq<Contribution> {
    if s == [] || Before(c, s[0]) then [c] + s else [s[0]] + Insert(c, s[1..])
  }

  /** `contributions.sort(key=...)`. */
  function Sort(s: seq<Contribution>): seq<Contribution> {
    if s == [] then [] else Insert(s[0], Sort(s[1..]))
  }

  function Total(s: seq<Contribution>): real {
    if s == [] then 0.0 else Total(s[..|s| - 1]) + s[|s| - 1].shap
  }

  // ---------- the order ----------

  lemma {:induction false} StrLeqTotal(s: string, t: string)
    ensures StrLeq(s, t) || StrLeq(t, s)
    ensures StrLeq(s, t) && StrLeq(t, s) ==> s == t
  {
    if s != "" && t != "" && s[0] == t[0] {
      StrLeqTotal(s[1..], t[1..]);
      assert s == [s[0]] + s[1..] && t == [t[0]] + t[1..];
    }
  }

  lemma {:induction false} StrLeqTransitive(s: string, t: string, u: string)
    requires StrLeq(s, t) && StrLeq(t, u)
    ensures StrLeq(s, u)
  {
    if s != "" && s[0] == t[0] && t[0] == u[0] {
      StrLeqTransitive(s[1..], t[1..], u[1..]);
    }
  }

  lemma {:induction false} BeforeTotal(c: Contribution, d: Contribution)
    ensures Before(c, d) || Before(d, c)
    ensures Before(c, d) && Before(d, c) ==> c.feature == d.feature
  {
    StrLeqTotal(c.feature, d.feature);
  }

  lemma {:induction false} BeforeTransitive(c: Contribution, d: Contribution, e: Contribution)
    requires Before(c, d) && Before(d, e)
    ensures Before(c, e)
  {
    if Abs(c.shap) == Abs(e.shap) {
      StrLeqTransitive(c.feature, d.feature, e.feature);
    }
  }

  /** Each element comes before all later ones. */
  predicate Ordered(s: seq<Contribution>) {
    s == [] || ((forall i :: 0 < i < |s| ==> Before(s[0], s[i])) && Ordered(s[1..]))
  }

  lemma {:induction false} InsertContents(c: Contribution, s: seq<Contribution>)
    ensures multiset(Insert(c, s)) == multiset{c} + multiset(s)
  {
    if s != [] && !Before(c, s[0]) {
      InsertContents(c, s[1..]);
      assert s == [s[0]] + s[1..];
    }
  }

  lemma {:induction false} InsertBounded(c: Contribution, s: seq<Contribution>, low: Contribution)
    requires Before(low, c) && forall i :: 0 <= i < |s| ==> Before(low, s[i])
    ensures forall i :: 0 <= i < |Insert(c, s)| ==> Before(low, Insert(c, s)[i])
  {
    hide Before;
    if s != [] && !Before(c, s[0]) {
      InsertBounded(c, s[1..], low);
    }
  }

  lemma {:induction false} InsertOrdered(c: Contribution, s: seq<Contribution>)
    requires Ordered(s)
    ensures Ordered(Insert(c, s))
  {
    hide Before;
    if s != [] {
      BeforeTotal(c, s[0]);
      if Before(c, s[0]) {
        forall i | 0 <= i < |s|
          ensures Before(c, s[i])
        {
          if i > 0 {
            BeforeTransitive(c, s[0], s[i]);
          }
        }
        assert ([c] + s)[1..] == s;
      } else {
        InsertOrdered(c, s[1..]);
        InsertBounded(c, s[1..], s[0]);
        assert Insert(c, s)[1..] == Insert(c, s[1..]);
      }
    }
  }

  /** Sorting orders the list and only rearranges it. */
  lemma {:induction false} SortMeaning(s: seq<Contribution>)
    ensures Ordered(Sort(s)) && multiset(Sort(s)) == multiset(s)
  {
    if s != [] {
      SortMeaning(s[1..]);
      InsertOrdered(s[0], Sort(s[1..]));
      InsertContents(s[0], Sort(s[1..]));
      assert s == [s[0]] + s[1..];
    }
  }

  // ---------- the order is unique ----------

  /** No two entries share a feature name. */
  ghost predicate NamesUnique(m: multiset<Contribution>) {
    forall c, d :: c in m && d in m && c.feature == d.feature ==> c == d
  }

  lemma {:induction false} HeadFirst(s: seq<Contribution>, t: seq<Contribution>)
    requires Ordered(t) && s != [] && multiset(s) == multiset(t)
    ensures t != [] && (t[0] == s[0] || Before(t[0], s[0]))
  {
    assert s[0] in multiset(t);
    var k :| 0 <= k < |t| && t[k] == s[0];
  }

  lemma {:induction false} SameHead(s: seq<Contribution>, t: seq<Contribution>)
    requires Ordered(s) && Ordered(t) && s != [] && multiset(s) == multiset(t) && NamesUnique(multiset(s))
    ensures t != [] && s[0] == t[0]
    ensures multiset(s[1..]) == multiset(t[1..]) && NamesUnique(multiset(s[1..]))
  {
    hide Before, Ordered;
    HeadFirst(s, t);
    HeadFirst(t, s);
    BeforeTotal(s[0], t[0]);
    assert s[0] in multiset(s) && t[0] in multiset(t);
    TailMultiset(s);
    TailMultiset(t);
  }

  lemma {:induction false} OrderedUnique(s: seq<Contribution>, t: seq<Contribution>)
    requires Ordered(s) && Ordered(t) && multiset(s) == multiset(t) && NamesUnique(multiset(s))
    ensures s == t
  {
    hide Before, NamesUnique;
    if s == [] {
      NothingLeft(t);
    } else {
      SameHead(s, t);
      OrderedUnique(s[1..], t[1..]);
      assert s == [s[0]] + s[1..] && t == [t[0]] + t[1..];
    }
  }

  /** The sorted list does not depend on the order the features were visited in. */
  lemma {:induction false} SortIgnoresOrder(s: seq<Contribution>, t: seq<Contribution>)
    requires multiset(s) == multiset(t) && NamesUnique(multiset(s))
    ensures Sort(s) == Sort(t)
  {
    SortMeaning(s);
    SortMeaning(t);
    OrderedUnique(Sort(s), Sort(t));
  }

  // ---------- totals ----------

  lemma {:induction false} TotalSnoc(s: seq<Contribution>, c: Contribution)
    ensures Total(s + [c]) == Total(s) + c.shap
  {
    assert (s + [c])[..|s|] == s;
  }

  lemma {:induction false} TotalCons(s: seq<Contribution>)
    requires s != []
    ensures Total(s) == s[0].shap + Total(s[1..])
  {
    if |s| == 1 {
      assert s[..0] == [] && s[1..] == [];
    } else {
      TotalCons(s[..|s| - 1]);
      assert s[..|s| - 1][1..] == s[1..][..|s| - 2];
    }
  }

  lemma {:induction false} TotalOfInsert(c: Contribution, s: seq<Contribution>)
    ensures Total(Insert(c, s)) == c.shap + Total(s)
  {
    TotalCons(Insert(c, s));
    if s != [] && !Before(c, s[0]) {
      TotalOfInsert(c, s[1..]);
      TotalCons(s);
      assert Insert(c, s)[1..] == Insert(c, s[1..]);
    } else {
      assert ([c] + s)[1..] == s;
    }
  }

  /** Sorting keeps the total. */
  lemma {:induction false} TotalOfSort(s: seq<Contribution>)
    ensures Total(Sort(s)) == Total(s)
  {
    if s != [] {
      TotalOfSort(s[1..]);
      TotalOfInsert(s[0], Sort(s[1..]));
      TotalCons(s);
    }
  }
}
