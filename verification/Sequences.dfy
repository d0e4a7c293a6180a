/** Small facts about sequences that several modules need. */
module Sequences {

  lemma {:induction false} TailMultiset<T>(s: seq<T>)
    requires s != []
    ensures multiset(s[1..]) == multiset(s) - multiset{s[0]}
  {
    assert s == [s[0]] + s[1..];
    assert multiset(s) == multiset{s[0]} + multiset(s[1..]);
  }

  lemma {:induction false} NothingLeft<T>(t: seq<T>)
    requires multiset(t) == multiset{}
    ensures t == []
  {
    assert |multiset(t)| == |t|;
  }

  function MaxOf(s: seq<real>): real
    requires s != []
  {
    if |s| == 1 then s[0]
    else
      var m := MaxOf(s[..|s| - 1]);
      if s[|s| - 1] > m then s[|s| - 1] else m
  }

  function MinOf(s: seq<real>): real
    requires s != []
  {
    if |s| == 1 then s[0]
    else
      var m := MinOf(s[..|s| - 1]);
      if s[|s| - 1] < m then s[|s| - 1] else m
  }

  /** Both are attained, and every element lies between them. */
  lemma {:induction false} Extremes(s: seq<real>)
    requires s != []
    ensures exists a: nat :: a < |s| && s[a] == MaxOf(s)
    ensures exists b: nat :: b < |s| && s[b] == MinOf(s)
    ensures forall k :: 0 <= k < |s| ==> MinOf(s) <= s[k] <= MaxOf(s)
  {
    if |s| > 1 {
      var n := |s| - 1;
      Extremes(s[..n]);
      var a: nat :| a < n && s[..n][a] == MaxOf(s[..n]);
      var b: nat :| b < n && s[..n][b] == MinOf(s[..n]);
      assert s[if s[n] > s[a] then n else a] == MaxOf(s);
      assert s[if s[n] < s[b] then n else b] == MinOf(s);
      assert forall k :: 0 <= k < n ==> s[k] == s[..n][k];
    } else {
      assert s[0] == MaxOf(s) == MinOf(s);
    }
  }
}
