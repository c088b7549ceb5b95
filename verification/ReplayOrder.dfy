/** The order in which logs are replayed: block, then transaction, then log index (StateProjector.cpp). */
module ReplayOrder {
  import opened StateProjector

  predicate Before(a: RawLog, b: RawLog) {
    || a.blockNumber < b.blockNumber
    || (a.blockNumber == b.blockNumber && a.transactionIndex < b.transactionIndex)
    || (a.blockNumber == b.blockNumber && a.transactionIndex == b.transactionIndex && a.logIndex < b.logIndex)
  }

  /** No log comes before an earlier one: what a sort guarantees. */
  predicate Ordered(s: seq<RawLog>) {
    forall i, j :: 0 <= i < j < |s| ==> !Before(s[j], s[i])
  }

  /** Every log comes strictly after the ones before it: the order has no ties. */
  predicate StrictlyOrdered(s: seq<RawLog>) {
    forall i, j :: 0 <= i < j < |s| ==> Before(s[i], s[j])
  }

  /** The last of a sorted sequence and of a strictly sorted one over the same elements are the same log. */
  lemma LastAgrees(s: seq<RawLog>, t: seq<RawLog>)
    requires s != [] && t != [] && Ordered(s) && StrictlyOrdered(t)
    requires s[|s| - 1] in t && t[|t| - 1] in s
    ensures s[|s| - 1] == t[|t| - 1]
  {
    var i :| 0 <= i < |t| && t[i] == s[|s| - 1];
    var j :| 0 <= j < |s| && s[j] == t[|t| - 1];
    assert i < |t| - 1 ==> Before(t[i], t[|t| - 1]);
    assert j < |s| - 1 ==> !Before(s[|s| - 1], s[j]);
  }

  lemma DropLast(s: seq<RawLog>)
    requires s != []
    ensures multiset(s[..|s| - 1]) == multiset(s) - multiset{s[|s| - 1]}
    ensures forall l :: l in s <==> l in s[..|s| - 1] || l == s[|s| - 1]
    ensures Ordered(s) ==> Ordered(s[..|s| - 1])
    ensures StrictlyOrdered(s) ==> StrictlyOrdered(s[..|s| - 1])
  {
    assert s == s[..|s| - 1] + [s[|s| - 1]];
  }

  /** Without ties there is only one way to sort. */
  lemma {:induction false} SortedUniquely(s: seq<RawLog>, t: seq<RawLog>)
    requires Ordered(s) && StrictlyOrdered(t) && multiset(s) == multiset(t)
    ensures s == t
    decreases |s|
  {
    hide Ordered, StrictlyOrdered;
    assert |s| == |multiset(s)| == |multiset(t)| == |t|;
    if s != [] {
      var n := |s| - 1;
      assert s[n] in multiset(t) && t[n] in multiset(s);
      LastAgrees(s, t);
      DropLast(s);
      DropLast(t);
      SortedUniquely(s[..n], t[..n]);
      assert s == s[..n] + [s[n]] && t == t[..n] + [t[n]];
    }
  }

  ghost predicate SameElements(s: seq<RawLog>, t: seq<RawLog>) {
    forall l :: l in s <==> l in t
  }

  /** Two strictly ordered sequences with the same elements are equal. */
  lemma {:induction false} SameElementsSameOrder(s: seq<RawLog>, t: seq<RawLog>)
    requires StrictlyOrdered(s) && StrictlyOrdered(t) && SameElements(s, t)
    ensures s == t
    decreases |s|
  {
    hide Ordered, StrictlyOrdered;
    assert s != [] ==> s[0] in t;
    assert t != [] ==> t[0] in s;
    if s != [] {
      var n, k := |s| - 1, |t| - 1;
      assert s[n] in t && t[k] in s;
      hide SameElements;
      StrictIsOrdered(s);
      LastAgrees(s, t);
      DropLast(s);
      DropLast(t);
      SameWithoutLast(s, t);
      SameElementsSameOrder(s[..n], t[..k]);
      assert s == s[..n] + [s[n]] && t == t[..k] + [t[k]];
    }
  }

  lemma SameWithoutLast(s: seq<RawLog>, t: seq<RawLog>)
    requires s != [] && t != [] && StrictlyOrdered(s) && StrictlyOrdered(t) && SameElements(s, t)
    requires s[|s| - 1] == t[|t| - 1]
    ensures SameElements(s[..|s| - 1], t[..|t| - 1])
  {
    hide StrictlyOrdered;
    LastIsNotEarlier(s);
    LastIsNotEarlier(t);
    var n, k := |s| - 1, |t| - 1;
    forall l ensures l in s[..n] <==> l in t[..k] {
      assert s == s[..n] + [s[n]] && t == t[..k] + [t[k]];
      assert l in s <==> l in t;
    }
  }

  lemma StrictIsOrdered(s: seq<RawLog>)
    requires StrictlyOrdered(s)
    ensures Ordered(s)
  {
    forall i, j | 0 <= i < j < |s|
      ensures !Before(s[j], s[i])
    {
      assert Before(s[i], s[j]);
    }
  }

  lemma LastIsNotEarlier(s: seq<RawLog>)
    requires s != [] && StrictlyOrdered(s)
    ensures s[|s| - 1] !in s[..|s| - 1]
  {
    var n := |s| - 1;
    forall i | 0 <= i < n
      ensures s[i] != s[n]
    {
      assert Before(s[i], s[n]);
    }
  }

  /** The logs up to a block. */
  function Through(s: seq<RawLog>, blockNumber: nat): seq<RawLog> {
    if s == [] then [] else
    Through(s[..|s| - 1], blockNumber)
    + if s[|s| - 1].blockNumber <= blockNumber then [s[|s| - 1]] else []
  }

  lemma {:induction false} ThroughMembers(s: seq<RawLog>, n: nat, l: RawLog)
    ensures l in Through(s, n) <==> l in s && l.blockNumber <= n
  {
    if s != [] {
      ThroughMembers(s[..|s| - 1], n, l);
      assert l in s <==> l in s[..|s| - 1] || l == s[|s| - 1];
    }
  }

  /** In replay order, the logs up to a block are a prefix. */
  lemma {:induction false} ThroughIsPrefix(s: seq<RawLog>, n: nat)
    requires StrictlyOrdered(s)
    ensures |Through(s, n)| <= |s| && Through(s, n) == s[..|Through(s, n)|]
  {
    if s != [] {
      hide StrictlyOrdered;
      var init, last := s[..|s| - 1], s[|s| - 1];
      DropLast(s);
      ThroughIsPrefix(init, n);
      if last.blockNumber <= n {
        LastBlockIsHighest(s);
        ThroughEverything(s, n);
      } else {
        assert Through(s, n) == Through(init, n) && s[..|Through(init, n)|] == init[..|Through(init, n)|];
      }
    }
  }

  lemma LastBlockIsHighest(s: seq<RawLog>)
    requires s != [] && StrictlyOrdered(s)
    ensures forall l :: l in s ==> l.blockNumber <= s[|s| - 1].blockNumber
  {
    forall i | 0 <= i < |s| - 1
      ensures s[i].blockNumber <= s[|s| - 1].blockNumber
    {
      assert Before(s[i], s[|s| - 1]);
    }
  }

  lemma {:induction false} ThroughEverything(s: seq<RawLog>, n: nat)
    requires forall l :: l in s ==> l.blockNumber <= n
    ensures Through(s, n) == s
  {
    if s != [] {
      assert s[|s| - 1] in s;
      ThroughEverything(s[..|s| - 1], n);
    }
  }
}
