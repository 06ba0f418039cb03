/** Finite sets of ids ordered by value: a Redis sorted set in which every
    member's score is the member itself, as the home timeline is.  Ranks are
    counted from the newest (largest) member, as `ZREVRANK` does. */
module SortedSets {

  function Above(s: set<nat>, x: nat): set<nat> {
    set y | y in s && x < y
  }

  /** What `ZREVRANK` answers for a member. */
  function RevRank(s: set<nat>, x: nat): nat {
    |Above(s, x)|
  }

  /** The `n` newest members: all that `ZREMRANGEBYRANK s 0 -(n+1)` leaves. */
  function Newest(s: set<nat>, n: nat): set<nat> {
    set x | x in s && RevRank(s, x) < n
  }

  lemma {:induction false} FindMin(s: set<nat>) returns (m: nat)
    requires s != {}
    ensures m in s && forall x | x in s :: m <= x
    decreases |s|
  {
    m :| m in s;
    var rest := s - {m};
    assert s == rest + {m};
    if rest != {} {
      var k := FindMin(rest);
      if k <= m { m := k; }
    }
  }

  lemma MinExists(s: set<nat>)
    requires s != {}
    ensures exists m :: m in s && forall x | x in s :: m <= x
  {
    var m := FindMin(s);
  }

  lemma {:induction false} FindMax(s: set<nat>) returns (m: nat)
    requires s != {}
    ensures m in s && forall x | x in s :: x <= m
    decreases |s|
  {
    m :| m in s;
    var rest := s - {m};
    assert s == rest + {m};
    if rest != {} {
      var k := FindMax(rest);
      if m <= k { m := k; }
    }
  }

  lemma MaxExists(s: set<nat>)
    requires s != {}
    ensures exists m :: m in s && forall x | x in s :: x <= m
  {
    var m := FindMax(s);
  }

  function Min(s: set<nat>): (m: nat)
    requires s != {}
    ensures m in s && forall x | x in s :: m <= x
  {
    MinExists(s);
    var m :| m in s && forall x | x in s :: m <= x;
    m
  }

  function Max(s: set<nat>): (m: nat)
    requires s != {}
    ensures m in s && forall x | x in s :: x <= m
  {
    MaxExists(s);
    var m :| m in s && forall x | x in s :: x <= m;
    m
  }

  lemma MaxIs(s: set<nat>, m: nat)
    requires m in s && forall x | x in s :: x <= m
    ensures Max(s) == m
  {
  }

  /** The members from newest to oldest. */
  function Descending(s: set<nat>): seq<nat> {
    if s == {} then [] else [Max(s)] + Descending(s - {Max(s)})
  }

  lemma {:induction false} DescendingLists(s: set<nat>)
    ensures |Descending(s)| == |s|
    ensures forall x :: x in Descending(s) <==> x in s
    ensures forall i, j | 0 <= i < j < |Descending(s)| :: Descending(s)[j] < Descending(s)[i]
    decreases |s|
  {
    if s != {} {
      DescendingLists(s - {Max(s)});
      DescendingCons(Max(s), Descending(s - {Max(s)}), s);
    }
  }

  /** Putting the largest member in front keeps the list complete and descending. */
  lemma DescendingCons(m: nat, rest: seq<nat>, s: set<nat>)
    requires m in s && |rest| == |s| - 1
    requires forall x :: x in rest <==> x in s - {m}
    requires forall x | x in s :: x <= m
    requires forall i, j | 0 <= i < j < |rest| :: rest[j] < rest[i]
    ensures |[m] + rest| == |s|
    ensures forall x :: x in [m] + rest <==> x in s
    ensures forall i, j | 0 <= i < j < |[m] + rest| :: ([m] + rest)[j] < ([m] + rest)[i]
  {
    forall j | 0 <= j < |rest| ensures rest[j] < m {
      assert rest[j] in rest;
    }
  }

  lemma SubsetSize(a: set<nat>, b: set<nat>)
    requires a <= b
    ensures |a| <= |b|
    ensures |a| == |b| ==> a == b
  {
    assert b == a + (b - a);
    assert |b| == |a| + |b - a|;
  }

  lemma RankFallsWithId(s: set<nat>, x: nat, y: nat)
    requires y in s && x < y
    ensures RevRank(s, y) < RevRank(s, x)
  {
    SubsetSize(Above(s, y) + {y}, Above(s, x));
  }

  lemma RankBelowSize(s: set<nat>, x: nat)
    requires x in s
    ensures RevRank(s, x) < |s|
  {
    SubsetSize(Above(s, x) + {x}, s);
  }

  lemma RankGrowsWithSet(s: set<nat>, t: set<nat>, x: nat)
    requires s <= t
    ensures RevRank(s, x) <= RevRank(t, x)
  {
    SubsetSize(Above(s, x), Above(t, x));
  }

  /** The newest `n` members are the upward closed part of size `min(n, |s|)`. */
  lemma NewestSize(s: set<nat>, n: nat)
    ensures |Newest(s, n)| == if |s| < n then |s| else n
    ensures forall x, y | x in Newest(s, n) && y in s && x <= y :: y in Newest(s, n)
  {
    forall x, y | x in Newest(s, n) && y in s && x <= y ensures y in Newest(s, n) {
      if x < y { RankFallsWithId(s, x, y); }
    }
    NewestCard(s, n);
  }

  lemma {:induction false} NewestCard(s: set<nat>, n: nat)
    ensures |Newest(s, n)| == if |s| < n then |s| else n
    decreases |s|
  {
    if |s| <= n {
      forall x | x in s ensures x in Newest(s, n) { RankBelowSize(s, x); }
      assert Newest(s, n) == s;
    } else {
      var m := Min(s);
      var rest := s - {m};
      assert Above(s, m) == rest;
      forall x | x in rest ensures Above(s, x) == Above(rest, x) {}
      assert Newest(s, n) == Newest(rest, n);
      NewestCard(rest, n);
    }
  }

  /** An upward closed subset of the right size can only be the newest part. */
  lemma NewestUnique(s: set<nat>, n: nat, t: set<nat>)
    requires t <= s && |t| == if |s| < n then |s| else n
    requires forall x, y | x in t && y in s && x <= y :: y in t
    ensures t == Newest(s, n)
  {
    NewestSize(s, n);
    forall x | x in t ensures x in Newest(s, n) {
      SubsetSize(Above(s, x) + {x}, t);
    }
    SubsetSize(t, Newest(s, n));
  }

  /** Throwing away members that have `n` newer ones in what is kept does not
      change the newest `n`. */
  lemma NewestOfPart(u: set<nat>, t: set<nat>, n: nat)
    requires t <= u
    requires forall x | x in u - t :: n <= RevRank(t, x)
    ensures Newest(t, n) == Newest(u, n)
  {
    NewestSize(t, n);
    var top := Newest(t, n);
    forall x, y | x in top && y in u && x <= y ensures y in top {
      if y !in t {
        assert n <= RevRank(t, y) && RevRank(t, x) < n;
        SubsetSize(Above(t, y), Above(t, x));
      }
    }
    if |t| < n {
      forall x | x in u ensures x in t {
        if x !in t {
          assert n <= RevRank(t, x);
          SubsetSize(Above(t, x), t);
        }
      }
      assert u == t;
    } else {
      SubsetSize(t, u);
      NewestUnique(u, n, top);
    }
  }

  /** And throwing away any other member does change them. */
  lemma NewestOfPartIff(u: set<nat>, t: set<nat>, n: nat)
    requires t <= u
    ensures Newest(t, n) == Newest(u, n) <==> forall x | x in u - t :: n <= RevRank(t, x)
  {
    if forall x | x in u - t :: n <= RevRank(t, x) {
      NewestOfPart(u, t, n);
    }
    if Newest(t, n) == Newest(u, n) {
      forall x | x in u - t ensures n <= RevRank(t, x) {
        NewestSize(t, n);
        NewestSize(u, n);
        assert x !in Newest(u, n);
        assert |Newest(t, n)| == n by {
          if |u| < n { SubsetSize(Newest(u, n), u); } else { NewestCard(u, n); }
        }
        SubsetSize(Newest(t, n), Above(t, x));
      }
    }
  }

  function Consecutive(first: nat, n: nat): (s: set<nat>)
    ensures |s| == n && forall i :: i in s <==> first <= i < first + n
  {
    if n == 0 then {} else Consecutive(first, n - 1) + {first + n - 1}
  }

  lemma NewestTwice(s: set<nat>, n: nat, k: nat)
    requires k <= n
    ensures Newest(Newest(s, n), k) == Newest(s, k)
  {
    var t := Newest(s, n);
    NewestSize(s, n);
    forall x | x in s - t ensures k <= RevRank(t, x) {
      forall y | y in t ensures x < y {}
      SubsetSize(t, Above(t, x));
      if |s| < n { SubsetSize(t, s); }
    }
    NewestOfPart(s, t, k);
  }

  lemma RankDecidesMember(s: set<nat>, x: nat, y: nat)
    requires x in s && y in s && RevRank(s, x) == RevRank(s, y)
    ensures x == y
  {
    if x < y { RankFallsWithId(s, x, y); }
    if y < x { RankFallsWithId(s, y, x); }
  }

  lemma RankIsTaken(s: set<nat>, k: nat)
    requires k < |s|
    ensures exists x :: x in s && RevRank(s, x) == k
  {
    NewestSize(s, k + 1);
    NewestSize(s, k);
    var more := Newest(s, k + 1) - Newest(s, k);
    assert Newest(s, k) <= Newest(s, k + 1);
    assert Newest(s, k + 1) == Newest(s, k) + more;
    assert |more| == 1;
    var x :| x in more;
    assert x in s && RevRank(s, x) == k;
  }

  /** The single member `ZREVRANGE s k k` returns, when there is one. */
  function AtRevRank(s: set<nat>, k: nat): (x: nat)
    requires k < |s|
    ensures x in s && RevRank(s, x) == k
    ensures forall y | y in s :: RevRank(s, y) < k <==> x < y
  {
    RankIsTaken(s, k);
    assert forall x, y | x in s && y in s && RevRank(s, x) == k && RevRank(s, y) == k :: x == y by {
      forall x, y | x in s && y in s && RevRank(s, x) == k && RevRank(s, y) == k ensures x == y {
        RankDecidesMember(s, x, y);
      }
    }
    var x :| x in s && RevRank(s, x) == k;
    assert forall y | y in s :: RevRank(s, y) < k <==> x < y by {
      forall y | y in s ensures RevRank(s, y) < k <==> x < y {
        if x < y { RankFallsWithId(s, x, y); }
        if y < x { RankFallsWithId(s, y, x); }
      }
    }
    x
  }
}
