/** Follows and the counters kept beside them: following, followers and mates (mutual follows). */
module Mates {

  /** `follows` holds (follower, followed) pairs; a missing counter reads as zero. */
  datatype Graph = Graph(
    follows: set<(nat, nat)>, following: map<nat, int>, followers: map<nat, int>, mates: map<nat, int>)

  const NO_FOLLOWS := Graph({}, map[], map[], map[])

  function Count(counts: map<nat, int>, account: nat): int {
    if account in counts then counts[account] else 0
  }

  /** `increment_count!` and `decrement_count!`: an upsert that adds in the database. */
  function Bump(counts: map<nat, int>, account: nat, delta: int): map<nat, int> {
    counts[account := Count(counts, account) + delta]
  }

  function CountMates(g: Graph, a: nat, b: nat, delta: int): Graph {
    if (b, a) in g.follows then g.(mates := Bump(Bump(g.mates, a, delta), b, delta)) else g
  }

  /** Creating a follow; a second one between the same accounts is invalid. */
  function Follow(g: Graph, a: nat, b: nat): Graph {
    if (a, b) in g.follows then g else
    CountMates(Graph(g.follows + {(a, b)}, Bump(g.following, a, 1), Bump(g.followers, b, 1), g.mates), a, b, 1)
  }

  function Unfollow(g: Graph, a: nat, b: nat): Graph {
    if (a, b) !in g.follows then g else
    CountMates(Graph(g.follows - {(a, b)}, Bump(g.following, a, -1), Bump(g.followers, b, -1), g.mates), a, b, -1)
  }

  class FollowTable {
    var follows: set<(nat, nat)>
    var following: map<nat, int>
    var followers: map<nat, int>
    var mates: map<nat, int>

    constructor ()
      ensures State() == NO_FOLLOWS
    {
      follows, following, followers, mates := {}, map[], map[], map[];
    }

    function State(): Graph
      reads this
    {
      Graph(follows, following, followers, mates)
    }

    method Create(a: nat, b: nat)
      modifies this
      ensures State() == Follow(old(State()), a, b)
    {
      if (a, b) in follows { return; }
      follows := follows + {(a, b)};
      following := Bump(following, a, 1);
      followers := Bump(followers, b, 1);
      UpdateMatesCounters(a, b, 1);
    }

    method Destroy(a: nat, b: nat)
      modifies this
      ensures State() == Unfollow(old(State()), a, b)
    {
      if (a, b) !in follows { return; }
      follows := follows - {(a, b)};
      following := Bump(following, a, -1);
      followers := Bump(followers, b, -1);
      UpdateMatesCounters(a, b, -1);
    }

    /** Only if the opposite follow exists at this moment. */
    method UpdateMatesCounters(a: nat, b: nat, delta: int)
      modifies this
      ensures State() == CountMates(old(State()), a, b, delta)
    {
      if (b, a) !in follows { return; }
      mates := Bump(mates, a, delta);
      mates := Bump(mates, b, delta);
    }
  }

  // ----- What the counters count

  function FollowsBy(follows: set<(nat, nat)>, a: nat): set<(nat, nat)> {
    set f | f in follows && f.0 == a
  }

  function FollowsOf(follows: set<(nat, nat)>, a: nat): set<(nat, nat)> {
    set f | f in follows && f.1 == a
  }

  /** The follows with an opposite: the mates of `a` are the targets of those by `a`. */
  function Mutual(follows: set<(nat, nat)>): set<(nat, nat)> {
    set f | f in follows && (f.1, f.0) in follows
  }

  predicate AccurateAt(g: Graph, a: nat) {
    && Count(g.following, a) == OutDegree(g.follows, a)
    && Count(g.followers, a) == InDegree(g.follows, a)
    && Count(g.mates, a) == MateCount(g.follows, a)
  }

  ghost predicate Accurate(g: Graph) {
    forall a :: AccurateAt(g, a)
  }

  function OutDegree(follows: set<(nat, nat)>, x: nat): nat {
    |FollowsBy(follows, x)|
  }

  function InDegree(follows: set<(nat, nat)>, x: nat): nat {
    |FollowsOf(follows, x)|
  }

  function MateCount(follows: set<(nat, nat)>, x: nat): nat {
    |FollowsBy(Mutual(follows), x)|
  }

  /** What one more follow adds to the degrees and mates of any account. */
  lemma DegreesAfter(follows: set<(nat, nat)>, a: nat, b: nat, x: nat)
    requires (a, b) !in follows
    ensures OutDegree(follows + {(a, b)}, x) == OutDegree(follows, x) + (if x == a then 1 else 0)
    ensures InDegree(follows + {(a, b)}, x) == InDegree(follows, x) + (if x == b then 1 else 0)
  {
    FollowsByAfter(follows, (a, b), x);
    FollowsOfAfter(follows, (a, b), x);
  }

  lemma FollowsByAfter(follows: set<(nat, nat)>, f: (nat, nat), x: nat)
    requires f !in follows
    ensures |FollowsBy(follows + {f}, x)| == |FollowsBy(follows, x)| + (if x == f.0 then 1 else 0)
  {
    if x == f.0 {
      assert FollowsBy(follows + {f}, x) == FollowsBy(follows, x) + {f};
    } else {
      assert FollowsBy(follows + {f}, x) == FollowsBy(follows, x);
    }
  }

  lemma FollowsOfAfter(follows: set<(nat, nat)>, f: (nat, nat), x: nat)
    requires f !in follows
    ensures |FollowsOf(follows + {f}, x)| == |FollowsOf(follows, x)| + (if x == f.1 then 1 else 0)
  {
    if x == f.1 {
      assert FollowsOf(follows + {f}, x) == FollowsOf(follows, x) + {f};
    } else {
      assert FollowsOf(follows + {f}, x) == FollowsOf(follows, x);
    }
  }

  /** A follow makes mutual itself and its opposite, if that is there or is itself. */
  lemma MutualAfter(follows: set<(nat, nat)>, a: nat, b: nat)
    requires (a, b) !in follows
    ensures (a, b) !in Mutual(follows) && (b, a) !in Mutual(follows)
    ensures Mutual(follows + {(a, b)}) ==
      Mutual(follows) + (if a == b || (b, a) in follows then {(a, b)} + {(b, a)} else {})
  {
    var more := follows + {(a, b)};
    forall f ensures f in Mutual(more) <==>
      f in Mutual(follows) || ((a == b || (b, a) in follows) && (f == (a, b) || f == (b, a))) {}
  }

  lemma MatesAfter(follows: set<(nat, nat)>, a: nat, b: nat, x: nat)
    requires (a, b) !in follows
    ensures MateCount(follows + {(a, b)}, x) == MateCount(follows, x)
      + (if a == b then (if x == a then 1 else 0) else if (b, a) in follows && (x == a || x == b) then 1 else 0)
  {
    var before := Mutual(follows);
    MutualAfter(follows, a, b);
    hide Mutual, FollowsBy;
    if a == b || (b, a) in follows {
      FollowsByAfter(before, (a, b), x);
      if a == b {
        assert before + ({(a, b)} + {(b, a)}) == before + {(a, b)};
      } else {
        FollowsByAfter(before + {(a, b)}, (b, a), x);
        assert before + ({(a, b)} + {(b, a)}) == before + {(a, b)} + {(b, a)};
      }
    } else {
      assert before + {} == before;
    }
  }

  lemma Bumped(counts: map<nat, int>, a: nat, delta: int, x: nat)
    ensures Count(Bump(counts, a, delta), x) == Count(counts, x) + (if x == a then delta else 0)
  {
  }

  /** The counters of one account before and after a step that adds or takes back a follow. */
  lemma CountersAfter(g: Graph, a: nat, b: nat, delta: int, x: nat)
    ensures var counted := g.(following := Bump(g.following, a, delta), followers := Bump(g.followers, b, delta));
      var g' := CountMates(counted, a, b, delta);
      && Count(g'.following, x) == Count(g.following, x) + (if x == a then delta else 0)
      && Count(g'.followers, x) == Count(g.followers, x) + (if x == b then delta else 0)
      && Count(g'.mates, x) == Count(g.mates, x)
           + (if (b, a) in g.follows then (if x == a then delta else 0) + (if x == b then delta else 0) else 0)
  {
    Bumped(g.mates, a, delta, x);
    Bumped(Bump(g.mates, a, delta), b, delta, x);
  }

  lemma FollowAccurate(g: Graph, a: nat, b: nat)
    requires Accurate(g) && a != b
    ensures Accurate(Follow(g, a, b))
  {
    hide OutDegree, InDegree, MateCount, CountMates, Bump;
    if (a, b) !in g.follows {
      forall x ensures AccurateAt(Follow(g, a, b), x) {
        var g1 := g.(follows := g.follows + {(a, b)});
        assert AccurateAt(g, x);
        DegreesAfter(g.follows, a, b, x);
        MatesAfter(g.follows, a, b, x);
        CountersAfter(g1, a, b, 1, x);
        var counted := g1.(following := Bump(g.following, a, 1), followers := Bump(g.followers, b, 1));
        CountMatesKeepsFollows(counted, a, b, 1);
      }
    }
  }

  lemma CountMatesKeepsFollows(g: Graph, a: nat, b: nat, delta: int)
    ensures CountMates(g, a, b, delta).follows == g.follows
  {
  }

  lemma UnfollowAccurate(g: Graph, a: nat, b: nat)
    requires Accurate(g) && a != b
    ensures Accurate(Unfollow(g, a, b))
  {
    hide OutDegree, InDegree, MateCount, CountMates, Bump;
    if (a, b) in g.follows {
      var less := g.follows - {(a, b)};
      assert less + {(a, b)} == g.follows;
      forall x ensures AccurateAt(Unfollow(g, a, b), x) {
        var g1 := g.(follows := less);
        assert AccurateAt(g, x);
        DegreesAfter(less, a, b, x);
        MatesAfter(less, a, b, x);
        CountersAfter(g1, a, b, -1, x);
        var counted := g1.(following := Bump(g.following, a, -1), followers := Bump(g.followers, b, -1));
        CountMatesKeepsFollows(counted, a, b, -1);
      }
    }
  }

  /** Following oneself finds its own row as the opposite one and counts two mates for one;
      taking it back finds none.  So the counters stay right exactly without self-follows. */
  lemma FollowAccurateIff(g: Graph, a: nat, b: nat)
    requires Accurate(g) && (a, b) !in g.follows
    ensures Accurate(Follow(g, a, b)) <==> a != b
  {
    hide OutDegree, InDegree, MateCount, CountMates, Bump;
    if a != b {
      FollowAccurate(g, a, b);
    } else {
      var g1 := g.(follows := g.follows + {(a, a)});
      MatesAfter(g.follows, a, a, a);
      CountersAfter(g1, a, a, 1, a);
      CountMatesKeepsFollows(g1.(following := Bump(g.following, a, 1), followers := Bump(g.followers, a, 1)), a, a, 1);
      assert AccurateAt(g, a) && !AccurateAt(Follow(g, a, a), a);
    }
  }

  lemma UnfollowAccurateIff(g: Graph, a: nat, b: nat)
    requires Accurate(g) && (a, b) in g.follows
    ensures Accurate(Unfollow(g, a, b)) <==> a != b
  {
    hide OutDegree, InDegree, MateCount, CountMates, Bump;
    if a != b {
      UnfollowAccurate(g, a, b);
    } else {
      var less := g.follows - {(a, a)};
      assert less + {(a, a)} == g.follows;
      var g1 := g.(follows := less);
      MatesAfter(less, a, a, a);
      CountersAfter(g1, a, a, -1, a);
      var counted := g1.(following := Bump(g.following, a, -1), followers := Bump(g.followers, a, -1));
      CountMatesKeepsFollows(counted, a, a, -1);
      assert AccurateAt(g, a) && !AccurateAt(Unfollow(g, a, a), a);
    }
  }

  // ----- Runs

  datatype Event = FollowE(a: nat, b: nat) | UnfollowE(a: nat, b: nat)

  function Step(g: Graph, e: Event): Graph {
    match e
    case FollowE(a, b) => Follow(g, a, b)
    case UnfollowE(a, b) => Unfollow(g, a, b)
  }

  function Run(g: Graph, events: seq<Event>): Graph
    decreases |events|
  {
    if events == [] then g else Run(Step(g, events[0]), events[1..])
  }

  lemma {:induction false} AccurateEver(g: Graph, events: seq<Event>)
    requires Accurate(g) && forall i | 0 <= i < |events| :: events[i].a != events[i].b
    requires forall f | f in g.follows :: f.0 != f.1
    ensures Accurate(Run(g, events)) && forall f | f in Run(g, events).follows :: f.0 != f.1
    decreases |events|
  {
    if events != [] {
      match events[0] {
        case FollowE(a, b) => FollowAccurate(g, a, b);
        case UnfollowE(a, b) => UnfollowAccurate(g, a, b);
      }
      AccurateEver(Step(g, events[0]), events[1..]);
    }
  }

  // ----- The sum of all mates counters

  function TotalMates(g: Graph, accounts: seq<nat>): int
    decreases |accounts|
  {
    if accounts == [] then 0 else Count(g.mates, accounts[0]) + TotalMates(g, accounts[1..])
  }

  ghost predicate Distinct(accounts: seq<nat>) {
    forall i, j | 0 <= i < j < |accounts| :: accounts[i] != accounts[j]
  }

  function MutualBy(g: Graph, accounts: seq<nat>): set<(nat, nat)> {
    set f | f in Mutual(g.follows) && f.0 in accounts
  }

  lemma MutualByFirst(g: Graph, accounts: seq<nat>)
    requires accounts != [] && Distinct(accounts)
    ensures |MutualBy(g, accounts)| == MateCount(g.follows, accounts[0]) + |MutualBy(g, accounts[1..])|
  {
    var first, rest := FollowsBy(Mutual(g.follows), accounts[0]), MutualBy(g, accounts[1..]);
    forall f | f in rest ensures f.0 != accounts[0] {
      var i :| 0 <= i < |accounts[1..]| && accounts[1..][i] == f.0;
      assert accounts[i + 1] == f.0;
    }
    assert first !! rest;
    forall f ensures f in MutualBy(g, accounts) <==> f in first + rest {
      assert f.0 in accounts <==> f.0 == accounts[0] || f.0 in accounts[1..];
    }
    assert MutualBy(g, accounts) == first + rest;
  }

  lemma {:induction false} TotalIsMutual(g: Graph, accounts: seq<nat>)
    requires Accurate(g) && Distinct(accounts)
    ensures TotalMates(g, accounts) == |MutualBy(g, accounts)|
    decreases |accounts|
  {
    if accounts == [] {
      assert MutualBy(g, accounts) == {};
    } else {
      hide MutualBy, MateCount;
      assert AccurateAt(g, accounts[0]);
      MutualByFirst(g, accounts);
      TotalIsMutual(g, accounts[1..]);
    }
  }

  function Swapped(pairs: set<(nat, nat)>): set<(nat, nat)> {
    set f | f in pairs :: (f.1, f.0)
  }

  lemma {:induction false} SwappedSize(pairs: set<(nat, nat)>)
    ensures |Swapped(pairs)| == |pairs|
    decreases |pairs|
  {
    if pairs != {} {
      var f :| f in pairs;
      SwappedSize(pairs - {f});
      assert Swapped(pairs) == Swapped(pairs - {f}) + {(f.1, f.0)};
    } else {
      assert Swapped(pairs) == {};
    }
  }

  /** Mutual pairs, each written once. */
  function Pairs(follows: set<(nat, nat)>): set<(nat, nat)> {
    set f | f in Mutual(follows) && f.0 < f.1
  }

  lemma MutualIsPairsBothWays(follows: set<(nat, nat)>)
    requires forall f | f in follows :: f.0 != f.1
    ensures |Mutual(follows)| == 2 * |Pairs(follows)|
  {
    var up := Pairs(follows);
    var down := set f | f in Mutual(follows) && f.1 < f.0;
    assert Mutual(follows) == up + down && up !! down;
    assert down == Swapped(up) by {
      forall f | f in down ensures f in Swapped(up) { assert (f.1, f.0) in up; }
    }
    SwappedSize(up);
  }

  /** Summed over all accounts, the mates counters are twice the number of mutual pairs. */
  lemma MatesSumToTwicePairs(g: Graph, accounts: seq<nat>)
    requires Accurate(g) && Distinct(accounts)
    requires forall f | f in g.follows :: f.0 != f.1 && f.0 in accounts
    ensures TotalMates(g, accounts) == 2 * |Pairs(g.follows)|
  {
    TotalIsMutual(g, accounts);
    assert MutualBy(g, accounts) == Mutual(g.follows);
    MutualIsPairsBothWays(g.follows);
  }
}
