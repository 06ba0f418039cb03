/** Follows created and destroyed in concurrent transactions.  Each writes its row, then updates
    the follower's and the followed account's counters, then looks for the opposite follow.  An
    updated row stays locked until its transaction ends, and a statement sees what was committed
    before it and the transaction's own writes. */
module MatesTransactions {
  import opened Mates

  /** What the row statement does.  A record that was loaded before somebody else destroyed its row
      is destroyed without finding one, and its callbacks run all the same. */
  datatype Kind = Creates | Destroys | FindsNone

  /** How far a transaction has come: `Looked` has both counter rows and the lookup's answer. */
  datatype Stage = Written | HoldsFollower | HoldsBoth | Looked(found: bool)

  /** A transaction that creates or destroys the follow of `b` by `a`. */
  datatype Transaction = Transaction(kind: Kind, a: nat, b: nat, stage: Stage)

  /** What was committed. */
  datatype Change = Change(kind: Kind, a: nat, b: nat)

  /** `log` is the history of committed changes in the order of their commits. */
  datatype Database = Database(committed: Graph, running: map<nat, Transaction>, log: seq<Change>)

  const EMPTY_DATABASE := Database(NO_FOLLOWS, map[], [])

  /** The counter rows that a transaction has updated. */
  predicate Holds(t: Transaction, account: nat) {
    (account == t.a && !t.stage.Written?) || (account == t.b && (t.stage.HoldsBoth? || t.stage.Looked?))
  }

  predicate Free(db: Database, account: nat, id: nat) {
    forall other | other in db.running && other != id :: !Holds(db.running[other], account)
  }

  /** The follows that a transaction sees: the committed ones and its own change. */
  function Visible(follows: set<(nat, nat)>, kind: Kind, a: nat, b: nat): set<(nat, nat)> {
    match kind
    case Creates => follows + {(a, b)}
    case Destroys => follows - {(a, b)}
    case FindsNone => follows
  }

  datatype Action =
    | Write(id: nat, kind: Kind, a: nat, b: nat)
    | CountFollower(id: nat)
    | CountFollowed(id: nat)
    | Look(id: nat)
    | Commit(id: nat)
    | RollBack(id: nat)

  predicate At(db: Database, id: nat, stage: Stage) {
    id in db.running && db.running[id].stage == stage
  }

  predicate OnRow(t: Transaction, a: nat, b: nat) {
    !t.kind.FindsNone? && t.a == a && t.b == b
  }

  /** Writing a row waits for other transactions on it, and creating one that is there raises; a
      statement that finds no row waits for nobody.  Updating a counter waits for its row. */
  predicate Enabled(db: Database, action: Action) {
    match action
    case Write(id, kind, a, b) =>
      && id !in db.running && (kind.Destroys? <==> (a, b) in db.committed.follows)
      && (kind.FindsNone? || forall other | other in db.running :: !OnRow(db.running[other], a, b))
    case CountFollower(id) => At(db, id, Written) && Free(db, db.running[id].a, id)
    case CountFollowed(id) => At(db, id, HoldsFollower) && Free(db, db.running[id].b, id)
    case Look(id) => At(db, id, HoldsBoth)
    case Commit(id) => id in db.running && db.running[id].stage.Looked?
    case RollBack(id) => id in db.running
  }

  function Advance(db: Database, id: nat, stage: Stage): Database
    requires id in db.running
  {
    db.(running := db.running[id := db.running[id].(stage := stage)])
  }

  /** The row, the degree counters, and the mates counters if the opposite follow was found. */
  function Applied(g: Graph, t: Transaction, found: bool): Graph {
    var delta := if t.kind.Creates? then 1 else -1;
    Graph(Visible(g.follows, t.kind, t.a, t.b), Bump(g.following, t.a, delta), Bump(g.followers, t.b, delta),
          if found then Bump(Bump(g.mates, t.a, delta), t.b, delta) else g.mates)
  }

  predicate Finds(follows: set<(nat, nat)>, t: Transaction) {
    (t.b, t.a) in Visible(follows, t.kind, t.a, t.b)
  }

  function Act(db: Database, action: Action): Database
    requires Enabled(db, action)
  {
    match action
    case Write(id, kind, a, b) => db.(running := db.running[id := Transaction(kind, a, b, Written)])
    case CountFollower(id) => Advance(db, id, HoldsFollower)
    case CountFollowed(id) => Advance(db, id, HoldsBoth)
    case Look(id) => Advance(db, id, Looked(Finds(db.committed.follows, db.running[id])))
    case Commit(id) =>
      var t := db.running[id];
      Database(Applied(db.committed, t, t.stage.found), db.running - {id}, db.log + [Change(t.kind, t.a, t.b)])
    case RollBack(id) => db.(running := db.running - {id})
  }

  predicate IsHistory(db: Database, actions: seq<Action>)
    decreases |actions|
  {
    actions == [] || (Enabled(db, actions[0]) && IsHistory(Act(db, actions[0]), actions[1..]))
  }

  function Outcome(db: Database, actions: seq<Action>): Database
    requires IsHistory(db, actions)
    decreases |actions|
  {
    if actions == [] then db else Outcome(Act(db, actions[0]), actions[1..])
  }

  // ----- The committed changes, one after the other

  /** Destroying a follow whose row is gone: the callbacks without the row. */
  function UnfollowAgain(g: Graph, a: nat, b: nat): Graph {
    CountMates(g.(following := Bump(g.following, a, -1), followers := Bump(g.followers, b, -1)), a, b, -1)
  }

  function ChangeStep(g: Graph, c: Change): Graph {
    match c.kind
    case Creates => Follow(g, c.a, c.b)
    case Destroys => Unfollow(g, c.a, c.b)
    case FindsNone => UnfollowAgain(g, c.a, c.b)
  }

  function Replay(log: seq<Change>): Graph
    decreases |log|
  {
    if log == [] then NO_FOLLOWS else ChangeStep(Replay(log[..|log| - 1]), log[|log| - 1])
  }

  // ----- What every history keeps

  /** Nobody else is on the same row or holds the same counters, the row is still to be created or
      destroyed, and what the lookup found still holds. */
  ghost predicate Isolated(db: Database) {
    && (forall i, j, account | i in db.running && j in db.running && i != j ::
          !(Holds(db.running[i], account) && Holds(db.running[j], account)))
    && (forall i, j | i in db.running && j in db.running && i != j && !db.running[i].kind.FindsNone? ::
          !OnRow(db.running[j], db.running[i].a, db.running[i].b))
    && (forall i | i in db.running :: FreshAnswer(db.committed.follows, db.running[i]))
  }

  ghost predicate FreshAnswer(follows: set<(nat, nat)>, t: Transaction) {
    && (t.kind.Creates? ==> (t.a, t.b) !in follows)
    && (t.kind.Destroys? ==> (t.a, t.b) in follows)
    && (t.stage.Looked? ==> (t.stage.found <==> Finds(follows, t)))
  }

  ghost predicate Sound(db: Database) {
    Isolated(db) && db.committed == Replay(db.log)
  }

  /** While the lookup's answer waits for its commit, no opposite change can be committed: it
      would hold the same two counter rows. */
  lemma CommitKeepsAnswers(db: Database, id: nat, other: nat)
    requires Isolated(db) && Enabled(db, Commit(id)) && other in db.running && other != id
    ensures FreshAnswer(Act(db, Commit(id)).committed.follows, db.running[other])
  {
    var t, u := db.running[id], db.running[other];
    if u.stage.Looked? {
      assert Holds(t, t.a) && Holds(t, t.b) && Holds(u, u.a) && Holds(u, u.b);
      assert u.a != t.b && u.a != t.a && u.b != t.a;
    }
  }

  lemma CommitIsStep(db: Database, id: nat)
    requires Isolated(db) && Enabled(db, Commit(id))
    ensures var t := db.running[id];
      Act(db, Commit(id)).committed == ChangeStep(db.committed, Change(t.kind, t.a, t.b))
  {
    var t := db.running[id];
    assert FreshAnswer(db.committed.follows, t);
    hide Bump;
  }

  lemma CommitSound(db: Database, id: nat)
    requires Sound(db) && Enabled(db, Commit(id))
    ensures Sound(Act(db, Commit(id)))
  {
    CommitIsStep(db, id);
    var next := Act(db, Commit(id));
    assert next.log[..|db.log|] == db.log;
    forall other | other in next.running ensures FreshAnswer(next.committed.follows, next.running[other]) {
      CommitKeepsAnswers(db, id, other);
    }
    hide FreshAnswer, Applied, ChangeStep;
  }

  ghost predicate Apart(t: Transaction, u: Transaction) {
    && (forall account :: !(Holds(t, account) && Holds(u, account)))
    && (!t.kind.FindsNone? ==> !OnRow(u, t.a, t.b))
    && (!u.kind.FindsNone? ==> !OnRow(t, u.a, u.b))
  }

  /** A transaction that begins or moves on, apart from all others. */
  lemma PutSound(db: Database, id: nat, t: Transaction)
    requires Sound(db) && FreshAnswer(db.committed.follows, t)
    requires forall other | other in db.running && other != id :: Apart(t, db.running[other])
    ensures Sound(db.(running := db.running[id := t]))
  {
    hide Replay, FreshAnswer, Holds, OnRow;
    var running := db.running[id := t];
    forall i, j | i in running && j in running && i != j ensures Apart(running[i], running[j]) {
      if i == id { assert Apart(t, running[j]); }
      if j == id { assert Apart(t, running[i]); }
    }
  }

  /** Holding one account's counters more than before, which are free. */
  lemma StaysApart(db: Database, id: nat, stage: Stage, account: nat)
    requires Isolated(db) && id in db.running && Free(db, account, id)
    requires forall x :: Holds(db.running[id].(stage := stage), x) ==> Holds(db.running[id], x) || x == account
    ensures forall other | other in db.running && other != id ::
      Apart(db.running[id].(stage := stage), db.running[other])
  {
    hide Holds, FreshAnswer;
  }

  lemma ActSound(db: Database, action: Action)
    requires Sound(db) && Enabled(db, action)
    ensures Sound(Act(db, action))
  {
    hide Replay;
    match action
    case Write(id, kind, a, b) => PutSound(db, id, Transaction(kind, a, b, Written));
    case CountFollower(id) =>
      StaysApart(db, id, HoldsFollower, db.running[id].a);
      PutSound(db, id, db.running[id].(stage := HoldsFollower));
    case CountFollowed(id) =>
      StaysApart(db, id, HoldsBoth, db.running[id].b);
      PutSound(db, id, db.running[id].(stage := HoldsBoth));
    case Look(id) =>
      var t := db.running[id];
      StaysApart(db, id, Looked(Finds(db.committed.follows, t)), t.a);
      PutSound(db, id, t.(stage := Looked(Finds(db.committed.follows, t))));
    case Commit(id) => CommitSound(db, id);
    case RollBack(id) =>
  }

  lemma {:induction false} HistorySound(db: Database, actions: seq<Action>)
    requires Sound(db) && IsHistory(db, actions)
    ensures Sound(Outcome(db, actions))
    decreases |actions|
  {
    if actions != [] {
      ActSound(db, actions[0]);
      hide Act, Sound, Enabled;
      HistorySound(Act(db, actions[0]), actions[1..]);
    }
  }

  predicate NoSelfFollows(actions: seq<Action>) {
    forall i | 0 <= i < |actions| && actions[i].Write? :: actions[i].a != actions[i].b
  }

  predicate BetweenTwo(log: seq<Change>) {
    forall i | 0 <= i < |log| :: log[i].a != log[i].b
  }

  ghost predicate AllBetweenTwo(db: Database) {
    (forall t | t in db.running :: db.running[t].a != db.running[t].b) && BetweenTwo(db.log)
  }

  lemma ActBetweenTwo(db: Database, action: Action)
    requires AllBetweenTwo(db) && Enabled(db, action) && (action.Write? ==> action.a != action.b)
    ensures AllBetweenTwo(Act(db, action))
  {
    hide Applied, Finds;
  }

  lemma {:induction false} HistoryBetweenTwo(db: Database, actions: seq<Action>)
    requires IsHistory(db, actions) && NoSelfFollows(actions) && AllBetweenTwo(db)
    ensures AllBetweenTwo(Outcome(db, actions))
    decreases |actions|
  {
    if actions != [] {
      ActBetweenTwo(db, actions[0]);
      hide Act, Enabled, AllBetweenTwo;
      HistoryBetweenTwo(Act(db, actions[0]), actions[1..]);
    }
  }

  // ----- When the counters are right

  /** No follow was destroyed whose row was already gone. */
  predicate NoneTwice(log: seq<Change>) {
    forall i | 0 <= i < |log| :: !log[i].kind.FindsNone?
  }

  lemma {:induction false} ReplayAccurate(log: seq<Change>)
    requires BetweenTwo(log) && NoneTwice(log)
    ensures Accurate(Replay(log))
    decreases |log|
  {
    if log == [] {
      NothingIsAccurate();
    } else {
      var c := log[|log| - 1];
      ReplayAccurate(log[..|log| - 1]);
      if c.kind.Creates? {
        FollowAccurate(Replay(log[..|log| - 1]), c.a, c.b);
      } else {
        UnfollowAccurate(Replay(log[..|log| - 1]), c.a, c.b);
      }
    }
  }

  lemma NothingIsAccurate()
    ensures Accurate(NO_FOLLOWS)
  {
    forall x ensures AccurateAt(NO_FOLLOWS, x) {
      assert FollowsBy({}, x) == {} && FollowsOf({}, x) == {} && FollowsBy(Mutual({}), x) == {};
    }
  }

  /** How often an account's follows were destroyed without a row. */
  function Repeats(log: seq<Change>, x: nat): nat
    decreases |log|
  {
    if log == [] then 0
    else
      var c := log[|log| - 1];
      Repeats(log[..|log| - 1], x) + if c.kind.FindsNone? && c.a == x then 1 else 0
  }

  lemma FollowingAfter(g: Graph, c: Change, x: nat)
    ensures Count(ChangeStep(g, c).following, x) - OutDegree(ChangeStep(g, c).follows, x)
      == Count(g.following, x) - OutDegree(g.follows, x) - if c.kind.FindsNone? && c.a == x then 1 else 0
  {
    hide OutDegree, Bump;
    var f := (c.a, c.b);
    Bumped(g.following, c.a, 1, x);
    Bumped(g.following, c.a, -1, x);
    if c.kind.Creates? && f !in g.follows {
      DegreesAfter(g.follows, c.a, c.b, x);
    } else if c.kind.Destroys? && f in g.follows {
      DegreesAfter(g.follows - {f}, c.a, c.b, x);
      assert g.follows - {f} + {f} == g.follows;
    }
  }

  /** Each such change leaves the follower's counter one too low for good. */
  lemma {:induction false} FollowingDrifts(log: seq<Change>, x: nat)
    ensures Count(Replay(log).following, x) == OutDegree(Replay(log).follows, x) - Repeats(log, x)
    decreases |log|
  {
    if log == [] {
      assert FollowsBy({}, x) == {};
    } else {
      hide ChangeStep, OutDegree, Count;
      FollowingDrifts(log[..|log| - 1], x);
      FollowingAfter(Replay(log[..|log| - 1]), log[|log| - 1], x);
    }
  }

  lemma {:induction false} RepeatCounts(log: seq<Change>, i: nat)
    requires i < |log| && log[i].kind.FindsNone?
    ensures Repeats(log, log[i].a) > 0
    decreases |log|
  {
    if i < |log| - 1 { RepeatCounts(log[..|log| - 1], i); }
  }

  /** However concurrent follows and unfollows interleave, commit or are rolled back, what is
      committed is what the committed changes make one after the other.  Without self-follows
      every account's counters are then its degrees and its number of mutual follows if and only
      if no follow was destroyed after its row was gone. */
  lemma CommittedAccurateIff(actions: seq<Action>)
    requires IsHistory(EMPTY_DATABASE, actions)
    ensures var db := Outcome(EMPTY_DATABASE, actions);
      && db.committed == Replay(db.log)
      && (NoSelfFollows(actions) ==> (Accurate(db.committed) <==> NoneTwice(db.log)))
  {
    HistorySound(EMPTY_DATABASE, actions);
    var db := Outcome(EMPTY_DATABASE, actions);
    hide Outcome, IsHistory, Replay, Isolated;
    if NoneTwice(db.log) && NoSelfFollows(actions) {
      HistoryBetweenTwo(EMPTY_DATABASE, actions);
      ReplayAccurate(db.log);
    }
    if !NoneTwice(db.log) {
      var i :| 0 <= i < |db.log| && db.log[i].kind.FindsNone?;
      var x := db.log[i].a;
      RepeatCounts(db.log, i);
      FollowingDrifts(db.log, x);
      assert !AccurateAt(db.committed, x);
    }
  }

  lemma ActionsOneByOne(db: Database, action: Action, rest: seq<Action>)
    requires Enabled(db, action) && IsHistory(Act(db, action), rest)
    ensures IsHistory(db, [action] + rest) && Outcome(db, [action] + rest) == Outcome(Act(db, action), rest)
  {
    hide Act, Enabled;
    assert ([action] + rest)[1..] == rest;
  }

  // ----- Waiting for each other

  /** A transaction that waits to count its followed account, whose row another one holds. */
  ghost predicate WaitsFor(db: Database, i: nat, j: nat) {
    At(db, i, HoldsFollower) && j in db.running && i != j && Holds(db.running[j], db.running[i].b)
  }

  /** All of them wait for one of them: none can go on unless one is rolled back. */
  ghost predicate Deadlocked(db: Database, ids: set<nat>) {
    ids != {} && forall i | i in ids :: WaitsForOneOf(db, i, ids)
  }

  ghost predicate WaitsForOneOf(db: Database, i: nat, ids: set<nat>) {
    exists j :: j in ids && WaitsFor(db, i, j)
  }

  lemma WaitedFor(db: Database, i: nat, ids: set<nat>) returns (j: nat)
    requires WaitsForOneOf(db, i, ids)
    ensures j in ids && WaitsFor(db, i, j)
  {
    j :| j in ids && WaitsFor(db, i, j);
  }

  function Next(k: nat, n: nat): nat {
    if k + 1 < n then k + 1 else 0
  }

  /** Transactions that hold their follower's counters, each for a follow of the next one's follower,
      round in a circle. */
  ghost predicate FollowCycle(db: Database, ids: seq<nat>) {
    && 1 < |ids| && (forall k, l | 0 <= k < l < |ids| :: ids[k] != ids[l])
    && (forall k | 0 <= k < |ids| :: At(db, ids[k], HoldsFollower))
    && (forall k | 0 <= k < |ids| :: db.running[ids[k]].b == db.running[ids[Next(k, |ids|)]].a)
  }

  lemma CycleIsDeadlock(db: Database, ids: seq<nat>)
    requires FollowCycle(db, ids)
    ensures Deadlocked(db, set i | i in ids)
  {
    var all := set i | i in ids;
    assert ids[0] in all;
    forall i | i in all ensures WaitsForOneOf(db, i, all) {
      var k :| 0 <= k < |ids| && ids[k] == i;
      var j := ids[Next(k, |ids|)];
      assert j in all && i != j;
      assert WaitsFor(db, i, j);
    }
  }

  /** Distinct transactions of the set, each waiting for the one after it. */
  ghost predicate Chain(db: Database, ids: set<nat>, path: seq<nat>) {
    && path != [] && (forall k | 0 <= k < |path| :: path[k] in ids)
    && (forall k, l | 0 <= k < l < |path| :: path[k] != path[l])
    && (forall k | 0 < k < |path| :: WaitsFor(db, path[k - 1], path[k]))
  }

  lemma {:induction false} ChainSize(ids: set<nat>, path: seq<nat>)
    requires forall k | 0 <= k < |path| :: path[k] in ids
    requires forall k, l | 0 <= k < l < |path| :: path[k] != path[l]
    ensures |path| <= |ids|
    decreases |path|
  {
    if path != [] {
      ChainSize(ids - {path[0]}, path[1..]);
    }
  }

  /** Whoever holds a waiting transaction's account in the set holds it as its follower's. */
  lemma WaitingMeetsFollower(db: Database, ids: set<nat>, i: nat, j: nat)
    requires Deadlocked(db, ids) && j in ids && WaitsFor(db, i, j)
    ensures db.running[i].b == db.running[j].a
  {
    hide WaitsForOneOf;
    var k := WaitedFor(db, j, ids);
  }

  /** Following the waits from one transaction of the set comes back to the path. */
  lemma {:induction false} FollowWaits(db: Database, ids: set<nat>, path: seq<nat>) returns (cycle: seq<nat>)
    requires Deadlocked(db, ids) && Chain(db, ids, path)
    ensures FollowCycle(db, cycle) && forall i | i in cycle :: i in ids
    decreases |ids| - |path|
  {
    hide WaitsForOneOf, WaitsFor, FollowCycle;
    ChainSize(ids, path);
    var last := path[|path| - 1];
    var j := WaitedFor(db, last, ids);
    if j in path {
      var k :| 0 <= k < |path| && path[k] == j;
      cycle := path[k..];
      CloseCycle(db, ids, path, k);
    } else {
      ChainSize(ids, path + [j]);
      cycle := FollowWaits(db, ids, path + [j]);
    }
  }

  lemma CloseCycle(db: Database, ids: set<nat>, path: seq<nat>, k: nat)
    requires Deadlocked(db, ids) && Chain(db, ids, path) && k < |path|
    requires WaitsFor(db, path[|path| - 1], path[k])
    ensures FollowCycle(db, path[k..])
  {
    hide WaitsForOneOf;
    var cycle := path[k..];
    forall l | 0 <= l < |cycle|
      ensures At(db, cycle[l], HoldsFollower) && db.running[cycle[l]].b == db.running[cycle[Next(l, |cycle|)]].a
    {
      assert cycle[l] == path[k + l];
      var next := cycle[Next(l, |cycle|)];
      assert WaitsFor(db, cycle[l], next) by {
        if l + 1 < |cycle| { assert next == path[k + l + 1]; }
      }
      WaitingMeetsFollower(db, ids, cycle[l], next);
    }
  }

  /** Transactions can wait for each other if and only if those that hold their follower's counters
      include some whose follows make a circle, of two or of any number. */
  lemma DeadlockIff(db: Database)
    ensures (exists ids :: Deadlocked(db, ids)) <==> (exists cycle :: FollowCycle(db, cycle))
  {
    hide WaitsForOneOf, FollowCycle;
    if ids :| Deadlocked(db, ids) {
      var i :| i in ids;
      var cycle := FollowWaits(db, ids, [i]);
    }
    if cycle :| FollowCycle(db, cycle) {
      CycleIsDeadlock(db, cycle);
    }
  }

  /** Two wait for each other exactly if their follows are opposite. */
  lemma OppositesWaitIff(db: Database, i: nat, j: nat)
    requires i != j && At(db, i, HoldsFollower) && At(db, j, HoldsFollower)
    ensures WaitsFor(db, i, j) && WaitsFor(db, j, i)
      <==> (db.running[i].a, db.running[i].b) == (db.running[j].b, db.running[j].a)
  {
  }

  /** Nobody of a deadlock can count the account it waits for. */
  lemma DeadlockBlocks(db: Database, ids: set<nat>, i: nat)
    requires Deadlocked(db, ids) && i in ids
    ensures !Enabled(db, CountFollower(i)) && !Enabled(db, CountFollowed(i))
    ensures !Enabled(db, Look(i)) && !Enabled(db, Commit(i))
  {
    hide WaitsForOneOf;
    var j := WaitedFor(db, i, ids);
  }

  /** Two people who follow each other at the same moment get there. */
  lemma OppositeFollowsDeadlock(a: nat, b: nat)
    requires a != b
    ensures var actions := [Write(1, Creates, a, b), Write(2, Creates, b, a), CountFollower(1), CountFollower(2)];
      IsHistory(EMPTY_DATABASE, actions) && FollowCycle(Outcome(EMPTY_DATABASE, actions), [1, 2])
  {
    var w1, w2, c1, c2 := Write(1, Creates, a, b), Write(2, Creates, b, a), CountFollower(1), CountFollower(2);
    var d1 := Act(EMPTY_DATABASE, w1);
    var d2 := Act(d1, w2);
    var d3 := Act(d2, c1);
    var d4 := Act(d3, c2);
    assert FollowCycle(d4, [1, 2]);
    hide Act, Enabled, FollowCycle;
    ActionsOneByOne(d3, c2, []);
    ActionsOneByOne(d2, c1, [c2]);
    ActionsOneByOne(d1, w2, [c1, c2]);
    ActionsOneByOne(EMPTY_DATABASE, w1, [w2, c1, c2]);
    assert [c2] + [] == [c2] && [c1] + [c2] == [c1, c2] && [w2] + [c1, c2] == [w2, c1, c2];
    assert [w1] + [w2, c1, c2] == [w1, w2, c1, c2];
  }

  /** Two who destroy one follow that both had loaded take it off the counters twice. */
  lemma DestroyedTwice(a: nat, b: nat, log: seq<Change>)
    requires log == [Change(Creates, a, b), Change(Destroys, a, b), Change(FindsNone, a, b)]
    ensures Count(Replay(log).following, a) == -1 && Replay(log).follows == {}
  {
    FollowingDrifts(log, a);
    var two := log[..2];
    assert log[..|log| - 1] == two && two[..1] == log[..1] && log[..1][..0] == [];
    assert Repeats(log[..1], a) == 0 && Repeats(two, a) == 0 && Repeats(log, a) == 1;
    assert Replay(log[..1]).follows == {(a, b)};
    assert Replay(two).follows == {};
    assert FollowsBy({}, a) == {};
  }
}
