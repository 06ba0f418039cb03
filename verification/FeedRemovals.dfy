/** What one removal does to the first ranks of a feed, and when it leaves them deduplicated. */
module FeedRemovals {
  import opened Options
  import opened SortedSets
  import opened FeedManager
  import opened FeedRuns

  // ----- Who enters the first ranks

  /** The further reblog that is shown in the place of the removed one. */
  function Replacement(f: Feed, s: Status, aggregate: Option<bool>): Option<nat> {
    if s.reblogOf.Some? && Aggregates(aggregate) && s.id in f.timeline then
      var others := Members(f.extras, s.reblogOf.value) - {s.id};
      if others == {} then None else Some(Min(others))
    else
      None
  }

  /** The entry right below the first ranks, which moves up when one of them goes. */
  function NextBelow(timeline: set<nat>): Option<nat> {
    if |timeline| <= REBLOG_FALLOFF then None else Some(AtRevRank(timeline, REBLOG_FALLOFF))
  }

  /** The entry that a removal brings into the first ranks: the replacement or the next one
      below, whichever is newer, if the removed one was near the top; otherwise a replacement
      that is new and belongs there. */
  function Entering(f: Feed, s: Status, aggregate: Option<bool>): Option<nat> {
    var replacement := Replacement(f, s, aggregate);
    var unseen := replacement.Some? && replacement.value !in f.timeline;
    if InFirst(f.timeline, s.id, REBLOG_FALLOFF) then
      var next := NextBelow(f.timeline);
      if unseen && (next.None? || next.value < replacement.value) then replacement else next
    else if unseen && RevRank(f.timeline, replacement.value) < REBLOG_FALLOFF then replacement
    else None
  }

  /** The entries of the first ranks that stay there when another one enters. */
  function Staying(f: Feed, s: Status): set<nat> {
    if InFirst(f.timeline, s.id, REBLOG_FALLOFF) then Newest(f.timeline, REBLOG_FALLOFF) - {s.id}
    else Newest(f.timeline, REBLOG_FALLOFF - 1)
  }

  function FirstAfter(f: Feed, s: Status, aggregate: Option<bool>): set<nat> {
    match Entering(f, s, aggregate)
    case None => Newest(f.timeline, REBLOG_FALLOFF) - {s.id}
    case Some(e) => Staying(f, s) + {e}
  }

  function TimelineAfter(f: Feed, s: Status, aggregate: Option<bool>): set<nat> {
    match Replacement(f, s, aggregate)
    case None => f.timeline - {s.id}
    case Some(m) => (f.timeline + {m}) - {s.id}
  }

  lemma RemoveTimeline(f: Feed, s: Status, aggregate: Option<bool>)
    ensures Remove(f, s, aggregate).0.timeline == TimelineAfter(f, s, aggregate)
  {
    if s.reblogOf.Some? {
      var o := s.reblogOf.value;
      assert Members(SRem(f.extras, o, s.id), o) == Members(f.extras, o) - {s.id};
    }
  }

  lemma EnteringIsNew(f: Feed, s: Status, aggregate: Option<bool>)
    ensures var e := Entering(f, s, aggregate);
      e.Some? ==> e.value !in Newest(f.timeline, REBLOG_FALLOFF) && e.value !in Staying(f, s) && e.value != s.id
  {
  }

  /** These are the first ranks after a removal. */
  lemma FirstRanksAfter(f: Feed, s: Status, aggregate: Option<bool>)
    ensures Newest(Remove(f, s, aggregate).0.timeline, REBLOG_FALLOFF) == FirstAfter(f, s, aggregate)
  {
    RemoveTimeline(f, s, aggregate);
    var t, t' := f.timeline, Remove(f, s, aggregate).0.timeline;
    hide Remove;
    if InFirst(t, s.id, REBLOG_FALLOFF) {
      FirstRanksAfterTop(f, s, aggregate, t');
    } else if Entering(f, s, aggregate).Some? {
      FirstRanksAfterLow(f, s, aggregate, t');
    } else {
      FirstRanksUntouched(f, s, aggregate, t');
    }
  }

  lemma FirstRanksAfterTop(f: Feed, s: Status, aggregate: Option<bool>, t': set<nat>)
    requires InFirst(f.timeline, s.id, REBLOG_FALLOFF)
    requires t' == TimelineAfter(f, s, aggregate)
    ensures Newest(t', REBLOG_FALLOFF) == FirstAfter(f, s, aggregate)
  {
    var t, m := f.timeline, Replacement(f, s, aggregate);
    var more := if m.Some? && m.value !in t then {m.value} else {};
    assert t' == t + more - {s.id};
    EnteringTop(f, s, aggregate);
    assert |t| <= REBLOG_FALLOFF ==> |more| <= 1 && s.id !in more;
    hide Replacement, Newest, RevRank, FirstAfter, Entering;
    if |t| <= REBLOG_FALLOFF {
      FirstOfShort(t, s.id, more);
      AllIsFirst(t);
    } else if m.Some? && m.value !in t && AtRevRank(t, REBLOG_FALLOFF) < m.value {
      FirstOfExchange(t, s.id, m.value);
      assert t' == (t + {m.value}) - {s.id};
    } else {
      FirstOfRest(t, s.id, more, t');
    }
  }

  lemma EnteringTop(f: Feed, s: Status, aggregate: Option<bool>)
    requires InFirst(f.timeline, s.id, REBLOG_FALLOFF)
    ensures var t, m, first := f.timeline, Replacement(f, s, aggregate), Newest(f.timeline, REBLOG_FALLOFF) - {s.id};
      FirstAfter(f, s, aggregate) ==
        if m.Some? && m.value !in t && (|t| <= REBLOG_FALLOFF || AtRevRank(t, REBLOG_FALLOFF) < m.value)
        then first + {m.value}
        else if |t| <= REBLOG_FALLOFF then first
        else first + {AtRevRank(t, REBLOG_FALLOFF)}
  {
    hide Replacement, Newest, RevRank;
  }

  lemma FirstOfShort(t: set<nat>, x: nat, more: set<nat>)
    requires |t| <= REBLOG_FALLOFF && x in t && |more| <= 1 && x !in more
    ensures Newest(t + more - {x}, REBLOG_FALLOFF) == t - {x} + more
  {
    assert t + more - {x} == (t - {x}) + more;
    UnionSize(t - {x}, more);
    AllIsFirst(t + more - {x});
  }

  lemma UnionSize(a: set<nat>, b: set<nat>)
    ensures |a + b| <= |a| + |b|
  {
    assert a + b == a + (b - a);
    SubsetSize(b - a, b);
  }

  lemma AllIsFirst(t: set<nat>)
    requires |t| <= REBLOG_FALLOFF
    ensures Newest(t, REBLOG_FALLOFF) == t
  {
    NewestSize(t, REBLOG_FALLOFF);
    SubsetSize(Newest(t, REBLOG_FALLOFF), t);
  }

  /** An entry goes and one newer than all below the first ranks comes. */
  lemma FirstOfExchange(t: set<nat>, x: nat, m: nat)
    requires REBLOG_FALLOFF < |t| && InFirst(t, x, REBLOG_FALLOFF) && m !in t && AtRevRank(t, REBLOG_FALLOFF) < m
    ensures Newest((t + {m}) - {x}, REBLOG_FALLOFF) == Newest(t, REBLOG_FALLOFF) - {x} + {m}
  {
    var top, t' := Newest(t, REBLOG_FALLOFF), (t + {m}) - {x};
    FirstAreAbove(t);
    assert x in top;
    hide Newest, RevRank;
    assert |t'| == |t|;
    NewestUnique(t', REBLOG_FALLOFF, top - {x} + {m});
  }

  lemma FirstAreAbove(t: set<nat>)
    requires REBLOG_FALLOFF < |t|
    ensures |Newest(t, REBLOG_FALLOFF)| == REBLOG_FALLOFF && Newest(t, REBLOG_FALLOFF) <= t
    ensures forall y | y in t :: y in Newest(t, REBLOG_FALLOFF) <==> AtRevRank(t, REBLOG_FALLOFF) < y
  {
    NewestSize(t, REBLOG_FALLOFF);
  }

  /** An entry goes, and what comes, if anything, is older than the next one below. */
  lemma FirstOfRest(t: set<nat>, x: nat, more: set<nat>, t': set<nat>)
    requires REBLOG_FALLOFF < |t| && InFirst(t, x, REBLOG_FALLOFF) && t' == t + more - {x}
    requires forall m | m in more :: m !in t && m <= AtRevRank(t, REBLOG_FALLOFF)
    ensures Newest(t', REBLOG_FALLOFF) == Newest(t, REBLOG_FALLOFF) - {x} + {AtRevRank(t, REBLOG_FALLOFF)}
  {
    var top, next := Newest(t, REBLOG_FALLOFF), AtRevRank(t, REBLOG_FALLOFF);
    FirstAreAbove(t);
    assert x in top;
    hide Newest, RevRank;
    var after := top - {x} + {next};
    assert |after| == REBLOG_FALLOFF;
    assert next in t' && after <= t';
    assert REBLOG_FALLOFF <= |t'| by { SubsetSize(after, t'); }
    forall a, b | a in after && b in t' && a <= b ensures b in after {
      assert next <= a;
    }
    NewestUnique(t', REBLOG_FALLOFF, after);
  }

  lemma FirstRanksAfterLow(f: Feed, s: Status, aggregate: Option<bool>, t': set<nat>)
    requires !InFirst(f.timeline, s.id, REBLOG_FALLOFF) && Entering(f, s, aggregate).Some?
    requires t' == TimelineAfter(f, s, aggregate)
    ensures Newest(t', REBLOG_FALLOFF) == FirstAfter(f, s, aggregate)
  {
    var t, m := f.timeline, Entering(f, s, aggregate).value;
    var after := FirstAfter(f, s, aggregate);
    NewestSize(t, REBLOG_FALLOFF - 1);
    LowIsOutside(t, s.id);
    forall x, y | x in after && y in t' && x <= y ensures y in after {
      if x == m && y != m { RankFallsWithId(t, m, y); }
    }
    assert s.id in t && m !in t;
    assert |t'| == |t|;
    NewestUnique(t', REBLOG_FALLOFF, after);
  }

  /** An entry outside the first ranks has as many newer ones. */
  lemma LowIsOutside(t: set<nat>, x: nat)
    requires x in t && !InFirst(t, x, REBLOG_FALLOFF)
    ensures REBLOG_FALLOFF < |t| && x !in Newest(t, REBLOG_FALLOFF - 1)
  {
    RankBelowSize(t, x);
  }

  lemma FirstRanksUntouched(f: Feed, s: Status, aggregate: Option<bool>, t': set<nat>)
    requires !InFirst(f.timeline, s.id, REBLOG_FALLOFF) && Entering(f, s, aggregate).None?
    requires t' == TimelineAfter(f, s, aggregate)
    ensures Newest(t', REBLOG_FALLOFF) == FirstAfter(f, s, aggregate)
  {
    var t, top := f.timeline, Newest(f.timeline, REBLOG_FALLOFF);
    NewestSize(t, REBLOG_FALLOFF);
    assert FirstAfter(f, s, aggregate) == top;
    if s.id in t {
      LowIsOutside(t, s.id);
      SubsetSize(t - {s.id}, t');
      forall x, y | x in top && y in t' && x <= y ensures y in top {
        if y !in t { SubsetSize(Above(t, y), Above(t, x)); }
      }
      SubsetSize(top, t');
      NewestUnique(t', REBLOG_FALLOFF, top);
    } else {
      assert t' == t;
    }
  }

  // ----- Removals that leave no duplicate

  /** The entry lifted into the first ranks stands for a post that is there already. */
  ghost predicate LiftsDuplicate(f: Feed, s: Status, aggregate: Option<bool>, status: nat -> Status) {
    match Entering(f, s, aggregate)
    case None => false
    case Some(e) =>
      !AnswerReblog(e, status) &&
      exists y :: y in Staying(f, s) && !AnswerReblog(y, status) && Root(y, status) == Root(e, status)
  }

  /** A removal keeps the first ranks free of duplicates if and only if the one entry it lifts
      into them is an answer's reblog or stands for a post that none of those staying there
      stands for. */
  lemma RemovalDeduplicatesIff(f: Feed, s: Status, aggregate: Option<bool>, status: nat -> Status)
    requires Deduplicated(f, status)
    ensures Deduplicated(Remove(f, s, aggregate).0, status) <==> !LiftsDuplicate(f, s, aggregate, status)
  {
    var g := Remove(f, s, aggregate).0;
    var top, after := Newest(f.timeline, REBLOG_FALLOFF), FirstAfter(f, s, aggregate);
    FirstRanksAfter(f, s, aggregate);
    EnteringIsNew(f, s, aggregate);
    hide Remove, Entering, Replacement;
    assert Staying(f, s) <= top;
    assert forall x :: InFirst(g.timeline, x, REBLOG_FALLOFF) <==> x in Newest(g.timeline, REBLOG_FALLOFF);
    assert forall x :: InFirst(f.timeline, x, REBLOG_FALLOFF) <==> x in top;
    if LiftsDuplicate(f, s, aggregate, status) {
      var e := Entering(f, s, aggregate).value;
      var y :| y in Staying(f, s) && !AnswerReblog(y, status) && Root(y, status) == Root(e, status);
      assert InFirst(g.timeline, e, REBLOG_FALLOFF) && InFirst(g.timeline, y, REBLOG_FALLOFF);
    }
  }

  // ----- Removals that leave the first ranks tracked

  /** The original whose tracking a removal ends or hands over. */
  function Untracks(s: Status, aggregate: Option<bool>): nat {
    if s.reblogOf.Some? && Aggregates(aggregate) then s.reblogOf.value else s.id
  }

  /** Another reblog that the tracker named is still near the top, but not the replacement. */
  predicate LosesTrack(f: Feed, s: Status, aggregate: Option<bool>) {
    var o := Untracks(s, aggregate);
    && (s.reblogOf.Some? && Aggregates(aggregate) ==> s.id in f.timeline)
    && o in f.tracker && f.tracker[o] != s.id && Replacement(f, s, aggregate) != Some(f.tracker[o])
    && f.tracker[o] in FirstAfter(f, s, aggregate)
  }

  /** The entry lifted into the first ranks is a tracked original, and not the one whose tracking
      ends, or a reblog that is neither the replacement nor the tracked one of another original. */
  predicate LiftsAmiss(f: Feed, s: Status, aggregate: Option<bool>, status: nat -> Status) {
    match Entering(f, s, aggregate)
    case None => false
    case Some(e) =>
      var o, replacement := Root(e, status), Replacement(f, s, aggregate);
      || (e in f.tracker && (e == Untracks(s, aggregate) ==> replacement.Some?))
      || (status(e).reblogOf.Some? && !AnswerReblog(e, status) &&
          !(if o == Untracks(s, aggregate) then replacement == Some(e) else o in f.tracker && f.tracker[o] == e))
  }

  predicate KeepsTop(f: Feed, s: Status, aggregate: Option<bool>, status: nat -> Status) {
    !LosesTrack(f, s, aggregate) && !LiftsAmiss(f, s, aggregate, status)
  }

  function TrackedAfter(f: Feed, s: Status, aggregate: Option<bool>): map<nat, nat> {
    if s.reblogOf.Some? && Aggregates(aggregate) && s.id !in f.timeline then f.tracker else
    match Replacement(f, s, aggregate)
    case None => f.tracker - {Untracks(s, aggregate)}
    case Some(m) => f.tracker[Untracks(s, aggregate) := m]
  }

  lemma RemoveTracker(f: Feed, s: Status, aggregate: Option<bool>)
    ensures Remove(f, s, aggregate).0.tracker == TrackedAfter(f, s, aggregate)
  {
    if s.reblogOf.Some? {
      var o := s.reblogOf.value;
      assert Members(SRem(f.extras, o, s.id), o) == Members(f.extras, o) - {s.id};
    }
  }

  /** `TopTracked`, said of the first ranks as a set. */
  ghost predicate TrackedIn(first: set<nat>, tracker: map<nat, nat>, status: nat -> Status) {
    && (forall r | r in first && status(r).reblogOf.Some? && !AnswerReblog(r, status) ::
          Root(r, status) in tracker && tracker[Root(r, status)] == r)
    && (forall o | o in tracker :: status(o).reblogOf.None? && o !in first)
  }

  lemma TopTrackedIsTrackedIn(f: Feed, status: nat -> Status)
    ensures TopTracked(f, status) <==> TrackedIn(Newest(f.timeline, REBLOG_FALLOFF), f.tracker, status)
  {
    assert forall x :: InFirst(f.timeline, x, REBLOG_FALLOFF) <==> x in Newest(f.timeline, REBLOG_FALLOFF);
  }

  /** A removal keeps every reblog of the first ranks the tracked one, and tracked originals out
      of them, if and only if it neither leaves another shown reblog untracked nor lifts an
      untracked one, or a tracked original, into them. */
  lemma RemovalKeepsTopIff(f: Feed, s: Status, aggregate: Option<bool>, status: nat -> Status)
    requires WellFormed(status) && s == status(s.id)
    requires TopTracked(f, status) && Genuine(f, status) && NoOrphanExtras(f)
    ensures TopTracked(Remove(f, s, aggregate).0, status) <==> KeepsTop(f, s, aggregate, status)
  {
    var g := Remove(f, s, aggregate).0;
    TopTrackedIsTrackedIn(f, status);
    TopTrackedIsTrackedIn(g, status);
    FirstRanksAfter(f, s, aggregate);
    RemoveTracker(f, s, aggregate);
    hide Remove, FirstAfter, TrackedAfter, TopTracked, NoOrphanExtras, Newest, Genuine, KeepsTop, TrackedIn;
    if TrackedIn(FirstAfter(f, s, aggregate), TrackedAfter(f, s, aggregate), status) {
      TrackedAfterKeepsTop(f, s, aggregate, status);
    }
    if KeepsTop(f, s, aggregate, status) {
      KeepsTopTracks(f, s, aggregate, status);
    }
  }

  lemma TrackedAfterKeepsTop(f: Feed, s: Status, aggregate: Option<bool>, status: nat -> Status)
    requires Genuine(f, status)
    requires TrackedIn(FirstAfter(f, s, aggregate), TrackedAfter(f, s, aggregate), status)
    ensures KeepsTop(f, s, aggregate, status)
  {
    FirstAfterParts(f, s, aggregate);
    hide FirstAfter, Entering;
  }

  lemma KeepsTopTracks(f: Feed, s: Status, aggregate: Option<bool>, status: nat -> Status)
    requires NoOrphanExtras(f) && TrackedIn(Newest(f.timeline, REBLOG_FALLOFF), f.tracker, status)
    requires KeepsTop(f, s, aggregate, status)
    ensures TrackedIn(FirstAfter(f, s, aggregate), TrackedAfter(f, s, aggregate), status)
  {
    FirstAfterParts(f, s, aggregate);
    TrackedAfterParts(f, s, aggregate);
    hide FirstAfter, Entering, Newest, NoOrphanExtras;
    var first, tracked := FirstAfter(f, s, aggregate), TrackedAfter(f, s, aggregate);
    forall r | r in first && status(r).reblogOf.Some? && !AnswerReblog(r, status)
      ensures Root(r, status) in tracked && tracked[Root(r, status)] == r
    {
      if Entering(f, s, aggregate) != Some(r) { assert f.tracker[Root(r, status)] == r; }
    }
  }

  lemma FirstAfterParts(f: Feed, s: Status, aggregate: Option<bool>)
    ensures forall x | x in FirstAfter(f, s, aggregate) ::
      x in Newest(f.timeline, REBLOG_FALLOFF) || Entering(f, s, aggregate) == Some(x)
    ensures forall e | Entering(f, s, aggregate) == Some(e) :: e in FirstAfter(f, s, aggregate)
    ensures Entering(f, s, aggregate).Some? ==> s.id in f.timeline
  {
    EnteringNeedsRemoval(f, s, aggregate);
    hide Entering;
  }

  lemma EnteringNeedsRemoval(f: Feed, s: Status, aggregate: Option<bool>)
    ensures Entering(f, s, aggregate).Some? ==> s.id in f.timeline
  {
  }

  /** Only the removed status' original is tracked otherwise, and nothing is tracked anew. */
  lemma TrackedAfterParts(f: Feed, s: Status, aggregate: Option<bool>)
    requires NoOrphanExtras(f)
    ensures var tracked := TrackedAfter(f, s, aggregate);
      && tracked.Keys <= f.tracker.Keys
      && forall o | o != Untracks(s, aggregate) ::
           (o in tracked <==> o in f.tracker) && (o in tracked ==> tracked[o] == f.tracker[o])
  {
  }

  // ----- Runs with removals

  predicate OpKeepsTop(f: Feed, op: Op, status: nat -> Status) {
    op.RemoveOp? ==> KeepsTop(f, op.s, op.aggregate, status)
  }

  predicate EachKeepsTop(f: Feed, ops: seq<Op>, status: nat -> Status)
    decreases |ops|
  {
    ops == [] || (OpKeepsTop(f, ops[0], status) && EachKeepsTop(Step(f, ops[0]), ops[1..], status))
  }

  ghost predicate TopTrackedThroughout(f: Feed, ops: seq<Op>, status: nat -> Status)
    decreases |ops|
  {
    TopTracked(f, status) && (ops == [] || TopTrackedThroughout(Step(f, ops[0]), ops[1..], status))
  }

  lemma StepKeepsTopIff(f: Feed, op: Op, status: nat -> Status)
    requires WellFormed(status) && Filed(op, status) && Aggregating(op)
    requires TopTracked(f, status) && Genuine(f, status) && NoOrphanExtras(f)
    ensures TopTracked(Step(f, op), status) <==> OpKeepsTop(f, op, status)
    ensures Genuine(Step(f, op), status) && NoOrphanExtras(Step(f, op))
  {
    StepKeepsNoOrphans(f, op);
    StepKeepsGenuine(f, op, status);
    if op.RemoveOp? {
      RemovalKeepsTopIff(f, op.s, op.aggregate, status);
    } else {
      StepKeepsTopTracked(f, op, status);
    }
  }

  /** A run of aggregating adds, removals, trims and cleanings keeps the first ranks tracked at
      every moment if and only if each of its removals does. */
  lemma {:induction false} TopTrackedThroughoutIff(f: Feed, ops: seq<Op>, status: nat -> Status)
    requires WellFormed(status) && AggregatingRun(ops, status)
    requires TopTracked(f, status) && Genuine(f, status) && NoOrphanExtras(f)
    ensures TopTrackedThroughout(f, ops, status) <==> EachKeepsTop(f, ops, status)
    decreases |ops|
  {
    if ops != [] {
      assert ops[0] in ops;
      StepKeepsTopIff(f, ops[0], status);
      if OpKeepsTop(f, ops[0], status) {
        hide Step, Genuine, NoOrphanExtras, TopTracked, OpKeepsTop;
        TopTrackedThroughoutIff(Step(f, ops[0]), ops[1..], status);
      }
    }
  }

  /** So no post ever stands twice near the top while every removal keeps them tracked. */
  lemma {:induction false} DeduplicatedWithRemovals(f: Feed, ops: seq<Op>, status: nat -> Status)
    requires WellFormed(status) && AggregatingRun(ops, status)
    requires TopTracked(f, status) && Genuine(f, status) && NoOrphanExtras(f)
    requires EachKeepsTop(f, ops, status)
    ensures Deduplicated(Run(f, ops), status)
    decreases |ops|
  {
    if ops == [] {
      TopTrackedDeduplicates(f, status);
    } else {
      assert ops[0] in ops;
      StepKeepsTopIff(f, ops[0], status);
      hide Step, Genuine, NoOrphanExtras, TopTracked, OpKeepsTop;
      DeduplicatedWithRemovals(Step(f, ops[0]), ops[1..], status);
    }
  }
}
