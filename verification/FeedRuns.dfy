/** What every run of the feed operations keeps. */
module FeedRuns {
  import opened Options
  import opened SortedSets
  import opened FeedManager

  datatype Op =
    | AddOp(s: Status, aggregate: Option<bool>)
    | RemoveOp(s: Status, aggregate: Option<bool>)
    | TrimOp
    | CleanOp

  function Step(f: Feed, op: Op): Feed {
    match op
    case AddOp(s, aggregate) => Add(f, s, aggregate).0
    case RemoveOp(s, aggregate) => Remove(f, s, aggregate).0
    case TrimOp => Trim(f)
    case CleanOp => Clean(f, false)
  }

  function Run(f: Feed, ops: seq<Op>): Feed
    decreases |ops|
  {
    if ops == [] then f else Run(Step(f, ops[0]), ops[1..])
  }

  // ----- The status table

  /** Rows are filed under their id, and a reblog points at an original:
      `Status#set_reblog` unwraps reblogs of reblogs. */
  ghost predicate WellFormed(status: nat -> Status) {
    forall i :: status(i).id == i &&
      (status(i).reblogOf.Some? ==> status(status(i).reblogOf.value).reblogOf.None?)
  }

  predicate Filed(op: Op, status: nat -> Status) {
    (op.AddOp? || op.RemoveOp?) ==> op.s == status(op.s.id)
  }

  predicate Aggregating(op: Op) {
    (op.AddOp? || op.RemoveOp?) ==> Aggregates(op.aggregate)
  }

  ghost predicate AggregatingRun(ops: seq<Op>, status: nat -> Status) {
    forall op | op in ops :: Filed(op, status) && Aggregating(op)
  }

  // ----- No extra set without a tracked original

  ghost predicate NoOrphanExtras(f: Feed) {
    forall o | o in f.extras :: o in f.tracker && f.extras[o] != {}
  }

  lemma StepKeepsNoOrphans(f: Feed, op: Op)
    requires NoOrphanExtras(f)
    ensures NoOrphanExtras(Step(f, op))
  {
    if op.AddOp? {
      var g := Add(f, op.s, op.aggregate).0;
      if g.extras != f.extras {
        assert op.s.id in g.extras[op.s.reblogOf.value];
      }
    }
  }

  /** Whatever the order of adds, removals, trims and cleanings, and whether or not
      the owner changes the aggregation setting between them. */
  lemma {:induction false} NoOrphanExtrasEver(f: Feed, ops: seq<Op>)
    requires NoOrphanExtras(f)
    ensures NoOrphanExtras(Run(f, ops))
    decreases |ops|
  {
    if ops != [] {
      StepKeepsNoOrphans(f, ops[0]);
      NoOrphanExtrasEver(Step(f, ops[0]), ops[1..]);
    }
  }

  /** `clean_feeds!` leaves no key of a reachable feed behind exactly when the feed's
      id is listed once or it has no extra sets. */
  lemma CleanLeavesNothing(ops: seq<Op>, listedTwice: bool)
    ensures var f := Run(EMPTY_FEED, ops);
      Clean(f, listedTwice) == EMPTY_FEED <==> !listedTwice || f.extras == map[]
  {
    NoOrphanExtrasEver(EMPTY_FEED, ops);
    var f := Run(EMPTY_FEED, ops);
    assert f.extras - f.tracker.Keys == map[];
  }

  // ----- Removing what was just added

  /** Whether a removal takes back an insertion.  Only an answer post's reblog can be in the way:
      `add_to_feed` does not aggregate it but `remove_from_feed` does, and so drops the
      tracking of its original unless the same reblog is re-inserted. */
  predicate Undoable(f: Feed, s: Status, aggregate: Option<bool>) {
    s.kronkAnswer && s.reblogOf.Some? && Aggregates(aggregate) && s.reblogOf.value in f.tracker ==>
      var o := s.reblogOf.value;
      o in f.extras && s.id !in f.extras[o] && f.extras[o] != {} &&
      Min(f.extras[o]) == f.tracker[o] && f.tracker[o] in f.timeline
  }

  lemma RemoveUndoesAdd(f: Feed, s: Status, aggregate: Option<bool>)
    requires NoOrphanExtras(f) && s.id !in f.timeline
    requires Add(f, s, aggregate).1
    ensures Remove(Add(f, s, aggregate).0, s, aggregate).1
    ensures Remove(Add(f, s, aggregate).0, s, aggregate).0 == f <==> Undoable(f, s, aggregate)
  {
    var g := Add(f, s, aggregate).0;
    var h := Remove(g, s, aggregate).0;
    if s.reblogOf.Some? && Aggregates(aggregate) {
      var o := s.reblogOf.value;
      var others := Members(SRem(g.extras, o, s.id), o);
      assert others == Members(f.extras, o) - {s.id};
      if !s.kronkAnswer || o !in f.tracker {
        assert o !in f.extras;
        assert h == f;
      } else if others == {} {
        assert o !in h.tracker;
      } else {
        assert h.tracker[o] == Min(others) && Min(others) != s.id;
        assert h.extras[o] == others;
        if h == f {
          assert others == f.extras[o];
        }
        if Undoable(f, s, aggregate) {
          assert others == f.extras[o];
          assert h.timeline == f.timeline && h.tracker == f.tracker && h.extras == f.extras;
        }
      }
    } else {
      assert s.id !in f.extras;
      assert h == f;
    }
  }

  // ----- Tracked reblogs are shown

  predicate ReblogOf(s: Status, o: nat) {
    s.reblogOf == Some(o) && !s.kronkAnswer
  }

  /** The tracker and the extra sets only name reblogs of their original, and none of answers. */
  ghost predicate Genuine(f: Feed, status: nat -> Status) {
    && (forall o | o in f.tracker :: ReblogOf(status(f.tracker[o]), o))
    && (forall o, r | o in f.extras && r in f.extras[o] :: ReblogOf(status(r), o))
  }

  ghost predicate Shown(f: Feed) {
    forall o | o in f.tracker :: f.tracker[o] in f.timeline
  }

  ghost predicate TrackerSound(f: Feed, status: nat -> Status) {
    Genuine(f, status) && Shown(f)
  }

  lemma AddKeepsGenuine(f: Feed, s: Status, aggregate: Option<bool>, status: nat -> Status)
    requires Genuine(f, status) && s == status(s.id)
    ensures Genuine(Add(f, s, aggregate).0, status)
  {
  }

  lemma RemoveKeepsGenuine(f: Feed, s: Status, aggregate: Option<bool>, status: nat -> Status)
    requires Genuine(f, status)
    ensures Genuine(Remove(f, s, aggregate).0, status)
  {
  }

  lemma StepKeepsGenuine(f: Feed, op: Op, status: nat -> Status)
    requires Genuine(f, status) && Filed(op, status)
    ensures Genuine(Step(f, op), status)
  {
    hide Add, Remove;
    match op
    case AddOp(s, aggregate) => AddKeepsGenuine(f, s, aggregate, status);
    case RemoveOp(s, aggregate) => RemoveKeepsGenuine(f, s, aggregate, status);
    case TrimOp =>
    case CleanOp =>
  }

  /** This much holds even when aggregation is switched on and off. */
  lemma {:induction false} GenuineEver(f: Feed, ops: seq<Op>, status: nat -> Status)
    requires WellFormed(status) && Genuine(f, status)
    requires forall op | op in ops :: Filed(op, status)
    ensures Genuine(Run(f, ops), status)
    decreases |ops|
  {
    if ops != [] {
      assert ops[0] in ops;
      StepKeepsGenuine(f, ops[0], status);
      hide Step, Genuine;
      GenuineEver(Step(f, ops[0]), ops[1..], status);
    }
  }

  lemma TrimKeepsTrackerSound(f: Feed, status: nat -> Status)
    requires WellFormed(status) && TrackerSound(f, status)
    ensures TrackerSound(Trim(f), status)
  {
    var kept := Newest(f.timeline, MAX_ITEMS);
    NewestSize(f.timeline, MAX_ITEMS);
    if |kept| <= REBLOG_FALLOFF {
      SubsetSize(kept, f.timeline);
    } else {
      var falloff := AtRevRank(kept, REBLOG_FALLOFF);
    }
  }

  /** A removal leaves the tracker naming a reblog that is gone exactly when it is made without
      aggregation, of the reblog that its original is tracked through. */
  predicate RemovalLeavesShown(f: Feed, s: Status, aggregate: Option<bool>) {
    Aggregates(aggregate) || s.reblogOf.None? || s.reblogOf.value !in f.tracker || f.tracker[s.reblogOf.value] != s.id
  }

  lemma RemoveKeepsShownIff(f: Feed, s: Status, aggregate: Option<bool>, status: nat -> Status)
    requires WellFormed(status) && TrackerSound(f, status) && s == status(s.id)
    ensures Shown(Remove(f, s, aggregate).0) <==> RemovalLeavesShown(f, s, aggregate)
  {
    var g := Remove(f, s, aggregate).0;
    if s.reblogOf.Some? && !RemovalLeavesShown(f, s, aggregate) {
      assert s.reblogOf.value in g.tracker && g.tracker[s.reblogOf.value] !in g.timeline;
    } else {
      forall o | o in g.tracker ensures g.tracker[o] in g.timeline {}
    }
  }

  predicate LeavesShown(f: Feed, op: Op) {
    op.RemoveOp? ==> RemovalLeavesShown(f, op.s, op.aggregate)
  }

  lemma StepKeepsShownIff(f: Feed, op: Op, status: nat -> Status)
    requires WellFormed(status) && TrackerSound(f, status) && Filed(op, status)
    ensures Shown(Step(f, op)) <==> LeavesShown(f, op)
    ensures Genuine(Step(f, op), status)
  {
    StepKeepsGenuine(f, op, status);
    match op
    case AddOp(s, aggregate) =>
    case RemoveOp(s, aggregate) => RemoveKeepsShownIff(f, s, aggregate, status);
    case TrimOp => TrimKeepsTrackerSound(f, status);
    case CleanOp =>
  }

  /** Every tracked reblog is in the timeline, from the start to the end of the run. */
  ghost predicate ShownThroughout(f: Feed, ops: seq<Op>)
    decreases |ops|
  {
    Shown(f) && (ops == [] || ShownThroughout(Step(f, ops[0]), ops[1..]))
  }

  /** No removal of the run is of a tracked reblog without aggregation. */
  predicate EachLeavesShown(f: Feed, ops: seq<Op>)
    decreases |ops|
  {
    ops == [] || (LeavesShown(f, ops[0]) && EachLeavesShown(Step(f, ops[0]), ops[1..]))
  }

  /** Whether aggregation is switched on or off in between: a run keeps every tracked reblog in
      the timeline if and only if each of its removals does. */
  lemma {:induction false} ShownThroughoutIff(f: Feed, ops: seq<Op>, status: nat -> Status)
    requires WellFormed(status) && TrackerSound(f, status)
    requires forall op | op in ops :: Filed(op, status)
    ensures ShownThroughout(f, ops) <==> EachLeavesShown(f, ops)
    decreases |ops|
  {
    if ops != [] {
      assert ops[0] in ops;
      StepKeepsShownIff(f, ops[0], status);
      if LeavesShown(f, ops[0]) {
        hide Step, Genuine, Shown;
        ShownThroughoutIff(Step(f, ops[0]), ops[1..], status);
      }
    }
  }

  /** With aggregation on whenever something is removed, every tracked reblog is in the timeline. */
  lemma {:induction false} TrackedAreShownEver(f: Feed, ops: seq<Op>, status: nat -> Status)
    requires WellFormed(status) && TrackerSound(f, status)
    requires forall op | op in ops :: Filed(op, status) && (op.RemoveOp? ==> Aggregates(op.aggregate))
    ensures TrackerSound(Run(f, ops), status)
    decreases |ops|
  {
    if ops != [] {
      assert ops[0] in ops;
      StepKeepsShownIff(f, ops[0], status);
      hide Step, Genuine, Shown;
      TrackedAreShownEver(Step(f, ops[0]), ops[1..], status);
    }
  }

  /** Switching aggregation off between a reblog's arrival and its removal leaves the
      tracker naming a reblog that is gone, and the original is then refused. */
  lemma SwitchedOffTrackerGoesStale(s: Status, original: Status)
    requires s.reblogOf == Some(original.id) && !s.kronkAnswer && original.reblogOf == None && s.id != original.id
    ensures var f := Run(EMPTY_FEED, [AddOp(s, Some(true)), RemoveOp(s, Some(false))]);
      !Shown(f) && f.timeline == {} && !Add(f, original, Some(true)).1
  {
    var ops := [AddOp(s, Some(true)), RemoveOp(s, Some(false))];
    assert ops[1..] == [RemoveOp(s, Some(false))] && ops[1..][1..] == [];
    var f1 := Step(EMPTY_FEED, ops[0]);
    var f2 := Step(f1, ops[1]);
    assert Run(EMPTY_FEED, ops) == Run(f1, ops[1..]) == Run(f2, []) == f2;
    assert f2.tracker[original.id] == s.id;
  }

  // ----- What an add shows

  /** The post an entry stands for. */
  function Root(id: nat, status: nat -> Status): nat {
    if status(id).reblogOf.Some? then status(id).reblogOf.value else id
  }

  /** The post stands in the feed, itself or through a reblog. */
  ghost predicate Represented(f: Feed, post: nat, status: nat -> Status) {
    exists x :: x in f.timeline && Root(x, status) == post
  }

  /** Whether a status is added as one of the reblogs of its original. */
  predicate Aggregated(s: Status, aggregate: Option<bool>) {
    s.reblogOf.Some? && Aggregates(aggregate) && !s.kronkAnswer
  }

  /** Whether `add_to_feed` puts the status in: its post is not tracked and, for an aggregated
      reblog, not itself near the top. */
  predicate Inserts(f: Feed, s: Status, aggregate: Option<bool>) {
    if Aggregated(s, aggregate) then
      s.reblogOf.value !in f.tracker && !InFirst(f.timeline, s.reblogOf.value, REBLOG_FALLOFF)
    else
      s.reblogOf.Some? || s.id !in f.tracker
  }

  /** `add_to_feed` answers yes exactly when it put the status in; an aggregated reblog it did not
      put in because another one is tracked is kept as an extra.  The post stands in the feed
      afterwards if it was put in or stood there before, and so whatever the answer while
      tracked reblogs are shown. */
  lemma AddRepresents(f: Feed, s: Status, aggregate: Option<bool>, status: nat -> Status)
    requires WellFormed(status) && Genuine(f, status) && s == status(s.id)
    ensures var (g, added) := Add(f, s, aggregate); var post := Root(s.id, status);
      && (Represented(g, post, status) <==> added || Represented(f, post, status))
      && (Shown(f) ==> Represented(g, post, status))
      && (added <==> Inserts(f, s, aggregate))
      && g.timeline == (if added then f.timeline + {s.id} else f.timeline)
      && (!added && Aggregated(s, aggregate) && !InFirst(f.timeline, post, REBLOG_FALLOFF) ==>
            s.id in Members(g.extras, post))
  {
    var (g, added) := Add(f, s, aggregate);
    var post := Root(s.id, status);
    var entry := if added then s.id else if post in f.tracker then f.tracker[post] else post;
    if added || Shown(f) {
      assert entry in g.timeline && Root(entry, status) == post;
    }
  }

  // ----- What an add and a removal leave alone

  /** An add forgets nothing: every tracked original keeps its reblog and every extra stays.  What
      is new is the status itself, as an entry, as the tracked reblog of its original or as one
      more extra of it. */
  lemma AddKeepsRest(f: Feed, s: Status, aggregate: Option<bool>)
    ensures var g := Add(f, s, aggregate).0;
      && f.timeline <= g.timeline <= f.timeline + {s.id}
      && (forall o | o in f.tracker :: o in g.tracker && g.tracker[o] == f.tracker[o])
      && (forall o | o in g.tracker && o !in f.tracker ::
            Aggregated(s, aggregate) && s.reblogOf == Some(o) && g.tracker[o] == s.id)
      && (forall o: nat, r: nat | r in Members(f.extras, o) :: r in Members(g.extras, o))
      && (forall o: nat, r: nat | r in Members(g.extras, o) && r !in Members(f.extras, o) ::
            Aggregated(s, aggregate) && s.reblogOf == Some(o) && r == s.id)
  {
  }

  /** A setting that was never made counts as on. */
  lemma UnsetAggregates(f: Feed, s: Status)
    ensures Add(f, s, None) == Add(f, s, Some(true)) && Remove(f, s, None) == Remove(f, s, Some(true))
  {
  }

  /** A removal answers whether it took the status out.  It leaves every other original alone; of its
      own it takes the status off the extras, or all of them if it is the original itself. */
  lemma RemoveKeepsRest(f: Feed, s: Status, aggregate: Option<bool>)
    ensures var (g, removed) := Remove(f, s, aggregate);
      && (removed <==> s.id in f.timeline) && s.id !in g.timeline && f.timeline - {s.id} <= g.timeline
      && (forall o | s.reblogOf != Some(o) && s.id != o ::
            Members(g.extras, o) == Members(f.extras, o) && (o in g.tracker <==> o in f.tracker) &&
            (o in f.tracker ==> g.tracker[o] == f.tracker[o]))
      && (if s.reblogOf.Some? && Aggregates(aggregate) then
            var o := s.reblogOf.value;
            if removed then Members(g.extras, o) == Members(f.extras, o) - {s.id} else g == f
          else Members(g.extras, s.id) == {} && s.id !in g.tracker)
  {
    if s.reblogOf.Some? {
      var o := s.reblogOf.value;
      assert Members(SRem(f.extras, o, s.id), o) == Members(f.extras, o) - {s.id};
    }
  }

  // ----- What a trim leaves

  /** How many entries are as new as `x` or newer. */
  function NotOlderThan(timeline: set<nat>, x: nat): set<nat> {
    set y | y in timeline && x <= y
  }

  /** Whatever state the tracker is in: a trim stops tracking exactly the originals whose reblog
      has more than forty entries as new as itself, and drops their extras. */
  lemma TrimTracksIff(f: Feed)
    ensures var g := Trim(f);
      && (forall o :: o in g.tracker <==> o in f.tracker && |NotOlderThan(f.timeline, f.tracker[o])| <= REBLOG_FALLOFF)
      && (forall o | o in g.tracker :: g.tracker[o] == f.tracker[o] && Members(g.extras, o) == Members(f.extras, o))
      && (forall o | o in f.tracker && o !in g.tracker :: Members(g.extras, o) == {})
  {
    var kept := Newest(f.timeline, MAX_ITEMS);
    NewestSize(f.timeline, MAX_ITEMS);
    forall x ensures |NotOlderThan(f.timeline, x)| <= REBLOG_FALLOFF
      <==> |kept| <= REBLOG_FALLOFF || AtRevRank(kept, REBLOG_FALLOFF) < x
    {
      if |kept| <= REBLOG_FALLOFF {
        SubsetSize(kept, f.timeline);
        SubsetSize(NotOlderThan(f.timeline, x), f.timeline);
      } else {
        FallsOffIff(f.timeline, kept, x);
      }
    }
  }

  lemma FallsOffIff(timeline: set<nat>, kept: set<nat>, x: nat)
    requires kept == Newest(timeline, MAX_ITEMS) && REBLOG_FALLOFF < |kept|
    ensures |NotOlderThan(timeline, x)| <= REBLOG_FALLOFF <==> AtRevRank(kept, REBLOG_FALLOFF) < x
  {
    var y := AtRevRank(kept, REBLOG_FALLOFF);
    var first := NotOlderThan(timeline, y);
    NewestSize(timeline, MAX_ITEMS);
    assert first == Above(kept, y) + {y};
    assert |first| == REBLOG_FALLOFF + 1;
    if y < x {
      SubsetSize(NotOlderThan(timeline, x) + {y}, first);
    } else {
      SubsetSize(first, NotOlderThan(timeline, x));
    }
  }

  /** An aggregated reblog of `o` that is not put in although `o` itself is not near the top. */
  predicate BecomesExtra(f: Feed, s: Status, aggregate: Option<bool>, o: nat) {
    Aggregated(s, aggregate) && s.reblogOf == Some(o) && o in f.tracker && !InFirst(f.timeline, o, REBLOG_FALLOFF)
  }

  /** A push that puts something in trims; one that does not changes only the extras. */
  lemma PushTrims(f: Feed, s: Status, aggregate: Option<bool>, status: nat -> Status)
    requires WellFormed(status) && TrackerSound(f, status) && s == status(s.id)
    ensures var (g, pushed) := Push(f, s, aggregate);
      && (pushed <==> Inserts(f, s, aggregate))
      && g.timeline == (if pushed then Newest(f.timeline + {s.id}, MAX_ITEMS) else f.timeline)
      && (if pushed then forall o | o in g.tracker :: InFirst(g.timeline, g.tracker[o], REBLOG_FALLOFF)
          else g.tracker == f.tracker && forall o: nat, r: nat ::
            r in Members(g.extras, o) <==> r in Members(f.extras, o) || (r == s.id && BecomesExtra(f, s, aggregate, o)))
  {
    var g := Add(f, s, aggregate).0;
    AddRepresents(f, s, aggregate, status);
    if Add(f, s, aggregate).1 {
      StepKeepsShownIff(f, AddOp(s, aggregate), status);
      hide Add;
      TrimWindow(g, status);
    }
  }

  lemma InjectiveSize(m: map<nat, nat>, range: set<nat>)
    requires forall k | k in m :: m[k] in range
    requires forall j, k | j in m && k in m && m[j] == m[k] :: j == k
    ensures |m| <= |range|
    decreases |m|
  {
    if m != map[] {
      var k :| k in m;
      InjectiveSize(m - {k}, range - {m[k]});
      assert m.Keys == (m - {k}).Keys + {k};
      assert |m.Keys| == |m| && |(m - {k}).Keys| == |m - {k}|;
    }
  }

  /** Exactly the originals whose shown reblog is near the top stay tracked, with their extras. */
  lemma TrimKeepsTopTracking(f: Feed)
    requires Shown(f)
    ensures var g := Trim(f);
      && (forall o :: o in g.tracker <==> o in f.tracker && InFirst(f.timeline, f.tracker[o], REBLOG_FALLOFF))
      && (forall o | o in g.tracker :: g.tracker[o] == f.tracker[o] && Members(g.extras, o) == Members(f.extras, o))
  {
    var kept := Newest(f.timeline, MAX_ITEMS);
    NewestSize(f.timeline, MAX_ITEMS);
    TopSurvives(f.timeline);
    if |kept| <= REBLOG_FALLOFF {
      SubsetSize(kept, f.timeline);
      forall x | x in kept ensures InFirst(kept, x, REBLOG_FALLOFF) { RankBelowSize(kept, x); }
    }
  }

  /** After a trim the timeline is the newest `MAX_ITEMS` of what it was, every tracked reblog is
      within its first `REBLOG_FALLOFF` ranks, and at most that many originals are tracked. */
  lemma TrimWindow(f: Feed, status: nat -> Status)
    requires WellFormed(status) && TrackerSound(f, status)
    ensures var g := Trim(f);
      && g.timeline == Newest(f.timeline, MAX_ITEMS)
      && |g.timeline| == (if |f.timeline| < MAX_ITEMS then |f.timeline| else MAX_ITEMS)
      && (forall o | o in g.tracker :: InFirst(g.timeline, g.tracker[o], REBLOG_FALLOFF))
      && |g.tracker| <= REBLOG_FALLOFF
  {
    var g := Trim(f);
    assert g.timeline == Newest(f.timeline, MAX_ITEMS);
    TrimKeepsTopTracking(f);
    TopSurvives(f.timeline);
    NewestSize(f.timeline, MAX_ITEMS);
    hide Trim;
    NewestSize(g.timeline, REBLOG_FALLOFF);
    forall o | o in g.tracker ensures g.tracker[o] in Newest(g.timeline, REBLOG_FALLOFF) {
      assert InFirst(g.timeline, g.tracker[o], REBLOG_FALLOFF);
    }
    InjectiveSize(g.tracker, Newest(g.timeline, REBLOG_FALLOFF));
  }

  /** Cutting the timeline down to size does not touch its first ranks. */
  lemma TopSurvives(timeline: set<nat>)
    ensures forall x ::
      InFirst(Newest(timeline, MAX_ITEMS), x, REBLOG_FALLOFF) <==> InFirst(timeline, x, REBLOG_FALLOFF)
  {
    NewestTwice(timeline, MAX_ITEMS, REBLOG_FALLOFF);
    forall x
      ensures InFirst(Newest(timeline, MAX_ITEMS), x, REBLOG_FALLOFF) <==> InFirst(timeline, x, REBLOG_FALLOFF)
    {
      assert InFirst(timeline, x, REBLOG_FALLOFF) <==> x in Newest(timeline, REBLOG_FALLOFF);
      assert InFirst(Newest(timeline, MAX_ITEMS), x, REBLOG_FALLOFF)
        <==> x in Newest(Newest(timeline, MAX_ITEMS), REBLOG_FALLOFF);
    }
  }

  // ----- Deduplication near the top

  predicate AnswerReblog(id: nat, status: nat -> Status) {
    status(id).reblogOf.Some? && status(id).kronkAnswer
  }

  ghost predicate Deduplicated(f: Feed, status: nat -> Status) {
    forall x, y | InFirst(f.timeline, x, REBLOG_FALLOFF) && InFirst(f.timeline, y, REBLOG_FALLOFF)
      && !AnswerReblog(x, status) && !AnswerReblog(y, status) && x != y :: Root(x, status) != Root(y, status)
  }

  /** Every reblog near the top is the tracked one for its original, tracked originals
      are not themselves near the top, and only originals are tracked. */
  ghost predicate TopTracked(f: Feed, status: nat -> Status) {
    && (forall r | InFirst(f.timeline, r, REBLOG_FALLOFF) && status(r).reblogOf.Some? && !AnswerReblog(r, status) ::
          Root(r, status) in f.tracker && f.tracker[Root(r, status)] == r)
    && (forall o | o in f.tracker :: status(o).reblogOf.None? && !InFirst(f.timeline, o, REBLOG_FALLOFF))
  }

  lemma TopTrackedDeduplicates(f: Feed, status: nat -> Status)
    requires TopTracked(f, status)
    ensures Deduplicated(f, status)
  {
  }

  lemma AddKeepsTopTracked(f: Feed, s: Status, aggregate: Option<bool>, status: nat -> Status)
    requires WellFormed(status) && TopTracked(f, status)
    requires s == status(s.id) && Aggregates(aggregate)
    ensures TopTracked(Add(f, s, aggregate).0, status)
  {
    var g := Add(f, s, aggregate).0;
    forall x | InFirst(g.timeline, x, REBLOG_FALLOFF) && x != s.id
      ensures InFirst(f.timeline, x, REBLOG_FALLOFF)
    {
      RankGrowsWithSet(f.timeline, g.timeline, x);
    }
    if s.id in g.timeline && s.id in f.timeline {
      assert g.timeline == f.timeline;
    }
  }

  lemma TrimKeepsTopTracked(f: Feed, status: nat -> Status)
    requires TopTracked(f, status)
    ensures TopTracked(Trim(f), status)
  {
    TopSurvives(f.timeline);
    var kept := Newest(f.timeline, MAX_ITEMS);
    if REBLOG_FALLOFF < |kept| {
      var falloff := AtRevRank(kept, REBLOG_FALLOFF);
    }
  }

  lemma StepKeepsTopTracked(f: Feed, op: Op, status: nat -> Status)
    requires WellFormed(status) && TopTracked(f, status)
    requires Filed(op, status) && Aggregating(op) && !op.RemoveOp?
    ensures TopTracked(Step(f, op), status)
  {
    match op
    case AddOp(s, aggregate) => AddKeepsTopTracked(f, s, aggregate, status);
    case TrimOp => TrimKeepsTopTracked(f, status);
    case CleanOp =>
  }

  /** In every run of aggregating adds and trims, however they alternate, no post stands
      twice in the first `REBLOG_FALLOFF` ranks, as itself or through reblogs. */
  lemma {:induction false} NoDuplicatesNearTheTopEver(f: Feed, ops: seq<Op>, status: nat -> Status)
    requires WellFormed(status) && TopTracked(f, status)
    requires AggregatingRun(ops, status) && forall op | op in ops :: !op.RemoveOp?
    ensures TopTracked(Run(f, ops), status) && Deduplicated(Run(f, ops), status)
    decreases |ops|
  {
    if ops == [] {
      TopTrackedDeduplicates(f, status);
    } else {
      assert ops[0] in ops;
      StepKeepsTopTracked(f, ops[0], status);
      NoDuplicatesNearTheTopEver(Step(f, ops[0]), ops[1..], status);
    }
  }
}
