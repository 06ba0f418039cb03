/** The calls the rest of the application makes on a home feed, as runs of the
    primitive operations. */
module FeedCalls {
  import opened Options
  import opened SortedSets
  import opened FeedManager
  import opened FeedRuns
  import opened FeedPopulate

  /** Calls for an owner who has signed in recently; pushing and merging do nothing for others. */
  datatype Call =
    | PushCall(s: Status, aggregate: Option<bool>)
    | UnpushCall(s: Status, aggregate: Option<bool>)
    | MergeCall(posts: set<nat>, w: World)
    | UnmergeCall(kept: set<nat>, account: nat, w: World)
    | PrecomputeCall(skipFilled: bool, own: set<nat>, sources: seq<Source>, w: World)
    | CleanCall

  /** `PrecomputeFeedService`: rebuilding, unless filled feeds are to be skipped and this is one. */
  function Precompute(f: Feed, skipFilled: bool, own: set<nat>, sources: seq<Source>, w: World): Feed {
    if skipFilled && |f.timeline| * 2 > MAX_ITEMS then f else Populate(f, own, sources, w)
  }

  function Do(f: Feed, call: Call): Feed {
    match call
    case PushCall(s, aggregate) => Push(f, s, aggregate).0
    case UnpushCall(s, aggregate) => Remove(f, s, aggregate).0
    case MergeCall(posts, w) => Merge(f, posts, w)
    case UnmergeCall(kept, account, w) => Unmerge(f, kept, account, w)
    case PrecomputeCall(skipFilled, own, sources, w) => Precompute(f, skipFilled, own, sources, w)
    case CleanCall => Clean(f, false)
  }

  function DoAll(f: Feed, calls: seq<Call>): Feed
    decreases |calls|
  {
    if calls == [] then f else DoAll(Do(f, calls[0]), calls[1..])
  }

  // ----- Each call is a run

  lemma {:induction false} RunConcat(f: Feed, a: seq<Op>, b: seq<Op>)
    ensures Run(f, a + b) == Run(Run(f, a), b)
    decreases |a|
  {
    if a == [] {
      assert a + b == b;
    } else {
      assert (a + b)[0] == a[0] && (a + b)[1..] == a[1..] + b;
      RunConcat(Step(f, a[0]), a[1..], b);
    }
  }

  /** The call's rows come from `status`. */
  ghost predicate FiledCall(call: Call, status: nat -> Status) {
    match call
    case PushCall(s, _) => s == status(s.id)
    case UnpushCall(s, _) => s == status(s.id)
    case MergeCall(_, w) => w.status == status
    case UnmergeCall(_, _, w) => w.status == status
    case PrecomputeCall(_, _, _, w) => w.status == status
    case CleanCall => true
  }

  /** The owner's aggregation setting at the time of the call. */
  function Setting(call: Call): Option<bool> {
    match call
    case PushCall(_, aggregate) => aggregate
    case UnpushCall(_, aggregate) => aggregate
    case MergeCall(_, w) => w.aggregate
    case UnmergeCall(_, _, w) => w.aggregate
    case PrecomputeCall(_, _, _, w) => w.aggregate
    case CleanCall => None
  }

  /** `ops` run from `f` to `g`, with rows of `w`, in the role of adds and trims only. */
  ghost predicate Adding(f: Feed, ops: seq<Op>, g: Feed, w: World) {
    && Run(f, ops) == g
    && forall op | op in ops ::
         op.TrimOp? || (op.AddOp? && op.aggregate == w.aggregate && exists i :: op.s == w.status(i))
  }

  lemma AddingConcat(f: Feed, a: seq<Op>, g: Feed, b: seq<Op>, h: Feed, w: World)
    requires Adding(f, a, g, w) && Adding(g, b, h, w)
    ensures Adding(f, a + b, h, w)
  {
    RunConcat(f, a, b);
  }

  lemma TrimIsAdding(f: Feed, w: World)
    ensures Adding(f, [TrimOp], Trim(f), w)
  {
    assert [TrimOp][1..] == [];
    assert Run(f, [TrimOp]) == Run(Trim(f), []);
  }

  lemma {:induction false} AddAllIsRun(f: Feed, ids: seq<nat>, w: World) returns (ops: seq<Op>)
    ensures Adding(f, ops, AddAll(f, ids, w), w)
    decreases |ids|
  {
    if ids == [] {
      ops := [];
    } else if w.eligible(ids[0]) {
      var op := AddOp(w.status(ids[0]), w.aggregate);
      var rest := AddAllIsRun(Add(f, op.s, op.aggregate).0, ids[1..], w);
      ops := [op] + rest;
    } else {
      ops := AddAllIsRun(f, ids[1..], w);
    }
  }

  lemma AddAllTrimIsRun(f: Feed, ids: seq<nat>, w: World) returns (ops: seq<Op>)
    ensures Adding(f, ops, Trim(AddAll(f, ids, w)), w)
  {
    var adds := AddAllIsRun(f, ids, w);
    TrimIsAdding(AddAll(f, ids, w), w);
    AddingConcat(f, adds, AddAll(f, ids, w), [TrimOp], Trim(AddAll(f, ids, w)), w);
    ops := adds + [TrimOp];
  }

  lemma PopulateStepIsRun(f: Feed, over: bool, source: Source, w: World) returns (ops: seq<Op>)
    requires over ==> f.timeline != {}
    ensures Adding(f, ops, PopulateStep(f, over, source, w), w)
  {
    ops := [];
    if !(over && source.LastStatusScore() < Min(f.timeline)) {
      var wanted := if over then NotOlder(source.posts, Min(f.timeline)) else source.posts;
      if wanted != {} {
        ops := AddAllTrimIsRun(f, Descending(Newest(wanted, POPULATE_LIMIT)), w);
      }
    }
  }

  lemma {:induction false} PopulateFromIsRun(f: Feed, over: bool, sources: seq<Source>, w: World) returns (ops: seq<Op>)
    requires over ==> POPULATE_LIMIT <= |f.timeline|
    ensures Adding(f, ops, PopulateFrom(f, over, sources, w), w)
    decreases |sources|
  {
    if sources == [] {
      ops := [];
    } else {
      var over' := over || POPULATE_LIMIT <= |f.timeline|;
      PopulateStepStaysOver(f, over', sources[0], w);
      var g := PopulateStep(f, over', sources[0], w);
      var first := PopulateStepIsRun(f, over', sources[0], w);
      var rest := PopulateFromIsRun(g, over', sources[1..], w);
      AddingConcat(f, first, g, rest, PopulateFrom(g, over', sources[1..], w), w);
      ops := first + rest;
    }
  }

  lemma PopulateIsRun(f: Feed, own: set<nat>, sources: seq<Source>, w: World) returns (ops: seq<Op>)
    ensures Adding(f, ops, Populate(f, own, sources, w), w)
  {
    var g := AddAll(f, Descending(Newest(own, POPULATE_LIMIT)), w);
    var first := AddAllIsRun(f, Descending(Newest(own, POPULATE_LIMIT)), w);
    var rest := PopulateFromIsRun(g, false, sources, w);
    AddingConcat(f, first, g, rest, PopulateFrom(g, false, sources, w), w);
    ops := first + rest;
  }

  lemma {:induction false} RemoveAllIsRun(f: Feed, ids: set<nat>, w: World) returns (ops: seq<Op>)
    ensures Run(f, ops) == RemoveAll(f, ids, w)
    ensures forall op | op in ops :: op.RemoveOp? && op.aggregate == w.aggregate && exists i :: op.s == w.status(i)
    decreases |ids|
  {
    if ids == {} {
      ops := [];
    } else {
      var op := RemoveOp(w.status(Min(ids)), w.aggregate);
      var rest := RemoveAllIsRun(Remove(f, op.s, op.aggregate).0, ids - {Min(ids)}, w);
      ops := [op] + rest;
    }
  }

  /** Removals happen only in the calls that unpush or unmerge. */
  predicate Removing(call: Call) {
    call.UnpushCall? || call.UnmergeCall?
  }

  /** Every call is a run of the primitive operations with its own setting. */
  lemma CallIsRun(f: Feed, call: Call, status: nat -> Status) returns (ops: seq<Op>)
    requires WellFormed(status) && FiledCall(call, status)
    ensures Run(f, ops) == Do(f, call) && forall op | op in ops :: Filed(op, status)
    ensures forall op | op in ops && (op.AddOp? || op.RemoveOp?) :: op.aggregate == Setting(call)
    ensures !Removing(call) ==> forall op | op in ops :: !op.RemoveOp?
  {
    match call {
      case PushCall(s, aggregate) =>
        ops := if Add(f, s, aggregate).1 then [AddOp(s, aggregate), TrimOp] else [AddOp(s, aggregate)];
        assert ops[1..] == if Add(f, s, aggregate).1 then [TrimOp] else [];
        assert [TrimOp][1..] == [];
      case UnpushCall(s, aggregate) =>
        ops := [RemoveOp(s, aggregate)];
        assert ops[1..] == [];
      case MergeCall(posts, w) =>
        ops := AddAllTrimIsRun(f, Descending(Newest(Mergeable(f, posts), MERGE_LIMIT)), w);
      case UnmergeCall(kept, account, w) =>
        ops := RemoveAllIsRun(f, RowsInTimeline(f, kept, account, w), w);
      case PrecomputeCall(skipFilled, own, sources, w) =>
        if Precompute(f, skipFilled, own, sources, w) == f {
          ops := [];
        } else {
          ops := PopulateIsRun(f, own, sources, w);
        }
      case CleanCall =>
        ops := [CleanOp];
        assert ops[1..] == [];
    }
  }

  /** In every sequence of calls, whatever the settings: extra sets belong to tracked originals and
      only genuine reblogs are tracked or kept.  If aggregation is on whenever something is
      removed, tracked reblogs are shown.  If it is on throughout and nothing is removed, no post
      stands twice near the top. */
  lemma {:induction false} CallsKeepFeedSound(f: Feed, calls: seq<Call>, status: nat -> Status)
    requires WellFormed(status) && NoOrphanExtras(f) && Genuine(f, status)
    requires forall c | c in calls :: FiledCall(c, status)
    ensures NoOrphanExtras(DoAll(f, calls)) && Genuine(DoAll(f, calls), status)
    ensures Shown(f) && (forall c | c in calls && Removing(c) :: Aggregates(Setting(c))) ==> Shown(DoAll(f, calls))
    ensures TopTracked(f, status) && (forall c | c in calls :: Aggregates(Setting(c)) && !Removing(c))
      ==> Deduplicated(DoAll(f, calls), status)
    decreases |calls|
  {
    if calls == [] {
      if TopTracked(f, status) { TopTrackedDeduplicates(f, status); }
    } else {
      assert calls[0] in calls;
      CallKeepsFeedSound(f, calls[0], status);
      hide NoOrphanExtras, Genuine, Shown, TopTracked, Do;
      CallsKeepFeedSound(Do(f, calls[0]), calls[1..], status);
    }
  }

  lemma CallKeepsFeedSound(f: Feed, call: Call, status: nat -> Status)
    requires WellFormed(status) && NoOrphanExtras(f) && Genuine(f, status) && FiledCall(call, status)
    ensures NoOrphanExtras(Do(f, call)) && Genuine(Do(f, call), status)
    ensures Shown(f) && (Removing(call) ==> Aggregates(Setting(call))) ==> Shown(Do(f, call))
    ensures TopTracked(f, status) && Aggregates(Setting(call)) && !Removing(call) ==> TopTracked(Do(f, call), status)
  {
    var ops := CallIsRun(f, call, status);
    NoOrphanExtrasEver(f, ops);
    GenuineEver(f, ops, status);
    if Shown(f) && (Removing(call) ==> Aggregates(Setting(call))) {
      TrackedAreShownEver(f, ops, status);
    }
    if TopTracked(f, status) && Aggregates(Setting(call)) && !Removing(call) {
      NoDuplicatesNearTheTopEver(f, ops, status);
    }
  }

  // ----- The size bound

  lemma {:induction false} AddAllSize(f: Feed, ids: seq<nat>, w: World)
    ensures |AddAll(f, ids, w).timeline| <= |f.timeline| + |ids|
    decreases |ids|
  {
    if ids != [] {
      AddAllSize(if w.eligible(ids[0]) then Add(f, w.status(ids[0]), w.aggregate).0 else f, ids[1..], w);
    }
  }

  lemma RemoveSize(f: Feed, s: Status, aggregate: Option<bool>)
    ensures |Remove(f, s, aggregate).0.timeline| <= |f.timeline|
  {
    var g := Remove(f, s, aggregate).0;
    var entered := g.timeline - f.timeline;
    if entered == {} {
      assert g.timeline == g.timeline * f.timeline + entered;
      SubsetSize(g.timeline, f.timeline);
    } else {
      var m :| m in entered;
      assert g.timeline == (f.timeline - {s.id}) + {m};
    }
  }

  lemma {:induction false} RemoveAllSize(f: Feed, ids: set<nat>, w: World)
    ensures |RemoveAll(f, ids, w).timeline| <= |f.timeline|
    decreases |ids|
  {
    if ids != {} {
      RemoveSize(f, w.status(Min(ids)), w.aggregate);
      RemoveAllSize(Remove(f, w.status(Min(ids)), w.aggregate).0, ids - {Min(ids)}, w);
    }
  }

  lemma {:induction false} PopulateFromSize(f: Feed, over: bool, sources: seq<Source>, w: World)
    requires |f.timeline| <= MAX_ITEMS && (over ==> POPULATE_LIMIT <= |f.timeline|)
    ensures |PopulateFrom(f, over, sources, w).timeline| <= MAX_ITEMS
    decreases |sources|
  {
    if sources != [] {
      var over' := over || POPULATE_LIMIT <= |f.timeline|;
      PopulateStepStaysOver(f, over', sources[0], w);
      var g := PopulateStep(f, over', sources[0], w);
      if g != f {
        var wanted := if over' then NotOlder(sources[0].posts, Min(f.timeline)) else sources[0].posts;
        NewestSize(AddAll(f, Descending(Newest(wanted, POPULATE_LIMIT)), w).timeline, MAX_ITEMS);
      }
      PopulateFromSize(g, over', sources[1..], w);
    }
  }

  lemma PopulateSize(f: Feed, own: set<nat>, sources: seq<Source>, w: World)
    requires |f.timeline| <= POPULATE_LIMIT
    ensures |Populate(f, own, sources, w).timeline| <= MAX_ITEMS
  {
    hide AddAll, PopulateFrom;
    var ids := Descending(Newest(own, POPULATE_LIMIT));
    DescendingLists(Newest(own, POPULATE_LIMIT));
    NewestSize(own, POPULATE_LIMIT);
    AddAllSize(f, ids, w);
    PopulateFromSize(AddAll(f, ids, w), false, sources, w);
  }

  lemma TrimSize(f: Feed)
    ensures |Trim(f).timeline| <= MAX_ITEMS
  {
    NewestSize(f.timeline, MAX_ITEMS);
  }

  /** Whether a rebuild is safe for the bound: `populate_home` trims after the followed
      accounts' posts, not after the owner's. */
  predicate RebuildFits(f: Feed, call: Call) {
    call.PrecomputeCall? ==> call.skipFilled || |f.timeline| <= POPULATE_LIMIT
  }

  lemma CallKeepsBound(f: Feed, call: Call)
    requires |f.timeline| <= MAX_ITEMS && RebuildFits(f, call)
    ensures |Do(f, call).timeline| <= MAX_ITEMS
  {
    hide Add, Remove, RemoveAll, AddAll, Trim, Populate;
    match call {
      case PushCall(s, aggregate) => TrimSize(Add(f, s, aggregate).0); AddSize(f, s, aggregate);
      case UnpushCall(s, aggregate) => RemoveSize(f, s, aggregate);
      case MergeCall(posts, w) =>
        TrimSize(AddAll(f, Descending(Newest(Mergeable(f, posts), MERGE_LIMIT)), w));
      case UnmergeCall(kept, account, w) => RemoveAllSize(f, RowsInTimeline(f, kept, account, w), w);
      case PrecomputeCall(skipFilled, own, sources, w) =>
        if |f.timeline| * 2 <= MAX_ITEMS { PopulateSize(f, own, sources, w); }
      case CleanCall =>
    }
  }

  lemma AddSize(f: Feed, s: Status, aggregate: Option<bool>)
    ensures !Add(f, s, aggregate).1 ==> Add(f, s, aggregate).0.timeline == f.timeline
  {
  }

  predicate EachRebuildFits(f: Feed, calls: seq<Call>)
    decreases |calls|
  {
    calls == [] || (RebuildFits(f, calls[0]) && EachRebuildFits(Do(f, calls[0]), calls[1..]))
  }

  /** No sequence of calls takes the feed above `MAX_ITEMS` while every rebuild either skips
      filled feeds or finds the feed at most half full. */
  lemma {:induction false} CallsKeepBound(f: Feed, calls: seq<Call>)
    requires |f.timeline| <= MAX_ITEMS && EachRebuildFits(f, calls)
    ensures |DoAll(f, calls).timeline| <= MAX_ITEMS
    decreases |calls|
  {
    if calls != [] {
      CallKeepsBound(f, calls[0]);
      hide Do;
      CallsKeepBound(Do(f, calls[0]), calls[1..]);
    }
  }

  /** And that is exactly when a rebuild is sure to fit: a fuller feed, and an owner with 400
      new posts, overflow it. */
  lemma EveryRebuildFitsIff(f: Feed, skipFilled: bool)
    requires |f.timeline| <= MAX_ITEMS
    ensures (forall own, sources, w :: |Precompute(f, skipFilled, own, sources, w).timeline| <= MAX_ITEMS)
      <==> skipFilled || |f.timeline| <= POPULATE_LIMIT
  {
    if skipFilled || |f.timeline| <= POPULATE_LIMIT {
      forall own, sources, w ensures |Precompute(f, skipFilled, own, sources, w).timeline| <= MAX_ITEMS {
        CallKeepsBound(f, PrecomputeCall(skipFilled, own, sources, w));
      }
    } else {
      var own, w := Overflow(f);
      assert |Precompute(f, skipFilled, own, [], w).timeline| > MAX_ITEMS;
    }
  }

  /** Exactly the feeds that are more than half full are passed over when that is asked for. */
  lemma PrecomputeSkips(f: Feed, skipFilled: bool, own: set<nat>, sources: seq<Source>, w: World)
    ensures Precompute(f, skipFilled, own, sources, w)
      == if skipFilled && POPULATE_LIMIT < |f.timeline| then f else Populate(f, own, sources, w)
  {
  }

  lemma Overflow(f: Feed) returns (own: set<nat>, w: World)
    requires POPULATE_LIMIT < |f.timeline|
    ensures |Populate(f, own, [], w).timeline| > MAX_ITEMS
  {
    own := NewIds(f.timeline + f.tracker.Keys);
    w := EverythingPlain();
    assert Insertable(f, own, w);
    hide Populate;
    PopulateOwn(f, own, w);
    assert |f.timeline + own| == |f.timeline| + |own|;
  }

  lemma EverythingPlain() returns (w: World)
    ensures WellFormed(w.status) && forall p :: w.eligible(p) && Plain(w.status(p), w.aggregate)
  {
    w := World((id: nat) => Status(id, 0, None, false), (id: nat) => true, None);
  }

  lemma PopulateOwn(f: Feed, own: set<nat>, w: World)
    requires |own| == POPULATE_LIMIT && WellFormed(w.status) && Insertable(f, own, w)
    requires forall p | p in own :: w.eligible(p)
    ensures Populate(f, own, [], w).timeline == f.timeline + own
  {
    hide AddAll, PopulateFrom, Newest;
    AddNewestPlain(f, own, w);
    AllOffered(own, w);
    PopulateFromNobody(f.(timeline := f.timeline + own), w);
  }

  lemma NewIds(used: set<nat>) returns (ids: set<nat>)
    requires used != {}
    ensures |ids| == POPULATE_LIMIT && forall i | i in ids :: i !in used
  {
    ids := Consecutive(Max(used) + 1, POPULATE_LIMIT);
  }

  lemma AllOffered(own: set<nat>, w: World)
    requires |own| == POPULATE_LIMIT && forall p | p in own :: w.eligible(p)
    ensures EligibleOf(own, w) == own
  {
    NewestSize(own, POPULATE_LIMIT);
    SubsetSize(Newest(own, POPULATE_LIMIT), own);
  }

  lemma PopulateFromNobody(f: Feed, w: World)
    ensures PopulateFrom(f, false, [], w) == f
  {
  }
}
