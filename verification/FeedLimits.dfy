/** What removals from a feed do not guarantee. */
module FeedLimits {
  import opened Options
  import opened SortedSets
  import opened FeedManager
  import opened FeedRuns
  import opened FeedCalls
  import opened FeedPopulate

  /** A removed reblog is forgotten exactly when it was shown or was not kept as an extra:
      the removal of one that only waits in the extra set stops before touching the set. */
  lemma RemovalForgets(f: Feed, s: Status, aggregate: Option<bool>)
    requires s.reblogOf.Some? && Aggregates(aggregate)
    ensures var o := s.reblogOf.value; var g := Remove(f, s, aggregate).0;
      (s.id !in g.timeline && s.id !in Members(g.extras, o)) <==> (s.id in f.timeline || s.id !in Members(f.extras, o))
  {
    var o := s.reblogOf.value;
    if s.id in f.timeline {
      assert s.id !in Members(SRem(f.extras, o, s.id), o);
    }
  }

  /** The feed holds nothing of a status, neither shown nor kept as an extra. */
  ghost predicate Forgotten(f: Feed, x: nat) {
    x !in f.timeline && forall o | o in f.extras :: x !in f.extras[o]
  }

  predicate Adds(op: Op, x: nat) {
    op.AddOp? && op.s.id == x
  }

  lemma ForgottenStep(f: Feed, op: Op, x: nat)
    requires Forgotten(f, x) && !Adds(op, x)
    ensures Forgotten(Step(f, op), x)
  {
  }

  /** What the feed has forgotten stays out of it until it is added again. */
  lemma {:induction false} ForgottenForGood(f: Feed, ops: seq<Op>, x: nat)
    requires Forgotten(f, x) && forall op | op in ops :: !Adds(op, x)
    ensures Forgotten(Run(f, ops), x)
    decreases |ops|
  {
    if ops != [] {
      assert ops[0] in ops;
      ForgottenStep(f, ops[0], x);
      hide Step, Forgotten;
      ForgottenForGood(Step(f, ops[0]), ops[1..], x);
    }
  }

  /** So a run shows, and keeps, only statuses that it added. */
  lemma OnlyAddedAreShown(ops: seq<Op>, x: nat)
    requires !Forgotten(Run(EMPTY_FEED, ops), x)
    ensures exists op :: op in ops && Adds(op, x)
  {
    if forall op | op in ops :: !Adds(op, x) {
      ForgottenForGood(EMPTY_FEED, ops, x);
    }
  }

  /** A run that shows a status without adding it. */
  ghost predicate BringsBack(f: Feed, ops: seq<Op>, x: nat, status: nat -> Status) {
    && (forall op | op in ops :: Filed(op, status) && !Adds(op, x))
    && x in Run(f, ops).timeline
  }

  /** Removing what is shown in its place, again and again, brings an extra reblog up. */
  lemma {:induction false} Resurface(f: Feed, o: nat, x: nat, status: nat -> Status) returns (ops: seq<Op>)
    requires WellFormed(status) && TrackerSound(f, status) && NoOrphanExtras(f)
    requires o in f.extras && x in f.extras[o]
    ensures BringsBack(f, ops, x, status)
    decreases |f.extras[o] - {f.tracker[o]}|
  {
    var shown := f.tracker[o];
    if x == shown {
      ops := [];
    } else {
      var op := RemoveOp(status(shown), Some(true));
      var g := Step(f, op);
      var others := f.extras[o] - {shown};
      ShownMakesWay(f, o, shown, others, op.s);
      StepKeepsShownIff(f, op, status);
      StepKeepsNoOrphans(f, op);
      hide Step, Genuine, Shown, NoOrphanExtras;
      assert Min(others) in others;
      assert |others - {Min(others)}| < |others|;
      var rest := Resurface(g, o, x, status);
      ops := [op] + rest;
    }
  }

  /** The oldest of the others takes the place of the one that is removed. */
  lemma ShownMakesWay(f: Feed, o: nat, shown: nat, others: set<nat>, s: Status)
    requires s.id == shown && s.reblogOf == Some(o) && shown in f.timeline
    requires others == Members(f.extras, o) - {shown} && others != {}
    ensures var g := Remove(f, s, Some(true)).0;
      o in g.extras && g.extras[o] == others && o in g.tracker && g.tracker[o] == Min(others)
  {
    assert Members(SRem(f.extras, o, shown), o) == others;
  }

  /** A removed reblog can come back without being added again if and only if it was not shown
      but kept as an extra. */
  lemma RemovedCanComeBackIff(f: Feed, s: Status, aggregate: Option<bool>, status: nat -> Status)
    requires WellFormed(status) && TrackerSound(f, status) && NoOrphanExtras(f)
    requires s == status(s.id) && s.reblogOf.Some? && Aggregates(aggregate)
    ensures (exists ops :: BringsBack(Remove(f, s, aggregate).0, ops, s.id, status))
      <==> s.id !in f.timeline && s.id in Members(f.extras, s.reblogOf.value)
  {
    var o, g := s.reblogOf.value, Remove(f, s, aggregate).0;
    if s.id !in f.timeline && s.id in Members(f.extras, o) {
      assert g == f;
      var ops := Resurface(f, o, s.id, status);
    } else {
      RemovalForgets(f, s, aggregate);
      RemoveKeepsGenuine(f, s, aggregate, status);
      assert Forgotten(g, s.id);
      forall ops | BringsBack(g, ops, s.id, status) ensures false { ForgottenForGood(g, ops, s.id); }
    }
  }

  /** A run in which one does: a deleted reblog comes up when the one shown is deleted too. */
  lemma DeletedReblogResurfaces(shown: Status, extra: Status, o: nat)
    requires shown.id != extra.id && shown.id != o && shown.reblogOf == extra.reblogOf == Some(o)
    requires !shown.kronkAnswer && !extra.kronkAnswer
    ensures var on := Some(true);
      var calls := [PushCall(shown, on), PushCall(extra, on), UnpushCall(extra, on), UnpushCall(shown, on)];
      DoAll(EMPTY_FEED, calls).timeline == {extra.id}
  {
    var on := Some(true);
    DoFour(EMPTY_FEED, PushCall(shown, on), PushCall(extra, on), UnpushCall(extra, on), UnpushCall(shown, on));
    hide DoAll;
    var f1 := Feed({shown.id}, map[o := shown.id], map[]);
    var f2 := f1.(extras := map[o := {extra.id}]);
    PushOnto(EMPTY_FEED, shown, f1);
    assert Do(f1, PushCall(extra, on)) == f2;
    assert Do(f2, UnpushCall(extra, on)) == f2;
    assert Remove(f2, shown, on).0.timeline == {extra.id} by {
      assert Members(SRem(f2.extras, o, shown.id), o) == {extra.id};
      assert {shown.id} + {extra.id} - {shown.id} == {extra.id};
    }
  }

  /** Pushing the first reblog onto an empty feed. */
  lemma PushOnto(f: Feed, s: Status, g: Feed)
    requires f == EMPTY_FEED && s.reblogOf.Some? && !s.kronkAnswer
    requires g == Feed({s.id}, map[s.reblogOf.value := s.id], map[])
    ensures Push(f, s, Some(true)).0 == g
  {
    SmallTrim({s.id});
    assert {} + {s.id} == {s.id};
  }

  lemma SmallTrim(timeline: set<nat>)
    requires |timeline| <= REBLOG_FALLOFF
    ensures Newest(timeline, MAX_ITEMS) == timeline
  {
    NewestSize(timeline, MAX_ITEMS);
    SubsetSize(Newest(timeline, MAX_ITEMS), timeline);
  }

  lemma PlainFeed(ids: seq<nat>, posts: set<nat>, w: World)
    requires WellFormed(w.status) && AllPlain(posts, w) && forall p | p in posts :: w.eligible(p)
    requires forall p :: p in ids <==> p in posts
    ensures AddAll(EMPTY_FEED, ids, w) == Feed(posts, map[], map[])
  {
    AddAllPlain(EMPTY_FEED, ids, w);
    assert {} + (set p | p in ids && w.eligible(p)) == posts;
  }

  lemma MergeFillsEmptyFeed(posts: set<nat>, w: World)
    requires WellFormed(w.status) && |posts| <= REBLOG_FALLOFF && AllPlain(posts, w)
    requires forall p | p in posts :: w.eligible(p)
    ensures Merge(EMPTY_FEED, posts, w) == Feed(posts, map[], map[])
  {
    NewestSize(posts, MERGE_LIMIT);
    SubsetSize(Newest(posts, MERGE_LIMIT), posts);
    var ids := Descending(Newest(posts, MERGE_LIMIT));
    DescendingLists(Newest(posts, MERGE_LIMIT));
    PlainFeed(ids, posts, w);
    SmallTrim(posts);
  }

  /** A late reblog, older than forty posts, falls straight out of the tracker. */
  lemma LateReblogIsUntracked(posts: set<nat>, s: Status, o: nat)
    requires |posts| == REBLOG_FALLOFF && forall p | p in posts :: s.id < p
    requires s.reblogOf == Some(o) && !s.kronkAnswer && o !in posts
    ensures Push(Feed(posts, map[], map[]), s, Some(true)).0 == Feed(posts + {s.id}, map[], map[])
  {
    var all := posts + {s.id};
    NewestSize(all, MAX_ITEMS);
    SubsetSize(Newest(all, MAX_ITEMS), all);
    assert Above(all, s.id) == posts;
    RankDecidesMember(all, AtRevRank(all, REBLOG_FALLOFF), s.id);
    assert FallenOff(map[o := s.id], s.id) == {o};
    var none: map<nat, set<nat>> := map[];
    assert none - {o} == none && map[o := s.id] - {o} == map[];
  }

  lemma TrimKeepsTrackedNewest(all: set<nat>, o: nat, r: nat)
    requires r in all && (forall x | x in all :: x <= r) && |all| <= MAX_ITEMS
    ensures Trim(Feed(all, map[o := r], map[])) == Feed(all, map[o := r], map[])
  {
    NewestSize(all, MAX_ITEMS);
    SubsetSize(Newest(all, MAX_ITEMS), all);
    if REBLOG_FALLOFF < |all| {
      assert Above(all, r) == {};
      var falloff := AtRevRank(all, REBLOG_FALLOFF);
      assert FallenOff(map[o := r], falloff) == {};
      assert map[o := r] - {} == map[o := r];
    }
  }

  lemma PushPlainTwo(posts: set<nat>, a: nat, s: Status, o: nat)
    requires |posts| == REBLOG_FALLOFF && forall p | p in posts :: a < p < s.id
    requires s.reblogOf == Some(o) && !s.kronkAnswer && o !in posts + {a}
    ensures Push(Feed(posts + {a}, map[], map[]), s, Some(true)).0
      == Feed(posts + {a} + {s.id}, map[o := s.id], map[])
  {
    assert a < s.id by { var p :| p in posts; }
    TrimKeepsTrackedNewest(posts + {a} + {s.id}, o, s.id);
    hide Trim;
  }

  lemma RemoveTwo(f: Feed, p: Status, q: Status)
    requires p.reblogOf.None? && q.reblogOf.None?
    ensures Remove(Remove(f, p, Some(true)).0, q, Some(true)).0.timeline == f.timeline - {p.id} - {q.id}
  {
  }

  lemma DoFive(f: Feed, c0: Call, c1: Call, c2: Call, c3: Call, c4: Call)
    ensures DoAll(f, [c0, c1, c2, c3, c4]) == Do(Do(Do(Do(Do(f, c0), c1), c2), c3), c4)
  {
    assert [c0, c1, c2, c3, c4][1..] == [c1, c2, c3, c4] && [c1, c2, c3, c4][1..] == [c2, c3, c4];
    assert [c2, c3, c4][1..] == [c3, c4] && [c3, c4][1..] == [c4] && [c4][1..] == [];
    var g := Do(Do(Do(Do(f, c0), c1), c2), c3);
    assert DoAll(g, [c4]) == DoAll(Do(g, c4), []);
    assert DoAll(Do(Do(Do(f, c0), c1), c2), [c3, c4]) == DoAll(g, [c4]);
    assert DoAll(Do(Do(f, c0), c1), [c2, c3, c4]) == DoAll(Do(Do(Do(f, c0), c1), c2), [c3, c4]);
  }

  /** Removals lift such a reblog back into the first ranks, where a newer reblog of the
      same post already stands: deduplication is a property of runs without removals. */
  lemma RemovalsUncoverDuplicates(posts: set<nat>, a: nat, b: nat, o: nat, p: nat, q: nat, w: World)
    requires WellFormed(w.status) && AllPlain(posts, w) && forall x | x in posts :: w.eligible(x)
    requires |posts| == REBLOG_FALLOFF && p in posts && q in posts && p != q
    requires forall x | x in posts :: a < x < b && w.status(x).reblogOf.None?
    requires o !in posts + {a, b} && !w.status(a).kronkAnswer && !w.status(b).kronkAnswer
    requires w.status(a).reblogOf == w.status(b).reblogOf == Some(o)
    ensures var on := Some(true);
      !Deduplicated(DoAll(EMPTY_FEED, [MergeCall(posts, w), PushCall(w.status(a), on), PushCall(w.status(b), on),
                                       UnpushCall(w.status(p), on), UnpushCall(w.status(q), on)]), w.status)
  {
    var on := Some(true);
    DoFive(EMPTY_FEED, MergeCall(posts, w), PushCall(w.status(a), on), PushCall(w.status(b), on),
           UnpushCall(w.status(p), on), UnpushCall(w.status(q), on));
    MergeFillsEmptyFeed(posts, w);
    LateReblogIsUntracked(posts, w.status(a), o);
    PushPlainTwo(posts, a, w.status(b), o);
    var f3 := Feed(posts + {a} + {b}, map[o := b], map[]);
    hide DoAll, Push, Merge, Remove, Deduplicated;
    RemoveTwo(f3, w.status(p), w.status(q));
    DuplicatesInShortFeed(posts + {a} + {b} - {p} - {q}, a, b,
      Remove(Remove(f3, w.status(p), on).0, w.status(q), on).0, w.status);
  }

  lemma DuplicatesInShortFeed(timeline: set<nat>, a: nat, b: nat, f: Feed, status: nat -> Status)
    requires f.timeline == timeline && |timeline| <= REBLOG_FALLOFF && a in timeline && b in timeline && a != b
    requires status(a).reblogOf.Some? && status(a).reblogOf == status(b).reblogOf
    requires !AnswerReblog(a, status) && !AnswerReblog(b, status)
    ensures !Deduplicated(f, status)
  {
    RankBelowSize(timeline, a);
    RankBelowSize(timeline, b);
    assert InFirst(f.timeline, a, REBLOG_FALLOFF) && InFirst(f.timeline, b, REBLOG_FALLOFF);
  }

  /** A removal also uncovers duplicates to come: taking out an old, untracked reblog ends the
      tracking of the newer one shown near the top, so the next one is put in beside it. */
  lemma NextReblogStandsBeside(f: Feed, old': Status, shown: nat, next: Status, o: nat, status: nat -> Status)
    requires WellFormed(status) && old' == status(old'.id) && next == status(next.id)
    requires ReblogOf(old', o) && ReblogOf(status(shown), o) && ReblogOf(next, o)
    requires old'.id in f.timeline && old'.id != shown && Members(f.extras, o) - {old'.id} == {}
    requires InFirst(f.timeline, shown, REBLOG_FALLOFF - 1) && !InFirst(f.timeline, o, REBLOG_FALLOFF + 1)
    requires shown < next.id && next.id !in f.timeline
    ensures var g := Remove(f, old', Some(true)).0;
      Add(g, next, Some(true)).1 && !Deduplicated(Add(g, next, Some(true)).0, status)
  {
    var g := Remove(f, old', Some(true)).0;
    LastReblogUntracks(f, old', o);
    hide Remove, Deduplicated, Members, RevRank;
    AboveAfterRemoval(f.timeline, old'.id, o);
    var h := Add(g, next, Some(true)).0;
    assert h.timeline == g.timeline + {next.id} && Add(g, next, Some(true)).1;
    hide Add;
    BesideNearTop(f.timeline, old'.id, shown, next.id);
    ShownTwice(h, shown, next.id, status);
  }

  /** Removing a reblog of `o` when no extra is left ends the tracking of `o`. */
  lemma LastReblogUntracks(f: Feed, s: Status, o: nat)
    requires s.reblogOf == Some(o) && s.id in f.timeline && Members(f.extras, o) - {s.id} == {}
    ensures var g := Remove(f, s, Some(true)).0; g.timeline == f.timeline - {s.id} && o !in g.tracker
  {
    assert Members(SRem(f.extras, o, s.id), o) == Members(f.extras, o) - {s.id};
  }

  lemma AboveAfterRemoval(timeline: set<nat>, gone: nat, x: nat)
    requires !InFirst(timeline, x, REBLOG_FALLOFF + 1)
    ensures !InFirst(timeline - {gone}, x, REBLOG_FALLOFF)
  {
    SubsetSize(Above(timeline, x), Above(timeline - {gone}, x) + {gone});
  }

  lemma BesideNearTop(timeline: set<nat>, gone: nat, shown: nat, next: nat)
    requires InFirst(timeline, shown, REBLOG_FALLOFF - 1) && gone != shown && shown < next
    ensures var t := timeline - {gone} + {next}; InFirst(t, shown, REBLOG_FALLOFF) && InFirst(t, next, REBLOG_FALLOFF)
  {
    var t := timeline - {gone} + {next};
    SubsetSize(Above(t, shown), Above(timeline, shown) + {next});
    RankFallsWithId(t, shown, next);
  }

  lemma ShownTwice(f: Feed, a: nat, b: nat, status: nat -> Status)
    requires InFirst(f.timeline, a, REBLOG_FALLOFF) && InFirst(f.timeline, b, REBLOG_FALLOFF) && a != b
    requires status(a).reblogOf.Some? && status(a).reblogOf == status(b).reblogOf
    requires !AnswerReblog(a, status) && !AnswerReblog(b, status)
    ensures !Deduplicated(f, status)
  {
  }

  lemma DoFour(f: Feed, c0: Call, c1: Call, c2: Call, c3: Call)
    ensures DoAll(f, [c0, c1, c2, c3]) == Do(Do(Do(Do(f, c0), c1), c2), c3)
  {
    DoFive(f, c0, c1, c2, c3, c3);
    assert [c0, c1, c2, c3][1..] == [c1, c2, c3] && [c1, c2, c3][1..] == [c2, c3];
    assert [c2, c3][1..] == [c3] && [c3][1..] == [];
    assert DoAll(Do(Do(Do(f, c0), c1), c2), [c3]) == DoAll(Do(Do(Do(Do(f, c0), c1), c2), c3), []);
    assert DoAll(Do(Do(f, c0), c1), [c2, c3]) == DoAll(Do(Do(Do(f, c0), c1), c2), [c3]);
  }

  lemma OldReblogRemoved(posts: set<nat>, a: nat, b: nat, o: nat, w: World)
    requires WellFormed(w.status) && AllPlain(posts, w) && forall x | x in posts :: w.eligible(x)
    requires |posts| == REBLOG_FALLOFF && (forall x | x in posts :: a < x < b) && o !in posts + {a, b}
    requires ReblogOf(w.status(a), o) && ReblogOf(w.status(b), o)
    ensures var on := Some(true);
      DoAll(EMPTY_FEED, [MergeCall(posts, w), PushCall(w.status(a), on), PushCall(w.status(b), on),
                         UnpushCall(w.status(a), on)])
        == Remove(Feed(posts + {a} + {b}, map[o := b], map[]), w.status(a), on).0
  {
    var on := Some(true);
    var c0, c1 := MergeCall(posts, w), PushCall(w.status(a), on);
    var c2, c3 := PushCall(w.status(b), on), UnpushCall(w.status(a), on);
    DoFour(EMPTY_FEED, c0, c1, c2, c3);
    MergeFillsEmptyFeed(posts, w);
    LateReblogIsUntracked(posts, w.status(a), o);
    PushPlainTwo(posts, a, w.status(b), o);
    hide DoAll, Push, Merge, Remove;
    var f1, f2 := Feed(posts, map[], map[]), Feed(posts + {a}, map[], map[]);
    var f3 := Feed(posts + {a} + {b}, map[o := b], map[]);
    assert Do(EMPTY_FEED, c0) == f1 && Do(f1, c1) == f2 && Do(f2, c2) == f3;
  }

  lemma NewestIsFirst(timeline: set<nat>, x: nat)
    requires x in timeline && forall y | y in timeline :: y <= x
    ensures InFirst(timeline, x, REBLOG_FALLOFF - 1)
  {
    assert Above(timeline, x) == {};
  }

  lemma NotInFirst(timeline: set<nat>, x: nat, ranks: nat)
    requires x !in timeline
    ensures !InFirst(timeline, x, ranks)
  {
  }

  lemma AdmitsDuplicate(posts: set<nat>, a: nat, b: nat, c: nat, o: nat, status: nat -> Status)
    requires WellFormed(status) && posts != {} && (forall x | x in posts :: a < x < b) && b < c && o !in posts + {a, b}
    requires ReblogOf(status(a), o) && ReblogOf(status(b), o) && ReblogOf(status(c), o)
    ensures var g := Remove(Feed(posts + {a} + {b}, map[o := b], map[]), status(a), Some(true)).0;
      !Deduplicated(Add(g, status(c), Some(true)).0, status)
  {
    var f := Feed(posts + {a} + {b}, map[o := b], map[]);
    assert a < b by { var p :| p in posts; }
    hide Remove, Add, Deduplicated;
    NewestIsFirst(f.timeline, b);
    NotInFirst(f.timeline, o, REBLOG_FALLOFF + 1);
    NextReblogStandsBeside(f, status(a), b, status(c), o, status);
  }

  /** A run that does so, from the empty feed. */
  lemma RemovalAdmitsDuplicate(posts: set<nat>, a: nat, b: nat, c: nat, o: nat, w: World)
    requires WellFormed(w.status) && AllPlain(posts, w) && forall x | x in posts :: w.eligible(x)
    requires |posts| == REBLOG_FALLOFF && (forall x | x in posts :: a < x < b) && b < c && o !in posts + {a, b}
    requires ReblogOf(w.status(a), o) && ReblogOf(w.status(b), o) && ReblogOf(w.status(c), o)
    ensures var on := Some(true);
      var f := DoAll(EMPTY_FEED, [MergeCall(posts, w), PushCall(w.status(a), on), PushCall(w.status(b), on),
                                  UnpushCall(w.status(a), on)]);
      !Deduplicated(Add(f, w.status(c), on).0, w.status)
  {
    hide DoAll, Remove, Add, Deduplicated;
    OldReblogRemoved(posts, a, b, o, w);
    AdmitsDuplicate(posts, a, b, c, o, w.status);
  }
}
