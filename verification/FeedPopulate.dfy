/** Rebuilding a home feed: what the over-limit cut and the account skip may lose. */
module FeedPopulate {
  import opened Options
  import opened SortedSets
  import opened FeedManager
  import opened FeedRuns

  /** A row that `add_to_feed` inserts without aggregation. */
  predicate Plain(s: Status, aggregate: Option<bool>) {
    s.reblogOf.None? || !Aggregates(aggregate) || s.kronkAnswer
  }

  ghost predicate AllPlain(posts: set<nat>, w: World) {
    forall p | p in posts :: Plain(w.status(p), w.aggregate)
  }

  /** Plain posts of which the feed shows no reblog: an add puts them in. */
  ghost predicate Insertable(f: Feed, posts: set<nat>, w: World) {
    AllPlain(posts, w) && forall p | p in posts :: p !in f.tracker
  }

  /** What an account offers the feed: its newest posts, then filtered. */
  function EligibleOf(posts: set<nat>, w: World): set<nat> {
    set p | p in Newest(posts, POPULATE_LIMIT) && w.eligible(p)
  }

  function EligibleOfAll(sources: seq<Source>, w: World): set<nat>
    decreases |sources|
  {
    if sources == [] then {} else EligibleOf(sources[0].posts, w) + EligibleOfAll(sources[1..], w)
  }

  lemma {:induction false} AddAllPlain(f: Feed, ids: seq<nat>, w: World)
    requires WellFormed(w.status)
    requires forall p | p in ids :: Plain(w.status(p), w.aggregate) && p !in f.tracker
    ensures AddAll(f, ids, w) == f.(timeline := f.timeline + set p | p in ids && w.eligible(p))
    decreases |ids|
  {
    if ids != [] {
      var p := ids[0];
      assert Plain(w.status(p), w.aggregate);
      var g := if w.eligible(p) then Add(f, w.status(p), w.aggregate).0 else f;
      AddAllPlain(g, ids[1..], w);
      assert ids == [p] + ids[1..];
    }
  }

  lemma AddNewestPlain(f: Feed, posts: set<nat>, w: World)
    requires WellFormed(w.status) && Insertable(f, posts, w)
    ensures AddAll(f, Descending(Newest(posts, POPULATE_LIMIT)), w) == f.(timeline := f.timeline + EligibleOf(posts, w))
  {
    DescendingLists(Newest(posts, POPULATE_LIMIT));
    AddAllPlain(f, Descending(Newest(posts, POPULATE_LIMIT)), w);
  }

  lemma NewestNotOlder(posts: set<nat>, oldest: nat, w: World)
    ensures EligibleOf(NotOlder(posts, oldest), w) == NotOlder(EligibleOf(posts, w), oldest)
  {
    forall x | oldest <= x ensures Above(NotOlder(posts, oldest), x) == Above(posts, x) {}
  }

  // ----- What may be missing from the timeline

  /** Every offered post that the timeline does not hold is older than its oldest entry,
      give or take `grain`, and the timeline has reached the limit. */
  ghost predicate OnlyOldMissing(offered: set<nat>, timeline: set<nat>, grain: nat) {
    && timeline <= offered
    && forall p | p in offered - timeline ::
         POPULATE_LIMIT <= |timeline| && timeline != {} && p + 1 < Min(timeline) + grain
  }

  /** The account's last-status score is within `grain` of every post it offers. */
  ghost predicate ScoreCovers(source: Source, grain: nat, w: World) {
    forall p | p in EligibleOf(source.posts, w) :: p < source.LastStatusScore() + grain
  }

  /** Accounts whose posts an add puts in and whose scores cover what they offer. */
  ghost predicate Coverable(f: Feed, sources: seq<Source>, grain: nat, w: World) {
    forall s | s in sources :: Insertable(f, s.posts, w) && ScoreCovers(s, grain, w)
  }

  /** The account is passed over: the feed has reached the limit and its oldest entry is newer
      than the account's last status, as far as the score tells. */
  predicate Skipped(timeline: set<nat>, source: Source) {
    POPULATE_LIMIT <= |timeline| && source.LastStatusScore() < Min(timeline)
  }

  lemma TrimMissesOnlyOld(f: Feed, offered: set<nat>, grain: nat)
    requires 0 < grain && OnlyOldMissing(offered, f.timeline, grain)
    ensures Trim(f).tracker.Keys <= f.tracker.Keys && OnlyOldMissing(offered, Trim(f).timeline, grain)
  {
    var kept := Newest(f.timeline, MAX_ITEMS);
    NewestSize(f.timeline, MAX_ITEMS);
    forall p | p in offered - kept
      ensures POPULATE_LIMIT <= |kept| && kept != {} && p + 1 < Min(kept) + grain
    {
      if p in f.timeline {
        SubsetSize(kept, f.timeline);
        assert Min(kept) !in {} && (Min(kept) <= p ==> p in kept);
      } else {
        assert p in offered - f.timeline;
        assert Min(f.timeline) <= Min(kept);
      }
    }
  }

  lemma StepMissesOnlyOld(f: Feed, over: bool, source: Source, offered: set<nat>, grain: nat, w: World)
    requires WellFormed(w.status) && 0 < grain
    requires OnlyOldMissing(offered, f.timeline, grain)
    requires over <==> POPULATE_LIMIT <= |f.timeline|
    requires Insertable(f, source.posts, w) && (Skipped(f.timeline, source) ==> ScoreCovers(source, grain, w))
    ensures var g := PopulateStep(f, over, source, w);
      && g.tracker.Keys <= f.tracker.Keys
      && OnlyOldMissing(offered + EligibleOf(source.posts, w), g.timeline, grain)
  {
    hide PopulateStep, OnlyOldMissing, ScoreCovers;
    if over {
      if Skipped(f.timeline, source) || NotOlder(source.posts, Min(f.timeline)) == {} {
        StepLeavesOut(f, source, w);
        LeftOutIsOld(f, source, offered, grain, w);
      } else {
        StepCuts(f, source, offered, grain, w);
      }
    } else {
      StepFills(f, source, offered, grain, w);
    }
  }

  lemma StepLeavesOut(f: Feed, source: Source, w: World)
    requires POPULATE_LIMIT <= |f.timeline|
    requires Skipped(f.timeline, source) || NotOlder(source.posts, Min(f.timeline)) == {}
    ensures PopulateStep(f, true, source, w) == f
  {
  }

  lemma StepCuts(f: Feed, source: Source, offered: set<nat>, grain: nat, w: World)
    requires WellFormed(w.status) && 0 < grain && POPULATE_LIMIT <= |f.timeline|
    requires OnlyOldMissing(offered, f.timeline, grain) && Insertable(f, source.posts, w)
    requires !Skipped(f.timeline, source) && NotOlder(source.posts, Min(f.timeline)) != {}
    ensures var g := PopulateStep(f, true, source, w);
      && g.tracker.Keys <= f.tracker.Keys
      && OnlyOldMissing(offered + EligibleOf(source.posts, w), g.timeline, grain)
  {
    var oldest, more := Min(f.timeline), EligibleOf(source.posts, w);
    var wanted := NotOlder(source.posts, oldest);
    var g := f.(timeline := f.timeline + NotOlder(more, oldest));
    AddNewestPlain(f, wanted, w);
    NewestNotOlder(source.posts, oldest, w);
    assert PopulateStep(f, true, source, w) == Trim(g);
    hide PopulateStep, AddAll, Trim, EligibleOf, OnlyOldMissing, NotOlder, Newest;
    CutIsOld(f.timeline, more, offered, grain);
    TrimMissesOnlyOld(g, offered + more, grain);
  }

  lemma StepFills(f: Feed, source: Source, offered: set<nat>, grain: nat, w: World)
    requires WellFormed(w.status) && 0 < grain && |f.timeline| < POPULATE_LIMIT
    requires OnlyOldMissing(offered, f.timeline, grain) && Insertable(f, source.posts, w)
    ensures var g := PopulateStep(f, false, source, w);
      && g.tracker.Keys <= f.tracker.Keys
      && OnlyOldMissing(offered + EligibleOf(source.posts, w), g.timeline, grain)
  {
    var more := EligibleOf(source.posts, w);
    NothingMissing(offered, f.timeline, grain);
    NewestSize(source.posts, POPULATE_LIMIT);
    var g := f.(timeline := f.timeline + more);
    if source.posts == {} {
      assert more == {};
      hide EligibleOf, OnlyOldMissing;
      assert offered + more == offered;
    } else {
      AddNewestPlain(f, source.posts, w);
      assert PopulateStep(f, false, source, w) == Trim(g);
      hide PopulateStep, AddAll, Trim, EligibleOf, Newest;
      TrimMissesOnlyOld(g, offered + more, grain);
    }
  }

  lemma NothingMissing(offered: set<nat>, timeline: set<nat>, grain: nat)
    requires OnlyOldMissing(offered, timeline, grain) && |timeline| < POPULATE_LIMIT
    ensures offered == timeline
  {
    forall p | p in offered - timeline ensures false {}
    assert offered == timeline + (offered - timeline);
  }

  /** An account that is skipped, or has nothing newer than the oldest entry. */
  lemma LeftOutIsOld(f: Feed, source: Source, offered: set<nat>, grain: nat, w: World)
    requires 0 < grain && OnlyOldMissing(offered, f.timeline, grain) && POPULATE_LIMIT <= |f.timeline|
    requires if Skipped(f.timeline, source) then ScoreCovers(source, grain, w)
             else NotOlder(source.posts, Min(f.timeline)) == {}
    ensures OnlyOldMissing(offered + EligibleOf(source.posts, w), f.timeline, grain)
  {
    var more, oldest := EligibleOf(source.posts, w), Min(f.timeline);
    forall p | p in (offered + more) - f.timeline ensures p + 1 < oldest + grain {
      if p in offered {
        assert p in offered - f.timeline;
      } else if !Skipped(f.timeline, source) {
        assert p in source.posts && p !in NotOlder(source.posts, oldest);
      }
    }
  }

  /** Adding only what is not older than the oldest entry. */
  lemma CutIsOld(timeline: set<nat>, more: set<nat>, offered: set<nat>, grain: nat)
    requires 0 < grain && OnlyOldMissing(offered, timeline, grain) && POPULATE_LIMIT <= |timeline|
    ensures OnlyOldMissing(offered + more, timeline + NotOlder(more, Min(timeline)), grain)
  {
    var oldest := Min(timeline);
    var after := timeline + NotOlder(more, oldest);
    SubsetSize(timeline, after);
    assert Min(after) == oldest;
    forall p | p in (offered + more) - after ensures p + 1 < Min(after) + grain {
      if p in offered { assert p in offered - timeline; }
    }
  }

  lemma {:induction false} PopulateFromMissesOnlyOld(f: Feed, over: bool, sources: seq<Source>, offered: set<nat>,
                                                      grain: nat, w: World)
    requires WellFormed(w.status) && 0 < grain
    requires OnlyOldMissing(offered, f.timeline, grain)
    requires over ==> POPULATE_LIMIT <= |f.timeline|
    requires Coverable(f, sources, grain, w)
    ensures OnlyOldMissing(offered + EligibleOfAll(sources, w), PopulateFrom(f, over, sources, w).timeline, grain)
    decreases |sources|
  {
    if sources == [] {
      assert offered + {} == offered;
    } else {
      var over' := over || POPULATE_LIMIT <= |f.timeline|;
      assert sources[0] in sources;
      StepMissesOnlyOld(f, over', sources[0], offered, grain, w);
      PopulateStepStaysOver(f, over', sources[0], w);
      var offered' := offered + EligibleOf(sources[0].posts, w);
      var g := PopulateStep(f, over', sources[0], w);
      assert Coverable(g, sources[1..], grain, w);
      PopulateFromMissesOnlyOld(g, over', sources[1..], offered', grain, w);
      assert offered' + EligibleOfAll(sources[1..], w) == offered + EligibleOfAll(sources, w);
    }
  }

  /** Everything that was there or was offered. */
  function Offered(f: Feed, own: set<nat>, sources: seq<Source>, w: World): set<nat> {
    f.timeline + EligibleOf(own, w) + EligibleOfAll(sources, w)
  }

  lemma PopulateMissesOnlyOld(f: Feed, own: set<nat>, sources: seq<Source>, grain: nat, w: World)
    requires WellFormed(w.status) && 0 < grain
    requires Insertable(f, own, w) && Coverable(f, sources, grain, w)
    ensures OnlyOldMissing(Offered(f, own, sources, w), Populate(f, own, sources, w).timeline, grain)
  {
    AddNewestPlain(f, own, w);
    var g := f.(timeline := f.timeline + EligibleOf(own, w));
    PopulateFromMissesOnlyOld(g, false, sources, g.timeline, grain, w);
  }

  // ----- When the newest half is kept

  /** The newest half of the rebuilt feed is the newest half of everything offered. */
  ghost predicate KeepsNewest(f: Feed, own: set<nat>, sources: seq<Source>, w: World) {
    Newest(Populate(f, own, sources, w).timeline, POPULATE_LIMIT) == Newest(Offered(f, own, sources, w), POPULATE_LIMIT)
  }

  lemma OldMissingKeepsNewest(offered: set<nat>, timeline: set<nat>)
    requires OnlyOldMissing(offered, timeline, 2)
    ensures Newest(timeline, POPULATE_LIMIT) == Newest(offered, POPULATE_LIMIT)
  {
    forall x | x in offered - timeline ensures POPULATE_LIMIT <= RevRank(timeline, x) {
      assert timeline == Above(timeline, x);
    }
    NewestOfPart(offered, timeline, POPULATE_LIMIT);
  }

  /** The newest half is kept, in whatever order the accounts come and despite the cut-off and
      the skip, if no account offers a post two or more above its last-status score. */
  lemma PopulateKeepsNewest(f: Feed, own: set<nat>, sources: seq<Source>, w: World)
    requires WellFormed(w.status)
    requires Insertable(f, own, w) && Coverable(f, sources, 2, w)
    ensures KeepsNewest(f, own, sources, w)
  {
    PopulateMissesOnlyOld(f, own, sources, 2, w);
    OldMissingKeepsNewest(Offered(f, own, sources, w), Populate(f, own, sources, w).timeline);
  }

  /** A rebuild with one account and no own posts loses one of the newest posts if and only if it
      passes the account over although a post it offers is newer than the feed's 400th entry. */
  lemma RebuildWithOneKeepsNewestIff(f: Feed, source: Source, w: World)
    requires WellFormed(w.status) && Insertable(f, source.posts, w)
    ensures KeepsNewest(f, {}, [source], w) <==>
      !Skipped(f.timeline, source) ||
      forall p | p in EligibleOf(source.posts, w) && p !in f.timeline :: POPULATE_LIMIT <= RevRank(f.timeline, p)
  {
    RebuildWithOne(f, source, w);
    var all := Offered(f, {}, [source], w);
    if Skipped(f.timeline, source) {
      NewestOfPartIff(all, f.timeline, POPULATE_LIMIT);
    } else {
      StepMissesOnlyOld(f, POPULATE_LIMIT <= |f.timeline|, source, f.timeline, 2, w);
      OldMissingKeepsNewest(all, Populate(f, {}, [source], w).timeline);
    }
  }

  /** What the accounts that a rebuild passes over offered. */
  function PassedOver(f: Feed, over: bool, sources: seq<Source>, w: World): set<nat>
    requires over ==> POPULATE_LIMIT <= |f.timeline|
    decreases |sources|
  {
    if sources == [] then {} else
    var over' := over || POPULATE_LIMIT <= |f.timeline|;
    PopulateStepStaysOver(f, over', sources[0], w);
    (if Skipped(f.timeline, sources[0]) then EligibleOf(sources[0].posts, w) else {}) +
    PassedOver(PopulateStep(f, over', sources[0], w), over', sources[1..], w)
  }

  /** Only what was passed over can be missing although it is not older than the oldest entry. */
  lemma {:induction false} PassedOverOrOld(f: Feed, over: bool, sources: seq<Source>, offered: set<nat>, w: World)
    returns (held: set<nat>)
    requires WellFormed(w.status) && OnlyOldMissing(offered, f.timeline, 1)
    requires over ==> POPULATE_LIMIT <= |f.timeline|
    requires forall s | s in sources :: Insertable(f, s.posts, w)
    ensures OnlyOldMissing(held, PopulateFrom(f, over, sources, w).timeline, 1)
    ensures held + PassedOver(f, over, sources, w) == offered + EligibleOfAll(sources, w)
    decreases |sources|
  {
    if sources == [] {
      held := offered;
    } else {
      var over' := over || POPULATE_LIMIT <= |f.timeline|;
      assert sources[0] in sources;
      PopulateStepStaysOver(f, over', sources[0], w);
      var g := PopulateStep(f, over', sources[0], w);
      var offered' := PassOne(f, over', sources[0], offered, w);
      hide PopulateStep, OnlyOldMissing, Skipped;
      held := PassedOverOrOld(g, over', sources[1..], offered', w);
    }
  }

  /** One account: either it is passed over, or what it offers counts as offered. */
  lemma PassOne(f: Feed, over: bool, source: Source, offered: set<nat>, w: World) returns (offered': set<nat>)
    requires WellFormed(w.status) && OnlyOldMissing(offered, f.timeline, 1)
    requires over <==> POPULATE_LIMIT <= |f.timeline|
    requires Insertable(f, source.posts, w)
    ensures offered' == if Skipped(f.timeline, source) then offered else offered + EligibleOf(source.posts, w)
    ensures var g := PopulateStep(f, over, source, w);
      OnlyOldMissing(offered', g.timeline, 1) && g.tracker.Keys <= f.tracker.Keys
  {
    if Skipped(f.timeline, source) {
      offered' := offered;
    } else {
      offered' := offered + EligibleOf(source.posts, w);
      StepMissesOnlyOld(f, over, source, offered, 1, w);
    }
  }

  /** What a rebuild passes over, after the owner's posts went in. */
  function PassedOverBy(f: Feed, own: set<nat>, sources: seq<Source>, w: World): set<nat> {
    PassedOver(AddAll(f, Descending(Newest(own, POPULATE_LIMIT)), w), false, sources, w)
  }

  /** A rebuild, with any accounts in any order, loses one of the newest posts if and only if an
      account that it passed over offered it: a post that fewer than 400 entries are newer than. */
  lemma RebuildKeepsNewestIff(f: Feed, own: set<nat>, sources: seq<Source>, w: World)
    requires WellFormed(w.status) && Insertable(f, own, w)
    requires forall s | s in sources :: Insertable(f, s.posts, w)
    ensures var t := Populate(f, own, sources, w).timeline;
      KeepsNewest(f, own, sources, w) <==>
        forall p | p in PassedOverBy(f, own, sources, w) && p !in t :: POPULATE_LIMIT <= RevRank(t, p)
  {
    AddNewestPlain(f, own, w);
    var g := f.(timeline := f.timeline + EligibleOf(own, w));
    var t, all := Populate(f, own, sources, w).timeline, Offered(f, own, sources, w);
    var held := PassedOverOrOld(g, false, sources, g.timeline, w);
    assert held + PassedOverBy(f, own, sources, w) == all;
    hide PopulateFrom, PassedOver, EligibleOfAll, AddAll, Newest;
    forall x | x in held - t ensures POPULATE_LIMIT <= RevRank(t, x) {
      assert t == Above(t, x);
    }
    NewestOfPartIff(all, t, POPULATE_LIMIT);
  }

  lemma RebuildWithOne(f: Feed, source: Source, w: World)
    requires WellFormed(w.status)
    ensures Populate(f, {}, [source], w) == PopulateStep(f, POPULATE_LIMIT <= |f.timeline|, source, w)
    ensures Offered(f, {}, [source], w) == f.timeline + EligibleOf(source.posts, w)
  {
    assert [source][1..] == [];
    assert Newest({}, POPULATE_LIMIT) == {} && EligibleOf({}, w) == {};
    var over := POPULATE_LIMIT <= |f.timeline|;
    PopulateStepStaysOver(f, over, source, w);
    assert PopulateFrom(PopulateStep(f, over, source, w), over, [], w) == PopulateStep(f, over, source, w);
    assert EligibleOfAll([source], w) == EligibleOf(source.posts, w) + EligibleOfAll([], w);
  }

  /** The account's posts, and the owner's, in every feed an add would put them in. */
  ghost predicate AlwaysKeepsNewest(source: Source, w: World) {
    forall f, own | Insertable(f, own, w) && Insertable(f, source.posts, w) :: KeepsNewest(f, own, [source], w)
  }

  /** An account is safe to rebuild with, whatever the feed holds and the owner posted, exactly
      if it offers no post two or more above its last-status score. */
  lemma AlwaysKeepsNewestIff(source: Source, w: World)
    requires WellFormed(w.status) && AllPlain(source.posts, w)
    ensures AlwaysKeepsNewest(source, w) <==> ScoreCovers(source, 2, w)
  {
    if ScoreCovers(source, 2, w) {
      forall f, own | Insertable(f, own, w) && Insertable(f, source.posts, w) ensures KeepsNewest(f, own, [source], w) {
        PopulateKeepsNewest(f, own, [source], w);
      }
    } else {
      var p :| p in EligibleOf(source.posts, w) && source.LastStatusScore() + 2 <= p;
      var f := SkippingFeed(source, p);
      RebuildWithOneKeepsNewestIff(f, source, w);
      assert Insertable(f, {}, w) && !KeepsNewest(f, {}, [source], w);
    }
  }

  /** A feed that passes the account over and has too few entries above its post. */
  lemma SkippingFeed(source: Source, p: nat) returns (f: Feed)
    requires source.LastStatusScore() + 2 <= p
    ensures f.tracker == map[] && Skipped(f.timeline, source)
    ensures p !in f.timeline && RevRank(f.timeline, p) < POPULATE_LIMIT
  {
    var oldest := source.LastStatusScore() + 1;
    var newer := Consecutive(p + 1, POPULATE_LIMIT - 1);
    f := Feed({oldest} + newer, map[], map[]);
    assert Above(f.timeline, p) == newer;
    assert Min(f.timeline) == oldest;
  }

  /** Accounts that are each safe by themselves are safe together, in any order. */
  lemma SafeAccountsSafeTogether(f: Feed, own: set<nat>, sources: seq<Source>, w: World)
    requires WellFormed(w.status) && Insertable(f, own, w)
    requires forall s | s in sources :: Insertable(f, s.posts, w) && AlwaysKeepsNewest(s, w)
    ensures KeepsNewest(f, own, sources, w)
  {
    forall s | s in sources ensures ScoreCovers(s, 2, w) { AlwaysKeepsNewestIff(s, w); }
    PopulateKeepsNewest(f, own, sources, w);
  }

  // ----- Merging an account

  lemma NewestMergeable(f: Feed, posts: set<nat>)
    ensures Newest(Mergeable(f, posts), MERGE_LIMIT) == Mergeable(f, Newest(posts, MERGE_LIMIT))
  {
    if MERGE_LIMIT <= |f.timeline| {
      forall x | Min(f.timeline) < x ensures Above(Mergeable(f, posts), x) == Above(posts, x) {}
    }
  }

  /** What an account's merge offers a feed: its newest posts newer than the feed's oldest entry
      if the feed is a quarter full, then filtered. */
  function MergeOffer(f: Feed, posts: set<nat>, w: World): set<nat> {
    set p | p in Newest(posts, MERGE_LIMIT) && w.eligible(p) && (|f.timeline| < MERGE_LIMIT || Min(f.timeline) < p)
  }

  /** Merging an account's plain posts leaves the newest `MAX_ITEMS` of the feed and the offer. */
  lemma MergeKeepsNewest(f: Feed, posts: set<nat>, w: World)
    requires WellFormed(w.status) && Insertable(f, posts, w)
    ensures Merge(f, posts, w).timeline == Newest(f.timeline + MergeOffer(f, posts, w), MAX_ITEMS)
    ensures Merge(f, posts, w).tracker.Keys <= f.tracker.Keys
  {
    NewestMergeable(f, posts);
    var chosen := Newest(Mergeable(f, posts), MERGE_LIMIT);
    DescendingLists(chosen);
    AddAllPlain(f, Descending(chosen), w);
    assert (set p | p in Descending(chosen) && w.eligible(p)) == MergeOffer(f, posts, w);
    TrimTimeline(AddAll(f, Descending(chosen), w));
  }

  lemma TrimTimeline(f: Feed)
    ensures Trim(f).timeline == Newest(f.timeline, MAX_ITEMS)
    ensures Trim(f).tracker.Keys <= f.tracker.Keys
  {
  }

  // ----- Scores are rounded down to a second

  /** The millisecond a post was made in. */
  function MadeIn(id: nat): nat {
    id / 0x1_0000
  }

  /** The account's last-status time is not before the second any of the posts it offers was made
      in; rows that the filter keeps back, as it does hidden posts, are not counted either. */
  ghost predicate Timely(source: Source, w: World) {
    forall p | p in EligibleOf(source.posts, w) :: MadeIn(p) / 1000 <= source.lastStatusSecond
  }

  /** So its score is less than one second's ids below each of them. */
  lemma TimelyScoreCovers(source: Source, w: World)
    requires Timely(source, w)
    ensures ScoreCovers(source, IDS_PER_SECOND, w)
  {
    forall p | p in EligibleOf(source.posts, w) ensures p < source.LastStatusScore() + IDS_PER_SECOND {
      IdWithinASecondOfScore(MadeIn(p), p % 0x1_0000, source.lastStatusSecond);
    }
  }

  /** A post id made in millisecond `ms` lies less than one second's ids above the score of
      any last-status time in the same or a later second, but it may lie above it. */
  lemma IdWithinASecondOfScore(ms: nat, tail: nat, second: nat)
    requires tail < 0x1_0000 && ms / 1000 <= second
    ensures ms * 0x1_0000 + tail < IdAt(second) + IDS_PER_SECOND
  {
    assert ms < 1000 * second + 1000;
  }

  /** With the scores the code really computes, a newest post can be missing only if it is
      within one second of the oldest entry of the rebuilt feed. */
  lemma PopulateKeepsNewestButASecond(f: Feed, own: set<nat>, sources: seq<Source>, w: World)
    requires WellFormed(w.status) && Insertable(f, own, w)
    requires forall s | s in sources :: Insertable(f, s.posts, w) && Timely(s, w)
    ensures var t := Populate(f, own, sources, w).timeline; var all := Offered(f, own, sources, w);
      && t <= all
      && forall x | x in Newest(all, POPULATE_LIMIT) && x !in t ::
           t != {} && Min(t) <= x + 1 < Min(t) + IDS_PER_SECOND
  {
    forall s | s in sources ensures ScoreCovers(s, IDS_PER_SECOND, w) { TimelyScoreCovers(s, w); }
    PopulateMissesOnlyOld(f, own, sources, IDS_PER_SECOND, w);
    var t, all := Populate(f, own, sources, w).timeline, Offered(f, own, sources, w);
    forall x | x in Newest(all, POPULATE_LIMIT) && x !in t
      ensures t != {} && Min(t) <= x + 1 < Min(t) + IDS_PER_SECOND
    {
      assert x in all - t;
      if x < Min(t) {
        assert t == Above(t, x);
        SubsetSize(Above(t, x), Above(all, x));
      }
    }
  }

  lemma FilledByOwnPosts(own: set<nat>, w: World)
    requires |own| == POPULATE_LIMIT && WellFormed(w.status) && AllPlain(own, w)
    requires forall p | p in own :: w.eligible(p)
    ensures AddAll(EMPTY_FEED, Descending(Newest(own, POPULATE_LIMIT)), w) == EMPTY_FEED.(timeline := own)
    ensures EligibleOf(own, w) == own
  {
    AddNewestPlain(EMPTY_FEED, own, w);
    NewestSize(own, POPULATE_LIMIT);
    SubsetSize(Newest(own, POPULATE_LIMIT), own);
    assert {} + EligibleOf(own, w) == own;
  }

  lemma SkippedAccount(f: Feed, source: Source, w: World)
    requires Skipped(f.timeline, source)
    ensures PopulateFrom(f, false, [source], w) == f
  {
    assert [source][1..] == [];
    assert PopulateStep(f, true, source, w) == f;
    assert PopulateFrom(f, true, [], w) == f;
  }

  lemma OnePostTimely(second: nat, late: nat, w: World)
    requires late < IdAt(second + 1)
    ensures Timely(Source({late}, second), w)
  {
    assert EligibleOf({late}, w) <= {late};
    assert MadeIn(late) / 1000 <= second;
  }

  lemma OneIsItsNewest(p: nat)
    ensures Newest({p}, POPULATE_LIMIT) == {p}
  {
    NewestSize({p}, POPULATE_LIMIT);
    SubsetSize(Newest({p}, POPULATE_LIMIT), {p});
  }

  /** And such a post does get lost in an empty feed: it is enough that the oldest of the owner's
      400 newest posts was made in the same second, before it, as an account's last post. */
  lemma SkipLosesARecentPost(second: nat, own: set<nat>, late: nat, w: World)
    requires WellFormed(w.status) && AllPlain(own, w) && forall p | p in own :: w.eligible(p)
    requires |own| == POPULATE_LIMIT && IdAt(second) < Min(own) < late < IdAt(second + 1) && late !in own
    requires Plain(w.status(late), w.aggregate) && w.eligible(late)
    ensures var source := Source({late}, second);
      var t, all := Populate(EMPTY_FEED, own, [source], w).timeline, Offered(EMPTY_FEED, own, [source], w);
      Timely(source, w) && t == own && late in Newest(all, POPULATE_LIMIT) && late !in t
  {
    hide AddAll, Newest, PopulateFrom, EligibleOf, Timely;
    var source := Source({late}, second);
    OnePostTimely(second, late, w);
    FilledByOwnPosts(own, w);
    SkippedAccount(EMPTY_FEED.(timeline := own), source, w);
    OfferedLate(own, source, late, w);
    LateIsNew(own, late);
  }

  lemma OfferedLate(own: set<nat>, source: Source, late: nat, w: World)
    requires source.posts == {late} && w.eligible(late) && EligibleOf(own, w) == own
    ensures Offered(EMPTY_FEED, own, [source], w) == own + {late}
  {
    OneIsItsNewest(late);
    assert EligibleOf({late}, w) == {late};
    assert [source][1..] == [];
    assert EligibleOfAll([source], w) == EligibleOf(source.posts, w) + EligibleOfAll([], w);
  }

  lemma LateIsNew(own: set<nat>, late: nat)
    requires |own| == POPULATE_LIMIT && Min(own) < late
    ensures late in Newest(own + {late}, POPULATE_LIMIT)
  {
    SubsetSize(Above(own + {late}, late) + {Min(own)}, own);
  }
}
