/** What merging and rebuilding make of reblogs: every eligible row ends up represented, unless it
    is older than what the feed keeps, and the newest reblog stands for its original. */
module FeedReblogs {
  import opened Options
  import opened SortedSets
  import opened FeedManager
  import opened FeedRuns
  import opened FeedPopulate

  // ----- Every eligible row is represented

  lemma AddKeepsSound(f: Feed, s: Status, w: World)
    requires WellFormed(w.status) && TrackerSound(f, w.status) && s == w.status(s.id)
    ensures TrackerSound(Add(f, s, w.aggregate).0, w.status)
  {
    StepKeepsShownIff(f, AddOp(s, w.aggregate), w.status);
  }

  lemma {:induction false} AddAllKeepsSound(f: Feed, ids: seq<nat>, w: World)
    requires WellFormed(w.status) && TrackerSound(f, w.status)
    ensures TrackerSound(AddAll(f, ids, w), w.status)
    decreases |ids|
  {
    if ids != [] {
      if w.eligible(ids[0]) { AddKeepsSound(f, w.status(ids[0]), w); }
      hide TrackerSound;
      AddAllKeepsSound(if w.eligible(ids[0]) then Add(f, w.status(ids[0]), w.aggregate).0 else f, ids[1..], w);
    }
  }

  /** Adding the rows of a query puts nothing in but those rows, and every eligible one of them,
      reblog or not, stands in the feed afterwards. */
  lemma {:induction false} AddAllRepresents(f: Feed, ids: seq<nat>, w: World)
    requires WellFormed(w.status) && TrackerSound(f, w.status)
    ensures var g := AddAll(f, ids, w);
      && f.timeline <= g.timeline && (forall x | x in g.timeline - f.timeline :: x in ids && w.eligible(x))
      && forall p | p in ids && w.eligible(p) :: Represented(g, Root(p, w.status), w.status)
    decreases |ids|
  {
    if ids != [] {
      var p := ids[0];
      var g := if w.eligible(p) then Add(f, w.status(p), w.aggregate).0 else f;
      if w.eligible(p) {
        AddKeepsSound(f, w.status(p), w);
        AddRepresents(f, w.status(p), w.aggregate, w.status);
        AddKeepsRest(f, w.status(p), w.aggregate);
      }
      hide TrackerSound, Add, Root, WellFormed;
      AddAllRepresents(g, ids[1..], w);
      var h := AddAll(g, ids[1..], w);
      if w.eligible(p) { StaysRepresented(g, h, Root(p, w.status), w.status); }
      assert forall x :: x in ids <==> x == p || x in ids[1..];
    }
  }

  lemma StaysRepresented(f: Feed, g: Feed, post: nat, status: nat -> Status)
    requires f.timeline <= g.timeline && Represented(f, post, status)
    ensures Represented(g, post, status)
  {
  }

  /** The post stands in the feed, or the feed has reached its limit with entries that are all
      newer than one for it. */
  ghost predicate Accounted(f: Feed, post: nat, status: nat -> Status) {
    Represented(f, post, status) || (POPULATE_LIMIT <= |f.timeline| && exists x :: OlderThanAll(f, x, post, status))
  }

  ghost predicate OlderThanAll(f: Feed, x: nat, post: nat, status: nat -> Status) {
    Root(x, status) == post && forall y | y in f.timeline :: x < y
  }

  lemma TrimAccounts(f: Feed, post: nat, status: nat -> Status)
    requires Accounted(f, post, status)
    ensures Accounted(Trim(f), post, status)
  {
    var g := Trim(f);
    TrimTimeline(f);
    NewestSize(f.timeline, MAX_ITEMS);
    hide Trim, Root;
    if Represented(f, post, status) {
      var x :| x in f.timeline && Root(x, status) == post;
      if x !in g.timeline {
        assert forall y | y in g.timeline :: x < y;
        assert OlderThanAll(g, x, post, status);
        SubsetSize(g.timeline, f.timeline);
      }
    } else {
      var x :| OlderThanAll(f, x, post, status);
      assert OlderThanAll(g, x, post, status);
    }
  }

  /** Merging an account: every row that its query returns and the filter lets through stands in
      the feed, or is older than all of a feed of at least half its size. */
  lemma MergeAccounts(f: Feed, posts: set<nat>, w: World)
    requires WellFormed(w.status) && TrackerSound(f, w.status)
    ensures forall p | p in MergeOffer(f, posts, w) :: Accounted(Merge(f, posts, w), Root(p, w.status), w.status)
  {
    NewestMergeable(f, posts);
    var chosen := Newest(Mergeable(f, posts), MERGE_LIMIT);
    var ids := Descending(chosen);
    DescendingLists(chosen);
    AddAllRepresents(f, ids, w);
    forall p | p in MergeOffer(f, posts, w) ensures Accounted(Merge(f, posts, w), Root(p, w.status), w.status) {
      assert p in ids && w.eligible(p);
      TrimAccounts(AddAll(f, ids, w), Root(p, w.status), w.status);
    }
  }

  /** Entries from the oldest one on do not change that a post is accounted for. */
  lemma GrowthAccounts(f: Feed, g: Feed, post: nat, status: nat -> Status)
    requires f.timeline <= g.timeline && Accounted(f, post, status)
    requires POPULATE_LIMIT <= |f.timeline| ==> forall x | x in g.timeline :: Min(f.timeline) <= x
    ensures Accounted(g, post, status)
  {
    hide Root;
    if Represented(f, post, status) {
      StaysRepresented(f, g, post, status);
    } else {
      var x :| OlderThanAll(f, x, post, status);
      SubsetSize(f.timeline, g.timeline);
      assert OlderThanAll(g, x, post, status);
    }
  }

  /** One account of a rebuild, unless it is passed over: what was accounted for stays so, and what
      the account offers is too. */
  lemma StepAccounts(f: Feed, over: bool, source: Source, w: World)
    requires WellFormed(w.status) && TrackerSound(f, w.status) && (over <==> POPULATE_LIMIT <= |f.timeline|)
    ensures var g := PopulateStep(f, over, source, w);
      && TrackerSound(g, w.status)
      && (forall post | Accounted(f, post, w.status) :: Accounted(g, post, w.status))
      && (!Skipped(f.timeline, source) ==>
            forall p | p in EligibleOf(source.posts, w) :: Accounted(g, Root(p, w.status), w.status))
  {
    var wanted := if over then NotOlder(source.posts, Min(f.timeline)) else source.posts;
    if over && Skipped(f.timeline, source) {
      StepLeavesOut(f, source, w);
    } else if wanted == {} {
      NothingWanted(f, over, source, w);
    } else {
      StepAddsAccounts(f, over, source, wanted, w);
    }
  }

  lemma NothingWanted(f: Feed, over: bool, source: Source, w: World)
    requires over <==> POPULATE_LIMIT <= |f.timeline|
    requires (if over then NotOlder(source.posts, Min(f.timeline)) else source.posts) == {}
    ensures PopulateStep(f, over, source, w) == f
    ensures forall p | p in EligibleOf(source.posts, w) :: Accounted(f, Root(p, w.status), w.status)
  {
    hide Root;
    forall p | p in EligibleOf(source.posts, w) ensures Accounted(f, Root(p, w.status), w.status) {
      assert p in source.posts && p !in NotOlder(source.posts, Min(f.timeline));
      assert OlderThanAll(f, p, Root(p, w.status), w.status);
    }
  }

  lemma StepAddsAccounts(f: Feed, over: bool, source: Source, wanted: set<nat>, w: World)
    requires WellFormed(w.status) && TrackerSound(f, w.status) && (over <==> POPULATE_LIMIT <= |f.timeline|)
    requires wanted == (if over then NotOlder(source.posts, Min(f.timeline)) else source.posts) && wanted != {}
    requires !(over && Skipped(f.timeline, source))
    ensures var g := PopulateStep(f, over, source, w);
      && TrackerSound(g, w.status)
      && (forall post | Accounted(f, post, w.status) :: Accounted(g, post, w.status))
      && forall p | p in EligibleOf(source.posts, w) :: Accounted(g, Root(p, w.status), w.status)
  {
    var ids := Descending(Newest(wanted, POPULATE_LIMIT));
    DescendingLists(Newest(wanted, POPULATE_LIMIT));
    var g := AddAll(f, ids, w);
    assert PopulateStep(f, over, source, w) == Trim(g);
    AddAllKeepsSound(f, ids, w);
    AddAllRepresents(f, ids, w);
    TrimKeepsTrackerSound(g, w.status);
    assert over ==> forall x | x in ids :: Min(f.timeline) <= x;
    if over {
      forall x | x in g.timeline ensures Min(f.timeline) <= x {
        if x !in f.timeline { assert x in g.timeline - f.timeline; }
      }
    }
    hide PopulateStep, AddAll, Trim, TrackerSound, Root, WellFormed;
    forall post | Accounted(f, post, w.status) ensures Accounted(Trim(g), post, w.status) {
      GrowthAccounts(f, g, post, w.status);
      TrimAccounts(g, post, w.status);
    }
    forall p | p in EligibleOf(source.posts, w) ensures Accounted(Trim(g), Root(p, w.status), w.status) {
      if over { NewestNotOlder(source.posts, Min(f.timeline), w); }
      if p in EligibleOf(wanted, w) {
        assert p in ids && w.eligible(p);
      } else {
        assert OlderThanAll(f, p, Root(p, w.status), w.status);
        assert Accounted(f, Root(p, w.status), w.status);
        GrowthAccounts(f, g, Root(p, w.status), w.status);
      }
      TrimAccounts(g, Root(p, w.status), w.status);
    }
  }

  lemma {:induction false} PopulateFromAccounts(f: Feed, over: bool, sources: seq<Source>, w: World)
    requires WellFormed(w.status) && TrackerSound(f, w.status) && (over ==> POPULATE_LIMIT <= |f.timeline|)
    ensures var g := PopulateFrom(f, over, sources, w);
      && (forall post | Accounted(f, post, w.status) :: Accounted(g, post, w.status))
      && forall p | p in EligibleOfAll(sources, w) && p !in PassedOver(f, over, sources, w) ::
           Accounted(g, Root(p, w.status), w.status)
    decreases |sources|
  {
    if sources != [] {
      var over' := over || POPULATE_LIMIT <= |f.timeline|;
      PopulateStepStaysOver(f, over', sources[0], w);
      StepAccounts(f, over', sources[0], w);
      hide PopulateStep, Accounted, TrackerSound, Root, WellFormed, Skipped;
      PopulateFromAccounts(PopulateStep(f, over', sources[0], w), over', sources[1..], w);
    }
  }

  /** A rebuild: every eligible post or reblog of the owner and of the accounts that are not passed
      over stands in the feed, or is older than all of a feed that has reached its limit. */
  lemma PopulateAccounts(f: Feed, own: set<nat>, sources: seq<Source>, w: World)
    requires WellFormed(w.status) && TrackerSound(f, w.status)
    ensures var g := Populate(f, own, sources, w);
      && (forall p | p in EligibleOf(own, w) :: Accounted(g, Root(p, w.status), w.status))
      && forall p | p in EligibleOfAll(sources, w) && p !in PassedOverBy(f, own, sources, w) ::
           Accounted(g, Root(p, w.status), w.status)
  {
    var ids := Descending(Newest(own, POPULATE_LIMIT));
    DescendingLists(Newest(own, POPULATE_LIMIT));
    AddAllKeepsSound(f, ids, w);
    AddAllRepresents(f, ids, w);
    hide Root, TrackerSound, WellFormed;
    PopulateFromAccounts(AddAll(f, ids, w), false, sources, w);
    forall p | p in EligibleOf(own, w) ensures Accounted(AddAll(f, ids, w), Root(p, w.status), w.status) {
      assert p in ids && w.eligible(p);
    }
  }

  // ----- Which reblog stands for its original

  predicate Descends(ids: seq<nat>) {
    forall i, j | 0 <= i < j < |ids| :: ids[j] < ids[i]
  }

  /** The rows among `ids` that are added as reblogs of `o`. */
  function Reblogs(ids: seq<nat>, o: nat, w: World): set<nat> {
    set r | r in ids && w.eligible(r) && Aggregated(w.status(r), w.aggregate) && w.status(r).reblogOf == Some(o)
  }

  /** `g` is `f` with these reblogs of `o` added: the newest is shown and tracked for it, the others
      are kept as extras, and `o` itself is not in; one that was tracked before stays. */
  predicate Stands(f: Feed, g: Feed, reblogs: set<nat>, o: nat)
    requires o in f.tracker || reblogs != {}
  {
    && o !in g.timeline && o in g.tracker
    && g.tracker[o] == (if o in f.tracker then f.tracker[o] else Max(reblogs))
    && (o !in f.tracker ==> Max(reblogs) in g.timeline)
    && Members(g.extras, o) == Members(f.extras, o) + (if o in f.tracker then reblogs else reblogs - {Max(reblogs)})
  }

  /** Rows come newest first, so the newest reblog of an original that is not in the feed stands for
      it, and the original, if it comes with them, is refused. */
  lemma {:induction false} NewestReblogStands(f: Feed, ids: seq<nat>, o: nat, w: World)
    requires WellFormed(w.status) && w.status(o).reblogOf.None? && Descends(ids)
    requires o !in f.timeline && (forall r | r in Reblogs(ids, o, w) :: o < r)
    requires o in f.tracker || Reblogs(ids, o, w) != {}
    ensures Stands(f, AddAll(f, ids, w), Reblogs(ids, o, w), o)
    decreases |ids|
  {
    if ids == [] {
      assert Reblogs(ids, o, w) == {};
      assert Members(f.extras, o) + {} == Members(f.extras, o);
    } else {
      var p, rest := ids[0], ids[1..];
      var g := if w.eligible(p) then Add(f, w.status(p), w.aggregate).0 else f;
      forall r | r in rest ensures r < p {
        var i :| 0 <= i < |rest| && rest[i] == r;
        assert ids[i + 1] == r;
      }
      ReblogsStep(ids, o, w);
      FirstRow(f, p, o, w);
      AddAllGrows(g, rest, w);
      hide Reblogs, Add, Members, WellFormed, Stands;
      assert Descends(rest);
      NewestReblogStands(g, rest, o, w);
      FirstThenOthers(f, g, AddAll(g, rest, w), p, p in Reblogs(ids, o, w), Reblogs(rest, o, w), Reblogs(ids, o, w), o);
    }
  }

  /** The newest row first, and then the others. */
  lemma FirstThenOthers(f: Feed, g: Feed, h: Feed, p: nat, reblog: bool, later: set<nat>, all: set<nat>, o: nat)
    requires all == later + (if reblog then {p} else {}) && forall r | r in later :: r < p
    requires (o in f.tracker || all != {}) && o !in g.timeline && (o in g.tracker <==> o in f.tracker || reblog)
    requires o in f.tracker ==> g.tracker[o] == f.tracker[o]
    requires reblog && o !in f.tracker ==> g.tracker[o] == p && p in g.timeline
    requires Members(g.extras, o) == Members(f.extras, o) + (if reblog && o in f.tracker then {p} else {})
    requires Stands(g, h, later, o) && g.timeline <= h.timeline
    ensures Stands(f, h, all, o)
  {
    var kept := Members(f.extras, o);
    hide Members;
    if o in f.tracker {
      assert kept + (if reblog then {p} else {}) + later == kept + all;
    } else if reblog {
      MaxIs(all, p);
      assert kept + {} + later == kept + (all - {p});
    } else {
      assert all == later;
    }
  }

  lemma ReblogsStep(ids: seq<nat>, o: nat, w: World)
    requires ids != []
    ensures var p := ids[0];
      && (p in Reblogs(ids, o, w) <==>
            w.eligible(p) && Aggregated(w.status(p), w.aggregate) && w.status(p).reblogOf == Some(o))
      && Reblogs(ids, o, w) == Reblogs(ids[1..], o, w) + (if p in Reblogs(ids, o, w) then {p} else {})
      && forall r | r in Reblogs(ids[1..], o, w) :: r in ids[1..]
  {
    assert forall r :: r in ids <==> r == ids[0] || r in ids[1..];
  }

  /** What the first row does for `o`. */
  lemma FirstRow(f: Feed, p: nat, o: nat, w: World)
    requires WellFormed(w.status) && w.status(o).reblogOf.None? && o !in f.timeline
    requires p != o || o in f.tracker
    ensures var g := if w.eligible(p) then Add(f, w.status(p), w.aggregate).0 else f;
      var reblog := w.eligible(p) && Aggregated(w.status(p), w.aggregate) && w.status(p).reblogOf == Some(o);
      && o !in g.timeline && (o in g.tracker <==> o in f.tracker || reblog)
      && (o in f.tracker ==> g.tracker[o] == f.tracker[o])
      && (reblog && o !in f.tracker ==> g.tracker[o] == p && p in g.timeline)
      && Members(g.extras, o) == Members(f.extras, o) + (if reblog && o in f.tracker then {p} else {})
  {
  }

  /** So merging an account that boosted its own post shows the boost and not the post. */
  lemma MergeShowsBoost(f: Feed, posts: set<nat>, o: nat, r: nat, w: World)
    requires WellFormed(w.status) && w.status(o).reblogOf.None? && Aggregates(w.aggregate)
    requires o !in f.timeline && o < r && r in MergeOffer(f, posts, w) && ReblogOf(w.status(r), o)
    requires forall x | x in posts && ReblogOf(w.status(x), o) :: o < x
    ensures o !in Merge(f, posts, w).timeline
  {
    NewestMergeable(f, posts);
    var chosen := Newest(Mergeable(f, posts), MERGE_LIMIT);
    DescendingLists(chosen);
    assert r in Reblogs(Descending(chosen), o, w);
    NewestReblogStands(f, Descending(chosen), o, w);
    TrimTimeline(AddAll(f, Descending(chosen), w));
  }
}
