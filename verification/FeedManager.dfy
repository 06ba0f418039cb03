/** The home feed store: one timeline, the tracker of shown reblogs and the sets
    of further reblogs, changed by rank and by score. */
module FeedManager {
  import opened Options
  import opened SortedSets

  const MAX_ITEMS: nat := 800
  const REBLOG_FALLOFF: nat := 40
  const POPULATE_LIMIT: nat := MAX_ITEMS / 2
  const MERGE_LIMIT: nat := MAX_ITEMS / 4

  datatype Status = Status(id: nat, account: nat, reblogOf: Option<nat>, kronkAnswer: bool)

  /** Everything Redis holds for one feed.  `tracker` maps an original to the
      reblog of it that is shown; `extras` has a key only while the set under it
      is non-empty, as Redis deletes empty sets. */
  datatype Feed = Feed(timeline: set<nat>, tracker: map<nat, nat>, extras: map<nat, set<nat>>)

  const EMPTY_FEED := Feed({}, map[], map[])

  /** What the database answers about ids, for the owner of one feed: the row, and
      whether the feed's filters let it through. */
  datatype World = World(status: nat -> Status, eligible: nat -> bool, aggregate: Option<bool>)

  /** How many ids one second spans: 1000 milliseconds of 2^16 ids. */
  const IDS_PER_SECOND: nat := 1000 * 0x1_0000

  /** `Snowflake.id_at(time, with_random: false)` for a time in its given second. */
  function IdAt(second: nat): nat {
    second * IDS_PER_SECOND
  }

  /** A followed account: the ids visible to the follower, and the second of its
      `last_status_at`. */
  datatype Source = Source(posts: set<nat>, lastStatusSecond: nat)
  {
    function LastStatusScore(): nat {
      IdAt(lastStatusSecond)
    }
  }

  // ----- Redis sets kept in a map of keys

  function Members(sets: map<nat, set<nat>>, key: nat): set<nat> {
    if key in sets then sets[key] else {}
  }

  function SAdd(sets: map<nat, set<nat>>, key: nat, member: nat): map<nat, set<nat>> {
    sets[key := Members(sets, key) + {member}]
  }

  function SRem(sets: map<nat, set<nat>>, key: nat, member: nat): map<nat, set<nat>> {
    var left := Members(sets, key) - {member};
    if left == {} then sets - {key} else sets[key := left]
  }

  // ----- The operations as functions of the state

  predicate Aggregates(aggregate: Option<bool>) {
    aggregate.None? || aggregate.value
  }

  predicate InFirst(timeline: set<nat>, id: nat, ranks: nat) {
    id in timeline && RevRank(timeline, id) < ranks
  }

  function Add(f: Feed, s: Status, aggregate: Option<bool>): (Feed, bool) {
    if s.reblogOf.Some? && Aggregates(aggregate) && !s.kronkAnswer then
      var o := s.reblogOf.value;
      if InFirst(f.timeline, o, REBLOG_FALLOFF) then
        (f, false)
      else if o !in f.tracker then
        (f.(tracker := f.tracker[o := s.id], timeline := f.timeline + {s.id}), true)
      else
        (f.(extras := SAdd(f.extras, o, s.id)), false)
    else if s.id in f.tracker then
      (f, false)
    else
      (f.(timeline := f.timeline + {s.id}), true)
  }

  function Remove(f: Feed, s: Status, aggregate: Option<bool>): (Feed, bool) {
    if s.reblogOf.Some? && Aggregates(aggregate) then
      if s.id !in f.timeline then (f, false) else
      var o := s.reblogOf.value;
      var extras := SRem(f.extras, o, s.id);
      var others := Members(extras, o);
      if others == {} then
        (Feed(f.timeline - {s.id}, f.tracker - {o}, extras), true)
      else
        (Feed((f.timeline + {Min(others)}) - {s.id}, f.tracker[o := Min(others)], extras), true)
    else
      (Feed(f.timeline - {s.id}, f.tracker - {s.id}, f.extras - {s.id}), s.id in f.timeline)
  }

  /** The originals whose shown reblog has a score of at most `falloff`. */
  function FallenOff(tracker: map<nat, nat>, falloff: nat): set<nat> {
    set o | o in tracker && tracker[o] <= falloff
  }

  function Trim(f: Feed): Feed {
    var kept := Newest(f.timeline, MAX_ITEMS);
    if |kept| <= REBLOG_FALLOFF then
      f.(timeline := kept)
    else
      var gone := FallenOff(f.tracker, AtRevRank(kept, REBLOG_FALLOFF));
      Feed(kept, f.tracker - gone, f.extras - gone)
  }

  function Push(f: Feed, s: Status, aggregate: Option<bool>): (Feed, bool) {
    var (g, added) := Add(f, s, aggregate);
    if added then (Trim(g), true) else (g, false)
  }

  /** Adding the eligible ids of a query result, in its order. */
  function AddAll(f: Feed, ids: seq<nat>, w: World): Feed
    decreases |ids|
  {
    if ids == [] then f
    else AddAll(if w.eligible(ids[0]) then Add(f, w.status(ids[0]), w.aggregate).0 else f, ids[1..], w)
  }

  /** The ids a merged account's query returns for a feed that is a quarter full or more:
      those newer than its oldest entry. */
  function Mergeable(f: Feed, posts: set<nat>): set<nat> {
    if MERGE_LIMIT <= |f.timeline| then (set p | p in posts && Min(f.timeline) < p) else posts
  }

  function Merge(f: Feed, posts: set<nat>, w: World): Feed {
    Trim(AddAll(f, Descending(Newest(Mergeable(f, posts), MERGE_LIMIT)), w))
  }

  /** Removing rows one by one in ascending id order, as `find_each` yields them. */
  function RemoveAll(f: Feed, ids: set<nat>, w: World): Feed
    decreases |ids|
  {
    if ids == {} then f
    else RemoveAll(Remove(f, w.status(Min(ids)), w.aggregate).0, ids - {Min(ids)}, w)
  }

  /** The rows of `account` among `kept` (undeleted) statuses that the timeline lists. */
  function RowsInTimeline(f: Feed, kept: set<nat>, account: nat, w: World): set<nat> {
    set x | x in f.timeline && x in kept && w.status(x).account == account
  }

  function Unmerge(f: Feed, kept: set<nat>, account: nat, w: World): Feed {
    RemoveAll(f, RowsInTimeline(f, kept, account, w), w)
  }

  /** The ids a followed account's query returns once the feed is over its limit. */
  function NotOlder(posts: set<nat>, oldest: nat): set<nat> {
    set p | p in posts && oldest <= p
  }

  function PopulateStep(f: Feed, over: bool, source: Source, w: World): Feed
    requires over ==> f.timeline != {}
  {
    if over && source.LastStatusScore() < Min(f.timeline) then f else
    var wanted := if over then NotOlder(source.posts, Min(f.timeline)) else source.posts;
    if wanted == {} then f
    else Trim(AddAll(f, Descending(Newest(wanted, POPULATE_LIMIT)), w))
  }

  function PopulateFrom(f: Feed, over: bool, sources: seq<Source>, w: World): Feed
    requires over ==> POPULATE_LIMIT <= |f.timeline|
    decreases |sources|
  {
    if sources == [] then f else
    var over' := over || POPULATE_LIMIT <= |f.timeline|;
    PopulateStepStaysOver(f, over', sources[0], w);
    PopulateFrom(PopulateStep(f, over', sources[0], w), over', sources[1..], w)
  }

  function Populate(f: Feed, own: set<nat>, sources: seq<Source>, w: World): Feed {
    PopulateFrom(AddAll(f, Descending(Newest(own, POPULATE_LIMIT)), w), false, sources, w)
  }

  /** What `clean_feeds!` leaves of one feed.  It records the tracked originals per
      feed id before deleting, so listing an id twice overwrites the record with the
      empty answer of the second read. */
  function Clean(f: Feed, listedTwice: bool): Feed {
    EMPTY_FEED.(extras := if listedTwice then f.extras else f.extras - f.tracker.Keys)
  }

  lemma {:induction false} AddAllGrows(f: Feed, ids: seq<nat>, w: World)
    ensures f.timeline <= AddAll(f, ids, w).timeline
    decreases |ids|
  {
    if ids != [] {
      AddAllGrows(if w.eligible(ids[0]) then Add(f, w.status(ids[0]), w.aggregate).0 else f, ids[1..], w);
    }
  }

  lemma PopulateStepStaysOver(f: Feed, over: bool, source: Source, w: World)
    requires over ==> POPULATE_LIMIT <= |f.timeline|
    ensures over ==> POPULATE_LIMIT <= |PopulateStep(f, over, source, w).timeline|
  {
    if over {
      var wanted := NotOlder(source.posts, Min(f.timeline));
      var ids := Descending(Newest(wanted, POPULATE_LIMIT));
      AddAllGrows(f, ids, w);
      SubsetSize(f.timeline, AddAll(f, ids, w).timeline);
      NewestSize(AddAll(f, ids, w).timeline, MAX_ITEMS);
    }
  }

  // ----- The store

  class FeedStore {
    var timeline: set<nat>
    var tracker: map<nat, nat>
    var extras: map<nat, set<nat>>

    constructor ()
      ensures State() == EMPTY_FEED
    {
      timeline, tracker, extras := {}, map[], map[];
    }

    function State(): Feed
      reads this
    {
      Feed(timeline, tracker, extras)
    }

    method AddToFeed(s: Status, aggregate: Option<bool>) returns (added: bool)
      modifies this
      ensures (State(), added) == Add(old(State()), s, aggregate)
    {
      if s.reblogOf.Some? && Aggregates(aggregate) && !s.kronkAnswer {
        var o := s.reblogOf.value;
        if o in timeline {
          var rank := RevRank(timeline, o);
          if rank < REBLOG_FALLOFF { return false; }
        }
        if o !in tracker {
          tracker := tracker[o := s.id];
          timeline := timeline + {s.id};
        } else {
          extras := SAdd(extras, o, s.id);
          return false;
        }
      } else {
        if s.id in tracker { return false; }
        timeline := timeline + {s.id};
      }
      return true;
    }

    method RemoveFromFeed(s: Status, aggregate: Option<bool>) returns (removed: bool)
      modifies this
      ensures (State(), removed) == Remove(old(State()), s, aggregate)
    {
      if s.reblogOf.Some? && Aggregates(aggregate) {
        if s.id !in timeline { return false; }
        var o := s.reblogOf.value;
        extras := SRem(extras, o, s.id);
        tracker := tracker - {o};
        var others := Members(extras, o);
        if others != {} {
          timeline := timeline + {Min(others)};
          tracker := tracker[o := Min(others)];
          assert tracker == old(tracker)[o := Min(others)];
        }
      } else {
        extras := extras - {s.id};
        tracker := tracker - {s.id};
      }
      removed := s.id in timeline;
      timeline := timeline - {s.id};
    }

    method TrimFeed()
      modifies this
      ensures State() == Trim(old(State()))
    {
      timeline := Newest(timeline, MAX_ITEMS);
      if |timeline| <= REBLOG_FALLOFF { return; }
      var falloff := AtRevRank(timeline, REBLOG_FALLOFF);
      var gone := FallenOff(tracker, falloff);
      var left := gone;
      while left != {}
        invariant left <= gone
        invariant timeline == Newest(old(timeline), MAX_ITEMS)
        invariant tracker == old(tracker) - (gone - left)
        invariant extras == old(extras) - (gone - left)
        decreases |left|
      {
        var o :| o in left;
        tracker := tracker - {o};
        extras := extras - {o};
        left := left - {o};
      }
    }

    /** `recent` is whether the owner has signed in recently; nobody else's feed is kept up. */
    method PushToHome(s: Status, aggregate: Option<bool>, recent: bool) returns (pushed: bool)
      modifies this
      ensures (State(), pushed) == if recent then Push(old(State()), s, aggregate) else (old(State()), false)
    {
      if !recent { return false; }
      pushed := AddToFeed(s, aggregate);
      if pushed { TrimFeed(); }
    }

    method AddEach(ids: seq<nat>, w: World)
      modifies this
      ensures State() == AddAll(old(State()), ids, w)
    {
      var i := 0;
      while i < |ids|
        invariant 0 <= i <= |ids|
        invariant AddAll(State(), ids[i..], w) == AddAll(old(State()), ids, w)
      {
        assert ids[i..][0] == ids[i] && ids[i..][1..] == ids[i + 1..];
        if w.eligible(ids[i]) {
          var _ := AddToFeed(w.status(ids[i]), w.aggregate);
        }
        i := i + 1;
      }
    }

    method MergeIntoHome(posts: set<nat>, w: World, recent: bool)
      modifies this
      ensures State() == if recent then Merge(old(State()), posts, w) else old(State())
    {
      if !recent { return; }
      var wanted := posts;
      if MERGE_LIMIT <= |timeline| {
        var oldest := Min(timeline);
        wanted := set p | p in posts && oldest < p;
      }
      AddEach(Descending(Newest(wanted, MERGE_LIMIT)), w);
      TrimFeed();
    }

    method UnmergeFromHome(kept: set<nat>, account: nat, w: World)
      modifies this
      ensures State() == Unmerge(old(State()), kept, account, w)
    {
      var rows := RowsInTimeline(State(), kept, account, w);
      while rows != {}
        invariant RemoveAll(State(), rows, w) == Unmerge(old(State()), kept, account, w)
        decreases |rows|
      {
        var id := Min(rows);
        var _ := RemoveFromFeed(w.status(id), w.aggregate);
        rows := rows - {id};
      }
    }

    method PopulateHome(own: set<nat>, sources: seq<Source>, w: World)
      modifies this
      ensures State() == Populate(old(State()), own, sources, w)
    {
      AddEach(Descending(Newest(own, POPULATE_LIMIT)), w);
      var over := false;
      var i := 0;
      while i < |sources|
        invariant 0 <= i <= |sources|
        invariant over ==> POPULATE_LIMIT <= |timeline|
        invariant PopulateFrom(State(), over, sources[i..], w) == Populate(old(State()), own, sources, w)
      {
        assert sources[i..][0] == sources[i] && sources[i..][1..] == sources[i + 1..];
        over := over || POPULATE_LIMIT <= |timeline|;
        PopulateStepStaysOver(State(), over, sources[i], w);
        PopulateAccount(over, sources[i], w);
        i := i + 1;
      }
    }

    method PopulateAccount(over: bool, source: Source, w: World)
      requires over ==> timeline != {}
      modifies this
      ensures State() == PopulateStep(old(State()), over, source, w)
    {
      var wanted := source.posts;
      if over {
        var oldest := Min(timeline);
        if source.LastStatusScore() < oldest { return; }
        wanted := NotOlder(source.posts, oldest);
      }
      if wanted == {} { return; }
      AddEach(Descending(Newest(wanted, POPULATE_LIMIT)), w);
      TrimFeed();
    }
  }
  predicate ListedTwice(feeds: seq<FeedStore>, f: FeedStore) {
    exists i, j | 0 <= i < j < |feeds| :: feeds[i] == f && feeds[j] == f
  }

  /** The pipelined half: read each tracker, then delete timeline and tracker. */
  method CollectAndDrop(feeds: seq<FeedStore>) returns (collected: map<FeedStore, set<nat>>)
    modifies feeds
    ensures forall f :: f in collected <==> f in feeds
    ensures forall f | f in feeds :: f.timeline == {} && f.tracker == map[] && f.extras == old(f.extras)
    ensures forall f | f in feeds :: collected[f] == if ListedTwice(feeds, f) then {} else old(f.tracker.Keys)
  {
    collected := map[];
    var i := 0;
    while i < |feeds|
      invariant 0 <= i <= |feeds|
      invariant collected.Keys == set f | f in feeds[..i]
      invariant forall f | f in feeds :: f.extras == old(f.extras)
      invariant forall f | f in feeds && f !in collected :: f.tracker == old(f.tracker)
      invariant forall f | f in collected :: f.timeline == {} && f.tracker == map[]
      invariant forall f | f in collected ::
        collected[f] == if ListedTwice(feeds[..i], f) then {} else old(f.tracker.Keys)
    {
      var f := feeds[i];
      ListedTwiceStep(feeds, i);
      assert feeds[..i + 1] == feeds[..i] + [f];
      collected := collected[f := f.tracker.Keys];
      f.timeline, f.tracker := {}, map[];
      i := i + 1;
    }
    assert feeds[..i] == feeds;
  }

  /** The second half: one `DEL` for every extra set whose original was recorded. */
  method DropExtras(collected: map<FeedStore, set<nat>>)
    modifies collected.Keys
    ensures forall f | f in collected ::
      f.extras == old(f.extras) - collected[f] && f.timeline == old(f.timeline) && f.tracker == old(f.tracker)
  {
    var left := collected.Keys;
    while left != {}
      invariant left <= collected.Keys
      invariant forall f | f in collected :: f.timeline == old(f.timeline) && f.tracker == old(f.tracker)
      invariant forall f | f in left :: f.extras == old(f.extras)
      invariant forall f | f in collected.Keys - left :: f.extras == old(f.extras) - collected[f]
      decreases |left|
    {
      var f :| f in left;
      f.extras := f.extras - collected[f];
      left := left - {f};
    }
  }

  method CleanFeeds(feeds: seq<FeedStore>)
    modifies feeds
    ensures forall f | f in feeds :: f.State() == Clean(old(f.State()), ListedTwice(feeds, f))
  {
    var collected := CollectAndDrop(feeds);
    DropExtras(collected);
    forall f | f in feeds ensures f.State() == Clean(old(f.State()), ListedTwice(feeds, f)) {
      if ListedTwice(feeds, f) { assert old(f.extras) - {} == old(f.extras); }
    }
  }

  lemma ListedTwiceStep(feeds: seq<FeedStore>, i: nat)
    requires i < |feeds|
    ensures forall f ::
      ListedTwice(feeds[..i + 1], f) <==> ListedTwice(feeds[..i], f) || (f == feeds[i] && f in feeds[..i])
  {
    var before, now := feeds[..i], feeds[..i + 1];
    assert now == before + [feeds[i]];
    forall f ensures ListedTwice(now, f) <==> ListedTwice(before, f) || (f == feeds[i] && f in before) {
      if ListedTwice(before, f) {
        var a, b :| 0 <= a < b < |before| && before[a] == f && before[b] == f;
        assert now[a] == f && now[b] == f;
      }
      if f == feeds[i] && f in before {
        var a :| 0 <= a < |before| && before[a] == f;
        assert now[a] == f && now[i] == f;
      }
    }
  }
}
