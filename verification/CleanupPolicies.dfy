/** Automatic deletion of old posts: the policy, the cursor below which nothing is left to
    delete, and the runs that advance it. */
module CleanupPolicies {
  import opened Options
  import opened SortedSets

  const EARLY_SEARCH_CUTOFF: nat := 5000

  /** The columns of a post that exceptions look at, and its popularity counts. */
  datatype Post = Post(direct: bool, poll: bool, media: bool, favourites: nat, reblogs: nat)

  datatype Policy = Policy(
    enabled: bool, keepDirect: bool, keepPinned: bool, keepPolls: bool, keepMedia: bool, keepSelfFav: bool,
    keepSelfBookmark: bool, minFavs: Option<nat>, minReblogs: Option<nat>)

  /** The columns' defaults. */
  const DEFAULT_POLICY := Policy(true, true, true, false, false, true, true, None, None)

  /** One account: its id, its posts by id, what its owner pinned, favourited and bookmarked, the
      policy, the cursor `last_inspected` kept in Redis, and the newest post's id given out. */
  datatype Account = Account(
    id: nat, posts: map<nat, Post>, pinned: set<nat>, favourited: set<nat>, bookmarked: set<nat>,
    policy: Policy, cursor: Option<nat>, newestId: nat)

  // ----- The queries

  predicate Popular(policy: Policy, post: Post) {
    (policy.minReblogs.Some? && policy.minReblogs.value <= post.reblogs) ||
    (policy.minFavs.Some? && policy.minFavs.value <= post.favourites)
  }

  /** Whether some exception of the policy keeps the post, whatever its age. */
  predicate Excepted(a: Account, id: nat)
    requires id in a.posts
  {
    var post := a.posts[id];
    Popular(a.policy, post) ||
    (a.policy.keepDirect && post.direct) || (a.policy.keepPinned && id in a.pinned) ||
    (a.policy.keepPolls && post.poll) || (a.policy.keepMedia && post.media) ||
    (a.policy.keepSelfFav && id in a.favourited) || (a.policy.keepSelfBookmark && id in a.bookmarked)
  }

  function Below(s: set<nat>, x: nat): set<nat> {
    set y | y in s && y < x
  }

  /** The first `n` in ascending order. */
  function Oldest(s: set<nat>, n: nat): set<nat> {
    set x | x in s && |Below(s, x)| < n
  }

  function From(a: Account): nat {
    if a.cursor.Some? then a.cursor.value else 0
  }

  /** The posts between the cursor and an upper bound. */
  function Window(a: Account, upto: nat): set<nat> {
    set id | id in a.posts && From(a) <= id <= upto
  }

  /** `compute_cutoff_id`, `oldEnough` being the id of a post of exactly the minimum age. */
  function Cutoff(a: Account, oldEnough: nat): Option<nat> {
    var searched := Oldest(Window(a, oldEnough), EARLY_SEARCH_CUTOFF);
    if searched == {} then None else Some(Max(searched))
  }

  /** `statuses_to_delete`. */
  function ToDelete(a: Account, limit: nat, cutoff: nat): set<nat> {
    Oldest((set id | id in Window(a, cutoff) && !Excepted(a, id)), limit)
  }

  // ----- What changes the cursor

  /** `invalidate_last_inspected` for a status by `author`, `watched` being whether the policy
      keeps posts for the mark that was taken away. */
  function Invalidate(a: Account, id: nat, author: nat, watched: bool): Account {
    if a.cursor.None? || a.cursor.value < id || author != a.id || !watched then a else a.(cursor := Some(id))
  }

  predicate Widened(old': Policy, policy: Policy) {
    (old'.keepDirect && !policy.keepDirect) || (old'.keepPinned && !policy.keepPinned) ||
    (old'.keepPolls && !policy.keepPolls) || (old'.keepMedia && !policy.keepMedia) ||
    (old'.keepSelfFav && !policy.keepSelfFav) || (old'.keepSelfBookmark && !policy.keepSelfBookmark)
  }

  predicate ThresholdRaised(old': Option<nat>, threshold: Option<nat>) {
    old'.Some? && (threshold.None? || old'.value < threshold.value)
  }

  /** Saving an edited policy; `update_last_inspected` runs first. */
  function SavePolicy(a: Account, policy: Policy): Account {
    var restart := Widened(a.policy, policy) || ThresholdRaised(a.policy.minFavs, policy.minFavs)
                   || ThresholdRaised(a.policy.minReblogs, policy.minReblogs);
    a.(policy := policy, cursor := if restart then None else a.cursor)
  }

  /** One run of the cleanup service with the given budget. */
  function Cleanup(a: Account, budget: nat, oldEnough: nat): Account {
    if !a.policy.enabled then a else
    match Cutoff(a, oldEnough)
    case None => a
    case Some(cutoff) =>
      var doomed := ToDelete(a, budget, cutoff);
      a.(posts := a.posts - doomed, cursor := Some(if doomed == {} then cutoff else Max(doomed)))
  }

  class CleanupStore {
    const id: nat
    var posts: map<nat, Post>
    var pinned: set<nat>
    var favourited: set<nat>
    var bookmarked: set<nat>
    var policy: Policy
    var cursor: Option<nat>
    var newestId: nat

    constructor (a: Account)
      ensures State() == a
    {
      id := a.id;
      posts, pinned, favourited, bookmarked := a.posts, a.pinned, a.favourited, a.bookmarked;
      policy, cursor, newestId := a.policy, a.cursor, a.newestId;
    }

    function State(): Account
      reads this
    {
      Account(id, posts, pinned, favourited, bookmarked, policy, cursor, newestId)
    }

    method RecordLastInspected(last: nat)
      modifies this
      ensures State() == old(State()).(cursor := Some(last))
    {
      cursor := Some(last);
    }

    method InvalidateLastInspected(status: nat, author: nat, watched: bool)
      modifies this
      ensures State() == Invalidate(old(State()), status, author, watched)
    {
      if cursor.None? || status > cursor.value || author != id { return; }
      if !watched { return; }
      RecordLastInspected(status);
    }

    method UpdatePolicy(edited: Policy)
      modifies this
      ensures State() == SavePolicy(old(State()), edited)
    {
      if Widened(policy, edited) { cursor := None; }
      if ThresholdRaised(policy.minFavs, edited.minFavs) || ThresholdRaised(policy.minReblogs, edited.minReblogs) {
        cursor := None;
      }
      policy := edited;
    }

    method DiscardEach(doomed: set<nat>) returns (last: Option<nat>)
      modifies this`posts
      ensures posts == old(posts) - doomed
      ensures last == if doomed == {} then None else Some(Max(doomed))
    {
      var left := doomed;
      ghost var done: set<nat> := {};
      last := None;
      while left != {}
        invariant done + left == doomed
        invariant posts == old(posts) - done
        invariant last.None? ==> done == {}
        invariant last.Some? ==> last.value in done && forall x | x in done :: x <= last.value
        invariant last.Some? ==> forall y | y in left :: last.value < y
        decreases |left|
      {
        var status := Min(left);
        DropOneMore(old(posts), done, status);
        posts := posts - {status};
        left := left - {status};
        done := done + {status};
        last := Some(status);
      }
      if last.Some? { MaxIs(done, last.value); }
    }

    method RunCleanup(budget: nat, oldEnough: nat)
      modifies this
      ensures State() == Cleanup(old(State()), budget, oldEnough)
    {
      if !policy.enabled { return; }
      var cutoff := Cutoff(State(), oldEnough);
      if cutoff.None? { return; }
      var last := DiscardEach(ToDelete(State(), budget, cutoff.value));
      RecordLastInspected(if last.Some? then last.value else cutoff.value);
    }
  }

  lemma DropOneMore(posts: map<nat, Post>, done: set<nat>, id: nat)
    ensures (posts - done) - {id} == posts - (done + {id})
  {
  }

  // ----- Nothing below the cursor can be deleted

  predicate Unthresholded(policy: Policy) {
    policy.minFavs.None? && policy.minReblogs.None?
  }

  /** Every post below the cursor is kept by an exception that does not depend on its age. */
  ghost predicate CursorSound(a: Account) {
    a.cursor.Some? ==> forall id | id in a.posts && id < a.cursor.value :: Excepted(a, id)
  }

  datatype Event =
    | Publish(id: nat, post: Post)
    | Discard(id: nat)
    | Mark(pin: set<nat>, favourite: set<nat>, bookmark: set<nat>)
    | Unpin(id: nat, author: nat)
    | Unfavourite(id: nat, author: nat)
    | Unbookmark(id: nat, author: nat)
    | CountsChange(id: nat, favourites: nat, reblogs: nat)
    | EditPost(id: nat, post: Post)
    | Edit(policy: Policy)
    | Expire
    | Run(budget: nat, oldEnough: nat)

  /** A new post's id is unused, and above all before it unless the post is dated back; a mark is on
      a post of the account or on somebody else's; and a run may come at any time. */
  predicate Possible(a: Account, e: Event) {
    match e
    case Publish(id, _) => id !in a.posts
    case Unpin(id, author) => id in a.posts ==> author == a.id
    case Unfavourite(id, author) => id in a.posts ==> author == a.id
    case Unbookmark(id, author) => id in a.posts ==> author == a.id
    case CountsChange(id, _, _) => id in a.posts
    case EditPost(id, _) => id in a.posts
    case _ => true
  }

  /** A post's columns and counts change: an edit may set any visibility, add or drop a poll or
      media, and none of it touches the cursor. */
  function ChangePost(a: Account, id: nat, post: Post): Account {
    a.(posts := a.posts[id := post])
  }

  function Step(a: Account, e: Event): Account
    requires Possible(a, e)
  {
    match e
    case Publish(id, post) => ChangePost(a, id, post).(newestId := if a.newestId < id then id else a.newestId)
    case Discard(id) => a.(posts := a.posts - {id})
    case Mark(pin, favourite, bookmark) =>
      a.(pinned := a.pinned + pin, favourited := a.favourited + favourite, bookmarked := a.bookmarked + bookmark)
    case Unpin(id, author) => Invalidate(a.(pinned := a.pinned - {id}), id, author, a.policy.keepPinned)
    case Unfavourite(id, author) =>
      Invalidate(a.(favourited := a.favourited - {id}), id, author, a.policy.keepSelfFav)
    case Unbookmark(id, author) =>
      Invalidate(a.(bookmarked := a.bookmarked - {id}), id, author, a.policy.keepSelfBookmark)
    case CountsChange(id, favourites, reblogs) =>
      ChangePost(a, id, a.posts[id].(favourites := favourites, reblogs := reblogs))
    case EditPost(id, post) => ChangePost(a, id, post)
    case Edit(policy) => SavePolicy(a, policy)
    case Expire => a.(cursor := None)
    case Run(budget, oldEnough) => Cleanup(a, budget, oldEnough)
  }

  predicate Happens(a: Account, events: seq<Event>)
    decreases |events|
  {
    events == [] || (Possible(a, events[0]) && Happens(Step(a, events[0]), events[1..]))
  }

  function After(a: Account, events: seq<Event>): Account
    requires Happens(a, events)
    decreases |events|
  {
    if events == [] then a else After(Step(a, events[0]), events[1..])
  }

  lemma OldestDownward(s: set<nat>, n: nat, x: nat, y: nat)
    requires x in Oldest(s, n) && y in s && y <= x
    ensures y in Oldest(s, n)
  {
    SubsetSize(Below(s, y), Below(s, x));
  }

  lemma OldestHasMin(s: set<nat>, n: nat)
    requires s != {} && 0 < n
    ensures Min(s) in Oldest(s, n)
  {
    assert Below(s, Min(s)) == {};
  }

  lemma {:induction false} OldestSize(s: set<nat>, n: nat)
    ensures |Oldest(s, n)| == if |s| < n then |s| else n
    decreases |s|
  {
    if |s| <= n {
      forall x | x in s ensures x in Oldest(s, n) { SubsetSize(Below(s, x) + {x}, s); }
      assert Oldest(s, n) == s;
    } else {
      var m := Max(s);
      var rest := s - {m};
      assert Below(s, m) == rest;
      forall x | x in rest ensures Below(s, x) == Below(rest, x) {}
      assert Oldest(s, n) == Oldest(rest, n);
      OldestSize(rest, n);
    }
  }

  /** The posts from the cursor up to the cut-off that no exception keeps. */
  function Deletable(a: Account, cutoff: nat): set<nat> {
    set id | id in a.posts && From(a) <= id <= cutoff && !Excepted(a, id)
  }

  function Deleted(a: Account, budget: nat, oldEnough: nat): set<nat> {
    a.posts.Keys - Cleanup(a, budget, oldEnough).posts.Keys
  }

  lemma DeletedAreOldest(a: Account, budget: nat, oldEnough: nat)
    requires a.policy.enabled && Cutoff(a, oldEnough).Some?
    ensures Deleted(a, budget, oldEnough) == Oldest(Deletable(a, Cutoff(a, oldEnough).value), budget)
  {
    var cutoff := Cutoff(a, oldEnough).value;
    assert Deletable(a, cutoff) == set id | id in Window(a, cutoff) && !Excepted(a, id);
    assert ToDelete(a, budget, cutoff) == Oldest(Deletable(a, cutoff), budget);
  }

  /** A run deletes the oldest deletable posts, as many as the budget allows, and nothing else. */
  lemma CleanupDeletesOldest(a: Account, budget: nat, oldEnough: nat)
    requires a.policy.enabled && Cutoff(a, oldEnough).Some?
    ensures var cutoff := Cutoff(a, oldEnough).value;
      var deletable, deleted := Deletable(a, cutoff), Deleted(a, budget, oldEnough);
      && cutoff <= oldEnough && deleted <= deletable
      && |deleted| == (if |deletable| < budget then |deletable| else budget)
      && forall x, y | x in deleted && y in deletable - deleted :: x < y
  {
    var cutoff := Cutoff(a, oldEnough).value;
    assert cutoff in Window(a, oldEnough);
    DeletedAreOldest(a, budget, oldEnough);
    hide Deletable, Deleted;
    OldestSize(Deletable(a, cutoff), budget);
    OldestFirst(Deletable(a, cutoff), budget);
  }

  lemma OldestFirst(s: set<nat>, n: nat)
    ensures forall x, y | x in Oldest(s, n) && y in s - Oldest(s, n) :: x < y
  {
    forall x, y | x in Oldest(s, n) && y in s - Oldest(s, n) ensures x < y {
      if y <= x { OldestDownward(s, n, x, y); }
    }
  }

  // ----- What a run deletes, in terms of the columns

  /** No exception of the policy applies to a post with these marks: each thing that the policy
      keeps, it lacks, and it is less popular than every threshold. */
  predicate Exposes(policy: Policy, post: Post, pinned: bool, favourited: bool, bookmarked: bool) {
    && (policy.keepDirect ==> !post.direct) && (policy.keepPolls ==> !post.poll) && (policy.keepMedia ==> !post.media)
    && (policy.keepPinned ==> !pinned) && (policy.keepSelfFav ==> !favourited)
    && (policy.keepSelfBookmark ==> !bookmarked)
    && (policy.minFavs.Some? ==> post.favourites < policy.minFavs.value)
    && (policy.minReblogs.Some? ==> post.reblogs < policy.minReblogs.value)
  }

  predicate Unprotected(a: Account, id: nat)
    requires id in a.posts
  {
    Exposes(a.policy, a.posts[id], id in a.pinned, id in a.favourited, id in a.bookmarked)
  }

  lemma ExceptedIff(a: Account, id: nat)
    requires id in a.posts
    ensures Excepted(a, id) <==> !Unprotected(a, id)
  {
  }

  /** The posts that a run looks at: from the cursor up to a cut-off, unprotected. */
  function Doomable(a: Account, cutoff: nat): set<nat> {
    set id | id in a.posts && From(a) <= id <= cutoff && Unprotected(a, id)
  }

  /** The cut-off is a post old enough, not below the cursor, and the newest such one unless 5000
      posts lie before it. */
  lemma CutoffIs(a: Account, oldEnough: nat)
    ensures var window := set id | id in a.posts && From(a) <= id <= oldEnough;
      match Cutoff(a, oldEnough)
      case None => window == {}
      case Some(cutoff) =>
        && cutoff in window
        && (|Below(window, cutoff)| + 1 == EARLY_SEARCH_CUTOFF ||
            (|Below(window, cutoff)| + 1 < EARLY_SEARCH_CUTOFF && forall id | id in window :: id <= cutoff))
  {
    var window := Window(a, oldEnough);
    assert window == set id | id in a.posts && From(a) <= id <= oldEnough;
    var searched := Oldest(window, EARLY_SEARCH_CUTOFF);
    OldestSize(window, EARLY_SEARCH_CUTOFF);
    if searched == {} {
      if window != {} { OldestHasMin(window, EARLY_SEARCH_CUTOFF); }
    } else {
      var cutoff := Max(searched);
      OldestFirst(window, EARLY_SEARCH_CUTOFF);
      assert Below(window, cutoff) + {cutoff} == searched by {
        forall id | id in window && id < cutoff ensures id in searched {
          OldestDownward(window, EARLY_SEARCH_CUTOFF, cutoff, id);
        }
      }
      if |window| < EARLY_SEARCH_CUTOFF {
        SubsetSize(searched, window);
      }
      if |searched| < EARLY_SEARCH_CUTOFF { SubsetSize(searched, window); }
    }
  }

  /** A post is deleted if and only if it lies between cursor and cut-off, no exception applies to it,
      and the budget reaches it. */
  lemma DeletedIff(a: Account, budget: nat, oldEnough: nat, id: nat)
    requires a.policy.enabled && Cutoff(a, oldEnough).Some?
    ensures var cutoff := Cutoff(a, oldEnough).value;
      id in Deleted(a, budget, oldEnough) <==>
        && id in a.posts && From(a) <= id <= cutoff && Unprotected(a, id)
        && |Below(Doomable(a, cutoff), id)| < budget
  {
    var cutoff := Cutoff(a, oldEnough).value;
    DeletedAreOldest(a, budget, oldEnough);
    forall x | x in a.posts ensures Excepted(a, x) <==> !Unprotected(a, x) { ExceptedIff(a, x); }
    hide Excepted, Unprotected, Deleted, Cutoff;
    assert Doomable(a, cutoff) == Deletable(a, cutoff);
  }

  /** What a run leaves of the account; only posts go and the cursor moves. */
  lemma CleanupParts(a: Account, budget: nat, oldEnough: nat)
    requires a.policy.enabled && Cutoff(a, oldEnough).Some?
    ensures var cutoff, a' := Cutoff(a, oldEnough).value, Cleanup(a, budget, oldEnough);
      var doomed := Oldest(Deletable(a, cutoff), budget);
      && a'.posts == a.posts - doomed && a'.cursor == Some(if doomed == {} then cutoff else Max(doomed))
      && forall id | id in a'.posts :: Excepted(a', id) <==> Excepted(a, id)
  {
    var cutoff := Cutoff(a, oldEnough).value;
    assert Deletable(a, cutoff) == set id | id in Window(a, cutoff) && !Excepted(a, id);
  }

  /** After a run with a positive budget nothing deletable is left below the new cursor; a
      run with no budget leaves what was deletable between the old cursor and the cut-off. */
  lemma CleanupCursorSoundIff(a: Account, budget: nat, oldEnough: nat)
    requires CursorSound(a) && a.policy.enabled && Cutoff(a, oldEnough).Some?
    ensures CursorSound(Cleanup(a, budget, oldEnough)) <==>
      0 < budget || forall id | id in a.posts && From(a) <= id < Cutoff(a, oldEnough).value :: Excepted(a, id)
  {
    var cutoff, a' := Cutoff(a, oldEnough).value, Cleanup(a, budget, oldEnough);
    var deletable := Deletable(a, cutoff);
    var doomed := Oldest(deletable, budget);
    CleanupParts(a, budget, oldEnough);
    hide Cleanup, Cutoff, Excepted;
    if 0 < budget {
      if deletable != {} { OldestHasMin(deletable, budget); }
      forall id | id in a'.posts && id < a'.cursor.value ensures Excepted(a', id) {
        if id in deletable {
          OldestDownward(deletable, budget, Max(doomed), id);
        }
      }
    } else {
      assert doomed == {};
    }
  }

  lemma CleanupCursorBound(a: Account, budget: nat, oldEnough: nat)
    requires Bounded(a)
    ensures Bounded(Cleanup(a, budget, oldEnough))
  {
    if a.policy.enabled && Cutoff(a, oldEnough).Some? {
      var cutoff := Cutoff(a, oldEnough).value;
      assert cutoff in Window(a, oldEnough);
      if ToDelete(a, budget, cutoff) != {} {
        assert Max(ToDelete(a, budget, cutoff)) in Window(a, cutoff);
      }
    }
  }

  // ----- What the cursor does not notice

  /** Whether the cursor stays sound when this post comes or changes: it is not below the cursor,
      or the policy keeps it as it is now. */
  predicate ChangeKeepsCursor(a: Account, id: nat, post: Post) {
    a.cursor.None? || a.cursor.value <= id || Excepted(ChangePost(a, id, post), id)
  }

  /** A post that is dated back, is edited, or loses favourites from others, may be deletable without
      moving the cursor: it stays sound if and only if the post is not below it or is kept. */
  lemma ChangePostIff(a: Account, id: nat, post: Post)
    requires CursorSound(a)
    ensures CursorSound(ChangePost(a, id, post)) <==> ChangeKeepsCursor(a, id, post)
  {
    var a' := ChangePost(a, id, post);
    forall x | x in a'.posts && x != id ensures Excepted(a', x) <==> Excepted(a, x) {}
  }

  /** With thresholds, losing favourites or boosts is such a change. */
  lemma CountsChangeIff(a: Account, id: nat, favourites: nat, reblogs: nat)
    requires CursorSound(a) && id in a.posts
    ensures var a' := Step(a, CountsChange(id, favourites, reblogs));
      CursorSound(a') <==> a.cursor.None? || a.cursor.value <= id || Excepted(a', id)
  {
    ChangePostIff(a, id, a.posts[id].(favourites := favourites, reblogs := reblogs));
  }

  /** Dropping the poll is another. */
  lemma DropPollIff(a: Account, id: nat)
    requires CursorSound(a) && id in a.posts
    ensures var a' := ChangePost(a, id, a.posts[id].(poll := false));
      CursorSound(a') <==> a.cursor.None? || a.cursor.value <= id || Excepted(a', id)
  {
    ChangePostIff(a, id, a.posts[id].(poll := false));
  }

  /** And under the default policy so is making a direct post public: a run that has passed it
      does not find it again. */
  lemma PublishedDirectPostIsMissed(owner: nat, direct: Post, plain: Post, budget: nat)
    requires direct.direct && !plain.direct && 0 < budget
    ensures var a := Account(owner, map[], {}, {}, {}, DEFAULT_POLICY, None, 0);
      var events := [Publish(1, direct), Publish(2, plain), Run(budget, 2), EditPost(1, direct.(direct := false))];
      && Happens(a, events) && Sound(a)
      && var end := After(a, events); !CursorSound(end) && end.cursor == Some(2) && end.posts.Keys == {1}
  {
    var a := Account(owner, map[], {}, {}, {}, DEFAULT_POLICY, None, 0);
    var first, second := Publish(1, direct), Publish(2, plain);
    var run, edit := Run(budget, 2), EditPost(1, direct.(direct := false));
    var a1 := a.(posts := map[1 := direct], newestId := 1);
    var a2 := a1.(posts := map[1 := direct, 2 := plain], newestId := 2);
    var a3 := a2.(posts := map[1 := direct], cursor := Some(2));
    assert Possible(a, first) && Step(a, first) == a1;
    assert Possible(a1, second) && Step(a1, second) == a2;
    RunOnTwo(a2, direct, plain, budget);
    assert Possible(a2, run) && Step(a2, run) == a3;
    EditBreaks(a3, direct);
    hide Step, Possible, Happens, After, CursorSound;
    NoEvents(Step(a3, edit));
    FirstEvent(a3, edit, []);
    FirstEvent(a2, run, [edit]);
    FirstEvent(a1, second, [run, edit]);
    FirstEvent(a, first, [second, run, edit]);
    assert [edit] + [] == [edit] && [run] + [edit] == [run, edit];
    assert [second] + [run, edit] == [second, run, edit] && [first] + [second, run, edit] == [first, second, run, edit];
  }

  lemma EditBreaks(a: Account, direct: Post)
    requires a.posts == map[1 := direct] && a.pinned == a.favourited == a.bookmarked == {}
    requires a.policy == DEFAULT_POLICY && a.cursor == Some(2) && direct.direct
    ensures var edit := EditPost(1, direct.(direct := false));
      && Possible(a, edit)
      && var a' := Step(a, edit); !CursorSound(a') && a'.cursor == Some(2) && a'.posts.Keys == {1}
  {
    var a' := Step(a, EditPost(1, direct.(direct := false)));
    assert 1 in a'.posts && !Excepted(a', 1);
  }

  /** And so is posting under a past id: the post lies below the cursor that a run has left. */
  lemma BackdatedPostIsMissed(owner: nat, plain: Post, late: Post, budget: nat)
    requires !plain.direct && !late.direct && 0 < budget
    ensures var a := Account(owner, map[], {}, {}, {}, DEFAULT_POLICY, None, 0);
      var events := [Publish(2, plain), Run(budget, 2), Publish(1, late)];
      && Happens(a, events) && Sound(a)
      && var end := After(a, events); !CursorSound(end) && end.cursor == Some(2) && end.posts.Keys == {1}
  {
    var a := Account(owner, map[], {}, {}, {}, DEFAULT_POLICY, None, 0);
    var events := [Publish(2, plain), Run(budget, 2), Publish(1, late)];
    var a1 := Step(a, events[0]);
    assert a1 == a.(posts := map[2 := plain], newestId := 2);
    RunOnOne(a1, plain, budget);
    var a2 := Step(a1, events[1]);
    assert a2 == a1.(posts := map[], cursor := Some(2));
    var a3 := Step(a2, events[2]);
    assert 1 in a3.posts && !Excepted(a3, 1);
    hide Step, Possible, Happens, After;
    NoEvents(a3);
    FirstEvent(a2, events[2], []);
    FirstEvent(a1, events[1], [events[2]]);
    FirstEvent(a, events[0], [events[1], events[2]]);
    assert [events[2]] + [] == [events[2]] && [events[1]] + [events[2]] == [events[1], events[2]];
    assert [events[0]] + [events[1], events[2]] == events;
  }

  lemma NoEvents(a: Account)
    ensures Happens(a, []) && After(a, []) == a
  {
  }

  lemma FirstEvent(a: Account, e: Event, rest: seq<Event>)
    requires Possible(a, e) && Happens(Step(a, e), rest)
    ensures Happens(a, [e] + rest) && After(a, [e] + rest) == After(Step(a, e), rest)
  {
    hide Step, Possible;
    assert ([e] + rest)[1..] == rest;
  }

  lemma RunOnOne(a: Account, plain: Post, budget: nat)
    requires a.posts == map[2 := plain] && a.pinned == a.favourited == a.bookmarked == {}
    requires a.policy == DEFAULT_POLICY && a.cursor == None && !plain.direct && 0 < budget
    ensures Cleanup(a, budget, 2) == a.(posts := map[], cursor := Some(2))
  {
    var window := Window(a, 2);
    assert window == {2};
    OldestHasMin(window, EARLY_SEARCH_CUTOFF);
    assert Cutoff(a, 2) == Some(2);
    var candidates := set id | id in Window(a, 2) && !Excepted(a, id);
    assert candidates == {2};
    OldestHasMin(candidates, budget);
    assert ToDelete(a, budget, 2) == {2};
    assert a.posts - {2} == map[];
  }

  /** A run over a direct and a plain post deletes the plain one and stops at it. */
  lemma RunOnTwo(a: Account, direct: Post, plain: Post, budget: nat)
    requires a.posts == map[1 := direct, 2 := plain] && a.pinned == a.favourited == a.bookmarked == {}
    requires a.policy == DEFAULT_POLICY && a.cursor == None && direct.direct && !plain.direct && 0 < budget
    ensures Cleanup(a, budget, 2) == a.(posts := map[1 := direct], cursor := Some(2))
  {
    var window := Window(a, 2);
    assert window == {1, 2};
    OldestSize(window, EARLY_SEARCH_CUTOFF);
    SubsetSize(Oldest(window, EARLY_SEARCH_CUTOFF), window);
    MaxIs(window, 2);
    assert Cutoff(a, 2) == Some(2);
    var candidates := set id | id in Window(a, 2) && !Excepted(a, id);
    assert candidates == {2};
    OldestHasMin(candidates, budget);
    assert ToDelete(a, budget, 2) == {2};
    assert a.posts - {2} == map[1 := direct];
  }

  // ----- Every history

  /** Nothing that a run with this cut-off could delete is left behind by it. */
  predicate RunKeepsCursor(a: Account, budget: nat, oldEnough: nat) {
    a.policy.enabled && Cutoff(a, oldEnough).Some? ==>
      0 < budget || forall id | id in a.posts && From(a) <= id < Cutoff(a, oldEnough).value :: Excepted(a, id)
  }

  /** Only four kinds of event can leave something deletable below the cursor: a post dated back,
      a post that changes in its columns or its counts, and a run with no budget. */
  predicate KeepsCursor(a: Account, e: Event)
    requires Possible(a, e)
  {
    match e
    case Publish(id, post) => ChangeKeepsCursor(a, id, post)
    case CountsChange(id, favourites, reblogs) =>
      ChangeKeepsCursor(a, id, a.posts[id].(favourites := favourites, reblogs := reblogs))
    case EditPost(id, post) => ChangeKeepsCursor(a, id, post)
    case Run(budget, oldEnough) => RunKeepsCursor(a, budget, oldEnough)
    case _ => true
  }

  lemma StepKeepsCursorIff(a: Account, e: Event)
    requires CursorSound(a) && Possible(a, e)
    ensures CursorSound(Step(a, e)) <==> KeepsCursor(a, e)
  {
    match e
    case Publish(id, post) =>
      ChangePostIff(a, id, post);
      NewestIdApart(ChangePost(a, id, post), Step(a, e).newestId);
    case CountsChange(id, favourites, reblogs) =>
      ChangePostIff(a, id, a.posts[id].(favourites := favourites, reblogs := reblogs));
    case EditPost(id, post) => ChangePostIff(a, id, post);
    case Run(budget, oldEnough) =>
      if a.policy.enabled && Cutoff(a, oldEnough).Some? { CleanupCursorSoundIff(a, budget, oldEnough); }
    case _ =>
  }

  lemma NewestIdApart(a: Account, newestId: nat)
    ensures CursorSound(a.(newestId := newestId)) <==> CursorSound(a)
  {
    var a' := a.(newestId := newestId);
    forall id | id in a.posts ensures Excepted(a', id) <==> Excepted(a, id) {}
  }

  ghost predicate CursorSoundThroughout(a: Account, events: seq<Event>)
    requires Happens(a, events)
    decreases |events|
  {
    CursorSound(a) && (events == [] || CursorSoundThroughout(Step(a, events[0]), events[1..]))
  }

  predicate EachKeepsCursor(a: Account, events: seq<Event>)
    requires Happens(a, events)
    decreases |events|
  {
    events == [] || (KeepsCursor(a, events[0]) && EachKeepsCursor(Step(a, events[0]), events[1..]))
  }

  /** Whatever the policy, its thresholds and its edits: nothing below the cursor is deletable at
      any moment of a history if and only if no post dated back, no change of a post and no run
      without budget breaks it. */
  lemma {:induction false} CursorSoundThroughoutIff(a: Account, events: seq<Event>)
    requires CursorSound(a) && Happens(a, events)
    ensures CursorSoundThroughout(a, events) <==> EachKeepsCursor(a, events)
    decreases |events|
  {
    if events != [] {
      StepKeepsCursorIff(a, events[0]);
      if KeepsCursor(a, events[0]) {
        hide Step, Possible, CursorSound, KeepsCursor;
        CursorSoundThroughoutIff(Step(a, events[0]), events[1..]);
      }
    }
  }

  /** Sound unless the policy has popularity thresholds, under which the cursor may be ahead. */
  ghost predicate Sound(a: Account) {
    Unthresholded(a.policy) ==> CursorSound(a)
  }

  /** A change of counts does not matter without thresholds. */
  predicate KeepsSound(a: Account, e: Event)
    requires Possible(a, e)
  {
    Unthresholded(a.policy) && !e.CountsChange? ==> KeepsCursor(a, e)
  }

  lemma StepKeepsSoundIff(a: Account, e: Event)
    requires Sound(a) && Possible(a, e)
    ensures Sound(Step(a, e)) <==> KeepsSound(a, e)
  {
    if Unthresholded(a.policy) { StepKeepsCursorIff(a, e); }
  }

  ghost predicate SoundThroughout(a: Account, events: seq<Event>)
    requires Happens(a, events)
    decreases |events|
  {
    Sound(a) && (events == [] || SoundThroughout(Step(a, events[0]), events[1..]))
  }

  predicate EachKeepsSound(a: Account, events: seq<Event>)
    requires Happens(a, events)
    decreases |events|
  {
    events == [] || (KeepsSound(a, events[0]) && EachKeepsSound(Step(a, events[0]), events[1..]))
  }

  /** Whatever posts appear and go, are marked and unmarked, lose favourites, however the policy is
      edited and however often it runs: while it has no popularity thresholds nothing below the
      cursor is deletable, at every moment of a history, if and only if each post dated back, each
      edit of a post, and each run with no budget, keeps it so. */
  lemma {:induction false} CursorSoundEver(a: Account, events: seq<Event>)
    requires Sound(a) && Happens(a, events)
    ensures SoundThroughout(a, events) <==> EachKeepsSound(a, events)
    decreases |events|
  {
    if events != [] {
      StepKeepsSoundIff(a, events[0]);
      if KeepsSound(a, events[0]) {
        hide Step, Possible, Sound, KeepsSound;
        CursorSoundEver(Step(a, events[0]), events[1..]);
      }
    }
  }

  /** Neither a post nor the cursor is ahead of the newest id given out. */
  ghost predicate Bounded(a: Account) {
    (forall id | id in a.posts :: id <= a.newestId) && (a.cursor.Some? ==> a.cursor.value <= a.newestId)
  }

  lemma StepBounded(a: Account, e: Event)
    requires Bounded(a) && Possible(a, e)
    ensures Bounded(Step(a, e))
  {
    match e
    case Run(budget, oldEnough) => CleanupCursorBound(a, budget, oldEnough);
    case _ =>
  }

  /** Posts come in the order of their ids, none is edited, and every run has a budget. */
  predicate Ordinary(a: Account, e: Event) {
    && (e.Publish? ==> a.newestId < e.id)
    && !e.EditPost?
    && (e.Run? ==> 0 < e.budget)
  }

  predicate EachOrdinary(a: Account, events: seq<Event>)
    requires Happens(a, events)
    decreases |events|
  {
    events == [] || (Ordinary(a, events[0]) && EachOrdinary(Step(a, events[0]), events[1..]))
  }

  /** In such a history everything keeps it so. */
  lemma {:induction false} PlainHistoryKeepsSound(a: Account, events: seq<Event>)
    requires Bounded(a) && Happens(a, events) && EachOrdinary(a, events)
    ensures EachKeepsSound(a, events)
    decreases |events|
  {
    if events != [] {
      StepBounded(a, events[0]);
      assert KeepsSound(a, events[0]);
      hide Step, Possible, KeepsSound, Bounded, Ordinary;
      PlainHistoryKeepsSound(Step(a, events[0]), events[1..]);
    }
  }

  // ----- When the cursor is moved back

  /** Taking a mark away moves the cursor back to the post exactly if the post is the account's own,
      is not above the cursor, and the policy keeps posts for this mark. */
  lemma UnmarkMovesCursor(a: Account, id: nat, author: nat)
    requires id in a.posts ==> author == a.id
    ensures var own := a.cursor.Some? && id <= a.cursor.value && author == a.id;
      && Step(a, Unpin(id, author)).cursor == (if own && a.policy.keepPinned then Some(id) else a.cursor)
      && Step(a, Unfavourite(id, author)).cursor == (if own && a.policy.keepSelfFav then Some(id) else a.cursor)
      && Step(a, Unbookmark(id, author)).cursor == (if own && a.policy.keepSelfBookmark then Some(id) else a.cursor)
  {
  }

  /** Thresholds are at least one, as the policy validates. */
  predicate Validated(policy: Policy) {
    (policy.minFavs.Some? ==> 0 < policy.minFavs.value) && (policy.minReblogs.Some? ==> 0 < policy.minReblogs.value)
  }

  /** Some post, with some marks, would be kept under the one policy and not under the other. */
  ghost predicate KeepsLess(policy: Policy, edited: Policy) {
    exists post, pinned, favourited, bookmarked ::
      !Exposes(policy, post, pinned, favourited, bookmarked) && Exposes(edited, post, pinned, favourited, bookmarked)
  }

  /** Saving an edited policy drops the cursor if and only if some post would lose its protection. */
  lemma EditDropsCursorIff(a: Account, edited: Policy)
    requires a.cursor.Some? && Validated(a.policy) && Validated(edited)
    ensures SavePolicy(a, edited).cursor == if KeepsLess(a.policy, edited) then None else a.cursor
  {
    if SavePolicy(a, edited).cursor.None? {
      LosesProtection(a.policy, edited);
    }
  }

  /** A post that has one thing only: what the edited policy no longer keeps. */
  lemma LosesProtection(policy: Policy, edited: Policy)
    requires Validated(policy) && Validated(edited)
    requires Widened(policy, edited) || ThresholdRaised(policy.minFavs, edited.minFavs)
             || ThresholdRaised(policy.minReblogs, edited.minReblogs)
    ensures KeepsLess(policy, edited)
  {
    var bare := Post(false, false, false, 0, 0);
    var post :=
      if policy.keepDirect && !edited.keepDirect then bare.(direct := true)
      else if policy.keepPolls && !edited.keepPolls then bare.(poll := true)
      else if policy.keepMedia && !edited.keepMedia then bare.(media := true)
      else if ThresholdRaised(policy.minFavs, edited.minFavs) then bare.(favourites := policy.minFavs.value)
      else if ThresholdRaised(policy.minReblogs, edited.minReblogs) then bare.(reblogs := policy.minReblogs.value)
      else bare;
    var pinned := policy.keepPinned && !edited.keepPinned;
    var favourited := policy.keepSelfFav && !edited.keepSelfFav;
    var bookmarked := policy.keepSelfBookmark && !edited.keepSelfBookmark;
    assert !Exposes(policy, post, pinned, favourited, bookmarked);
    assert Exposes(edited, post, pinned, favourited, bookmarked);
  }

  // ----- Other events during a run

  /** A run that has made its query: the posts it is going to discard, and the id it is going to
      record after that. */
  datatype Pass = Pass(doomed: set<nat>, record: nat)

  /** What `call` has read before its loop, if it goes on. */
  function Query(a: Account, budget: nat, oldEnough: nat): Option<Pass> {
    if !a.policy.enabled then None else
    match Cutoff(a, oldEnough)
    case None => None
    case Some(cutoff) =>
      var doomed := ToDelete(a, budget, cutoff);
      Some(Pass(doomed, if doomed == {} then cutoff else Max(doomed)))
  }

  function Finish(a: Account, pass: Pass): Account {
    a.(posts := a.posts - pass.doomed, cursor := Some(pass.record))
  }

  /** Without anything in between this is the run. */
  lemma QueryAndFinishIsCleanup(a: Account, budget: nat, oldEnough: nat)
    ensures Cleanup(a, budget, oldEnough)
      == match Query(a, budget, oldEnough) case None => a case Some(pass) => Finish(a, pass)
  {
  }

  /** Every post below the id to be recorded is kept, but for those about to go. */
  ghost predicate Covered(a: Account, pass: Pass) {
    forall id | id in a.posts && id < pass.record && id !in pass.doomed :: Excepted(a, id)
  }

  lemma FinishSoundIff(a: Account, pass: Pass)
    ensures CursorSound(Finish(a, pass)) <==> Covered(a, pass)
  {
    var a' := Finish(a, pass);
    forall id | id in a'.posts ensures Excepted(a', id) <==> Excepted(a, id) {}
  }

  lemma QueryCoversIff(a: Account, budget: nat, oldEnough: nat)
    requires CursorSound(a) && Query(a, budget, oldEnough).Some?
    ensures Covered(a, Query(a, budget, oldEnough).value) <==> RunKeepsCursor(a, budget, oldEnough)
  {
    var pass := Query(a, budget, oldEnough).value;
    QueryAndFinishIsCleanup(a, budget, oldEnough);
    FinishSoundIff(a, pass);
    CleanupCursorSoundIff(a, budget, oldEnough);
  }

  /** The post is not one that the cursor is about to pass, or it is kept. */
  predicate Passable(a: Account, pass: Pass, id: nat) {
    id in a.posts && id < pass.record && id !in pass.doomed ==> Excepted(a, id)
  }

  /** Which events during a run leave it sound: a mark taken away lowers the cursor in vain, as the
      run records its id over it; so the post must be kept otherwise, like one that comes or
      changes.  A policy must go on keeping what it kept. */
  predicate KeepsCovered(a: Account, pass: Pass, e: Event)
    requires Possible(a, e)
  {
    match e
    case Publish(id, _) => Passable(Step(a, e), pass, id)
    case CountsChange(id, _, _) => Passable(Step(a, e), pass, id)
    case EditPost(id, _) => Passable(Step(a, e), pass, id)
    case Unpin(id, _) => Passable(Step(a, e), pass, id)
    case Unfavourite(id, _) => Passable(Step(a, e), pass, id)
    case Unbookmark(id, _) => Passable(Step(a, e), pass, id)
    case Edit(policy) => forall id | id in a.posts :: Passable(a.(policy := policy), pass, id)
    case _ => true
  }

  lemma StepKeepsCoveredIff(a: Account, pass: Pass, e: Event)
    requires Covered(a, pass) && Possible(a, e) && !e.Run?
    ensures Covered(Step(a, e), pass) <==> KeepsCovered(a, pass, e)
  {
    var a' := Step(a, e);
    if e.Edit? {
      forall id | id in a.posts ensures Excepted(a', id) <==> Excepted(a.(policy := e.policy), id) {}
    } else if e.Publish? || e.CountsChange? || e.EditPost? || e.Unpin? || e.Unfavourite? || e.Unbookmark? {
      forall id | id in a'.posts && id != e.id ensures id in a.posts && (Excepted(a', id) <==> Excepted(a, id)) {}
    }
  }

  ghost predicate CoveredThroughout(a: Account, pass: Pass, events: seq<Event>)
    requires Happens(a, events)
    decreases |events|
  {
    Covered(a, pass) && (events == [] || CoveredThroughout(Step(a, events[0]), pass, events[1..]))
  }

  predicate EachKeepsCovered(a: Account, pass: Pass, events: seq<Event>)
    requires Happens(a, events)
    decreases |events|
  {
    events == [] ||
    (KeepsCovered(a, pass, events[0]) && EachKeepsCovered(Step(a, events[0]), pass, events[1..]))
  }

  /** A run that other events interrupt may finish at any moment with a sound cursor if and only if
      it had a budget, or nothing to delete, and each of the events leaves it sound. */
  lemma InterruptedRunIff(a: Account, budget: nat, oldEnough: nat, events: seq<Event>)
    requires CursorSound(a) && Happens(a, events) && forall e | e in events :: !e.Run?
    requires Query(a, budget, oldEnough).Some?
    ensures var pass := Query(a, budget, oldEnough).value;
      CoveredThroughout(a, pass, events) <==>
        RunKeepsCursor(a, budget, oldEnough) && EachKeepsCovered(a, pass, events)
  {
    var pass := Query(a, budget, oldEnough).value;
    QueryCoversIff(a, budget, oldEnough);
    if Covered(a, pass) { CoveredThroughoutIff(a, pass, events); }
  }

  lemma {:induction false} CoveredThroughoutIff(a: Account, pass: Pass, events: seq<Event>)
    requires Covered(a, pass) && Happens(a, events) && forall e | e in events :: !e.Run?
    ensures CoveredThroughout(a, pass, events) <==> EachKeepsCovered(a, pass, events)
    decreases |events|
  {
    if events != [] {
      assert events[0] in events;
      StepKeepsCoveredIff(a, pass, events[0]);
      if KeepsCovered(a, pass, events[0]) {
        hide Step, Possible, Covered, KeepsCovered;
        CoveredThroughoutIff(Step(a, events[0]), pass, events[1..]);
      }
    }
  }

  /** An unpin of a post that the run has passed is lost on it. */
  lemma UnpinDuringRunIsMissed(a: Account, pass: Pass, id: nat)
    requires Covered(a, pass) && id in a.posts && id < pass.record && id !in pass.doomed
    requires !Excepted(a.(pinned := a.pinned - {id}), id)
    ensures Possible(a, Unpin(id, a.id)) && !CursorSound(Finish(Step(a, Unpin(id, a.id)), pass))
  {
    var a' := Step(a, Unpin(id, a.id));
    assert Excepted(a', id) <==> Excepted(a.(pinned := a.pinned - {id}), id);
    FinishSoundIff(a', pass);
  }

  /** A post whose mark was taken away is looked at again if it may have been kept for it: it is
      then either kept otherwise or no longer below the cursor. */
  lemma UnmarkedPostIsSeenAgain(a: Account, id: nat)
    requires CursorSound(a) && a.cursor.Some? && id in a.posts && id <= a.cursor.value
    ensures forall e | e in {Unpin(id, a.id), Unfavourite(id, a.id), Unbookmark(id, a.id)} ::
      var a' := Step(a, e); CursorSound(a') && (a'.cursor.value <= id || Excepted(a', id))
  {
  }
}
