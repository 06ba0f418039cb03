/** What is left of a feed after an account is unfollowed. */
module FeedUnmerge {
  import opened Options
  import opened SortedSets
  import opened FeedManager
  import opened FeedRuns

  /** `validates :reblog, uniqueness: { scope: :account }` over undeleted rows. */
  ghost predicate OneReblogPerAccount(kept: set<nat>, status: nat -> Status) {
    forall x, y | x in kept && y in kept && x != y && status(x).reblogOf.Some?
      && status(x).reblogOf == status(y).reblogOf :: status(x).account != status(y).account
  }

  ghost predicate RowsOf(ids: set<nat>, kept: set<nat>, account: nat, status: nat -> Status) {
    forall x | x in ids :: x in kept && status(x).account == account
  }

  ghost predicate OnlyListedRows(f: Feed, ids: set<nat>, kept: set<nat>, account: nat, status: nat -> Status) {
    forall x | x in f.timeline && x in kept && status(x).account == account :: x in ids
  }

  /** `x` is a reblog of something that one of the removed rows reblogged. */
  ghost predicate StandsInFor(x: nat, ids: set<nat>, status: nat -> Status) {
    exists y :: y in ids && status(y).reblogOf.Some? && status(y).reblogOf == status(x).reblogOf
  }

  /** One row taken out: only it leaves, and only a reblog of the same original enters. */
  lemma RemoveOne(f: Feed, s: Status, aggregate: Option<bool>, status: nat -> Status)
    requires Genuine(f, status)
    ensures var g := Remove(f, s, aggregate).0;
      && s.id !in g.timeline
      && f.timeline - {s.id} <= g.timeline
      && forall x | x in g.timeline - f.timeline ::
           x != s.id && s.reblogOf.Some? && status(x).reblogOf == s.reblogOf
  {
  }

  lemma {:induction false} RemoveAllOutcome(f: Feed, ids: set<nat>, kept: set<nat>, account: nat, w: World)
    requires WellFormed(w.status) && Genuine(f, w.status) && OneReblogPerAccount(kept, w.status)
    requires RowsOf(ids, kept, account, w.status) && OnlyListedRows(f, ids, kept, account, w.status)
    ensures var g := RemoveAll(f, ids, w);
      && f.timeline - ids <= g.timeline
      && OnlyListedRows(g, {}, kept, account, w.status)
      && forall x | x in g.timeline - f.timeline :: StandsInFor(x, ids, w.status)
    decreases |ids|
  {
    if ids != {} {
      var s := w.status(Min(ids));
      var g := Remove(f, s, w.aggregate).0;
      RemoveKeepsGenuine(f, s, w.aggregate, w.status);
      RemoveOne(f, s, w.aggregate, w.status);
      forall x | x in g.timeline && x in kept && w.status(x).account == account
        ensures x in ids - {s.id}
      {
        assert s.id in kept && s.account == account;
        assert x in f.timeline;
      }
      RemoveAllOutcome(g, ids - {s.id}, kept, account, w);
      forall x | x in RemoveAll(g, ids - {s.id}, w).timeline - f.timeline ensures StandsInFor(x, ids, w.status) {
        if x in g.timeline {
          assert s.id in ids && w.status(s.id).reblogOf == w.status(x).reblogOf;
        } else {
          assert x in RemoveAll(g, ids - {s.id}, w).timeline - g.timeline;
          assert StandsInFor(x, ids - {s.id}, w.status);
          var y :| y in ids - {s.id} && w.status(y).reblogOf.Some? && w.status(y).reblogOf == w.status(x).reblogOf;
          assert y in ids;
        }
      }
    }
  }

  lemma RemoveLeavesOriginalAlone(f: Feed, s: Status, aggregate: Option<bool>, o: nat)
    requires s.id != o && s.reblogOf != Some(o)
    ensures var g := Remove(f, s, aggregate).0;
      && (o in g.tracker <==> o in f.tracker) && (o in f.tracker ==> g.tracker[o] == f.tracker[o])
      && Members(g.extras, o) == Members(f.extras, o)
  {
  }

  /** Everything the removal of row `x` may do for its original is done to nobody else. */
  lemma {:induction false} OthersLeaveOriginalAlone(f: Feed, ids: set<nat>, o: nat, w: World)
    requires WellFormed(w.status) && o !in ids
    requires forall y | y in ids :: w.status(y).reblogOf != Some(o)
    ensures var g := RemoveAll(f, ids, w);
      && (o in g.tracker <==> o in f.tracker) && (o in f.tracker ==> g.tracker[o] == f.tracker[o])
      && Members(g.extras, o) == Members(f.extras, o)
    decreases |ids|
  {
    if ids != {} {
      var s := w.status(Min(ids));
      RemoveLeavesOriginalAlone(f, s, w.aggregate, o);
      hide Remove, Members;
      OthersLeaveOriginalAlone(Remove(f, s, w.aggregate).0, ids - {s.id}, o, w);
    }
  }

  /** The reblog that takes the place of `x`, when there is one. */
  predicate HasReplacement(f: Feed, x: nat, w: World) {
    w.status(x).reblogOf.Some? && Members(f.extras, w.status(x).reblogOf.value) - {x} != {}
  }

  lemma {:induction false} ReplacementSurvives(f: Feed, ids: set<nat>, x: nat, kept: set<nat>, account: nat, w: World)
    requires WellFormed(w.status) && Genuine(f, w.status) && OneReblogPerAccount(kept, w.status)
    requires RowsOf(ids, kept, account, w.status) && ids <= f.timeline
    requires x in ids && Aggregates(w.aggregate) && HasReplacement(f, x, w)
    requires w.status(x).reblogOf.value !in ids
    ensures var o := w.status(x).reblogOf.value; var g := RemoveAll(f, ids, w);
      var m := Min(Members(f.extras, o) - {x});
      m in g.timeline && o in g.tracker && g.tracker[o] == m
    decreases |ids|
  {
    var o := w.status(x).reblogOf.value;
    var s := w.status(Min(ids));
    var g := Remove(f, s, w.aggregate).0;
    RemoveKeepsGenuine(f, s, w.aggregate, w.status);
    RemoveOne(f, s, w.aggregate, w.status);
    var rest := ids - {s.id};
    if s.id == x {
      var m := Min(Members(f.extras, o) - {x});
      assert Members(SRem(f.extras, o, x), o) == Members(f.extras, o) - {x};
      assert m in g.timeline && g.tracker[o] == m && m !in rest;
      OthersLeaveOriginalAlone(g, rest, o, w);
      RemoveAllKeeps(g, rest, m, w);
    } else {
      assert s.reblogOf != Some(o);
      assert Members(g.extras, o) == Members(f.extras, o);
      ReplacementSurvives(g, rest, x, kept, account, w);
    }
  }

  lemma {:induction false} RemoveAllKeeps(f: Feed, ids: set<nat>, m: nat, w: World)
    requires WellFormed(w.status) && m in f.timeline && m !in ids
    ensures m in RemoveAll(f, ids, w).timeline
    decreases |ids|
  {
    if ids != {} {
      RemoveAllKeeps(Remove(f, w.status(Min(ids)), w.aggregate).0, ids - {Min(ids)}, m, w);
    }
  }

  /** After `unmerge_from_home` no undeleted status of the account is left, every other entry is
      kept, every new entry reblogs what a removed row reblogged, and wherever a removed reblog
      had further reblogs the oldest of them is shown and tracked, unless the account's own
      original went with it. */
  lemma UnmergeClearsAccount(f: Feed, kept: set<nat>, account: nat, w: World)
    requires WellFormed(w.status) && Genuine(f, w.status) && OneReblogPerAccount(kept, w.status)
    ensures var g := Unmerge(f, kept, account, w); var rows := RowsInTimeline(f, kept, account, w);
      && (forall x | x in g.timeline && x in kept :: w.status(x).account != account)
      && (forall x | x in f.timeline && !(x in kept && w.status(x).account == account) :: x in g.timeline)
      && (forall x | x in g.timeline && x !in f.timeline :: StandsInFor(x, rows, w.status))
      && (Aggregates(w.aggregate) ==>
            forall x | x in rows && HasReplacement(f, x, w) && w.status(x).reblogOf.value !in rows ::
              var o := w.status(x).reblogOf.value;
              o in g.tracker && g.tracker[o] in g.timeline && g.tracker[o] == Min(Members(f.extras, o) - {x}))
  {
    var rows := RowsInTimeline(f, kept, account, w);
    RemoveAllOutcome(f, rows, kept, account, w);
    if Aggregates(w.aggregate) {
      forall x | x in rows && HasReplacement(f, x, w) && w.status(x).reblogOf.value !in rows
        ensures var o := w.status(x).reblogOf.value; var g := Unmerge(f, kept, account, w);
          o in g.tracker && g.tracker[o] in g.timeline && g.tracker[o] == Min(Members(f.extras, o) - {x})
      {
        ReplacementSurvives(f, rows, x, kept, account, w);
      }
    }
  }
}
