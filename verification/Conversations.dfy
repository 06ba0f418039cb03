/** Conversation rows updated by concurrent workers under optimistic locking. */
module Conversations {
  import opened Options

  /** The stored row: its primary key, `lock_version` and columns. */
  datatype Row = Row(id: nat, version: nat, columns: Columns)

  datatype Columns = Columns(statusIds: seq<nat>, lastStatusId: Option<nat>, unread: bool)

  const NEW_RECORD := Columns([], None, false)

  /** `add_status` and `remove_status` for one recipient, conversation and participant list;
      `unread` is whether the status is by someone else than the recipient. */
  datatype Op = AddStatus(status: nat, unread: bool) | RemoveStatus(status: nat)

  // ----- The record in memory

  predicate Ascending(ids: seq<nat>) {
    forall i, j | 0 <= i < j < |ids| :: ids[i] < ids[j]
  }

  function Insert(ids: seq<nat>, x: nat): seq<nat>
    decreases |ids|
  {
    if ids == [] || x <= ids[0] then [x] + ids else [ids[0]] + Insert(ids[1..], x)
  }

  function Sort(ids: seq<nat>): seq<nat>
    decreases |ids|
  {
    if ids == [] then [] else Insert(Sort(ids[1..]), ids[0])
  }

  /** `Array#delete`: every occurrence. */
  function Delete(ids: seq<nat>, x: nat): (r: seq<nat>)
    ensures forall y :: y in r <==> y in ids && y != x
    decreases |ids|
  {
    if ids == [] then []
    else
      assert forall y :: y in ids <==> y == ids[0] || y in ids[1..];
      if ids[0] == x then Delete(ids[1..], x) else [ids[0]] + Delete(ids[1..], x)
  }

  /** `set_last_status`, run before every save. */
  function WithLastStatus(c: Columns): Columns {
    var sorted := Sort(c.statusIds);
    c.(statusIds := sorted, lastStatusId := if sorted == [] then None else Some(sorted[|sorted| - 1]))
  }

  /** The columns a worker is about to store. */
  function Prepared(c: Columns, op: Op): Columns {
    match op
    case AddStatus(status, unread) =>
      WithLastStatus(c.(statusIds := c.statusIds + [status], unread := unread))
    case RemoveStatus(status) =>
      WithLastStatus(c.(statusIds := Delete(c.statusIds, status)))
  }

  class ConversationRecord {
    var statusIds: seq<nat>
    var lastStatusId: Option<nat>
    var unread: bool

    constructor (c: Columns)
      ensures Attributes() == c
    {
      statusIds, lastStatusId, unread := c.statusIds, c.lastStatusId, c.unread;
    }

    function Attributes(): Columns
      reads this
    {
      Columns(statusIds, lastStatusId, unread)
    }

    method SetLastStatus()
      modifies this
      ensures Attributes() == WithLastStatus(old(Attributes()))
    {
      statusIds := Sort(statusIds);
      lastStatusId := if |statusIds| == 0 then None else Some(statusIds[|statusIds| - 1]);
    }

    method Prepare(op: Op)
      modifies this
      ensures Attributes() == Prepared(old(Attributes()), op)
    {
      match op {
        case AddStatus(status, byOther) =>
          statusIds := statusIds + [status];
          unread := byOther;
        case RemoveStatus(status) =>
          statusIds := Delete(statusIds, status);
      }
      SetLastStatus();
    }
  }

  // ----- The workers

  datatype Worker =
    | Waiting(op: Op)
    | Loaded(op: Op, snapshot: Option<Row>)
    | Done(op: Op)
    | Raised(op: Op)

  /** The shared table (at most one row: the unique index) and the workers.  `log` is the
      history of completed operations in the order in which they took effect. */
  datatype System = System(row: Option<Row>, nextId: nat, workers: map<nat, Worker>, log: seq<(nat, Op)>)

  /** Whether what was loaded leaves nothing to store: the status is already there or already
      gone, or there is no row to remove it from. */
  predicate NothingToDo(row: Option<Row>, op: Op) {
    match op
    case AddStatus(status, _) => row.Some? && status in row.value.columns.statusIds
    case RemoveStatus(status) => row.None? || status !in row.value.columns.statusIds
  }

  /** `find_or_initialize_by` or `find_by`. */
  function Load(s: System, w: nat): System
    requires w in s.workers && s.workers[w].Waiting?
  {
    var op := s.workers[w].op;
    if NothingToDo(s.row, op) then s.(workers := s.workers[w := Done(op)], log := s.log + [(w, op)])
    else s.(workers := s.workers[w := Loaded(op, s.row)])
  }

  /** `save` or `destroy`.  A new record is inserted, or raises if the unique index already has
      a row; a loaded one is written only where its id and `lock_version` still stand, and the
      worker starts over if they do not. */
  function Save(s: System, w: nat): System
    requires w in s.workers && s.workers[w].Loaded?
  {
    var op, snapshot := s.workers[w].op, s.workers[w].snapshot;
    var finished := s.(workers := s.workers[w := Done(op)], log := s.log + [(w, op)]);
    match snapshot
    case None =>
      if s.row.Some? then s.(workers := s.workers[w := Raised(op)])
      else finished.(row := Some(Row(s.nextId, 0, Prepared(NEW_RECORD, op))), nextId := s.nextId + 1)
    case Some(read) =>
      if s.row.None? || s.row.value.id != read.id || s.row.value.version != read.version then
        s.(workers := s.workers[w := Waiting(op)])
      else
        var columns := Prepared(read.columns, op);
        if op.RemoveStatus? && columns.statusIds == [] then finished.(row := None)
        else finished.(row := Some(Row(read.id, read.version + 1, columns)))
  }

  datatype Event = Start(w: nat, op: Op) | LoadE(w: nat) | SaveE(w: nat)

  predicate Enabled(s: System, e: Event) {
    match e
    case Start(w, _) => w !in s.workers
    case LoadE(w) => w in s.workers && s.workers[w].Waiting?
    case SaveE(w) => w in s.workers && s.workers[w].Loaded?
  }

  function Step(s: System, e: Event): System
    requires Enabled(s, e)
  {
    match e
    case Start(w, op) => s.(workers := s.workers[w := Waiting(op)])
    case LoadE(w) => Load(s, w)
    case SaveE(w) => Save(s, w)
  }

  predicate IsRun(s: System, events: seq<Event>)
    decreases |events|
  {
    events == [] || (Enabled(s, events[0]) && IsRun(Step(s, events[0]), events[1..]))
  }

  function Run(s: System, events: seq<Event>): System
    requires IsRun(s, events)
    decreases |events|
  {
    if events == [] then s else Run(Step(s, events[0]), events[1..])
  }

  const EMPTY_SYSTEM := System(None, 0, map[], [])

  // ----- One operation after another

  /** The meaning of a conversation: which statuses it holds, and whether it is unread. */
  datatype Meaning = Meaning(statuses: set<nat>, unread: bool)

  function Apply(m: Meaning, op: Op): Meaning {
    match op
    case AddStatus(status, unread) => if status in m.statuses then m else Meaning(m.statuses + {status}, unread)
    case RemoveStatus(status) => m.(statuses := m.statuses - {status})
  }

  function Replay(log: seq<(nat, Op)>): Meaning
    decreases |log|
  {
    if log == [] then Meaning({}, false) else Apply(Replay(log[..|log| - 1]), log[|log| - 1].1)
  }

  /** A row stands for a non-empty conversation: its ids strictly ascending, the last one
      recorded as the last status; no row stands for an empty one. */
  ghost predicate Stores(row: Option<Row>, m: Meaning) {
    match row
    case None => m.statuses == {}
    case Some(r) =>
      && r.columns.statusIds != []
      && Ascending(r.columns.statusIds)
      && SetOf(r.columns.statusIds) == m.statuses
      && r.columns.lastStatusId == Some(r.columns.statusIds[|r.columns.statusIds| - 1])
      && r.columns.unread == m.unread
  }

  // ----- Sorting

  lemma {:induction false} InsertKeeps(ids: seq<nat>, x: nat)
    requires Ascending(ids) && x !in ids
    ensures Ascending(Insert(ids, x)) && forall y :: y in Insert(ids, x) <==> y == x || y in ids
    decreases |ids|
  {
    if ids != [] && ids[0] < x {
      var rest := Insert(ids[1..], x);
      InsertKeeps(ids[1..], x);
      assert forall y :: y in ids <==> y == ids[0] || y in ids[1..];
      forall j | 0 <= j < |rest| ensures ids[0] < rest[j] {
        assert rest[j] in rest;
      }
    }
  }

  lemma {:induction false} SortDistinct(ids: seq<nat>)
    requires forall i, j | 0 <= i < j < |ids| :: ids[i] != ids[j]
    ensures Ascending(Sort(ids)) && forall y :: y in Sort(ids) <==> y in ids
    decreases |ids|
  {
    if ids != [] {
      SortDistinct(ids[1..]);
      assert forall y :: y in ids <==> y == ids[0] || y in ids[1..];
      InsertKeeps(Sort(ids[1..]), ids[0]);
    }
  }

  lemma {:induction false} DeleteAscending(ids: seq<nat>, x: nat)
    requires Ascending(ids)
    ensures Ascending(Delete(ids, x))
    decreases |ids|
  {
    if ids != [] {
      DeleteAscending(ids[1..], x);
      var rest := Delete(ids[1..], x);
      forall j | 0 <= j < |rest| ensures ids[0] < rest[j] {
        assert rest[j] in rest;
      }
    }
  }

  function SetOf(ids: seq<nat>): set<nat> {
    set x | x in ids
  }

  /** Sorting the changed ids yields exactly the applied operation's statuses, in order. */
  lemma PreparedIds(c: Columns, m: Meaning, op: Op)
    requires Ascending(c.statusIds) && SetOf(c.statusIds) == m.statuses
    requires op.AddStatus? ==> op.status !in c.statusIds
    ensures var ids := Prepared(c, op).statusIds;
      Ascending(ids) && SetOf(ids) == Apply(m, op).statuses
  {
    hide Sort, Delete;
    if op.AddStatus? {
      var changed := c.statusIds + [op.status];
      SortDistinct(changed);
      forall y ensures y in Sort(changed) <==> y in m.statuses || y == op.status {
        assert y in c.statusIds <==> y in SetOf(c.statusIds);
        assert y in changed <==> y in c.statusIds || y == op.status;
      }
    } else {
      var changed := Delete(c.statusIds, op.status);
      DeleteAscending(c.statusIds, op.status);
      SortDistinct(changed);
      forall y ensures y in Sort(changed) <==> y in m.statuses && y != op.status {
        assert y in c.statusIds <==> y in SetOf(c.statusIds);
      }
    }
  }

  /** Storing the prepared columns of a row in step with `m` puts it in step with the
      operation applied to `m`. */
  lemma PreparedStores(c: Columns, id: nat, version: nat, m: Meaning, op: Op)
    requires Ascending(c.statusIds) && SetOf(c.statusIds) == m.statuses && c.unread == m.unread
    requires op.AddStatus? ==> op.status !in c.statusIds
    ensures var prepared := Prepared(c, op);
      if prepared.statusIds == [] then Apply(m, op).statuses == {} && op.RemoveStatus?
      else Stores(Some(Row(id, version, prepared)), Apply(m, op))
  {
    PreparedIds(c, m, op);
    hide Sort, Delete, Ascending;
    var ids := Prepared(c, op).statusIds;
    if ids == [] {
      assert SetOf(ids) == {};
      assert op.AddStatus? ==> op.status in Apply(m, op).statuses;
    }
  }

  // ----- No update is lost

  /** A snapshot whose id and version still stand is the row itself. */
  ghost predicate SnapshotsSound(s: System) {
    && (s.row.Some? ==> s.row.value.id < s.nextId)
    && forall w | w in s.workers && s.workers[w].Loaded? :: SnapshotSound(s, s.workers[w])
  }

  ghost predicate SnapshotSound(s: System, worker: Worker)
    requires worker.Loaded?
  {
    && !NothingToDo(worker.snapshot, worker.op)
    && (worker.snapshot.Some? ==>
          var read := worker.snapshot.value;
          && read.id < s.nextId
          && (s.row.Some? && s.row.value.id == read.id ==>
                read.version <= s.row.value.version && (read.version == s.row.value.version ==> s.row.value == read)))
  }

  /** Every completed worker is in the log once, with its operation, and nobody else is. */
  ghost predicate LogSound(s: System) {
    && (forall w | w in s.workers && s.workers[w].Done? ::
          exists i :: 0 <= i < |s.log| && s.log[i] == (w, s.workers[w].op))
    && (forall i | 0 <= i < |s.log| :: s.log[i].0 in s.workers && s.workers[s.log[i].0] == Done(s.log[i].1))
    && (forall i, j | 0 <= i < j < |s.log| :: s.log[i].0 != s.log[j].0)
  }

  ghost predicate Sound(s: System) {
    Stores(s.row, Replay(s.log)) && SnapshotsSound(s) && LogSound(s)
  }

  lemma ReplayAppend(log: seq<(nat, Op)>, entry: (nat, Op))
    ensures Replay(log + [entry]) == Apply(Replay(log), entry.1)
  {
    assert (log + [entry])[..|log|] == log;
  }

  lemma FinishLog(s: System, w: nat, op: Op, s': System)
    requires LogSound(s) && w in s.workers && !s.workers[w].Done? && s.workers[w].op == op
    requires s'.workers == s.workers[w := Done(op)] && s'.log == s.log + [(w, op)]
    ensures LogSound(s')
  {
    assert s'.log[|s.log|] == (w, op);
    forall x | x in s'.workers && s'.workers[x].Done?
      ensures exists i :: 0 <= i < |s'.log| && s'.log[i] == (x, s'.workers[x].op)
    {
      if x != w {
        var i :| 0 <= i < |s.log| && s.log[i] == (x, s.workers[x].op);
        assert s'.log[i] == s.log[i];
      }
    }
  }

  /** What an operation with nothing to do on the stored row leaves of its meaning. */
  lemma NothingApplied(row: Option<Row>, m: Meaning, op: Op)
    requires Stores(row, m) && NothingToDo(row, op)
    ensures Stores(row, Apply(m, op))
  {
    hide Ascending;
    if row.Some? {
      assert op.status in row.value.columns.statusIds <==> op.status in SetOf(row.value.columns.statusIds);
    }
    if op.RemoveStatus? { assert m.statuses - {op.status} == m.statuses; }
  }

  lemma LoadSound(s: System, w: nat)
    requires Sound(s) && Enabled(s, LoadE(w))
    ensures Sound(Load(s, w))
  {
    hide Stores, NothingToDo, LogSound, Apply, Replay;
    var op := s.workers[w].op;
    var s' := Load(s, w);
    if NothingToDo(s.row, op) {
      ReplayAppend(s.log, (w, op));
      FinishLog(s, w, op, s');
      NothingApplied(s.row, Replay(s.log), op);
    } else {
      UnfinishedLog(s, w, s'.workers[w], s');
    }
    assert SnapshotsSound(s');
  }

  lemma UnfinishedLog(s: System, w: nat, worker: Worker, s': System)
    requires LogSound(s) && w in s.workers && !s.workers[w].Done? && s'.log == s.log
    requires !worker.Done? && s'.workers == s.workers[w := worker]
    ensures LogSound(s')
  {
    forall x | x in s'.workers && s'.workers[x].Done?
      ensures exists i :: 0 <= i < |s'.log| && s'.log[i] == (x, s'.workers[x].op)
    {
      assert s.workers[x].Done?;
    }
  }

  /** The row after a successful save is in step with the operation applied on top of all
      that completed before, although the worker computed it from an earlier read. */
  lemma SaveStores(s: System, w: nat)
    requires Sound(s) && Enabled(s, SaveE(w)) && Save(s, w).workers[w].Done?
    ensures Stores(Save(s, w).row, Apply(Replay(s.log), s.workers[w].op))
  {
    hide LogSound, Ascending, Replay, Prepared;
    var op, snapshot := s.workers[w].op, s.workers[w].snapshot;
    assert SnapshotSound(s, s.workers[w]);
    var m := Replay(s.log);
    match snapshot
    case None =>
      assert Ascending([]) by { EmptyAscending(); }
      PreparedStores(NEW_RECORD, s.nextId, 0, Meaning({}, false), op);
      assert Apply(m, op) == Apply(Meaning({}, false), op);
    case Some(read) =>
      assert s.row == snapshot;
      PreparedStores(read.columns, read.id, read.version + 1, m, op);
  }

  lemma EmptyAscending()
    ensures Ascending([])
  {
  }

  lemma SaveSnapshots(s: System, w: nat)
    requires Sound(s) && Enabled(s, SaveE(w))
    ensures SnapshotsSound(Save(s, w))
  {
    hide LogSound, Stores, Prepared, Replay, NothingToDo;
    var s' := Save(s, w);
    assert SnapshotSound(s, s.workers[w]);
    forall x | x in s'.workers && s'.workers[x].Loaded? ensures SnapshotSound(s', s'.workers[x]) {
      assert x != w && SnapshotSound(s, s.workers[x]);
    }
  }

  lemma SaveSound(s: System, w: nat)
    requires Sound(s) && Enabled(s, SaveE(w))
    ensures Sound(Save(s, w))
  {
    hide LogSound, Stores, SnapshotsSound, Prepared, Replay, Apply;
    var op := s.workers[w].op;
    var s' := Save(s, w);
    SaveSnapshots(s, w);
    if s'.workers[w].Done? {
      SaveStores(s, w);
      ReplayAppend(s.log, (w, op));
      FinishLog(s, w, op, s');
    } else {
      UnfinishedLog(s, w, s'.workers[w], s');
    }
  }

  lemma StepSound(s: System, e: Event)
    requires Sound(s) && Enabled(s, e)
    ensures Sound(Step(s, e))
  {
    match e
    case Start(w, op) =>
    case LoadE(w) => LoadSound(s, w);
    case SaveE(w) => SaveSound(s, w);
  }

  lemma {:induction false} RunSound(s: System, events: seq<Event>)
    requires Sound(s) && IsRun(s, events)
    ensures Sound(Run(s, events))
    decreases |events|
  {
    if events != [] {
      StepSound(s, events[0]);
      RunSound(Step(s, events[0]), events[1..]);
    }
  }

  /** Under every interleaving the stored row is what the completed operations, one after the
      other in the order they took effect, make of an empty conversation: its ids strictly
      sorted with the last one recorded, and no row at all when none is left. */
  lemma NoUpdateLost(events: seq<Event>)
    requires IsRun(EMPTY_SYSTEM, events)
    ensures var end := Run(EMPTY_SYSTEM, events);
      var meaning := Replay(end.log);
      && LogSound(end)
      && (end.row.None? <==> meaning.statuses == {})
      && (end.row.Some? ==>
            var c := end.row.value.columns;
            && Ascending(c.statusIds) && SetOf(c.statusIds) == meaning.statuses && c.unread == meaning.unread
            && c.lastStatusId == Some(c.statusIds[|c.statusIds| - 1]))
  {
    NothingIsSound();
    RunSound(EMPTY_SYSTEM, events);
    var end := Run(EMPTY_SYSTEM, events);
    if end.row.Some? {
      var ids := end.row.value.columns.statusIds;
      assert ids[0] in SetOf(ids);
    }
  }

  /** A save goes through exactly when the row is still the one the worker read: nothing else
      holds it up, and nothing stale gets written. */
  lemma SaveSucceedsIff(s: System, w: nat)
    requires Sound(s) && Enabled(s, SaveE(w))
    ensures Save(s, w).workers[w].Done? <==> s.row == s.workers[w].snapshot
    ensures !Save(s, w).workers[w].Done? ==> Save(s, w).row == s.row
  {
    hide Stores, LogSound, Prepared;
    assert SnapshotSound(s, s.workers[w]);
  }

  /** It raises exactly when it would insert a row that is there by now, which only an add does,
      and starts over exactly when the row it read is no longer the stored one. */
  lemma SaveRaisesIff(s: System, w: nat)
    requires Sound(s) && Enabled(s, SaveE(w))
    ensures var op, snapshot := s.workers[w].op, s.workers[w].snapshot;
      && (Save(s, w).workers[w] == Raised(op) <==> snapshot.None? && s.row.Some?)
      && (Save(s, w).workers[w] == Waiting(op) <==> snapshot.Some? && s.row != snapshot)
      && (snapshot.None? ==> op.AddStatus?)
  {
    hide Stores, LogSound, Prepared;
    assert SnapshotSound(s, s.workers[w]);
  }

  /** A worker is done without saving exactly if its operation would not change which statuses the
      conversation holds. */
  lemma LoadFinishesIff(s: System, w: nat)
    requires Sound(s) && Enabled(s, LoadE(w))
    ensures Load(s, w).row == s.row
    ensures var op, meaning := s.workers[w].op, Replay(s.log);
      Load(s, w).workers[w].Done? <==> Apply(meaning, op).statuses == meaning.statuses
  {
    hide LogSound, Replay, Ascending;
    var op, meaning := s.workers[w].op, Replay(s.log);
    assert op.AddStatus? ==> op.status in meaning.statuses + {op.status};
    if s.row.Some? {
      var ids := s.row.value.columns.statusIds;
      assert op.status in ids <==> op.status in SetOf(ids);
    }
  }

  ghost predicate NobodyRaised(s: System) {
    forall w | w in s.workers :: !s.workers[w].Raised?
  }

  /** Every insert of the run finds no row. */
  predicate InsertsFindNone(s: System, events: seq<Event>)
    requires IsRun(s, events)
    decreases |events|
  {
    events == [] ||
    ((events[0].SaveE? && s.workers[events[0].w].snapshot.None? ==> s.row.None?) &&
     InsertsFindNone(Step(s, events[0]), events[1..]))
  }

  /** A worker that raised stays so. */
  lemma {:induction false} RaisedForGood(s: System, events: seq<Event>, w: nat)
    requires IsRun(s, events) && w in s.workers && s.workers[w].Raised?
    ensures w in Run(s, events).workers && Run(s, events).workers[w].Raised?
    decreases |events|
  {
    if events != [] {
      hide Prepared;
      RaisedForGood(Step(s, events[0]), events[1..], w);
    }
  }

  /** In every run nobody's status is lost to a raised insert if and only if each insert finds no
      row, that is if no two workers find none before the first of them has saved. */
  lemma {:induction false} NobodyRaisesIff(s: System, events: seq<Event>)
    requires IsRun(s, events) && NobodyRaised(s)
    ensures NobodyRaised(Run(s, events)) <==> InsertsFindNone(s, events)
    decreases |events|
  {
    if events != [] {
      var e := events[0];
      hide Prepared, NothingToDo;
      if e.SaveE? && s.workers[e.w].snapshot.None? && s.row.Some? {
        RaisedForGood(Step(s, e), events[1..], e.w);
      } else {
        NobodyRaisesIff(Step(s, e), events[1..]);
      }
    }
  }

  lemma NothingIsSound()
    ensures Sound(EMPTY_SYSTEM)
  {
  }

  /** Only a stale version is retried.  When two workers both find no row, the second insert
      runs into the unique index, its call raises, and its status is not stored. */
  lemma ConcurrentFirstAddsRaise(a: nat, b: nat, x: nat, y: nat)
    requires a != b && x != y
    ensures var events := [Start(a, AddStatus(x, true)), Start(b, AddStatus(y, true)),
                           LoadE(a), LoadE(b), SaveE(a), SaveE(b)];
      IsRun(EMPTY_SYSTEM, events) &&
      var s := Run(EMPTY_SYSTEM, events);
      b in s.workers && s.workers[b] == Raised(AddStatus(y, true)) &&
      s.row.Some? && s.row.value.columns.statusIds == [x]
  {
    var s1 := Step(EMPTY_SYSTEM, Start(a, AddStatus(x, true)));
    var s2 := Step(s1, Start(b, AddStatus(y, true)));
    var s3 := Step(s2, LoadE(a));
    var s4 := Step(s3, LoadE(b));
    var s5 := Step(s4, SaveE(a));
    var s6 := Step(s5, SaveE(b));
    var events := [Start(a, AddStatus(x, true)), Start(b, AddStatus(y, true)), LoadE(a), LoadE(b), SaveE(a), SaveE(b)];
    assert s5.row.value.columns == Prepared(NEW_RECORD, AddStatus(x, true));
    assert Sort([] + [x]) == [x];
    RunOne(s5, events[5..]);
    RunOne(s4, events[4..]);
    RunOne(s3, events[3..]);
    RunOne(s2, events[2..]);
    RunOne(s1, events[1..]);
    assert events[1..][1..] == events[2..] && events[2..][1..] == events[3..] && events[3..][1..] == events[4..];
    assert events[4..][1..] == events[5..] && events[5..][1..] == [];
  }

  lemma RunOne(s: System, events: seq<Event>)
    requires events != [] && Enabled(s, events[0])
    ensures IsRun(s, events) <==> IsRun(Step(s, events[0]), events[1..])
    ensures IsRun(s, events) ==> Run(s, events) == Run(Step(s, events[0]), events[1..])
  {
  }
}
