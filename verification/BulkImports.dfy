/** `BulkImport.progress!`: concurrent calls that count rows and mark the import finished. */
module BulkImports {

  /** Where a call has got to: nothing done, `processed_items` incremented, `imported_items`
      incremented too if need be, the import loaded (and whether it was complete), returned. */
  datatype Progress = Begun | Counted | Tallied | Loaded(complete: bool) | Returned

  datatype Call = Call(imported: bool, at: Progress)

  datatype Import = Import(total: nat, processed: nat, imported: nat, finished: bool, calls: seq<Call>)

  predicate Enabled(s: Import, c: nat) {
    c < |s.calls| && s.calls[c].at != Returned
  }

  /** The next atomic step of call `c`; the database makes each increment atomic. */
  function Step(s: Import, c: nat): Import
    requires Enabled(s, c)
  {
    var call := s.calls[c];
    match call.at
    case Begun => Move(s, c, Counted).(processed := s.processed + 1)
    case Counted =>
      if call.imported then Move(s, c, Tallied).(imported := s.imported + 1) else Move(s, c, Tallied)
    case Tallied => Move(s, c, Loaded(s.processed == s.total))
    case Loaded(complete) => if complete then Move(s, c, Returned).(finished := true) else Move(s, c, Returned)
  }

  function Move(s: Import, c: nat, at: Progress): Import
    requires c < |s.calls|
  {
    s.(calls := s.calls[c := s.calls[c].(at := at)])
  }

  predicate IsRun(s: Import, steps: seq<nat>)
    decreases |steps|
  {
    steps == [] || (Enabled(s, steps[0]) && IsRun(Step(s, steps[0]), steps[1..]))
  }

  function Run(s: Import, steps: seq<nat>): Import
    requires IsRun(s, steps)
    decreases |steps|
  {
    if steps == [] then s else Run(Step(s, steps[0]), steps[1..])
  }

  predicate AllReturned(s: Import) {
    forall c | 0 <= c < |s.calls| :: s.calls[c].at == Returned
  }

  /** `n` calls about to start, `imported` saying which rows were imported. */
  function Begin(total: nat, imported: seq<bool>): Import {
    Import(total, 0, 0, false, seq(|imported|, i requires 0 <= i < |imported| => Call(imported[i], Begun)))
  }

  // ----- Counting calls

  function CountedCalls(calls: seq<Call>): nat
    decreases |calls|
  {
    if calls == [] then 0 else (if calls[0].at == Begun then 0 else 1) + CountedCalls(calls[1..])
  }

  function TalliedCalls(calls: seq<Call>): nat
    decreases |calls|
  {
    if calls == [] then 0
    else
      (if calls[0].at == Begun || calls[0].at == Counted || !calls[0].imported then 0 else 1) + TalliedCalls(calls[1..])
  }

  lemma {:induction false} CountsAfterMove(calls: seq<Call>, c: nat, at: Progress)
    requires c < |calls|
    ensures var moved := calls[c := calls[c].(at := at)];
      && CountedCalls(moved)
           == CountedCalls(calls) + (if at == Begun then 0 else 1) - (if calls[c].at == Begun then 0 else 1)
      && TalliedCalls(moved) == TalliedCalls(calls)
           + (if at == Begun || at == Counted || !calls[c].imported then 0 else 1)
           - (if calls[c].at == Begun || calls[c].at == Counted || !calls[c].imported then 0 else 1)
    decreases |calls|
  {
    var moved := calls[c := calls[c].(at := at)];
    if c == 0 {
      assert moved[1..] == calls[1..];
    } else {
      assert moved[1..] == calls[1..][c - 1 := calls[c].(at := at)];
      CountsAfterMove(calls[1..], c - 1, at);
    }
  }

  lemma {:induction false} CountBounds(calls: seq<Call>)
    ensures TalliedCalls(calls) <= CountedCalls(calls) <= |calls|
    ensures (forall c | 0 <= c < |calls| :: calls[c].at != Begun) ==> CountedCalls(calls) == |calls|
    decreases |calls|
  {
    if calls != [] { CountBounds(calls[1..]); }
  }

  // ----- What every interleaving keeps

  /** A call that will still see the import complete, as long as nobody counts on. */
  predicate Pending(s: Import, c: nat) {
    c < |s.calls| &&
    (s.calls[c].at == Counted || s.calls[c].at == Tallied || s.calls[c].at == Loaded(true))
  }

  ghost predicate Sound(s: Import) {
    && s.processed == CountedCalls(s.calls)
    && s.imported == TalliedCalls(s.calls)
    && (s.finished ==> s.total <= s.processed)
    && (forall c | 0 <= c < |s.calls| && s.calls[c].at == Loaded(true) :: s.total <= s.processed)
    && (|s.calls| <= s.total && s.processed == s.total && 0 < s.total ==> s.finished || exists c :: Pending(s, c))
  }

  /** The call that reaches the total, or one that was already on its way to find it. */
  lemma StepKeepsPending(s: Import, c: nat)
    requires Sound(s) && Enabled(s, c) && |s.calls| <= s.total && 0 < s.total
    requires Step(s, c).processed == s.total && !Step(s, c).finished
    ensures exists d :: Pending(Step(s, c), d)
  {
    hide CountedCalls, TalliedCalls;
    var s' := Step(s, c);
    if s.calls[c].at == Begun || s.calls[c].at == Counted || s.calls[c].at == Tallied {
      assert Pending(s', c);
    } else {
      var d :| Pending(s, d);
      assert Pending(s', d);
    }
  }

  lemma StepSound(s: Import, c: nat)
    requires Sound(s) && Enabled(s, c)
    ensures Sound(Step(s, c)) && |Step(s, c).calls| == |s.calls| && Step(s, c).total == s.total
  {
    var s' := Step(s, c);
    CountsAfterMove(s.calls, c, s'.calls[c].at);
    hide CountedCalls, TalliedCalls;
    if |s.calls| <= s.total && s'.processed == s.total && 0 < s.total && !s'.finished {
      StepKeepsPending(s, c);
    }
  }

  lemma {:induction false} SoundEver(s: Import, steps: seq<nat>)
    requires Sound(s) && IsRun(s, steps)
    ensures Sound(Run(s, steps)) && |Run(s, steps).calls| == |s.calls| && Run(s, steps).total == s.total
    decreases |steps|
  {
    if steps != [] {
      StepSound(s, steps[0]);
      SoundEver(Step(s, steps[0]), steps[1..]);
    }
  }

  lemma {:induction false} BegunCounts(calls: seq<Call>)
    requires forall c | 0 <= c < |calls| :: calls[c].at == Begun
    ensures CountedCalls(calls) == TalliedCalls(calls) == 0
    decreases |calls|
  {
    if calls != [] { BegunCounts(calls[1..]); }
  }

  /** At every moment of every interleaving: no more rows imported than processed, and the
      import finished only if at least `total_items` were processed. */
  lemma ProgressIsSafe(total: nat, imported: seq<bool>, steps: seq<nat>)
    requires IsRun(Begin(total, imported), steps)
    ensures var s := Run(Begin(total, imported), steps);
      && s.imported <= s.processed <= |imported|
      && (s.finished ==> total <= s.processed)
      && (AllReturned(s) ==> s.processed == |imported|)
  {
    BegunCounts(Begin(total, imported).calls);
    SoundEver(Begin(total, imported), steps);
    CountBounds(Run(Begin(total, imported), steps).calls);
  }

  /** With exactly `total_items` calls the import is finished once all have returned. */
  lemma AllReturnedFinishes(imported: seq<bool>, steps: seq<nat>)
    requires imported != [] && IsRun(Begin(|imported|, imported), steps)
    requires AllReturned(Run(Begin(|imported|, imported), steps))
    ensures Run(Begin(|imported|, imported), steps).finished
  {
    var s0 := Begin(|imported|, imported);
    BegunCounts(s0.calls);
    SoundEver(s0, steps);
    CountBounds(Run(s0, steps).calls);
  }

  function Imported(rows: seq<bool>): nat
    decreases |rows|
  {
    if rows == [] then 0 else (if rows[0] then 1 else 0) + Imported(rows[1..])
  }

  lemma {:induction false} TalliedAtEnd(calls: seq<Call>, rows: seq<bool>)
    requires |calls| == |rows| && forall c | 0 <= c < |calls| :: calls[c] == Call(rows[c], Returned)
    ensures TalliedCalls(calls) == Imported(rows)
    decreases |calls|
  {
    if calls != [] { TalliedAtEnd(calls[1..], rows[1..]); }
  }

  lemma {:induction false} RowsStay(s: Import, steps: seq<nat>)
    requires IsRun(s, steps)
    ensures |Run(s, steps).calls| == |s.calls|
    ensures forall c | 0 <= c < |s.calls| :: Run(s, steps).calls[c].imported == s.calls[c].imported
    decreases |steps|
  {
    if steps != [] { RowsStay(Step(s, steps[0]), steps[1..]); }
  }

  /** Once all have returned the counters are exact: every call was counted, and as imported those
      whose row was. */
  lemma CountsAtEnd(total: nat, imported: seq<bool>, steps: seq<nat>)
    requires IsRun(Begin(total, imported), steps) && AllReturned(Run(Begin(total, imported), steps))
    ensures var s := Run(Begin(total, imported), steps);
      s.processed == |imported| && s.imported == Imported(imported)
  {
    var s := Run(Begin(total, imported), steps);
    ProgressIsSafe(total, imported, steps);
    BegunCounts(Begin(total, imported).calls);
    SoundEver(Begin(total, imported), steps);
    RowsStay(Begin(total, imported), steps);
    TalliedAtEnd(s.calls, imported);
  }

  // ----- Too many calls may miss the total

  /** Every call at the same point. */
  predicate AllAt(s: Import, at: Progress, from: nat, upto: nat) {
    from <= upto <= |s.calls| && forall c | from <= c < upto :: s.calls[c].at == at
  }

  function Upto(from: nat, n: nat): seq<nat>
    requires from <= n
    decreases n - from
  {
    if from == n then [] else [from] + Upto(from + 1, n)
  }

  /** One round: the calls from `from` on each take their next step, in turn.  If the import is
      not complete when they look, none of them finds it so. */
  lemma {:induction false} Round(s: Import, from: nat, before: Progress, after: Progress)
    requires AllAt(s, before, from, |s.calls|) && AllAt(s, after, 0, from) && !s.finished
    requires (before == Begun && after == Counted) || (before == Counted && after == Tallied)
      || (before == Tallied && after == Loaded(false) && s.processed != s.total)
      || (before == Loaded(false) && after == Returned)
    ensures IsRun(s, Upto(from, |s.calls|))
    ensures var s' := Run(s, Upto(from, |s.calls|));
      && AllAt(s', after, 0, |s.calls|) && |s'.calls| == |s.calls| && !s'.finished && s'.total == s.total
      && s'.processed == s.processed + (if before == Begun then |s.calls| - from else 0)
    decreases |s.calls| - from
  {
    if from < |s.calls| {
      Round(Step(s, from), from + 1, before, after);
      assert Upto(from, |s.calls|)[1..] == Upto(from + 1, |s.calls|);
    }
  }

  lemma {:induction false} RunConcat(s: Import, a: seq<nat>, b: seq<nat>)
    requires IsRun(s, a) && IsRun(Run(s, a), b)
    ensures IsRun(s, a + b) && Run(s, a + b) == Run(Run(s, a), b)
    decreases |a|
  {
    if a == [] {
      assert a + b == b;
    } else {
      assert (a + b)[0] == a[0] && (a + b)[1..] == a[1..] + b;
      RunConcat(Step(s, a[0]), a[1..], b);
    }
  }

  /** Any other number of calls than `total_items` can all return without finishing the import:
      all count first, and all look afterwards. */
  lemma OtherCountsMiss(total: nat, imported: seq<bool>) returns (steps: seq<nat>)
    requires |imported| != total
    ensures IsRun(Begin(total, imported), steps)
    ensures AllReturned(Run(Begin(total, imported), steps)) && !Run(Begin(total, imported), steps).finished
  {
    var s0 := Begin(total, imported);
    var round := Upto(0, |imported|);
    Round(s0, 0, Begun, Counted);
    var s1 := Run(s0, round);
    Round(s1, 0, Counted, Tallied);
    var s2 := Run(s1, round);
    Round(s2, 0, Tallied, Loaded(false));
    var s3 := Run(s2, round);
    Round(s3, 0, Loaded(false), Returned);
    RunConcat(s2, round, round);
    RunConcat(s1, round, round + round);
    RunConcat(s0, round, round + (round + round));
    steps := round + (round + (round + round));
  }

  ghost predicate EveryRunFinishes(total: nat, imported: seq<bool>) {
    forall steps | IsRun(Begin(total, imported), steps) && AllReturned(Run(Begin(total, imported), steps)) ::
      Run(Begin(total, imported), steps).finished
  }

  /** Every interleaving finishes the import if and only if there are `total_items` calls. */
  lemma FinishesIff(total: nat, imported: seq<bool>)
    requires 0 < total
    ensures EveryRunFinishes(total, imported) <==> |imported| == total
  {
    if |imported| == total {
      forall steps | IsRun(Begin(total, imported), steps) && AllReturned(Run(Begin(total, imported), steps))
        ensures Run(Begin(total, imported), steps).finished
      {
        AllReturnedFinishes(imported, steps);
      }
    } else {
      var steps := OtherCountsMiss(total, imported);
    }
  }
}
