/** What runs of the migration runner do: which migrations run, what a failure leaves, and how a run is undone. */
module MigrationRuns {
  import opened Common
  import opened Migrations

  // ---------------------------------------------------------------- lists of versions

  /** The versions of the list that are not applied, in list order. */
  function Missing<S>(ms: seq<Migration<S>>, applied: set<int>): seq<int> {
    if ms == [] then []
    else if ms[0].version in applied then Missing(ms[1..], applied)
    else [ms[0].version] + Missing(ms[1..], applied)
  }

  function Elements(versions: seq<int>): set<int> {
    set v | v in versions
  }

  function Calls(versions: seq<int>, up: bool): (r: seq<Ran>)
    ensures |r| == |versions|
  {
    seq(|versions|, i requires 0 <= i < |versions| => Ran(versions[i], up))
  }

  lemma {:induction false} MissingIs<S>(ms: seq<Migration<S>>, applied: set<int>)
    requires Ascending(ms)
    ensures Increasing(Missing(ms, applied))
    ensures forall v :: v in Missing(ms, applied) <==> v !in applied && v in Versions(ms)
  {
    hide Ascending, Increasing;
    if ms == [] {
      NoneIncreases();
    } else {
      TailAscends(ms);
      MissingIs(ms[1..], applied);
      assert ms == [ms[0]] + ms[1..];
      FirstIncreases(ms[0].version, Missing(ms[1..], applied));
    }
  }

  predicate Increasing(versions: seq<int>) {
    forall i, j :: 0 <= i < j < |versions| ==> versions[i] < versions[j]
  }

  lemma FirstIncreases(v: int, rest: seq<int>)
    requires Increasing(rest) && forall x :: x in rest ==> v < x
    ensures Increasing([v] + rest)
  {
    assert forall k :: 0 <= k < |rest| ==> rest[k] in rest;
  }

  lemma NoneIncreases()
    ensures Increasing([])
  {
  }

  ghost function Versions<S>(ms: seq<Migration<S>>): set<int> {
    set m | m in ms :: m.version
  }

  // ---------------------------------------------------------------- what one run does

  /** The call that failed, if a call was made at all. */
  function Attempted(failure: Option<Failure>, up: bool): seq<Ran> {
    if failure.Some? && failure.value.At? && failure.value.cause != NoFunction then [Ran(failure.value.version, up)] else []
  }

  /** The versions in `done` were called in order and their records made or removed; `failure` ended the run. */
  predicate Outcome<S>(s: Store<S>, s': Store<S>, done: seq<int>, failure: Option<Failure>, up: bool) {
    && s'.records == (if up then s.records + Elements(done) else s.records - Elements(done))
    && s'.history == s.history + Calls(done, up) + Attempted(failure, up)
  }

  lemma OneMoreDone<S>(v: int, s: Store<S>, s1: Store<S>, s2: Store<S>, done: seq<int>, failure: Option<Failure>, up: bool)
    requires Outcome(s, s1, [v], None, up) && Outcome(s1, s2, done, failure, up)
    ensures Outcome(s, s2, [v] + done, failure, up)
  {
    assert Elements([v] + done) == {v} + Elements(done);
    assert Elements([v]) == {v};
    assert Calls([v] + done, up) == [Ran(v, up)] + Calls(done, up);
    assert Calls([v], up) == [Ran(v, up)];
  }

  lemma OneStepUp<S>(m: Migration<S>, s: Store<S>, faults: Faults)
    ensures var (s', failure) := UpOne(m, s, faults);
            && Outcome(s, s', if failure == None then [m.version] else [], failure, true)
            && (failure.Some? ==> failure.value.At? && failure.value.version == m.version)
  {
    assert Elements([m.version]) == {m.version} && Elements([]) == {};
  }

  lemma OneStepDown<S>(m: Migration<S>, s: Store<S>, faults: Faults)
    ensures var (s', failure) := DownOne(m, s, faults);
            && Outcome(s, s', if failure == None then [m.version] else [], failure, false)
            && (failure.Some? ==> failure.value.At? && failure.value.version == m.version)
  {
    assert Elements([m.version]) == {m.version} && Elements([]) == {};
  }

  lemma NothingDone<S>(s: Store<S>, up: bool)
    ensures Outcome(s, s, [], None, up)
  {
    assert Elements([]) == {};
  }

  /** A prefix of the plan is done; the run ends without an error when all is, else with one at the next version. */
  predicate Progress(plan: seq<int>, done: seq<int>, failure: Option<Failure>) {
    && done <= plan
    && (failure == None <==> done == plan)
    && (failure.Some? ==> |done| < |plan| && failure.value.At? && failure.value.version == plan[|done|])
  }

  lemma ProgressFrom(v: int, plan: seq<int>, done: seq<int>, failure: Option<Failure>)
    requires Progress(plan, done, failure)
    ensures Progress([v] + plan, [v] + done, failure)
  {
    if done == plan { assert [v] + done == [v] + plan; }
    if [v] + done == [v] + plan { assert done == ([v] + done)[1..] == ([v] + plan)[1..] == plan; }
  }

  /** A run up does the missing migrations once each, in ascending order, up to the first that fails. */
  lemma {:induction false} UpAllMeans<S>(ms: seq<Migration<S>>, applied: set<int>, s: Store<S>, faults: Faults) returns (done: seq<int>)
    requires Ascending(ms)
    ensures var (s', failure) := UpAll(ms, applied, s, faults);
            Progress(Missing(ms, applied), done, failure) && Outcome(s, s', done, failure, true)
  {
    hide Ascending, Outcome, UpOne;
    done := [];
    if ms == [] {
      NothingDone(s, true);
      return;
    }
    TailAscends(ms);
    if ms[0].version in applied {
      done := UpAllMeans(ms[1..], applied, s, faults);
      return;
    }
    var (s1, failure) := UpOne(ms[0], s, faults);
    OneStepUp(ms[0], s, faults);
    if failure == None {
      var later := UpAllMeans(ms[1..], applied, s1, faults);
      var (s2, failure2) := UpAll(ms[1..], applied, s1, faults);
      OneMoreDone(ms[0].version, s, s1, s2, later, failure2, true);
      ProgressFrom(ms[0].version, Missing(ms[1..], applied), later, failure2);
      done := [ms[0].version] + later;
    }
  }

  /** The applied versions of the list above the target, last first. */
  function Surplus<S>(ms: seq<Migration<S>>, applied: set<int>, target: int): seq<int> {
    if ms == [] then []
    else
      var v, before := ms[|ms| - 1].version, Surplus(ms[..|ms| - 1], applied, target);
      if v <= target || v !in applied then before else [v] + before
  }

  /** A run down undoes the applied migrations above the target once each, in descending order, likewise. */
  lemma {:induction false} DownAllMeans<S>(ms: seq<Migration<S>>, applied: set<int>, target: int, s: Store<S>, faults: Faults)
    returns (done: seq<int>)
    ensures var (s', failure) := DownAll(ms, applied, target, s, faults);
            Progress(Surplus(ms, applied, target), done, failure) && Outcome(s, s', done, failure, false)
  {
    hide Outcome, DownOne;
    done := [];
    if ms == [] {
      NothingDone(s, false);
      return;
    }
    var m, init := ms[|ms| - 1], ms[..|ms| - 1];
    if m.version <= target || m.version !in applied {
      done := DownAllMeans(init, applied, target, s, faults);
      return;
    }
    var (s1, failure) := DownOne(m, s, faults);
    OneStepDown(m, s, faults);
    if failure == None {
      var later := DownAllMeans(init, applied, target, s1, faults);
      var (s2, failure2) := DownAll(init, applied, target, s1, faults);
      OneMoreDone(m.version, s, s1, s2, later, failure2, false);
      ProgressFrom(m.version, Surplus(init, applied, target), later, failure2);
      done := [m.version] + later;
    }
  }

  lemma {:induction false} SurplusIs<S>(ms: seq<Migration<S>>, applied: set<int>, target: int)
    ensures forall v :: v in Surplus(ms, applied, target) <==> v in Versions(ms) && v in applied && v > target
    ensures Ascending(ms) ==> Decreasing(Surplus(ms, applied, target))
  {
    assert Decreasing([]);
    hide Ascending, Decreasing;
    if ms != [] {
      var m, init := ms[|ms| - 1], ms[..|ms| - 1];
      assert ms == init + [m];
      SurplusIs(init, applied, target);
      if Ascending(ms) {
        FrontAscends(ms);
        FirstDecreases(m.version, Surplus(init, applied, target));
      }
    }
  }

  lemma FrontAscends<S>(ms: seq<Migration<S>>)
    requires Ascending(ms) && ms != []
    ensures Ascending(ms[..|ms| - 1]) && forall x :: x in ms[..|ms| - 1] ==> x.version < ms[|ms| - 1].version
  {
  }

  predicate Decreasing(versions: seq<int>) {
    forall i, j :: 0 <= i < j < |versions| ==> versions[j] < versions[i]
  }

  lemma FirstDecreases(v: int, rest: seq<int>)
    requires Decreasing(rest) && forall x :: x in rest ==> x < v
    ensures Decreasing([v] + rest)
  {
    assert forall k :: 0 <= k < |rest| ==> rest[k] in rest;
  }

  // ---------------------------------------------------------------- the main results

  /**
   What Up promises, for every store, list and fault: a failure before the first migration changes nothing;
   otherwise the versions recorded are those before plus the missing ones, all of them on success, those below
   the version it failed at on failure; and the calls made are theirs, in ascending order, and at most one more.
   */
  lemma UpAppliesTheMissing<S>(ms: seq<Migration<S>>, s: Store<S>, faults: Faults) returns (done: seq<int>)
    requires Ascending(ms)
    ensures var (s', failure) := RunUp(ms, s, faults);
            && (failure.Some? && !failure.value.At? ==> s' == s)
            && (failure.None? || failure.value.At? ==>
                  && Outcome(s, s', done, failure, true) && Increasing(done)
                  && (forall v :: v in done <==>
                        v in Versions(ms) && v !in s.records && (failure.Some? ==> v < failure.value.version))
                  && (failure.Some? ==> failure.value.version in Versions(ms) - s.records))
  {
    hide Ascending, Outcome;
    done := UpAllMeans(ms, s.records, s, faults);
    MissingIs(ms, s.records);
  }

  /** What Down promises, likewise: what is undone is what is applied, known and above the target. */
  lemma DownUndoesTheSurplus<S>(ms: seq<Migration<S>>, target: int, s: Store<S>, faults: Faults) returns (done: seq<int>)
    requires Ascending(ms)
    ensures var (s', failure) := RunDown(ms, target, s, faults);
            && (failure.Some? && !failure.value.At? ==> s' == s)
            && (failure.None? || failure.value.At? ==>
                  && Outcome(s, s', done, failure, false) && Decreasing(done)
                  && (forall v :: v in done <==>
                        v in Versions(ms) && v in s.records && v > target && (failure.Some? ==> v > failure.value.version))
                  && (failure.Some? ==>
                        failure.value.version in Versions(ms) * s.records && failure.value.version > target))
  {
    hide Ascending, Outcome;
    done := DownAllMeans(ms, s.records, target, s, faults);
    SurplusIs(ms, s.records, target);
    PrefixIsAbove(Surplus(ms, s.records, target), done);
  }

  lemma PrefixIsAbove(all: seq<int>, done: seq<int>)
    requires Decreasing(all) && done <= all
    ensures Decreasing(done)
    ensures |done| < |all| ==> all[|done|] in all && forall v :: v in done <==> v in all && v > all[|done|]
  {
  }

  lemma {:induction false} NothingMissing<S>(ms: seq<Migration<S>>, applied: set<int>, s: Store<S>, faults: Faults)
    requires forall m :: m in ms ==> m.version in applied
    ensures UpAll(ms, applied, s, faults) == (s, None)
  {
    if ms != [] { NothingMissing(ms[1..], applied, s, faults); }
  }

  /** Running Up again after it succeeded does nothing at all. */
  lemma UpIsIdempotent<S>(ms: seq<Migration<S>>, s: Store<S>, faults: Faults, faults': Faults)
    requires Ascending(ms) && RunUp(ms, s, faults).1 == None && !faults'.index && !faults'.find
    ensures RunUp(ms, RunUp(ms, s, faults).0, faults') == (RunUp(ms, s, faults).0, None)
  {
    var s' := RunUp(ms, s, faults).0;
    var done := UpAppliesTheMissing(ms, s, faults);
    forall m | m in ms ensures m.version in s'.records {
      assert m.version in Versions(ms);
    }
    NothingMissing(ms, s'.records, s', faults');
  }

  /**
   After a run that stopped at a version, the next run begins with that version again. Its function has then
   been called before exactly when the first run had found one; where only the record had failed, it is a
   call that had succeeded that is made a second time.
   */
  lemma NextRunBeginsWhereTheLastStopped<S>(ms: seq<Migration<S>>, s: Store<S>, faults: Faults, faults': Faults)
    returns (done: seq<int>, later: seq<int>)
    requires Ascending(ms) && var failure := RunUp(ms, s, faults).1; failure.Some? && failure.value.At?
    requires RunUp(ms, RunUp(ms, s, faults).0, faults').1 == None
    ensures var (s', failure) := RunUp(ms, s, faults);
            var s'' := RunUp(ms, s', faults').0;
            && later != [] && later[0] == failure.value.version
            && Increasing(done + later) && (forall v :: v in done + later <==> v in Versions(ms) && v !in s.records)
            && s''.records == s.records + Versions(ms)
            && s''.history == s.history + Calls(done, true) + Attempted(failure, true) + Calls(later, true)
  {
    hide Ascending, Outcome;
    var (s', failure) := RunUp(ms, s, faults);
    done := UpAppliesTheMissing(ms, s, faults);
    later := UpAppliesTheMissing(ms, s', faults');
    var s'' := RunUp(ms, s', faults').0;
    TwoOutcomes(s, s', s'', done, later, failure);
    LeastIsFirst(later, failure.value.version);
    Joined(done, later, failure.value.version);
  }

  lemma TwoOutcomes<S>(s: Store<S>, s': Store<S>, s'': Store<S>, done: seq<int>, later: seq<int>, failure: Option<Failure>)
    requires Outcome(s, s', done, failure, true) && Outcome(s', s'', later, None, true)
    ensures s'.records == s.records + Elements(done) && s''.records == s.records + Elements(done + later)
    ensures s''.history == s.history + Calls(done, true) + Attempted(failure, true) + Calls(later, true)
  {
    assert Elements(done + later) == Elements(done) + Elements(later);
  }

  lemma LeastIsFirst(later: seq<int>, v: int)
    requires Increasing(later) && v in later && forall x :: x in later ==> x >= v
    ensures later != [] && later[0] == v
  {
    assert later[0] in later;
  }

  lemma Joined(done: seq<int>, later: seq<int>, v: int)
    requires Increasing(done) && Increasing(later)
    requires (forall x :: x in done ==> x < v) && (forall x :: x in later ==> x >= v)
    ensures Increasing(done + later)
  {
    forall i, j | 0 <= i < j < |done + later| ensures (done + later)[i] < (done + later)[j] {
      if i < |done| <= j {
        assert done[i] in done && later[j - |done|] in later;
      }
    }
  }

  // ---------------------------------------------------------------- up and down again

  /** Wherever the function up succeeds, the function down succeeds and restores the schema. */
  ghost predicate Reversible<S(!new)>(m: Migration<S>) {
    m.up.Some? && m.down.Some? &&
    forall x: S :: m.up.value(x).1 ==> m.down.value(m.up.value(x).0) == (x, true)
  }

  /** A run down over a list ends with its first migration. */
  lemma {:induction false} DownEndsWithTheFirst<S>(ms: seq<Migration<S>>, applied: set<int>, target: int, s: Store<S>, faults: Faults)
    requires ms != []
    ensures var (s1, failure) := DownAll(ms[1..], applied, target, s, faults);
            DownAll(ms, applied, target, s, faults) ==
            if failure.Some? || ms[0].version <= target || ms[0].version !in applied then (s1, failure)
            else DownOne(ms[0], s1, faults)
    decreases |ms|
  {
    hide DownOne;
    var k := |ms| - 1;
    if k == 0 {
      assert ms[..0] == [];
    } else {
      assert ms[1..][k - 1] == ms[k] && ms[1..][..k - 1] == ms[..k][1..] && ms[..k][0] == ms[0];
      var s' := if ms[k].version <= target || ms[k].version !in applied then s else DownOne(ms[k], s, faults).0;
      DownEndsWithTheFirst(ms[..k], applied, target, s', faults);
    }
  }

  /** One migration up and, whatever happens in between, down again from the schema it left. */
  lemma DownAfterUp<S(!new)>(m: Migration<S>, s: Store<S>, s1: Store<S>, faults: Faults, faults': Faults)
    requires Reversible(m) && UpOne(m, s, faults).1 == None && m.version !in s.records && m.version !in faults'.delete
    requires s1.schema == UpOne(m, s, faults).0.schema && s1.records == UpOne(m, s, faults).0.records
    ensures var (s2, failure) := DownOne(m, s1, faults');
            failure == None && s2.schema == s.schema && s2.records == s.records
  {
    assert m.down.value(m.up.value(s.schema).0) == (s.schema, true);
  }

  /** What a run up has done, a run down undoes, if it aims at those migrations and no others. */
  lemma {:induction false} DownUndoesUp<S(!new)>(ms: seq<Migration<S>>, applied: set<int>, applied': set<int>, target: int,
                                                 s: Store<S>, faults: Faults, faults': Faults)
    requires Ascending(ms) && UpAll(ms, applied, s, faults).1 == None && faults'.delete == {}
    requires forall m :: m in ms ==>
                           && (m.version in applied ==> m.version <= target)
                           && (m.version !in applied ==>
                                 Reversible(m) && m.version > target && m.version in applied' && m.version !in s.records)
    ensures var (s', failure) := DownAll(ms, applied', target, UpAll(ms, applied, s, faults).0, faults');
            failure == None && s'.schema == s.schema && s'.records == s.records
  {
    hide Ascending, Reversible, UpOne, DownOne;
    if ms == [] { return; }
    TailAscends(ms);
    var m, s2 := ms[0], UpAll(ms, applied, s, faults).0;
    assert m in ms;
    DownEndsWithTheFirst(ms, applied', target, s2, faults');
    if m.version in applied {
      DownUndoesUp(ms[1..], applied, applied', target, s, faults, faults');
    } else {
      var s1 := UpOne(m, s, faults).0;
      OneStepUp(m, s, faults);
      assert Elements([m.version]) == {m.version};
      DownUndoesUp(ms[1..], applied, applied', target, s1, faults, faults');
      DownAfterUp(m, s, DownAll(ms[1..], applied', target, s2, faults').0, faults, faults');
    }
  }

  /**
   Up followed by Down restores the schema and the records, if the known applied versions lie at or below the
   target, the others above it, and each of those others is reversible.
   */
  lemma UpThenDownRestores<S(!new)>(ms: seq<Migration<S>>, target: int, s: Store<S>, faults: Faults, faults': Faults)
    requires Ascending(ms) && RunUp(ms, s, faults).1 == None && !faults'.find && faults'.delete == {}
    requires forall m :: m in ms ==> (m.version in s.records <==> m.version <= target)
    requires forall m :: m in ms && m.version !in s.records ==> Reversible(m)
    ensures var (s', failure) := RunDown(ms, target, RunUp(ms, s, faults).0, faults');
            failure == None && s'.schema == s.schema && s'.records == s.records
  {
    hide Ascending, Reversible;
    var done := UpAppliesTheMissing(ms, s, faults);
    var up := RunUp(ms, s, faults).0;
    forall m | m in ms ensures m.version in up.records {
      assert m.version in Versions(ms);
    }
    DownUndoesUp(ms, s.records, up.records, target, s, faults, faults');
  }

  /** For the records, that condition on the target is exact: any other target leaves other records behind. */
  lemma RecordsRestoredIff<S>(ms: seq<Migration<S>>, target: int, s: Store<S>, faults: Faults, faults': Faults)
    requires Ascending(ms) && RunUp(ms, s, faults).1 == None
    requires RunDown(ms, target, RunUp(ms, s, faults).0, faults').1 == None
    ensures RunDown(ms, target, RunUp(ms, s, faults).0, faults').0.records == s.records
            <==> forall m :: m in ms ==> (m.version in s.records <==> m.version <= target)
  {
    hide Ascending;
    var up := RunUp(ms, s, faults).0;
    var down := RunDown(ms, target, up, faults').0;
    var done := UpAppliesTheMissing(ms, s, faults);
    var undone := DownUndoesTheSurplus(ms, target, up, faults');
    RecordsAfterBoth(s, up, down, Versions(ms), target, done, undone);
    if forall m :: m in ms ==> (m.version in s.records <==> m.version <= target) {
      assert forall v :: v in Versions(ms) ==> (v in s.records <==> v <= target);
    } else {
      var m :| m in ms && !(m.version in s.records <==> m.version <= target);
      assert m.version in Versions(ms);
    }
  }

  lemma RecordsAfterBoth<S>(s: Store<S>, up: Store<S>, down: Store<S>, known: set<int>, target: int, done: seq<int>, undone: seq<int>)
    requires Outcome(s, up, done, None, true) && Outcome(up, down, undone, None, false)
    requires forall v :: v in done <==> v in known && v !in s.records
    requires forall v :: v in undone <==> v in known && v in up.records && v > target
    ensures forall v :: v in down.records <==> (v in s.records || v in known) && !(v in known && v > target)
    ensures down.records == s.records <==> forall v :: v in known ==> (v in s.records <==> v <= target)
  {
    var want := set v | v in s.records + known && !(v in known && v > target);
    forall v ensures v in down.records <==> v in want {
      assert v in up.records <==> v in s.records || v in done;
      assert v in down.records <==> v in up.records && v !in undone;
    }
    assert down.records == want;
    if forall v :: v in known ==> (v in s.records <==> v <= target) {
      assert want == s.records;
    } else {
      var v :| v in known && !(v in s.records <==> v <= target);
      assert (v in want) != (v in s.records);
    }
  }
}
