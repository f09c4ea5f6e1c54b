/** The migration runner over a store whose records are keyed by version, and what its runs leave behind. */
module Migrations {
  import opened Common

  /** A migration function turns the schema into another one, finished or not, and says whether it succeeded. */
  datatype Migration<!S> = Migration(version: int, name: string, up: Option<S -> (S, bool)>, down: Option<S -> (S, bool)>)

  /** A call of a migration function, up or down. */
  datatype Ran = Ran(version: int, up: bool)

  /** The schema, the versions on record, and the calls made so far. */
  datatype Store<S> = Store(schema: S, records: set<int>, history: seq<Ran>)

  datatype Cause = NoFunction | FunctionFailed | RecordFailed

  datatype Failure = IndexFailed | FindFailed | At(version: int, cause: Cause)

  /** What the store refuses during one run. */
  datatype Faults = Faults(index: bool, find: bool, insert: set<int>, delete: set<int>)

  // ---------------------------------------------------------------- running up

  /** One migration up. A record that is there already, or refused by the store, is an error after the fact. */
  function UpOne<S>(m: Migration<S>, s: Store<S>, faults: Faults): (Store<S>, Option<Failure>) {
    if m.up == None then (s, Some(At(m.version, NoFunction)))
    else
      var (schema, ok) := m.up.value(s.schema);
      var s' := s.(schema := schema, history := s.history + [Ran(m.version, true)]);
      if !ok then (s', Some(At(m.version, FunctionFailed)))
      else if m.version in s.records || m.version in faults.insert then (s', Some(At(m.version, RecordFailed)))
      else (s'.(records := s.records + {m.version}), None)
  }

  function UpAll<S>(ms: seq<Migration<S>>, applied: set<int>, s: Store<S>, faults: Faults): (Store<S>, Option<Failure>) {
    if ms == [] then (s, None)
    else if ms[0].version in applied then UpAll(ms[1..], applied, s, faults)
    else
      var (s', failure) := UpOne(ms[0], s, faults);
      if failure.Some? then (s', failure) else UpAll(ms[1..], applied, s', faults)
  }

  function RunUp<S>(ms: seq<Migration<S>>, s: Store<S>, faults: Faults): (Store<S>, Option<Failure>) {
    if faults.index then (s, Some(IndexFailed))
    else if faults.find then (s, Some(FindFailed))
    else UpAll(ms, s.records, s, faults)
  }

  // ---------------------------------------------------------------- running down

  function DownOne<S>(m: Migration<S>, s: Store<S>, faults: Faults): (Store<S>, Option<Failure>) {
    if m.down == None then (s, Some(At(m.version, NoFunction)))
    else
      var (schema, ok) := m.down.value(s.schema);
      var s' := s.(schema := schema, history := s.history + [Ran(m.version, false)]);
      if !ok then (s', Some(At(m.version, FunctionFailed)))
      else if m.version in faults.delete then (s', Some(At(m.version, RecordFailed)))
      else (s'.(records := s.records - {m.version}), None)
  }

  /** From the last migration to the first. */
  function DownAll<S>(ms: seq<Migration<S>>, applied: set<int>, target: int, s: Store<S>, faults: Faults): (Store<S>, Option<Failure>) {
    if ms == [] then (s, None)
    else
      var m, init := ms[|ms| - 1], ms[..|ms| - 1];
      if m.version <= target || m.version !in applied then DownAll(init, applied, target, s, faults)
      else
        var (s', failure) := DownOne(m, s, faults);
        if failure.Some? then (s', failure) else DownAll(init, applied, target, s', faults)
  }

  function RunDown<S>(ms: seq<Migration<S>>, target: int, s: Store<S>, faults: Faults): (Store<S>, Option<Failure>) {
    if faults.find then (s, Some(FindFailed))
    else DownAll(ms, s.records, target, s, faults)
  }

  // ---------------------------------------------------------------- the runner

  class MongoManager<S> {
    var schema: S
    var records: set<int>
    var history: seq<Ran>

    function View(): Store<S>
      reads this
    {
      Store(schema, records, history)
    }

    constructor (schema: S, records: set<int>)
      ensures View() == Store(schema, records, [])
    {
      this.schema, this.records, this.history := schema, records, [];
    }

    method Run(version: int, up: bool, f: S -> (S, bool)) returns (ok: bool)
      modifies this
      ensures View() == old(View()).(schema := f(old(schema)).0, history := old(history) + [Ran(version, up)])
      ensures ok == f(old(schema)).1
    {
      history := history + [Ran(version, up)];
      var result := f(schema);
      schema, ok := result.0, result.1;
    }

    method InsertOne(version: int, faults: Faults) returns (ok: bool)
      modifies this`records
      ensures ok <==> version !in old(records) && version !in faults.insert
      ensures records == if ok then old(records) + {version} else old(records)
    {
      ok := version !in records && version !in faults.insert;
      if ok { records := records + {version}; }
    }

    method DeleteOne(version: int, faults: Faults) returns (ok: bool)
      modifies this`records
      ensures ok <==> version !in faults.delete
      ensures records == if ok then old(records) - {version} else old(records)
    {
      ok := version !in faults.delete;
      if ok { records := records - {version}; }
    }
  }

  class MigrationRunner<S> {
    const mongo: MongoManager<S>
    const migrations: array<Migration<S>>

    /** Sorts the caller's slice in place and keeps it. */
    constructor (mongo: MongoManager<S>, migrations: array<Migration<S>>)
      modifies migrations
      ensures this.mongo == mongo && this.migrations == migrations
      ensures migrations[..] == Sort(old(migrations[..]))
    {
      this.mongo, this.migrations := mongo, migrations;
      var sorted := Sort(migrations[..]);
      forall k | 0 <= k < migrations.Length {
        migrations[k] := sorted[k];
      }
      assert migrations[..] == sorted;
    }

    method ApplyOne(m: Migration<S>, faults: Faults) returns (failure: Option<Failure>)
      modifies mongo
      ensures (mongo.View(), failure) == UpOne(m, old(mongo.View()), faults)
    {
      if m.up == None { return Some(At(m.version, NoFunction)); }
      var ok := mongo.Run(m.version, true, m.up.value);
      if !ok { return Some(At(m.version, FunctionFailed)); }
      ok := mongo.InsertOne(m.version, faults);
      if !ok { return Some(At(m.version, RecordFailed)); }
      return None;
    }

    method Up(faults: Faults) returns (failure: Option<Failure>)
      modifies mongo
      ensures (mongo.View(), failure) == RunUp(migrations[..], old(mongo.View()), faults)
    {
      if faults.index { return Some(IndexFailed); }
      if faults.find { return Some(FindFailed); }
      var applied := mongo.records;
      ghost var s := mongo.View();
      var ms := migrations[..];
      for i := 0 to |ms|
        invariant UpAll(ms, applied, s, faults) == UpAll(ms[i..], applied, mongo.View(), faults)
      {
        assert ms[i..][0] == ms[i] && ms[i..][1..] == ms[i + 1..];
        if ms[i].version in applied { continue; }
        failure := ApplyOne(ms[i], faults);
        if failure.Some? { return; }
      }
      return None;
    }

    method UndoOne(m: Migration<S>, faults: Faults) returns (failure: Option<Failure>)
      modifies mongo
      ensures (mongo.View(), failure) == DownOne(m, old(mongo.View()), faults)
    {
      if m.down == None { return Some(At(m.version, NoFunction)); }
      var ok := mongo.Run(m.version, false, m.down.value);
      if !ok { return Some(At(m.version, FunctionFailed)); }
      ok := mongo.DeleteOne(m.version, faults);
      if !ok { return Some(At(m.version, RecordFailed)); }
      return None;
    }

    method Down(target: int, faults: Faults) returns (failure: Option<Failure>)
      modifies mongo
      ensures (mongo.View(), failure) == RunDown(migrations[..], target, old(mongo.View()), faults)
    {
      if faults.find { return Some(FindFailed); }
      var applied := mongo.records;
      ghost var s := mongo.View();
      var ms := migrations[..];
      assert ms[..|ms|] == ms;
      for i := |ms| downto 0
        invariant DownAll(ms, applied, target, s, faults) == DownAll(ms[..i], applied, target, mongo.View(), faults)
      {
        assert ms[..i + 1][i] == ms[i] && ms[..i + 1][..i] == ms[..i];
        if ms[i].version <= target || ms[i].version !in applied { continue; }
        failure := UndoOne(ms[i], faults);
        if failure.Some? { return; }
      }
      return None;
    }
  }

  // ---------------------------------------------------------------- sorting

  predicate Ascending<S>(ms: seq<Migration<S>>) {
    forall i, j :: 0 <= i < j < |ms| ==> ms[i].version < ms[j].version
  }

  predicate DistinctVersions<S>(ms: seq<Migration<S>>) {
    forall i, j :: 0 <= i < j < |ms| ==> ms[i].version != ms[j].version
  }

  function Insert<S>(m: Migration<S>, ms: seq<Migration<S>>): (r: seq<Migration<S>>)
    ensures |r| == |ms| + 1
  {
    if ms == [] || m.version <= ms[0].version then [m] + ms else [ms[0]] + Insert(m, ms[1..])
  }

  /** Stands for the library's sort; by `SortIsForced` any other gives the same list. */
  function Sort<S>(ms: seq<Migration<S>>): (r: seq<Migration<S>>)
    ensures |r| == |ms|
  {
    if ms == [] then [] else Insert(ms[0], Sort(ms[1..]))
  }

  lemma AscendingFrom<S>(m: Migration<S>, rest: seq<Migration<S>>)
    requires Ascending(rest) && forall x :: x in rest ==> m.version < x.version
    ensures Ascending([m] + rest)
  {
  }

  lemma {:induction false} InsertPermutes<S>(m: Migration<S>, ms: seq<Migration<S>>)
    ensures multiset(Insert(m, ms)) == multiset(ms) + multiset{m}
  {
    if ms != [] {
      InsertPermutes(m, ms[1..]);
      assert ms == [ms[0]] + ms[1..];
    }
  }

  lemma SameMembers<S>(a: seq<Migration<S>>, b: seq<Migration<S>>, m: Migration<S>)
    requires multiset(a) == multiset(b) + multiset{m}
    ensures forall x :: x in a ==> x in b || x == m
  {
    assert forall x :: x in a ==> x in multiset(a);
  }

  lemma {:induction false} InsertAscends<S>(m: Migration<S>, ms: seq<Migration<S>>)
    requires Ascending(ms) && forall i :: 0 <= i < |ms| ==> ms[i].version != m.version
    ensures Ascending(Insert(m, ms))
  {
    hide Ascending;
    if ms == [] || m.version <= ms[0].version {
      InsertInFront(m, ms);
    } else {
      TailAscends(ms);
      InsertAscends(m, ms[1..]);
      InsertPermutes(m, ms[1..]);
      SameMembers(Insert(m, ms[1..]), ms[1..], m);
      AscendingFrom(ms[0], Insert(m, ms[1..]));
    }
  }

  lemma InsertInFront<S>(m: Migration<S>, ms: seq<Migration<S>>)
    requires Ascending(ms) && (ms != [] ==> m.version < ms[0].version)
    ensures Ascending([m] + ms)
  {
  }

  lemma TailAscends<S>(ms: seq<Migration<S>>)
    requires Ascending(ms) && ms != []
    ensures Ascending(ms[1..]) && forall x :: x in ms[1..] ==> ms[0].version < x.version
  {
  }

  lemma {:induction false} SortAscends<S>(ms: seq<Migration<S>>)
    requires DistinctVersions(ms)
    ensures Ascending(Sort(ms)) && multiset(Sort(ms)) == multiset(ms)
  {
    hide Ascending;
    if ms == [] {
      NoneAscends<S>();
    } else {
      var rest := Sort(ms[1..]);
      SortAscends(ms[1..]);
      InsertPermutes(ms[0], rest);
      assert ms == [ms[0]] + ms[1..];
      SameMembers(rest + [ms[0]], ms[1..], ms[0]);
      forall k | 0 <= k < |rest| ensures rest[k].version != ms[0].version {
        assert rest[k] in multiset(rest);
        assert rest[k] in ms[1..];
      }
      InsertAscends(ms[0], rest);
    }
  }

  lemma NoneAscends<S>()
    ensures Ascending<S>([])
  {
  }

  lemma SameLeast<S>(a: seq<Migration<S>>, b: seq<Migration<S>>)
    requires Ascending(a) && Ascending(b) && multiset(a) == multiset(b) && a != [] && b != []
    ensures a[0] == b[0]
  {
    assert a[0] in multiset(b) && b[0] in multiset(a);
    assert a[0] in b && b[0] in a;
  }

  /** Two ascending lists of the same migrations are the same list. */
  lemma {:induction false} SortIsForced<S>(a: seq<Migration<S>>, b: seq<Migration<S>>)
    requires Ascending(a) && Ascending(b) && multiset(a) == multiset(b)
    ensures a == b
  {
    hide Ascending;
    assert |multiset(a)| == |multiset(b)|;
    if a != [] {
      SameLeast(a, b);
      TailAscends(a);
      TailAscends(b);
      assert a == [a[0]] + a[1..] && b == [b[0]] + b[1..];
      assert multiset(a[1..]) == multiset(a) - multiset{a[0]};
      assert multiset(b[1..]) == multiset(b) - multiset{b[0]};
      SortIsForced(a[1..], b[1..]);
    }
  }
}
