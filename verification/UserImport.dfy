/** The bulk user import: a fold over the file's list that changes the table it consults. */
module UserImport {
  import opened Common
  import opened Users
  import opened UserRuns

  /** What the loop does with one entry. `go` is false where the command exits. */
  datatype Round = Round(db: Db, go: bool)

  function ImportOne(db: Db, r: Record, overwrite: bool): Round {
    if r.id in db.table then
      if !overwrite then Round(db, false)
      else if r.username != db.table[r.id].username && NameUsed(db.table, r.username) then Round(db, false)
      else
        var s := StorageSave(db, r);
        Round(s.db, s.err.None?)
    else
      var s := StorageSave(db, r.(id := 0));
      Round(s.db, s.err.None?)
  }

  /** The store when the loop stops, and how many entries it has saved. */
  datatype Imported = Imported(db: Db, count: nat)

  function ImportAll(db: Db, list: seq<Record>, overwrite: bool): (r: Imported)
    ensures r.count <= |list|
    decreases |list|
  {
    if list == [] then Imported(db, 0)
    else
      var one := ImportOne(db, list[0], overwrite);
      if !one.go then Imported(one.db, 0)
      else
        var rest := ImportAll(one.db, list[1..], overwrite);
        Imported(rest.db, 1 + rest.count)
  }

  predicate AllClean(list: seq<Record>) {
    forall i :: 0 <= i < |list| ==> CleanRecord(list[i])
  }

  lemma {:induction false} SaveOfClean(db: Db, r: Record)
    requires CleanRecord(r)
    ensures CleanError(r, CHECKABLE).None? && Filled(r, CHECKABLE) == r
  {
    CleanErrorMeaning(r, CHECKABLE);
  }

  // ---- the non-overwriting import ----

  /** The ID the counter hands to entry i when every entry before it is taken. */
  function NewId(db: Db, i: nat): nat { db.counter + i + 1 }

  /** Can entry i be taken, given the entries before it were? Its ID must not be stored or handed out
      already, nor its name be in use. */
  predicate Acceptable(db: Db, list: seq<Record>, i: nat)
    requires i < |list|
  {
    && list[i].id !in db.table
    && !(db.counter < list[i].id <= db.counter + i)
    && !NameTaken(db.table, list[i].username, NewId(db, i))
    && forall j :: 0 <= j < i ==> list[j].username != list[i].username
  }

  function FirstRefused(db: Db, list: seq<Record>, from: nat): (n: nat)
    requires from <= |list|
    ensures from <= n <= |list|
    ensures forall i :: from <= i < n ==> Acceptable(db, list, i)
    ensures n < |list| ==> !Acceptable(db, list, n)
    decreases |list| - from
  {
    if from == |list| || !Acceptable(db, list, from) then from else FirstRefused(db, list, from + 1)
  }

  /** Does entry i leave alone whatever is stored under the ID the counter gives it? */
  predicate Harmless(db: Db, list: seq<Record>, i: nat)
    requires i < |list|
  {
    NewId(db, i) in db.table ==> db.table[NewId(db, i)] == list[i].(id := NewId(db, i))
  }

  predicate AllHarmless(db: Db, list: seq<Record>, n: nat)
    requires n <= |list|
  {
    forall i :: 0 <= i < n ==> Harmless(db, list, i)
  }

  /** Every record of db is still there, unchanged. */
  predicate Spares(db: Db, now: Db) {
    forall id :: id in db.table ==> id in now.table && now.table[id] == db.table[id]
  }

  /** The store after the first n entries were put under the n IDs following the counter. */
  function WithNew(db: Db, list: seq<Record>, n: nat): Db
    requires n <= |list|
  {
    if n == 0 then db
    else
      var id := NewId(db, n - 1);
      Db(WithNew(db, list, n - 1).table[id := list[n - 1].(id := id)], id)
  }

  /** What that store holds, record by record. */
  ghost predicate HoldsNew(db: Db, list: seq<Record>, n: nat, now: Db)
    requires n <= |list|
  {
    && now.counter == db.counter + n
    && (forall id :: id in now.table <==> id in db.table || db.counter < id <= db.counter + n)
    && (forall id :: id in db.table && !(db.counter < id <= db.counter + n) ==> now.table[id] == db.table[id])
    && (forall i :: 0 <= i < n ==> NewRecord(db, list, i, now))
  }

  ghost predicate NewRecord(db: Db, list: seq<Record>, i: nat, now: Db)
    requires i < |list|
  {
    var id := NewId(db, i);
    id in now.table && now.table[id] == list[i].(id := id)
  }

  lemma HoldsOneMore(db: Db, list: seq<Record>, n: nat, now: Db)
    requires n < |list| && HoldsNew(db, list, n, now)
    ensures var id := NewId(db, n);
            HoldsNew(db, list, n + 1, Db(now.table[id := list[n].(id := id)], id))
  {
    var id := NewId(db, n);
    var next := Db(now.table[id := list[n].(id := id)], id);
    forall i | 0 <= i < n + 1 ensures NewRecord(db, list, i, next) {
      if i < n {
        assert NewRecord(db, list, i, now);
      }
    }
  }

  lemma {:induction false} WithNewHolds(db: Db, list: seq<Record>, n: nat)
    requires n <= |list|
    ensures HoldsNew(db, list, n, WithNew(db, list, n))
  {
    if n > 0 {
      WithNewHolds(db, list, n - 1);
      HoldsOneMore(db, list, n - 1, WithNew(db, list, n - 1));
    }
  }

  /** It spares db's records exactly when none of those entries harms one. */
  lemma {:induction false} WithNewSparesIff(db: Db, list: seq<Record>, n: nat)
    requires n <= |list|
    ensures Spares(db, WithNew(db, list, n)) <==> AllHarmless(db, list, n)
  {
    WithNewHolds(db, list, n);
    var now := WithNew(db, list, n);
    if Spares(db, now) {
      forall i | 0 <= i < n ensures Harmless(db, list, i) {
        assert NewRecord(db, list, i, now);
      }
    }
    if AllHarmless(db, list, n) {
      forall id | id in db.table ensures now.table[id] == db.table[id] {
        if db.counter < id <= db.counter + n {
          assert Harmless(db, list, id - db.counter - 1) && NewRecord(db, list, id - db.counter - 1, now);
        }
      }
    }
  }

  lemma {:induction false} WithNewSize(db: Db, list: seq<Record>, n: nat)
    requires n <= |list|
    requires forall i :: 0 <= i < n ==> NewId(db, i) !in db.table
    ensures |WithNew(db, list, n).table| == |db.table| + n
  {
    if n > 0 {
      WithNewSize(db, list, n - 1);
      WithNewHolds(db, list, n - 1);
      var before, id := WithNew(db, list, n - 1).table, NewId(db, n - 1);
      assert id !in before;
      assert WithNew(db, list, n).table == before[id := list[n - 1].(id := id)];
    }
  }

  /** What one round refuses: an ID that is stored, or a name that is in use. */
  predicate Refuses(now: Db, r: Record) {
    r.id in now.table || NameTaken(now.table, r.username, now.counter + 1)
  }

  /** One round after n entries were taken. */
  lemma TakesNext(db: Db, list: seq<Record>, n: nat)
    requires AllClean(list) && n < |list|
    requires Good(WithNew(db, list, n))
    ensures var now := WithNew(db, list, n);
            if Refuses(now, list[n]) then ImportOne(now, list[n], false) == Round(now, false)
            else ImportOne(now, list[n], false) == Round(WithNew(db, list, n + 1), true)
                 && Good(WithNew(db, list, n + 1))
  {
    var now, r := WithNew(db, list, n), list[n].(id := 0);
    WithNewHolds(db, list, n);
    SaveOfClean(now, r);
    StormSaveKeepsGood(now, r);
  }

  /** The loop has taken the first n entries and goes on from there. */
  ghost predicate Reaches(db: Db, list: seq<Record>, n: nat)
    requires n <= |list|
  {
    && Good(WithNew(db, list, n))
    && ImportAll(db, list, false) ==
       var rest := ImportAll(WithNew(db, list, n), list[n..], false);
       Imported(rest.db, n + rest.count)
  }

  lemma ReachesNext(db: Db, list: seq<Record>, n: nat)
    requires AllClean(list) && n < |list| && Reaches(db, list, n)
    ensures Refuses(WithNew(db, list, n), list[n]) ==> ImportAll(db, list, false) == Imported(WithNew(db, list, n), n)
    ensures !Refuses(WithNew(db, list, n), list[n]) ==> Reaches(db, list, n + 1)
  {
    TakesNext(db, list, n);
    assert list[n..][0] == list[n] && list[n..][1..] == list[n + 1..];
  }

  /** Every non-overwriting import ends as the store after the entries it took, at the first refused one. */
  lemma {:induction false} ImportStops(db: Db, list: seq<Record>, n: nat)
    requires AllClean(list) && n <= |list| && Reaches(db, list, n)
    ensures var r := ImportAll(db, list, false);
            && n <= r.count && r.db == WithNew(db, list, r.count) && Good(r.db)
            && (forall i :: n <= i < r.count ==> !Refuses(WithNew(db, list, i), list[i]))
            && (r.count < |list| ==> Refuses(r.db, list[r.count]))
    decreases |list| - n
  {
    if n == |list| {
      assert list[n..] == [];
    } else {
      ReachesNext(db, list, n);
      if !Refuses(WithNew(db, list, n), list[n]) {
        ImportStops(db, list, n + 1);
      }
    }
  }

  /** As long as no record was harmed, what a round refuses can be told from the store the import began with. */
  lemma {:induction false} RefusesMeansUnacceptable(db: Db, list: seq<Record>, n: nat)
    requires n < |list| && AllHarmless(db, list, n)
    ensures Refuses(WithNew(db, list, n), list[n]) <==> !Acceptable(db, list, n)
  {
    WithNewHolds(db, list, n);
    WithNewSparesIff(db, list, n);
    NamesSoFar(db, list, n, WithNew(db, list, n));
  }

  lemma NamesSoFar(db: Db, list: seq<Record>, n: nat, now: Db)
    requires n < |list| && HoldsNew(db, list, n, now) && Spares(db, now)
    ensures NameTaken(now.table, list[n].username, NewId(db, n)) <==>
            NameTaken(db.table, list[n].username, NewId(db, n)) ||
            exists j :: 0 <= j < n && list[j].username == list[n].username
  {
    var name, id := list[n].username, NewId(db, n);
    if j :| 0 <= j < n && list[j].username == name {
      assert NewRecord(db, list, j, now);
      assert now.table[NewId(db, j)].username == name;
    }
    if k :| k in db.table && k != id && db.table[k].username == name {
      assert now.table[k].username == name;
    }
    if k :| k in now.table && k != id && now.table[k].username == name {
      if k !in db.table {
        assert NewRecord(db, list, k - db.counter - 1, now);
      }
    }
  }

  /** Up to the first entry that harms a record, the import takes what is acceptable and stops at what is not. */
  lemma {:induction false} CountAgrees(db: Db, list: seq<Record>, n: nat)
    requires Good(db) && AllClean(list)
    requires n <= FirstRefused(db, list, 0) && AllHarmless(db, list, n)
    ensures n <= ImportAll(db, list, false).count
    ensures n == FirstRefused(db, list, 0) ==> n == ImportAll(db, list, false).count
    ensures n < FirstRefused(db, list, 0) ==> n < ImportAll(db, list, false).count
  {
    assert list[0..] == list;
    ImportStops(db, list, 0);
    if n > 0 {
      CountAgrees(db, list, n - 1);
    }
    if n < |list| {
      RefusesMeansUnacceptable(db, list, n);
    }
  }

  /**
   What a non-overwriting import does, on every well-formed store. The entries it takes are put under the
   consecutive IDs after the counter, with names of their own, and nothing else in the store changes; it
   stops at the first entry whose ID is stored or handed out already or whose name is in use by then.
   */
  lemma {:induction false} NonOverwritingImport(db: Db, list: seq<Record>)
    requires Good(db) && AllClean(list)
    ensures var r := ImportAll(db, list, false);
            && Good(r.db) && HoldsNew(db, list, r.count, r.db)
            && r.db == WithNew(db, list, r.count)
            && (forall i :: 0 <= i < r.count ==> !Refuses(WithNew(db, list, i), list[i]))
            && (r.count < |list| ==> Refuses(r.db, list[r.count]))
            && (forall i :: 0 <= i < r.count ==>
                  list[i].id !in db.table && !(db.counter < list[i].id <= db.counter + i))
  {
    assert list[0..] == list;
    ImportStops(db, list, 0);
    var n := ImportAll(db, list, false).count;
    WithNewHolds(db, list, n);
    forall i | 0 <= i < n ensures list[i].id !in db.table && !(db.counter < list[i].id <= db.counter + i) {
      WithNewHolds(db, list, i);
    }
  }

  /**
   It leaves every earlier record as it was exactly when no entry before the first unacceptable one is given
   an ID that another record holds: a test on the store and the list alone.
   */
  lemma {:induction false} ImportSparesIff(db: Db, list: seq<Record>)
    requires Good(db) && AllClean(list)
    ensures Spares(db, ImportAll(db, list, false).db) <==> AllHarmless(db, list, FirstRefused(db, list, 0))
  {
    assert list[0..] == list;
    ImportStops(db, list, 0);
    var n, first := ImportAll(db, list, false).count, FirstRefused(db, list, 0);
    WithNewSparesIff(db, list, n);
    if AllHarmless(db, list, first) {
      CountAgrees(db, list, first);
    } else if AllHarmless(db, list, n) {
      if n <= first {
        CountAgrees(db, list, n);
      }
    }
  }

  /** Then it takes exactly the acceptable entries, one new record each where the IDs are free. */
  lemma {:induction false} SparingImportTakesAcceptable(db: Db, list: seq<Record>)
    requires Good(db) && AllClean(list)
    requires AllHarmless(db, list, FirstRefused(db, list, 0))
    ensures var r := ImportAll(db, list, false);
            && r.count == FirstRefused(db, list, 0)
            && ((forall i :: 0 <= i < r.count ==> NewId(db, i) !in db.table) ==>
                  |r.db.table| == |db.table| + r.count)
  {
    var n := FirstRefused(db, list, 0);
    CountAgrees(db, list, n);
    assert list[0..] == list;
    ImportStops(db, list, 0);
    if forall i :: 0 <= i < n ==> NewId(db, i) !in db.table {
      WithNewSize(db, list, n);
    }
  }

  /**
   From the empty store, after any run of calls that save under no new explicit ID, as no caller in the
   program does, a non-overwriting import needs no condition at all: earlier records are untouched and
   there is one record more per taken entry, under IDs never stored before.
   */
  lemma {:induction false} ImportAfterAnyRun(dbs: seq<Db>, ops: seq<Op>, list: seq<Record>)
    requires IsRun(dbs, ops) && dbs[0] == Db(map[], 0)
    requires forall k :: 0 <= k < |ops| ==> NoNewExplicitId(dbs[k], ops[k])
    requires AllClean(list)
    ensures var db := dbs[|ops|];
            var r := ImportAll(db, list, false);
            && Good(db) && Good(r.db) && CounterAhead(r.db) && Spares(db, r.db)
            && r.count == FirstRefused(db, list, 0) && |r.db.table| == |db.table| + r.count
            && forall i :: 0 <= i < r.count ==> NewId(db, i) !in db.table && NewRecord(db, list, i, r.db)
  {
    var db := dbs[|ops|];
    RunsKeepGood(dbs, ops, |ops|);
    RunsKeepCounterAhead(dbs, ops, |ops|);
    ImportSparesIff(db, list);
    SparingImportTakesAcceptable(db, list);
    NonOverwritingImport(db, list);
    ImportKeepsStore(db, list, false);
  }

  /** An import is itself such a run, overwriting or not, so runs with imports in them are covered too. */
  lemma {:induction false} ImportIsRun(db: Db, list: seq<Record>, overwrite: bool) returns (dbs: seq<Db>, ops: seq<Op>)
    requires Good(db)
    ensures IsRun(dbs, ops) && dbs[0] == db && dbs[|ops|] == ImportAll(db, list, overwrite).db
    ensures forall k :: 0 <= k < |ops| ==> ops[k].Save? && NoNewExplicitId(dbs[k], ops[k])
    decreases |list|
  {
    if list == [] || (list[0].id in db.table && ImportOne(db, list[0], overwrite) == Round(db, false)) {
      dbs, ops := [db], [];
    } else {
      var r := if list[0].id in db.table then list[0] else list[0].(id := 0);
      var one := ImportOne(db, list[0], overwrite);
      SaveKeepsGood(db, r);
      if one.go {
        dbs, ops := ImportIsRun(one.db, list[1..], overwrite);
      } else {
        dbs, ops := [one.db], [];
      }
      dbs, ops := PrependStep(db, Save(r), dbs, ops);
    }
  }

  lemma PrependStep(db: Db, op: Op, dbs: seq<Db>, ops: seq<Op>) returns (dbs': seq<Db>, ops': seq<Op>)
    requires IsRun(dbs, ops) && op.Save? && MayStep(db, op, dbs[0]) && NoNewExplicitId(db, op)
    requires forall k :: 0 <= k < |ops| ==> ops[k].Save? && NoNewExplicitId(dbs[k], ops[k])
    ensures dbs' == [db] + dbs && ops' == [op] + ops && IsRun(dbs', ops')
    ensures forall k :: 0 <= k < |ops'| ==> ops'[k].Save? && NoNewExplicitId(dbs'[k], ops'[k])
  {
    dbs', ops' := [db] + dbs, [op] + ops;
    forall i | 0 <= i < |ops'|
      ensures MayStep(dbs'[i], ops'[i], dbs'[i + 1]) && ops'[i].Save? && NoNewExplicitId(dbs'[i], ops'[i])
    {
      if i > 0 {
        assert MayStep(dbs[i - 1], ops[i - 1], dbs[i]) && NoNewExplicitId(dbs[i - 1], ops[i - 1]);
      }
    }
  }

  /** The condition can fail on a store that a save under a new explicit ID has made: the entry for bob
      takes the ID ann was stored under. */
  lemma ImportCanOverwriteWithoutBeingAsked()
    ensures var perm := Permissions(false, true, true, true, true, true, true, true);
            var ann := Record(1, "ann", "pw", ".", "en", false, "list", false, perm, Some([]));
            var bob := ann.(id := 0, username := "bob");
            var db := Db(map[1 := ann], 0);
            && Good(db) && Acceptable(db, [bob], 0) && !Harmless(db, [bob], 0)
            && ImportAll(db, [bob], false) == Imported(Db(map[1 := bob.(id := 1)], 1), 1)
  {
    var perm := Permissions(false, true, true, true, true, true, true, true);
    var ann := Record(1, "ann", "pw", ".", "en", false, "list", false, perm, Some([]));
    var bob := ann.(id := 0, username := "bob");
    var db := Db(map[1 := ann], 0);
    SaveOfClean(db, bob);
    assert Good(db);
    assert bob.id !in db.table && bob.(id := 0) == bob;
    assert !NameTaken(db.table, "bob", 1);
    var one := ImportOne(db, bob, false);
    assert one == Round(Db(map[1 := bob.(id := 1)], 1), true);
    assert [bob][0] == bob && [bob][1..] == [];
    assert ImportAll(one.db, [], false) == Imported(one.db, 0);
  }

  // ---- the overwriting import ----

  /**
   On a stored ID the overwriting import's two checks, first the look-up by name and then the index's own,
   come to one: the entry replaces the record exactly when no other user has its name.
   */
  lemma OverwriteReplacesIff(db: Db, r: Record)
    requires Good(db) && CleanRecord(r) && r.id in db.table
    ensures ImportOne(db, r, true) ==
            if NameTaken(db.table, r.username, r.id) then Round(db, false)
            else Round(db.(table := db.table[r.id := r]), true)
  {
    SaveOfClean(db, r);
    if k :| k in db.table && db.table[k].username == r.username {
      assert k == r.id || NameTaken(db.table, r.username, r.id);
    }
  }

  // ---- both kinds ----

  /** Where a round puts an entry: under its own ID when that is stored, else under the next automatic one. */
  function TargetId(now: Db, r: Record): nat { if r.id in now.table then r.id else now.counter + 1 }

  /** The store with the entry put there; no other record changes. */
  function PutEntry(now: Db, r: Record): Db {
    var id := TargetId(now, r);
    Db(now.table[id := r.(id := id)], if r.id in now.table then now.counter else id)
  }

  /** What stops the import: a name another user holds and, without overwriting, an ID that is stored. */
  ghost predicate Stops(now: Db, r: Record, overwrite: bool) {
    (!overwrite && r.id in now.table) || HeldByOther(now, r.username, TargetId(now, r))
  }

  /** A round takes its entry, new or stored, exactly when nothing stops it. */
  lemma RoundTakesIff(db: Db, r: Record, overwrite: bool)
    requires Good(db) && CleanRecord(r)
    ensures ImportOne(db, r, overwrite) ==
            if Stops(db, r, overwrite) then Round(db, false) else Round(PutEntry(db, r), true)
    ensures Good(ImportOne(db, r, overwrite).db)
  {
    SaveLeaves(db, r);
    SaveLeaves(db, r.(id := 0));
    SaveKeepsGood(db, r);
    SaveKeepsGood(db, r.(id := 0));
    if r.id in db.table && overwrite {
      OverwriteReplacesIff(db, r);
    }
  }

  /** The store after these entries were put, one after the other. */
  function PutAll(db: Db, list: seq<Record>): Db {
    if list == [] then db else PutEntry(PutAll(db, list[..|list| - 1]), list[|list| - 1])
  }

  lemma {:induction false} PutAllFrom(db: Db, r: Record, rest: seq<Record>)
    ensures PutAll(PutEntry(db, r), rest) == PutAll(db, [r] + rest)
  {
    var k := |rest|;
    if k > 0 {
      assert ([r] + rest)[..k] == [r] + rest[..k - 1];
      PutAllFrom(db, r, rest[..k - 1]);
    } else {
      assert ([r] + rest)[..0] == [] && ([r] + rest)[0] == r;
    }
  }

  /** The entry at i is not refused by the store after the entries before it. */
  ghost predicate Takes(db: Db, list: seq<Record>, i: nat, overwrite: bool)
    requires i < |list|
  {
    !Stops(PutAll(db, list[..i]), list[i], overwrite)
  }

  lemma {:induction false} PutAllShift(db: Db, list: seq<Record>, i: nat, overwrite: bool)
    requires i < |list|
    ensures PutAll(PutEntry(db, list[0]), list[1..][..i]) == PutAll(db, list[..i + 1])
    ensures i + 1 < |list| ==>
              Takes(PutEntry(db, list[0]), list[1..], i, overwrite) == Takes(db, list, i + 1, overwrite)
  {
    PutAllFrom(db, list[0], list[1..][..i]);
    assert [list[0]] + list[1..][..i] == list[..i + 1];
  }

  /**
   Any import, overwriting or not, puts its entries one by one, new users included, and stops at the first
   one that the store as it is by then refuses; what it leaves is the store after the entries before that.
   */
  lemma {:induction false} ImportPutsUntilRefused(db: Db, list: seq<Record>, overwrite: bool)
    requires Good(db) && AllClean(list)
    ensures var r := ImportAll(db, list, overwrite);
            && r.db == PutAll(db, list[..r.count])
            && (forall i :: 0 <= i < r.count ==> Takes(db, list, i, overwrite))
            && (r.count < |list| ==> !Takes(db, list, r.count, overwrite))
    decreases |list|
  {
    if list != [] {
      RoundTakesIff(db, list[0], overwrite);
      assert list[..0] == [];
      if !Stops(db, list[0], overwrite) {
        var next, rest := PutEntry(db, list[0]), list[1..];
        ImportPutsUntilRefused(next, rest, overwrite);
        var n := ImportAll(next, rest, overwrite).count;
        PutAllShift(db, list, n, overwrite);
        forall i | 0 <= i < n + 1 ensures Takes(db, list, i, overwrite) {
          if i > 0 {
            PutAllShift(db, list, i - 1, overwrite);
          }
        }
      }
    }
  }

  // ---- any import ----

  lemma CleanSaveKeeps(db: Db, r: Record)
    requires Good(db) && (r.id == 0 || r.id in db.table)
    ensures var db' := StorageSave(db, r).db;
            && Good(db') && db.table.Keys <= db'.table.Keys
            && (CounterAhead(db) ==> CounterAhead(db'))
  {
    SaveKeepsGood(db, r);
  }

  lemma ImportOneKeeps(db: Db, r: Record, overwrite: bool)
    requires Good(db)
    ensures var db' := ImportOne(db, r, overwrite).db;
            && Good(db') && db.table.Keys <= db'.table.Keys
            && (CounterAhead(db) ==> CounterAhead(db'))
  {
    if r.id in db.table {
      CleanSaveKeeps(db, r);
    } else {
      CleanSaveKeeps(db, r.(id := 0));
    }
  }

  /** Overwriting or not, complete or cut short, an import loses no ID and keeps the store well formed
      with the counter ahead. */
  lemma {:induction false} ImportKeepsStore(db: Db, list: seq<Record>, overwrite: bool)
    requires Good(db)
    ensures var db' := ImportAll(db, list, overwrite).db;
            && Good(db') && db.table.Keys <= db'.table.Keys
            && (CounterAhead(db) ==> CounterAhead(db'))
    decreases |list|
  {
    if list != [] {
      ImportOneKeeps(db, list[0], overwrite);
      var one := ImportOne(db, list[0], overwrite);
      if one.go {
        ImportKeepsStore(one.db, list[1..], overwrite);
      }
    }
  }

  // ---- the command ----

  /** The cleaning pass over the file's list; false where the command exits. */
  method CleanList(list: seq<Record>) returns (cleaned: seq<Record>, ok: bool)
    ensures ok <==> forall i :: 0 <= i < |list| ==> list[i].username != "" && list[i].password != ""
    ensures ok ==> |cleaned| == |list| && AllClean(cleaned)
    ensures ok ==> forall i :: 0 <= i < |list| ==> cleaned[i] == Filled(list[i], CHECKABLE)
  {
    cleaned := [];
    assert CHECKABLE[0] == Username && CHECKABLE[1] == Password;
    for i := 0 to |list|
      invariant |cleaned| == i && AllClean(cleaned)
      invariant forall k :: 0 <= k < i ==>
                  list[k].username != "" && list[k].password != "" && cleaned[k] == Filled(list[k], CHECKABLE)
    {
      CleanErrorMeaning(list[i], CHECKABLE);
      var user := new User(list[i]);
      var err := user.Clean([]);
      if err.Some? {
        return cleaned, false;
      }
      CleanIsEnough(list[i]);
      cleaned := cleaned + [user.rec];
    }
    ok := true;
  }

  /**
   The replace phase. It empties the table exactly when user 1 is not stored; otherwise the guard's
   error ends the command, user 1 is kept, and what else remains is untouched.
   */
  method DeleteAll(store: Storage) returns (ok: bool)
    requires Good(store.back.db)
    modifies store.back
    ensures ok <==> 1 !in old(store.back.db).table
    ensures ok ==> store.back.db == old(store.back.db).(table := map[])
    ensures !ok ==>
              && store.back.db.counter == old(store.back.db).counter
              && 1 in store.back.db.table
              && forall id :: id in store.back.db.table ==>
                   id in old(store.back.db).table && store.back.db.table[id] == old(store.back.db).table[id]
    ensures Good(store.back.db)
  {
    ghost var before := store.back.db;
    forall id | id in before.table ensures CleanError(before.table[id], CHECKABLE).None? {
      SaveOfClean(before, before.table[id]);
    }
    var oldUsers, err, order := store.Gets();
    assert err.None?;  // on a well-formed store the listing cannot fail
    for i := 0 to |oldUsers|
      invariant store.back.db.counter == before.counter
      invariant forall id :: id in store.back.db.table <==> id in before.table && id !in order[..i]
      invariant forall id :: id in store.back.db.table ==> store.back.db.table[id] == before.table[id]
      invariant 1 !in order[..i]
    {
      assert order[i] in order && oldUsers[i].id == order[i];
      assert order[..i + 1] == order[..i] + [order[i]];
      err := store.Delete(ById(oldUsers[i].id));
      if err.Some? {
        return false;
      }
    }
    assert order[..|order|] == order;
    ok := true;
  }

  /** The import loop. `ok` is false where the command exits early. */
  method ImportLoop(store: Storage, list: seq<Record>, overwrite: bool) returns (ok: bool)
    requires Good(store.back.db) && AllClean(list)
    modifies store.back
    ensures var r := ImportAll(old(store.back.db), list, overwrite);
            store.back.db == r.db && ok == (r.count == |list|)
  {
    ghost var whole := ImportAll(store.back.db, list, overwrite);
    for i := 0 to |list|
      invariant Good(store.back.db)
      invariant var rest := ImportAll(store.back.db, list[i..], overwrite);
                whole == Imported(rest.db, i + rest.count)
    {
      ghost var db := store.back.db;
      ImportOneKeeps(db, list[i], overwrite);
      assert list[i..][0] == list[i] && list[i..][1..] == list[i + 1..];
      var user := new User(list[i]);
      var onDb, err := store.Get(ById(user.rec.id));
      GetFailsOnlyWhenAbsent(db, ById(list[i].id), if list[i].id in db.table then Some(db.table[list[i].id]) else None);
      if err.None? {
        if !overwrite {
          return false;
        }
        if user.rec.username != onDb.value.username {
          var other, e := store.Get(ByName(user.rec.username));
          NamedGet(db, list[i].username, other);
          if e.None? {
            return false;
          }
        }
      } else {
        user.rec := user.rec.(id := 0);
      }
      err := store.Save(user);
      if err.Some? {
        return false;
      }
    }
    ok := true;
  }

  /** On a well-formed store a Get by name succeeds exactly when the name is in use. */
  lemma NamedGet(db: Db, name: string, r: Option<Record>)
    requires Good(db)
    requires exists found ::
               && MayFind(db, ByName(name), found)
               && r == if found.Some? then Checked(found.value) else None
    ensures r.Some? <==> NameUsed(db.table, name)
  {
    var found :|
      && MayFind(db, ByName(name), found)
      && r == if found.Some? then Checked(found.value) else None;
    GetFailsOnlyWhenAbsent(db, ByName(name), found);
  }

  /**
   The whole command. A list with an unusable entry changes nothing. With `replace` and user 1 stored
   it stops before importing anything; with `replace` otherwise it imports into an empty table.
   */
  method ImportUsers(store: Storage, list: seq<Record>, replace_: bool, overwrite: bool) returns (ok: bool)
    requires Good(store.back.db)
    modifies store.back
    ensures var db := old(store.back.db);
            var usable := forall i :: 0 <= i < |list| ==> list[i].username != "" && list[i].password != "";
            if !usable then !ok && store.back.db == db
            else if replace_ && 1 in db.table then
              && !ok && store.back.db.counter == db.counter && 1 in store.back.db.table
              && forall id :: id in store.back.db.table ==> id in db.table && store.back.db.table[id] == db.table[id]
            else
              var start := if replace_ then db.(table := map[]) else db;
              var r := ImportAll(start, CleanedList(list), overwrite);
              store.back.db == r.db && ok == (r.count == |list|)
  {
    var cleaned;
    cleaned, ok := CleanList(list);
    if !ok {
      return;
    }
    assert cleaned == CleanedList(list);
    if replace_ {
      ok := DeleteAll(store);
      if !ok {
        return;
      }
    }
    ok := ImportLoop(store, cleaned, overwrite);
  }

  function CleanedList(list: seq<Record>): seq<Record> {
    seq(|list|, i requires 0 <= i < |list| => Filled(list[i], CHECKABLE))
  }
}
