/** What every sequence of store calls keeps. */
module UserRuns {
  import opened Common
  import opened Users

  datatype Op = Save(rec: Record) | Update(rec: Record, fields: seq<Field>) | Delete(key: Key)

  ghost predicate MayStep(db: Db, op: Op, db': Db) {
    match op
    case Save(r) => db' == StorageSave(db, r).db
    case Update(r, fields) => db' == StorageUpdate(db, r, fields)
    case Delete(key) => exists err :: MayDelete(db, key, db', err)
  }

  ghost predicate IsRun(dbs: seq<Db>, ops: seq<Op>) {
    && |dbs| == |ops| + 1
    && forall i :: 0 <= i < |ops| ==> MayStep(dbs[i], ops[i], dbs[i + 1])
  }

  // ---- well-formed stores ----

  predicate CleanRecord(r: Record) {
    r.username != "" && r.password != "" && r.viewMode != "" && r.commands.Some?
  }

  predicate UniqueNames(table: map<nat, Record>) {
    forall a, b :: a in table && b in table && table[a].username == table[b].username ==> a == b
  }

  predicate Good(db: Db) {
    && (forall id :: id in db.table ==> id != 0 && db.table[id].id == id && CleanRecord(db.table[id]))
    && UniqueNames(db.table)
  }

  lemma StormSaveKeepsGood(db: Db, r: Record)
    requires Good(db) && CleanRecord(r)
    ensures Good(StormSave(db, r).db)
  {
  }

  lemma {:induction false} CleanIsEnough(r: Record)
    requires CleanError(r, CHECKABLE).None?
    ensures CleanRecord(Filled(r, CHECKABLE))
  {
    CleanErrorMeaning(r, CHECKABLE);
    assert CHECKABLE[0] == Username && CHECKABLE[1] == Password && CHECKABLE[3] == ViewMode && CHECKABLE[4] == Commands;
  }

  /** What cleaning by a field list guarantees about those fields, which are all a field update writes. */
  ghost predicate FieldsClean(r: Record, fields: seq<Field>) {
    && (Username in fields ==> r.username != "")
    && (Password in fields ==> r.password != "")
    && (ViewMode in fields ==> r.viewMode != "")
    && (Commands in fields ==> r.commands.Some?)
  }

  lemma {:induction false} FieldUpdatesKeepGood(db: Db, r: Record, fields: seq<Field>)
    requires Good(db) && FieldsClean(r, fields)
    ensures Good(FieldsWritten(db, r, fields))
    decreases |fields|
  {
    if fields != [] && UpdateFieldError(db, r, fields[0]).None? {
      var f := fields[0];
      assert f in fields;
      var db' := StormUpdateField(db, r, f);
      FieldUpdatesKeepGood(db', r, fields[1..]);
    }
  }

  lemma SaveKeepsGood(db: Db, r: Record)
    requires Good(db)
    ensures Good(StorageSave(db, r).db)
  {
    if CleanError(r, CHECKABLE).None? {
      CleanIsEnough(r);
      StormSaveKeepsGood(db, Filled(r, CHECKABLE));
    }
  }

  lemma StepKeepsGood(db: Db, op: Op, db': Db)
    requires Good(db) && MayStep(db, op, db')
    ensures Good(db')
  {
    match op
    case Save(r) => SaveKeepsGood(db, r);
    case Update(r, fields) =>
      if fields == [] {
        SaveKeepsGood(db, r);
      } else if CleanError(r, fields).None? {
        CleanErrorMeaning(r, fields);
        FieldUpdatesKeepGood(db, Filled(r, fields), fields);
      }
    case Delete(_) =>
  }

  /**
   Over any run of saves, updates (whole or by field list, failing part-way or not) and deletes, every
   stored user has its own nonempty name, a password, a view mode and a command list.
   */
  lemma {:induction false} RunsKeepGood(dbs: seq<Db>, ops: seq<Op>, i: nat)
    requires IsRun(dbs, ops) && Good(dbs[0]) && i < |dbs|
    ensures Good(dbs[i])
  {
    if i > 0 {
      RunsKeepGood(dbs, ops, i - 1);
      StepKeepsGood(dbs[i - 1], ops[i - 1], dbs[i]);
    }
  }

  // ---- lookups ----

  /** Uniqueness makes the lookup a function. */
  lemma LookupIsUnique(db: Db, key: Key, a: Option<Record>, b: Option<Record>)
    requires Good(db) && MayFind(db, key, a) && MayFind(db, key, b)
    ensures a == b
  {
  }

  /** On a well-formed store Get re-checks in vain: it returns exactly the stored record, and fails only when
      there is none. */
  lemma GetFailsOnlyWhenAbsent(db: Db, key: Key, found: Option<Record>)
    requires Good(db) && MayFind(db, key, found)
    ensures found.Some? ==> CleanError(found.value, CHECKABLE).None? && Filled(found.value, CHECKABLE) == found.value
    ensures found.Some? <==>
            match key
            case ById(id) => id in db.table
            case ByName(name) => NameUsed(db.table, name)
            case OtherType => false
    ensures found.Some? ==>
              && found.value.id in db.table && db.table[found.value.id] == found.value
              && match key
                 case ById(id) => found.value.id == id
                 case ByName(name) => found.value.username == name
                 case OtherType => false
  {
    if found.Some? {
      CleanErrorMeaning(found.value, CHECKABLE);
    }
  }

  /** The record a key stands for on a well-formed store. */
  ghost predicate Names(key: Key, r: Record) {
    match key
    case ById(id) => r.id == id
    case ByName(name) => r.username == name
    case OtherType => false
  }

  /**
   On a well-formed store a deletion, by number or by name, succeeds exactly when the key stands for a stored
   user other than user 1, and then removes that record and no other; one that fails changes nothing.
   */
  lemma DeleteRemovesExactly(db: Db, key: Key, db': Db, err: Option<Error>)
    requires Good(db) && MayDelete(db, key, db', err)
    ensures err.None? <==> exists id :: id in db.table && id != 1 && Names(key, db.table[id])
    ensures err.None? ==> forall id :: id in db'.table <==> id in db.table && !Names(key, db.table[id])
    ensures forall id :: id in db'.table ==> id in db.table && db'.table[id] == db.table[id]
    ensures err.Some? ==> db' == db
    ensures db'.counter == db.counter
    ensures err == Some(RootDeletion) <==> key == ById(1) || (1 in db.table && Names(key, db.table[1]))
  {
    if key.ByName? {
      var guard, found :|
        && MayFind(db, key, guard) && MayFind(db, key, found)
        && if guard.None? || found.None? then db' == db && err == Some(NotExist)
           else if guard.value.id == 1 then db' == db && err == Some(RootDeletion)
           else
             var id := found.value.id;
             db' == db.(table := db.table - {id}) && err == if id in db.table then None else Some(NotFound);
      LookupIsUnique(db, key, guard, found);
    } else if key.ById? && key.id !in db.table {
      assert db.table - {key.id} == db.table;
    }
  }

  // ---- the root user ----

  lemma {:induction false} FieldUpdatesKeepKeys(db: Db, r: Record, fields: seq<Field>)
    ensures FieldsWritten(db, r, fields).table.Keys == db.table.Keys
    ensures FieldsWritten(db, r, fields).counter == db.counter
    decreases |fields|
  {
    if fields != [] && UpdateFieldError(db, r, fields[0]).None? {
      FieldUpdatesKeepKeys(StormUpdateField(db, r, fields[0]), r, fields[1..]);
    }
  }

  lemma StepKeepsRoot(db: Db, op: Op, db': Db)
    requires Good(db) && MayStep(db, op, db') && 1 in db.table
    ensures 1 in db'.table
  {
    match op
    case Save(_) =>
    case Update(r, fields) =>
      if fields != [] && CleanError(r, fields).None? {
        FieldUpdatesKeepKeys(db, Filled(r, fields), fields);
      }
    case Delete(key) =>
      if key.ByName? {
        var err :| MayDelete(db, key, db', err);
        DeleteRemovesExactly(db, key, db', err);
      }
  }

  /** Once user 1 is stored no run of calls removes it, by number or by name. */
  lemma {:induction false} RootSurvives(dbs: seq<Db>, ops: seq<Op>, i: nat, j: nat)
    requires IsRun(dbs, ops) && Good(dbs[0]) && i <= j < |dbs|
    requires 1 in dbs[i].table
    ensures 1 in dbs[j].table
  {
    if i < j {
      RootSurvives(dbs, ops, i, j - 1);
      RunsKeepGood(dbs, ops, j - 1);
      StepKeepsRoot(dbs[j - 1], ops[j - 1], dbs[j]);
    }
  }

  // ---- field lists ----

  /** These fields come from the caller's record, the others from the stored one. */
  function Merged(stored: Record, r: Record, fields: set<Field>): Record {
    Record(stored.id,
           if Username in fields then r.username else stored.username,
           if Password in fields then r.password else stored.password,
           if Scope in fields then r.scope else stored.scope,
           if Locale in fields then r.locale else stored.locale,
           if LockPassword in fields then r.lockPassword else stored.lockPassword,
           if ViewMode in fields then r.viewMode else stored.viewMode,
           if SingleClick in fields then r.singleClick else stored.singleClick,
           if Perm in fields then r.perm else stored.perm,
           if Commands in fields then r.commands else stored.commands)
  }

  function FieldSet(fields: seq<Field>): set<Field> { set f | f in fields }

  /** How many of the fields are written before a name conflict stops the update. */
  function WrittenCount(db: Db, r: Record, fields: seq<Field>): (n: nat)
    ensures n <= |fields|
    ensures n < |fields| ==> fields[n] == Username && NameTaken(db.table, r.username, r.id)
    ensures forall i :: 0 <= i < n ==> fields[i] != Username || !NameTaken(db.table, r.username, r.id)
  {
    if fields == [] || (fields[0] == Username && NameTaken(db.table, r.username, r.id)) then 0
    else 1 + WrittenCount(db, r, fields[1..])
  }

  lemma MergedStep(stored: Record, r: Record, f: Field, rest: set<Field>)
    ensures Merged(SetField(stored, r, f), r, rest) == Merged(stored, r, {f} + rest)
  {
    var one, both := SetField(stored, r, f), {f} + rest;
    assert forall g :: g in both <==> g == f || g in rest;
    match f
    case IdField =>
    case Username =>
    case Password =>
    case Scope =>
    case Locale =>
    case LockPassword =>
    case ViewMode =>
    case SingleClick =>
    case Perm =>
    case Commands =>
  }

  lemma OverwriteTwice(db: Db, r: Record, f: Field, x: Record)
    requires r.id in db.table && UpdateFieldError(db, r, f).None?
    ensures var db' := StormUpdateField(db, r, f);
            && db'.(table := db'.table[r.id := x]) == db.(table := db.table[r.id := x])
            && db'.table[r.id] == SetField(db.table[r.id], r, f)
            && NameTaken(db'.table, r.username, r.id) == NameTaken(db.table, r.username, r.id)
  {
    var db' := StormUpdateField(db, r, f);
    assert db'.table[r.id := x] == db.table[r.id := x];
    assert forall id :: id in db.table && id != r.id ==> db'.table[id] == db.table[id];
  }

  /**
   A field-list update of a stored record ends as a merge of the fields before the first conflict, in
   whatever order and with whatever repetitions they are listed; nothing else in the store changes.
   */
  lemma {:induction false} FieldUpdateIsMerge(db: Db, r: Record, fields: seq<Field>)
    requires r.id != 0 && r.id in db.table
    ensures var n := WrittenCount(db, r, fields);
            && FieldsWritten(db, r, fields) ==
               db.(table := db.table[r.id := Merged(db.table[r.id], r, FieldSet(fields[..n]))])
            && FieldsError(db, r, fields) == if n == |fields| then None else Some(AlreadyExists)
    decreases |fields|
  {
    if fields == [] || UpdateFieldError(db, r, fields[0]).Some? {
      assert FieldSet(fields[..0]) == {};
      assert db.table[r.id := db.table[r.id]] == db.table;
    } else {
      var f, rest, stored := fields[0], fields[1..], db.table[r.id];
      var db' := StormUpdateField(db, r, f);
      FieldUpdateIsMerge(db', r, rest);
      var n := WrittenCount(db', r, rest);
      var x := Merged(SetField(stored, r, f), r, FieldSet(rest[..n]));
      OverwriteTwice(db, r, f, x);
      WrittenCountDepends(db, db', r, rest);
      MergedStep(stored, r, f, FieldSet(rest[..n]));
      assert fields[..n + 1] == [f] + rest[..n];
      assert FieldSet(fields[..n + 1]) == {f} + FieldSet(rest[..n]);
    }
  }

  lemma {:induction false} WrittenCountDepends(db: Db, db': Db, r: Record, fields: seq<Field>)
    requires NameTaken(db'.table, r.username, r.id) == NameTaken(db.table, r.username, r.id)
    ensures WrittenCount(db', r, fields) == WrittenCount(db, r, fields)
  {
    if fields != [] {
      WrittenCountDepends(db, db', r, fields[1..]);
    }
  }

  // ---- what one call leaves ----

  /** The record a save stores for r: an empty view mode reads "list", nil commands are an empty list. */
  function AsStored(r: Record, id: nat): Record {
    r.(id := id,
       viewMode := if r.viewMode == "" then "list" else r.viewMode,
       commands := if r.commands == None then Some([]) else r.commands)
  }

  /** Does another user than this one hold the name? */
  ghost predicate HeldByOther(db: Db, name: string, id: nat) {
    exists k :: k in db.table && k != id && db.table[k].username == name
  }

  lemma {:induction false} CleanCheckable(r: Record)
    ensures CleanError(r, CHECKABLE) ==
            if r.username == "" then Some(EmptyUsername) else if r.password == "" then Some(EmptyPassword) else None
    ensures Filled(r, CHECKABLE) == AsStored(r, r.id)
  {
    CleanErrorMeaning(r, CHECKABLE);
    assert CHECKABLE[0] == Username && CHECKABLE[1] == Password && CHECKABLE[3] == ViewMode && CHECKABLE[4] == Commands;
    if CleanError(r, CHECKABLE).Some? {
      var k: nat :| FirstFailure(r, CHECKABLE, k, CleanError(r, CHECKABLE).value);
    }
  }

  /**
   A save is refused for an empty name, an empty password, or a name another user holds, and then changes
   nothing. Otherwise it puts the record under its own ID, or under the next automatic one for ID 0, and
   nothing else changes.
   */
  lemma SaveLeaves(db: Db, r: Record)
    ensures MayStep(db, Save(r), StorageSave(db, r).db)
    ensures var s, id := StorageSave(db, r), if r.id == 0 then db.counter + 1 else r.id;
            if r.username == "" then s.db == db && s.err == Some(EmptyUsername)
            else if r.password == "" then s.db == db && s.err == Some(EmptyPassword)
            else if HeldByOther(db, r.username, id) then s.db == db && s.err == Some(Exist)
            else
              && s.err == None && s.rec == AsStored(r, id)
              && s.db == Db(db.table[id := AsStored(r, id)], if r.id == 0 then id else db.counter)
  {
    CleanCheckable(r);
  }

  /** A whole-record update of a stored user replaces that record and changes nothing else. */
  lemma UpdateReplaces(db: Db, r: Record, db': Db)
    requires Good(db) && r.id in db.table && MayStep(db, Update(r, []), db')
    ensures db' == StorageUpdate(db, r, [])
    ensures var err := StorageUpdateError(db, r, []);
            if r.username == "" then db' == db && err == Some(EmptyUsername)
            else if r.password == "" then db' == db && err == Some(EmptyPassword)
            else if HeldByOther(db, r.username, r.id) then db' == db && err == Some(Exist)
            else db' == db.(table := db.table[r.id := AsStored(r, r.id)]) && err == None
  {
    SaveLeaves(db, r);
  }

  lemma MergesFilled(stored: Record, r: Record, fields: seq<Field>, n: nat)
    requires n <= |fields|
    ensures Merged(stored, Filled(r, fields), FieldSet(fields[..n])) ==
            Merged(stored, AsStored(r, r.id), FieldSet(fields[..n]))
  {
  }

  /**
   A field-list update that passes cleaning takes the fields before the first name conflict from the caller's
   record, filled in, and leaves everything else of that record and of the store as it was. It is refused, with
   nothing changed, when a listed name or password is empty or the user is not stored.
   */
  lemma {:induction false} UpdateMerges(db: Db, r: Record, fields: seq<Field>, db': Db)
    requires Good(db) && fields != [] && MayStep(db, Update(r, fields), db')
    ensures db' == StorageUpdate(db, r, fields)
    ensures var err := StorageUpdateError(db, r, fields);
            if (Username in fields && r.username == "") || (Password in fields && r.password == "") then
              && db' == db
              && exists k: nat, e :: FirstFailure(r, fields, k, e) && err == Some(e)
            else if r.id !in db.table then
              db' == db && err == Some(if r.id == 0 then NoId else NotFound)
            else
              var n := WrittenCount(db, r, fields);
              && db' == db.(table := db.table[r.id := Merged(db.table[r.id], AsStored(r, r.id), FieldSet(fields[..n]))])
              && err == if n == |fields| then None else Some(AlreadyExists)
  {
    CleanErrorMeaning(r, fields);
    if CleanError(r, fields).None? && r.id in db.table {
      var f := Filled(r, fields);
      FieldUpdateIsMerge(db, f, fields);
      SameCount(db, r, f, fields);
      MergesFilled(db.table[r.id], r, fields, WrittenCount(db, r, fields));
    }
  }

  lemma {:induction false} SameCount(db: Db, r: Record, f: Record, fields: seq<Field>)
    requires f.username == r.username && f.id == r.id
    ensures WrittenCount(db, f, fields) == WrittenCount(db, r, fields)
  {
    if fields != [] {
      SameCount(db, r, f, fields[1..]);
    }
  }

  // ---- automatic IDs ----

  /** No stored ID is ahead of the counter. */
  predicate CounterAhead(db: Db) {
    forall id :: id in db.table ==> id <= db.counter
  }

  /**
   A save that asks for a new ID leaves every stored record as it was exactly when the counter's next
   value is not already somebody's explicit ID (or that record is the very one being saved).
   */
  lemma NewIdIsFreshIff(db: Db, r: Record)
    requires Good(db) && r.id == 0 && StorageSave(db, r).err.None?
    ensures var s := StorageSave(db, r);
            (forall id :: id in db.table ==> id in s.db.table && s.db.table[id] == db.table[id])
            <==> (db.counter + 1 !in db.table || db.table[db.counter + 1] == s.rec)
  {
    var s := StorageSave(db, r);
    assert s.db.table == db.table[db.counter + 1 := s.rec];
  }

  /** The storage lets it fail: an explicit ID one past the counter is silently overwritten by the next
      automatic one. */
  lemma ExplicitIdCanBeOverwritten()
    ensures var perm := Permissions(false, true, true, true, true, true, true, true);
            var ann := Record(1, "ann", "pw", ".", "en", false, "list", false, perm, Some([]));
            var bob := ann.(id := 0, username := "bob");
            var db := StorageSave(Db(map[], 0), ann).db;
            var db' := StorageSave(db, bob).db;
            Good(db) && db.table[1] == ann && db'.table == map[1 := bob.(id := 1)]
  {
    var perm := Permissions(false, true, true, true, true, true, true, true);
    var ann := Record(1, "ann", "pw", ".", "en", false, "list", false, perm, Some([]));
    var bob := ann.(id := 0, username := "bob");
    CleanErrorMeaning(ann, CHECKABLE);
    CleanErrorMeaning(bob, CHECKABLE);
    var db := StorageSave(Db(map[], 0), ann).db;
    assert db == Db(map[1 := ann], 0);
    assert StorageSave(db, bob).db.table == map[1 := bob.(id := 1)];
  }

  /** Calls that never save under a new explicit ID keep the counter ahead, so automatic IDs stay fresh. */
  ghost predicate NoNewExplicitId(db: Db, op: Op) {
    (op.Save? || (op.Update? && op.fields == [])) && op.rec.id != 0 ==> op.rec.id in db.table
  }

  lemma {:induction false} RunsKeepCounterAhead(dbs: seq<Db>, ops: seq<Op>, i: nat)
    requires IsRun(dbs, ops) && CounterAhead(dbs[0]) && i < |dbs|
    requires forall k :: 0 <= k < |ops| ==> NoNewExplicitId(dbs[k], ops[k])
    ensures CounterAhead(dbs[i])
  {
    if i > 0 {
      RunsKeepCounterAhead(dbs, ops, i - 1);
      var db, op := dbs[i - 1], ops[i - 1];
      assert NoNewExplicitId(db, op) && MayStep(db, op, dbs[i]);
      if op.Update? && op.fields != [] && CleanError(op.rec, op.fields).None? {
        FieldUpdatesKeepKeys(db, Filled(op.rec, op.fields), op.fields);
      }
    }
  }
}
