/**
 The user store: Clean, the storage layer and its storm backend. Assumed of storm: the Username index
 is unique (a save that would give two records one name fails and changes nothing), a zero ID is
 replaced by the next value of a counter that starts at 1 and that explicit IDs do not move, Save is
 an upsert, UpdateField writes one field of an existing record.
 */
module Users {
  import opened Common

  datatype Permissions = Permissions(mayAdmin: bool, mayExecute: bool, mayCreate: bool, mayRename: bool,
                                     mayModify: bool, mayDelete: bool, mayShare: bool, mayDownload: bool)

  /** `commands` is None for Go's nil slice. */
  datatype Record = Record(id: nat, username: string, password: string, scope: string, locale: string,
                           lockPassword: bool, viewMode: string, singleClick: bool, perm: Permissions,
                           commands: Option<seq<string>>)

  datatype Field =
    | IdField | Username | Password | Scope | Locale | LockPassword | ViewMode | SingleClick | Perm | Commands

  datatype Error =
    | EmptyUsername | EmptyPassword | Exist | NotExist | RootDeletion | InvalidDataType
    | AlreadyExists | NotFound | NoId  // storm's own, passed through

  /** How a caller names a user. The storage rejects every other dynamic type, the CLI's uint64 included. */
  datatype Key = ById(id: nat) | ByName(name: string) | OtherType

  const LIST_VIEW := "list"
  const CHECKABLE: seq<Field> := [Username, Password, Scope, ViewMode, Commands]

  // ---- Clean ----

  function FieldError(r: Record, f: Field): Option<Error> {
    if f == Username && r.username == "" then Some(EmptyUsername)
    else if f == Password && r.password == "" then Some(EmptyPassword)
    else None
  }

  /** The first error in field order, if any. */
  function CleanError(r: Record, fields: seq<Field>): Option<Error> {
    if fields == [] then None
    else if FieldError(r, fields[0]).Some? then FieldError(r, fields[0])
    else CleanError(r, fields[1..])
  }

  /** The record with the view mode and the command list filled in when they are among the fields. */
  function Filled(r: Record, fields: seq<Field>): Record {
    r.(viewMode := if ViewMode in fields && r.viewMode == "" then LIST_VIEW else r.viewMode,
       commands := if Commands in fields && r.commands == None then Some([]) else r.commands)
  }

  /** Cleaning these fields fails at position k, and at none before. */
  ghost predicate FirstFailure(r: Record, fields: seq<Field>, k: nat, e: Error) {
    && k < |fields|
    && ((fields[k] == Username && r.username == "" && e == EmptyUsername)
        || (fields[k] == Password && r.password == "" && e == EmptyPassword))
    && forall j :: 0 <= j < k ==>
         (fields[j] == Username ==> r.username != "") && (fields[j] == Password ==> r.password != "")
  }

  lemma {:induction false} CleanErrorMeaning(r: Record, fields: seq<Field>)
    ensures CleanError(r, fields).None? <==>
            (Username in fields ==> r.username != "") && (Password in fields ==> r.password != "")
    ensures CleanError(r, fields).Some? ==> exists k: nat :: FirstFailure(r, fields, k, CleanError(r, fields).value)
  {
    if fields != [] {
      CleanErrorMeaning(r, fields[1..]);
      assert fields == [fields[0]] + fields[1..];
      if FieldError(r, fields[0]).Some? {
        assert FirstFailure(r, fields, 0, CleanError(r, fields).value);
      } else if CleanError(r, fields).Some? {
        var k: nat :| FirstFailure(r, fields[1..], k, CleanError(r, fields).value);
        FailsLater(r, fields, k, CleanError(r, fields).value);
      }
    }
  }

  lemma FailsLater(r: Record, fields: seq<Field>, k: nat, e: Error)
    requires fields != [] && FieldError(r, fields[0]).None? && FirstFailure(r, fields[1..], k, e)
    ensures FirstFailure(r, fields, k + 1, e)
  {
    forall j | 0 <= j < k + 1
      ensures (fields[j] == Username ==> r.username != "") && (fields[j] == Password ==> r.password != "")
    {
      if j > 0 {
        assert fields[j] == fields[1..][j - 1];
      }
    }
  }

  lemma {:induction false} CleanErrorPrefix(r: Record, fields: seq<Field>, i: nat)
    requires i < |fields| && CleanError(r, fields[..i]).None?
    ensures FieldError(r, fields[i]).Some? ==> CleanError(r, fields) == FieldError(r, fields[i])
    ensures FieldError(r, fields[i]).None? ==> CleanError(r, fields[..i + 1]).None?
  {
    if i > 0 {
      assert fields[..i][1..] == fields[1..][..i - 1];
      assert fields[..i + 1][1..] == fields[1..][..i];
      CleanErrorPrefix(r, fields[1..], i - 1);
    }
  }

  class User {
    var rec: Record

    constructor (r: Record)
      ensures rec == r
    {
      rec := r;
    }

    method Clean(names: seq<Field>) returns (err: Option<Error>)
      modifies this
      ensures var fields := if names == [] then CHECKABLE else names;
              && err == CleanError(old(rec), fields)
              && (err.None? ==> rec == Filled(old(rec), fields))
              && (err.Some? ==> exists k :: 0 <= k < |fields| && rec == Filled(old(rec), fields[..k]))
    {
      var fields := if |names| == 0 then CHECKABLE else names;
      for i := 0 to |fields|
        invariant CleanError(old(rec), fields[..i]).None?
        invariant rec == Filled(old(rec), fields[..i])
      {
        CleanErrorPrefix(old(rec), fields, i);
        assert fields[..i + 1] == fields[..i] + [fields[i]];
        match fields[i]
        case Username =>
          if rec.username == "" {
            return Some(EmptyUsername);
          }
        case Password =>
          if rec.password == "" {
            return Some(EmptyPassword);
          }
        case ViewMode =>
          if rec.viewMode == "" {
            rec := rec.(viewMode := LIST_VIEW);
          }
        case Commands =>
          if rec.commands == None {
            rec := rec.(commands := Some([]));
          }
        case _ =>
      }
      assert fields[..|fields|] == fields;
      err := None;
    }
  }

  // ---- storm's contract ----

  datatype Db = Db(table: map<nat, Record>, counter: nat)

  predicate NameTaken(table: map<nat, Record>, name: string, except: nat) {
    exists id :: id in table && id != except && table[id].username == name
  }

  predicate NameUsed(table: map<nat, Record>, name: string) {
    exists id :: id in table && table[id].username == name
  }

  datatype Saved = Saved(db: Db, rec: Record, err: Option<Error>)

  function StormSave(db: Db, r: Record): Saved {
    var id := if r.id == 0 then db.counter + 1 else r.id;
    var r' := r.(id := id);
    if NameTaken(db.table, r.username, id) then Saved(db, r', Some(AlreadyExists))
    else Saved(Db(db.table[id := r'], if r.id == 0 then id else db.counter), r', None)
  }

  function SetField(target: Record, source: Record, f: Field): Record {
    match f
    case IdField => target
    case Username => target.(username := source.username)
    case Password => target.(password := source.password)
    case Scope => target.(scope := source.scope)
    case Locale => target.(locale := source.locale)
    case LockPassword => target.(lockPassword := source.lockPassword)
    case ViewMode => target.(viewMode := source.viewMode)
    case SingleClick => target.(singleClick := source.singleClick)
    case Perm => target.(perm := source.perm)
    case Commands => target.(commands := source.commands)
  }

  function UpdateFieldError(db: Db, r: Record, f: Field): Option<Error> {
    if r.id == 0 then Some(NoId)
    else if r.id !in db.table then Some(NotFound)
    else if f == Username && NameTaken(db.table, r.username, r.id) then Some(AlreadyExists)
    else None
  }

  function StormUpdateField(db: Db, r: Record, f: Field): Db {
    if UpdateFieldError(db, r, f).Some? then db
    else db.(table := db.table[r.id := SetField(db.table[r.id], r, f)])
  }

  /** A lookup by name may return any record with that name; only uniqueness makes it a function. */
  ghost predicate MayFind(db: Db, key: Key, found: Option<Record>) {
    match key
    case ById(id) => found == if id in db.table then Some(db.table[id]) else None
    case ByName(name) =>
      if found.None? then !NameUsed(db.table, name)
      else found.value.username == name && exists id :: id in db.table && db.table[id] == found.value
    case OtherType => found == None
  }

  // ---- backend ----

  /** The fields before the first one whose update fails have been written. */
  function FieldsWritten(db: Db, r: Record, fields: seq<Field>): Db
    decreases |fields|
  {
    if fields == [] || UpdateFieldError(db, r, fields[0]).Some? then db
    else FieldsWritten(StormUpdateField(db, r, fields[0]), r, fields[1..])
  }

  function FieldsError(db: Db, r: Record, fields: seq<Field>): Option<Error>
    decreases |fields|
  {
    if fields == [] then None
    else if UpdateFieldError(db, r, fields[0]).Some? then UpdateFieldError(db, r, fields[0])
    else FieldsError(StormUpdateField(db, r, fields[0]), r, fields[1..])
  }

  function SaveError(err: Option<Error>): Option<Error> {
    if err == Some(AlreadyExists) then Some(Exist) else err
  }

  /** Each key once. */
  ghost predicate Enumerates(order: seq<nat>, keys: set<nat>) {
    && (forall id :: id in order <==> id in keys)
    && (forall i, j :: 0 <= i < j < |order| ==> order[i] != order[j])
  }

  /** Why a lookup that finds nothing says it failed. */
  function LookupError(key: Key): Error { if key.OtherType? then InvalidDataType else NotExist }

  class Backend {
    var db: Db

    constructor ()
      ensures db == Db(map[], 0)
    {
      db := Db(map[], 0);
    }

    method GetBy(key: Key) returns (found: Option<Record>, err: Option<Error>)
      ensures MayFind(db, key, found)
      ensures err == if found.Some? then None else Some(LookupError(key))
    {
      found := None;
      match key {
        case ById(id) =>
          if id in db.table {
            found := Some(db.table[id]);
          }
        case ByName(name) =>
          if id :| id in db.table && db.table[id].username == name {
            found := Some(db.table[id]);
          }
        case OtherType =>
          return None, Some(InvalidDataType);
      }
      err := if found.Some? then None else Some(NotExist);
    }

    /** Every record once; the order of the IDs is storm's and arbitrary here. */
    method Gets() returns (all: seq<Record>, order: seq<nat>)
      ensures Enumerates(order, db.table.Keys) && |all| == |order|
      ensures forall i :: 0 <= i < |all| ==> all[i] == db.table[order[i]]
    {
      all, order := [], [];
      var left := db.table.Keys;
      while left != {}
        invariant left <= db.table.Keys
        invariant Enumerates(order, db.table.Keys - left) && |all| == |order|
        invariant forall i :: 0 <= i < |all| ==> order[i] in db.table && all[i] == db.table[order[i]]
        decreases left
      {
        var id :| id in left;
        assert id !in order;
        all, order := all + [db.table[id]], order + [id];
        left := left - {id};
      }
    }

    method Save(user: User) returns (err: Option<Error>)
      modifies this, user
      ensures var s := StormSave(old(db), old(user.rec));
              db == s.db && user.rec == s.rec && err == SaveError(s.err)
    {
      var s := StormSave(db, user.rec);
      db, user.rec := s.db, s.rec;
      err := s.err;
      if err == Some(AlreadyExists) {
        err := Some(Exist);
      }
    }

    method Update(user: User, fields: seq<Field>) returns (err: Option<Error>)
      modifies this, user
      ensures if fields == [] then
                var s := StormSave(old(db), old(user.rec));
                db == s.db && user.rec == s.rec && err == SaveError(s.err)
              else
                db == FieldsWritten(old(db), old(user.rec), fields)
                && err == FieldsError(old(db), old(user.rec), fields)
                && user.rec == old(user.rec)
    {
      if |fields| == 0 {
        err := Save(user);
        return;
      }
      for i := 0 to |fields|
        invariant user.rec == old(user.rec)
        invariant FieldsWritten(db, user.rec, fields[i..]) == FieldsWritten(old(db), user.rec, fields)
        invariant FieldsError(db, user.rec, fields[i..]) == FieldsError(old(db), user.rec, fields)
      {
        err := UpdateFieldError(db, user.rec, fields[i]);
        if err.Some? {
          return;
        }
        db := StormUpdateField(db, user.rec, fields[i]);
      }
      err := None;
    }

    method DeleteByID(id: nat) returns (err: Option<Error>)
      modifies this
      ensures db == old(db).(table := old(db).table - {id})
      ensures err == if id in old(db).table then None else Some(NotFound)
    {
      err := if id in db.table then None else Some(NotFound);
      db := db.(table := db.table - {id});
    }

    /** Looks the name up a second time, after the storage layer has. */
    method DeleteByUsername(name: string) returns (err: Option<Error>)
      modifies this
      ensures exists found ::
                && MayFind(old(db), ByName(name), found)
                && (found.None? ==> db == old(db) && err == Some(NotExist))
                && (found.Some? ==>
                      && db == old(db).(table := old(db).table - {found.value.id})
                      && err == if found.value.id in old(db).table then None else Some(NotFound))
    {
      var found, e := GetBy(ByName(name));
      if e.Some? {
        return e;
      }
      err := DeleteByID(found.value.id);
    }
  }

  // ---- storage layer ----

  function StorageSave(db: Db, r: Record): Saved {
    if CleanError(r, CHECKABLE).Some? then Saved(db, r, CleanError(r, CHECKABLE))
    else
      var s := StormSave(db, Filled(r, CHECKABLE));
      s.(err := SaveError(s.err))
  }

  function StorageUpdate(db: Db, r: Record, fields: seq<Field>): Db {
    if fields == [] then StorageSave(db, r).db
    else if CleanError(r, fields).Some? then db
    else FieldsWritten(db, Filled(r, fields), fields)
  }

  function StorageUpdateError(db: Db, r: Record, fields: seq<Field>): Option<Error> {
    if fields == [] then StorageSave(db, r).err
    else if CleanError(r, fields).Some? then CleanError(r, fields)
    else FieldsError(db, Filled(r, fields), fields)
  }

  /** The outcomes of a deletion. By name there are two lookups, the guard's and the backend's. */
  ghost predicate MayDelete(db: Db, key: Key, db': Db, err: Option<Error>) {
    match key
    case ById(id) =>
      if id == 1 then db' == db && err == Some(RootDeletion)
      else db' == db.(table := db.table - {id}) && err == if id in db.table then None else Some(NotFound)
    case ByName(name) =>
      exists guard, found ::
        && MayFind(db, key, guard) && MayFind(db, key, found)
        && if guard.None? || found.None? then db' == db && err == Some(NotExist)
           else if guard.value.id == 1 then db' == db && err == Some(RootDeletion)
           else
             var id := found.value.id;
             db' == db.(table := db.table - {id}) && err == if id in db.table then None else Some(NotFound)
    case OtherType => db' == db && err == Some(InvalidDataType)
  }

  /** What Get hands out of a found record. */
  function Checked(r: Record): Option<Record> {
    if CleanError(r, CHECKABLE).Some? then None else Some(Filled(r, CHECKABLE))
  }

  class Storage {
    const back: Backend
    var updated: map<nat, int>

    constructor (back: Backend)
      ensures this.back == back && updated == map[]
    {
      this.back := back;
      updated := map[];
    }

    /** Finds and re-checks a record. */
    method Get(key: Key) returns (r: Option<Record>, err: Option<Error>)
      ensures exists found ::
                && MayFind(back.db, key, found)
                && r == (if found.Some? then Checked(found.value) else None)
                && err == (if found.Some? then CleanError(found.value, CHECKABLE) else Some(LookupError(key)))
      ensures r.Some? <==> err.None?
    {
      var found, e := back.GetBy(key);
      if e.Some? {
        return None, e;
      }
      var user := new User(found.value);
      e := user.Clean([]);
      if e.Some? {
        return None, e;
      }
      return Some(user.rec), None;
    }

    /** The whole list, each record re-checked; the first one that does not pass fails the call. */
    method Gets() returns (all: seq<Record>, err: Option<Error>, order: seq<nat>)
      ensures Enumerates(order, back.db.table.Keys)
      ensures err.None? <==> forall id :: id in back.db.table ==> CleanError(back.db.table[id], CHECKABLE).None?
      ensures err.None? ==>
                && |all| == |order|
                && forall i :: 0 <= i < |all| ==> all[i] == Filled(back.db.table[order[i]], CHECKABLE)
    {
      var stored;
      stored, order := back.Gets();
      all := [];
      for i := 0 to |stored|
        invariant |all| == i
        invariant forall k :: 0 <= k < i ==>
                    && CleanError(back.db.table[order[k]], CHECKABLE).None?
                    && all[k] == Filled(back.db.table[order[k]], CHECKABLE)
      {
        assert order[i] in order;
        var user := new User(stored[i]);
        err := user.Clean([]);
        if err.Some? {
          return;
        }
        all := all + [user.rec];
      }
      forall id | id in back.db.table ensures CleanError(back.db.table[id], CHECKABLE).None? {
        var k :| 0 <= k < |order| && order[k] == id;
      }
      err := None;
    }

    method Save(user: User) returns (err: Option<Error>)
      modifies user, back
      ensures var s := StorageSave(old(back.db), old(user.rec));
              && back.db == s.db && err == s.err
              && (err.None? ==> user.rec == s.rec)
    {
      err := user.Clean([]);
      if err.Some? {
        return;
      }
      err := back.Save(user);
    }

    /** `now` is the clock reading a successful update stamps. */
    method Update(user: User, fields: seq<Field>, now: int) returns (err: Option<Error>)
      modifies this, user, back
      ensures back.db == StorageUpdate(old(back.db), old(user.rec), fields)
      ensures err == StorageUpdateError(old(back.db), old(user.rec), fields)
      ensures updated == if err.None? then old(updated)[user.rec.id := now] else old(updated)
    {
      err := user.Clean(fields);
      if err.Some? {
        return;
      }
      err := back.Update(user, fields);
      if err.Some? {
        return;
      }
      updated := updated[user.rec.id := now];
    }

    method Delete(key: Key) returns (err: Option<Error>)
      modifies back
      ensures MayDelete(old(back.db), key, back.db, err)
    {
      match key
      case ByName(name) =>
        var guard, e := back.GetBy(key);
        if e.Some? {
          return e;
        }
        if guard.value.id == 1 {
          return Some(RootDeletion);
        }
        err := back.DeleteByUsername(name);
      case ById(id) =>
        if id == 1 {
          return Some(RootDeletion);
        }
        err := back.DeleteByID(id);
      case OtherType =>
        err := Some(InvalidDataType);
    }

    method LastUpdate(id: nat) returns (t: int)
      ensures t == if id in updated then updated[id] else 0
    {
      t := if id in updated then updated[id] else 0;
    }
  }
}
