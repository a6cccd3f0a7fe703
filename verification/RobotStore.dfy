/**
 The robot store over its storm backend. Assumed of storm: Save is an upsert keyed by a nonzero ID,
 All lists every record once in some order, DeleteStruct removes by ID and reports a missing one.
 */
module RobotStore {
  import opened Common

  type U64 = x: int | 0 <= x < 0x1_0000_0000_0000_0000

  datatype RobotState = RobotState(id: U64, hostname: string, temperature: string,
                                   lmotorSpeed: nat, rmotorSpeed: nat, lmotorState: nat, rmotorState: nat)

  datatype Error = NotExist | RootDeletion | ZeroId

  type Table = map<U64, RobotState>

  predicate WellKeyed(table: Table) {
    forall id :: id in table ==> id != 0 && table[id].id == id
  }

  // ---- what a sequence of calls leaves ----

  datatype Call = Put(r: RobotState) | Remove(id: U64)

  /** The table after one call: a save or update under ID 0 and the removal of robot 1 are refused. */
  function After(table: Table, c: Call): Table {
    match c
    case Put(r) => if r.id == 0 then table else table[r.id := r]
    case Remove(id) => if id == 1 then table else table - {id}
  }

  function AfterAll(table: Table, calls: seq<Call>): Table {
    if calls == [] then table else After(AfterAll(table, calls[..|calls| - 1]), calls[|calls| - 1])
  }

  /** The last call that settles what is stored for a robot. */
  function LastCall(calls: seq<Call>, id: U64): Option<Call> {
    if calls == [] then None
    else
      var c := calls[|calls| - 1];
      if c == Remove(id) && id != 1 then Some(c)
      else if c.Put? && c.r.id == id && id != 0 then Some(c)
      else LastCall(calls[..|calls| - 1], id)
  }

  /** Over any sequence of saves, updates and deletions the last one that concerns a robot decides what is stored
      for it; so robot 1, once stored, stays. */
  lemma {:induction false} LastCallDecides(table: Table, calls: seq<Call>, id: U64)
    requires WellKeyed(table)
    ensures WellKeyed(AfterAll(table, calls))
    ensures var t := AfterAll(table, calls);
            match LastCall(calls, id)
            case None => (id in t <==> id in table) && (id in t ==> t[id] == table[id])
            case Some(Put(r)) => id in t && t[id] == r
            case Some(Remove(_)) => id !in t
    ensures 1 in table ==> 1 in AfterAll(table, calls)
  {
    if calls != [] {
      LastCallDecides(table, calls[..|calls| - 1], id);
    }
  }

  class Storage {
    var table: Table
    var updated: map<U64, int>

    constructor ()
      ensures table == map[] && updated == map[]
    {
      table, updated := map[], map[];
    }

    /** Robots are not re-checked: the fields Clean is given by default are none it checks. */
    method Get(id: U64) returns (r: Option<RobotState>)
      ensures r == if id in table then Some(table[id]) else None
    {
      r := if id in table then Some(table[id]) else None;
    }

    /** Every record once, in an arbitrary order. */
    method Gets() returns (all: seq<RobotState>)
      requires WellKeyed(table)
      ensures forall r :: r in all <==> r.id in table && table[r.id] == r
      ensures forall i, j :: 0 <= i < j < |all| ==> all[i].id != all[j].id
    {
      all := [];
      var left := table.Keys;
      while left != {}
        invariant left <= table.Keys
        invariant forall r :: r in all <==> r.id in table.Keys - left && table[r.id] == r
        invariant forall i, j :: 0 <= i < j < |all| ==> all[i].id != all[j].id
        decreases left
      {
        var id :| id in left;
        forall i | 0 <= i < |all| ensures all[i].id != id {
          assert all[i] in all;
        }
        all := all + [table[id]];
        left := left - {id};
      }
    }

    method Save(r: RobotState) returns (err: Option<Error>)
      modifies this`table
      ensures err == if r.id == 0 then Some(ZeroId) else None
      ensures table == After(old(table), Put(r))
      ensures old(WellKeyed(table)) ==> WellKeyed(table)
    {
      if r.id == 0 {
        return Some(ZeroId);
      }
      table := table[r.id := r];
      err := None;
    }

    /** The whole-record update; `now` is the clock reading it stamps. */
    method Update(r: RobotState, now: int) returns (err: Option<Error>)
      modifies this
      ensures err == if r.id == 0 then Some(ZeroId) else None
      ensures table == After(old(table), Put(r))
      ensures old(WellKeyed(table)) ==> WellKeyed(table)
      ensures updated == if r.id == 0 then old(updated) else old(updated)[r.id := now]
    {
      err := Save(r);
      if err.Some? {
        return;
      }
      updated := updated[r.id := now];
    }

    method Delete(id: U64) returns (err: Option<Error>)
      modifies this`table
      ensures err == if id == 1 then Some(RootDeletion) else if id !in old(table) then Some(NotExist) else None
      ensures table == After(old(table), Remove(id))
      ensures old(WellKeyed(table)) ==> WellKeyed(table)
    {
      if id == 1 {
        return Some(RootDeletion);
      }
      if id !in table {
        return Some(NotExist);
      }
      table := table - {id};
      err := None;
    }
  }

  function DeviceRecord(deviceId: U64, host: string): RobotState {
    RobotState(deviceId, host, "0.0", 50, 30, 1, 1)
  }

  ghost predicate NotAmong(list: seq<RobotState>, id: U64) {
    forall r :: r in list ==> r.id != id
  }

  lemma NotAmongSnoc(list: seq<RobotState>, i: nat)
    requires i < |list|
    ensures forall id: U64 :: NotAmong(list[..i + 1], id) <==> NotAmong(list[..i], id) && list[i].id != id
  {
    assert list[..i + 1] == list[..i] + [list[i]];
  }

  /**
   Resets the table at start-up: whatever it held, what remains is the device's own record, plus the
   old record 1, which the delete guard refuses to remove, when that is not the device. With device
   id 0 (an id that does not parse) the final save is refused and only the old record 1 remains.
   */
  method InitRobots(store: Storage, deviceId: U64, host: string)
    requires WellKeyed(store.table)
    modifies store`table
    ensures store.table.Keys == (old(store.table).Keys * {1}) + (if deviceId == 0 then {} else {deviceId})
    ensures deviceId != 0 ==>
              var r := store.table[deviceId];
              && r.id == deviceId && r.hostname == host && r.temperature == "0.0"
              && r.lmotorSpeed == 50 && r.rmotorSpeed == 30 && r.lmotorState == 1 && r.rmotorState == 1
    ensures 1 in old(store.table) && deviceId != 1 ==> store.table[1] == old(store.table)[1]
    ensures WellKeyed(store.table)
  {
    var list := store.Gets();
    for i := 0 to |list|
      invariant forall id :: id in store.table <==>
                  id in old(store.table) && (id == 1 || NotAmong(list[..i], id))
      invariant forall id :: id in store.table ==> store.table[id] == old(store.table)[id]
    {
      var err := store.Delete(list[i].id);
      NotAmongSnoc(list, i);
    }
    forall id | id in store.table ensures id == 1 {
      assert old(store.table)[id] in list && list[..|list|] == list;
    }
    var err := store.Save(DeviceRecord(deviceId, host));
  }
}
