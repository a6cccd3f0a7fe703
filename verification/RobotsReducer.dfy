/** The front end's robots reducer: a pure function of state and action. */
module RobotsReducer {
  import opened Common

  /** The robot object of the API. */
  datatype Instance = Instance(id: int, hostname: string, temperature: string, lmotorSpeed: int, rmotorSpeed: int)

  /** The state shown in a row. `spread` is what a status update spreads into it: inside the callback the
      name `state` is the reducer's own state, so the whole of it is copied in under the three fields. */
  datatype RowState = RowState(id: int, hostname: string, temperature: string, spread: Option<RobotsState>)

  datatype Row = Row(instance: Instance, state: RowState)

  /** A query object, as text by key. */
  type Query = map<string, string>

  datatype RobotsState = RobotsState(initialized: bool, fetching: bool, updating: bool, hideEmpty: bool,
                                     count: int, current: seq<Row>, gettingQuery: Query)

  datatype Action =
    | GetRobots(query: Query)
    | GetRobotsSuccess(array_: seq<Instance>, count: int, query: Query)
    | GetRobotsFailed
    | UpdateRobot
    | UpdateRobotSuccess(robot: Option<Instance>, robotID: int)
    | UpdateRobotFailed(instance: Instance)
    | UpdateRobotState(id: int, hostname: string, temperature: string)
    | SetLeftMotorSpeed
    | SetLeftMotorSpeedSuccess(instance: Instance)
    | SetLeftMotorSpeedFailed
    | Other

  const DEFAULT_STATE := RobotsState(false, false, false, false, 0, [], map["page" := "1"])

  function FreshRow(r: Instance): Row { Row(r, RowState(r.id, r.hostname, r.temperature, None)) }

  function FreshRows(rs: seq<Instance>): (rows: seq<Row>)
    ensures |rows| == |rs|
    ensures forall i :: 0 <= i < |rs| ==> rows[i] == FreshRow(rs[i])
  {
    seq(|rs|, i requires 0 <= i < |rs| => FreshRow(rs[i]))
  }

  function MapRows(rows: seq<Row>, f: Row -> Row): (rows': seq<Row>)
    ensures |rows'| == |rows|
    ensures forall i :: 0 <= i < |rows| ==> rows'[i] == f(rows[i])
  {
    seq(|rows|, i requires 0 <= i < |rows| => f(rows[i]))
  }

  function Without(rows: seq<Row>, id: int): seq<Row> {
    if rows == [] then []
    else (if rows[0].instance.id != id then [rows[0]] else []) + Without(rows[1..], id)
  }

  /** UPDATE_ROBOT_SUCCESS on one row. */
  function Refreshed(r: Instance, row: Row): Row {
    if row.instance.id == r.id then row.(instance := r, state := FreshRow(r).state) else row
  }

  /** UPDATE_ROBOT_FAILED and SET_LEFT_MOTOR_SPEED_SUCCESS on one row. */
  function WithInstance(r: Instance, row: Row): Row {
    if row.instance.id == r.id then row.(instance := r) else row
  }

  /** UPDATE_ROBOT_STATE on one row. */
  function WithStatus(s: RobotsState, id: int, hostname: string, temperature: string, row: Row): Row {
    if row.instance.id == id then row.(state := RowState(id, hostname, temperature, Some(s))) else row
  }

  function Reduce(s: RobotsState, a: Action): RobotsState {
    match a
    case GetRobots(query) =>
      s.(initialized := false, fetching := true, hideEmpty := true, count := 0, current := [], gettingQuery := query)
    case GetRobotsSuccess(rs, count, query) =>
      s.(initialized := true, fetching := false, count := count, current := FreshRows(rs), gettingQuery := query)
    case GetRobotsFailed => s.(initialized := true, fetching := false)
    case UpdateRobot => s.(updating := true)
    case UpdateRobotSuccess(None, robotID) => s.(updating := false, current := Without(s.current, robotID))
    case UpdateRobotSuccess(Some(r), _) =>
      s.(updating := false, current := MapRows(s.current, row => Refreshed(r, row)))
    case UpdateRobotFailed(r) =>
      s.(updating := false, current := MapRows(s.current, row => WithInstance(r, row)))
    case UpdateRobotState(id, hostname, temperature) =>
      s.(current := MapRows(s.current, row => WithStatus(s, id, hostname, temperature, row)))
    case SetLeftMotorSpeed => s.(updating := true)
    case SetLeftMotorSpeedSuccess(r) =>
      s.(updating := false, current := MapRows(s.current, row => WithInstance(r, row)))
    case SetLeftMotorSpeedFailed => s.(updating := true)
    case Other => s
  }

  function Dispatch(s: RobotsState, actions: seq<Action>): RobotsState {
    if actions == [] then s else Reduce(Dispatch(s, actions[..|actions| - 1]), actions[|actions| - 1])
  }

  // ---- what every list of actions keeps ----

  ghost predicate Consistent(s: RobotsState) {
    && (forall i :: 0 <= i < |s.current| ==> s.current[i].instance.id == s.current[i].state.id)
    && !(s.fetching && s.initialized)
  }

  ghost predicate CountMatches(a: Action) { a.GetRobotsSuccess? ==> a.count == |a.array_| }

  lemma {:induction false} WithoutIsFilter(rows: seq<Row>, id: int)
    ensures forall row :: row in Without(rows, id) <==> row in rows && row.instance.id != id
    ensures |Without(rows, id)| <= |rows|
  {
    if rows != [] {
      WithoutIsFilter(rows[1..], id);
      assert rows == [rows[0]] + rows[1..];
    }
  }

  lemma ReduceKeepsConsistent(s: RobotsState, a: Action)
    requires Consistent(s)
    ensures Consistent(Reduce(s, a))
    ensures CountMatches(a) && |s.current| <= s.count ==> |Reduce(s, a).current| <= Reduce(s, a).count
  {
    if a.UpdateRobotSuccess? && a.robot.None? {
      WithoutIsFilter(s.current, a.robotID);
      var rows := Without(s.current, a.robotID);
      forall i | 0 <= i < |rows| ensures rows[i].instance.id == rows[i].state.id {
        assert rows[i] in s.current;
      }
    }
  }

  /**
   From the default state, over any list of actions, every row shows the state of its own robot and the
   list is never both being fetched and initialised; and there are never more rows than `count` says as
   long as each fetched count is the length of its list.
   */
  lemma {:induction false} ActionsKeepConsistent(actions: seq<Action>)
    ensures Consistent(Dispatch(DEFAULT_STATE, actions))
    ensures (forall i :: 0 <= i < |actions| ==> CountMatches(actions[i])) ==>
              |Dispatch(DEFAULT_STATE, actions).current| <= Dispatch(DEFAULT_STATE, actions).count
  {
    if actions != [] {
      var k := |actions| - 1;
      ActionsKeepConsistent(actions[..k]);
      ReduceKeepsConsistent(Dispatch(DEFAULT_STATE, actions[..k]), actions[k]);
    }
  }

  // ---- what each action does to the rows ----

  /** The three fields a row shows. */
  datatype Shown = Shown(id: int, hostname: string, temperature: string)

  function ShownIn(r: Row): Shown { Shown(r.state.id, r.state.hostname, r.state.temperature) }

  /** A fetch empties the list, and its success shows one row per robot, in order, with that robot's three fields. */
  lemma FetchShowsRobots(s: RobotsState, rs: seq<Instance>, count: int, query: Query)
    ensures Reduce(s, GetRobots(query)).current == []
    ensures var rows := Reduce(s, GetRobotsSuccess(rs, count, query)).current;
            && |rows| == |rs|
            && forall i :: 0 <= i < |rs| ==>
                 && rows[i].instance == rs[i] && rows[i].state.spread == None
                 && ShownIn(rows[i]) == Shown(rs[i].id, rs[i].hostname, rs[i].temperature)
  {
  }

  /** How many of the first k rows are about other robots. */
  function OthersBefore(rows: seq<Row>, id: int, k: nat): nat
    requires k <= |rows|
  {
    if k == 0 then 0 else OthersBefore(rows, id, k - 1) + if rows[k - 1].instance.id != id then 1 else 0
  }

  lemma {:induction false} OthersFromFront(rows: seq<Row>, id: int, k: nat)
    requires 0 < k <= |rows|
    ensures OthersBefore(rows, id, k) ==
            OthersBefore(rows[1..], id, k - 1) + if rows[0].instance.id != id then 1 else 0
  {
    if k > 1 {
      OthersFromFront(rows, id, k - 1);
    }
  }

  lemma {:induction false} WithoutInOrder(rows: seq<Row>, id: int, i: nat)
    requires i <= |rows|
    ensures |Without(rows, id)| == OthersBefore(rows, id, |rows|)
    ensures OthersBefore(rows, id, i) <= |Without(rows, id)|
    ensures i < |rows| && rows[i].instance.id != id ==>
              var k := OthersBefore(rows, id, i);
              k < |Without(rows, id)| && Without(rows, id)[k] == rows[i]
  {
    if rows != [] {
      OthersFromFront(rows, id, |rows|);
      WithoutInOrder(rows[1..], id, if i > 0 then i - 1 else 0);
      if i > 0 {
        OthersFromFront(rows, id, i);
      }
    }
  }

  /** A finished update that brings no robot back leaves exactly the rows of the other robots, in order. */
  lemma {:induction false} RemovalKeepsOthers(s: RobotsState, id: int)
    ensures var rows := Reduce(s, UpdateRobotSuccess(None, id)).current;
            && |rows| == OthersBefore(s.current, id, |s.current|)
            && forall i {:trigger s.current[i]} :: 0 <= i < |s.current| && s.current[i].instance.id != id ==>
                 var k := OthersBefore(s.current, id, i);
                 k < |rows| && rows[k] == s.current[i]
  {
    WithoutInOrder(s.current, id, 0);
    forall i | 0 <= i < |s.current| && s.current[i].instance.id != id
      ensures var rows, k := Reduce(s, UpdateRobotSuccess(None, id)).current, OthersBefore(s.current, id, i);
              k < |rows| && rows[k] == s.current[i]
    {
      WithoutInOrder(s.current, id, i);
    }
  }

  /** What becomes of a row under the actions that change rows one by one. */
  lemma RowAfter(s: RobotsState, a: Action, i: nat)
    requires i < |s.current|
    requires !a.GetRobots? && !a.GetRobotsSuccess? && !(a.UpdateRobotSuccess? && a.robot.None?)
    ensures var row, rows := s.current[i], Reduce(s, a).current;
            && |rows| == |s.current|
            && match a
               case UpdateRobotSuccess(Some(r), _) =>
                 if row.instance.id == r.id then
                   && rows[i].instance == r && rows[i].state.spread == None
                   && ShownIn(rows[i]) == Shown(r.id, r.hostname, r.temperature)
                 else rows[i] == row
               case UpdateRobotFailed(r) => rows[i] == if row.instance.id == r.id then Row(r, row.state) else row
               case SetLeftMotorSpeedSuccess(r) => rows[i] == if row.instance.id == r.id then Row(r, row.state) else row
               case UpdateRobotState(id, host, temp) =>
                 rows[i] == if row.instance.id == id then Row(row.instance, RowState(id, host, temp, Some(s))) else row
               case _ => rows[i] == row
  {
  }

  // ---- what decides the other fields ----

  /** The value the last action that concerns a field gives it. */
  function Decided<T>(actions: seq<Action>, sets: Action -> Option<T>, initially: T): T {
    if actions == [] then initially
    else
      sets(actions[|actions| - 1]).GetOr(Decided(actions[..|actions| - 1], sets, initially))
  }

  function SetsFetching(a: Action): Option<bool> {
    if a.GetRobots? then Some(true) else if a.GetRobotsSuccess? || a.GetRobotsFailed? then Some(false) else None
  }

  function SetsInitialized(a: Action): Option<bool> {
    if a.GetRobots? then Some(false) else if a.GetRobotsSuccess? || a.GetRobotsFailed? then Some(true) else None
  }

  /** A failed motor speed sets the flag rather than clearing it. */
  function SetsUpdating(a: Action): Option<bool> {
    if a.UpdateRobot? || a.SetLeftMotorSpeed? || a.SetLeftMotorSpeedFailed? then Some(true)
    else if a.UpdateRobotSuccess? || a.UpdateRobotFailed? || a.SetLeftMotorSpeedSuccess? then Some(false)
    else None
  }

  function SetsHideEmpty(a: Action): Option<bool> { if a.GetRobots? then Some(true) else None }

  function SetsCount(a: Action): Option<int> {
    if a.GetRobots? then Some(0) else if a.GetRobotsSuccess? then Some(a.count) else None
  }

  function SetsQuery(a: Action): Option<Query> {
    if a.GetRobots? || a.GetRobotsSuccess? then Some(a.query) else None
  }

  lemma ActionDecides(s: RobotsState, a: Action)
    ensures var s' := Reduce(s, a);
            && s'.fetching == SetsFetching(a).GetOr(s.fetching)
            && s'.initialized == SetsInitialized(a).GetOr(s.initialized)
            && s'.updating == SetsUpdating(a).GetOr(s.updating)
  {
  }

  lemma ActionDecidesList(s: RobotsState, a: Action)
    ensures var s' := Reduce(s, a);
            && s'.hideEmpty == SetsHideEmpty(a).GetOr(s.hideEmpty)
            && s'.count == SetsCount(a).GetOr(s.count)
            && s'.gettingQuery == SetsQuery(a).GetOr(s.gettingQuery)
  {
  }

  /** Over any list of actions each field but the rows is what the last action that concerns it made it. */
  lemma {:induction false} LastActionDecides(s: RobotsState, actions: seq<Action>)
    ensures var s' := Dispatch(s, actions);
            && s'.fetching == Decided(actions, SetsFetching, s.fetching)
            && s'.initialized == Decided(actions, SetsInitialized, s.initialized)
            && s'.updating == Decided(actions, SetsUpdating, s.updating)
            && s'.hideEmpty == Decided(actions, SetsHideEmpty, s.hideEmpty)
            && s'.count == Decided(actions, SetsCount, s.count)
            && s'.gettingQuery == Decided(actions, SetsQuery, s.gettingQuery)
  {
    if actions != [] {
      var k := |actions| - 1;
      LastActionDecides(s, actions[..k]);
      ActionDecides(Dispatch(s, actions[..k]), actions[k]);
      ActionDecidesList(Dispatch(s, actions[..k]), actions[k]);
    }
  }

  // ---- status updates ----

  ghost predicate AreStatusUpdates(us: seq<Action>) {
    forall i :: 0 <= i < |us| ==> us[i].UpdateRobotState?
  }

  function Latest(us: seq<Action>, id: int): (u: Option<Action>)
    ensures u.Some? ==> u.value.UpdateRobotState?
  {
    if us == [] then None
    else if us[|us| - 1].UpdateRobotState? && us[|us| - 1].id == id then Some(us[|us| - 1])
    else Latest(us[..|us| - 1], id)
  }

  /** After any list of status updates each row shows the last one for its robot, and is otherwise as before. */
  lemma {:induction false} LastUpdateWins(s: RobotsState, us: seq<Action>, i: nat)
    requires AreStatusUpdates(us) && i < |s.current|
    ensures var s' := Dispatch(s, us);
            && s' == s.(current := s'.current) && |s'.current| == |s.current|
            && s'.current[i].instance == s.current[i].instance
            && match Latest(us, s.current[i].instance.id)
               case None => s'.current[i] == s.current[i]
               case Some(u) => ShownIn(s'.current[i]) == Shown(u.id, u.hostname, u.temperature)
  {
    if us != [] {
      LastUpdateWins(s, us[..|us| - 1], i);
    }
  }

  /** Does this action leave the row of that robot where it is, and what it shows to status updates alone? Fetching the
      list does not, nor does a finished update that removes a robot or refreshes this one. */
  predicate KeepsRow(a: Action, id: int) {
    && !a.GetRobots? && !a.GetRobotsSuccess?
    && (a.UpdateRobotSuccess? ==> a.robot.Some? && a.robot.value.id != id)
  }

  lemma KeepsRowOnce(s: RobotsState, a: Action, i: nat)
    requires i < |s.current| && KeepsRow(a, s.current[i].instance.id)
    ensures var s', id := Reduce(s, a), s.current[i].instance.id;
            && |s'.current| == |s.current| && s'.current[i].instance.id == id
            && if a.UpdateRobotState? && a.id == id
               then ShownIn(s'.current[i]) == Shown(a.id, a.hostname, a.temperature)
               else s'.current[i].state == s.current[i].state
  {
  }

  /** Among any such actions, interleaved in any way, a row shows the last status update for its robot. */
  lemma {:induction false} LastUpdateWinsAmongOthers(s: RobotsState, actions: seq<Action>, i: nat)
    requires i < |s.current|
    requires forall k :: 0 <= k < |actions| ==> KeepsRow(actions[k], s.current[i].instance.id)
    ensures var s', id := Dispatch(s, actions), s.current[i].instance.id;
            && |s'.current| == |s.current|
            && s'.current[i].instance.id == id
            && match Latest(actions, id)
               case None => s'.current[i].state == s.current[i].state
               case Some(u) => ShownIn(s'.current[i]) == Shown(u.id, u.hostname, u.temperature)
  {
    if actions != [] {
      var k := |actions| - 1;
      LastUpdateWinsAmongOthers(s, actions[..k], i);
      KeepsRowOnce(Dispatch(s, actions[..k]), actions[k], i);
    }
  }

  /** The status updates in a list of actions, in order. */
  function StatusPart(actions: seq<Action>): seq<Action> {
    if actions == [] then []
    else
      var a := actions[|actions| - 1];
      StatusPart(actions[..|actions| - 1]) + if a.UpdateRobotState? then [a] else []
  }

  lemma {:induction false} LatestOfStatusPart(actions: seq<Action>, id: int)
    ensures Latest(StatusPart(actions), id) == Latest(actions, id)
  {
    if actions != [] {
      var k := |actions| - 1;
      LatestOfStatusPart(actions[..k], id);
      var before := StatusPart(actions[..k]);
      if actions[k].UpdateRobotState? {
        assert StatusPart(actions) == before + [actions[k]];
        assert (before + [actions[k]])[..|before|] == before;
      } else {
        assert StatusPart(actions) == before;
      }
    }
  }

  function Shows(s: RobotsState): seq<Shown> {
    seq(|s.current|, i requires 0 <= i < |s.current| => ShownIn(s.current[i]))
  }

  ghost predicate HasRow(s: RobotsState, id: int) {
    exists i :: 0 <= i < |s.current| && s.current[i].instance.id == id
  }

  /** Updates of different robots commute in everything the rows show. */
  lemma UpdatesCommuteOnScreen(s: RobotsState, u: Action, v: Action)
    requires u.UpdateRobotState? && v.UpdateRobotState? && u.id != v.id
    ensures Shows(Reduce(Reduce(s, u), v)) == Shows(Reduce(Reduce(s, v), u))
  {
    var uv, vu := Reduce(Reduce(s, u), v), Reduce(Reduce(s, v), u);
    forall i | 0 <= i < |s.current| ensures ShownIn(uv.current[i]) == ShownIn(vu.current[i]) {
    }
  }

  /** An update of a robot without a row changes nothing; of one with a row, always. */
  lemma UpdateChangesIff(s: RobotsState, u: Action)
    requires u.UpdateRobotState?
    ensures Reduce(s, u) == s <==> !HasRow(s, u.id)
  {
    if HasRow(s, u.id) {
      var i :| 0 <= i < |s.current| && s.current[i].instance.id == u.id;
      assert Reduce(s, u).current[i].state.spread == Some(s) != s.current[i].state.spread;
    } else {
      assert Reduce(s, u).current == s.current;
    }
  }

  /** As whole states they commute exactly when not both robots have a row: each row keeps the state that
      was current when it was updated. */
  lemma UpdatesCommuteIff(s: RobotsState, u: Action, v: Action)
    requires u.UpdateRobotState? && v.UpdateRobotState? && u.id != v.id
    ensures Reduce(Reduce(s, u), v) == Reduce(Reduce(s, v), u) <==> !(HasRow(s, u.id) && HasRow(s, v.id))
  {
    UpdateChangesIff(s, u);
    UpdateChangesIff(s, v);
    var su, sv := Reduce(s, u), Reduce(s, v);
    RowsStay(s, u, v.id);
    RowsStay(s, v, u.id);
    UpdateChangesIff(su, v);
    UpdateChangesIff(sv, u);
    if HasRow(s, u.id) && HasRow(s, v.id) {
      var j :| 0 <= j < |s.current| && s.current[j].instance.id == v.id;
      assert Reduce(su, v).current[j].state.spread == Some(su);
      assert Reduce(sv, u).current[j].state.spread == Some(s);
    }
  }

  lemma RowsStay(s: RobotsState, u: Action, id: int)
    requires u.UpdateRobotState?
    ensures HasRow(Reduce(s, u), id) <==> HasRow(s, id)
  {
    var s' := Reduce(s, u);
    assert forall i :: 0 <= i < |s.current| ==> s'.current[i].instance == s.current[i].instance;
  }

  /** n whole states lie one inside another below this row. */
  ghost predicate NestedIn(r: RowState, i: nat, n: nat)
    decreases n
  {
    n == 0 ||
    (r.spread.Some? && i < |r.spread.value.current| && NestedIn(r.spread.value.current[i].state, i, n - 1))
  }

  /** Nothing bounds that nesting: every status update of a row adds a level. */
  lemma {:induction false} EveryUpdateNests(s: RobotsState, us: seq<Action>, i: nat)
    requires AreStatusUpdates(us) && i < |s.current|
    requires forall k :: 0 <= k < |us| ==> us[k].id == s.current[i].instance.id
    ensures |Dispatch(s, us).current| == |s.current|
    ensures Dispatch(s, us).current[i].instance == s.current[i].instance
    ensures NestedIn(Dispatch(s, us).current[i].state, i, |us|)
  {
    if us != [] {
      EveryUpdateNests(s, us[..|us| - 1], i);
    }
  }
}
