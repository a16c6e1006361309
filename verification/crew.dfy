/**
 * A flight crew, built up call by call: at most two pilots, one navigator and
 * one radio operator (a later call replaces an earlier one), any number of
 * flight attendants. Every accepted member is marked unavailable; nothing
 * marks a member available again.
 */
module Crews {
  import opened Wrappers
  import opened Staff

  datatype Crew = Crew(
    crewId: string,
    pilots: seq<Employee>,
    navigator: Option<Employee>,
    radioOperator: Option<Employee>,
    attendants: seq<Employee>)

  /** The crew after a call, and the member as that call left them. */
  datatype Staffed = Staffed(crew: Crew, member: Employee)

  /** A crew as created: no one in it. */
  function EmptyCrew(crewId: string): (c: Crew)
    ensures c.crewId == crewId && |c.pilots| == 0 && |c.attendants| == 0
    ensures c.navigator.None? && c.radioOperator.None?
  {
    Crew(crewId, [], None, None, [])
  }

  /** The member as recorded once a crew has taken them. */
  function Assigned(e: Employee): (r: Employee)
    ensures !r.available
    ensures r.(available := e.available) == e
  {
    e.(available := false)
  }

  /** `add_pilot`: accepted while fewer than two pilots are on board; a third
      call changes neither the crew nor the pilot. */
  function AddPilot(c: Crew, pilot: Employee): (r: Staffed)
    requires pilot.role.PilotRole?
    ensures |c.pilots| < 2 ==> r.crew.pilots == c.pilots + [r.member] && r.member == Assigned(pilot)
    ensures |c.pilots| >= 2 ==> r == Staffed(c, pilot)
    ensures |c.pilots| <= 2 ==> |r.crew.pilots| <= 2
    ensures r.crew.(pilots := c.pilots) == c
  {
    if |c.pilots| < 2 then
      var p := Assigned(pilot);
      Staffed(c.(pilots := c.pilots + [p]), p)
    else Staffed(c, pilot)
  }

  /** `set_navigator`: always accepted, replacing any earlier navigator. */
  function SetNavigator(c: Crew, navigator: Employee): (r: Staffed)
    requires navigator.role.NavigatorRole?
    ensures r.crew.navigator == Some(r.member) && r.member == Assigned(navigator)
    ensures r.crew.(navigator := c.navigator) == c
  {
    var n := Assigned(navigator);
    Staffed(c.(navigator := Some(n)), n)
  }

  /** `set_radio_operator`: always accepted, replacing any earlier one. */
  function SetRadioOperator(c: Crew, operator: Employee): (r: Staffed)
    requires operator.role.RadioOperatorRole?
    ensures r.crew.radioOperator == Some(r.member) && r.member == Assigned(operator)
    ensures r.crew.(radioOperator := c.radioOperator) == c
  {
    var o := Assigned(operator);
    Staffed(c.(radioOperator := Some(o)), o)
  }

  /** `add_flight_attendant`: always accepted, appended after the others. */
  function AddFlightAttendant(c: Crew, attendant: Employee): (r: Staffed)
    requires attendant.role.AttendantRole?
    ensures r.crew.attendants == c.attendants + [r.member] && r.member == Assigned(attendant)
    ensures r.crew.(attendants := c.attendants) == c
  {
    var a := Assigned(attendant);
    Staffed(c.(attendants := c.attendants + [a]), a)
  }

  /** The first commander among `pilots`, if any. */
  function FirstCommander(pilots: seq<Employee>): (r: Option<Employee>)
    ensures r.None? <==> forall i :: 0 <= i < |pilots| ==> !IsCommander(pilots[i])
    ensures r.Some? ==> exists i :: 0 <= i < |pilots| && pilots[i] == r.value && IsCommander(r.value)
                                    && forall j :: 0 <= j < i ==> !IsCommander(pilots[j])
  {
    if |pilots| == 0 then None
    else if IsCommander(pilots[0]) then Some(pilots[0])
    else
      var r := FirstCommander(pilots[1..]);
      assert forall i :: 1 <= i < |pilots| ==> pilots[1..][i - 1] == pilots[i];
      r
  }

  /** `get_commander`: the first pilot with the commander flag. */
  function GetCommander(c: Crew): (r: Option<Employee>)
    ensures r.Some? <==> exists i :: 0 <= i < |c.pilots| && IsCommander(c.pilots[i])
    ensures r.Some? ==> IsCommander(r.value) && r.value in c.pilots
  {
    FirstCommander(c.pilots)
  }

  /** `is_complete`: two pilots, one of them a commander, a navigator, a
      radio operator and at least one flight attendant. */
  function IsComplete(c: Crew): (r: bool)
    ensures r <==>
      && |c.pilots| == 2
      && (IsCommander(c.pilots[0]) || IsCommander(c.pilots[1]))
      && c.navigator.Some?
      && c.radioOperator.Some?
      && |c.attendants| >= 1
  {
    |c.pilots| == 2 && GetCommander(c).Some? && c.navigator.Some? && c.radioOperator.Some? && |c.attendants| >= 1
  }

  /** Every member the crew holds has been marked unavailable. */
  ghost predicate MembersUnavailable(c: Crew) {
    && (forall i :: 0 <= i < |c.pilots| ==> !c.pilots[i].available)
    && (forall i :: 0 <= i < |c.attendants| ==> !c.attendants[i].available)
    && (c.navigator.Some? ==> !c.navigator.value.available)
    && (c.radioOperator.Some? ==> !c.radioOperator.value.available)
  }

  /** One crew-building call, naming an employee of the roster by id. */
  datatype CrewCall =
    | AddPilotCall(id: string)
    | SetNavigatorCall(id: string)
    | SetRadioOperatorCall(id: string)
    | AddFlightAttendantCall(id: string)

  /** The call names an employee of the roster whose role suits it. */
  ghost predicate Fits(call: CrewCall, roster: map<string, Employee>) {
    && call.id in roster
    && match call
       case AddPilotCall(id) => roster[id].role.PilotRole?
       case SetNavigatorCall(id) => roster[id].role.NavigatorRole?
       case SetRadioOperatorCall(id) => roster[id].role.RadioOperatorRole?
       case AddFlightAttendantCall(id) => roster[id].role.AttendantRole?
  }

  ghost predicate AllFit(calls: seq<CrewCall>, roster: map<string, Employee>) {
    forall i :: 0 <= i < |calls| ==> Fits(calls[i], roster)
  }

  /** The roster `after` has the same employees in the same roles. */
  ghost predicate SameStaff(before: map<string, Employee>, after: map<string, Employee>) {
    && before.Keys == after.Keys
    && forall id :: id in before ==> after[id].role == before[id].role
  }

  /** An employee unavailable in `before` is still unavailable in `after`. */
  ghost predicate NoneFreed(before: map<string, Employee>, after: map<string, Employee>)
    requires before.Keys <= after.Keys
  {
    forall id :: id in before && !before[id].available ==> !after[id].available
  }

  /** Performs one call on the crew and records the member's new state in
      the roster, the way the shared Python object would change. */
  function Apply(c: Crew, roster: map<string, Employee>, call: CrewCall): (r: (Crew, map<string, Employee>))
    requires Fits(call, roster)
    ensures SameStaff(roster, r.1) && NoneFreed(roster, r.1)
    ensures forall id :: id in roster && id != call.id ==> r.1[id] == roster[id]
    ensures MembersUnavailable(c) ==> MembersUnavailable(r.0)
    ensures |c.pilots| <= 2 ==> |r.0.pilots| <= 2
  {
    var e := roster[call.id];
    var s := match call
      case AddPilotCall(_) => AddPilot(c, e)
      case SetNavigatorCall(_) => SetNavigator(c, e)
      case SetRadioOperatorCall(_) => SetRadioOperator(c, e)
      case AddFlightAttendantCall(_) => AddFlightAttendant(c, e);
    (s.crew, roster[call.id := s.member])
  }

  /** A complete crew stays complete under any further call: a third pilot
      is refused, and the other calls only overwrite or add members. */
  lemma ApplyKeepsComplete(c: Crew, roster: map<string, Employee>, call: CrewCall)
    requires IsComplete(c) && Fits(call, roster)
    ensures IsComplete(Apply(c, roster, call).0)
    ensures Apply(c, roster, call).0.pilots == c.pilots
  {
  }

  /** Performs the calls in order. */
  function Run(c: Crew, roster: map<string, Employee>, calls: seq<CrewCall>): (r: (Crew, map<string, Employee>))
    requires AllFit(calls, roster)
    ensures SameStaff(roster, r.1)
    decreases |calls|
  {
    if |calls| == 0 then (c, roster)
    else
      var next := Apply(c, roster, calls[0]);
      assert AllFit(calls[1..], next.1) by {
        forall i | 0 <= i < |calls[1..]|
          ensures Fits(calls[1..][i], next.1)
        {
          assert Fits(calls[i + 1], roster);
        }
      }
      Run(next.0, next.1, calls[1..])
  }

  /** Over any sequence of calls: never more than two pilots, every member
      taken is marked unavailable, and no one is ever made available again. */
  lemma {:induction false} RunKeepsInvariants(c: Crew, roster: map<string, Employee>, calls: seq<CrewCall>)
    requires AllFit(calls, roster)
    requires |c.pilots| <= 2
    requires MembersUnavailable(c)
    ensures |Run(c, roster, calls).0.pilots| <= 2
    ensures MembersUnavailable(Run(c, roster, calls).0)
    ensures NoneFreed(roster, Run(c, roster, calls).1)
    decreases |calls|
  {
    if |calls| > 0 {
      var next := Apply(c, roster, calls[0]);
      assert AllFit(calls[1..], next.1) by {
        forall i | 0 <= i < |calls[1..]|
          ensures Fits(calls[1..][i], next.1)
        {
          assert Fits(calls[i + 1], roster);
        }
      }
      RunKeepsInvariants(next.0, next.1, calls[1..]);
    }
  }

  /** A crew built from nothing by any calls has at most two pilots and only
      unavailable members. */
  lemma BuiltCrewInvariants(crewId: string, roster: map<string, Employee>, calls: seq<CrewCall>)
    requires AllFit(calls, roster)
    ensures |Run(EmptyCrew(crewId), roster, calls).0.pilots| <= 2
    ensures MembersUnavailable(Run(EmptyCrew(crewId), roster, calls).0)
  {
    RunKeepsInvariants(EmptyCrew(crewId), roster, calls);
  }

  /** Each missing part on its own makes a crew incomplete, and the full
      line-up is complete. */
  lemma CompletenessCases(c: Crew, commander: Employee, copilot: Employee, n: Employee, o: Employee, a: Employee)
    requires IsCommander(commander) && copilot.role.PilotRole? && !IsCommander(copilot)
    requires n.role.NavigatorRole? && o.role.RadioOperatorRole? && a.role.AttendantRole?
    ensures IsComplete(Crew(c.crewId, [commander, copilot], Some(n), Some(o), [a]))
    ensures !IsComplete(Crew(c.crewId, [commander], Some(n), Some(o), [a]))
    ensures !IsComplete(Crew(c.crewId, [copilot, copilot], Some(n), Some(o), [a]))
    ensures !IsComplete(Crew(c.crewId, [commander, copilot], None, Some(o), [a]))
    ensures !IsComplete(Crew(c.crewId, [commander, copilot], Some(n), None, [a]))
    ensures !IsComplete(Crew(c.crewId, [commander, copilot], Some(n), Some(o), []))
  {
  }

  /** Building the crew of the demonstration call by call: commander,
      co-pilot, navigator, radio operator, one attendant. */
  function BuildCrew(crewId: string, commander: Employee, copilot: Employee, n: Employee, o: Employee, a: Employee): Crew
    requires commander.role.PilotRole? && copilot.role.PilotRole?
    requires n.role.NavigatorRole? && o.role.RadioOperatorRole? && a.role.AttendantRole?
  {
    var c1 := AddPilot(EmptyCrew(crewId), commander).crew;
    var c2 := AddPilot(c1, copilot).crew;
    var c3 := SetNavigator(c2, n).crew;
    var c4 := SetRadioOperator(c3, o).crew;
    AddFlightAttendant(c4, a).crew
  }

  /** The demonstration's line-up gives a complete crew whose commander is
      the first pilot added. */
  lemma BuiltCrewIsComplete(crewId: string, commander: Employee, copilot: Employee, n: Employee, o: Employee, a: Employee)
    requires IsCommander(commander) && copilot.role.PilotRole?
    requires n.role.NavigatorRole? && o.role.RadioOperatorRole? && a.role.AttendantRole?
    ensures IsComplete(BuildCrew(crewId, commander, copilot, n, o, a))
    ensures GetCommander(BuildCrew(crewId, commander, copilot, n, o, a)) == Some(Assigned(commander))
  {
  }

  /** A third pilot is turned away and stays available. */
  lemma ThirdPilotRefused(c: Crew, pilot: Employee)
    requires |c.pilots| == 2 && pilot.role.PilotRole? && pilot.available
    ensures AddPilot(c, pilot).crew == c
    ensures AddPilot(c, pilot).member.available
  {
  }
}
