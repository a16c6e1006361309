/**
 * The administrator, who creates flights and crews, assigns crews through
 * the flight's own check, and can overwrite a flight's status with a
 * cancellation of their own. That overwrite bypasses the flight's transitions
 * and is written in lower case, so it does not stop a later execution.
 * The module ends with the flight's whole life as a sequence of events.
 */
module Administration {
  import opened Wrappers
  import opened Staff
  import opened Airports
  import opened Crews
  import opened Flights

  datatype Administrator = Administrator(name: string, adminId: string, flights: seq<Flight>, crews: seq<Crew>)

  /** `create_flight`: a new flight, also appended to the administrator's list. */
  function CreateFlight(admin: Administrator, number: string, departure: Airport, destination: Airport, aircraft: Aircraft): (r: (Administrator, Flight))
    ensures r.1 == NewFlight(number, departure, destination, aircraft)
    ensures r.0.flights == admin.flights + [r.1]
    ensures r.0.(flights := admin.flights) == admin
  {
    var f := NewFlight(number, departure, destination, aircraft);
    (admin.(flights := admin.flights + [f]), f)
  }

  /** `form_crew`: a new empty crew, also appended to the administrator's list. */
  function FormCrew(admin: Administrator, crewId: string): (r: (Administrator, Crew))
    ensures r.1 == EmptyCrew(crewId) && !IsComplete(r.1)
    ensures r.0.crews == admin.crews + [r.1]
    ensures r.0.(crews := admin.crews) == admin
  {
    var c := EmptyCrew(crewId);
    (admin.(crews := admin.crews + [c]), c)
  }

  /** `assign_crew_to_flight`: the flight's own completeness gate decides. */
  function AssignCrewToFlight(c: Crew, f: Flight): (r: Flight)
    ensures IsComplete(c) ==> r == f.(crew := Some(c))
    ensures !IsComplete(c) ==> r == f
  {
    AssignCrew(f, c).0
  }

  /** The status `cancel_flight` writes: "отменен (<reason>)". */
  function AdminCancelled(reason: string): (r: string)
    ensures |r| == |reason| + 10
    ensures r[9..|r| - 1] == reason
    ensures r[..9] == "отменен (" && r[|r| - 1] == ')'
  {
    "отменен (" + reason + ")"
  }

  /** `cancel_flight`: overwrites the status whatever it was; the new status
      does not start with the capitalised "Отменен". */
  function CancelFlight(f: Flight, reason: string): (r: Flight)
    ensures r.status == AdminCancelled(reason)
    ensures !IsCancelled(r.status) && r.status != Completed
    ensures r.(status := f.status) == f
  {
    assert AdminCancelled(reason)[0] != CancelledPrefix[0];
    assert AdminCancelled(reason)[0] != Completed[0];
    f.(status := AdminCancelled(reason))
  }

  /** An administrator's cancellation does not stop a crewed flight from
      being executed, even one that bad departure weather had cancelled. */
  lemma AdminCancelDoesNotBlock(f: Flight, reason: string)
    requires f.crew.Some?
    ensures ExecuteFlight(CancelFlight(f, reason)).status == Completed
    ensures !IsFlightPossible(f.departure) ==>
      && ExecuteFlight(CheckWeather(f).0).status != Completed
      && ExecuteFlight(CancelFlight(CheckWeather(f).0, reason)).status == Completed
  {
    if !IsFlightPossible(f.departure) {
      DepartureCancellationBlocks(f);
    }
  }

  /** Anything that can happen to a flight after it is created. The weather
      events stand for the airports' weather setter, whose airports the
      flight shares. The flight holds its crew by reference, so a crew call
      made after the crew was bound changes the flight's crew. */
  datatype FlightEvent =
    | AssignCrewEvent(crew: Crew)
    | CrewCallEvent(roster: map<string, Employee>, call: CrewCall)
    | BookEvent(passenger: Passenger)
    | DepartureWeatherEvent(weather: string)
    | DestinationWeatherEvent(weather: string)
    | CheckWeatherEvent
    | IssueReportEvent(pilot: Employee, issue: string)
    | ExecuteEvent
    | AdminCancelEvent(reason: string)

  /** Issue reports come from pilots, as the method belongs to pilots, and
      a crew call names an employee whose role suits it. */
  ghost predicate Admissible(e: FlightEvent) {
    && (e.IssueReportEvent? ==> e.pilot.role.PilotRole?)
    && (e.CrewCallEvent? ==> Fits(e.call, e.roster))
  }

  ghost predicate AllAdmissible(events: seq<FlightEvent>) {
    forall i :: 0 <= i < |events| ==> Admissible(events[i])
  }

  /** One event. No event changes the flight's number or aircraft, and
      booked passengers are never dropped. */
  function Step(f: Flight, e: FlightEvent): (r: Flight)
    requires Admissible(e)
    ensures r.number == f.number && r.aircraft == f.aircraft
    ensures f.passengers <= r.passengers
  {
    match e
    case AssignCrewEvent(c) => AssignCrew(f, c).0
    case CrewCallEvent(roster, call) =>
      if f.crew.Some? then f.(crew := Some(Apply(f.crew.value, roster, call).0)) else f
    case BookEvent(p) => AddPassenger(f, p)
    case DepartureWeatherEvent(w) => f.(departure := SetWeather(f.departure, w))
    case DestinationWeatherEvent(w) => f.(destination := SetWeather(f.destination, w))
    case CheckWeatherEvent => CheckWeather(f).0
    case IssueReportEvent(pilot, issue) => ReportTechnicalIssue(pilot, issue, f)
    case ExecuteEvent => ExecuteFlight(f)
    case AdminCancelEvent(reason) => CancelFlight(f, reason)
  }

  /** The events in order; like each step, the whole run keeps the number
      and aircraft and only ever adds passengers. */
  function Replay(f: Flight, events: seq<FlightEvent>): (r: Flight)
    requires AllAdmissible(events)
    ensures r.number == f.number && r.aircraft == f.aircraft
    ensures f.passengers <= r.passengers
    decreases |events|
  {
    if |events| == 0 then f
    else
      assert Admissible(events[0]);
      Replay(Step(f, events[0]), events[1..])
  }

  /** What holds of a flight at every point of its life: the passengers fit
      the aircraft, a bound crew is complete, and a completed flight has a
      crew. */
  ghost predicate Sound(f: Flight) {
    && (|f.passengers| == 0 || |f.passengers| <= f.aircraft.capacity)
    && (f.crew.Some? ==> IsComplete(f.crew.value))
    && (f.status == Completed ==> f.crew.Some?)
  }

  lemma StepKeepsSound(f: Flight, e: FlightEvent)
    requires Sound(f) && Admissible(e)
    ensures Sound(Step(f, e))
  {
    if e.CrewCallEvent? && f.crew.Some? {
      ApplyKeepsComplete(f.crew.value, e.roster, e.call);
    }
    assert Rerouted[0] != Completed[0];
    assert CancelledAtDeparture[0] != Completed[0];
    assert CancelledAtDestination[0] != Completed[0];
  }

  /** Every flight, from creation through any sequence of events, stays
      sound. */
  lemma FlightLifeIsSound(number: string, departure: Airport, destination: Airport, aircraft: Aircraft, events: seq<FlightEvent>)
    requires AllAdmissible(events)
    ensures Sound(Replay(NewFlight(number, departure, destination, aircraft), events))
  {
    ReplayKeepsSound(NewFlight(number, departure, destination, aircraft), events);
  }

  lemma {:induction false} ReplayKeepsSound(f: Flight, events: seq<FlightEvent>)
    requires Sound(f) && AllAdmissible(events)
    ensures Sound(Replay(f, events))
    decreases |events|
  {
    if |events| > 0 {
      assert Admissible(events[0]);
      StepKeepsSound(f, events[0]);
      ReplayKeepsSound(Step(f, events[0]), events[1..]);
    }
  }

  /** The demonstration run. Flight SU-100 (Moscow to St Petersburg, fair
      weather, complete crew) is completed. Flight SU-200 to Sochi, whose
      weather is the capitalised "Шторм", passes the weather check and stays
      scheduled. Flight SU-300's commander reports a fault and the flight is
      diverted to SVO. */
  lemma DemonstrationRun(aircraft: Aircraft, crew: Crew, commander: Employee)
    requires IsComplete(crew) && IsCommander(commander)
    ensures var svo := NewAirport("SVO", "Шереметьево", "Москва", "Россия", "Хорошая");
      var led := NewAirport("LED", "Пулково", "Санкт-Петербург", "Россия", "Хорошая");
      var aer := NewAirport("AER", "Адлер", "Сочи", "Россия", "Шторм");
      var kzn := NewAirport("KZN", "Казань", "Казань", "Россия", "Хорошая");
      var su100 := AssignCrewToFlight(crew, NewFlight("SU-100", svo, led, aircraft));
      var su200 := NewFlight("SU-200", svo, aer, aircraft);
      var su300 := AssignCrewToFlight(crew, NewFlight("SU-300", svo, kzn, aircraft));
      && CheckWeather(su100) == (su100, true)
      && ExecuteFlight(su100).status == Completed
      && CheckWeather(su200) == (su200, true)
      && su200.status == Scheduled
      && CheckWeather(su300).1
      && ReportTechnicalIssue(commander, "Отказ двигателя №2", su300).destination.code == "SVO"
      && ReportTechnicalIssue(commander, "Отказ двигателя №2", su300).status == Rerouted
  {
    var svo := NewAirport("SVO", "Шереметьево", "Москва", "Россия", "Хорошая");
    var led := NewAirport("LED", "Пулково", "Санкт-Петербург", "Россия", "Хорошая");
    var aer := NewAirport("AER", "Адлер", "Сочи", "Россия", "Шторм");
    var kzn := NewAirport("KZN", "Казань", "Казань", "Россия", "Хорошая");
    CapitalisedWeatherIsFlyable(svo);
    CapitalisedWeatherIsFlyable(led);
    CapitalisedWeatherIsFlyable(aer);
    CapitalisedWeatherIsFlyable(kzn);
    var su100 := AssignCrewToFlight(crew, NewFlight("SU-100", svo, led, aircraft));
    assert su100.crew.Some?;
    assert CheckWeather(su100) == (su100, true);
    assert !IsCancelled(Scheduled) by { StatusPrefixes(); }
    assert ExecuteFlight(su100).status == Completed;
    var su200 := NewFlight("SU-200", svo, aer, aircraft);
    assert CheckWeather(su200) == (su200, true);
    var su300 := AssignCrewToFlight(crew, NewFlight("SU-300", svo, kzn, aircraft));
    assert CheckWeather(su300).1;
  }
}
