/**
 * A flight and its status. The status is kept as the exact string the
 * program writes, because execution is refused only when the status starts
 * with the capitalised word "Отменен" (cancelled): the cancellation written
 * for bad weather at the departure airport starts that way, the one written
 * for bad weather at the destination starts with a lower-case letter.
 */
module Flights {
  import opened Wrappers
  import opened Staff
  import opened Airports
  import opened Crews
  import opened Numbers

  datatype Aircraft = Aircraft(
    registration: string,
    model: string,
    capacity: int,
    flightRange: real,
    manufacturer: string,
    airworthy: bool)

  datatype Flight = Flight(
    number: string,
    departure: Airport,
    destination: Airport,
    aircraft: Aircraft,
    crew: Option<Crew>,
    passengers: seq<Passenger>,
    status: string,
    emergencyAirport: Option<Airport>)

  /** scheduled */
  const Scheduled: string := "запланирован"
  /** cancelled (weather at the departure airport) */
  const CancelledAtDeparture: string := "Отменен (погода в пункте отлета)"
  /** cancelled (weather at the destination), lower-case */
  const CancelledAtDestination: string := "отменен (погода в пункте назначения)"
  /** changed (technical faults) */
  const Rerouted: string := "изменен (технические неисправности)"
  /** completed */
  const Completed: string := "Выполнен"
  /** The prefix `execute_flight` refuses. */
  const CancelledPrefix: string := "Отменен"

  /** The fixed airport every emergency diverts to: Sheremetyevo, Moscow. */
  const EmergencyAirport: Airport := NewAirport("SVO", "Шереметьево", "Москва", "Россия", "Хорошая")

  /** The test `execute_flight` applies: the status starts with "Отменен". */
  function IsCancelled(status: string): (r: bool)
    ensures r <==> |status| >= |CancelledPrefix| && forall i :: 0 <= i < |CancelledPrefix| ==> status[i] == CancelledPrefix[i]
  {
    CancelledPrefix <= status
  }

  /** A new flight: scheduled, no crew, no passengers. */
  function NewFlight(number: string, departure: Airport, destination: Airport, aircraft: Aircraft): (f: Flight)
    ensures f.status == Scheduled && f.crew.None? && |f.passengers| == 0 && f.emergencyAirport.None?
    ensures f.departure == departure && f.destination == destination && f.aircraft == aircraft
  {
    Flight(number, departure, destination, aircraft, None, [], Scheduled, None)
  }

  /** `assign_crew`: binds the crew exactly when it is complete, and reports
      whether it did; an incomplete crew leaves the flight as it was. */
  function AssignCrew(f: Flight, c: Crew): (r: (Flight, bool))
    ensures r.1 <==> IsComplete(c)
    ensures r.1 ==> r.0 == f.(crew := Some(c))
    ensures !r.1 ==> r.0 == f
  {
    if !IsComplete(c) then (f, false) else (f.(crew := Some(c)), true)
  }

  /** `add_passenger`: appends while seats are left; a full flight is left
      as it was. */
  function AddPassenger(f: Flight, p: Passenger): (r: Flight)
    ensures |f.passengers| < f.aircraft.capacity ==> r.passengers == f.passengers + [p]
    ensures |f.passengers| >= f.aircraft.capacity ==> r == f
    ensures r.(passengers := f.passengers) == f
  {
    if |f.passengers| < f.aircraft.capacity then f.(passengers := f.passengers + [p]) else f
  }

  /** Books the passengers one after the other. */
  function AddPassengers(f: Flight, ps: seq<Passenger>): Flight
    decreases |ps|
  {
    if |ps| == 0 then f else AddPassengers(AddPassenger(f, ps[0]), ps[1..])
  }

  /** Over any sequence of bookings the passengers on board are the old ones
      followed by the first requests that still found a seat: as many as fit,
      never more than the capacity. */
  lemma {:induction false} BookingStaysWithinCapacity(f: Flight, ps: seq<Passenger>)
    requires |f.passengers| <= f.aircraft.capacity
    ensures var r := AddPassengers(f, ps);
      && |r.passengers| <= f.aircraft.capacity
      && |r.passengers| == Min(f.aircraft.capacity, |f.passengers| + |ps|)
      && r.passengers == f.passengers + ps[..|r.passengers| - |f.passengers|]
      && r.(passengers := f.passengers) == f
    decreases |ps|
  {
    if |ps| > 0 {
      var g := AddPassenger(f, ps[0]);
      BookingStaysWithinCapacity(g, ps[1..]);
      var r := AddPassengers(f, ps);
      if |f.passengers| < f.aircraft.capacity {
        var k := |r.passengers| - |g.passengers|;
        assert ps[..k + 1] == [ps[0]] + ps[1..][..k];
      } else {
        assert |r.passengers| == |f.passengers|;
      }
    }
  }

  /** `check_weather_conditions`: bad weather at the departure airport
      cancels first, with its own capitalised status; otherwise bad weather
      at the destination cancels with the lower-case status; with both
      airports usable the answer is true and the flight is untouched. */
  function CheckWeather(f: Flight): (r: (Flight, bool))
    ensures r.1 <==> IsFlightPossible(f.departure) && IsFlightPossible(f.destination)
    ensures !IsFlightPossible(f.departure) ==> r.0 == f.(status := CancelledAtDeparture)
    ensures IsFlightPossible(f.departure) && !IsFlightPossible(f.destination) ==> r.0 == f.(status := CancelledAtDestination)
    ensures r.1 ==> r.0 == f
  {
    var departureOk := IsFlightPossible(f.departure);
    var destinationOk := IsFlightPossible(f.destination);
    if !departureOk then (f.(status := CancelledAtDeparture), false)
    else if !destinationOk then (f.(status := CancelledAtDestination), false)
    else (f, true)
  }

  /** `handle_emergency`: diverts to the fixed emergency airport whatever the
      old destination was, and marks the flight as changed. */
  function HandleEmergency(f: Flight, issue: string): (r: Flight)
    ensures r.destination == EmergencyAirport && r.destination.code == "SVO"
    ensures r.emergencyAirport == Some(EmergencyAirport)
    ensures r.status == Rerouted && !IsCancelled(r.status)
    ensures r.(destination := f.destination, status := f.status, emergencyAirport := f.emergencyAirport) == f
  {
    var emergency := NewAirport("SVO", "Шереметьево", "Москва", "Россия", "Хорошая");
    assert Rerouted[0] != CancelledPrefix[0];
    f.(destination := emergency, status := Rerouted, emergencyAirport := Some(emergency))
  }

  /** `Pilot.report_technical_issue`: a commander's report diverts the
      flight; anyone else's report changes nothing. */
  function ReportTechnicalIssue(pilot: Employee, issue: string, f: Flight): (r: Flight)
    requires pilot.role.PilotRole?
    ensures IsCommander(pilot) ==> r.destination == EmergencyAirport && r.status == Rerouted
    ensures IsCommander(pilot) ==> r.(destination := f.destination, status := f.status, emergencyAirport := f.emergencyAirport) == f
    ensures !IsCommander(pilot) ==> r == f
  {
    if pilot.role.isCommander then HandleEmergency(f, issue) else f
  }

  /** `execute_flight`: refused for a status starting with "Отменен" and for
      a flight without a crew; otherwise the flight is completed. */
  function ExecuteFlight(f: Flight): (r: Flight)
    ensures IsCancelled(f.status) || f.crew.None? ==> r == f
    ensures !IsCancelled(f.status) && f.crew.Some? ==> r == f.(status := Completed)
  {
    if IsCancelled(f.status) then f
    else if f.crew.None? then f
    else f.(status := Completed)
  }

  /** Bad weather at the departure airport blocks execution afterwards. */
  lemma DepartureCancellationBlocks(f: Flight)
    requires !IsFlightPossible(f.departure)
    ensures ExecuteFlight(CheckWeather(f).0) == CheckWeather(f).0
    ensures CheckWeather(f).0.status != Completed
  {
    assert IsCancelled(CancelledAtDeparture);
  }

  /** Bad weather at the destination writes a lower-case status, which
      does not block execution: a crewed flight is completed anyway. */
  lemma DestinationCancellationDoesNotBlock(f: Flight)
    requires IsFlightPossible(f.departure) && !IsFlightPossible(f.destination)
    requires f.crew.Some?
    ensures !CheckWeather(f).1
    ensures ExecuteFlight(CheckWeather(f).0).status == Completed
  {
    assert CancelledAtDestination[0] != CancelledPrefix[0];
  }

  /** The statuses the flight itself writes, and whether each one blocks
      execution. */
  lemma StatusPrefixes()
    ensures IsCancelled(CancelledAtDeparture)
    ensures !IsCancelled(CancelledAtDestination)
    ensures !IsCancelled(Scheduled) && !IsCancelled(Rerouted) && !IsCancelled(Completed)
  {
    assert CancelledAtDestination[0] != CancelledPrefix[0];
    assert Scheduled[0] != CancelledPrefix[0];
    assert Rerouted[0] != CancelledPrefix[0];
    assert Completed[0] != CancelledPrefix[0];
  }
}
