/**
 * The people of the airline model. The Person -> Employee -> {Pilot,
 * Navigator, RadioOperator, FlightAttendant} hierarchy becomes one Employee
 * record with a role tag holding the role-specific fields.
 */
module Staff {

  datatype Person = Person(name: string, idNumber: string, age: int)

  datatype Role =
    | PilotRole(licenseNumber: string, isCommander: bool)
    | NavigatorRole(navigationCert: string)
    | RadioOperatorRole(radioLicense: string)
    | AttendantRole(languages: seq<string>)

  /** An employee; `available` is the flag a crew clears on assignment. */
  datatype Employee = Employee(person: Person, employeeId: string, experienceYears: int, available: bool, role: Role)

  datatype Passenger = Passenger(person: Person, passport: string, ticketNumber: string)

  /** A new employee of any role starts out available. */
  function Hire(person: Person, employeeId: string, experienceYears: int, role: Role): (e: Employee)
    ensures e.available
    ensures e.person == person && e.employeeId == employeeId && e.role == role
  {
    Employee(person, employeeId, experienceYears, true, role)
  }

  /** A pilot whose commander flag is set. */
  predicate IsCommander(e: Employee) {
    e.role.PilotRole? && e.role.isCommander
  }
}
