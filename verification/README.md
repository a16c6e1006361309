# Student exercises in Dafny: an airline model and eight small computations

This project models, in Dafny, the computational core of a set of unrelated
student exercises. The programs are written in Python, and every piece here
is a pure function over immutable values:

- **Airline domain model** (`Kulikovskaya/2/src/lab2_2.py`). Airports have a
  weather string that gates flights. Crews are built call by call: at most
  two pilots, one navigator and one radio operator (a later call replaces an
  earlier one), and any number of flight attendants. Each accepted member is
  marked unavailable. A crew is complete when it has two pilots (one of them
  a commander), a navigator, a radio operator and at least one attendant.
  A flight has a status string and a small state machine:
  - a crew is bound only if it is complete;
  - bookings stop at the aircraft's capacity;
  - bad weather at the departure airport cancels first;
  - a commander's fault report diverts the flight to Sheremetyevo (SVO);
  - execution is refused when the status starts with the capitalised word
    "Отменен", or when no crew is bound.
  The administrator creates flights and crews, and can overwrite a flight's
  status with a lower-case "отменен (…)" that does not block execution.
  Python methods that change an object become functions that return the
  updated record, paired with the boolean result where Python returns one.
  Employee availability lives in the returned member record. A roster
  (a map from employee id to employee) stands for the objects that Python
  shares between callers. A flight holds its crew by reference, so crew
  calls made after the crew is bound are events of the flight too.
- **Isosceles triangle** (`Kulikovskaya/2/src/lab2_1.py`): the setters, the
  validity test, the perimeter, the guard in front of the area formula, and
  equality. Lengths are `real`.
- **Pascal's triangle** (`Kulikovskaya/1/src/lab1_2.py`): a loop that builds
  rows of placeholders and fills them in. It is proved to produce the
  binomial coefficients.
- **Digit-count histogram** (`Shumilo/1/src/1.py`): a map from a number's
  decimal length to how many inputs have that length, with its keys listed
  in ascending order.
- **Hamming weight** (`Shumilo/1/src/2.py`): the number of '1' characters in
  `bin(x)`. The prompt loop only passes it numbers that are not negative.
- **Above-average percentage** (`Kulikovskaya/1/src/lab1_1.py`): how many
  elements lie strictly above the exact mean, and the resulting percentage.
- **Range stepping** (`Litvinchuk/1/src/1.py`): the values of Python's
  `range(start, end + 1, step)`, and an error for step 0.
- **Palindrome check** (`Litvinchuk/1/src/2.py`): lower-case the text, keep
  the letters and digits, and compare the result with its reverse.
- **Median outlier** (`Kot/1/scr/py1.py`): the element at index `len // 2`
  of a sorted copy, then the first element that lies farthest from it.

Where Python raises an exception (a triangle that does not exist, the
percentage of an empty list, the median of an empty list), the model returns
the `Err` case of a `Result`. It does not put a precondition there.

Two behaviours of the flight program that are easy to misread are modelled
as written:

- Only a status starting with the capitalised "Отменен" blocks
  `execute_flight` (lab2_2.py line 365). The destination-weather
  cancellation (line 345) and the administrator's cancellation (line 425)
  start with a lower-case letter, so a crewed flight cancelled either way is
  still executed (`Flights.DestinationCancellationDoesNotBlock`,
  `Administration.AdminCancelDoesNotBlock`).
- Weather is compared as an exact, case-sensitive string. The Sochi airport
  of the demonstration has weather "Шторм", with a capital letter, so it is
  flyable and flight SU-200 stays scheduled, although the comment at line
  523 expects a cancellation (`Administration.DemonstrationRun`).

## Model

| member | source | states |
|---|---|---|
| Staff.Hire | reports/Kulikovskaya/2/src/lab2_2.py:30-36 | a newly created employee of any role starts out available, with the given identity and role |
| Airports.NewAirport | reports/Kulikovskaya/2/src/lab2_2.py:198-206 | a new airport keeps the given code, name, city, country and weather, and is operational; the weather defaults to "хорошая" |
| Airports.DefaultAirportIsFlyable | reports/Kulikovskaya/2/src/lab2_2.py:199-229 | an airport created without a weather argument has the default fair weather and can be flown from |
| Airports.IsFlightPossible | reports/Kulikovskaya/2/src/lab2_2.py:226-229 | a flight is impossible exactly when the weather is one of the four lower-case strings "шторм", "туман", "снегопад", "гроза" |
| Airports.SetWeather | reports/Kulikovskaya/2/src/lab2_2.py:220-224 | the weather setter replaces the weather and changes nothing else |
| Airports.WeatherDecidesFeasibility | reports/Kulikovskaya/2/src/lab2_2.py:220-229 | after setting the weather, feasibility depends only on the new value, and case matters: "Шторм" is flyable, "шторм" is not, and the default "хорошая" is flyable |
| Airports.CapitalisedWeatherIsFlyable | reports/Kulikovskaya/2/src/lab2_2.py:439-441 | the capitalised weather words of the demonstration airports ("Хорошая", "Шторм") do not ground flights |
| Crews.EmptyCrew | reports/Kulikovskaya/2/src/lab2_2.py:237-243 | a new crew has no pilots, navigator, radio operator or attendants |
| Crews.Assigned | reports/Kulikovskaya/2/src/lab2_2.py:248 | a member taken into a crew is marked unavailable, and nothing else about them changes |
| Crews.AddPilot | reports/Kulikovskaya/2/src/lab2_2.py:245-251 | with fewer than two pilots the pilot is appended and marked unavailable; with two or more, neither the crew nor the pilot changes; the pilot count never passes 2; no other part of the crew changes |
| Crews.SetNavigator | reports/Kulikovskaya/2/src/lab2_2.py:253-256 | the navigator slot is overwritten with the member, who is marked unavailable; nothing else in the crew changes |
| Crews.SetRadioOperator | reports/Kulikovskaya/2/src/lab2_2.py:258-261 | the radio operator slot is overwritten with the member, who is marked unavailable; nothing else in the crew changes |
| Crews.AddFlightAttendant | reports/Kulikovskaya/2/src/lab2_2.py:263-266 | the attendant is appended after the others and marked unavailable; nothing else in the crew changes |
| Crews.FirstCommander | reports/Kulikovskaya/2/src/lab2_2.py:276-280 | the result is absent exactly when no pilot is a commander; otherwise it is the commander at the lowest index |
| Crews.GetCommander | reports/Kulikovskaya/2/src/lab2_2.py:276-280 | a commander is returned exactly when some pilot of the crew is a commander, and it is one of the crew's pilots |
| Crews.IsComplete | reports/Kulikovskaya/2/src/lab2_2.py:268-274 | complete exactly when there are two pilots of whom at least one is a commander, a navigator, a radio operator and at least one attendant |
| Crews.CompletenessCases | reports/Kulikovskaya/2/src/lab2_2.py:268-274 | the full line-up is complete, and each missing part on its own (a pilot, the commander, the navigator, the radio operator, every attendant) makes the crew incomplete |
| Crews.ThirdPilotRefused | reports/Kulikovskaya/2/src/lab2_2.py:245-251 | a third pilot is turned away: the crew is unchanged and the pilot stays available |
| Crews.Apply | reports/Kulikovskaya/2/src/lab2_2.py:245-266 | one crew call keeps the roster's employees and roles, never makes anyone available again, changes only the named employee, keeps every crew member unavailable and keeps the pilot count at most 2 |
| Crews.ApplyKeepsComplete | reports/Kulikovskaya/2/src/lab2_2.py:245-274 | a complete crew stays complete, with the same pilots, under any further crew call |
| Crews.Run | reports/Kulikovskaya/2/src/lab2_2.py:245-266 | any sequence of crew calls keeps the roster's employees and their roles |
| Crews.RunKeepsInvariants | reports/Kulikovskaya/2/src/lab2_2.py:245-266 | over any sequence of crew calls: at most two pilots, every member taken is unavailable, and nobody unavailable becomes available again |
| Crews.BuiltCrewInvariants | reports/Kulikovskaya/2/src/lab2_2.py:237-266 | a crew built from an empty one by any calls has at most two pilots and only unavailable members |
| Crews.BuiltCrewIsComplete | reports/Kulikovskaya/2/src/lab2_2.py:535-540 | adding a commander, a co-pilot, a navigator, a radio operator and an attendant gives a complete crew whose commander is the first pilot |
| Flights.NewFlight | reports/Kulikovskaya/2/src/lab2_2.py:295-306 | a new flight is scheduled, has no crew, no passengers and no emergency airport, and keeps its airports and aircraft |
| Flights.AssignCrew | reports/Kulikovskaya/2/src/lab2_2.py:316-324 | the result is true exactly when the crew is complete; then the crew is bound, otherwise the flight is unchanged |
| Flights.AddPassenger | reports/Kulikovskaya/2/src/lab2_2.py:326-331 | while seats are left the passenger is appended; a full flight is unchanged; nothing but the passenger list changes |
| Flights.BookingStaysWithinCapacity | reports/Kulikovskaya/2/src/lab2_2.py:326-331 | after any sequence of bookings the passengers are the old ones followed by the first requests that fit; their number is min(capacity, old + requested) and never exceeds the capacity |
| Flights.CheckWeather | reports/Kulikovskaya/2/src/lab2_2.py:333-348 | true exactly when both airports are flyable, with the flight unchanged; bad departure weather writes the capitalised departure cancellation even when the destination is bad too; otherwise bad destination weather writes the lower-case destination cancellation |
| Flights.HandleEmergency | reports/Kulikovskaya/2/src/lab2_2.py:350-361 | whatever the old destination, the flight is diverted to SVO, records it as its emergency airport and gets the "changed (technical faults)" status, which is not a blocking cancellation; nothing else changes |
| Flights.ReportTechnicalIssue | reports/Kulikovskaya/2/src/lab2_2.py:72-78 | a commander's report diverts the flight to SVO with the rerouted status; anyone else's report leaves the flight unchanged |
| Flights.IsCancelled | reports/Kulikovskaya/2/src/lab2_2.py:365 | a status is blocking exactly when its first characters are the capitalised "Отменен", character by character |
| Flights.ExecuteFlight | reports/Kulikovskaya/2/src/lab2_2.py:363-388 | a status starting with "Отменен", or a missing crew, leaves the flight unchanged; otherwise the flight is completed and nothing else changes |
| Flights.DepartureCancellationBlocks | reports/Kulikovskaya/2/src/lab2_2.py:338-367 | after bad departure weather cancels the flight, executing it changes nothing and it is not completed |
| Flights.DestinationCancellationDoesNotBlock | reports/Kulikovskaya/2/src/lab2_2.py:343-387 | after a lower-case destination-weather cancellation, a crewed flight is still completed when executed |
| Flights.StatusPrefixes | reports/Kulikovskaya/2/src/lab2_2.py:305-387 | of the statuses the flight writes, only the departure-weather cancellation starts with "Отменен" |
| Administration.CreateFlight | reports/Kulikovskaya/2/src/lab2_2.py:403-409 | a new scheduled flight is returned and appended to the administrator's flights; nothing else changes |
| Administration.FormCrew | reports/Kulikovskaya/2/src/lab2_2.py:411-416 | a new, incomplete, empty crew is returned and appended to the administrator's crews; nothing else changes |
| Administration.AssignCrewToFlight | reports/Kulikovskaya/2/src/lab2_2.py:418-421 | the flight's own gate decides: a complete crew is bound, an incomplete one leaves the flight unchanged |
| Administration.AdminCancelled | reports/Kulikovskaya/2/src/lab2_2.py:425 | the administrator's status is "отменен (", then the reason unchanged, then ")", ten characters longer than the reason |
| Administration.CancelFlight | reports/Kulikovskaya/2/src/lab2_2.py:423-426 | the status becomes "отменен (reason)" whatever it was; it neither blocks execution nor reads as completed; nothing else changes |
| Administration.AdminCancelDoesNotBlock | reports/Kulikovskaya/2/src/lab2_2.py:363-426 | a crewed flight cancelled by the administrator is still completed when executed, even after a departure-weather cancellation that would have blocked it |
| Administration.Step | reports/Kulikovskaya/2/src/lab2_2.py:245-426 | any single admissible event keeps the flight's number and aircraft and never removes a passenger |
| Administration.Replay | reports/Kulikovskaya/2/src/lab2_2.py:245-426 | any sequence of admissible events keeps the flight's number and aircraft and never removes a passenger |
| Administration.StepKeepsSound | reports/Kulikovskaya/2/src/lab2_2.py:245-426 | every single event, including a crew call on the crew the flight holds by reference, keeps the flight sound: passengers fit the aircraft, a bound crew is complete, a completed flight has a crew |
| Administration.ReplayKeepsSound | reports/Kulikovskaya/2/src/lab2_2.py:245-426 | any sequence of events keeps a sound flight sound |
| Administration.FlightLifeIsSound | reports/Kulikovskaya/2/src/lab2_2.py:245-426 | from creation through any sequence of crew assignments, crew calls on the bound crew, bookings, weather changes and checks, fault reports, executions and cancellations, a flight stays sound |
| Administration.DemonstrationRun | reports/Kulikovskaya/2/src/lab2_2.py:439-554 | in the demonstration, SU-100 passes the weather check and is completed; SU-200 to Sochi ("Шторм") passes the check and stays scheduled; SU-300 is diverted to SVO with the rerouted status after its commander's report |
| Isosceles.SetLateralSide | reports/Kulikovskaya/2/src/lab2_1.py:13-17 | a non-positive value is refused with the lateral-side error; otherwise only the lateral side changes |
| Isosceles.SetBase | reports/Kulikovskaya/2/src/lab2_1.py:23-27 | a non-positive value is refused with the base error; otherwise only the base changes |
| Isosceles.IsValid | reports/Kulikovskaya/2/src/lab2_1.py:29-36 | valid exactly when the sides (lateral, lateral, base) are positive and satisfy all three strict triangle inequalities |
| Isosceles.Perimeter | reports/Kulikovskaya/2/src/lab2_1.py:38-41 | an error exactly when the lengths form no triangle; otherwise the sum of the three sides, which exceeds twice the base |
| Isosceles.SquaredHeight | reports/Kulikovskaya/2/src/lab2_1.py:43-50 | the area's guard fails exactly for lengths that form no triangle; otherwise the value under the square root is positive and, added to (base/2)², gives the lateral side squared |
| Isosceles.Equals | reports/Kulikovskaya/2/src/lab2_1.py:60-65 | two triangles are equal exactly when they are the same value (same lateral side and same base) |
| Isosceles.EqualsIsEquivalence | reports/Kulikovskaya/2/src/lab2_1.py:60-65 | equality is reflexive, symmetric and transitive |
| Isosceles.SetterCanInvalidate | reports/Kulikovskaya/2/src/lab2_1.py:13-36 | the setters do not check the triangle inequality: setting the base of the valid (5, 6) to 20 succeeds and gives an invalid triangle |
| Isosceles.Examples | reports/Kulikovskaya/2/src/lab2_1.py:70-123 | (5, 6) has perimeter 16; (3, 10) has neither perimeter nor area; (5, 6) equals (5, 6) but not (5, 8); setting the lateral side to -5 fails |
| Pascal.Filled | reports/Kulikovskaya/1/src/lab1_2.py:10-14 | a row whose placeholders are all assigned keeps its length and values once the placeholders are dropped |
| Pascal.PascalTriangle | reports/Kulikovskaya/1/src/lab1_2.py:7-15 | exactly max(n, 0) rows; row i has i + 1 entries, the first row is [1], every row starts and ends with 1, every interior entry is the sum of the two above it, and no placeholder survives |
| Pascal.EntriesAreBinomials | reports/Kulikovskaya/1/src/lab1_2.py:1-3 | entry j of row i is the binomial coefficient: entry × j! × (i−j)! = i! |
| Pascal.EntryUnique | reports/Kulikovskaya/1/src/lab1_2.py:1-3 | two entries that both satisfy entry × j! × (i−j)! = i! are equal |
| Pascal.PascalUnique | reports/Kulikovskaya/1/src/lab1_2.py:7-15 | the row rules fix the triangle: two triangles with the same number of rows are equal |
| Pascal.ExampleFiveRows | reports/Kulikovskaya/1/src/lab1_2.py:4-5 | five rows are [[1],[1,1],[1,2,1],[1,3,3,1],[1,4,6,4,1]] |
| DigitDistribution.DigitCount | reports/Shumilo/1/src/1.py:18 | the length of the decimal form of |n| is the number d ≥ 1 of digits with |n| below 10^d and, unless d is 1, at least 10^(d−1) |
| DigitDistribution.SignIgnored | reports/Shumilo/1/src/1.py:18 | the sign is not counted as a digit, and 0 has one digit |
| DigitDistribution.Distribution | reports/Shumilo/1/src/1.py:16-21 | a key is present exactly for the digit counts that occur, mapped to the number of inputs with that many digits; every key and count is at least 1; empty input gives an empty map |
| DigitDistribution.SortedKeys | reports/Shumilo/1/src/1.py:24-25 | the keys are listed once each, in strictly ascending order |
| DigitDistribution.ReportedCountsSumToLength | reports/Shumilo/1/src/1.py:16-25 | the counts printed in ascending key order add up to the number of inputs |
| DigitDistribution.Example | reports/Shumilo/1/src/1.py:18-25 | -305 has 3 digits, 7 and 0 have 1; keys {3, 1} are reported as 1 then 3 |
| Hamming.BinDigits | reports/Shumilo/1/src/2.py:2 | the binary digits of a positive number start with 1 |
| Hamming.PrefixCountsNothing | reports/Shumilo/1/src/2.py:1-2 | the "0b" or "-0b" prefix contributes no '1': the weight is the number of one digits |
| Hamming.HammingWeight | reports/Shumilo/1/src/2.py:1-2 | counting '1' characters in bin(x) gives the number of one bits of |x|, computed independently by halving |
| Hamming.Recurrence | reports/Shumilo/1/src/2.py:1-2 | hw(2x) = hw(x) and hw(2x + 1) = hw(x) + 1 |
| Hamming.Bounds | reports/Shumilo/1/src/2.py:1-2 | hw(0) = 0; for x > 0 the weight lies between 1 and the length of x's binary form |
| Hamming.SignIgnored | reports/Shumilo/1/src/2.py:1-2 | a negative number has the weight of its magnitude |
| Hamming.FirstNonNegative | reports/Shumilo/1/src/2.py:4-13 | the accepted number is the first input that is not negative, with every earlier input refused; nothing is accepted exactly when every input is negative |
| Hamming.Report | reports/Shumilo/1/src/2.py:4-15 | a weight is reported exactly when a number was accepted, and it is that number's bit sum |
| Hamming.Examples | reports/Shumilo/1/src/2.py:1-15 | hw(0) = 0, hw(11) = 3, and inputs -4 then 6 report 2 |
| AboveAverage.Average | reports/Kulikovskaya/1/src/lab1_1.py:5 | the mean is 0 for empty input; otherwise mean × length equals the sum |
| AboveAverage.NotAllAboveMean | reports/Kulikovskaya/1/src/lab1_1.py:5-9 | for any value whose product with the length is the sum, not every element lies strictly above it |
| AboveAverage.AboveMeanIff | reports/Kulikovskaya/1/src/lab1_1.py:5-8 | an element is above the mean exactly when element × length > sum, so an element equal to the mean is not counted |
| AboveAverage.NotAllAbove | reports/Kulikovskaya/1/src/lab1_1.py:5-9 | for non-empty input, fewer elements than the length lie above the mean |
| AboveAverage.CountAboveAverage | reports/Kulikovskaya/1/src/lab1_1.py:5-9 | the loop counts the elements above the mean: 0 for empty input, and fewer than the length otherwise |
| AboveAverage.Percentage | reports/Kulikovskaya/1/src/lab1_1.py:10 | empty input fails with division by zero even though the mean is guarded; otherwise the percentage lies in [0, 100) and equals count × 100 / length |
| AboveAverage.ExamplePercentage | reports/Kulikovskaya/1/src/lab1_1.py:4-11 | in [1, 2, 3, 10] the mean is 4 and 25% of the elements lie above it |
| RangeStep.PyRange | reports/Litvinchuk/1/src/1.py:6 | value k is start + k·step; for a positive step every value is below stop and the next would not be; for a negative step every value is above stop and the next would not be |
| RangeStep.PyRangeLength | reports/Litvinchuk/1/src/1.py:6 | the number of values equals Python's range length |
| RangeStep.Rep | reports/Litvinchuk/1/src/1.py:1-7 | step 0 is an error with no values; otherwise the values start at start, differ by step, match Python's length, and for a positive step stay at most end with the next beyond it, for a negative step stay above end + 1 with the next at most end + 1 |
| RangeStep.RepEdges | reports/Litvinchuk/1/src/1.py:1-7 | for a positive step the output is empty exactly when start > end; for a negative step end itself never appears |
| RangeStep.ExampleRanges | reports/Litvinchuk/1/src/1.py:1-7 | (1, 10, 3) gives 1 4 7 10; (10, 1, −3) gives 10 7 4, without 1; step 0 is refused |
| Palindrome.IsPalindrome | reports/Litvinchuk/1/src/2.py:1-3 | true exactly when the lower-cased, letters-and-digits-only text reads the same from both ends |
| Palindrome.PalindromeOfReverse | reports/Litvinchuk/1/src/2.py:1-3 | reversing the text does not change the verdict |
| Palindrome.NoAlnumIsPalindrome | reports/Litvinchuk/1/src/2.py:2-3 | a text with no letter or digit, the empty text included, is a palindrome |
| Palindrome.CaseInsensitive | reports/Litvinchuk/1/src/2.py:2 | texts that differ only in letter case get the same verdict |
| Palindrome.InsertPunctuation | reports/Litvinchuk/1/src/2.py:2 | inserting a character that is not a letter or digit anywhere does not change the verdict |
| Palindrome.FilteredReverse | reports/Litvinchuk/1/src/2.py:2 | lower-casing and keeping letters and digits of the reversed text gives the reverse of the cleaned text |
| Palindrome.ExampleMixed | reports/Litvinchuk/1/src/2.py:1-3 | "Aba!" is a palindrome: case and the trailing punctuation are ignored |
| Palindrome.ExampleAb | reports/Litvinchuk/1/src/2.py:1-3 | "Ab" is not a palindrome |
| Palindrome.ExampleEmpty | reports/Litvinchuk/1/src/2.py:1-3 | the empty text is a palindrome |
| OutlierMedian.Sort | reports/Kot/1/scr/py1.py:2 | the sorted copy is ordered and is a permutation of the input |
| OutlierMedian.SortCounts | reports/Kot/1/scr/py1.py:2 | sorting keeps, for every threshold, how many elements lie below it and at most it |
| OutlierMedian.SortedRank | reports/Kot/1/scr/py1.py:2-3 | in a sorted sequence the element at index k has at most k elements below it and more than k at most it |
| OutlierMedian.Median | reports/Kot/1/scr/py1.py:2-3 | empty input fails; otherwise the median is an element with at most len/2 elements below it and more than len/2 at most it, which is the upper median for even lengths |
| OutlierMedian.FarthestFrom | reports/Kot/1/scr/py1.py:4 | the chosen index holds an element at least as far from m as every element, and strictly farther than every earlier one |
| OutlierMedian.FindOutlierMedian | reports/Kot/1/scr/py1.py:1-5 | empty input fails; otherwise the result is the first element of the original order that lies farthest from the median |
| OutlierMedian.ExampleMedian | reports/Kot/1/scr/py1.py:2-3 | in [1, 2, 3, 100] the only element of rank 2 is 3 |
| OutlierMedian.ExampleOutlier | reports/Kot/1/scr/py1.py:4 | in [1, 2, 3, 100], 100 is the first element farthest from 3 |

## Left out

- All console input and output is left out: the `input` and `print` calls and the message texts. So is Python's `int()` token parsing, with the retry loops built on it. Of the prompting, only the Hamming program's refusal of negative numbers is modelled (`Hamming.FirstNonNegative`).
- The module-level demonstration scripts are modelled only as example lemmas (`Administration.DemonstrationRun`, `Isosceles.Examples`).
- AboveAverage.Percentage: the bound below 100 and `AboveAverage.NotAllAbove` hold for the exact mean. With Python's float mean they can fail: for the single input 2^53 + 1 the mean rounds to 2^53, the element compares above it, and the program prints 100.0.
- Floating point is left out. The area's `math.sqrt` value and `round(..., 2)` are not modelled. The mean is compared exactly, as a rational number, so float rounding is not modelled. `Aircraft.flight_range` is carried as a field but never used.
- `__str__` texts, `get_role` labels, `get_flight_status` and the print-only `Aircraft.take_off`/`land` are left out. They only produce display text.
- The `datetime` scheduled time of a flight is left out, because no operation reads it. The pilot's flight-hours counter and the crew's unused `_is_formed` flag are left out for the same reason.
- Object sharing is modelled only in part. A flight holds its airports by value. The weather setter's effect on a flight's airports is modelled through `Administration.FlightEvent`'s weather events. A crew call on the crew a flight has bound is modelled as a crew-call event of that flight. Two flights sharing one airport or one crew object is not modelled. The administrator's flight and crew lists are snapshots taken at creation.
- The weather setter's warning print is left out; only the assignment is modelled.
- `execute_flight` tests `not self._crew`. A `Crew` object is always truthy in Python, so the model tests only whether a crew is bound.
- Crews.AddPilot: requires a pilot, the role the parameter type declares. Python does not check the role, and a wrong one can still yield a complete crew, because `any(...)` in `is_complete` stops at the first commander.
- Crews.SetNavigator: requires a navigator, the role the parameter type declares. Python does not check the role, and a member of any role in this slot still counts towards a complete crew.
- Crews.SetRadioOperator: requires a radio operator, the role the parameter type declares. Python does not check the role, and a member of any role in this slot still counts towards a complete crew.
- Crews.AddFlightAttendant: requires a flight attendant, the role the parameter type declares. Python does not check the role, and a member of any role in this slot still counts towards a complete crew.
- Flights.ReportTechnicalIssue: requires a pilot, because the operation is a method of `Pilot`.
- Palindrome.IsPalindrome: requires ASCII text. `str.lower` and `str.isalnum` are modelled for ASCII only, so full Unicode case mapping and Unicode letters (Cyrillic included) are not modelled.
- OutlierMedian.ExampleMedian: states the rank of 3 in the example rather than evaluating `Median` on the literal, because evaluating the sort on the literal is too costly for the verifier.
