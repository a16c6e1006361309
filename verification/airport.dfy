/**
 * Airports and their weather. A flight may use an airport unless its weather
 * string is exactly one of four lower-case Russian words for bad weather;
 * the comparison is case-sensitive.
 */
module Airports {

  datatype Airport = Airport(code: string, name: string, city: string, country: string, weather: string, operational: bool)

  /** The weather an airport gets when none is given. */
  const DefaultWeather: string := "хорошая"

  /** storm, fog, snowfall, thunderstorm */
  const BadWeather: set<string> := {"шторм", "туман", "снегопад", "гроза"}

  /** A new airport is operational; without a weather argument it gets
      the default fair weather. */
  function NewAirport(code: string, name: string, city: string, country: string, weather: string := DefaultWeather): (a: Airport)
    ensures a.operational && a.weather == weather
    ensures a.code == code && a.name == name && a.city == city && a.country == country
  {
    Airport(code, name, city, country, weather, true)
  }

  /** `is_flight_possible`. */
  function IsFlightPossible(a: Airport): (r: bool)
    ensures !r <==> a.weather == "шторм" || a.weather == "туман" || a.weather == "снегопад" || a.weather == "гроза"
  {
    a.weather !in BadWeather
  }

  /** The weather setter: replaces the weather and nothing else. */
  function SetWeather(a: Airport, weather: string): (r: Airport)
    ensures r.weather == weather
    ensures r.(weather := a.weather) == a
  {
    a.(weather := weather)
  }

  /** Feasibility depends on the latest weather only, letter case included:
      a capitalised "Шторм" does not ground a flight, "шторм" does. */
  lemma WeatherDecidesFeasibility(a: Airport, w: string)
    ensures IsFlightPossible(SetWeather(a, w)) <==> w !in BadWeather
    ensures IsFlightPossible(SetWeather(a, "Шторм"))
    ensures !IsFlightPossible(SetWeather(a, "шторм"))
    ensures IsFlightPossible(SetWeather(a, DefaultWeather))
  {
    assert "Шторм"[0] != "шторм"[0];
    assert "Шторм"[0] != "туман"[0] && "Шторм"[0] != "снегопад"[0] && "Шторм"[0] != "гроза"[0];
    assert DefaultWeather[0] != "шторм"[0] && DefaultWeather[0] != "туман"[0] && DefaultWeather[0] != "снегопад"[0];
    assert DefaultWeather[1] != "гроза"[1];
  }

  /** An airport created without a weather argument can be flown from. */
  lemma DefaultAirportIsFlyable(code: string, name: string, city: string, country: string)
    ensures NewAirport(code, name, city, country).weather == DefaultWeather
    ensures IsFlightPossible(NewAirport(code, name, city, country))
  {
    WeatherDecidesFeasibility(NewAirport(code, name, city, country), DefaultWeather);
  }

  /** The capitalised weather words the demonstration airports use ("Хорошая",
      fair, and "Шторм", storm) are not in the bad set. */
  lemma CapitalisedWeatherIsFlyable(a: Airport)
    requires a.weather == "Хорошая" || a.weather == "Шторм"
    ensures IsFlightPossible(a)
  {
    assert a.weather[0] != "шторм"[0] && a.weather[0] != "туман"[0] && a.weather[0] != "снегопад"[0] && a.weather[0] != "гроза"[0];
  }
}
