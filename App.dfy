/**
 * The App component's state cell and the three updates applied to it: the refresh start,
 * the observation response and the forecast response. Each response callback runs the
 * corresponding extractor and replaces the state through `setCurrentElement`.
 */
module App {
  import opened Js
  import opened Display
  import CurrentWeather
  import WeatherForecast

  class Widget {
    /** The state held by `useState`. */
    var currentElement: DisplayState

    /** Mounting: `now` is the clock reading behind the initial `new Date()`. */
    constructor (now: int)
      ensures currentElement == InitialState(now)
    {
      currentElement := InitialState(now);
    }

    /** The part of `fetchCurrentWeather` that runs before the request is sent. */
    method FetchCurrentWeather()
      modifies this
      ensures currentElement == CurrentWeather.StartRefresh(old(currentElement))
    {
      currentElement := currentElement.(isLoading := true);
    }

    /**
     * The observation response arrives with `records.location`. A TypeError leaves the
     * state as it was and is returned.
     */
    method ReceiveCurrentWeather(location: seq<CurrentWeather.ObservationLocation>) returns (r: Result<()>)
      modifies this
      ensures match CurrentWeather.HandleObservation(old(currentElement), location)
        case Ok(next) => r == Ok(()) && currentElement == next
        case Err(e) => r == Err(e) && currentElement == old(currentElement)
    {
      if |location| == 0 {
        return Err(CannotReadProperty("weatherElement"));
      }
      var locationData := location[0];
      var weatherElements := CurrentWeather.Extract(locationData.weatherElement);
      currentElement := CurrentWeather.ApplyObservation(currentElement, locationData, weatherElements);
      r := Ok(());
    }

    /**
     * The forecast response arrives with `records.location`; the corrected reduce is used.
     * A TypeError leaves the state as it was and is returned.
     */
    method ReceiveWeatherForecast(location: seq<WeatherForecast.ForecastLocation>) returns (r: Result<()>)
      modifies this
      ensures match WeatherForecast.HandleForecast(old(currentElement), location)
        case Ok(next) => r == Ok(()) && currentElement == next
        case Err(e) => r == Err(e) && currentElement == old(currentElement)
    {
      if |location| == 0 {
        return Err(CannotReadProperty("weatherElement"));
      }
      var weatherElements := WeatherForecast.Extract(location[0].weatherElement);
      if weatherElements.Err? {
        return Err(weatherElements.error);
      }
      var next := WeatherForecast.ApplyForecast(currentElement, weatherElements.value);
      if next.Err? {
        return Err(next.error);
      }
      currentElement := next.value;
      r := Ok(());
    }
  }

  /**
   * The two responses write disjoint fields, so the order in which they land does not
   * matter: both orders succeed or fail together and end in the same state.
   */
  lemma ArrivalOrderIrrelevant(
    prev: DisplayState,
    observation: seq<CurrentWeather.ObservationLocation>,
    forecast: seq<WeatherForecast.ForecastLocation>)
    ensures var a := CurrentWeather.HandleObservation(prev, observation);
      var b := WeatherForecast.HandleForecast(prev, forecast);
      && (a.Ok? ==> WeatherForecast.HandleForecast(a.value, forecast).Ok? == b.Ok?)
      && (b.Ok? ==> CurrentWeather.HandleObservation(b.value, observation).Ok? == a.Ok?)
      && (a.Ok? && b.Ok? ==>
        WeatherForecast.HandleForecast(a.value, forecast) == CurrentWeather.HandleObservation(b.value, observation))
  {
  }

  /** Last write wins: a later observation response overwrites everything an earlier one wrote. */
  lemma LaterObservationWins(
    prev: DisplayState,
    older: seq<CurrentWeather.ObservationLocation>,
    newer: seq<CurrentWeather.ObservationLocation>)
    requires |older| > 0
    ensures var mid := CurrentWeather.HandleObservation(prev, older).value;
      CurrentWeather.HandleObservation(mid, newer) == CurrentWeather.HandleObservation(prev, newer)
  {
  }

  /** The forecast response never clears the loading flag that a refresh set. */
  lemma ForecastKeepsLoading(prev: DisplayState, forecast: seq<WeatherForecast.ForecastLocation>)
    ensures var r := WeatherForecast.HandleForecast(CurrentWeather.StartRefresh(prev), forecast);
      r.Ok? ==> r.value.isLoading
  {
  }

  /** A refresh followed by its observation response ends with isLoading false, as if no refresh had started. */
  lemma RefreshCycle(prev: DisplayState, observation: seq<CurrentWeather.ObservationLocation>)
    ensures CurrentWeather.HandleObservation(CurrentWeather.StartRefresh(prev), observation) ==
      CurrentWeather.HandleObservation(prev, observation)
    ensures CurrentWeather.HandleObservation(CurrentWeather.StartRefresh(prev), observation).Ok? ==>
      !CurrentWeather.HandleObservation(CurrentWeather.StartRefresh(prev), observation).value.isLoading
  {
  }
}
