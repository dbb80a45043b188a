/**
 * The widget's display state: the record that App keeps with `useState` and that the two
 * fetch callbacks replace, each by spreading the previous state and overriding its own fields.
 */
module Display {
  import opened Js

  /**
   * `currentElement`. The numeric fields start as numbers and later hold the strings
   * copied from the responses (or undefined), so they are dynamically typed Values.
   */
  datatype DisplayState = DisplayState(
    locationName: string,
    description: string,
    rainPossibility: Value,
    temperature: Value,
    windSpeed: Value,
    observationTime: Value,
    isLoading: bool,
    comfortability: string,
    weatherCode: int)

  /** The state before any response: `now` stands for the clock reading taken by `new Date()`. */
  function InitialState(now: int): (r: DisplayState)
    ensures r.isLoading
    ensures r.locationName == "" && r.description == ""
    ensures r.windSpeed == Number(0) && r.temperature == Number(0) && r.rainPossibility == Number(0)
    ensures r.observationTime == Instant(now)
    ensures r.comfortability == "" && r.weatherCode == 0
  {
    DisplayState(
      locationName := "",
      description := "",
      rainPossibility := Number(0),
      temperature := Number(0),
      windSpeed := Number(0),
      observationTime := Instant(now),
      isLoading := true,
      comfortability := "",
      weatherCode := 0)
  }

  /** The fields the current-observation response owns. */
  predicate SameObservationFields(a: DisplayState, b: DisplayState) {
    && a.locationName == b.locationName
    && a.windSpeed == b.windSpeed
    && a.temperature == b.temperature
    && a.observationTime == b.observationTime
  }

  /** The fields the forecast response owns. */
  predicate SameForecastFields(a: DisplayState, b: DisplayState) {
    a.description == b.description && a.rainPossibility == b.rainPossibility
  }

  /** The fields no callback ever writes. */
  predicate SameUnownedFields(a: DisplayState, b: DisplayState) {
    a.comfortability == b.comfortability && a.weatherCode == b.weatherCode
  }

  /**
   * The field groups together with isLoading cover the whole record, so an update whose
   * ensures fix some groups and leave the others equal determines the new state.
   */
  lemma FieldGroupsCoverState(a: DisplayState, b: DisplayState)
    requires SameObservationFields(a, b) && SameForecastFields(a, b) && SameUnownedFields(a, b)
    requires a.isLoading == b.isLoading
    ensures a == b
  {
  }
}
