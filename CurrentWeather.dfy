/**
 * `fetchCurrentWeather`: the loading flag set before the request, the reduce that keeps
 * the wind speed (WDSD) and temperature (TEMP) entries of the observation response, and
 * the update that merges them into the display state.
 */
module CurrentWeather {
  import opened Js
  import opened Display

  /** One entry of `weatherElement` in the observation response. */
  datatype ObservationElement = ObservationElement(elementName: string, elementValue: string)

  /** `records.location[i]`: its name, `time.obsTime`, and its entries. */
  datatype ObservationLocation = ObservationLocation(
    locationName: string,
    obsTime: string,
    weatherElement: seq<ObservationElement>)

  /** The allow-list of the observation reduce. */
  const OBSERVATION_NAMES: set<string> := {"WDSD", "TEMP"}

  /** The reduce callback: copy the entry under its name when that name is allowed. */
  function Keep(prev: map<string, string>, curr: ObservationElement): (r: map<string, string>)
    ensures curr.elementName !in OBSERVATION_NAMES ==> r == prev
    ensures curr.elementName in OBSERVATION_NAMES ==>
      && curr.elementName in r && r[curr.elementName] == curr.elementValue
      && forall name :: name != curr.elementName ==>
           (name in r <==> name in prev) && (name in prev ==> r[name] == prev[name])
  {
    if curr.elementName in OBSERVATION_NAMES then prev[curr.elementName := curr.elementValue] else prev
  }

  /**
   * `weatherElement.reduce(Keep, {})`: a fresh object holding only WDSD and TEMP;
   * FoldHasKey and FoldLastWins say which of them and with what value.
   */
  function Fold(weatherElement: seq<ObservationElement>): (r: map<string, string>)
    ensures r.Keys <= OBSERVATION_NAMES
    ensures |weatherElement| == 0 ==> r == map[]
  {
    ReduceKeysWithin(weatherElement, map[]);
    Reduce(weatherElement, Keep, map[])
  }

  /** The callback adds only allow-listed keys to whatever accumulator it starts from. */
  lemma {:induction false} ReduceKeysWithin(s: seq<ObservationElement>, init: map<string, string>)
    ensures Reduce(s, Keep, init).Keys <= init.Keys + OBSERVATION_NAMES
    decreases |s|
  {
    if |s| > 0 {
      ReduceKeysWithin(s[..|s| - 1], init);
    }
  }

  /** Some entry of `s` is named `name`. */
  predicate HasName(s: seq<ObservationElement>, name: string) {
    exists i :: 0 <= i < |s| && s[i].elementName == name
  }

  /** No entry after index `i` has the name of entry `i`. */
  predicate IsLast(s: seq<ObservationElement>, i: int)
    requires 0 <= i < |s|
  {
    forall j :: i < j < |s| ==> s[j].elementName != s[i].elementName
  }

  /** Every name occurs at most once in `s`. */
  predicate DistinctNames(s: seq<ObservationElement>) {
    forall i, j :: 0 <= i < j < |s| ==> s[i].elementName != s[j].elementName
  }

  /** The reduce as the source runs it: one pass that assigns into a fresh object. */
  method Extract(weatherElement: seq<ObservationElement>) returns (weatherElements: map<string, string>)
    ensures weatherElements == Fold(weatherElement)
    ensures weatherElements.Keys <= OBSERVATION_NAMES
  {
    weatherElements := map[];
    for i := 0 to |weatherElement|
      invariant weatherElements == Fold(weatherElement[..i])
      invariant weatherElements.Keys <= OBSERVATION_NAMES
    {
      var curr := weatherElement[i];
      if curr.elementName in OBSERVATION_NAMES {
        weatherElements := weatherElements[curr.elementName := curr.elementValue];
      }
      assert weatherElement[..i + 1][..i] == weatherElement[..i];
    }
    assert weatherElement[..|weatherElement|] == weatherElement;
  }

  /** A name is a key of the result exactly when it is allowed and some entry carries it. */
  lemma {:induction false} FoldHasKey(s: seq<ObservationElement>, name: string)
    ensures name in Fold(s) <==> name in OBSERVATION_NAMES && HasName(s, name)
    decreases |s|
  {
    if |s| > 0 {
      var front := s[..|s| - 1];
      FoldHasKey(front, name);
      if HasName(front, name) {
        var i :| 0 <= i < |front| && front[i].elementName == name;
        assert s[i] == front[i];
      }
      if HasName(s, name) && s[|s| - 1].elementName != name {
        var i :| 0 <= i < |s| && s[i].elementName == name;
        assert front[i] == s[i];
      }
    }
  }

  /** Only WDSD and TEMP can be keys; every other entry is dropped, and a missing one leaves its key absent. */
  lemma FoldKeys(s: seq<ObservationElement>)
    ensures Fold(s).Keys <= OBSERVATION_NAMES
    ensures forall name :: name in Fold(s) <==> name in OBSERVATION_NAMES && HasName(s, name)
  {
    forall name {
      FoldHasKey(s, name);
    }
  }

  /** A kept name maps to the value of its last entry: later duplicates overwrite earlier ones. */
  lemma {:induction false} FoldLastWins(s: seq<ObservationElement>, i: int)
    requires 0 <= i < |s| && s[i].elementName in OBSERVATION_NAMES && IsLast(s, i)
    ensures s[i].elementName in Fold(s) && Fold(s)[s[i].elementName] == s[i].elementValue
    decreases |s|
  {
    if i < |s| - 1 {
      var front := s[..|s| - 1];
      FoldLastWins(front, i);
    }
  }

  /** Two equal entries at distinct indices make that value occur at least twice in the multiset. */
  lemma {:induction false} CountTwo<T>(t: seq<T>, i: int, j: int)
    requires 0 <= i < j < |t|
    ensures t[i] == t[j] ==> multiset(t)[t[i]] >= 2
  {
    assert t == t[..i] + [t[i]] + t[i + 1..j] + [t[j]] + t[j + 1..];
  }

  /** With distinct names, every entry occurs at most once in the multiset. */
  lemma {:induction false} CountAtMostOne(s: seq<ObservationElement>, x: ObservationElement)
    requires DistinctNames(s)
    ensures multiset(s)[x] <= 1
    decreases |s|
  {
    if |s| > 0 {
      var front := s[..|s| - 1];
      assert s == front + [s[|s| - 1]];
      CountAtMostOne(front, x);
      forall k | 0 <= k < |front|
        ensures front[k] != s[|s| - 1]
      {
        assert s[k].elementName != s[|s| - 1].elementName;
      }
    }
  }

  lemma DistinctNamesPermuted(s: seq<ObservationElement>, t: seq<ObservationElement>)
    requires DistinctNames(s) && multiset(s) == multiset(t)
    ensures DistinctNames(t)
  {
    forall i, j | 0 <= i < j < |t|
      ensures t[i].elementName != t[j].elementName
    {
      CountTwo(t, i, j);
      CountAtMostOne(s, t[i]);
      assert t[i] in multiset(s) && t[j] in multiset(s);
      var a :| 0 <= a < |s| && s[a] == t[i];
      var b :| 0 <= b < |s| && s[b] == t[j];
      if a < b {
        assert s[a].elementName != s[b].elementName;
      } else {
        assert s[b].elementName != s[a].elementName;
      }
    }
  }

  /** When each name occurs once, the result does not depend on the order of the entries. */
  lemma FoldOrderFree(s: seq<ObservationElement>, t: seq<ObservationElement>)
    requires DistinctNames(s) && multiset(s) == multiset(t)
    ensures Fold(s) == Fold(t)
  {
    DistinctNamesPermuted(s, t);
    FoldKeys(s);
    FoldKeys(t);
    forall name ensures HasName(s, name) <==> HasName(t, name) {
      if HasName(s, name) {
        var i :| 0 <= i < |s| && s[i].elementName == name;
        assert s[i] in multiset(t);
      }
      if HasName(t, name) {
        var j :| 0 <= j < |t| && t[j].elementName == name;
        assert t[j] in multiset(s);
      }
    }
    forall name | name in Fold(s)
      ensures name in Fold(t) && Fold(s)[name] == Fold(t)[name]
    {
      var i :| 0 <= i < |s| && s[i].elementName == name;
      assert s[i] in multiset(t);
      var j :| 0 <= j < |t| && t[j] == s[i];
      FoldLastWins(s, i);
      FoldLastWins(t, j);
    }
  }

  /**
   * The refresh-start update: only isLoading changes, to true. With
   * Display.FieldGroupsCoverState the ensures determine the whole new record.
   */
  function StartRefresh(prev: DisplayState): (next: DisplayState)
    ensures next.isLoading
    ensures SameObservationFields(prev, next) && SameForecastFields(prev, next) && SameUnownedFields(prev, next)
  {
    prev.(isLoading := true)
  }

  /**
   * The update after the response: the location name, `WDSD`, `TEMP` and `time.obsTime`
   * replace their fields, isLoading becomes false, and the forecast and unowned fields stay;
   * with Display.FieldGroupsCoverState the ensures determine the whole new record.
   */
  function ApplyObservation(prev: DisplayState, location: ObservationLocation, weatherElements: map<string, string>): (next: DisplayState)
    ensures next.locationName == location.locationName && next.observationTime == Text(location.obsTime)
    ensures next.windSpeed == Get(weatherElements, "WDSD") && next.temperature == Get(weatherElements, "TEMP")
    ensures !next.isLoading
    ensures SameForecastFields(prev, next) && SameUnownedFields(prev, next)
  {
    prev.(
      locationName := location.locationName,
      windSpeed := Get(weatherElements, "WDSD"),
      temperature := Get(weatherElements, "TEMP"),
      observationTime := Text(location.obsTime),
      isLoading := false)
  }

  /**
   * The response callback on `records.location`: reading `weatherElement` of a missing
   * first location throws; otherwise its entries are reduced and merged into the state.
   */
  function HandleObservation(prev: DisplayState, location: seq<ObservationLocation>): (r: Result<DisplayState>)
    ensures r.Err? <==> |location| == 0
    ensures r.Err? ==> r.error == CannotReadProperty("weatherElement")
    ensures r.Ok? ==> && r.value.locationName == location[0].locationName
                      && r.value.observationTime == Text(location[0].obsTime)
                      && r.value.windSpeed.Undefined? == !HasName(location[0].weatherElement, "WDSD")
                      && r.value.temperature.Undefined? == !HasName(location[0].weatherElement, "TEMP")
                      && !r.value.isLoading
                      && SameForecastFields(prev, r.value) && SameUnownedFields(prev, r.value)
  {
    if |location| == 0 then Err(CannotReadProperty("weatherElement"))
    else
      FoldHasKey(location[0].weatherElement, "WDSD");
      FoldHasKey(location[0].weatherElement, "TEMP");
      Ok(ApplyObservation(prev, location[0], Fold(location[0].weatherElement)))
  }

  /** Only the first location of `records.location` is read; the rest never matter. */
  lemma ObservationFirstLocation(prev: DisplayState, location: seq<ObservationLocation>)
    requires |location| > 0
    ensures HandleObservation(prev, location) == HandleObservation(prev, [location[0]])
  {
  }

  /** The wind speed shown is the value of the last WDSD entry, whatever else the list holds. */
  lemma WindSpeedIsLastReading(prev: DisplayState, location: seq<ObservationLocation>, w: int)
    requires |location| > 0
    requires var s := location[0].weatherElement;
      0 <= w < |s| && s[w].elementName == "WDSD" && IsLast(s, w)
    ensures HandleObservation(prev, location).value.windSpeed == Text(location[0].weatherElement[w].elementValue)
  {
    FoldLastWins(location[0].weatherElement, w);
  }

  /** The temperature shown is the value of the last TEMP entry, whatever else the list holds. */
  lemma TemperatureIsLastReading(prev: DisplayState, location: seq<ObservationLocation>, t: int)
    requires |location| > 0
    requires var s := location[0].weatherElement;
      0 <= t < |s| && s[t].elementName == "TEMP" && IsLast(s, t)
    ensures HandleObservation(prev, location).value.temperature == Text(location[0].weatherElement[t].elementValue)
  {
    FoldLastWins(location[0].weatherElement, t);
  }

  /**
   * Wherever the last WDSD and last TEMP entries stand in the list, their values are what
   * the display shows, together with the location name and observation time.
   */
  lemma ObservationAnyOrder(prev: DisplayState, location: seq<ObservationLocation>, w: int, t: int)
    requires |location| > 0
    requires var s := location[0].weatherElement;
      && 0 <= w < |s| && s[w].elementName == "WDSD" && IsLast(s, w)
      && 0 <= t < |s| && s[t].elementName == "TEMP" && IsLast(s, t)
    ensures var first := location[0];
      HandleObservation(prev, location) == Ok(prev.(
        locationName := first.locationName,
        windSpeed := Text(first.weatherElement[w].elementValue),
        temperature := Text(first.weatherElement[t].elementValue),
        observationTime := Text(first.obsTime),
        isLoading := false))
  {
    WindSpeedIsLastReading(prev, location, w);
    TemperatureIsLastReading(prev, location, t);
  }

  /** A missing WDSD or TEMP entry makes that field undefined, whatever it held before. */
  lemma MissingReadingIsUndefined(prev: DisplayState, location: seq<ObservationLocation>)
    requires |location| > 0
    ensures var next := HandleObservation(prev, location).value;
      && (!HasName(location[0].weatherElement, "WDSD") ==> next.windSpeed == Undefined)
      && (!HasName(location[0].weatherElement, "TEMP") ==> next.temperature == Undefined)
  {
    FoldHasKey(location[0].weatherElement, "WDSD");
    FoldHasKey(location[0].weatherElement, "TEMP");
  }

  /** On the initial state a response without WDSD replaces the number 0 by undefined, not by 0. */
  lemma MissingReadingReplacesInitialZero(now: int, location: seq<ObservationLocation>)
    requires |location| > 0 && !HasName(location[0].weatherElement, "WDSD")
    ensures InitialState(now).windSpeed == Number(0)
    ensures HandleObservation(InitialState(now), location).value.windSpeed == Undefined
  {
    MissingReadingIsUndefined(InitialState(now), location);
  }

  /** The worked example: a Taipei observation with both readings. */
  lemma ObservationExample(prev: DisplayState)
    ensures HandleObservation(prev, [ObservationLocation("臺北市", "2022-12-12T14:00:00+08:00",
      [ObservationElement("WDSD", "3.50"), ObservationElement("TEMP", "23.70")])]) == Ok(prev.(
      locationName := "臺北市",
      windSpeed := Text("3.50"),
      temperature := Text("23.70"),
      observationTime := Text("2022-12-12T14:00:00+08:00"),
      isLoading := false))
  {
    var location := ObservationLocation("臺北市", "2022-12-12T14:00:00+08:00",
      [ObservationElement("WDSD", "3.50"), ObservationElement("TEMP", "23.70")]);
    ObservationAnyOrder(prev, [location], 0, 1);
  }
}
