/**
 * `fetchWeatherForecast`: the reduce that keeps the first time slot's parameter of the
 * Wx, PoP and CI entries of the forecast response, and the update that copies the CI and
 * PoP parameter names into the display state.
 *
 * The source calls reduce without an initial value, so the accumulator is element 0
 * itself and the callback never sees element 0. Both that reduce (FoldAsWritten) and the
 * one with an empty initial object (Fold) are modelled; the widget uses Fold.
 */
module WeatherForecast {
  import opened Js
  import opened Display

  datatype Parameter = Parameter(parameterName: string)

  /** One entry of an element's `time` list; only its `parameter` is read. */
  datatype TimeSlot = TimeSlot(parameter: Parameter)

  /** One entry of `weatherElement` in the forecast response. */
  datatype ForecastElement = ForecastElement(elementName: string, time: seq<TimeSlot>)

  /** `records.location[i]`. */
  datatype ForecastLocation = ForecastLocation(weatherElement: seq<ForecastElement>)

  /**
   * The reduce accumulator object. `seed` is the array element it started as (None for a
   * fresh `{}`); `kept` holds the properties the callback assigned. An element's own
   * properties are `elementName` and `time`, never an allow-listed name, so reading Wx,
   * PoP or CI from the accumulator only ever finds `kept`.
   */
  datatype NeededElements = NeededElements(seed: Option<ForecastElement>, kept: map<string, Parameter>)

  /** The allow-list of the forecast reduce. */
  const FORECAST_NAMES: set<string> := {"Wx", "PoP", "CI"}

  const EMPTY: NeededElements := NeededElements(None, map[])

  /** An allow-listed element with no time slot: reading `time[0].parameter` throws. */
  predicate Unreadable(item: ForecastElement) {
    item.elementName in FORECAST_NAMES && |item.time| == 0
  }

  /**
   * The reduce callback. A thrown TypeError ends the reduce, so an error accumulator
   * passes through unchanged.
   */
  function Keep(acc: Result<NeededElements>, item: ForecastElement): (r: Result<NeededElements>)
    ensures acc.Err? || item.elementName !in FORECAST_NAMES ==> r == acc
    ensures acc.Ok? && Unreadable(item) ==> r == Err(CannotReadProperty("parameter"))
    ensures acc.Ok? && item.elementName in FORECAST_NAMES && |item.time| > 0 ==>
      && r.Ok? && r.value.seed == acc.value.seed
      && item.elementName in r.value.kept && r.value.kept[item.elementName] == item.time[0].parameter
      && forall name :: name != item.elementName ==>
           (name in r.value.kept <==> name in acc.value.kept) &&
           (name in acc.value.kept ==> r.value.kept[name] == acc.value.kept[name])
  {
    if acc.Err? || item.elementName !in FORECAST_NAMES then acc
    else if |item.time| == 0 then Err(CannotReadProperty("parameter"))
    else Ok(acc.value.(kept := acc.value.kept[item.elementName := item.time[0].parameter]))
  }

  /** Element 0 used as the accumulator object. */
  function Seed(item: ForecastElement): Result<NeededElements> {
    Ok(NeededElements(Some(item), map[]))
  }

  /**
   * `weatherElement.reduce(Keep, {})`: the corrected reduce. Its result is a fresh object
   * holding only allow-listed names; FoldOutcome and ReduceLastWins say which.
   */
  function Fold(weatherElement: seq<ForecastElement>): (r: Result<NeededElements>)
    ensures r.Ok? ==> r.value.seed == None && r.value.kept.Keys <= FORECAST_NAMES
  {
    ReduceShape(weatherElement, EMPTY);
    Reduce(weatherElement, Keep, Ok(EMPTY))
  }

  /**
   * `weatherElement.reduce(Keep)`: the reduce as written, with no initial value. An empty
   * list throws, and the result object is element 0 itself; AsWrittenOutcome says which
   * names it holds.
   */
  function FoldAsWritten(weatherElement: seq<ForecastElement>): (r: Result<NeededElements>)
    ensures |weatherElement| == 0 ==> r == Err(ReduceOfEmptyArray)
    ensures |weatherElement| > 0 && r.Ok? ==>
      r.value.seed == Some(weatherElement[0]) && r.value.kept.Keys <= FORECAST_NAMES
  {
    if |weatherElement| > 0 then
      ReduceShape(weatherElement[1..], NeededElements(Some(weatherElement[0]), map[]));
      ReduceNoInit(weatherElement, Seed, Keep).value
    else
      Err(ReduceNoInit(weatherElement, Seed, Keep).error)
  }

  predicate HasName(s: seq<ForecastElement>, name: string) {
    exists i :: 0 <= i < |s| && s[i].elementName == name
  }

  predicate HasUnreadable(s: seq<ForecastElement>) {
    exists i :: 0 <= i < |s| && Unreadable(s[i])
  }

  predicate IsLast(s: seq<ForecastElement>, i: int)
    requires 0 <= i < |s|
  {
    forall j :: i < j < |s| ==> s[j].elementName != s[i].elementName
  }

  /** Replace the accumulator's seed, leaving an error as it is. */
  function WithSeed(r: Result<NeededElements>, seed: Option<ForecastElement>): Result<NeededElements> {
    if r.Ok? then Ok(r.value.(seed := seed)) else r
  }

  /** The corrected reduce as a loop that assigns into a fresh object and stops at a throw. */
  method Extract(weatherElement: seq<ForecastElement>) returns (r: Result<NeededElements>)
    ensures r == Fold(weatherElement)
  {
    var neededElements := EMPTY;
    for i := 0 to |weatherElement|
      invariant Fold(weatherElement[..i]) == Ok(neededElements)
    {
      var item := weatherElement[i];
      assert weatherElement[..i + 1][..i] == weatherElement[..i];
      if item.elementName in FORECAST_NAMES {
        if |item.time| == 0 {
          ErrorPersists(weatherElement, i + 1, Ok(EMPTY));
          return Err(CannotReadProperty("parameter"));
        }
        neededElements := neededElements.(kept := neededElements.kept[item.elementName := item.time[0].parameter]);
      }
    }
    assert weatherElement[..|weatherElement|] == weatherElement;
    r := Ok(neededElements);
  }

  /** The reduce as written, as a loop: the accumulator starts as element 0 and the loop starts at index 1. */
  method ExtractAsWritten(weatherElement: seq<ForecastElement>) returns (r: Result<NeededElements>)
    ensures r == FoldAsWritten(weatherElement)
  {
    if |weatherElement| == 0 {
      return Err(ReduceOfEmptyArray);
    }
    var rest := weatherElement[1..];
    var neededElements := NeededElements(Some(weatherElement[0]), map[]);
    for i := 0 to |rest|
      invariant Reduce(rest[..i], Keep, Seed(weatherElement[0])) == Ok(neededElements)
    {
      var item := rest[i];
      assert rest[..i + 1][..i] == rest[..i];
      if item.elementName in FORECAST_NAMES {
        if |item.time| == 0 {
          ErrorPersists(rest, i + 1, Seed(weatherElement[0]));
          return Err(CannotReadProperty("parameter"));
        }
        neededElements := neededElements.(kept := neededElements.kept[item.elementName := item.time[0].parameter]);
      }
    }
    assert rest[..|rest|] == rest;
    r := Ok(neededElements);
  }

  /** Once the callback has thrown, the rest of the array changes nothing. */
  lemma {:induction false} ErrorSticks(s: seq<ForecastElement>, e: Error)
    ensures Reduce(s, Keep, Err(e)) == Err(e)
    decreases |s|
  {
    if |s| > 0 {
      ErrorSticks(s[..|s| - 1], e);
    }
  }

  lemma ErrorPersists(s: seq<ForecastElement>, i: int, init: Result<NeededElements>)
    requires 0 <= i <= |s| && Reduce(s[..i], Keep, init).Err?
    ensures Reduce(s, Keep, init) == Reduce(s[..i], Keep, init)
  {
    assert s == s[..i] + s[i..];
    ReduceAppend(s[..i], s[i..], Keep, init);
    ErrorSticks(s[i..], Reduce(s[..i], Keep, init).error);
  }

  /**
   * From an accumulator `n`: the reduce throws exactly when some allow-listed element has
   * no time slot; otherwise it keeps the seed, and a name is a key exactly when it was a
   * key of `n` or is allow-listed and carried by some element.
   */
  lemma {:induction false} ReduceOutcome(s: seq<ForecastElement>, n: NeededElements, name: string)
    ensures var r := Reduce(s, Keep, Ok(n));
      && (r.Err? <==> HasUnreadable(s))
      && (r.Err? ==> r.error == CannotReadProperty("parameter"))
      && (r.Ok? ==> r.value.seed == n.seed)
      && (r.Ok? ==> (name in r.value.kept <==> name in n.kept || (name in FORECAST_NAMES && HasName(s, name))))
    decreases |s|
  {
    if |s| > 0 {
      var front := s[..|s| - 1];
      var last := s[|s| - 1];
      ReduceOutcome(front, n, name);
      assert forall i :: 0 <= i < |front| ==> front[i] == s[i];
      if HasUnreadable(s) && !Unreadable(last) {
        var i :| 0 <= i < |s| && Unreadable(s[i]);
        assert Unreadable(front[i]);
      }
      if HasName(s, name) && last.elementName != name {
        var i :| 0 <= i < |s| && s[i].elementName == name;
        assert front[i].elementName == name;
      }
    }
  }

  /** The reduce keeps the seed and adds only allow-listed names. */
  lemma ReduceShape(s: seq<ForecastElement>, n: NeededElements)
    ensures var r := Reduce(s, Keep, Ok(n));
      r.Ok? ==> r.value.seed == n.seed && r.value.kept.Keys <= n.kept.Keys + FORECAST_NAMES
  {
    forall name {
      ReduceOutcome(s, n, name);
    }
  }

  /** A kept name holds the parameter of its last element. */
  lemma {:induction false} ReduceLastWins(s: seq<ForecastElement>, n: NeededElements, i: int)
    requires 0 <= i < |s| && s[i].elementName in FORECAST_NAMES && IsLast(s, i)
    requires Reduce(s, Keep, Ok(n)).Ok?
    ensures |s[i].time| > 0
    ensures s[i].elementName in Reduce(s, Keep, Ok(n)).value.kept
    ensures Reduce(s, Keep, Ok(n)).value.kept[s[i].elementName] == s[i].time[0].parameter
    decreases |s|
  {
    if i < |s| - 1 {
      ReduceLastWins(s[..|s| - 1], n, i);
    }
  }

  /** The reduce never looks at the seed. */
  lemma {:induction false} ReduceSeedIrrelevant(s: seq<ForecastElement>, n: NeededElements, seed: Option<ForecastElement>)
    ensures Reduce(s, Keep, Ok(n.(seed := seed))) == WithSeed(Reduce(s, Keep, Ok(n)), seed)
    decreases |s|
  {
    if |s| > 0 {
      ReduceSeedIrrelevant(s[..|s| - 1], n, seed);
    }
  }

  /** The corrected reduce: throws exactly on an unreadable element, else keeps exactly the allow-listed names present. */
  lemma FoldOutcome(s: seq<ForecastElement>)
    ensures Fold(s).Err? <==> HasUnreadable(s)
    ensures Fold(s).Err? ==> Fold(s).error == CannotReadProperty("parameter")
    ensures Fold(s).Ok? ==> Fold(s).value.seed == None
    ensures Fold(s).Ok? ==> forall name :: name in Fold(s).value.kept <==> name in FORECAST_NAMES && HasName(s, name)
  {
    forall name {
      ReduceOutcome(s, EMPTY, name);
    }
  }

  /** The reduce as written is the corrected reduce over elements 1 .. |s|-1, seeded with element 0. */
  lemma AsWrittenFoldsTail(s: seq<ForecastElement>)
    requires |s| > 0
    ensures FoldAsWritten(s) == WithSeed(Fold(s[1..]), Some(s[0]))
  {
    ReduceSeedIrrelevant(s[1..], EMPTY, Some(s[0]));
    assert EMPTY.(seed := Some(s[0])) == NeededElements(Some(s[0]), map[]);
  }

  /**
   * The reduce as written: an empty array throws; otherwise the result is element 0
   * itself, element 0 is never checked, and a name is kept exactly when it is allow-listed
   * and carried by an element at index 1 or later.
   */
  lemma AsWrittenOutcome(s: seq<ForecastElement>)
    ensures |s| == 0 ==> FoldAsWritten(s) == Err(ReduceOfEmptyArray)
    ensures |s| > 0 ==> (FoldAsWritten(s).Err? <==> HasUnreadable(s[1..]))
    ensures |s| > 0 && FoldAsWritten(s).Err? ==> FoldAsWritten(s).error == CannotReadProperty("parameter")
    ensures |s| > 0 && FoldAsWritten(s).Ok? ==> FoldAsWritten(s).value.seed == Some(s[0])
    ensures |s| > 0 && FoldAsWritten(s).Ok? ==>
      forall name :: name in FoldAsWritten(s).value.kept <==> name in FORECAST_NAMES && HasName(s[1..], name)
  {
    if |s| > 0 {
      AsWrittenFoldsTail(s);
      FoldOutcome(s[1..]);
    }
  }

  /** An allow-listed element 0 with no later namesake is lost: e.g. a leading Wx is never stored under Wx. */
  lemma AsWrittenDropsHead(s: seq<ForecastElement>)
    requires |s| > 0 && s[0].elementName in FORECAST_NAMES && IsLast(s, 0)
    requires FoldAsWritten(s).Ok?
    ensures s[0].elementName !in FoldAsWritten(s).value.kept
    ensures Fold(s).Ok? ==> s[0].elementName in Fold(s).value.kept
  {
    AsWrittenOutcome(s);
    FoldOutcome(s);
    var tail := s[1..];
    forall i | 0 <= i < |tail|
      ensures tail[i].elementName != s[0].elementName
    {
      assert tail[i] == s[i + 1];
    }
    assert !HasName(tail, s[0].elementName);
  }

  /**
   * When element 0 is not allow-listed, the missing initial value does no harm beyond the
   * seed: the instance of Js.ReduceNoInitAgrees for this callback, up to the seed.
   */
  lemma AsWrittenHarmlessWhenHeadUnwanted(s: seq<ForecastElement>)
    requires |s| > 0 && s[0].elementName !in FORECAST_NAMES
    ensures FoldAsWritten(s) == WithSeed(Fold(s), Some(s[0]))
  {
    AsWrittenFoldsTail(s);
    ReduceHeadFirst(s, Keep, Ok(EMPTY));
  }

  /**
   * The update after the response: description and rainPossibility take the CI and PoP
   * parameter names; reading either of a missing entry throws. Nothing else changes: with
   * Display.FieldGroupsCoverState the ensures determine the whole new record.
   */
  function ApplyForecast(prev: DisplayState, weatherElements: NeededElements): (r: Result<DisplayState>)
    ensures r.Ok? <==> "CI" in weatherElements.kept && "PoP" in weatherElements.kept
    ensures r.Err? ==> r.error == CannotReadProperty("parameterName")
    ensures r.Ok? ==> r.value.description == weatherElements.kept["CI"].parameterName
    ensures r.Ok? ==> r.value.rainPossibility == Text(weatherElements.kept["PoP"].parameterName)
    ensures r.Ok? ==> SameObservationFields(prev, r.value) && SameUnownedFields(prev, r.value)
    ensures r.Ok? ==> r.value.isLoading == prev.isLoading
  {
    if "CI" !in weatherElements.kept || "PoP" !in weatherElements.kept then Err(CannotReadProperty("parameterName"))
    else Ok(prev.(
      description := weatherElements.kept["CI"].parameterName,
      rainPossibility := Text(weatherElements.kept["PoP"].parameterName)))
  }

  /**
   * The response callback with the corrected reduce: it reads the first location and
   * succeeds exactly when every wanted element there has a time slot and both CI and PoP
   * occur. Only description and rainPossibility can change.
   */
  function HandleForecast(prev: DisplayState, location: seq<ForecastLocation>): (r: Result<DisplayState>)
    ensures |location| == 0 ==> r == Err(CannotReadProperty("weatherElement"))
    ensures |location| > 0 ==> var s := location[0].weatherElement;
      && (r.Ok? <==> !HasUnreadable(s) && HasName(s, "CI") && HasName(s, "PoP"))
      && (HasUnreadable(s) ==> r == Err(CannotReadProperty("parameter")))
      && (!HasUnreadable(s) && r.Err? ==> r == Err(CannotReadProperty("parameterName")))
    ensures r.Ok? ==> SameObservationFields(prev, r.value) && SameUnownedFields(prev, r.value)
    ensures r.Ok? ==> r.value.isLoading == prev.isLoading
  {
    if |location| == 0 then Err(CannotReadProperty("weatherElement"))
    else
      FoldOutcome(location[0].weatherElement);
      var weatherElements :- Fold(location[0].weatherElement);
      ApplyForecast(prev, weatherElements)
  }

  /**
   * The response callback as written: on the first location's elements `s`, an empty `s`
   * throws, and otherwise it succeeds exactly when the conditions of HandleForecast hold
   * of `s[1..]`, element 0 never being looked at.
   */
  function HandleForecastAsWritten(prev: DisplayState, location: seq<ForecastLocation>): (r: Result<DisplayState>)
    ensures |location| == 0 ==> r == Err(CannotReadProperty("weatherElement"))
    ensures |location| > 0 && |location[0].weatherElement| == 0 ==> r == Err(ReduceOfEmptyArray)
    ensures |location| > 0 && |location[0].weatherElement| > 0 ==> var s := location[0].weatherElement;
      && (r.Ok? <==> !HasUnreadable(s[1..]) && HasName(s[1..], "CI") && HasName(s[1..], "PoP"))
      && (HasUnreadable(s[1..]) ==> r == Err(CannotReadProperty("parameter")))
      && (!HasUnreadable(s[1..]) && r.Err? ==> r == Err(CannotReadProperty("parameterName")))
    ensures r.Ok? ==> SameObservationFields(prev, r.value) && SameUnownedFields(prev, r.value)
    ensures r.Ok? ==> r.value.isLoading == prev.isLoading
  {
    if |location| == 0 then Err(CannotReadProperty("weatherElement"))
    else
      AsWrittenOutcome(location[0].weatherElement);
      var weatherElements :- FoldAsWritten(location[0].weatherElement);
      ApplyForecast(prev, weatherElements)
  }

  /** Only the first location of `records.location` is read; the rest never matter. */
  lemma ForecastFirstLocation(prev: DisplayState, location: seq<ForecastLocation>)
    requires |location| > 0
    ensures HandleForecast(prev, location) == HandleForecast(prev, [location[0]])
    ensures HandleForecastAsWritten(prev, location) == HandleForecastAsWritten(prev, [location[0]])
  {
  }

  /** Every allow-listed element has a time slot, c is the last CI and p the last PoP. */
  predicate WellFormed(s: seq<ForecastElement>, c: int, p: int) {
    && (forall i :: 0 <= i < |s| ==> !Unreadable(s[i]))
    && 0 <= c < |s| && s[c].elementName == "CI" && IsLast(s, c)
    && 0 <= p < |s| && s[p].elementName == "PoP" && IsLast(s, p)
  }

  /** With the corrected reduce, CI and PoP are read wherever they stand in the list. */
  lemma ForecastAnyOrder(prev: DisplayState, location: seq<ForecastLocation>, c: int, p: int)
    requires |location| > 0 && WellFormed(location[0].weatherElement, c, p)
    ensures var s := location[0].weatherElement;
      HandleForecast(prev, location) == Ok(prev.(
        description := s[c].time[0].parameter.parameterName,
        rainPossibility := Text(s[p].time[0].parameter.parameterName)))
  {
    var s := location[0].weatherElement;
    FoldOutcome(s);
    ReduceLastWins(s, EMPTY, c);
    ReduceLastWins(s, EMPTY, p);
  }

  /**
   * As written, the callback is the corrected one on the first location's elements 1
   * onward: element 0 is never read, even when it is a wanted element with no time slot.
   */
  lemma AsWrittenIsCorrectedOnTail(prev: DisplayState, location: seq<ForecastLocation>)
    requires |location| > 0 && |location[0].weatherElement| > 0
    ensures HandleForecastAsWritten(prev, location) ==
      HandleForecast(prev, [ForecastLocation(location[0].weatherElement[1..])])
  {
    AsWrittenFoldsTail(location[0].weatherElement);
  }

  /** As written, the same list throws as soon as CI or PoP stands first, and otherwise agrees. */
  lemma AsWrittenAnyOrder(prev: DisplayState, location: seq<ForecastLocation>, c: int, p: int)
    requires |location| > 0 && WellFormed(location[0].weatherElement, c, p)
    ensures HandleForecastAsWritten(prev, location) ==
      if c == 0 || p == 0 then Err(CannotReadProperty("parameterName"))
      else HandleForecast(prev, location)
  {
    var s := location[0].weatherElement;
    ForecastAnyOrder(prev, location, c, p);
    AsWrittenOutcome(s);
    AsWrittenFoldsTail(s);
    FoldOutcome(s[1..]);
    var tail := s[1..];
    assert !HasUnreadable(tail) by {
      forall i | 0 <= i < |tail| ensures !Unreadable(tail[i]) {
        assert tail[i] == s[i + 1];
      }
    }
    if c == 0 {
      AsWrittenDropsHead(s);
    } else if p == 0 {
      AsWrittenDropsHead(s);
    } else {
      ReduceLastWins(tail, EMPTY, c - 1);
      ReduceLastWins(tail, EMPTY, p - 1);
    }
  }

  /** The worked example: Wx, PoP and CI in the order the service sends them. */
  lemma ForecastExample(prev: DisplayState)
    ensures var s := [
        ForecastElement("Wx", [TimeSlot(Parameter("多雲"))]),
        ForecastElement("PoP", [TimeSlot(Parameter("48"))]),
        ForecastElement("CI", [TimeSlot(Parameter("舒適"))])];
      && HandleForecast(prev, [ForecastLocation(s)]) == Ok(prev.(description := "舒適", rainPossibility := Text("48")))
      && HandleForecastAsWritten(prev, [ForecastLocation(s)]) == HandleForecast(prev, [ForecastLocation(s)])
  {
    var s := [
      ForecastElement("Wx", [TimeSlot(Parameter("多雲"))]),
      ForecastElement("PoP", [TimeSlot(Parameter("48"))]),
      ForecastElement("CI", [TimeSlot(Parameter("舒適"))])];
    assert WellFormed(s, 2, 1);
    ForecastAnyOrder(prev, [ForecastLocation(s)], 2, 1);
    AsWrittenAnyOrder(prev, [ForecastLocation(s)], 2, 1);
    assert s[2].time[0].parameter.parameterName == "舒適";
    assert s[1].time[0].parameter.parameterName == "48";
  }

  /** The defect: with CI first the reduce as written loses it and reading `CI.parameterName` throws. */
  lemma ComfortFirstThrows(prev: DisplayState)
    ensures var s := [
        ForecastElement("CI", [TimeSlot(Parameter("舒適"))]),
        ForecastElement("PoP", [TimeSlot(Parameter("48"))])];
      && HandleForecastAsWritten(prev, [ForecastLocation(s)]) == Err(CannotReadProperty("parameterName"))
      && HandleForecast(prev, [ForecastLocation(s)]) == Ok(prev.(description := "舒適", rainPossibility := Text("48")))
  {
    var s := [
      ForecastElement("CI", [TimeSlot(Parameter("舒適"))]),
      ForecastElement("PoP", [TimeSlot(Parameter("48"))])];
    assert WellFormed(s, 0, 1);
    ForecastAnyOrder(prev, [ForecastLocation(s)], 0, 1);
    AsWrittenAnyOrder(prev, [ForecastLocation(s)], 0, 1);
    assert s[0].time[0].parameter.parameterName == "舒適";
    assert s[1].time[0].parameter.parameterName == "48";
  }
}
