# Weather widget response shaping, in Dafny

This project models the logic inside the React weather widget's `App` component
(`src/App.js`). There are two fetch callbacks. `fetchCurrentWeather` reduces the
observation response's `weatherElement` list to its wind speed (`WDSD`) and temperature
(`TEMP`) entries and merges them into the display state. `fetchWeatherForecast` reduces
the forecast response's list to the first time slot's `parameter` of its `Wx`, `PoP` and
`CI` entries, then copies the `CI` and `PoP` parameter names into the display state.

Modules:

- `Js` (Js.dfy): the JavaScript semantics the callbacks rely on.
  - The TypeErrors they can throw (`Error`, `Result`).
  - Dynamically typed state values (`Value`).
  - Reading a property that may be missing (`Get`).
  - `Array.prototype.reduce` with an initial value (`Reduce`) and without one
    (`ReduceNoInit`), following section 15.4.4.21 of ECMA-262, 5.1 edition.
- `Display` (Display.dfy): the `currentElement` record, its initial value, and the groups
  of fields each callback owns.
- `CurrentWeather` (CurrentWeather.dfy): the refresh-start update, the observation
  reduce (a loop method `Extract`, proved against the function `Fold`), and the update
  after the response.
- `WeatherForecast` (WeatherForecast.dfy): the forecast reduce as written, without an
  initial value (`ExtractAsWritten` / `FoldAsWritten`). It also holds the corrected
  reduce, which starts from `{}` (`Extract` / `Fold`), and the update after the response.
- `App` (App.dfy): the `useState` cell as a class `Widget` whose methods apply the three
  updates, plus lemmas about how the updates combine.

The source calls the forecast `reduce` without an initial value. Its accumulator is
therefore element 0 of the array itself, and the callback never checks element 0 against
the allow-list. The model keeps that element as the accumulator's `seed`. An element's own
properties (`elementName`, `time`) never collide with `Wx`, `PoP` or `CI`, so those reads
only see what the callback assigned (`kept`). `Widget` uses the corrected reduce; the
as-written one is kept so that the two can be compared (see Findings).

Three consequences of the code that the model makes explicit:

- With no initial value, an unwanted element 0 does no harm
  (`AsWrittenHarmlessWhenHeadUnwanted`), and a wanted element 0 is lost
  (`AsWrittenDropsHead`).
- Wind speed and temperature hold the response's strings, or `undefined` when an entry is
  missing; only the initial state holds the number 0.
- The as-written forecast reduce assigns properties onto element 0 of the parsed
  response (see Left out).

## Model

| member | source | states |
|---|---|---|
| `Js.Get` | src/App.js:190-191 | reading a missing property gives undefined; a present one gives its string |
| `Js.Reduce` | src/App.js:184 | reduce with an initial value returns that value on an empty array and calls the callback once, on the initial value and element 0, for a one-element array |
| `Js.ReduceNoInit` | src/App.js:207-214 | reduce without an initial value throws exactly on an empty array; on one element it returns that element without calling the callback |
| `Js.ReduceAppend` | src/App.js:180-184 | reduce runs left to right: reducing `s + t` reduces `t` from the result for `s` |
| `Js.ReduceHeadFirst` | src/App.js:180-184 | the initialised reduce gives element 0 to the callback first, then folds the rest |
| `Js.ReduceNoInitAgrees` | src/App.js:207-214 | the two forms of reduce agree when seeding with element 0 equals what the callback makes of it |
| `CurrentWeather.Keep` | src/App.js:181-183 | an entry whose name is neither WDSD nor TEMP leaves the accumulator as it was; an allowed entry stores its elementValue under its name and leaves every other key as it was |
| `CurrentWeather.ReduceKeysWithin` | src/App.js:180-184 | from any accumulator, the reduce adds no key other than WDSD and TEMP |
| `CurrentWeather.Fold` | src/App.js:180-184 | the reduce from `{}` yields an object whose keys lie within {WDSD, TEMP}, and `{}` itself for an empty list |
| `CurrentWeather.Extract` | src/App.js:180-184 | the in-place reduce loop computes `Fold`, and its keys lie within {WDSD, TEMP} |
| `CurrentWeather.FoldHasKey` | src/App.js:180-184 | a name is a key of the result if and only if it is WDSD or TEMP and some entry carries it |
| `CurrentWeather.FoldKeys` | src/App.js:180-184 | only WDSD and TEMP appear; every other entry is dropped; a missing entry leaves its key absent (the fold starts from `{}`) |
| `CurrentWeather.FoldLastWins` | src/App.js:182 | a kept name maps to the elementValue of its last entry, so later duplicates overwrite earlier ones |
| `CurrentWeather.FoldOrderFree` | src/App.js:180-184 | when each name occurs once, any permutation of the entries gives the same map |
| `CurrentWeather.StartRefresh` | src/App.js:172-174 | isLoading becomes true and every other field is unchanged |
| `CurrentWeather.ApplyObservation` | src/App.js:187-195 | sets locationName, windSpeed, temperature, observationTime and isLoading := false; forecast and unowned fields unchanged |
| `CurrentWeather.HandleObservation` | src/App.js:178-195 | an empty `location` list throws on reading `weatherElement`; otherwise it succeeds with the first location's name and obsTime, a wind speed or temperature that is undefined exactly when its entry is missing (its value otherwise is given by `WindSpeedIsLastReading` and `TemperatureIsLastReading`), isLoading false, and the forecast and unowned fields unchanged |
| `CurrentWeather.ObservationFirstLocation` | src/App.js:178-179 | only the first location of the list is read |
| `CurrentWeather.WindSpeedIsLastReading` | src/App.js:180-190 | for any non-empty location list whose first location has a WDSD entry, the wind speed shown is the elementValue of its last WDSD entry, whether or not TEMP occurs |
| `CurrentWeather.TemperatureIsLastReading` | src/App.js:180-191 | for any non-empty location list whose first location has a TEMP entry, the temperature shown is the elementValue of its last TEMP entry, whether or not WDSD occurs |
| `CurrentWeather.ObservationAnyOrder` | src/App.js:178-195 | for any non-empty location list, wherever the last WDSD and last TEMP stand among the first location's entries, the state shows their values, the location name and obsTime, with isLoading false |
| `CurrentWeather.MissingReadingIsUndefined` | src/App.js:190-191 | for any non-empty location list, a WDSD or TEMP missing from the first location sets that field to undefined, not to 0 |
| `CurrentWeather.MissingReadingReplacesInitialZero` | src/App.js:152-162 | the initial wind speed is the number 0, and a response whose first location lacks WDSD replaces it by undefined |
| `CurrentWeather.ObservationExample` | src/App.js:178-195 | the Taipei example gives windSpeed "3.50", temperature "23.70" and the observation time |
| `WeatherForecast.Keep` | src/App.js:208-213 | a thrown error passes through and an element not named Wx, PoP or CI leaves the accumulator as it was; a wanted element with no time slot throws on reading `parameter`; otherwise it stores `time[0].parameter` under its name, keeps the seed and leaves every other key as it was |
| `WeatherForecast.ReduceShape` | src/App.js:207-214 | from any accumulator, a successful reduce keeps the accumulator's seed and adds no key other than Wx, PoP and CI |
| `WeatherForecast.Fold` | src/App.js:207-214 | the corrected reduce, when it does not throw, yields a fresh object (no seed) whose keys lie within {Wx, PoP, CI} |
| `WeatherForecast.FoldAsWritten` | src/App.js:207-214 | the reduce as written throws on an empty array; when it succeeds on a non-empty one, the result is element 0 itself and its assigned keys lie within {Wx, PoP, CI} |
| `WeatherForecast.Extract` | src/App.js:207-214 | the corrected in-place reduce loop starts from `{}`, stops at a throw and computes `Fold` |
| `WeatherForecast.ExtractAsWritten` | src/App.js:207-214 | the loop as written starts from element 0, visits elements 1 onward and computes `FoldAsWritten` |
| `WeatherForecast.ErrorPersists` | src/App.js:211 | once reading `time[0].parameter` has thrown, the rest of the array does not change the outcome |
| `WeatherForecast.ReduceOutcome` | src/App.js:207-214 | from any accumulator, the reduce throws if and only if a wanted element has no time slot; otherwise the seed is kept and a name is a key if and only if it was one already or a wanted element carries it |
| `WeatherForecast.ReduceLastWins` | src/App.js:209-211 | a kept name holds `time[0].parameter` of its last element |
| `WeatherForecast.FoldOutcome` | src/App.js:207-214 | the corrected reduce throws if and only if a wanted element has no time slot; otherwise it keeps exactly the wanted names present |
| `WeatherForecast.AsWrittenFoldsTail` | src/App.js:207-214 | the reduce as written is the corrected reduce over elements 1 onward, with element 0 as the accumulator |
| `WeatherForecast.AsWrittenOutcome` | src/App.js:207-214 | as written: an empty array throws; otherwise the accumulator is element 0, and a name is kept if and only if it is wanted and carried at index 1 or later |
| `WeatherForecast.AsWrittenDropsHead` | src/App.js:207-214 | a wanted element 0 with no later namesake (for example a leading Wx) is never stored, while the corrected reduce stores it |
| `WeatherForecast.AsWrittenHarmlessWhenHeadUnwanted` | src/App.js:207-214 | when element 0 is not wanted, the reduce as written equals the corrected one apart from the seed |
| `WeatherForecast.ApplyForecast` | src/App.js:217-222 | succeeds if and only if CI and PoP were kept; then sets description and rainPossibility from their parameterName and leaves every other field, isLoading included, unchanged |
| `WeatherForecast.HandleForecast` | src/App.js:206-222 | the corrected callback: an empty `location` list throws on reading `weatherElement`; otherwise it succeeds if and only if every wanted element of the first location has a time slot and both CI and PoP occur, throws on `parameter` or on `parameterName` otherwise, and never touches the observation fields, the unowned fields or isLoading |
| `WeatherForecast.HandleForecastAsWritten` | src/App.js:206-222 | the callback as written: an empty `location` list throws on reading `weatherElement`, an empty element list throws as an empty reduce, and otherwise it succeeds under the conditions of the corrected callback applied to elements 1 onward only |
| `WeatherForecast.ForecastFirstLocation` | src/App.js:206-207 | both callbacks read only the first location of the list |
| `WeatherForecast.ForecastAnyOrder` | src/App.js:206-222 | for any non-empty location list, with the corrected reduce, the last CI and last PoP of the first location are shown wherever they stand |
| `WeatherForecast.AsWrittenIsCorrectedOnTail` | src/App.js:206-222 | on a non-empty element list, the callback as written equals the corrected callback on elements 1 onward, so element 0 is never read, even when it is a wanted element with no time slot |
| `WeatherForecast.AsWrittenAnyOrder` | src/App.js:206-222 | as written, the same input throws when the last CI or last PoP is element 0, and otherwise agrees with the corrected callback |
| `WeatherForecast.ForecastExample` | src/App.js:206-222 | Wx, PoP, CI in service order give description "舒適" and rainPossibility "48" under both reduces |
| `WeatherForecast.ComfortFirstThrows` | src/App.js:207-214 | with CI first, the callback as written throws on `CI.parameterName`, while the corrected one shows "舒適" and "48" |
| `Display.InitialState` | src/App.js:152-162 | the widget starts loading, with empty names, the number 0 for every reading, the mount-time clock as observation time, an empty comfortability and weather code 0; with `FieldGroupsCoverState` this fixes the whole record |
| `App.Widget.constructor` | src/App.js:152-162 | the state starts as the initial record |
| `App.Widget.FetchCurrentWeather` | src/App.js:171-174 | the state becomes `StartRefresh` of the old state |
| `App.Widget.ReceiveCurrentWeather` | src/App.js:176-196 | the state becomes `HandleObservation` of the old state; on a TypeError it is unchanged and the error is returned |
| `App.Widget.ReceiveWeatherForecast` | src/App.js:203-223 | with the corrected reduce, the state becomes `HandleForecast` of the old state; on a TypeError it is unchanged and the error is returned |
| `App.ArrivalOrderIrrelevant` | src/App.js:187-222 | the two responses write disjoint fields, so either arrival order succeeds or fails alike and ends in the same state |
| `App.LaterObservationWins` | src/App.js:187-195 | after any successful observation response, a later one (with any location list) gives the same outcome as it would alone |
| `App.ForecastKeepsLoading` | src/App.js:217-222 | the forecast response keeps the isLoading flag a refresh set |
| `App.RefreshCycle` | src/App.js:172-195 | a refresh followed by its response is the same as the response alone, so isLoading ends false |

## Left out

- Styled components, the theme table and the JSX rendering (src/App.js:1-142, 227-251):
  presentation only.
- `fetch`, `res.json()`, the URLs, the API key, the location name and `useEffect`:
  network I/O and framework wiring. A response enters the model as its
  `records.location` list.
- The scheduling of the two asynchronous fetches. The model has the three updates and
  proves how they combine in sequence (`ArrivalOrderIrrelevant`, `LaterObservationWins`),
  not the event loop.
- `Math.round(temperature)` of a decimal string, at render time: floating point and type
  coercion.
- `formatTime` in src/commons/helper.js: locale and time-zone formatting by
  `Intl.DateTimeFormat`. `new Date()` in the initial state becomes a clock reading passed
  in as `now`.
- `console.log` of the forecast accumulator.
- Aliasing in the as-written forecast reduce. The accumulator object *is* element 0 of
  the parsed response, so the assignments mutate that element. The model returns the
  accumulator as a value, with element 0 recorded as its `seed`, and does not model the
  mutation of the input array.
- What React does with a TypeError thrown inside a `setCurrentElement` updater: it
  surfaces on the next render. `Widget` leaves the state unchanged and returns the error.
- Responses are assumed to have the documented shape: every observation location has a
  `time` object with `obsTime`, every forecast element has a `time` list, and every time
  slot has a `parameter` with `parameterName`. So the TypeErrors that an absent `time`
  (lines 192, 211) or an absent `parameter` (lines 219, 221) would raise cannot arise.
  The malformed inputs the model covers are an empty `location` list, an empty
  `weatherElement` list, an empty `time` list and a missing CI or PoP entry.
- Response fields the callbacks never read (time slot start and end times, parameter
  values and units) are not in the datatypes.

## Findings

| source | as written | input that shows it | evidently intended | confidence | as-written member | corrected member |
|---|---|---|---|---|---|---|
| src/App.js:207-214 | `weatherElement.reduce(callback)` has no initial value, so element 0 becomes the accumulator and is never checked against Wx/PoP/CI | `weatherElement` = [CI "舒適", PoP "48"]: CI is never stored, and `weatherElements.CI.parameterName` throws a TypeError | `reduce(callback, {})`, as the observation reduce at line 184 does, so that every wanted element is kept whatever its position | high; not executed | `WeatherForecast.ComfortFirstThrows` | `WeatherForecast.ForecastAnyOrder` |
