# Mars: photo explorer and InSight weather table, modelled in Dafny

The repository holds two Node.js command-line scripts that talk to NASA's
open APIs.

* `mars_photos.js` runs a strictly linear dialogue: the user picks a rover
  from a numbered menu, the script reads the rover's mission manifest, the
  user picks a date filter (Earth date or sol) and a value, the script asks
  the photos endpoint which cameras took photos under that filter, the user
  picks one of them or none, and the script fetches the photos, saves them to
  `latest_photos.json` and lists them. Every invalid answer or failed request
  ends the run; nothing loops.
* `main.js` fetches the latest InSight weather payload, refuses a non-OK
  response or a payload without sols, writes the payload to
  `output_insight.json` and prints a fixed-width table with one column per
  sol (Earth date, temperature, wind speed, pressure), using "н/д" for a
  missing value.

Both scripts are expressions over the responses they receive, so the model
is made of datatypes, functions and lemmas; the one loop that accumulates
state, the camera `Set` of `getAvailableCameras`, is a method with a loop
invariant proved against its specification function.

Files:

* `wrappers.dfy` — `Option` and `Result`.
* `http.dfy` — `Fetched<T>`: a request that was rejected, or answered with
  a status and a parsed body; `Ok()` is the `response.ok` test (status
  200–299).
* `jsstring.dfy` — the ECMAScript string built-ins the scripts use:
  `trim`, `parseInt(s, 10)`, `padEnd`, `join`, `repeat`, `split(c)[0]`,
  and string length in UTF-16 code units (ECMA-262: white space in sections
  12.2 and 12.3, `parseInt` in section 19.2.5, and
  `String.prototype.padEnd`).
* `orderedset.dfy` — `Array.from` of a `Set` filled by `add` calls
  (ECMA-262, section 24.2: a `Set` iterates in insertion order).
* `marsphotos.dfy` — the photo explorer. The run is a function of the
  answers the prompts return and of what the three requests answer:
  `manifests(rover)` for the manifest, `discover(query)` for the
  camera-discovery request and `fetch(query, cameraParam)` for the final
  request. The two photo requests are separate parameters, so the model
  covers a server that answers them differently. `Outcome` says whether the
  file was written and with which photos, or why the run stopped.
* `weather.dfy` — the weather report. The run is a function of the
  response; `toFixed(1)` and `new Date(d).toISOString()` are parameters.

## Model

| member | source | states |
|---|---|---|
| JsString.TrimStart | mars_photos.js:16 | the leading-white-space cut of `trim`: a suffix of the input, only white space dropped, result does not start with white space |
| JsString.TrimEnd | mars_photos.js:16 | the trailing-white-space cut of `trim`: a prefix of the input, only white space dropped, result does not end with white space |
| JsString.Trim | mars_photos.js:16 | `answer.trim()` is a slice of the line with only white space cut off both ends, and neither starts nor ends with white space |
| JsString.TrimIdempotent | mars_photos.js:16 | trimming a trimmed answer changes nothing |
| JsString.TrimEmpty | mars_photos.js:16 | a trimmed answer is empty exactly when the typed line was all white space |
| JsString.ParseInt | mars_photos.js:50-51 | `parseInt(s, 10)` is a number exactly when, after the leading white space and one optional sign, a digit follows (NaN otherwise), and it is negative only after a '-' |
| JsString.ParseSigned | mars_photos.js:50-51 | the same once the leading white space is gone |
| JsString.LeadingDigits | mars_photos.js:50 | the digits `parseInt` reads: the longest run of decimal digits at the front |
| JsString.ParseIntOfNumeral | mars_photos.js:50 | `parseInt` reads back the decimal numeral of any integer, whatever white space precedes it and whatever non-digit follows it |
| JsString.ParseIntSkipsWhiteSpace | mars_photos.js:50 | `parseInt` ignores the white space before the number |
| JsString.ParseIntWithoutDigits | mars_photos.js:50-51 | text without a digit parses to NaN |
| JsString.PadEnd | main.js:26 | `padEnd` keeps the string as a prefix, adds only spaces, and gives exactly the target length in UTF-16 units when the string was shorter, never shortening it |
| JsString.Utf16Length | main.js:26 | `s.length` counts one or two UTF-16 code units per character |
| JsString.Join | main.js:26 | `join` of no strings is empty, of one string is that string, and starts with the first string |
| JsString.JoinSplit | main.js:26 | a join splits at any inner position into two joins around one separator |
| JsString.JoinWidth | main.js:26 | joining n strings of w units each gives n·w units plus one separator between neighbours |
| JsString.Repeat | main.js:49 | `'-'.repeat(n)` has n characters, all the repeated one |
| JsString.Utf16LengthRepeat | main.js:49 | a repeated BMP character of count n is n code units long |
| JsString.BeforeFirst | main.js:32 | `split('T')[0]` is the prefix before the first 'T', holds no 'T', and stops at a 'T' or the end |
| JsString.BeforeFirstOfJoined | main.js:32 | `split` undoes joining with the separator: the part before the first 'T' of `a + "T" + b` is `a` when `a` has no 'T' |
| OrderedSet.Distinct | mars_photos.js:29-33 | the array of the `Set` holds no value twice, only added values, and every added value |
| OrderedSet.DistinctFirstSeenOrder | mars_photos.js:29-33 | the values come in the order of their first `add` |
| OrderedSet.DistinctUnique | mars_photos.js:29-33 | any duplicate-free list holding exactly the added values in first-added order is that array |
| OrderedSet.DistinctIdempotent | mars_photos.js:29-33 | re-adding the collected values changes nothing |
| MarsPhotos.PromptAnswers | mars_photos.js:9-17 | every prompt resolves to its typed line trimmed, one answer per line |
| MarsPhotos.FetchPhotosTyped | mars_photos.js:40-147 | the run over the typed lines saves nothing unless four lines were typed, and filters by the third line trimmed |
| MarsPhotos.TypedWhiteSpaceIgnored | mars_photos.js:16 | white space typed around any answer does not change the outcome of the run |
| MarsPhotos.PromptAnswersTrimmed | mars_photos.js:14-17 | an answer is the typed line trimmed: it neither starts nor ends with white space, is already trimmed, and is empty exactly for an all-white-space line |
| MarsPhotos.Pick | mars_photos.js:49-55 | a menu choice is accepted exactly when `parseInt` gives n with 1 ≤ n ≤ menu length, and then names entry n − 1 |
| MarsPhotos.PickNumber | mars_photos.js:46-55 | typing the number printed before a menu entry (`index + 1`) selects that entry; any other number is refused |
| MarsPhotos.PickWithoutDigits | mars_photos.js:50-54 | an answer without a digit selects nothing |
| MarsPhotos.DateType | mars_photos.js:78-90 | "1" selects `earth_date`, "2" selects `sol`, anything else is refused (each both ways) |
| MarsPhotos.CameraParam | mars_photos.js:104-114 | a blank camera answer means no camera filter; otherwise it is accepted exactly when it parses to n in 1..number of cameras, and then filters by camera n − 1 |
| MarsPhotos.ManifestOf | mars_photos.js:57-70 | the manifest step succeeds exactly for an OK response carrying `photo_manifest`; a rejected or non-OK request is a logged stop, a missing manifest a TypeError |
| MarsPhotos.AvailableCameras | mars_photos.js:20-38 | the camera menu has no duplicates, and any failed, non-OK or photo-less response gives the empty menu instead of an error |
| MarsPhotos.AvailableCamerasExact | mars_photos.js:28-33 | for an OK response the menu holds exactly the camera names of its photos, in order of first photo, and is non-empty when there are photos |
| MarsPhotos.GetAvailableCameras | mars_photos.js:20-38 | the `forEach` over the photos that adds each camera name to the `Set` computes the camera menu |
| MarsPhotos.Report | mars_photos.js:118-146 | the final step saves exactly when the response is OK with a non-empty photo list, and then saves that list; non-OK is a logged stop; OK without photos writes nothing |
| MarsPhotos.ChooseQuery | mars_photos.js:49-90 | the first three prompts and the manifest: answers that run out before a step fails stop the run for lack of input; an invalid rover number stops it exactly when it does not pick a rover; a failed manifest after a valid rover stops it with that failure; after both, an invalid date mode stops it exactly when it is neither "1" nor "2"; a query is chosen exactly when rover, manifest and date mode pass and three answers exist, and it is the picked rover, the date type and the third answer |
| MarsPhotos.ChooseCameraAndFetch | mars_photos.js:92-146 | no discovered camera stops the run; with cameras and no fourth answer it stops for lack of input; with a fourth answer an invalid camera choice stops it, and a valid one makes the outcome the report of the final request with that camera parameter; a saved run filtered by the chosen camera parameter and saved the non-empty photo list of that final request |
| MarsPhotos.FetchPhotos | mars_photos.js:40-147 | the file is written exactly when the query is chosen, the discovery found a camera, the fourth answer is a valid camera choice and the final request is OK with a non-empty photo list, and then it holds that list; a stop before the camera discovery is final and keeps its reason |
| MarsPhotos.RoverChoice | mars_photos.js:49-55 | the run stops at the rover prompt exactly when the answer is not a number in 1..4, and a saved run used rover n − 1 of the menu |
| MarsPhotos.DateChoice | mars_photos.js:78-90 | a saved run filtered by `earth_date` after "1" or by `sol` after "2", with the next answer as the value |
| MarsPhotos.EarlyStopsRequestNoPhotos | mars_photos.js:49-90 | a run that stops in the first three prompts or at the manifest depends on neither photo request |
| MarsPhotos.InvalidDateTypeStops | mars_photos.js:87-90 | a date mode other than "1" or "2" after a valid rover and manifest stops the run |
| MarsPhotos.FailedDiscoveryStops | mars_photos.js:93-97 | a failed, non-OK or empty discovery response stops the run with "no cameras" before the camera prompt and the final request, whether or not a fourth answer exists |
| MarsPhotos.FinalRequestDecides | mars_photos.js:116-146 | once a camera filter is chosen, the final request alone decides the outcome: a rejected or non-OK final request is a logged stop and an OK one without photos writes nothing, even after a successful discovery; otherwise its photos are saved |
| MarsPhotos.BlankCameraSavesDiscoveredPhotos | mars_photos.js:104-116 | a blank camera answer sends the discovery URL again; when the server answers it the same way, a run that found cameras saves exactly the photos they were found in |
| MarsPhotos.CameraChoice | mars_photos.js:106-114 | a non-blank camera answer of a saved run parsed to n in 1..number of cameras and filtered by camera n − 1 of the menu |
| MarsPhotos.Listing | mars_photos.js:137-142 | one printed entry per photo, in the order received, numbered from 1, with its Earth date, camera full name and image URL |
| MarsPhotos.ListingFrom | mars_photos.js:137-142 | the same for a listing numbered from any start |
| Weather.Headers | main.js:29 | one header per sol, in `sol_keys` order, "Sol " followed by the key |
| Weather.HeadersDistinct | main.js:29 | each header gives its sol back after "Sol ", and two headers are equal exactly when their sols are |
| Weather.UnitNotMissing | main.js:34-45 | no reading with a unit ends like "н/д" |
| Weather.MetricCell | main.js:34-45 | a reading cell is "н/д" exactly when the reading is absent, and otherwise the formatted value followed by the unit |
| Weather.DateCell | main.js:30-33 | a date cell is "н/д" when `First_UTC` is absent or empty; otherwise it exists exactly when the text is a date, and is the ISO form's prefix before the first 'T' |
| Weather.DateCellOfTimestamp | main.js:32 | an ISO timestamp "date T time" gives the cell "date" |
| Weather.Cells | main.js:26 | every value padded to 18 units |
| Weather.CellsWidth | main.js:26 | every value of at most 18 units becomes a cell of exactly 18 units |
| Weather.Row | main.js:25-27 | a row starts with its title, padded with spaces to the title column |
| Weather.RowWidth | main.js:25-27 | a row whose title fits 25 units and whose values fit 18 units is 25 + 21·n units wide for n > 0 values (28 for none), whatever its content |
| Weather.RowColumn | main.js:25-27 | in such a row cell k starts at code unit 28 + 21·k: the columns of all rows line up |
| Weather.JoinColumn | main.js:26 | in the joined cells, cell k follows the cells before it, each with its separator |
| Weather.JoinBeforeWidth | main.js:26 | k cells of 18 units with their separators take 21·k units |
| Weather.RuleIsDashes | main.js:49 | the rule line is 100 dashes, 100 code units |
| Weather.HeaderTitleWidth | main.js:48 | the title "Параметр / Sol" is 14 code units |
| Weather.DatesTitleWidth | main.js:50 | the title of the date row is 13 code units (the emoji counts 2) |
| Weather.TempsTitleWidth | main.js:51 | the title of the temperature row is 14 code units |
| Weather.WindsTitleWidth | main.js:52 | the title of the wind row is 8 code units |
| Weather.PressuresTitleWidth | main.js:53 | the title of the pressure row is 7 code units |
| Weather.TitleFits | main.js:48-53 | every row title fits the 25-unit title column |
| Weather.Lines | main.js:47-53 | the table prints six lines |
| Weather.LinesRule | main.js:49 | the second printed line is the rule |
| Weather.LinesRow | main.js:48-53 | every other printed line is the row of its title and its column of cells, in the order header, date, temperature, wind, pressure |
| Weather.LinesAligned | main.js:48-53 | in every printed row whose cells fit 18 units, cell k starts at code unit 28 + 21·k, so the columns of the whole table line up |
| Weather.MakeTable | main.js:29-45 | the table is built exactly when every sol key has an object and every present date parses; then each column has one cell per sol, in order, the cell of that sol's value |
| Weather.MetricCells | main.js:34-45 | one reading cell per sol, in order |
| Weather.Main | main.js:9-22 | a non-OK status is reported and writes nothing; a missing or empty `sol_keys` writes nothing; the payload is written exactly when the response is OK with sols, and the table is built from those sols |

## Left out

- Network, files and console: `fetch`, `response.json()`, `fs.writeFileSync`, `console.log` and `open` are not modelled; a request is a `Fetched` value, the file write is the `Saved` outcome, and the printed text is modelled only for the photo listing and the weather table.
- `loadConfig.js` (reading `config.json` and `JSON.parse`) and the API key are not modelled; the request URLs are identified by the values they are built from (rover, date type, date value, camera parameter).
- The manifest's dates and maximum sol are only printed (mars_photos.js:73-75); the model keeps them in `Manifest` but states nothing about the printing.
- `readline` itself is not modelled: the run receives the list of typed lines, and a list that ends before a prompt is a user who never answers (`InputClosed`, nothing written).
- `toFixed(1)` and `new Date(d).toISOString()` are parameters of the weather model: floating-point formatting and date parsing are left to them.
- Weather.DateCell: states the cell only in terms of the ISO text it is given, so it does not show that a present date never prints as "н/д".
- JSON values of unexpected shapes are not modelled: a `photos` entry without `camera`, a `sol_keys` that is not an array, an `av` that is `null`, or a sol key such as "sol_keys" that names a non-sol field of the payload.
- Weather.MakeTable: a crash while building the table (a sol key without an object, a date that does not parse) is `None`, without saying which sol threw; nothing is printed in either case.
- The two photo requests are independent parameters: the model does not assume that the server answers the same URL the same way twice, so MarsPhotos.BlankCameraSavesDiscoveredPhotos takes that as a hypothesis.
- `parseInt` yields an exact integer, where JavaScript rounds above 2^53; the scripts only compare it with small bounds, so the outcome is the same.
- The camera menu lists each camera once, in the order of its first photo, the order `Array.from` of a `Set` gives; the model states that order and nothing about how the menu is printed.
