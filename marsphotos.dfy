/** The photo explorer of `mars_photos.js`: a strictly linear run that picks a
    rover, reads its mission manifest, picks a date filter, discovers the
    cameras that took photos on that date, picks a camera (or none), fetches
    the photos and saves them to `latest_photos.json`.

    The run is a function of the answers `promptUser` resolves (`answers`,
    one per prompt, in prompt order: the typed line with `trim` applied, see
    `PromptAnswers`) and of what the endpoints answer to each of the three
    requests: `manifests(rover)` for the manifest of a rover,
    `discover(query)` for the camera-discovery request of `getAvailableCameras`
    (the photos of a rover on a date, unfiltered), and
    `fetch(query, cameraParam)` for the final request, filtered by camera
    when `cameraParam` is "&camera=<name>" and not filtered when it is "".
    The two photo requests are separate calls, so the model lets them answer
    differently. The request URLs are built from exactly these values and the
    API key. An answer list that ends before a prompt is a user who never
    answers: the run stops there and writes nothing. */
module MarsPhotos {
  import opened Wrappers
  import opened Http
  import opened JsString
  import opened OrderedSet

  /** The rovers the script knows. */
  datatype Rover = Perseverance | Curiosity | Opportunity | Spirit

  /** The rover menu, in the order it is printed and numbered from 1. */
  const Rovers: seq<Rover> := [Perseverance, Curiosity, Opportunity, Spirit]

  /** The fields of a photo record the script reads. */
  datatype Photo = Photo(earthDate: string, cameraName: string, cameraFullName: string, imgSrc: string)

  /** `photo_manifest`: only shown to the user. */
  datatype Manifest = Manifest(landingDate: string, maxDate: string, maxSol: int)

  /** Why a run stops without writing the file. */
  datatype Reason =
    | InputClosed      // a prompt never got its answer
    | InvalidRover     // rover number not a number in 1..4
    | ManifestFailed   // manifest request rejected or not OK (logged)
    | ManifestMissing  // OK response without `photo_manifest`: TypeError, uncaught
    | InvalidDateType  // date mode other than "1" or "2"
    | NoCameras        // camera discovery found no camera
    | InvalidCamera    // non-blank camera answer not a number in 1..|cameras|
    | PhotosFailed     // final request rejected or not OK (logged)

  /** The date filter of both photo requests. */
  datatype Query = Query(rover: Rover, dateType: string, dateValue: string)

  /** `Saved` is the only outcome that writes `latest_photos.json`, and it
      writes `photos`. */
  datatype Outcome =
    | Aborted(reason: Reason)
    | NoPhotos
    | Saved(query: Query, cameraParam: string, photos: seq<Photo>)

  /** One printed photo entry. */
  datatype Entry = Entry(number: nat, earthDate: string, cameraFullName: string, imgSrc: string)

  // ---------------------------------------------------------------------
  // Answers
  // ---------------------------------------------------------------------

  /** What `promptUser` resolves for each typed line: the line trimmed. */
  function PromptAnswers(lines: seq<string>): (answers: seq<string>)
    ensures |answers| == |lines|
    ensures forall i :: 0 <= i < |lines| ==> answers[i] == Trim(lines[i])
  {
    seq(|lines|, i requires 0 <= i < |lines| => Trim(lines[i]))
  }

  /** An answer never starts or ends with white space, and it is the line
      with only white space cut off both ends. */
  lemma PromptAnswersTrimmed(lines: seq<string>, i: nat)
    requires i < |lines|
    ensures var a := PromptAnswers(lines)[i];
      a == [] || (!IsWhiteSpace(a[0]) && !IsWhiteSpace(a[|a| - 1]))
    ensures Trim(PromptAnswers(lines)[i]) == PromptAnswers(lines)[i]
    ensures PromptAnswers(lines)[i] == [] <==> forall k :: 0 <= k < |lines[i]| ==> IsWhiteSpace(lines[i][k])
  {
    TrimIdempotent(lines[i]);
    TrimEmpty(lines[i]);
  }

  /** The whole run from the typed lines: nothing is saved unless four lines
      were typed, and a saved query filters by the third line trimmed. */
  function FetchPhotosTyped(lines: seq<string>,
                            manifests: Rover -> Fetched<Option<Manifest>>,
                            discover: Query -> Fetched<Option<seq<Photo>>>,
                            fetch: (Query, string) -> Fetched<Option<seq<Photo>>>): (o: Outcome)
    ensures o.Saved? ==> |lines| >= 4 && o.query.dateValue == Trim(lines[2])
  {
    FetchPhotos(PromptAnswers(lines), manifests, discover, fetch)
  }

  /** White space typed around an answer changes nothing in the run. */
  lemma TypedWhiteSpaceIgnored(lines: seq<string>, others: seq<string>,
                               manifests: Rover -> Fetched<Option<Manifest>>,
                               discover: Query -> Fetched<Option<seq<Photo>>>,
                               fetch: (Query, string) -> Fetched<Option<seq<Photo>>>)
    requires |lines| == |others|
    requires forall i :: 0 <= i < |lines| ==> Trim(lines[i]) == Trim(others[i])
    ensures FetchPhotosTyped(lines, manifests, discover, fetch)
      == FetchPhotosTyped(others, manifests, discover, fetch)
  {
    assert PromptAnswers(lines) == PromptAnswers(others);
  }

  /** A 1-based menu choice: accepted exactly when `parseInt(answer, 10)` is a
      number n with 1 <= n <= |menu|, and it then names `menu[n - 1]`. */
  function Pick<T>(menu: seq<T>, answer: string): (r: Option<T>)
    ensures r.Some? <==> ParseInt(answer).Some? && 1 <= ParseInt(answer).value <= |menu|
    ensures r.Some? ==> r.value == menu[ParseInt(answer).value - 1] && r.value in menu
  {
    var n := ParseInt(answer);
    if n.None? || n.value < 1 || n.value > |menu| then None else Some(menu[n.value - 1])
  }

  /** Typing the number printed before a menu entry (possibly padded with
      white space and followed by other text) picks that entry; any other
      number is refused. */
  lemma PickNumber<T>(menu: seq<T>, ws: string, n: int, rest: string)
    requires forall k :: 0 <= k < |ws| ==> IsWhiteSpace(ws[k])
    requires rest == [] || !IsDigit(rest[0])
    ensures Pick(menu, ws + (IntToString(n) + rest)) == if 1 <= n <= |menu| then Some(menu[n - 1]) else None
  {
    ParseIntOfNumeral(ws, n, rest);
  }

  /** An answer without a digit picks nothing. */
  lemma PickWithoutDigits<T>(menu: seq<T>, answer: string)
    requires forall k :: 0 <= k < |answer| ==> !IsDigit(answer[k])
    ensures Pick(menu, answer) == None
  {
    ParseIntWithoutDigits(answer);
  }

  /** The date mode: "1" filters by `earth_date`, "2" by `sol`, anything else
      is refused. */
  function DateType(choice: string): (r: Option<string>)
    ensures r == Some("earth_date") <==> choice == "1"
    ensures r == Some("sol") <==> choice == "2"
    ensures r == None <==> choice != "1" && choice != "2"
  {
    if choice == "1" then Some("earth_date")
    else if choice == "2" then Some("sol")
    else None
  }

  /** The camera filter: a blank answer means every camera (no parameter);
      otherwise the answer must pick a camera from the menu. */
  function CameraParam(cameras: seq<string>, answer: string): (r: Option<string>)
    ensures answer == "" ==> r == Some("")
    ensures answer != "" ==> var n := ParseInt(answer);
      (r.Some? <==> n.Some? && 1 <= n.value <= |cameras|)
      && (r.Some? ==> r.value == "&camera=" + cameras[n.value - 1])
  {
    if answer == "" then Some("")
    else match Pick(cameras, answer)
      case None => None
      case Some(camera) => Some("&camera=" + camera)
  }

  // ---------------------------------------------------------------------
  // Responses
  // ---------------------------------------------------------------------

  /** The manifest step: a rejected or non-OK request is logged and ends the
      run; an OK body without `photo_manifest` ends it with a TypeError. */
  function ManifestOf(resp: Fetched<Option<Manifest>>): (r: Result<Manifest, Reason>)
    ensures r.Success? <==> resp.Ok() && resp.body.Some?
    ensures r.Success? ==> r.value == resp.body.value
    ensures r.Failure? ==> r.error == (if resp.Ok() then ManifestMissing else ManifestFailed)
  {
    if !resp.Ok() then Failure(ManifestFailed)
    else if resp.body.None? then Failure(ManifestMissing)
    else Success(resp.body.value)
  }

  /** The `camera.name` of every photo, in response order. */
  function CameraNames(photos: seq<Photo>): (names: seq<string>)
    ensures |names| == |photos|
    ensures forall i :: 0 <= i < |photos| ==> names[i] == photos[i].cameraName
  {
    seq(|photos|, i requires 0 <= i < |photos| => photos[i].cameraName)
  }

  /** What `getAvailableCameras` returns: the distinct camera names of the
      photos of an OK response; a rejected or non-OK request, or a body
      without `photos`, gives the empty list rather than an error. */
  function AvailableCameras(resp: Fetched<Option<seq<Photo>>>): (r: seq<string>)
    ensures NoDuplicates(r)
    ensures !resp.Ok() || resp.body.None? ==> r == []
  {
    if !resp.Ok() || resp.body.None? then []
    else Distinct(CameraNames(resp.body.value))
  }

  /** The camera menu of an OK response holds exactly the camera names of its
      photos, each once, in the order of their first photo. */
  lemma AvailableCamerasExact(resp: Fetched<Option<seq<Photo>>>)
    requires resp.Ok() && resp.body.Some?
    ensures forall c :: c in AvailableCameras(resp) <==> exists p :: p in resp.body.value && p.cameraName == c
    ensures InFirstSeenOrder(AvailableCameras(resp), CameraNames(resp.body.value))
    ensures resp.body.value != [] ==> AvailableCameras(resp) != []
  {
    var names := CameraNames(resp.body.value);
    DistinctFirstSeenOrder(names);
    forall c ensures c in names <==> exists p :: p in resp.body.value && p.cameraName == c {
      if c in names {
        var i :| 0 <= i < |names| && names[i] == c;
        assert resp.body.value[i] in resp.body.value;
      }
    }
    if resp.body.value != [] {
      assert names[0] in AvailableCameras(resp);
    }
  }

  /** `getAvailableCameras` after the request: the try/catch turns a failed
      request into an empty list, and the `forEach` adds every camera name to
      a `Set` whose insertion order `Array.from` keeps. */
  method GetAvailableCameras(resp: Fetched<Option<seq<Photo>>>) returns (cameras: seq<string>)
    ensures cameras == AvailableCameras(resp)
  {
    if !resp.Ok() || resp.body.None? {
      return [];
    }
    var photos := resp.body.value;
    var cameraSet: seq<string> := [];
    for i := 0 to |photos|
      invariant cameraSet == Distinct(CameraNames(photos[..i]))
    {
      var names := CameraNames(photos[..i + 1]);
      assert names[..i] == CameraNames(photos[..i]);
      if photos[i].cameraName !in cameraSet {
        cameraSet := cameraSet + [photos[i].cameraName];
      }
    }
    assert photos[..|photos|] == photos;
    cameras := cameraSet;
  }

  /** The final step: a rejected or non-OK request is logged and ends the run;
      a response without photos, or with none, writes nothing; otherwise the
      photos are saved as received. */
  function Report(resp: Fetched<Option<seq<Photo>>>, q: Query, cameraParam: string): (r: Outcome)
    ensures r.Saved? <==> resp.Ok() && resp.body.Some? && resp.body.value != []
    ensures r.Saved? ==> r == Saved(q, cameraParam, resp.body.value)
    ensures r == Aborted(PhotosFailed) <==> !resp.Ok()
    ensures r == NoPhotos <==> resp.Ok() && (resp.body.None? || resp.body.value == [])
  {
    if !resp.Ok() then Aborted(PhotosFailed)
    else if resp.body.None? || resp.body.value == [] then NoPhotos
    else Saved(q, cameraParam, resp.body.value)
  }

  // ---------------------------------------------------------------------
  // The run
  // ---------------------------------------------------------------------

  /** The first three prompts and the manifest request: the rover, then the
      date mode and the date value. Each stop is decided by the first step
      that fails, and the query is built from the three answers exactly when
      none does. */
  function ChooseQuery(answers: seq<string>, manifests: Rover -> Fetched<Option<Manifest>>)
    : (r: Result<Query, Reason>)
    ensures |answers| == 0 ==> r == Failure(InputClosed)
    ensures |answers| >= 1 ==> (r == Failure(InvalidRover) <==> Pick(Rovers, answers[0]).None?)
    ensures |answers| >= 1 && Pick(Rovers, answers[0]).Some?
              && ManifestOf(manifests(Pick(Rovers, answers[0]).value)).Failure? ==>
      r == Failure(ManifestOf(manifests(Pick(Rovers, answers[0]).value)).error)
    ensures |answers| >= 2 && Pick(Rovers, answers[0]).Some?
              && ManifestOf(manifests(Pick(Rovers, answers[0]).value)).Success? ==>
      (r == Failure(InvalidDateType) <==> DateType(answers[1]).None?)
    ensures r.Success? <==>
      |answers| >= 3
      && Pick(Rovers, answers[0]).Some?
      && ManifestOf(manifests(Pick(Rovers, answers[0]).value)).Success?
      && DateType(answers[1]).Some?
    ensures r.Success? ==>
      r.value == Query(Pick(Rovers, answers[0]).value, DateType(answers[1]).value, answers[2])
    ensures r == Failure(InputClosed) ==> |answers| < 3
    ensures 1 <= |answers| < 3 && Pick(Rovers, answers[0]).Some?
              && ManifestOf(manifests(Pick(Rovers, answers[0]).value)).Success?
              && (|answers| == 1 || DateType(answers[1]).Some?) ==>
      r == Failure(InputClosed)
  {
    if |answers| == 0 then Failure(InputClosed)
    else match Pick(Rovers, answers[0])
      case None => Failure(InvalidRover)
      case Some(rover) =>
        match ManifestOf(manifests(rover))
        case Failure(e) => Failure(e)
        case Success(_) =>
          if |answers| == 1 then Failure(InputClosed)
          else match DateType(answers[1])
            case None => Failure(InvalidDateType)
            case Some(dateType) =>
              if |answers| == 2 then Failure(InputClosed)
              else Success(Query(rover, dateType, answers[2]))
  }

  /** The last two requests and the camera prompt, once the query is chosen:
      discover the cameras, stop if there are none, pick the camera filter,
      fetch and report. */
  function ChooseCameraAndFetch(q: Query, answers: seq<string>,
                                discover: Query -> Fetched<Option<seq<Photo>>>,
                                fetch: (Query, string) -> Fetched<Option<seq<Photo>>>): (o: Outcome)
    requires |answers| >= 3
    ensures AvailableCameras(discover(q)) == [] ==> o == Aborted(NoCameras)
    ensures AvailableCameras(discover(q)) != [] && |answers| == 3 ==> o == Aborted(InputClosed)
    ensures AvailableCameras(discover(q)) != [] && |answers| >= 4 ==>
      var param := CameraParam(AvailableCameras(discover(q)), answers[3]);
      (param.None? ==> o == Aborted(InvalidCamera))
      && (param.Some? ==> o == Report(fetch(q, param.value), q, param.value))
    ensures o.Saved? ==>
      o.query == q
      && |answers| >= 4
      && CameraParam(AvailableCameras(discover(q)), answers[3]) == Some(o.cameraParam)
      && fetch(q, o.cameraParam).Ok()
      && fetch(q, o.cameraParam).body == Some(o.photos)
      && o.photos != []
    ensures o != Aborted(InvalidRover) && o != Aborted(InvalidDateType)
  {
    var cameras := AvailableCameras(discover(q));
    if cameras == [] then Aborted(NoCameras)
    else if |answers| == 3 then Aborted(InputClosed)
    else match CameraParam(cameras, answers[3])
      case None => Aborted(InvalidCamera)
      case Some(cameraParam) => Report(fetch(q, cameraParam), q, cameraParam)
  }

  /** `fetchPhotos` from the rover prompt on. The file is written exactly
      when every answer was valid, the discovery found a camera and the final
      request returned photos; every stop in the first three prompts or at
      the manifest is final. */
  function FetchPhotos(answers: seq<string>,
                       manifests: Rover -> Fetched<Option<Manifest>>,
                       discover: Query -> Fetched<Option<seq<Photo>>>,
                       fetch: (Query, string) -> Fetched<Option<seq<Photo>>>): (o: Outcome)
    ensures o.Saved? <==>
      ChooseQuery(answers, manifests).Success? && |answers| >= 4
      && var q := ChooseQuery(answers, manifests).value;
      var param := CameraParam(AvailableCameras(discover(q)), answers[3]);
      AvailableCameras(discover(q)) != [] && param.Some?
      && fetch(q, param.value).Ok()
      && fetch(q, param.value).body.Some? && fetch(q, param.value).body.value != []
    ensures o.Saved? ==>
      ChooseQuery(answers, manifests) == Success(o.query)
      && |answers| >= 4
      && CameraParam(AvailableCameras(discover(o.query)), answers[3]) == Some(o.cameraParam)
      && fetch(o.query, o.cameraParam).Ok()
      && fetch(o.query, o.cameraParam).body == Some(o.photos)
      && o.photos != []
    ensures ChooseQuery(answers, manifests).Failure? ==> o == Aborted(ChooseQuery(answers, manifests).error)
  {
    match ChooseQuery(answers, manifests)
    case Failure(e) => Aborted(e)
    case Success(q) => ChooseCameraAndFetch(q, answers, discover, fetch)
  }

  /** The rover prompt: the run goes past it exactly when the answer is a
      number n in 1..4, and a saved run used `Rovers[n - 1]`. */
  lemma RoverChoice(answers: seq<string>,
                    manifests: Rover -> Fetched<Option<Manifest>>,
                    discover: Query -> Fetched<Option<seq<Photo>>>,
                    fetch: (Query, string) -> Fetched<Option<seq<Photo>>>)
    requires |answers| >= 1
    ensures var n := ParseInt(answers[0]);
      (FetchPhotos(answers, manifests, discover, fetch) == Aborted(InvalidRover) <==>
        !(n.Some? && 1 <= n.value <= |Rovers|))
      && (FetchPhotos(answers, manifests, discover, fetch).Saved? ==>
        FetchPhotos(answers, manifests, discover, fetch).query.rover == Rovers[n.value - 1])
  {
    var r := ChooseQuery(answers, manifests);
    if r.Success? {
      assert FetchPhotos(answers, manifests, discover, fetch) == ChooseCameraAndFetch(r.value, answers, discover, fetch);
    }
  }

  /** The date prompts: a saved run filtered by `earth_date` after "1" or by
      `sol` after "2", with the next answer as the value. */
  lemma DateChoice(answers: seq<string>,
                   manifests: Rover -> Fetched<Option<Manifest>>,
                   discover: Query -> Fetched<Option<seq<Photo>>>,
                   fetch: (Query, string) -> Fetched<Option<seq<Photo>>>)
    requires FetchPhotos(answers, manifests, discover, fetch).Saved?
    ensures var q := FetchPhotos(answers, manifests, discover, fetch).query;
      ((answers[1] == "1" && q.dateType == "earth_date") || (answers[1] == "2" && q.dateType == "sol"))
      && q.dateValue == answers[2]
  {
    var o := FetchPhotos(answers, manifests, discover, fetch);
    assert ChooseQuery(answers, manifests) == Success(o.query);
  }

  /** Every stop in the first three prompts or at the manifest comes before
      any photo request: the outcome depends on neither photo endpoint. */
  lemma EarlyStopsRequestNoPhotos(answers: seq<string>,
                                  manifests: Rover -> Fetched<Option<Manifest>>,
                                  discover: Query -> Fetched<Option<seq<Photo>>>,
                                  fetch: (Query, string) -> Fetched<Option<seq<Photo>>>,
                                  otherDiscover: Query -> Fetched<Option<seq<Photo>>>,
                                  otherFetch: (Query, string) -> Fetched<Option<seq<Photo>>>)
    requires ChooseQuery(answers, manifests).Failure?
    ensures FetchPhotos(answers, manifests, discover, fetch)
      == FetchPhotos(answers, manifests, otherDiscover, otherFetch)
    ensures FetchPhotos(answers, manifests, discover, fetch).Aborted?
  {
  }

  /** A date mode other than "1" or "2" stops the run before any photo
      request. */
  lemma InvalidDateTypeStops(answers: seq<string>,
                             manifests: Rover -> Fetched<Option<Manifest>>,
                             discover: Query -> Fetched<Option<seq<Photo>>>,
                             fetch: (Query, string) -> Fetched<Option<seq<Photo>>>)
    requires |answers| >= 2 && Pick(Rovers, answers[0]).Some?
    requires ManifestOf(manifests(Pick(Rovers, answers[0]).value)).Success?
    requires answers[1] != "1" && answers[1] != "2"
    ensures ChooseQuery(answers, manifests) == Failure(InvalidDateType)
    ensures FetchPhotos(answers, manifests, discover, fetch) == Aborted(InvalidDateType)
  {
  }

  /** A failed or non-OK camera-discovery request, or one whose body has no
      photos, stops the run with "no cameras" before the camera prompt (the
      fourth answer is never read) and before the final request. */
  lemma FailedDiscoveryStops(answers: seq<string>,
                             manifests: Rover -> Fetched<Option<Manifest>>,
                             discover: Query -> Fetched<Option<seq<Photo>>>,
                             fetch: (Query, string) -> Fetched<Option<seq<Photo>>>)
    requires ChooseQuery(answers, manifests).Success?
    requires var resp := discover(ChooseQuery(answers, manifests).value);
      !resp.Ok() || resp.body.None? || resp.body.value == []
    ensures FetchPhotos(answers, manifests, discover, fetch) == Aborted(NoCameras)
    ensures FetchPhotos(answers[..3], manifests, discover, fetch) == Aborted(NoCameras)
  {
    var q := ChooseQuery(answers, manifests).value;
    assert ChooseQuery(answers[..3], manifests) == Success(q) by {
      assert answers[..3][0] == answers[0] && answers[..3][1] == answers[1] && answers[..3][2] == answers[2];
    }
  }

  /** Once a camera filter is chosen, the final request alone decides the
      outcome, whatever the discovery request returned: it is logged as a
      failure when rejected or not OK, writes nothing when it has no photos,
      and saves its photos otherwise. */
  lemma FinalRequestDecides(answers: seq<string>,
                            manifests: Rover -> Fetched<Option<Manifest>>,
                            discover: Query -> Fetched<Option<seq<Photo>>>,
                            fetch: (Query, string) -> Fetched<Option<seq<Photo>>>)
    requires ChooseQuery(answers, manifests).Success? && |answers| >= 4
    requires var q := ChooseQuery(answers, manifests).value;
      CameraParam(AvailableCameras(discover(q)), answers[3]).Some?
      && AvailableCameras(discover(q)) != []
    ensures var q := ChooseQuery(answers, manifests).value;
      var param := CameraParam(AvailableCameras(discover(q)), answers[3]).value;
      var o := FetchPhotos(answers, manifests, discover, fetch);
      (o == Aborted(PhotosFailed) <==> !fetch(q, param).Ok())
      && (o == NoPhotos <==> fetch(q, param).Ok() && (fetch(q, param).body.None? || fetch(q, param).body.value == []))
      && (o.Saved? ==> o == Saved(q, param, fetch(q, param).body.value))
  {
    var q := ChooseQuery(answers, manifests).value;
    var param := CameraParam(AvailableCameras(discover(q)), answers[3]).value;
    assert FetchPhotos(answers, manifests, discover, fetch) == Report(fetch(q, param), q, param);
  }

  /** With a blank camera answer the final request asks for the very URL the
      discovery asked for. When the server answers it the same way both times,
      a run that found cameras saves exactly the photos they were discovered
      in. */
  lemma BlankCameraSavesDiscoveredPhotos(answers: seq<string>,
                                         manifests: Rover -> Fetched<Option<Manifest>>,
                                         discover: Query -> Fetched<Option<seq<Photo>>>,
                                         fetch: (Query, string) -> Fetched<Option<seq<Photo>>>)
    requires ChooseQuery(answers, manifests).Success?
    requires |answers| >= 4 && answers[3] == ""
    requires var q := ChooseQuery(answers, manifests).value;
      AvailableCameras(discover(q)) != [] && fetch(q, "") == discover(q)
    ensures var q := ChooseQuery(answers, manifests).value;
      FetchPhotos(answers, manifests, discover, fetch)
        == Saved(q, "", discover(q).body.value)
  {
    var q := ChooseQuery(answers, manifests).value;
    var resp := discover(q);
    assert resp.Ok() && resp.body.Some? && resp.body.value != [];
    assert CameraParam(AvailableCameras(resp), answers[3]) == Some("");
    assert ChooseCameraAndFetch(q, answers, discover, fetch) == Report(resp, q, "");
  }

  /** A non-blank camera answer filters by the camera it names in the menu of
      discovered cameras. */
  lemma CameraChoice(answers: seq<string>,
                     manifests: Rover -> Fetched<Option<Manifest>>,
                     discover: Query -> Fetched<Option<seq<Photo>>>,
                     fetch: (Query, string) -> Fetched<Option<seq<Photo>>>)
    requires FetchPhotos(answers, manifests, discover, fetch).Saved?
    requires answers[3] != ""
    ensures var o := FetchPhotos(answers, manifests, discover, fetch);
      var cameras := AvailableCameras(discover(o.query));
      var n := ParseInt(answers[3]);
      n.Some? && 1 <= n.value <= |cameras| && o.cameraParam == "&camera=" + cameras[n.value - 1]
  {
    var o := FetchPhotos(answers, manifests, discover, fetch);
    var cameras := AvailableCameras(discover(o.query));
    assert CameraParam(cameras, answers[3]) == Some(o.cameraParam);
  }

  // ---------------------------------------------------------------------
  // Printed entries
  // ---------------------------------------------------------------------

  /** The entries printed after the file is written, numbered from `first`:
      one per photo, in the order received. */
  function ListingFrom(photos: seq<Photo>, first: nat): (entries: seq<Entry>)
    ensures |entries| == |photos|
    ensures forall i :: 0 <= i < |photos| ==>
      entries[i] == Entry(first + i, photos[i].earthDate, photos[i].cameraFullName, photos[i].imgSrc)
  {
    if photos == [] then []
    else
      [Entry(first, photos[0].earthDate, photos[0].cameraFullName, photos[0].imgSrc)]
      + ListingFrom(photos[1..], first + 1)
  }

  /** The printed entries, numbered from 1. */
  function Listing(photos: seq<Photo>): (entries: seq<Entry>)
    ensures |entries| == |photos|
    ensures forall i :: 0 <= i < |photos| ==>
      entries[i] == Entry(i + 1, photos[i].earthDate, photos[i].cameraFullName, photos[i].imgSrc)
  {
    ListingFrom(photos, 1)
  }
}
