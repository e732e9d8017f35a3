/**
 * The ArcGIS REST client functions of core.py.  Each one validates its base
 * URL with `checkBaseUrl`, requests `<validated URL>?f=json` and post-processes
 * the decoded body.  The HTTP request is the parameter `fetch`, so the model
 * states which URL is requested and what is done with the answer.
 */
module Core {
  import opened Results
  import opened Json
  import opened Utils

  /**
   * Why a call ends without a value: the `sys.exit` of checkBaseUrl, or the
   * TypeError the set comprehension of restGetServiceTypes raises on a service
   * type that is a JSON list or object (both unhashable in Python).
   */
  datatype Failure = Exit(reason: UrlError) | Unhashable

  const VersionField: string := "currentVersion"
  const FoldersField: string := "folders"
  const ServicesField: string := "services"
  const VersionSentinel: string := "Version information not available."
  const FoldersSentinel: string := "Folders information not available."
  const ServicesSentinel: string := "Services information not available."
  const ErrorPrefix: string := "An error occurred: "
  const JsonQuery: string := "?f=json"

  // ---------------------------------------------------------------------
  // One request: restGetVersion, restGetFolders, restGetServices

  /** The URL requested for a validated base URL (core.py:18, 48, 77). */
  function RequestUrl(validatedUrl: string): string {
    validatedUrl + JsonQuery
  }

  /**
   * The request goes to the base URL (with its '/' added) followed by
   * `?f=json`: it starts with the base URL, has '/' just before the query, and
   * the query's '?' is the only one in it.
   */
  lemma RequestUrlShape(baseUrl: string)
    requires CheckBaseUrlAsWritten(baseUrl).Ok?
    ensures baseUrl <= RequestUrl(CheckBaseUrlAsWritten(baseUrl).value)
    ensures var u := RequestUrl(CheckBaseUrlAsWritten(baseUrl).value);
      u[|u| - |JsonQuery| - 1] == '/'
    ensures var u := RequestUrl(CheckBaseUrlAsWritten(baseUrl).value);
      forall k | 0 <= k < |u| :: u[k] == '?' <==> k == |u| - |JsonQuery|
  {
    var v := CheckBaseUrlAsWritten(baseUrl).value;
    var u := RequestUrl(v);
    assert u[|v| - 1] == v[|v| - 1];
    forall k | 0 <= k < |u| ensures u[k] == '?' <==> k == |u| - |JsonQuery| {
      if k < |v| {
        assert u[k] == v[k];
      } else {
        assert u[k] == JsonQuery[k - |v|];
      }
    }
  }

  /**
   * `data.get(field, sentinel)` on the decoded body, or the message of the
   * `requests.RequestException` the request raised (core.py:17-23).
   */
  function FieldOrSentinel(response: Response, field: string, sentinel: string): (answer: Json)
    ensures response.Fetched? && field in response.data ==> answer == response.data[field]
    ensures response.Fetched? && field !in response.data ==> answer == JString(sentinel)
    ensures response.RequestError? ==>
      answer.JString? && ErrorPrefix <= answer.s && answer.s[|ErrorPrefix|..] == response.message
  {
    match response
    case Fetched(data) => if field in data then data[field] else JString(sentinel)
    case RequestError(message) => JString(ErrorPrefix + message)
  }

  /**
   * The shared body of the three single-request functions, given the outcome
   * of validating the base URL: exit on a failed validation, otherwise one
   * request to the validated URL and its field or sentinel.
   */
  function Get(validated: Result<string, UrlError>, fetch: string -> Response, field: string, sentinel: string): Result<Json, Failure> {
    match validated
    case Err(e) => Err(Exit(e))
    case Ok(v) => Ok(FieldOrSentinel(fetch(RequestUrl(v)), field, sentinel))
  }

  /** restGetVersion (core.py:4-23). */
  function RestGetVersion(baseUrl: string, fetch: string -> Response): (r: Result<Json, Failure>)
    ensures r.Ok? <==> PythonMatch(baseUrl) && !HasQueryOrFragment(baseUrl)
    ensures r.Err? ==> r.error == Exit(CheckBaseUrlAsWritten(baseUrl).error)
    ensures r.Ok? ==>
      r.value == FieldOrSentinel(fetch(RequestUrl(CheckBaseUrlAsWritten(baseUrl).value)), VersionField, VersionSentinel)
  {
    Get(CheckBaseUrlAsWritten(baseUrl), fetch, VersionField, VersionSentinel)
  }

  /** restGetFolders (core.py:34-53). */
  function RestGetFolders(baseUrl: string, fetch: string -> Response): (r: Result<Json, Failure>)
    ensures r.Ok? <==> PythonMatch(baseUrl) && !HasQueryOrFragment(baseUrl)
    ensures r.Err? ==> r.error == Exit(CheckBaseUrlAsWritten(baseUrl).error)
    ensures r.Ok? ==>
      r.value == FieldOrSentinel(fetch(RequestUrl(CheckBaseUrlAsWritten(baseUrl).value)), FoldersField, FoldersSentinel)
  {
    Get(CheckBaseUrlAsWritten(baseUrl), fetch, FoldersField, FoldersSentinel)
  }

  /** restGetServices (core.py:63-82). */
  function RestGetServices(baseUrl: string, fetch: string -> Response): (r: Result<Json, Failure>)
    ensures r.Ok? <==> PythonMatch(baseUrl) && !HasQueryOrFragment(baseUrl)
    ensures r.Err? ==> r.error == Exit(CheckBaseUrlAsWritten(baseUrl).error)
    ensures r.Ok? ==>
      r.value == FieldOrSentinel(fetch(RequestUrl(CheckBaseUrlAsWritten(baseUrl).value)), ServicesField, ServicesSentinel)
  {
    Get(CheckBaseUrlAsWritten(baseUrl), fetch, ServicesField, ServicesSentinel)
  }

  // ---------------------------------------------------------------------
  // Distinct service types: the set comprehension of restGetServiceTypes

  /** `isinstance(service, dict) and "type" in service` (core.py:108). */
  predicate HasType(service: Json) {
    service.JObject? && "type" in service.fields
  }

  /** A value Python cannot put in a set. */
  predicate IsUnhashable(value: Json) {
    value.JArray? || value.JObject?
  }

  /** Some typed entry has a type Python cannot put in a set. */
  predicate SomeTypeUnhashable(services: seq<Json>) {
    exists i | 0 <= i < |services| :: HasType(services[i]) && IsUnhashable(services[i].fields["type"])
  }

  /** The set the comprehension of core.py:108 builds. */
  function TypeSet(services: seq<Json>): set<Json> {
    set i | 0 <= i < |services| && HasType(services[i]) :: services[i].fields["type"]
  }

  /** No element occurs twice. */
  predicate Distinct(s: seq<Json>) {
    forall i, j | 0 <= i < j < |s| :: s[i] != s[j]
  }

  /** One more entry adds its type, if it has one, and nothing else. */
  lemma TypeSetSnoc(services: seq<Json>, last: Json)
    ensures TypeSet(services + [last]) == TypeSet(services) + (if HasType(last) then {last.fields["type"]} else {})
  {
    var all := services + [last];
    forall t | t in TypeSet(all)
      ensures t in TypeSet(services) + (if HasType(last) then {last.fields["type"]} else {})
    {
      var i :| 0 <= i < |all| && HasType(all[i]) && all[i].fields["type"] == t;
      if i < |services| {
        assert all[i] == services[i];
      }
    }
    forall t | t in TypeSet(services) ensures t in TypeSet(all) {
      var i :| 0 <= i < |services| && HasType(services[i]) && services[i].fields["type"] == t;
      assert all[i] == services[i];
    }
    if HasType(last) {
      assert all[|services|] == last;
    }
  }

  /**
   * `list(service_types)`: the distinct types, each once.  Python leaves the
   * order of a set unspecified; this one lists them by first occurrence.
   */
  function DistinctTypes(services: seq<Json>): (r: seq<Json>)
    ensures forall t :: t in r <==> t in TypeSet(services)
    ensures Distinct(r)
    decreases |services|
  {
    if services == [] then []
    else
      var init := services[..|services| - 1];
      var last := services[|services| - 1];
      var rest := DistinctTypes(init);
      assert services == init + [last];
      TypeSetSnoc(init, last);
      if HasType(last) && last.fields["type"] !in rest then rest + [last.fields["type"]] else rest
  }

  /**
   * Lines 107-112 of core.py on the value restGetServices answered: the
   * distinct types of the typed entries of a list, and `[]` for anything else.
   */
  function ServiceTypes(services: Json): (r: Result<seq<Json>, Failure>)
    ensures !services.JArray? ==> r == Ok([])
    ensures services.JArray? ==> (r.Err? <==> SomeTypeUnhashable(services.items))
    ensures r.Err? ==> r.error == Unhashable
    ensures r.Ok? ==> Distinct(r.value)
    ensures r.Ok? && services.JArray? ==>
      forall t :: t in r.value <==> exists i | 0 <= i < |services.items| :: HasType(services.items[i]) && services.items[i].fields["type"] == t
  {
    match services
    case JArray(items) =>
      if SomeTypeUnhashable(items) then Err(Unhashable) else Ok(DistinctTypes(items))
    case _ => Ok([])
  }

  /** restGetServiceTypes (core.py:92-112). */
  function RestGetServiceTypes(baseUrl: string, fetch: string -> Response): (r: Result<seq<Json>, Failure>)
    ensures CheckBaseUrlAsWritten(baseUrl).Err? ==> r == Err(Exit(CheckBaseUrlAsWritten(baseUrl).error))
    ensures CheckBaseUrlAsWritten(baseUrl).Ok? ==> r == ServiceTypes(RestGetServices(baseUrl, fetch).value)
  {
    match RestGetServices(baseUrl, fetch)
    case Err(f) => Err(f)
    case Ok(services) => ServiceTypes(services)
  }

  // ---------------------------------------------------------------------
  // Services of one type: the list comprehension of restGetServiceByType

  /** `isinstance(service, dict) and service.get("type") == serviceType` (core.py:150). */
  predicate Matches(service: Json, serviceType: string) {
    service.JObject? && "type" in service.fields && service.fields["type"] == JString(serviceType)
  }

  /** `service.get("name")`, which is None for an entry without a name (core.py:148). */
  function NameOf(service: Json): Json
    requires service.JObject?
  {
    if "name" in service.fields then service.fields["name"] else JNull
  }

  /** The names of the matching entries, in the order of the list (core.py:147-151). */
  function NamesOfType(services: seq<Json>, serviceType: string): (r: seq<Json>)
    ensures |r| <= |services|
  {
    if services == [] then []
    else
      var first := if Matches(services[0], serviceType) then [NameOf(services[0])] else [];
      first + NamesOfType(services[1..], serviceType)
  }

  /** The filter distributes over concatenation, so it keeps the order of the list. */
  lemma {:induction false} NamesOfTypeAppend(a: seq<Json>, b: seq<Json>, serviceType: string)
    ensures NamesOfType(a + b, serviceType) == NamesOfType(a, serviceType) + NamesOfType(b, serviceType)
    decreases |a|
  {
    if a != [] {
      var first := if Matches(a[0], serviceType) then [NameOf(a[0])] else [];
      assert (a + b)[1..] == a[1..] + b;
      assert (a + b)[0] == a[0];
      NamesOfTypeAppend(a[1..], b, serviceType);
      assert NamesOfType(a + b, serviceType) == first + NamesOfType(a[1..] + b, serviceType);
    } else {
      assert a + b == b;
    }
  }

  /** A single entry gives its name when it matches and nothing otherwise. */
  lemma NamesOfTypeSingle(service: Json, serviceType: string)
    ensures Matches(service, serviceType) ==> NamesOfType([service], serviceType) == [NameOf(service)]
    ensures !Matches(service, serviceType) ==> NamesOfType([service], serviceType) == []
  {
    assert [service][1..] == [];
  }

  /** An entry that is not a dict of the wanted type, such as an untyped one, contributes nothing. */
  lemma NamesOfTypeSkips(a: seq<Json>, service: Json, b: seq<Json>, serviceType: string)
    requires !Matches(service, serviceType)
    ensures NamesOfType(a + [service] + b, serviceType) == NamesOfType(a + b, serviceType)
  {
    NamesOfTypeAppend(a + [service], b, serviceType);
    NamesOfTypeAppend(a, [service], serviceType);
    NamesOfTypeSingle(service, serviceType);
    NamesOfTypeAppend(a, b, serviceType);
  }

  /** Every name returned is the name of a matching entry. */
  lemma {:induction false} NamesOfTypeSound(services: seq<Json>, serviceType: string)
    ensures forall n | n in NamesOfType(services, serviceType) ::
      exists i | 0 <= i < |services| :: Matches(services[i], serviceType) && NameOf(services[i]) == n
    decreases |services|
  {
    if services != [] {
      NamesOfTypeSound(services[1..], serviceType);
      forall n | n in NamesOfType(services, serviceType)
        ensures exists i | 0 <= i < |services| :: Matches(services[i], serviceType) && NameOf(services[i]) == n
      {
        if Matches(services[0], serviceType) && n == NameOf(services[0]) {
        } else {
          assert n in NamesOfType(services[1..], serviceType);
          var i :| 0 <= i < |services[1..]| && Matches(services[1..][i], serviceType) && NameOf(services[1..][i]) == n;
          assert services[1..][i] == services[i + 1];
        }
      }
    }
  }

  /** The name of every matching entry is returned. */
  lemma {:induction false} NamesOfTypeComplete(services: seq<Json>, serviceType: string)
    ensures forall i | 0 <= i < |services| && Matches(services[i], serviceType) ::
      NameOf(services[i]) in NamesOfType(services, serviceType)
    decreases |services|
  {
    if services != [] {
      NamesOfTypeComplete(services[1..], serviceType);
      forall i | 0 <= i < |services| && Matches(services[i], serviceType)
        ensures NameOf(services[i]) in NamesOfType(services, serviceType)
      {
        if i > 0 {
          assert services[1..][i - 1] == services[i];
        }
      }
    }
  }

  /** Nothing is returned exactly when no entry matches. */
  lemma {:induction false} NamesOfTypeEmpty(services: seq<Json>, serviceType: string)
    ensures NamesOfType(services, serviceType) == [] <==>
      forall i | 0 <= i < |services| :: !Matches(services[i], serviceType)
    decreases |services|
  {
    if services != [] {
      NamesOfTypeEmpty(services[1..], serviceType);
      if forall i | 0 <= i < |services[1..]| :: !Matches(services[1..][i], serviceType) {
        forall i | 0 < i < |services| ensures !Matches(services[i], serviceType) {
          assert services[i] == services[1..][i - 1];
        }
      }
    }
  }

  /**
   * Lines 146-155 of core.py on the value restGetServices answered: the
   * names of the entries of the wanted type for a list, `[]` for anything else.
   */
  function ServicesOfType(services: Json, serviceType: string): (r: seq<Json>)
    ensures !services.JArray? ==> r == []
    ensures services.JArray? ==> |r| <= |services.items|
  {
    match services
    case JArray(items) => NamesOfType(items, serviceType)
    case _ => []
  }

  /**
   * restGetServiceByType (core.py:122-155).  It validates the base URL and
   * hands the validated URL to restGetServices, which validates it again.
   * When the pattern matched the whole base URL the second validation changes
   * nothing; when it matched only thanks to a final newline, the validated
   * URL holds that newline before its '/' and the second validation exits.
   */
  function RestGetServiceByType(baseUrl: string, serviceType: string, fetch: string -> Response): (r: Result<seq<Json>, Failure>)
    ensures CheckBaseUrlAsWritten(baseUrl).Err? ==> r == Err(Exit(CheckBaseUrlAsWritten(baseUrl).error))
    ensures CheckBaseUrlAsWritten(baseUrl).Ok? && !FullMatch(baseUrl) ==> r == Err(Exit(InvalidFormat))
    ensures r.Ok? <==> FullMatch(baseUrl) && !HasQueryOrFragment(baseUrl)
    ensures r.Ok? ==> r.value == ServicesOfType(RestGetServices(baseUrl, fetch).value, serviceType)
  {
    match CheckBaseUrlAsWritten(baseUrl)
    case Err(e) => Err(Exit(e))
    case Ok(validatedUrl) =>
      AsWrittenRevalidation(baseUrl);
      match RestGetServices(validatedUrl, fetch)
      case Err(f) => Err(f)
      case Ok(services) => Ok(ServicesOfType(services, serviceType))
  }

  // ---------------------------------------------------------------------
  // Synonyms (core.py:27-31, 56-60, 85-89, 115-119, 158-162)

  function GetVersion(baseUrl: string, fetch: string -> Response): (r: Result<Json, Failure>)
    ensures r == RestGetVersion(baseUrl, fetch)
  {
    RestGetVersion(baseUrl, fetch)
  }

  function GetFolders(baseUrl: string, fetch: string -> Response): (r: Result<Json, Failure>)
    ensures r == RestGetFolders(baseUrl, fetch)
  {
    RestGetFolders(baseUrl, fetch)
  }

  function GetServices(baseUrl: string, fetch: string -> Response): (r: Result<Json, Failure>)
    ensures r == RestGetServices(baseUrl, fetch)
  {
    RestGetServices(baseUrl, fetch)
  }

  function GetServiceTypes(baseUrl: string, fetch: string -> Response): (r: Result<seq<Json>, Failure>)
    ensures r == RestGetServiceTypes(baseUrl, fetch)
  {
    RestGetServiceTypes(baseUrl, fetch)
  }

  function GetServiceByType(baseUrl: string, serviceType: string, fetch: string -> Response): (r: Result<seq<Json>, Failure>)
    ensures r == RestGetServiceByType(baseUrl, serviceType, fetch)
  {
    RestGetServiceByType(baseUrl, serviceType, fetch)
  }

  // ---------------------------------------------------------------------
  // Properties of the composed functions

  /** Without `http://` or `https://` every function exits, whatever the server would answer. */
  lemma MissingSchemeExits(baseUrl: string, serviceType: string, fetch: string -> Response)
    requires !StartsWithScheme(baseUrl)
    ensures RestGetVersion(baseUrl, fetch) == Err(Exit(InvalidFormat))
    ensures RestGetFolders(baseUrl, fetch) == Err(Exit(InvalidFormat))
    ensures RestGetServices(baseUrl, fetch) == Err(Exit(InvalidFormat))
    ensures RestGetServiceTypes(baseUrl, fetch) == Err(Exit(InvalidFormat))
    ensures RestGetServiceByType(baseUrl, serviceType, fetch) == Err(Exit(InvalidFormat))
  {
    SchemeRequired(baseUrl);
  }

  /**
   * Each function makes its one request to the validated URL with `?f=json`:
   * two servers that answer that request alike give the same results.
   */
  lemma OneRequest(baseUrl: string, serviceType: string, fetch: string -> Response, other: string -> Response)
    requires CheckBaseUrlAsWritten(baseUrl).Ok? ==>
      fetch(RequestUrl(CheckBaseUrlAsWritten(baseUrl).value)) == other(RequestUrl(CheckBaseUrlAsWritten(baseUrl).value))
    ensures RestGetVersion(baseUrl, fetch) == RestGetVersion(baseUrl, other)
    ensures RestGetFolders(baseUrl, fetch) == RestGetFolders(baseUrl, other)
    ensures RestGetServices(baseUrl, fetch) == RestGetServices(baseUrl, other)
    ensures RestGetServiceTypes(baseUrl, fetch) == RestGetServiceTypes(baseUrl, other)
    ensures RestGetServiceByType(baseUrl, serviceType, fetch) == RestGetServiceByType(baseUrl, serviceType, other)
  {
  }

  /**
   * Passing restGetServices the URL its validation returned gives the same
   * answer exactly when the pattern matched the whole base URL; otherwise the
   * second call exits.
   */
  lemma RevalidationAnswersAlike(baseUrl: string, fetch: string -> Response)
    requires CheckBaseUrlAsWritten(baseUrl).Ok?
    ensures FullMatch(baseUrl) ==>
      RestGetServices(CheckBaseUrlAsWritten(baseUrl).value, fetch) == RestGetServices(baseUrl, fetch)
    ensures !FullMatch(baseUrl) ==>
      RestGetServices(CheckBaseUrlAsWritten(baseUrl).value, fetch) == Err(Exit(InvalidFormat))
  {
    AsWrittenRevalidation(baseUrl);
  }

  /**
   * For every valid base URL followed by a newline, restGetServices makes its
   * request and answers, while restGetServiceByType exits.
   */
  lemma ServiceByTypeExitsWhereServicesAnswer(url: string, serviceType: string, fetch: string -> Response)
    requires FullMatch(url) && !HasQueryOrFragment(url)
    ensures RestGetServices(url + "\n", fetch).Ok?
    ensures RestGetServiceByType(url + "\n", serviceType, fetch) == Err(Exit(InvalidFormat))
  {
    AsWrittenAcceptsTrailingNewline(url);
    CorrectedRejectsTrailingNewline(url);
    JoinNoQueryOrFragment(url, "\n");
  }

  /**
   * When the services value is not a list (the error message of a failed
   * request, the sentinel of a body without services, or any other value),
   * restGetServiceTypes answers `[]`, and so does restGetServiceByType when
   * its second validation passes.
   */
  lemma NonListServicesGiveEmpty(baseUrl: string, serviceType: string, fetch: string -> Response)
    requires RestGetServices(baseUrl, fetch).Ok? && !RestGetServices(baseUrl, fetch).value.JArray?
    ensures RestGetServiceTypes(baseUrl, fetch) == Ok([])
    ensures FullMatch(baseUrl) ==> RestGetServiceByType(baseUrl, serviceType, fetch) == Ok([])
  {
  }

  /** A failed request or a body without `services` makes the type functions answer `[]`. */
  lemma NoServicesGiveEmpty(baseUrl: string, serviceType: string, fetch: string -> Response)
    requires CheckBaseUrlAsWritten(baseUrl).Ok?
    requires var response := fetch(RequestUrl(CheckBaseUrlAsWritten(baseUrl).value));
      response.RequestError? || ServicesField !in response.data
    ensures RestGetServiceTypes(baseUrl, fetch) == Ok([])
    ensures FullMatch(baseUrl) ==> RestGetServiceByType(baseUrl, serviceType, fetch) == Ok([])
  {
    NonListServicesGiveEmpty(baseUrl, serviceType, fetch);
  }

  // ---------------------------------------------------------------------
  // The same pipeline with the corrected validation

  /** restGetServices validating with the corrected `checkBaseUrl`. */
  function CorrectedRestGetServices(baseUrl: string, fetch: string -> Response): (r: Result<Json, Failure>)
    ensures r.Ok? <==> FullMatch(baseUrl) && !HasQueryOrFragment(baseUrl)
    ensures r.Err? ==> r.error == Exit(CheckBaseUrl(baseUrl).error)
    ensures r.Ok? ==>
      r.value == FieldOrSentinel(fetch(RequestUrl(CheckBaseUrl(baseUrl).value)), ServicesField, ServicesSentinel)
  {
    Get(CheckBaseUrl(baseUrl), fetch, ServicesField, ServicesSentinel)
  }

  /**
   * restGetServiceByType validating with the corrected `checkBaseUrl`:
   * validating twice is the same as validating once.
   */
  function CorrectedRestGetServiceByType(baseUrl: string, serviceType: string, fetch: string -> Response): (r: Result<seq<Json>, Failure>)
    ensures CheckBaseUrl(baseUrl).Err? ==> r == Err(Exit(CheckBaseUrl(baseUrl).error))
    ensures CheckBaseUrl(baseUrl).Ok? ==>
      r == Ok(ServicesOfType(CorrectedRestGetServices(baseUrl, fetch).value, serviceType))
  {
    match CheckBaseUrl(baseUrl)
    case Err(e) => Err(Exit(e))
    case Ok(validatedUrl) =>
      CheckBaseUrlIdempotent(baseUrl);
      match CorrectedRestGetServices(validatedUrl, fetch)
      case Err(f) => Err(f)
      case Ok(services) => Ok(ServicesOfType(services, serviceType))
  }

  /** With the corrected validation, passing the validated URL gives the same answer. */
  lemma CorrectedRevalidationAnswersAlike(baseUrl: string, fetch: string -> Response)
    requires CheckBaseUrl(baseUrl).Ok?
    ensures CorrectedRestGetServices(CheckBaseUrl(baseUrl).value, fetch) == CorrectedRestGetServices(baseUrl, fetch)
  {
    CheckBaseUrlIdempotent(baseUrl);
  }

  /** The corrected and as-written pipelines agree on base URLs the pattern matches as a whole. */
  lemma CorrectedAgreesOnFullMatch(baseUrl: string, serviceType: string, fetch: string -> Response)
    requires FullMatch(baseUrl)
    ensures CorrectedRestGetServices(baseUrl, fetch) == RestGetServices(baseUrl, fetch)
    ensures CorrectedRestGetServiceByType(baseUrl, serviceType, fetch) == RestGetServiceByType(baseUrl, serviceType, fetch)
  {
    AgreeOnFullMatch(baseUrl);
  }

  // ---------------------------------------------------------------------
  // A services list like the ones the ArcGIS REST directory returns

  /** Three services X, Y and Z, two of them map services. */
  function SampleServices(): seq<Json> {
    [ JObject(map["name" := JString("X"), "type" := JString("MapServer")]),
      JObject(map["name" := JString("Y"), "type" := JString("FeatureServer")]),
      JObject(map["name" := JString("Z"), "type" := JString("MapServer")]) ]
  }

  /** Filtering by `MapServer` keeps X and Z, in that order. */
  lemma SampleNamesOfType()
    ensures NamesOfType(SampleServices(), "MapServer") == [JString("X"), JString("Z")]
  {
    var s := SampleServices();
    assert s == [s[0]] + [s[1]] + [s[2]];
    NamesOfTypeAppend([s[0]] + [s[1]], [s[2]], "MapServer");
    NamesOfTypeAppend([s[0]], [s[1]], "MapServer");
    NamesOfTypeSingle(s[0], "MapServer");
    NamesOfTypeSingle(s[1], "MapServer");
    NamesOfTypeSingle(s[2], "MapServer");
  }

  /** The distinct types are MapServer and FeatureServer. */
  lemma SampleTypes()
    ensures TypeSet(SampleServices()) == {JString("MapServer"), JString("FeatureServer")}
  {
    var s := SampleServices();
    assert HasType(s[0]) && HasType(s[1]) && HasType(s[2]);
    assert s[0].fields["type"] == JString("MapServer");
    assert s[1].fields["type"] == JString("FeatureServer");
  }
}
