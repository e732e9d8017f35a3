# ArcGISPyGnu: base-URL validation and REST answers, modelled in Dafny

ArcGISPyGnu is a small Python client for the ArcGIS REST services directory.
This project models its core:

- `checkBaseUrl` (`src/ArcGISPyGnu/utils.py`) validates a base URL against a regular
  expression. It exits when the URL does not match or contains `?` or `#`, and
  otherwise returns the URL ending in `/`.
- The functions of `src/ArcGISPyGnu/core.py` each validate the base URL and request
  `<validated URL>?f=json`. Then:
  - `restGetVersion`, `restGetFolders` and `restGetServices` return one field of the
    decoded body, a fixed sentinel string when the body lacks that field, or
    `An error occurred: <message>` when the request fails.
  - `restGetServiceTypes` returns the distinct `type` values of the services list.
  - `restGetServiceByType` returns the names of the services of one type, in list order.
  - `getVersion`, `getFolders`, `getServices`, `getServiceTypes` and `getServiceByType`
    are synonyms of the above.

Files:

- `results.dfy` (`Results`): the `Result` type the model uses in place of `sys.exit` and
  raised exceptions.
- `json.dfy` (`Json`): decoded JSON values, and one HTTP request's outcome: the decoded
  object, or the message of a `requests.RequestException`.
- `utils.dfy` (`Utils`): the regular expression, written out declaratively, and
  `checkBaseUrl`.
  - `FullMatch` says the pattern matches a string as a whole: the string splits into
    scheme, optional credentials, host (IPv4 address or domain name), optional port, path,
    optional query and optional fragment. Python's `re` finds a match whenever such a split
    exists, so no backtracking order is modelled.
  - `PythonMatch` is what `re.match` with the pattern's trailing `$` decides. It also
    accepts a whole-string match followed by one final newline.
  - `\d` is restricted to ASCII digits (see "Left out").
  - `CheckBaseUrlAsWritten` is `checkBaseUrl` as written. `CheckBaseUrl` is the corrected
    version of the Finding below, which matches the whole string.
- `core.dfy` (`Core`): the REST functions. The HTTP request and the JSON decoding are the
  parameter `fetch: string -> Response`, so each contract says which URL is requested.
  - The functions named after the source validate as written, as the source does.
  - `CorrectedRestGetServices` and `CorrectedRestGetServiceByType` are the same pipeline with
    the corrected validation.

The doc comment of `checkBaseUrl` says the URL must not contain a path. The code accepts a
path, and only `?` and `#` are refused. The model follows the code.
`Utils.PathIsAccepted` proves that the URL of `tests/test_core.py` is accepted.

## Model

| member | source | states |
|---|---|---|
| Utils.FullMatch | src/ArcGISPyGnu/utils.py:19-33 | The pattern matches the string as a whole: scheme, optional credentials, IPv4 or domain host, optional port, path, optional query, optional fragment. |
| Utils.PythonMatch | src/ArcGISPyGnu/utils.py:32-36 | `re.match` with the trailing `$`: a whole-string match, or a whole-string match followed by one final newline. |
| Utils.Validate | src/ArcGISPyGnu/utils.py:37-50 | A non-matching URL fails with the format error. A matching one with `?` or `#` fails with the query error. Otherwise the result extends the URL by at most one character, ends in `/`, has no `?`/`#`, and is the URL itself when that already ends in `/`. |
| Utils.CheckBaseUrlAsWritten | src/ArcGISPyGnu/utils.py:19-50 | The format error when `re.match` with `$` fails, and the query error when it matches but the URL has `?` or `#`. Otherwise accepted: the result ends in `/`, has no `?`/`#`, and is the URL, with `/` added when it did not end in one. |
| Utils.CheckBaseUrl | src/ArcGISPyGnu/utils.py:19-50 | The corrected version: the same errors and result, with the pattern matching the whole URL. |
| Utils.FullMatchHasScheme | src/ArcGISPyGnu/utils.py:20-20 | Every string the pattern matches as a whole starts with `http://` or `https://`. |
| Utils.SchemeRequired | src/ArcGISPyGnu/utils.py:36-39 | A URL without `http://` or `https://` is rejected with the format error, both as written and corrected. |
| Utils.FullMatchNoSpace | src/ArcGISPyGnu/utils.py:20-32 | No string the pattern matches as a whole contains a whitespace character. |
| Utils.AppendSlashMatches | src/ArcGISPyGnu/utils.py:47-48 | Appending `/` to a string the pattern matches as a whole, without query or fragment, keeps it a whole-string match. |
| Utils.CheckBaseUrlIdempotent | src/ArcGISPyGnu/utils.py:36-50 | The corrected validation of a validated URL returns it unchanged. |
| Utils.AgreeOnFullMatch | src/ArcGISPyGnu/utils.py:32-36 | On a string the pattern matches as a whole, the as-written and corrected validations give the same result. |
| Utils.AsWrittenRevalidation | src/ArcGISPyGnu/utils.py:32-50 | Validating an accepted URL's result again, as written, returns the same result when the pattern matched the whole URL, and the format error when it matched only thanks to a final newline. |
| Utils.SchemeAndHostIsAuthority | src/ArcGISPyGnu/utils.py:20-28 | A scheme followed by a host is an authority of the pattern. |
| Utils.AuthorityAndPathMatches | src/ArcGISPyGnu/utils.py:20-30 | An authority followed by a path is a whole-string match. |
| Utils.AuthorityAndPathAccepted | src/ArcGISPyGnu/utils.py:19-48 | An authority without `?`/`#` followed by a non-empty path not ending in `/` is accepted and gains exactly one `/`, both as written and corrected. |
| Utils.ExampleHost | src/ArcGISPyGnu/utils.py:25-27 | `example.com` is a domain name of the pattern. |
| Utils.ExampleMatches | src/ArcGISPyGnu/utils.py:19-33 | `http://example.com` is a whole-string match and has no `?`/`#`. |
| Utils.PathIsAccepted | tests/test_core.py:7-7 | `http://example.com/arcgis/rest/services` is accepted, both as written and corrected, and becomes `http://example.com/arcgis/rest/services/`. |
| Utils.NewlineMatchesAsWritten | src/ArcGISPyGnu/utils.py:32-36 | As written, `$` lets a whole-string match followed by one newline through. |
| Utils.AsWrittenAcceptsTrailingNewline | src/ArcGISPyGnu/utils.py:32-48 | As written, a valid URL followed by a newline is accepted and normalised to that URL, a newline and `/`. |
| Utils.InnerNewlineRejected | src/ArcGISPyGnu/utils.py:36-39 | A URL followed by a newline and `/` is rejected with the format error, both as written and corrected. |
| Utils.AsWrittenNotIdempotent | src/ArcGISPyGnu/utils.py:32-48 | As written, for every valid URL `u`, `u` plus a newline is accepted, and its own result is then rejected. |
| Utils.AsWrittenNotIdempotentExample | src/ArcGISPyGnu/utils.py:32-48 | As written, `http://example.com` plus a newline is accepted as `http://example.com` plus newline and `/`, and that result is rejected. |
| Utils.CorrectedRejectsTrailingNewline | src/ArcGISPyGnu/utils.py:32-39 | The corrected validation rejects every URL that ends in a newline. |
| Core.RequestUrl | src/ArcGISPyGnu/core.py:18-18 | The requested URL: the validated URL followed by `?f=json`. |
| Core.RequestUrlShape | src/ArcGISPyGnu/core.py:18-18 | The requested URL starts with the base URL and has `/` just before `?f=json`. Its only `?` is the one of `?f=json`. |
| Core.FieldOrSentinel | src/ArcGISPyGnu/core.py:17-23 | The body's field when present, the sentinel string when absent, and a string made of `An error occurred: ` and the exception message when the request fails. |
| Core.Get | src/ArcGISPyGnu/core.py:15-23 | The common body of the three getters: exit on a failed validation, otherwise `FieldOrSentinel` of the answer to the one request. |
| Core.RestGetVersion | src/ArcGISPyGnu/core.py:15-23 | Exits, with the validation's error, exactly when the as-written validation fails. Otherwise it is `FieldOrSentinel` of the answer for the validated URL + `?f=json`, with `currentVersion` and `Version information not available.` |
| Core.RestGetFolders | src/ArcGISPyGnu/core.py:45-53 | As restGetVersion, for `folders` and `Folders information not available.` |
| Core.RestGetServices | src/ArcGISPyGnu/core.py:74-82 | As restGetVersion, for `services` and `Services information not available.` |
| Core.TypeSet | src/ArcGISPyGnu/core.py:108-108 | The set of the `type` values of the dict entries that have a `type` key. |
| Core.TypeSetSnoc | src/ArcGISPyGnu/core.py:108-108 | One more service adds its type to the set of types if it is a dict with a `type` key, and adds nothing otherwise. |
| Core.DistinctTypes | src/ArcGISPyGnu/core.py:108-109 | A type is in the list exactly when some dict entry with a `type` key has it, and no type is listed twice. |
| Core.ServiceTypes | src/ArcGISPyGnu/core.py:107-112 | A value that is not a list gives `[]`. A list with an unhashable type raises the TypeError. Otherwise the result holds each type of a typed dict entry exactly once, and nothing else. |
| Core.RestGetServiceTypes | src/ArcGISPyGnu/core.py:105-112 | Exits when the as-written validation fails. Otherwise it is `ServiceTypes` of the value restGetServices returns. |
| Core.Matches | src/ArcGISPyGnu/core.py:150-150 | An entry is a dict whose `type` equals the wanted string. An entry without `type` gives `None`, which equals no string. |
| Core.NameOf | src/ArcGISPyGnu/core.py:148-148 | The entry's `name`, or `None` when it has none. |
| Core.NamesOfType | src/ArcGISPyGnu/core.py:147-151 | The filtered list is never longer than the services list. |
| Core.NamesOfTypeAppend | src/ArcGISPyGnu/core.py:147-151 | The filter of a concatenation is the concatenation of the filters, so list order is kept. |
| Core.NamesOfTypeSingle | src/ArcGISPyGnu/core.py:148-150 | A single service gives its name (`None` when it has none) when it is a dict of the wanted type, and nothing otherwise. |
| Core.NamesOfTypeSkips | src/ArcGISPyGnu/core.py:150-150 | Removing a service that is not a dict of the wanted type, such as one without a `type`, leaves the result unchanged. |
| Core.NamesOfTypeSound | src/ArcGISPyGnu/core.py:147-151 | Every returned name is the name of a dict service of the wanted type. |
| Core.NamesOfTypeComplete | src/ArcGISPyGnu/core.py:147-151 | The name of every dict service of the wanted type is returned. |
| Core.NamesOfTypeEmpty | src/ArcGISPyGnu/core.py:147-152 | The result is empty exactly when no service is a dict of the wanted type. |
| Core.ServicesOfType | src/ArcGISPyGnu/core.py:146-155 | A value that is not a list gives `[]`, and a list gives a result no longer than itself. |
| Core.RestGetServiceByType | src/ArcGISPyGnu/core.py:137-155 | Exits with the first validation's error when that fails. Exits with the format error when the pattern matched the base URL only thanks to a final newline: the second validation, inside restGetServices, fails. So it answers exactly when the pattern matches the whole base URL and it has no `?`/`#`. It then filters what restGetServices returns for the base URL. |
| Core.GetVersion | src/ArcGISPyGnu/core.py:27-31 | Equal to restGetVersion on every input. |
| Core.GetFolders | src/ArcGISPyGnu/core.py:56-60 | Equal to restGetFolders on every input. |
| Core.GetServices | src/ArcGISPyGnu/core.py:85-89 | Equal to restGetServices on every input. |
| Core.GetServiceTypes | src/ArcGISPyGnu/core.py:115-119 | Equal to restGetServiceTypes on every input. |
| Core.GetServiceByType | src/ArcGISPyGnu/core.py:158-162 | Equal to restGetServiceByType on every input. |
| Core.MissingSchemeExits | src/ArcGISPyGnu/core.py:15-15 | Without `http://` or `https://` all five functions exit with the format error, whatever the server answers. |
| Core.OneRequest | src/ArcGISPyGnu/core.py:17-20 | All five functions depend only on the answer to the one request for the validated URL + `?f=json`. |
| Core.RevalidationAnswersAlike | src/ArcGISPyGnu/core.py:137-144 | Passing restGetServices the URL its validation returned gives the same answer when the pattern matched the whole base URL, and exits with the format error otherwise. |
| Core.ServiceByTypeExitsWhereServicesAnswer | src/ArcGISPyGnu/core.py:137-144 | For every valid URL followed by a newline, restGetServices answers while restGetServiceByType exits with the format error. |
| Core.NonListServicesGiveEmpty | src/ArcGISPyGnu/core.py:107-112 | When the services value is not a list, restGetServiceTypes returns `[]`. So does restGetServiceByType when the pattern matches the whole base URL. |
| Core.NoServicesGiveEmpty | src/ArcGISPyGnu/core.py:80-82 | A failed request, or a body without `services`, makes restGetServiceTypes return `[]`. restGetServiceByType does too when the pattern matches the whole base URL. |
| Core.CorrectedRestGetServices | src/ArcGISPyGnu/core.py:74-82 | restGetServices with the corrected validation: it answers exactly when the pattern matches the whole base URL and it has no `?`/`#`. |
| Core.CorrectedRestGetServiceByType | src/ArcGISPyGnu/core.py:137-155 | restGetServiceByType with the corrected validation: exits exactly when that validation fails, and otherwise filters what the corrected restGetServices returns for the base URL. Validating twice equals validating once. |
| Core.CorrectedRevalidationAnswersAlike | src/ArcGISPyGnu/core.py:137-144 | With the corrected validation, passing the validated URL gives the same answer as passing the base URL. |
| Core.CorrectedAgreesOnFullMatch | src/ArcGISPyGnu/core.py:137-155 | On base URLs the pattern matches as a whole, the corrected and as-written pipelines give the same results. |
| Core.SampleNamesOfType | src/ArcGISPyGnu/core.py:147-151 | Services X (MapServer), Y (FeatureServer) and Z (MapServer) filtered by `MapServer` give the names X and Z, in that order. |
| Core.SampleTypes | src/ArcGISPyGnu/core.py:108-108 | The same services have exactly the types MapServer and FeatureServer. |

## Left out

- HTTP and JSON decoding: `requests.get`, `raise_for_status` and `response.json()` are the
  parameter `fetch`. A failure of any of them is a `RequestError` carrying `str(e)`. Since
  requests 2.27 a JSON decoding error is a `requests.RequestException`, so it falls into
  this case too.
- A body that decodes to something other than a JSON object: `data.get` would raise
  AttributeError. `Response` only carries objects.
- Floating-point JSON numbers: numbers are integers.
- `print` calls: diagnostics only; the model returns values.
- `sys.exit(1)`: modelled as the failure `Exit(reason)`.
- The `isinstance(serviceType, str)` guard of core.py:140-142: `serviceType` is a string by
  type here. The guard's `sys.exit` would raise NameError, because core.py does not import
  `sys`.
- Core.DistinctTypes: `list(set)` has no specified order in Python. The model lists types by
  first occurrence, and its contract states only membership and distinctness.
- Core.ServiceTypes: Python's set equality makes `True` equal to `1` and `False` equal to `0`.
  The model compares JSON values structurally, so it keeps both.
- Utils.IsDigit: Python's `\d` on str patterns also matches non-ASCII decimal digits. The
  model accepts ASCII digits only. It therefore rejects IP addresses and ports
  (`\d{1,3}` and `\d{2,5}`, utils.py:23 and 29) written with other digits.
- The regular expression's backtracking order and cost: only which strings match is modelled.
- Folder walking and pagination over the services directory: core.py has no code for them,
  so they are not part of this model.
- setup.py: packaging only. tests/test_core.py contributes only its URL, in
  Utils.PathIsAccepted.

## Findings

| source | as written | input that shows it | evidently intended | confidence | as-written member | corrected member |
|---|---|---|---|---|---|---|
| src/ArcGISPyGnu/utils.py:32-36 | The pattern ends in `$`, which `re.match` also lets match just before a final newline. `http://example.com\n` is therefore accepted and normalised to `http://example.com\n/`, which the same function then rejects. So a validated URL is not always valid. On such base URLs restGetServiceByType, which validates twice, exits where restGetServices answers (Core.ServiceByTypeExitsWhereServicesAnswer). | `http://example.com\n` | Match the whole string (`\Z` or `re.fullmatch`), so that validation is idempotent and validating twice equals validating once (Core.CorrectedRestGetServiceByType) | not executed | Utils.AsWrittenNotIdempotentExample | Utils.CheckBaseUrlIdempotent |
