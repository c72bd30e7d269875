# pica request bodies, modelled in Dafny

pica is a command-line API tester. An API definition script declares
requests: a method, a URL template, headers and a parameter bag per method,
held in the script's scope under the lower-cased method name (`post`,
`put`, ...) next to a `baseUrl`. `body.go` turns one declared request into
an `*http.Request`:

- `CreateHttpRequest` picks the bag. A GET request uses a nil bag. Any
  other method uses `Lookup(lower(method))`, asserted to be a map.
- It then switches on the first `Content-Type` header:
  - URL-encoded form (`createFormUrlEncodedRequest`),
  - multipart form (`createFormDataRequest`), where a value `@path`
    attaches the file at `path`,
  - JSON (`createJsonRequest`),
  - anything else is the error "unknow http".
- `getValue` coerces each bag value to a string. Ints and strings are
  accepted; anything else panics.
- `getTargetUrl` resolves `baseUrl + url` through `CompileUrl` and
  stores the query parameters it returns on the request.
- The finished request gets the declared headers.

The model follows that file's structure:

- `wrappers.dfy`: `Option` and `Result`.
- `bytes.dfy`: Go strings as byte sequences, with ASCII literals, the
  `@` sigil, ASCII lower-casing, Go's byte-wise string order, and the
  sorted key list that `url.Values.Encode` iterates.
- `values.dfy`: script values (`langs.Value`) and `getValue`. Go's
  `string(int)` is the UTF-8 encoding of one code point.
- `form.dfy`: `url.Values` with `Set`, `QueryEscape`, `Encode`,
  `QueryUnescape` and `ParseQuery`, and the form round trip. As in Go,
  `ParseQuery` reports the semicolon error whenever a piece holds a ';',
  and otherwise the first unescaping error.
- `multipart.dfy`: the multipart body, seen as its parts. Includes the
  `mime/multipart.Writer` class the encoder drives, and `filepath.Split`'s
  file half.
- `json.dfy`: the JSON document `json.Marshal` makes of a bag, and reading
  it back.
- `body.dfy`: body.go itself. It has one specification function per step
  (`TargetUrl`, `FormSpec`, `MultipartSpec`, `JsonSpec`, `DefaultSpec`,
  `Dispatch`, `Build`). It also has one method for each of
  `CreateHttpRequest`, `getTargetUrl` and the three encoders, run against
  an `ApiRequest` object whose `query` field is what body.go writes.
  `getValue` only computes, so it is the function `Values.GetValue`. Each method is proved to return its specification's result and
  to leave `query` as the specification says.
- `properties.dfy`: what the whole promises. This covers which bag is
  used, the dispatch table, error propagation, headers, the form round
  trip, the sigil rule, iteration-order independence and the JSON body.

What body.go relies on outside the model is passed in as data,
bundled into `Body.Env`:

- the script scope is a map from names to values;
- `CompileUrl` is a function from URL and scope to URL, query and error;
- `http.NewRequest`'s rejection of a method or URL is a function giving an
  optional error text;
- the file system is a map from paths to `Readable(bytes)` or
  `Unreadable`. An absent path cannot be opened.

Go ranges over a map in an unspecified order, so the order is an explicit
argument that enumerates the bag's keys. Panics are outcomes of their own
(`Outcome.Panicked`), separate from returned errors (`Outcome.Err`).

The model follows the code where it behaves otherwise than its names
suggest:

- An int is coerced with `string(n)`, which gives one UTF-8 code point and
  not its decimal digits. `Values.CoercedIntIsNotDecimal` shows 42 becomes
  `"*"`.
- A GET request with an unrecognised content type never yields a request.
  The `default` branch (body.go:43-54) resolves the URL and builds a
  request, then returns "unknow http" anyway.
- A non-GET method whose bag is missing panics at the type assertion
  (body.go:22). It is not treated as an empty bag.
- No encoder sets the multipart boundary header. The declared headers
  replace the request's header map exactly (body.go:57).

## Model

| member | source | states |
|---|---|---|
| Body.CreateHttpRequest | body.go:19-59 | returns exactly `Build`'s outcome for the declared method, headers and scope, and leaves `req.Query` as resolution set it, or untouched when no URL was resolved |
| Body.GetTargetUrl | body.go:72-77 | returns the resolver's URL or its error, panics when `baseUrl` is not a string, and stores the resolver's query in `req.Query` even when it also reports an error |
| Body.CreateFormUrlEncodedRequest | body.go:79-90 | the loop is proved against `CoerceAll`: it coerces every value in iteration order and panics on the first unsupported one before resolving the URL; the body is `Encode` of the coerced values |
| Body.CreateFormDataRequest | body.go:92-124 | the loop is proved against `PartsOf`: the writer holds one part per key visited, and the first failing part stops the encoder before the URL is resolved; a finished body is closed |
| Body.CreateJsonRequest | body.go:126-136 | resolves the URL first, then marshals the raw bag; a marshal failure is a returned error |
| Values.GetValue | body.go:61-70 | an unsupported value is reported and carries the offending value itself |
| Values.CoercionTable | body.go:61-70 | coercion succeeds exactly for ints and strings; a string passes through unchanged; an int becomes bytes that decode to that one code point, or U+FFFD when it is not a Unicode scalar value |
| Values.RuneBytesDecodes | body.go:63-64 | `string(int)` yields 1 to 4 bytes that decode back to the code point, or to U+FFFD for an invalid one |
| Values.DecodeRuneCanonical | body.go:63-64 | bytes that decode to a code point are exactly its UTF-8 encoding |
| Values.CoercedIntIsNotDecimal | body.go:63-64 | the int 42 coerces to the single byte 0x2A, not to the text "42" |
| Values.IntCoercesToSigilOnlyAt64 | body.go:63-64 | an int coerces to a value starting with '@' exactly when it is 64 |
| Bytes.SortedKeys | body.go:84 | lists each key of the set exactly once, strictly ascending in Go's string order |
| Bytes.SortedEnumerationIsSortedKeys | body.go:84 | any strictly ascending enumeration of a key set is that set's `SortedKeys`, so the key order of `Encode` is forced |
| Form.Set | body.go:82 | `Values.Set` replaces the key's list with the one value and leaves every other key unchanged |
| Form.QueryEscapeFreeOfSeparators | body.go:84 | an escaped key or value never contains '&', '=', ';' or a space |
| Form.UnescapeEscape | body.go:84 | unescaping an escaped text gives the text back |
| Form.ParseQuerySemicolonWins | body.go:84 | parsing a query reports the semicolon error exactly when the query holds a ';', even after an earlier unescaping error |
| Form.FormRoundTrip | body.go:80-84 | `ParseQuery(Encode(v))` gives back `v` with no error, for every `url.Values` whose lists are non-empty |
| Form.EncodeSample | body.go:84 | `{"a": ["1"], "b": ["x y"]}` encodes to `a=1&b=x+y` |
| Multipart.BaseName | body.go:99 | the file half of a path has no '/', is the path's suffix, and is preceded by a '/' when it is not the whole path |
| Multipart.BaseNameOfJoin | body.go:99 | the file half of `dir + "/" + file` is `file` when `file` has no '/' |
| Multipart.BaseNameOfPlainName | body.go:99 | a name with no '/' is its own file half |
| Body.WritePart | body.go:97-116 | the rest of one loop pass, after coercion, gives `TextPart`'s outcome and never panics; a success appends exactly that part, and a file that cannot be opened or read leaves the empty file part `CreateFormFile` wrote |
| Multipart.Writer.constructor | body.go:93-94 | a new writer holds no parts and is not closed |
| Multipart.Writer.WriteField | body.go:115 | appends the field part and changes nothing else |
| Multipart.Writer.CreateFormFile | body.go:100 | appends an empty file part with the key and filename |
| Multipart.Writer.CopyIntoLast | body.go:110 | appends the copied bytes to the last file part and leaves the rest unchanged |
| Multipart.Writer.Close | body.go:118 | marks the body closed and leaves the parts unchanged |
| Json.MarshalFailsIffRefused | body.go:131-134 | marshalling fails exactly when some nested value is of a kind the encoder refuses |
| Json.MarshalRoundTrip | body.go:131 | a value built from ints, strings and bags marshals, and reading it back gives the value |
| Json.MarshalBagShape | body.go:131 | a bag marshals to one object whose keys are the bag's keys, with ints as numbers and strings as strings |
| Properties.GetUsesNilBag | body.go:20-23 | a GET request works on the nil bag and visits no key |
| Properties.OtherMethodsUseScopeEntry | body.go:21-23 | any other method uses exactly the scope entry under its lower-cased name, and panics with the name when that entry is missing or not a map |
| Properties.PostLooksUpPost | body.go:22 | the bag of POST is looked up as "post" |
| Properties.GetBodies | body.go:20-42 | a finished GET request has an empty form text, a closed multipart body with no parts, or the JSON `null` |
| Properties.DispatchSelectsEncoder | body.go:24-42 | each supported content type runs its encoder; the encoder's error or panic comes back unchanged with its query; a success gets the declared headers |
| Properties.UnsupportedContentTypeFails | body.go:43-54 | any other content type never yields a request; non-GET gets "unknow http" without touching the query; GET resolves first and gets "unknow http" unless resolution or `NewRequest` failed |
| Properties.SuccessCarriesDeclaredHeaders | body.go:24-58 | a finished request has a supported content type, the declared method, the resolved URL and query, a body of the encoding named, and exactly the declared headers |
| Properties.TargetUrlStoresQueryOnError | body.go:72-77 | resolution always stores the resolver's query, and fails exactly when the resolver reports an error, with that error |
| Properties.CoerceAllCompletes | body.go:81-83 | the form loop never returns an error, and completes exactly when every value is an int or a string |
| Properties.CoerceAllValues | body.go:80-83 | a completed form loop holds exactly the keys it met, each once, with its coerced value |
| Properties.CoerceAllOverBag | body.go:80-83 | over a whole bag, the form loop completes exactly when every value is an int or a string, and then holds the coerced bag whatever the iteration order |
| Properties.CoerceAllFirstFailure | body.go:81-83 | an incomplete form loop panics on the first unsupported value in iteration order |
| Properties.FormPanicsOnUnsupportedValue | body.go:79-90 | the form encoder panics on a value, without resolving the URL, exactly when the bag holds an unsupported value; otherwise it stores the resolver's query |
| Properties.FormBodyRoundTrip | body.go:80-89 | the body of a finished form request parses back, with no error, to the bag with every value coerced |
| Properties.FormIgnoresIterationOrder | body.go:81-89 | the form request is the same for every iteration order of the bag, except for which value a panic names |
| Properties.FileErrorMessages | body.go:106-112 | an unopenable file is reported as "%Open source file failed: s\n" and a failed copy as "Write to form file falied: %s\n", as written |
| Properties.SigilRule | body.go:96-116 | a coerced value without '@' becomes the plain field key=value; for "@path", an unopenable path is "Open source file failed", an unreadable file is "Write to form file falied", and a readable one succeeds with a file part as `FilePart` describes |
| Properties.FilePartShape | body.go:97-110 | a file part is named by the key, its filename has no '/' and is the part of the path after its last '/', and its content is the file's bytes |
| Properties.SigilSample | body.go:97-99 | "@/tmp/f.txt" becomes a file part with filename "f.txt" and the file's bytes |
| Properties.PartsOfCompletes | body.go:95-117 | the multipart loop completes exactly when every key's part succeeds |
| Properties.PartsOfValues | body.go:95-117 | a completed multipart loop has written one part per key, in iteration order, each the part for that key |
| Properties.PartsOfFirstFailure | body.go:95-117 | an incomplete multipart loop stops with the failure of the first key, in iteration order, whose part fails |
| Properties.PartNamedByKey | body.go:95-116 | every part written is named by its key |
| Properties.MultipartShape | body.go:93-124 | a finished multipart body is closed and has one part per key of the bag, in iteration order; a failing part ends the encoder before the URL is resolved |
| Properties.EnumerationLength | body.go:81 | ranging over a map visits as many keys as it has |
| Properties.JsonResolvesFirst | body.go:127-130 | a failed resolution is returned before the bag is looked at |
| Properties.JsonMarshalFailureIsError | body.go:131-134 | after resolution, the JSON encoder never panics, and fails with the marshal error exactly when the bag holds a refused kind |
| Properties.JsonBodyIsRawBag | body.go:131-135 | the JSON body is `null` for a GET; otherwise it is an object with the bag's keys that reads back as the uncoerced bag when the bag holds only ints, strings and bags |
| Properties.JsonPostScenario | body.go:19-59 | POST as JSON with `{"name": "alice", "age": 30}` gives that object, sent to the resolved URL with the declared headers |

## Left out

- `http.NewRequest` is a parameter. It is reduced to whether it rejects the method and URL, after an empty method has become GET as in Go, and the body is recorded as a value rather than an `io.Reader`.
- `CompileUrl`, which body.go calls but which none of the files shown defines, and the scripting interpreter behind `runner.vm.Lookup` are parameters of the model. http.go, builtin.go, models.go beyond the `ApiRequest` fields, and the sample program are not part of this model.
- The file system is a map, and `os.Open` plus `io.Copy` is a lookup in it. The `defer srcFile.Close()` and file handles are not modelled.
- The error branch of `CreateFormFile` (body.go:101-103) is left out. The writer writes into a `bytes.Buffer`, which never fails, so the branch cannot be reached.
- Multipart boundaries, part headers and the byte layout of the body are not modelled. A body is its list of parts and whether the closing boundary was written.
- JSON is modelled as a tree, not text. String escaping, invalid UTF-8 handling and the text of `json.Marshal`'s error are not modelled. Values of other script kinds carry what the encoder would make of them.
- Values.GetValue: the panic message is not modelled. The model keeps the offending value but not the rendering of `langs.Typing`.
- `Body.CreateHttpRequest` requires a non-empty `Content-Type` list. body.go:24 indexes `req.Headers["Content-Type"][0]` and panics with an index out of range when the header is missing or empty; that panic is not modelled.
- `strings.ToLower` is modelled for ASCII only. Non-ASCII method names are not lower-cased.
- `filepath.Split` is modelled with the Unix separator only.
- `httpReq.Header = req.Headers` shares one map in Go. The model copies the value, so later changes through either alias are not captured.
- Form.FormRoundTrip: holds only for `url.Values` whose value lists are non-empty. A key with an empty list is dropped by `Encode`. body.go's `Set` always produces one-value lists.
