/**
  Request materialisation (body.go): CreateHttpRequest looks up the
  parameter bag for the request's method, dispatches on the first
  Content-Type value to one of three encoders, and hands back a request
  carrying the declared headers.

  What body.go reaches outside itself is an argument here (`Env`): the
  script scope read through runner.vm.Lookup, the URL compiler CompileUrl,
  the checks by which http.NewRequest may reject a method or URL, and the
  file system the multipart encoder opens files in. Go's `for k, v := range
  bag` visits the keys in an order the runtime picks; the encoders take that
  order as `order`.

  A Go panic (an unsupported value kind in getValue, a failed type
  assertion on a Lookup result) is the outcome `Panicked`; an error
  returned to the caller is `Err`.
 */
module Body {

  import opened Wrappers
  import opened Bytes
  import opened Values
  import Form
  import Multipart
  import Json

  /** http.Header: each header name with its values, looked up by exact name. */
  type Header = map<Bytes, seq<Bytes>>

  /** The query parameters CompileUrl extracts from a URL template. */
  type Query = seq<(Bytes, Bytes)>

  const GET: Bytes := Ascii("GET")
  const CONTENT_TYPE: Bytes := Ascii("Content-Type")
  const BASE_URL: Bytes := Ascii("baseUrl")
  const FORM_URLENCODED: Bytes := Ascii("application/x-www-form-urlencoded")
  const MULTIPART_FORM_DATA: Bytes := Ascii("multipart/form-data")
  const APPLICATION_JSON: Bytes := Ascii("application/json")

  /** What CompileUrl returns: the resolved URL, the extracted query, and its error if any. */
  datatype Compiled = Compiled(url: Bytes, query: Query, err: Option<Bytes>)

  /** The collaborators body.go calls into. */
  datatype Env = Env(
    scope: map<Bytes, Value>,                            // bindings runner.vm.Lookup reads
    compileUrl: (Bytes, map<Bytes, Value>) -> Compiled,  // CompileUrl(url, vm)
    requestError: (Bytes, Bytes) -> Option<Bytes>,       // why http.NewRequest(method, url, _) fails, if it does
    fs: Multipart.FileSystem)                            // what os.Open and io.Copy see

  /** The errors CreateHttpRequest returns. */
  datatype Error =
    | UnknownHttp                   // errors.New("unknow http")
    | CompileFailed(msg: Bytes)     // the error CompileUrl returned
    | NewRequestFailed(msg: Bytes)  // the error http.NewRequest returned
    | OpenSourceFileFailed          // errors.New("%Open source file failed: s\n")
    | WriteFormFileFailed           // errors.New("Write to form file falied: %s\n")
    | MarshalFailed                 // the error json.Marshal returned

  /** The text of the errors body.go creates itself, byte for byte as written there. */
  function Message(e: Error): Option<Bytes> {
    match e
    case UnknownHttp => Some(Ascii("unknow http"))
    case OpenSourceFileFailed => Some(Ascii("%Open source file failed: s\n"))
    case WriteFormFileFailed => Some(Ascii("Write to form file falied: %s\n"))
    case CompileFailed(msg) => Some(msg)
    case NewRequestFailed(msg) => Some(msg)
    case MarshalFailed => None
  }

  /** The panics of body.go. */
  datatype Fault =
    | UnsupportedType(v: Value)  // getValue on a kind other than int and string
    | NotABag(name: Bytes)       // Lookup(lower(method)).(map[string]langs.Value) failed
    | BaseUrlNotString           // Lookup("baseUrl").(string) failed

  datatype Outcome<T> = Ok(value: T) | Err(error: Error) | Panicked(fault: Fault) {
    /** The same failure at another result type. */
    function Forward<U>(): (r: Outcome<U>)
      requires !Ok?
      ensures !r.Ok? && (Err? <==> r.Err?)
      ensures Err? ==> r.error == error
      ensures Panicked? ==> r.fault == fault
    {
      if Err? then Err(error) else Panicked(fault)
    }
  }

  /** What a step returns, and the query it stored into req.Query (None: req.Query untouched). */
  datatype Effect<T> = Effect(out: Outcome<T>, query: Option<Query>)

  function QueryAfter<T>(before: Query, e: Effect<T>): Query {
    if e.query.Some? then e.query.value else before
  }

  datatype RequestBody =
    | NoBody
    | FormBody(text: Bytes)
    | MultipartBody(form: Multipart.Form)
    | JsonBody(doc: Json.Json)

  /** The *http.Request handed back: method (verb), target URL, body and headers. */
  datatype HttpRequest = HttpRequest(verb: Bytes, url: Bytes, body: RequestBody, header: Header)

  /** ApiRequest (models.go), its Method field named verb: the declared call; body.go writes only Query. */
  class ApiRequest {
    var headers: Header
    var verb: Bytes
    var url: Bytes
    var query: Query
    var name: Bytes
    var description: Bytes
    var body: Bytes

    constructor (headers: Header, verb: Bytes, url: Bytes, name: Bytes, description: Bytes)
      ensures this.headers == headers && this.verb == verb && this.url == url
      ensures this.name == name && this.description == description
      ensures query == [] && body == []
    {
      this.headers := headers;
      this.verb := verb;
      this.url := url;
      this.name := name;
      this.description := description;
      query := [];
      body := [];
    }
  }

  predicate HasContentType(headers: Header) {
    CONTENT_TYPE in headers && |headers[CONTENT_TYPE]| > 0
  }

  /** The bag a present-but-nil Go map stands for. */
  function Entries(bag: Option<map<Bytes, Value>>): map<Bytes, Value> {
    if bag.Some? then bag.value else map[]
  }

  // ---------------------------------------------------------------------------
  // Specification functions, one per step of body.go.
  // ---------------------------------------------------------------------------

  /**
    getTargetUrl: the URL CompileUrl makes of baseUrl + url. The query is
    stored whether or not CompileUrl reports an error.
   */
  function TargetUrl(url: Bytes, env: Env): Effect<Bytes> {
    if BASE_URL in env.scope && env.scope[BASE_URL].Str? then
      var c := env.compileUrl(env.scope[BASE_URL].s + url, env.scope);
      Effect(if c.err.Some? then Err(CompileFailed(c.err.value)) else Ok(c.url), Some(c.query))
    else
      Effect(Panicked(BaseUrlNotString), None)
  }

  /** The method http.NewRequest uses: an empty method means GET. */
  function RequestMethod(verb: Bytes): Bytes {
    if verb == [] then GET else verb
  }

  /** http.NewRequest: a request with an empty header, unless the method or URL is rejected. */
  function NewRequest(verb: Bytes, url: Bytes, body: RequestBody, env: Env): Outcome<HttpRequest> {
    var m := RequestMethod(verb);
    match env.requestError(m, url)
    case Some(msg) => Err(NewRequestFailed(msg))
    case None => Ok(HttpRequest(m, url, body, map[]))
  }

  /** NewRequest on a resolved URL, or the resolution's failure. */
  function Finish(target: Outcome<Bytes>, verb: Bytes, body: RequestBody, env: Env): Outcome<HttpRequest> {
    if target.Ok? then NewRequest(verb, target.value, body, env) else target.Forward()
  }

  /** The form encoder's loop: Set(key, getValue(val)) for the keys in `order`. */
  function CoerceAll(bag: map<Bytes, Value>, order: seq<Bytes>): Outcome<Form.Values>
    requires forall i | 0 <= i < |order| :: order[i] in bag
    decreases |order|
  {
    if order == [] then Ok(map[])
    else
      var key := order[|order| - 1];
      var done := CoerceAll(bag, order[..|order| - 1]);
      if !done.Ok? then done
      else
        match GetValue(bag[key])
        case Text(s) => Ok(Form.Set(done.value, key, s))
        case Unsupported(x) => Panicked(UnsupportedType(x))
  }

  /** createFormUrlEncodedRequest */
  function FormSpec(verb: Bytes, url: Bytes, env: Env, bag: map<Bytes, Value>, order: seq<Bytes>): Effect<HttpRequest>
    requires forall i | 0 <= i < |order| :: order[i] in bag
  {
    var values := CoerceAll(bag, order);
    if !values.Ok? then Effect(values.Forward(), None)
    else
      var body := FormBody(Form.Encode(values.value));
      var t := TargetUrl(url, env);
      Effect(Finish(t.out, verb, body, env), t.query)
  }

  /** One iteration of the multipart encoder's loop: the part written for `key`, or why it stops. */
  function PartFor(key: Bytes, v: Value, fs: Multipart.FileSystem): Outcome<Multipart.Part> {
    match GetValue(v)
    case Unsupported(x) => Panicked(UnsupportedType(x))
    case Text(s) => TextPart(key, s, fs)
  }

  /** The part written for `key` once its value has been coerced to `s`: a file for `@path`, else a field. */
  function TextPart(key: Bytes, s: Bytes, fs: Multipart.FileSystem): Outcome<Multipart.Part> {
    if HasSigil(s) then
      var path := s[1..];
      if path !in fs then Err(OpenSourceFileFailed)
      else
        match fs[path]
        case Unreadable => Err(WriteFormFileFailed)
        case Readable(data) => Ok(Multipart.File(key, Multipart.BaseName(path), data))
    else Ok(Multipart.Field(key, s))
  }

  /** The parts the multipart loop writes for the keys in `order`, stopping at the first failure. */
  function PartsOf(bag: map<Bytes, Value>, order: seq<Bytes>, fs: Multipart.FileSystem): Outcome<seq<Multipart.Part>>
    requires forall i | 0 <= i < |order| :: order[i] in bag
    decreases |order|
  {
    if order == [] then Ok([])
    else
      var key := order[|order| - 1];
      var done := PartsOf(bag, order[..|order| - 1], fs);
      if !done.Ok? then done
      else
        var part := PartFor(key, bag[key], fs);
        if part.Ok? then Ok(done.value + [part.value]) else part.Forward()
  }

  /** createFormDataRequest */
  function MultipartSpec(verb: Bytes, url: Bytes, env: Env, bag: map<Bytes, Value>, order: seq<Bytes>): Effect<HttpRequest>
    requires forall i | 0 <= i < |order| :: order[i] in bag
  {
    var parts := PartsOf(bag, order, env.fs);
    if !parts.Ok? then Effect(parts.Forward(), None)
    else
      var body := MultipartBody(Multipart.Form(parts.value, true));
      var t := TargetUrl(url, env);
      Effect(Finish(t.out, verb, body, env), t.query)
  }

  /** json.Marshal of the bag: a nil map is `null`. */
  function MarshalBag(bag: Option<map<Bytes, Value>>): Option<Json.Json> {
    if bag.None? then Some(Json.JNull) else Json.Marshal(Dict(bag.value))
  }

  /** createJsonRequest: the URL is resolved first, then the raw bag is marshalled. */
  function JsonSpec(verb: Bytes, url: Bytes, env: Env, bag: Option<map<Bytes, Value>>): Effect<HttpRequest> {
    var t := TargetUrl(url, env);
    if !t.out.Ok? then Effect(t.out.Forward(), t.query)
    else
      match MarshalBag(bag)
      case None => Effect(Err(MarshalFailed), t.query)
      case Some(doc) => Effect(NewRequest(verb, t.out.value, JsonBody(doc), env), t.query)
  }

  /** The default branch of the switch. */
  function DefaultSpec(verb: Bytes, url: Bytes, env: Env): Effect<HttpRequest> {
    if verb == GET then
      var t := TargetUrl(url, env);
      var probe := Finish(t.out, verb, NoBody, env);
      Effect(if probe.Ok? then Err(UnknownHttp) else probe, t.query)
    else
      Effect(Err(UnknownHttp), None)
  }

  /** The switch on the content type, then `httpReq.Header = req.Headers`. */
  function Dispatch(contentType: Bytes, verb: Bytes, url: Bytes, headers: Header, env: Env,
                    bag: Option<map<Bytes, Value>>, order: seq<Bytes>): Effect<HttpRequest>
    requires forall i | 0 <= i < |order| :: order[i] in Entries(bag)
  {
    var e :=
      if contentType == FORM_URLENCODED then FormSpec(verb, url, env, Entries(bag), order)
      else if contentType == MULTIPART_FORM_DATA then MultipartSpec(verb, url, env, Entries(bag), order)
      else if contentType == APPLICATION_JSON then JsonSpec(verb, url, env, bag)
      else DefaultSpec(verb, url, env);
    if e.out.Ok? then Effect(Ok(e.out.value.(header := headers)), e.query) else e
  }

  /** The bag CreateHttpRequest works on: nil for GET, else Lookup(lower(method)) asserted to be a map. */
  function BagOf(verb: Bytes, scope: map<Bytes, Value>): Outcome<Option<map<Bytes, Value>>> {
    if verb == GET then Ok(None)
    else
      var name := ToLower(verb);
      if name in scope && scope[name].Dict? then Ok(Some(scope[name].entries))
      else Panicked(NotABag(name))
  }

  /** `order` is the order in which Go ranges over the bag CreateHttpRequest finds. */
  predicate OrderFits(verb: Bytes, scope: map<Bytes, Value>, order: seq<Bytes>) {
    BagOf(verb, scope).Ok? ==> Enumerates(order, Entries(BagOf(verb, scope).value).Keys)
  }

  /** CreateHttpRequest */
  function Build(verb: Bytes, url: Bytes, headers: Header, env: Env, order: seq<Bytes>): Effect<HttpRequest>
    requires HasContentType(headers)
    requires OrderFits(verb, env.scope, order)
  {
    var bag := BagOf(verb, env.scope);
    if !bag.Ok? then Effect(bag.Forward(), None)
    else Dispatch(headers[CONTENT_TYPE][0], verb, url, headers, env, bag.value, order)
  }

  // ---------------------------------------------------------------------------
  // Prefix lemmas for the two loops.
  // ---------------------------------------------------------------------------

  /** Once the coercion loop has stopped, the outcome for the whole order is that stop. */
  lemma {:induction false} CoerceAllStops(bag: map<Bytes, Value>, order: seq<Bytes>, n: nat)
    requires forall i | 0 <= i < |order| :: order[i] in bag
    requires n <= |order| && !CoerceAll(bag, order[..n]).Ok?
    ensures CoerceAll(bag, order) == CoerceAll(bag, order[..n])
    decreases |order| - n
  {
    if n < |order| {
      var init := order[..|order| - 1];
      assert init[..n] == order[..n];
      CoerceAllStops(bag, init, n);
    } else {
      assert order[..n] == order;
    }
  }

  /** Once the multipart loop has stopped, the outcome for the whole order is that stop. */
  lemma {:induction false} PartsOfStops(bag: map<Bytes, Value>, order: seq<Bytes>, fs: Multipart.FileSystem, n: nat)
    requires forall i | 0 <= i < |order| :: order[i] in bag
    requires n <= |order| && !PartsOf(bag, order[..n], fs).Ok?
    ensures PartsOf(bag, order, fs) == PartsOf(bag, order[..n], fs)
    decreases |order| - n
  {
    if n < |order| {
      var init := order[..|order| - 1];
      assert init[..n] == order[..n];
      PartsOfStops(bag, init, fs, n);
    } else {
      assert order[..n] == order;
    }
  }

  /** One more turn of the multipart loop. */
  lemma PartsOfExtend(bag: map<Bytes, Value>, order: seq<Bytes>, fs: Multipart.FileSystem, i: nat)
    requires forall j | 0 <= j < |order| :: order[j] in bag
    requires i < |order| && PartsOf(bag, order[..i], fs).Ok?
    ensures var p := PartFor(order[i], bag[order[i]], fs);
            PartsOf(bag, order[..i + 1], fs)
            == if p.Ok? then Ok(PartsOf(bag, order[..i], fs).value + [p.value]) else p.Forward()
  {
    assert order[..i + 1][..i] == order[..i];
  }

  // ---------------------------------------------------------------------------
  // body.go as it runs.
  // ---------------------------------------------------------------------------

  /** getTargetUrl */
  method GetTargetUrl(req: ApiRequest, env: Env) returns (target: Outcome<Bytes>)
    modifies req`query
    ensures var e := TargetUrl(req.url, env);
            target == e.out && req.query == QueryAfter(old(req.query), e)
  {
    if !(BASE_URL in env.scope && env.scope[BASE_URL].Str?) {
      return Panicked(BaseUrlNotString);
    }
    var baseUrl := env.scope[BASE_URL].s;
    var compiled := env.compileUrl(baseUrl + req.url, env.scope);
    req.query := compiled.query;
    if compiled.err.Some? {
      return Err(CompileFailed(compiled.err.value));
    }
    return Ok(compiled.url);
  }

  /** createFormUrlEncodedRequest */
  method CreateFormUrlEncodedRequest(req: ApiRequest, env: Env, bag: map<Bytes, Value>, order: seq<Bytes>)
    returns (out: Outcome<HttpRequest>)
    requires forall i | 0 <= i < |order| :: order[i] in bag
    modifies req`query
    ensures var e := FormSpec(req.verb, req.url, env, bag, order);
            out == e.out && req.query == QueryAfter(old(req.query), e)
  {
    var values: Form.Values := map[];
    var i := 0;
    while i < |order|
      invariant 0 <= i <= |order|
      invariant CoerceAll(bag, order[..i]) == Ok(values)
    {
      var key := order[i];
      assert order[..i + 1][..i] == order[..i];
      var v := GetValue(bag[key]);
      if v.Unsupported? {
        CoerceAllStops(bag, order, i + 1);
        return Panicked(UnsupportedType(v.v));
      }
      values := Form.Set(values, key, v.s);
      i := i + 1;
    }
    assert order[..i] == order;
    var body := FormBody(Form.Encode(values));
    var target := GetTargetUrl(req, env);
    if !target.Ok? {
      return target.Forward();
    }
    out := NewRequest(req.verb, target.value, body, env);
  }

  /**
    The rest of one pass of createFormDataRequest's loop, once the value has
    been coerced to `s`: `@path` creates a file part named after the path's
    file half and copies the file into it, anything else is written as a
    field. The writer gains exactly the part TextPart describes; a file that
    cannot be opened or read leaves behind the empty file part
    CreateFormFile already wrote.
   */
  method WritePart(writer: Multipart.Writer, key: Bytes, s: Bytes, fs: Multipart.FileSystem)
    returns (out: Outcome<Multipart.Part>)
    modifies writer
    ensures out == TextPart(key, s, fs) && !out.Panicked?
    ensures out.Ok? ==> writer.parts == old(writer.parts) + [out.value]
    ensures out.Err? ==> HasSigil(s) && writer.parts == old(writer.parts) + [Multipart.File(key, Multipart.BaseName(s[1..]), [])]
    ensures writer.closed == old(writer.closed)
  {
    if !HasSigil(s) {
      writer.WriteField(key, s);
      return Ok(Multipart.Field(key, s));
    }
    var fullFileName := s[1..];
    var filename := Multipart.BaseName(fullFileName);
    writer.CreateFormFile(key, filename);
    if fullFileName !in fs {
      return Err(OpenSourceFileFailed);
    }
    var entry := fs[fullFileName];
    if entry.Unreadable? {
      return Err(WriteFormFileFailed);
    }
    ghost var before := writer.parts[..|writer.parts| - 1];
    assert before == old(writer.parts);
    writer.CopyIntoLast(entry.data);
    out := Ok(Multipart.File(key, filename, entry.data));
    var n := |writer.parts|;
    assert writer.parts[n - 1] == out.value by {
      assert [] + entry.data == entry.data;
    }
    assert writer.parts[..n - 1] == before;
    assert writer.parts == writer.parts[..n - 1] + [writer.parts[n - 1]];
  }

  /** createFormDataRequest */
  method CreateFormDataRequest(req: ApiRequest, env: Env, bag: map<Bytes, Value>, order: seq<Bytes>)
    returns (out: Outcome<HttpRequest>)
    requires forall i | 0 <= i < |order| :: order[i] in bag
    modifies req`query
    ensures var e := MultipartSpec(req.verb, req.url, env, bag, order);
            out == e.out && req.query == QueryAfter(old(req.query), e)
  {
    var writer := new Multipart.Writer();
    var i := 0;
    while i < |order|
      invariant 0 <= i <= |order|
      invariant PartsOf(bag, order[..i], env.fs) == Ok(writer.parts)
      invariant !writer.closed
      invariant req.query == old(req.query)
    {
      var key := order[i];
      PartsOfExtend(bag, order, env.fs, i);
      var v := GetValue(bag[key]);
      if v.Unsupported? {
        PartsOfStops(bag, order, env.fs, i + 1);
        return Panicked(UnsupportedType(v.v));
      }
      var part := WritePart(writer, key, v.s, env.fs);
      if !part.Ok? {
        PartsOfStops(bag, order, env.fs, i + 1);
        return part.Forward();
      }
      i := i + 1;
    }
    assert order[..i] == order;
    writer.Close();
    var target := GetTargetUrl(req, env);
    if !target.Ok? {
      return target.Forward();
    }
    out := NewRequest(req.verb, target.value, MultipartBody(writer.Contents()), env);
  }

  /** createJsonRequest */
  method CreateJsonRequest(req: ApiRequest, env: Env, bag: Option<map<Bytes, Value>>)
    returns (out: Outcome<HttpRequest>)
    modifies req`query
    ensures var e := JsonSpec(req.verb, req.url, env, bag);
            out == e.out && req.query == QueryAfter(old(req.query), e)
  {
    var target := GetTargetUrl(req, env);
    if !target.Ok? {
      return target.Forward();
    }
    var doc := MarshalBag(bag);
    if doc.None? {
      return Err(MarshalFailed);
    }
    out := NewRequest(req.verb, target.value, JsonBody(doc.value), env);
  }

  /** CreateHttpRequest */
  method CreateHttpRequest(req: ApiRequest, env: Env, order: seq<Bytes>) returns (out: Outcome<HttpRequest>)
    requires HasContentType(req.headers)
    requires OrderFits(req.verb, env.scope, order)
    modifies req`query
    ensures var e := Build(req.verb, req.url, req.headers, env, order);
            out == e.out && req.query == QueryAfter(old(req.query), e)
  {
    var bag: Option<map<Bytes, Value>> := None;
    if req.verb != GET {
      var name := ToLower(req.verb);
      if !(name in env.scope && env.scope[name].Dict?) {
        return Panicked(NotABag(name));
      }
      bag := Some(env.scope[name].entries);
    }
    var contentType := req.headers[CONTENT_TYPE][0];
    if contentType == FORM_URLENCODED {
      out := CreateFormUrlEncodedRequest(req, env, Entries(bag), order);
    } else if contentType == MULTIPART_FORM_DATA {
      out := CreateFormDataRequest(req, env, Entries(bag), order);
    } else if contentType == APPLICATION_JSON {
      out := CreateJsonRequest(req, env, bag);
    } else {
      if req.verb == GET {
        var target := GetTargetUrl(req, env);
        if !target.Ok? {
          return target.Forward();
        }
        var probe := NewRequest(req.verb, target.value, NoBody, env);
        if !probe.Ok? {
          return probe;
        }
      }
      return Err(UnknownHttp);
    }
    if !out.Ok? {
      return out;
    }
    out := Ok(out.value.(header := req.headers));
  }
}
