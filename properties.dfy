/**
  What CreateHttpRequest and its encoders promise, stated over the model
  in module Body: the bag lookup, the dispatch table, error propagation,
  the headers of a finished request, the form round trip, the multipart
  sigil rule and the JSON body.
 */
module Properties {

  import opened Wrappers
  import opened Bytes
  import opened Values
  import Form
  import Multipart
  import Json
  import opened Body

  // ---------------------------------------------------------------------------
  // The parameter bag.
  // ---------------------------------------------------------------------------

  /** A GET request never looks into the scope for a bag: it works on the nil map, visiting no key. */
  lemma GetUsesNilBag(verb: Bytes, url: Bytes, headers: Header, env: Env, order: seq<Bytes>)
    requires HasContentType(headers) && OrderFits(verb, env.scope, order)
    requires verb == GET
    ensures order == []
    ensures Build(verb, url, headers, env, order)
            == Dispatch(headers[CONTENT_TYPE][0], verb, url, headers, env, None, [])
  {
    EnumerationLength(order, Entries(None).Keys);
  }

  /**
    A finished GET request under a supported content type has the empty
    body of its encoding: no form text, a multipart body with no parts
    (closing boundary only), or the JSON document `null`.
   */
  lemma GetBodies(verb: Bytes, url: Bytes, headers: Header, env: Env, order: seq<Bytes>)
    requires HasContentType(headers) && OrderFits(verb, env.scope, order)
    requires verb == GET && Build(verb, url, headers, env, order).out.Ok?
    ensures var body := Build(verb, url, headers, env, order).out.value.body;
            var ct := headers[CONTENT_TYPE][0];
            && (ct == FORM_URLENCODED ==> body == FormBody([]))
            && (ct == MULTIPART_FORM_DATA ==> body == MultipartBody(Multipart.Form([], true)))
            && (ct == APPLICATION_JSON ==> body == JsonBody(Json.JNull))
  {
    GetUsesNilBag(verb, url, headers, env, order);
    var empty: Form.Values := map[];
    EnumerationLength(SortedKeys(empty.Keys), empty.Keys);
    assert Form.Encode(empty) == [];
  }

  /**
    Any other method works on exactly the scope entry under its lower-cased
    name, and panics when that entry is missing or not a map.
   */
  lemma OtherMethodsUseScopeEntry(verb: Bytes, url: Bytes, headers: Header, env: Env, order: seq<Bytes>)
    requires HasContentType(headers) && OrderFits(verb, env.scope, order)
    requires verb != GET
    ensures var name := ToLower(verb);
            if name in env.scope && env.scope[name].Dict? then
              Build(verb, url, headers, env, order)
              == Dispatch(headers[CONTENT_TYPE][0], verb, url, headers, env, Some(env.scope[name].entries), order)
            else
              Build(verb, url, headers, env, order) == Effect(Panicked(NotABag(name)), None)
  {
  }

  /** The lower-cased name of POST is "post". */
  lemma PostLooksUpPost()
    ensures ToLower(Ascii("POST")) == Ascii("post")
  {
    var r := ToLower(Ascii("POST"));
    assert forall i | 0 <= i < 4 :: r[i] == Ascii("post")[i];
  }

  // ---------------------------------------------------------------------------
  // Dispatch.
  // ---------------------------------------------------------------------------

  predicate Supported(contentType: Bytes) {
    contentType == FORM_URLENCODED || contentType == MULTIPART_FORM_DATA || contentType == APPLICATION_JSON
  }

  /** How the switch hands back an encoder's effect `e`: a failure unchanged, a success with the declared headers. */
  predicate PassedOn(d: Effect<HttpRequest>, e: Effect<HttpRequest>, headers: Header) {
    && d.query == e.query
    && (!e.out.Ok? ==> d.out == e.out)
    && (e.out.Ok? ==> d.out == Ok(e.out.value.(header := headers)))
  }

  /**
    Each supported content type selects its encoder: the URL-encoded form,
    the multipart form or JSON. A failure of the encoder, error or panic,
    comes back unchanged together with the query it stored; a success comes
    back with its header replaced by the declared headers.
   */
  lemma DispatchSelectsEncoder(contentType: Bytes, verb: Bytes, url: Bytes, headers: Header, env: Env,
                               bag: Option<map<Bytes, Value>>, order: seq<Bytes>)
    requires forall i | 0 <= i < |order| :: order[i] in Entries(bag)
    ensures var d := Dispatch(contentType, verb, url, headers, env, bag, order);
            && (contentType == FORM_URLENCODED ==> PassedOn(d, FormSpec(verb, url, env, Entries(bag), order), headers))
            && (contentType == MULTIPART_FORM_DATA ==> PassedOn(d, MultipartSpec(verb, url, env, Entries(bag), order), headers))
            && (contentType == APPLICATION_JSON ==> PassedOn(d, JsonSpec(verb, url, env, bag), headers))
  {
  }

  /**
    Any other content type never yields a request, whatever the method. A
    non-GET request gets "unknow http" without touching req.Query; a GET
    request resolves its URL first and gets "unknow http" unless that
    resolution, or http.NewRequest on its result, failed first.
   */
  lemma UnsupportedContentTypeFails(contentType: Bytes, verb: Bytes, url: Bytes, headers: Header, env: Env,
                                    bag: Option<map<Bytes, Value>>, order: seq<Bytes>)
    requires !Supported(contentType)
    requires forall i | 0 <= i < |order| :: order[i] in Entries(bag)
    ensures var d := Dispatch(contentType, verb, url, headers, env, bag, order);
            && !d.out.Ok?
            && (verb != GET ==> d == Effect(Err(UnknownHttp), None))
            && (verb == GET ==> d.query == TargetUrl(url, env).query)
            && (verb == GET && TargetUrl(url, env).out.Ok?
                && env.requestError(verb, TargetUrl(url, env).out.value).None?
                ==> d.out == Err(UnknownHttp))
  {
  }

  /**
    A finished request has a supported content type, the declared method
    (GET when the declared one is empty, as http.NewRequest defaults), the URL the resolver produced, a body of the encoding the content type
    names and, as its header, exactly the declared headers.
   */
  lemma SuccessCarriesDeclaredHeaders(verb: Bytes, url: Bytes, headers: Header, env: Env, order: seq<Bytes>)
    requires HasContentType(headers) && OrderFits(verb, env.scope, order)
    requires Build(verb, url, headers, env, order).out.Ok?
    ensures var r := Build(verb, url, headers, env, order).out.value;
            var ct := headers[CONTENT_TYPE][0];
            && Supported(ct)
            && r.header == headers
            && (verb == [] ==> r.verb == GET)
            && (verb != [] ==> r.verb == verb)
            && TargetUrl(url, env).out == Ok(r.url)
            && Build(verb, url, headers, env, order).query == TargetUrl(url, env).query
            && (ct == FORM_URLENCODED ==> r.body.FormBody?)
            && (ct == MULTIPART_FORM_DATA ==> r.body.MultipartBody? && r.body.form.closed)
            && (ct == APPLICATION_JSON ==> r.body.JsonBody?)
  {
    var ct := headers[CONTENT_TYPE][0];
    var bag := BagOf(verb, env.scope).value;
    if !Supported(ct) {
      UnsupportedContentTypeFails(ct, verb, url, headers, env, bag, order);
    }
  }

  // ---------------------------------------------------------------------------
  // getTargetUrl.
  // ---------------------------------------------------------------------------

  /**
    Resolution hands baseUrl + url to CompileUrl and stores the query it
    returns even when CompileUrl also reports an error, which is then the
    error returned.
   */
  lemma TargetUrlStoresQueryOnError(url: Bytes, env: Env)
    requires BASE_URL in env.scope && env.scope[BASE_URL].Str?
    ensures var c := env.compileUrl(env.scope[BASE_URL].s + url, env.scope);
            var t := TargetUrl(url, env);
            && t.query == Some(c.query)
            && (c.err.Some? <==> t.out.Err?)
            && (c.err.Some? ==> t.out == Err(CompileFailed(c.err.value)))
            && (c.err.None? ==> t.out == Ok(c.url))
  {
  }

  // ---------------------------------------------------------------------------
  // The URL-encoded form.
  // ---------------------------------------------------------------------------

  /**
    The coercion loop never returns an error, and it completes exactly when
    every value met is an int or a string.
   */
  lemma {:induction false} CoerceAllCompletes(bag: map<Bytes, Value>, order: seq<Bytes>)
    requires forall i | 0 <= i < |order| :: order[i] in bag
    ensures !CoerceAll(bag, order).Err?
    ensures CoerceAll(bag, order).Ok? <==> forall i | 0 <= i < |order| :: Coercible(bag[order[i]])
    decreases |order|
  {
    if order != [] {
      var n := |order| - 1;
      var init := order[..n];
      CoerceAllCompletes(bag, init);
      assert forall i | 0 <= i < n :: init[i] == order[i];
    }
  }

  /** A completed coercion loop holds exactly the keys it met, each with getValue of its value. */
  lemma {:induction false} CoerceAllValues(bag: map<Bytes, Value>, order: seq<Bytes>)
    requires forall i | 0 <= i < |order| :: order[i] in bag
    requires CoerceAll(bag, order).Ok?
    ensures forall k | k in CoerceAll(bag, order).value :: k in order
    ensures forall k | k in order ::
              && GetValue(bag[k]).Text?
              && k in CoerceAll(bag, order).value
              && CoerceAll(bag, order).value[k] == [GetValue(bag[k]).s]
    decreases |order|
  {
    if order != [] {
      var n := |order| - 1;
      var init, key := order[..n], order[n];
      assert CoerceAll(bag, init).Ok? && GetValue(bag[key]).Text?;
      CoerceAllValues(bag, init);
      assert forall k | k in order :: k in init || k == key by {
        assert order == init + [key];
      }
    }
  }

  /** An incomplete coercion loop panics on the first value, in iteration order, that is neither an int nor a string. */
  lemma {:induction false} CoerceAllFirstFailure(bag: map<Bytes, Value>, order: seq<Bytes>)
    requires forall i | 0 <= i < |order| :: order[i] in bag
    requires !CoerceAll(bag, order).Ok?
    ensures exists i | 0 <= i < |order| ::
              && !Coercible(bag[order[i]])
              && CoerceAll(bag, order) == Panicked(UnsupportedType(bag[order[i]]))
              && forall j | 0 <= j < i :: Coercible(bag[order[j]])
    decreases |order|
  {
    var n := |order| - 1;
    var init := order[..n];
    assert forall i | 0 <= i < n :: init[i] == order[i];
    if CoerceAll(bag, init).Ok? {
      CoerceAllCompletes(bag, init);
      assert !Coercible(bag[order[n]]);
    } else {
      CoerceAllFirstFailure(bag, init);
    }
  }

  /** The values of a bag, every one coerced by getValue, as url.Values. */
  function CoercedBag(bag: map<Bytes, Value>): Form.Values
    requires forall k | k in bag :: Coercible(bag[k])
  {
    map k | k in bag :: assert Coercible(bag[k]); [GetValue(bag[k]).s]
  }

  /** Over a whole bag, the coercion loop completes exactly when every value coerces, with the coerced bag. */
  lemma CoerceAllOverBag(bag: map<Bytes, Value>, order: seq<Bytes>)
    requires Enumerates(order, bag.Keys)
    ensures !CoerceAll(bag, order).Err?
    ensures CoerceAll(bag, order).Ok? <==> forall k | k in bag :: Coercible(bag[k])
    ensures CoerceAll(bag, order).Ok? ==> CoerceAll(bag, order).value == CoercedBag(bag)
  {
    CoerceAllCompletes(bag, order);
    if forall k | k in bag :: Coercible(bag[k]) {
      assert CoerceAll(bag, order).Ok?;
      CoerceAllValues(bag, order);
      var v := CoerceAll(bag, order).value;
      assert v.Keys == CoercedBag(bag).Keys;
      assert v == CoercedBag(bag);
    } else {
      var k :| k in bag && !Coercible(bag[k]);
      var i :| 0 <= i < |order| && order[i] == k;
    }
  }

  /**
    The form encoder panics on an unsupported value, before resolving the
    URL, exactly when some value of the bag is neither an int nor a string;
    it never returns an error of its own, and otherwise stores the query
    resolution produced.
   */
  lemma FormPanicsOnUnsupportedValue(verb: Bytes, url: Bytes, env: Env, bag: map<Bytes, Value>, order: seq<Bytes>)
    requires Enumerates(order, bag.Keys)
    ensures var e := FormSpec(verb, url, env, bag, order);
            (exists k | k in bag :: !Coercible(bag[k])) <==> (e.out.Panicked? && e.out.fault.UnsupportedType?)
    ensures var e := FormSpec(verb, url, env, bag, order);
            if e.out.Panicked? && e.out.fault.UnsupportedType? then e.query == None
            else e.query == TargetUrl(url, env).query
  {
    CoerceAllCompletes(bag, order);
    if exists k | k in bag :: !Coercible(bag[k]) {
      var k :| k in bag && !Coercible(bag[k]);
      var i :| 0 <= i < |order| && order[i] == k;
      CoerceAllFirstFailure(bag, order);
    }
  }

  /**
    The round-trip law: the body of a finished form request, read back by
    url.ParseQuery, is the bag with every value coerced by getValue, and no
    parse error.
   */
  lemma FormBodyRoundTrip(verb: Bytes, url: Bytes, env: Env, bag: map<Bytes, Value>, order: seq<Bytes>)
    requires Enumerates(order, bag.Keys)
    requires FormSpec(verb, url, env, bag, order).out.Ok?
    ensures forall k | k in bag :: Coercible(bag[k])
    ensures var r := FormSpec(verb, url, env, bag, order).out.value;
            r.body.FormBody? && Form.ParseQuery(r.body.text) == Form.Parsed(CoercedBag(bag), None)
  {
    var values := CoerceAll(bag, order);
    assert values.Ok?;
    CoerceAllOverBag(bag, order);
    var v := values.value;
    assert forall k | k in v :: v[k] != [] by {
      assert v == CoercedBag(bag);
    }
    Form.FormRoundTrip(v);
    var t := TargetUrl(url, env);
    assert t.out.Ok? && env.requestError(RequestMethod(verb), t.out.value).None?;
    assert FormSpec(verb, url, env, bag, order).out.value.body == FormBody(Form.Encode(v));
  }

  /** The form request does not depend on the order in which Go ranges over the bag, barring which panic it reports. */
  lemma FormIgnoresIterationOrder(verb: Bytes, url: Bytes, env: Env, bag: map<Bytes, Value>,
                                  order1: seq<Bytes>, order2: seq<Bytes>)
    requires Enumerates(order1, bag.Keys) && Enumerates(order2, bag.Keys)
    ensures FormSpec(verb, url, env, bag, order1).out.Panicked? <==> FormSpec(verb, url, env, bag, order2).out.Panicked?
    ensures !FormSpec(verb, url, env, bag, order1).out.Panicked? ==>
              FormSpec(verb, url, env, bag, order1) == FormSpec(verb, url, env, bag, order2)
  {
    CoerceAllOverBag(bag, order1);
    CoerceAllOverBag(bag, order2);
    if CoerceAll(bag, order1).Ok? {
      assert CoerceAll(bag, order1) == CoerceAll(bag, order2);
    }
  }

  // ---------------------------------------------------------------------------
  // The multipart form.
  // ---------------------------------------------------------------------------

  /** The texts body.go gives the open and copy failures of a file part, misspellings and stray verbs included. */
  lemma FileErrorMessages()
    ensures Message(OpenSourceFileFailed) == Some(Ascii("%Open source file failed: s\n"))
    ensures Message(WriteFormFileFailed) == Some(Ascii("Write to form file falied: %s\n"))
  {
  }

  /**
    One key's part. A value that coerces to "@path" becomes a file part
    named by the key, whose filename is the last element of path and whose
    content is that file's bytes; the part fails if the path cannot be
    opened or read. Any other coerced value becomes the plain field key=value.
   */
  lemma SigilRule(key: Bytes, v: Value, fs: Multipart.FileSystem)
    requires Coercible(v)
    ensures var s := GetValue(v).s;
            var p := PartFor(key, v, fs);
            && (!HasSigil(s) ==> p == Ok(Multipart.Field(key, s)))
            && (HasSigil(s) && s[1..] !in fs ==> p == Err(OpenSourceFileFailed))
            && (HasSigil(s) && s[1..] in fs && fs[s[1..]].Unreadable? ==> p == Err(WriteFormFileFailed))
            && (HasSigil(s) && s[1..] in fs && fs[s[1..]].Readable? ==> p.Ok?)
    ensures PartFor(key, v, fs).Ok? && HasSigil(GetValue(v).s) ==> FilePart(key, GetValue(v).s[1..], fs, PartFor(key, v, fs).value)
  {
    var s := GetValue(v).s;
    if PartFor(key, v, fs).Ok? && HasSigil(s) {
      FilePartShape(key, v, fs);
    }
  }

  /**
    The file part for `path`: named by the key, its filename the last
    element of path (no '/', a suffix of path, preceded there by '/'), its
    content the file's bytes.
   */
  predicate FilePart(key: Bytes, path: Bytes, fs: Multipart.FileSystem, p: Multipart.Part) {
    && p.File? && p.name == key
    && SLASH !in p.filename
    && |p.filename| <= |path| && path[|path| - |p.filename|..] == p.filename
    && (|p.filename| < |path| ==> path[|path| - |p.filename| - 1] == SLASH)
    && path in fs && fs[path] == Multipart.Readable(p.content)
  }

  lemma FilePartShape(key: Bytes, v: Value, fs: Multipart.FileSystem)
    requires Coercible(v) && HasSigil(GetValue(v).s) && PartFor(key, v, fs).Ok?
    ensures FilePart(key, GetValue(v).s[1..], fs, PartFor(key, v, fs).value)
  {
    var path := GetValue(v).s[1..];
    var f := Multipart.BaseName(path);
    assert PartFor(key, v, fs) == Ok(Multipart.File(key, f, fs[path].data));
  }

  /** The file reference "@/tmp/f.txt" becomes a file part with filename "f.txt" (bytes written in hex). */
  lemma SigilSample(key: Bytes, fs: Multipart.FileSystem, data: Bytes)
    requires [0x2F, 0x74, 0x6D, 0x70, 0x2F, 0x66, 0x2E, 0x74, 0x78, 0x74] in fs
    requires fs[[0x2F, 0x74, 0x6D, 0x70, 0x2F, 0x66, 0x2E, 0x74, 0x78, 0x74]] == Multipart.Readable(data)
    ensures PartFor(key, Str([0x40, 0x2F, 0x74, 0x6D, 0x70, 0x2F, 0x66, 0x2E, 0x74, 0x78, 0x74]), fs)
            == Ok(Multipart.File(key, [0x66, 0x2E, 0x74, 0x78, 0x74], data))
  {
    var dir, file: Bytes := [0x2F, 0x74, 0x6D, 0x70], [0x66, 0x2E, 0x74, 0x78, 0x74];
    var s: Bytes := [0x40] + dir + [SLASH] + file;
    assert s == [0x40, 0x2F, 0x74, 0x6D, 0x70, 0x2F, 0x66, 0x2E, 0x74, 0x78, 0x74];
    assert s[1..] == dir + [SLASH] + file;
    assert Multipart.BaseName(s[1..]) == file by {
      assert SLASH !in file;
      Multipart.BaseNameOfJoin(dir, file);
    }
  }

  /** The multipart loop completes exactly when every key's part succeeds. */
  lemma {:induction false} PartsOfCompletes(bag: map<Bytes, Value>, order: seq<Bytes>, fs: Multipart.FileSystem)
    requires forall i | 0 <= i < |order| :: order[i] in bag
    ensures PartsOf(bag, order, fs).Ok? <==> forall i | 0 <= i < |order| :: PartFor(order[i], bag[order[i]], fs).Ok?
    decreases |order|
  {
    if order != [] {
      var n := |order| - 1;
      var init := order[..n];
      PartsOfCompletes(bag, init, fs);
      assert forall i | 0 <= i < n :: init[i] == order[i];
    }
  }

  /** A completed multipart loop has written one part per key, in iteration order. */
  lemma {:induction false} PartsOfValues(bag: map<Bytes, Value>, order: seq<Bytes>, fs: Multipart.FileSystem)
    requires forall i | 0 <= i < |order| :: order[i] in bag
    requires PartsOf(bag, order, fs).Ok?
    ensures |PartsOf(bag, order, fs).value| == |order|
    ensures forall i | 0 <= i < |order| :: PartFor(order[i], bag[order[i]], fs) == Ok(PartsOf(bag, order, fs).value[i])
    decreases |order|
  {
    if order != [] {
      var n := |order| - 1;
      var init := order[..n];
      assert PartsOf(bag, init, fs).Ok?;
      PartsOfValues(bag, init, fs);
      assert forall i | 0 <= i < n :: init[i] == order[i];
    }
  }

  /** An incomplete multipart loop stops with the failure of the first key whose part fails. */
  lemma {:induction false} PartsOfFirstFailure(bag: map<Bytes, Value>, order: seq<Bytes>, fs: Multipart.FileSystem)
    requires forall i | 0 <= i < |order| :: order[i] in bag
    requires !PartsOf(bag, order, fs).Ok?
    ensures exists i | 0 <= i < |order| ::
              && !PartFor(order[i], bag[order[i]], fs).Ok?
              && PartsOf(bag, order, fs) == PartFor(order[i], bag[order[i]], fs).Forward()
              && forall j | 0 <= j < i :: PartFor(order[j], bag[order[j]], fs).Ok?
    decreases |order|
  {
    var n := |order| - 1;
    var init := order[..n];
    assert forall i | 0 <= i < n :: init[i] == order[i];
    if PartsOf(bag, init, fs).Ok? {
      PartsOfCompletes(bag, init, fs);
      assert !PartFor(order[n], bag[order[n]], fs).Ok?;
    } else {
      PartsOfFirstFailure(bag, init, fs);
    }
  }

  /** Every part is named by its key. */
  lemma PartNamedByKey(key: Bytes, v: Value, fs: Multipart.FileSystem)
    requires PartFor(key, v, fs).Ok?
    ensures PartFor(key, v, fs).value.name == key
  {
  }

  /**
    A finished multipart request holds one part per key of the bag, in
    iteration order, each named by its key, and a closed writer. When a part
    fails, the encoder stops before resolving the URL: req.Query is untouched.
   */
  lemma MultipartShape(verb: Bytes, url: Bytes, env: Env, bag: map<Bytes, Value>, order: seq<Bytes>)
    requires Enumerates(order, bag.Keys)
    ensures var e := MultipartSpec(verb, url, env, bag, order);
            e.out.Ok? ==>
              && e.out.value.body.MultipartBody?
              && e.out.value.body.form.closed
              && |e.out.value.body.form.parts| == |order| == |bag|
              && forall i | 0 <= i < |order| ::
                   && PartFor(order[i], bag[order[i]], env.fs) == Ok(e.out.value.body.form.parts[i])
                   && e.out.value.body.form.parts[i].name == order[i]
    ensures var e := MultipartSpec(verb, url, env, bag, order);
            !PartsOf(bag, order, env.fs).Ok? ==> e.query == None && e.out == PartsOf(bag, order, env.fs).Forward()
  {
    if PartsOf(bag, order, env.fs).Ok? {
      PartsOfValues(bag, order, env.fs);
      EnumerationLength(order, bag.Keys);
      forall i | 0 <= i < |order| ensures PartFor(order[i], bag[order[i]], env.fs).value.name == order[i] {
        PartNamedByKey(order[i], bag[order[i]], env.fs);
      }
    }
  }

  lemma {:induction false} EnumerationLength(order: seq<Bytes>, keys: set<Bytes>)
    requires Enumerates(order, keys)
    ensures |order| == |keys|
    decreases |order|
  {
    if order != [] {
      var n := |order| - 1;
      var init := order[..n];
      assert Enumerates(init, keys - {order[n]}) by {
        forall k | k in keys - {order[n]} ensures k in init {
          var i :| 0 <= i < |order| && order[i] == k;
        }
      }
      EnumerationLength(init, keys - {order[n]});
    } else {
      assert forall k :: k !in keys;
    }
  }

  // ---------------------------------------------------------------------------
  // JSON.
  // ---------------------------------------------------------------------------

  /** The JSON encoder resolves the URL first: a failed resolution wins over any problem with the bag. */
  lemma JsonResolvesFirst(verb: Bytes, url: Bytes, env: Env, bag: Option<map<Bytes, Value>>)
    requires !TargetUrl(url, env).out.Ok?
    ensures JsonSpec(verb, url, env, bag) == Effect(TargetUrl(url, env).out.Forward(), TargetUrl(url, env).query)
  {
  }

  /**
    After a successful resolution, json.Marshal's failure comes back as an
    error, never a panic, exactly when the bag holds a value of a kind the
    encoder refuses.
   */
  lemma JsonMarshalFailureIsError(verb: Bytes, url: Bytes, env: Env, bag: Option<map<Bytes, Value>>)
    requires TargetUrl(url, env).out.Ok?
    ensures !JsonSpec(verb, url, env, bag).out.Panicked?
    ensures JsonSpec(verb, url, env, bag).out == Err(MarshalFailed)
            <==> bag.Some? && Json.Refused(Dict(bag.value))
  {
    if bag.Some? {
      Json.MarshalFailsIffRefused(Dict(bag.value));
    }
  }

  /**
    The body of a finished JSON request is the raw, uncoerced bag: `null`
    for the nil bag of a GET, otherwise one object with exactly the bag's
    keys, which reads back as the bag itself when it holds only ints,
    strings and further bags.
   */
  lemma JsonBodyIsRawBag(verb: Bytes, url: Bytes, env: Env, bag: Option<map<Bytes, Value>>)
    requires JsonSpec(verb, url, env, bag).out.Ok?
    ensures var r := JsonSpec(verb, url, env, bag).out.value;
            && r.body.JsonBody?
            && (bag.None? ==> r.body.doc == Json.JNull)
            && (bag.Some? ==> r.body.doc.JObject? && r.body.doc.fields.Keys == bag.value.Keys)
            && (bag.Some? && Json.Plain(Dict(bag.value)) ==> Json.FromJson(r.body.doc) == Some(Dict(bag.value)))
  {
    if bag.Some? {
      Json.MarshalBagShape(bag.value);
      if Json.Plain(Dict(bag.value)) {
        Json.MarshalRoundTrip(Dict(bag.value));
      }
    }
  }

  /** The sample bag marshals to the object with the same two fields. */
  lemma SampleBagMarshals(bag: map<Bytes, Value>, name: Bytes, age: Bytes)
    requires name != age
    requires bag == map[name := Str(Ascii("alice")), age := Int(30)]
    ensures MarshalBag(Some(bag)) == Some(Json.JObject(map[age := Json.JNumber(30), name := Json.JString(Ascii("alice"))]))
  {
    assert bag.Keys == {name, age};
    assert forall k | k in bag :: Json.Marshal(bag[k]).Some?;
    var fields := map k | k in bag :: Json.Marshal(bag[k]).value;
    assert Json.Marshal(Dict(bag)) == Some(Json.JObject(fields));
    assert fields == map[age := Json.JNumber(30), name := Json.JString(Ascii("alice"))];
  }

  /**
    The end-to-end scenario: POST as application/json with the bag
    {"name": "alice", "age": 30} yields the object {"age": 30, "name": "alice"}
    sent to the resolved URL with the declared Content-Type header.
   */
  lemma JsonPostScenario(url: Bytes, env: Env)
    requires Ascii("post") in env.scope
    requires env.scope[Ascii("post")] == Dict(map[Ascii("name") := Str(Ascii("alice")), Ascii("age") := Int(30)])
    requires BASE_URL in env.scope && env.scope[BASE_URL].Str?
    requires var c := env.compileUrl(env.scope[BASE_URL].s + url, env.scope);
             c.err.None? && env.requestError(Ascii("POST"), c.url).None?
    ensures var c := env.compileUrl(env.scope[BASE_URL].s + url, env.scope);
            var headers := map[CONTENT_TYPE := [APPLICATION_JSON]];
            var doc := Json.JObject(map[Ascii("age") := Json.JNumber(30), Ascii("name") := Json.JString(Ascii("alice"))]);
            OrderFits(Ascii("POST"), env.scope, [Ascii("name"), Ascii("age")])
            && Build(Ascii("POST"), url, headers, env, [Ascii("name"), Ascii("age")])
               == Effect(Ok(HttpRequest(Ascii("POST"), c.url, JsonBody(doc), headers)), Some(c.query))
  {
    var verb, name, age := Ascii("POST"), Ascii("name"), Ascii("age");
    var c := env.compileUrl(env.scope[BASE_URL].s + url, env.scope);
    var headers := map[CONTENT_TYPE := [APPLICATION_JSON]];
    var bag := env.scope[Ascii("post")].entries;
    var doc := Json.JObject(map[age := Json.JNumber(30), name := Json.JString(Ascii("alice"))]);
    assert name != age by { assert name[0] != age[0]; }
    assert BagOf(verb, env.scope) == Ok(Some(bag)) by {
      assert verb != GET;
      PostLooksUpPost();
    }
    assert OrderFits(verb, env.scope, [name, age]) by {
      assert Enumerates([name, age], bag.Keys);
    }
    assert JsonSpec(verb, url, env, Some(bag)) == Effect(Ok(HttpRequest(verb, c.url, JsonBody(doc), map[])), Some(c.query)) by {
      SampleBagMarshals(bag, name, age);
      assert TargetUrl(url, env) == Effect(Ok(c.url), Some(c.query));
    }
    assert Build(verb, url, headers, env, [name, age]) == Dispatch(APPLICATION_JSON, verb, url, headers, env, Some(bag), [name, age]);
    DispatchSelectsEncoder(APPLICATION_JSON, verb, url, headers, env, Some(bag), [name, age]);
  }
}
