/** `HttpTransactionManager.from_transaction` of readthedocs/integrations/models.py:
    the field set of a new `HttpTransaction` record, built from a Django
    request and the response sent for it. The `create` call that stores the
    record is not modelled; the factory's result is the assembled record. */
module Integrations {
  import opened Wrappers
  import opened PyStr
  import opened PyDict

  /** A header mapping, as stored in the `JSONField`s. */
  type Headers = map<string, string>

  /** The generic reference `related_object`: the content type of the
      related entity and its primary key (`content_type`, `object_id`). */
  datatype ObjectRef = ObjectRef(contentType: string, objectId: nat)

  /** What the factory reads from the request: `META` as the sequence of its
      items (the WSGI environment), `data` when the request has that
      attribute (`None` when `hasattr(req, 'data')` is false), and `body`. */
  datatype Request = Request(meta: seq<(string, string)>, data: Option<string>, body: string)

  /** What the factory reads from the response: `status_code`, the header
      pairs `items()` yields, and `content`. */
  datatype Response = Response(statusCode: int, items: seq<(string, string)>, content: string)

  /** The fields handed to `create`. `source` and `relatedObject` are `None`
      when the factory leaves them out of the field set; what `create` then
      does (the empty default of `source`, and the missing `content_type`
      and `object_id`, which have no default) is not modelled. `date` is set
      by the store and is not part of the field set. */
  datatype HttpTransaction = HttpTransaction(
    source: Option<string>,
    relatedObject: Option<ObjectRef>,
    requestHeaders: Headers,
    requestBody: string,
    responseHeaders: Headers,
    responseBody: string,
    statusCode: int)

  /** `HttpTransaction.SOURCE_WEBHOOK`, the source tag callers pass for webhooks. */
  const SOURCE_WEBHOOK: string := "webhook"

  /** The prefix under which WSGI files the request's HTTP headers in `META`. */
  const HTTP_PREFIX: string := "HTTP_"

  /** `key.startswith('HTTP_')`. */
  predicate IsHttpKey(key: string)
    ensures IsHttpKey(key) <==> exists rest :: key == HTTP_PREFIX + rest
  {
    StartsWith(key, HTTP_PREFIX)
  }

  /** `key[5:].title().replace('_', '-')`: the header name recorded for a
      `META` key. */
  function HeaderName(key: string): (name: string)
    ensures '_' !in name
    ensures IsTitled(name)
    ensures IsHttpKey(key) ==> |name| == |key| - |HTTP_PREFIX|
  {
    var titled := Title(SliceFrom(key, |HTTP_PREFIX|));
    TitleIsTitled(SliceFrom(key, |HTTP_PREFIX|));
    ReplaceKeepsTitled(titled, '_', '-');
    Replace(titled, '_', '-')
  }

  /** The generator `((key[5:].title().replace('_', '-'), str(val)) for
      (key, val) in req.META.items() if key.startswith('HTTP_'))`, in order.
      Values are strings already, so `str(val)` is `val`. */
  function HeaderPairs(meta: seq<(string, string)>): (pairs: seq<(string, string)>)
    ensures |pairs| <= |meta|
  {
    if meta == [] then []
    else
      var key, val := meta[|meta| - 1].0, meta[|meta| - 1].1;
      HeaderPairs(meta[..|meta| - 1]) + if IsHttpKey(key) then [(HeaderName(key), val)] else []
  }

  /** The header names of the HTTP keys of `META`. */
  ghost function HttpHeaderNames(meta: seq<(string, string)>): set<string> {
    set i | 0 <= i < |meta| && IsHttpKey(meta[i].0) :: HeaderName(meta[i].0)
  }

  /** `request_headers`: `dict(...)` over the generator above. Its keys are
      exactly the names of the HTTP keys of `META`: every name comes from a
      key with the `HTTP_` prefix, and every such key contributes its name. */
  function RequestHeaders(meta: seq<(string, string)>): (headers: Headers)
    ensures headers.Keys == HttpHeaderNames(meta)
  {
    HeaderPairsNames(meta);
    DictOf(HeaderPairs(meta))
  }

  /** The generator yields, for each HTTP item `(key, val)` of `META`, the
      pair `(HeaderName(key), val)`, and nothing else. */
  lemma {:induction false} HeaderPairsMembers(meta: seq<(string, string)>)
    ensures forall p :: p in HeaderPairs(meta) ==>
      exists i :: 0 <= i < |meta| && IsHttpKey(meta[i].0) && p == (HeaderName(meta[i].0), meta[i].1)
    ensures forall i :: 0 <= i < |meta| && IsHttpKey(meta[i].0) ==>
      (HeaderName(meta[i].0), meta[i].1) in HeaderPairs(meta)
  {
    if meta != [] {
      var n := |meta|;
      var init := meta[..n - 1];
      HeaderPairsMembers(init);
      forall p | p in HeaderPairs(meta)
        ensures exists i :: 0 <= i < n && IsHttpKey(meta[i].0) && p == (HeaderName(meta[i].0), meta[i].1)
      {
        if p in HeaderPairs(init) {
          var i :| 0 <= i < n - 1 && IsHttpKey(init[i].0) && p == (HeaderName(init[i].0), init[i].1);
          assert meta[i] == init[i];
        } else {
          assert IsHttpKey(meta[n - 1].0) && p == (HeaderName(meta[n - 1].0), meta[n - 1].1);
        }
      }
      forall i | 0 <= i < n && IsHttpKey(meta[i].0)
        ensures (HeaderName(meta[i].0), meta[i].1) in HeaderPairs(meta)
      {
        if i < n - 1 {
          assert init[i] == meta[i];
        }
      }
    }
  }

  /** The names the generator yields are the names of the HTTP keys. */
  lemma HeaderPairsNames(meta: seq<(string, string)>)
    ensures (set i | 0 <= i < |HeaderPairs(meta)| :: HeaderPairs(meta)[i].0) == HttpHeaderNames(meta)
  {
    var pairs := HeaderPairs(meta);
    HeaderPairsMembers(meta);
    forall h | h in HttpHeaderNames(meta)
      ensures exists j :: 0 <= j < |pairs| && pairs[j].0 == h
    {
      var i :| 0 <= i < |meta| && IsHttpKey(meta[i].0) && HeaderName(meta[i].0) == h;
      var j :| 0 <= j < |pairs| && pairs[j] == (HeaderName(meta[i].0), meta[i].1);
    }
    forall j | 0 <= j < |pairs|
      ensures pairs[j].0 in HttpHeaderNames(meta)
    {
      assert pairs[j] in pairs;
    }
  }

  /** The generator keeps the order of `META`: the pairs of `a + b` are those
      of `a` followed by those of `b`. */
  lemma {:induction false} HeaderPairsConcat(a: seq<(string, string)>, b: seq<(string, string)>)
    ensures HeaderPairs(a + b) == HeaderPairs(a) + HeaderPairs(b)
  {
    if b == [] {
      assert a + b == a;
    } else {
      var init := b[..|b| - 1];
      assert b == init + [b[|b| - 1]];
      assert a + b == (a + init) + [b[|b| - 1]];
      assert (a + b)[..|a + b| - 1] == a + init;
      HeaderPairsConcat(a, init);
    }
  }

  /** The factory. The field set is first built with the five required
      fields and the two optional ones absent, and `source` and
      `related_object` are then added only when they are not `None`. The
      stored response body is the request's `data` when the request has
      one, as the source has it. */
  function FromTransaction(req: Request, resp: Response, source: Option<string>,
                           relatedObject: Option<ObjectRef>): (t: HttpTransaction)
    ensures t.statusCode == resp.statusCode
    ensures t.requestHeaders == RequestHeaders(req.meta)
    ensures t.responseHeaders == DictOf(resp.items)
    ensures req.data.Some? ==> t.requestBody == req.data.value && t.responseBody == req.data.value
    ensures req.data.None? ==> t.requestBody == req.body && t.responseBody == resp.content
    ensures t.source.Some? <==> source.Some?
    ensures source.Some? ==> t.source.value == source.value
    ensures t.relatedObject.Some? <==> relatedObject.Some?
    ensures relatedObject.Some? ==> t.relatedObject.value == relatedObject.value
  {
    var fields := HttpTransaction(
      source := None,
      relatedObject := None,
      statusCode := resp.statusCode,
      requestHeaders := RequestHeaders(req.meta),
      requestBody := if req.data.Some? then req.data.value else req.body,
      responseHeaders := DictOf(resp.items),
      responseBody := if req.data.Some? then req.data.value else resp.content);
    var fields := if source.Some? then fields.(source := source) else fields;
    var fields := if relatedObject.Some? then fields.(relatedObject := relatedObject) else fields;
    fields
  }

  // ---------------------------------------------------------------------
  // The header name of a single META key

  /** Normalising an already normalised header name changes nothing. */
  lemma HeaderNameIdempotent(key: string)
    ensures HeaderName(HTTP_PREFIX + HeaderName(key)) == HeaderName(key)
  {
    var name := HeaderName(key);
    assert SliceFrom(HTTP_PREFIX + name, |HTTP_PREFIX|) == name;
    TitleFixpoint(name);
    assert Replace(name, '_', '-') == name;
  }

  /** The CGI convention (section 4.1.18 of RFC 3875) by which the server
      files a request header under `META`: `HTTP_` followed by the header
      name upper-cased, with `-` turned into `_`. It is not part of the
      factory; it is the inverse the normalisation is meant to undo. */
  function MetaKey(name: string): (key: string)
    ensures IsHttpKey(key)
    ensures |key| == |HTTP_PREFIX| + |name|
  {
    HTTP_PREFIX + Replace(UpperStr(name), '-', '_')
  }

  /** A header name survives the trip through `META` exactly when it is in
      the title case the factory produces and holds no `_`. */
  lemma HeaderNameOfMetaKey(name: string)
    ensures HeaderName(MetaKey(name)) == name <==> IsTitled(name) && '_' !in name
  {
    if IsTitled(name) && '_' !in name {
      var x := Replace(UpperStr(name), '-', '_');
      assert SliceFrom(MetaKey(name), |HTTP_PREFIX|) == x;
      forall i | 0 <= i < |name|
        ensures Replace(Title(x), '_', '-')[i] == name[i]
      {
        TitleAt(x, i);
        if 0 < i {
          assert IsCased(x[i - 1]) == IsCased(name[i - 1]);
        }
        assert if 0 < i && IsCased(name[i - 1]) then !IsUpper(name[i]) else !IsLower(name[i]);
      }
    }
  }

  /** A `META` key in the form the server writes (no lower-case letter and
      no `-` after the prefix) comes back from its header name unchanged. */
  lemma MetaKeyOfHeaderName(key: string)
    requires IsHttpKey(key)
    requires forall i :: |HTTP_PREFIX| <= i < |key| ==> !IsLower(key[i]) && key[i] != '-'
    ensures MetaKey(HeaderName(key)) == key
  {
    var b := SliceFrom(key, |HTTP_PREFIX|);
    var t := Title(b);
    var name := Replace(t, '_', '-');
    var x := Replace(UpperStr(name), '-', '_');
    forall i | 0 <= i < |b|
      ensures x[i] == b[i]
    {
      assert b[i] == key[|HTTP_PREFIX| + i];
      TitleAt(b, i);
      assert Lower(t[i]) == Lower(b[i]);
      if b[i] == '_' {
        assert name[i] == '-';
      } else {
        assert t[i] != '_' && name[i] == t[i];
        assert UpperStr(name)[i] == Upper(t[i]);
      }
    }
    assert key == HTTP_PREFIX + b;
    assert x == b;
  }

  lemma TitleOfXTest()
    ensures Title("X_TEST") == "X_Test"
  {
    assert IsTitled("X_Test");
    assert EqualIgnoringCase("X_TEST", "X_Test");
    TitleUnique("X_TEST", "X_Test");
  }

  /** `HTTP_X_TEST` is recorded as `X-Test`. */
  lemma HeaderNameXTest()
    ensures HeaderName("HTTP_X_TEST") == "X-Test"
  {
    assert SliceFrom("HTTP_X_TEST", 5) == "X_TEST";
    TitleOfXTest();
    assert Replace("X_Test", '_', '-') == "X-Test";
  }

  lemma ContentTypeTitled()
    ensures IsTitled("Content_Type")
  {
  }

  lemma ContentTypeEqualIgnoringCase()
    ensures EqualIgnoringCase("CONTENT_TYPE", "Content_Type")
  {
  }

  lemma TitleOfContentType()
    ensures Title("CONTENT_TYPE") == "Content_Type"
  {
    ContentTypeTitled();
    ContentTypeEqualIgnoringCase();
    TitleUnique("CONTENT_TYPE", "Content_Type");
  }

  /** `HTTP_CONTENT_TYPE` is recorded as `Content-Type`. */
  lemma HeaderNameContentType()
    ensures HeaderName("HTTP_CONTENT_TYPE") == "Content-Type"
  {
    assert SliceFrom("HTTP_CONTENT_TYPE", 5) == "CONTENT_TYPE";
    TitleOfContentType();
    assert Replace("Content_Type", '_', '-') == "Content-Type";
  }

  // ---------------------------------------------------------------------
  // request_headers over the whole of META

  /** One more `META` item adds its header only when its key is an HTTP key. */
  lemma RequestHeadersSnoc(meta: seq<(string, string)>, key: string, val: string)
    ensures RequestHeaders(meta + [(key, val)]) ==
      if IsHttpKey(key) then RequestHeaders(meta)[HeaderName(key) := val] else RequestHeaders(meta)
  {
    assert (meta + [(key, val)])[..|meta|] == meta;
    if IsHttpKey(key) {
      DictOfSnoc(HeaderPairs(meta), (HeaderName(key), val));
    } else {
      assert HeaderPairs(meta + [(key, val)]) == HeaderPairs(meta) + [];
      assert HeaderPairs(meta) + [] == HeaderPairs(meta);
    }
  }

  /** Every recorded header name is free of `_`, follows the title rule, and
      is five characters shorter than some HTTP key of `META`. */
  lemma RequestHeaderNamesShape(meta: seq<(string, string)>, name: string)
    requires name in RequestHeaders(meta)
    ensures '_' !in name && IsTitled(name)
    ensures exists i :: 0 <= i < |meta| && IsHttpKey(meta[i].0) && |name| == |meta[i].0| - 5
  {
  }

  /** Last wins: when several HTTP keys of `META` give the same header name,
      the value recorded is that of the last of them. */
  lemma {:induction false} RequestHeadersLastWins(meta: seq<(string, string)>, i: nat)
    requires i < |meta| && IsHttpKey(meta[i].0)
    requires forall j :: i < j < |meta| && IsHttpKey(meta[j].0) ==> HeaderName(meta[j].0) != HeaderName(meta[i].0)
    ensures HeaderName(meta[i].0) in RequestHeaders(meta)
    ensures RequestHeaders(meta)[HeaderName(meta[i].0)] == meta[i].1
  {
    var n := |meta|;
    var init, key, val := meta[..n - 1], meta[n - 1].0, meta[n - 1].1;
    assert meta == init + [(key, val)];
    RequestHeadersSnoc(init, key, val);
    if i < n - 1 {
      assert init[i] == meta[i];
      RequestHeadersLastWins(init, i);
    }
  }

  /** A `META` item whose key lacks the `HTTP_` prefix contributes nothing,
      wherever it stands. */
  lemma {:induction false} RequestHeadersIgnoresNonHttp(before: seq<(string, string)>, key: string, val: string,
                                                        after: seq<(string, string)>)
    requires !IsHttpKey(key)
    ensures RequestHeaders(before + [(key, val)] + after) == RequestHeaders(before + after)
  {
    if after == [] {
      assert before + [(key, val)] + after == before + [(key, val)];
      assert before + after == before;
      RequestHeadersSnoc(before, key, val);
    } else {
      var init, k, v := after[..|after| - 1], after[|after| - 1].0, after[|after| - 1].1;
      assert after == init + [(k, v)];
      assert before + [(key, val)] + after == (before + [(key, val)] + init) + [(k, v)];
      assert before + after == (before + init) + [(k, v)];
      RequestHeadersIgnoresNonHttp(before, key, val, init);
      RequestHeadersSnoc(before + [(key, val)] + init, k, v);
      RequestHeadersSnoc(before + init, k, v);
    }
  }

  // ---------------------------------------------------------------------
  // The assembled field set

  /** `status_code`, both headers and both bodies do not depend on `source`
      or `related_object`. */
  lemma FromTransactionOptionalFieldsIndependent(req: Request, resp: Response,
                                                 s1: Option<string>, o1: Option<ObjectRef>,
                                                 s2: Option<string>, o2: Option<ObjectRef>)
    ensures FromTransaction(req, resp, s1, o1).(source := None, relatedObject := None) ==
            FromTransaction(req, resp, s2, o2).(source := None, relatedObject := None)
  {
  }

  /** When the request has `data`, the stored response body is that data and
      does not depend on the response at all. */
  lemma ResponseBodyIgnoresResponse(req: Request, r1: Response, r2: Response,
                                    source: Option<string>, relatedObject: Option<ObjectRef>)
    requires req.data.Some?
    ensures FromTransaction(req, r1, source, relatedObject).responseBody ==
            FromTransaction(req, r2, source, relatedObject).responseBody ==
            FromTransaction(req, r1, source, relatedObject).requestBody
  {
  }

  /** A transaction recorded with the webhook tag keeps that tag as its source. */
  lemma WebhookSourceRecorded(req: Request, resp: Response, relatedObject: Option<ObjectRef>)
    ensures FromTransaction(req, resp, Some(SOURCE_WEBHOOK), relatedObject).source == Some("webhook")
  {
  }

  /** A request with header `X-Test: abc`, answered with status 201 and
      header `X-Resp: v`, recorded without source or related object. */
  lemma FromTransactionExample()
    ensures FromTransaction(Request([("HTTP_X_TEST", "abc")], None, "reqbody"),
                            Response(201, [("X-Resp", "v")], "respbody"), None, None)
         == HttpTransaction(None, None, map["X-Test" := "abc"], "reqbody",
                            map["X-Resp" := "v"], "respbody", 201)
  {
    HeaderNameXTest();
    RequestHeadersSnoc([], "HTTP_X_TEST", "abc");
    DictOfSnoc([], ("X-Resp", "v"));
  }
}
