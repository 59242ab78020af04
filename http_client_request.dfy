// A pooled HTTP client request: the method and url, the query, header and
// form lists, the body as text or as a byte buffer, options and handlers.
module HttpClientRequests {
  import opened Wrappers

  datatype NameValue = NameValue(name: string, value: string)

  /** A byte buffer handed to the request, by identity; its release is recorded. */
  type BufId = nat
  /** A completion, success or failure handler, by identity. */
  type HandlerId = nat

  /** `HttpHeaderNames.CONTENT_TYPE` */
  const CONTENT_TYPE: string := "content-type"
  /** `HttpHeaderValues.APPLICATION_X_WWW_FORM_URLENCODED` */
  const FORM_URLENCODED: string := "application/x-www-form-urlencoded"

  // ---- Add or replace, as a function on the header list ----

  /** The first index from `from` on whose name is `name`. */
  function FirstNamed(hs: seq<NameValue>, name: string, from: nat): (r: Option<nat>)
    requires from <= |hs|
    ensures r.Some? ==> from <= r.value < |hs| && hs[r.value].name == name
    ensures r.Some? ==> forall k :: from <= k < r.value ==> hs[k].name != name
    ensures r.None? ==> forall k :: from <= k < |hs| ==> hs[k].name != name
    decreases |hs| - from
  {
    if from == |hs| then None
    else if hs[from].name == name then Some(from)
    else FirstNamed(hs, name, from + 1)
  }

  /** What `addOrReplaceHeader` makes of the list: the first entry of that name is replaced in place, or the entry goes on the end. */
  function AddOrReplace(hs: seq<NameValue>, nv: NameValue): seq<NameValue>
  {
    match FirstNamed(hs, nv.name, 0)
    case Some(i) => hs[i := nv]
    case None => hs + [nv]
  }

  /** The same operation written by recursion on the list, as an independent reference. */
  function AddOrReplaceRec(hs: seq<NameValue>, nv: NameValue): seq<NameValue>
  {
    if hs == [] then [nv]
    else if hs[0].name == nv.name then [nv] + hs[1..]
    else [hs[0]] + AddOrReplaceRec(hs[1..], nv)
  }

  /** A list that is null is treated as empty. */
  function OrEmpty(hs: Option<seq<NameValue>>): seq<NameValue>
  {
    if hs.Some? then hs.value else []
  }

  lemma {:induction false} FirstNamedShift(hs: seq<NameValue>, name: string, from: nat)
    requires 0 < from <= |hs|
    ensures FirstNamed(hs, name, from) == (match FirstNamed(hs[1..], name, from - 1)
                                           case Some(i) => Some(i + 1)
                                           case None => None)
    decreases |hs| - from
  {
    if from < |hs| && hs[from].name != name {
      FirstNamedShift(hs, name, from + 1);
    }
  }

  /** The loop over indices and the recursion on the list agree. */
  lemma {:induction false} AddOrReplaceAgrees(hs: seq<NameValue>, nv: NameValue)
    ensures AddOrReplace(hs, nv) == AddOrReplaceRec(hs, nv)
    decreases |hs|
  {
    if hs != [] && hs[0].name != nv.name {
      AddOrReplaceAgrees(hs[1..], nv);
      FirstNamedShift(hs, nv.name, 1);
      match FirstNamed(hs[1..], nv.name, 0)
      case Some(i) => {
        assert hs[i + 1 := nv] == [hs[0]] + hs[1..][i := nv];
      }
      case None => {
        assert hs + [nv] == [hs[0]] + (hs[1..] + [nv]);
      }
    }
  }

  /**
   * The list grows by at most one, and only when no entry had the name; at most
   * one entry changes, and it is the first one of that name; the others keep
   * their places.
   */
  lemma AddOrReplaceShape(hs: seq<NameValue>, nv: NameValue)
    ensures var r := AddOrReplace(hs, nv);
      (|r| == |hs| <==> exists k :: 0 <= k < |hs| && hs[k].name == nv.name) &&
      (|r| == |hs| + 1 <==> forall k :: 0 <= k < |hs| ==> hs[k].name != nv.name) &&
      nv in r &&
      forall k :: 0 <= k < |hs| && hs[k] != r[k] ==>
        (r[k] == nv && hs[k].name == nv.name && forall j :: 0 <= j < k ==> hs[j].name != nv.name)
  {
    var r := AddOrReplace(hs, nv);
    match FirstNamed(hs, nv.name, 0)
    case Some(i) => {
      assert r[i] == nv;
    }
    case None => {
      assert r[|hs|] == nv;
    }
  }

  /** Adding or replacing the same entry again changes nothing. */
  lemma AddOrReplaceIdempotent(hs: seq<NameValue>, nv: NameValue)
    ensures AddOrReplace(AddOrReplace(hs, nv), nv) == AddOrReplace(hs, nv)
  {
    var r := AddOrReplace(hs, nv);
    match FirstNamed(hs, nv.name, 0)
    case Some(i) => {
      assert FirstNamed(r, nv.name, 0) == Some(i) by {
        assert r[i].name == nv.name;
        assert forall k :: 0 <= k < i ==> r[k] == hs[k];
        FirstIs(r, nv.name, i);
      }
    }
    case None => {
      assert FirstNamed(r, nv.name, 0) == Some(|hs|) by {
        assert forall k :: 0 <= k < |hs| ==> r[k] == hs[k];
        FirstIs(r, nv.name, |hs|);
      }
      assert r[|hs| := nv] == r;
    }
  }

  /** After the call, the first entry of that name holds the new value. */
  lemma AddOrReplaceFinds(hs: seq<NameValue>, nv: NameValue)
    ensures var r := AddOrReplace(hs, nv);
      exists i :: FirstNamed(r, nv.name, 0) == Some(i) && r[i] == nv
  {
    var r := AddOrReplace(hs, nv);
    match FirstNamed(hs, nv.name, 0)
    case Some(i) => {
      assert forall k :: 0 <= k < i ==> r[k] == hs[k];
      FirstIs(r, nv.name, i);
    }
    case None => {
      assert forall k :: 0 <= k < |hs| ==> r[k] == hs[k];
      FirstIs(r, nv.name, |hs|);
    }
  }

  lemma FirstIs(hs: seq<NameValue>, name: string, i: nat)
    requires i < |hs| && hs[i].name == name
    requires forall k :: 0 <= k < i ==> hs[k].name != name
    ensures FirstNamed(hs, name, 0) == Some(i)
  {
    var r := FirstNamed(hs, name, 0);
    assert r.Some? && r.value >= i && r.value <= i;
  }

  // ---- The request ----

  /** `list.clear()` on a list that may be null. */
  function Cleared(l: Option<seq<NameValue>>): (r: Option<seq<NameValue>>)
    ensures r.Some? <==> l.Some?
    ensures r.Some? ==> r.value == []
  {
    if l.Some? then Some([]) else None
  }

  /** The byte body a release would give back, if any. */
  function Held(b: Option<BufId>): (r: seq<BufId>)
    ensures b.None? <==> r == []
    ensures b.Some? ==> r == [b.value]
  {
    if b.Some? then [b.value] else []
  }

  class ClientRequest {
    /** `m_method`, which `recycle` keeps */
    var httpMethod: string
    /** `m_url` */
    var url: Option<string>
    /** `m_queryParams`, null until first used */
    var queryParams: Option<seq<NameValue>>
    /** `m_headers`, null until first used */
    var headers: Option<seq<NameValue>>
    /** `m_stringData` */
    var stringData: Option<string>
    /** `m_bbData` */
    var bbData: Option<BufId>
    /** `m_formParams`, null until first used */
    var formParams: Option<seq<NameValue>>
    /** `m_followRedirect` */
    var followRedirect: Option<bool>
    /** `m_requestTimeout` */
    var requestTimeout: Option<int>
    /** `m_readTimeout` */
    var readTimeout: Option<int>
    /** `m_successHandler` */
    var successHandler: Option<HandlerId>
    /** `m_failedHandler` */
    var failedHandler: Option<HandlerId>
    /** the byte bodies released by this request, in order */
    var released: seq<BufId>

    /** `create(method, url)`: a request with nothing else set. */
    constructor Create(httpMethod: string, url: string)
      ensures this.httpMethod == httpMethod && this.url == Some(url)
      ensures queryParams == None && headers == None && formParams == None
      ensures stringData == None && bbData == None
      ensures followRedirect == None && requestTimeout == None && readTimeout == None
      ensures successHandler == None && failedHandler == None && released == []
    {
      this.httpMethod := httpMethod;
      this.url := Some(url);
      queryParams := None;
      headers := None;
      stringData := None;
      bbData := None;
      formParams := None;
      followRedirect := None;
      requestTimeout := None;
      readTimeout := None;
      successHandler := None;
      failedHandler := None;
      released := [];
    }

    /**
     * `recycle`: clears the url, the lists (a list once made stays, empty),
     * both bodies (a byte body is released), the options and the handlers.
     * The method is kept.
     */
    method Recycle()
      modifies this
      ensures httpMethod == old(httpMethod) && url == None
      ensures queryParams == Cleared(old(queryParams)) && headers == Cleared(old(headers)) && formParams == Cleared(old(formParams))
      ensures stringData == None && bbData == None && released == old(released) + Held(old(bbData))
      ensures followRedirect == None && requestTimeout == None && readTimeout == None
      ensures successHandler == None && failedHandler == None
    {
      ClearContent();
      ClearSettings();
    }

    /** The url, the lists and the bodies of `recycle`. */
    method ClearContent()
      modifies this
      ensures httpMethod == old(httpMethod) && url == None
      ensures queryParams == Cleared(old(queryParams)) && headers == Cleared(old(headers)) && formParams == Cleared(old(formParams))
      ensures stringData == None && bbData == None && released == old(released) + Held(old(bbData))
      ensures followRedirect == old(followRedirect) && requestTimeout == old(requestTimeout) && readTimeout == old(readTimeout)
      ensures successHandler == old(successHandler) && failedHandler == old(failedHandler)
    {
      url := None;
      queryParams := Cleared(queryParams);
      headers := Cleared(headers);
      stringData := None;
      released := released + Held(bbData);
      bbData := None;
      formParams := Cleared(formParams);
    }

    /** The options and handlers of `recycle`. */
    method ClearSettings()
      modifies this
      ensures httpMethod == old(httpMethod) && url == old(url)
      ensures queryParams == old(queryParams) && headers == old(headers) && formParams == old(formParams)
      ensures stringData == old(stringData) && bbData == old(bbData) && released == old(released)
      ensures followRedirect == None && requestTimeout == None && readTimeout == None
      ensures successHandler == None && failedHandler == None
    {
      followRedirect := None;
      requestTimeout := None;
      readTimeout := None;
      successHandler := None;
      failedHandler := None;
    }

    /** The redirect and timeout options are as before. */
    twostate predicate OptionsKept()
      reads this
    {
      followRedirect == old(followRedirect) && requestTimeout == old(requestTimeout) && readTimeout == old(readTimeout)
    }

    /** The success and failure handlers are as before. */
    twostate predicate HandlersKept()
      reads this
    {
      successHandler == old(successHandler) && failedHandler == old(failedHandler)
    }

    /** `onCompletionHandler`: one handler for both outcomes. */
    method OnCompletionHandler(handler: HandlerId)
      modifies this
      ensures successHandler == Some(handler) && failedHandler == Some(handler)
      ensures httpMethod == old(httpMethod) && url == old(url) && headers == old(headers) && formParams == old(formParams)
      ensures queryParams == old(queryParams) && stringData == old(stringData) && bbData == old(bbData)
      ensures released == old(released) && OptionsKept()
    {
      successHandler := Some(handler);
      failedHandler := Some(handler);
    }

    /** `addHeader`: always appends, making the list on first use. */
    method AddHeader(name: string, value: string)
      modifies this
      ensures headers == Some(OrEmpty(old(headers)) + [NameValue(name, value)])
      ensures httpMethod == old(httpMethod) && url == old(url) && formParams == old(formParams) && queryParams == old(queryParams)
      ensures stringData == old(stringData) && bbData == old(bbData) && released == old(released)
      ensures HandlersKept() && OptionsKept()
    {
      if headers.None? {
        headers := Some([]);
      }
      headers := Some(headers.value + [NameValue(name, value)]);
    }

    /** `addOrReplaceHeader`: the first entry of that exact name is replaced in place; otherwise the entry is appended. */
    method AddOrReplaceHeader(name: string, value: string)
      modifies this
      ensures headers == Some(AddOrReplace(OrEmpty(old(headers)), NameValue(name, value)))
      ensures httpMethod == old(httpMethod) && url == old(url) && formParams == old(formParams) && queryParams == old(queryParams)
      ensures stringData == old(stringData) && bbData == old(bbData) && released == old(released)
      ensures HandlersKept() && OptionsKept()
    {
      var nv := NameValue(name, value);
      if headers.None? {
        headers := Some([nv]);
        assert [] + [nv] == [nv];
        return;
      }
      var hs := headers.value;
      var i := 0;
      while i < |hs|
        invariant 0 <= i <= |hs| && headers == Some(hs)
        invariant FirstNamed(hs, name, 0) == FirstNamed(hs, name, i)
      {
        if hs[i].name == name {
          headers := Some(hs[i := nv]);
          return;
        }
        i := i + 1;
      }
      headers := Some(hs + [nv]);
    }

    /** `addFormParam`: the first one makes the list and sets the form Content-Type; every one is appended. */
    method AddFormParam(name: string, value: string)
      modifies this
      ensures formParams == Some(OrEmpty(old(formParams)) + [NameValue(name, value)])
      ensures headers == if old(formParams).None? then Some(AddOrReplace(OrEmpty(old(headers)), NameValue(CONTENT_TYPE, FORM_URLENCODED)))
                         else old(headers)
      ensures httpMethod == old(httpMethod) && url == old(url) && queryParams == old(queryParams)
      ensures stringData == old(stringData) && bbData == old(bbData) && released == old(released)
      ensures HandlersKept() && OptionsKept()
    {
      if formParams.None? {
        formParams := Some([]);
        AddOrReplaceHeader(CONTENT_TYPE, FORM_URLENCODED);
      }
      formParams := Some(formParams.value + [NameValue(name, value)]);
    }

    /**
     * `addBodyData(contentType, ByteBuf)`: the buffer becomes the body, the form
     * and text bodies are dropped, and Content-Type is set. A byte body already
     * held is replaced without being released.
     */
    method AddBodyBuffer(contentType: string, data: BufId)
      modifies this
      ensures formParams == None && stringData == None && bbData == Some(data)
      ensures headers == Some(AddOrReplace(OrEmpty(old(headers)), NameValue(CONTENT_TYPE, contentType)))
      ensures released == old(released)
      ensures httpMethod == old(httpMethod) && url == old(url) && queryParams == old(queryParams)
      ensures HandlersKept() && OptionsKept()
    {
      formParams := None;
      stringData := None;
      bbData := Some(data);
      AddOrReplaceHeader(CONTENT_TYPE, contentType);
    }

    /** `addBodyData(String)`: the text becomes the body; the form is dropped and a byte body released. */
    method AddBodyText(data: string)
      modifies this
      ensures formParams == None && stringData == Some(data) && bbData == None
      ensures released == old(released) + Held(old(bbData))
      ensures headers == old(headers) && httpMethod == old(httpMethod) && url == old(url) && queryParams == old(queryParams)
      ensures HandlersKept() && OptionsKept()
    {
      formParams := None;
      stringData := Some(data);
      released := released + Held(bbData);
      bbData := None;
    }

    /** `addBodyData(contentType, String)`: the text body, then Content-Type. */
    method AddBodyTextAs(contentType: string, data: string)
      modifies this
      ensures formParams == None && stringData == Some(data) && bbData == None
      ensures released == old(released) + Held(old(bbData))
      ensures headers == Some(AddOrReplace(OrEmpty(old(headers)), NameValue(CONTENT_TYPE, contentType)))
      ensures httpMethod == old(httpMethod) && url == old(url) && queryParams == old(queryParams)
      ensures HandlersKept() && OptionsKept()
    {
      AddBodyText(data);
      AddOrReplaceHeader(CONTENT_TYPE, contentType);
    }
  }
}
