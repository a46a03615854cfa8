/**
 * The response side of the fetch proxy (packages/shared/src/proxy-fetch.ts):
 * `assertIsResponse` checks the plain object a fetch message came back with,
 * and `responseParser` turns it into a response-like record whose
 * unsupported members throw. Sending the message (`createFetchProxy`) is
 * I/O and is not part of this model.
 */
module ProxyFetch {
  import opened Wrappers

  /** The JavaScript values a message can carry. Arrays are objects with index keys. */
  datatype JsValue =
    | Undefined
    | Null
    | Bool(b: bool)
    | Num(n: real)
    | Str(s: string)
    | Object(props: map<string, JsValue>)
    | Function

  /** The keys a response object must carry, in the order they are checked. */
  const RequiredKeys: seq<string> := ["status", "statusText", "url", "text"]

  /** `key in obj && obj[key] !== undefined`. */
  predicate Present(props: map<string, JsValue>, key: string) {
    key in props && props[key] != Undefined
  }

  /** The index of the first key of `keys` that `props` lacks. */
  function FirstMissing(props: map<string, JsValue>, keys: seq<string>): (r: Option<nat>)
    ensures r.Some? ==> (r.value < |keys| && !Present(props, keys[r.value])
      && forall j :: 0 <= j < r.value ==> Present(props, keys[j]))
    ensures r.None? <==> forall j :: 0 <= j < |keys| ==> Present(props, keys[j])
  {
    if keys == [] then None
    else if !Present(props, keys[0]) then Some(0)
    else match FirstMissing(props, keys[1..])
      case None => None
      case Some(i) => Some(i + 1)
  }

  /** What `assertIsResponse` does with `v`: nothing, or the error it throws. */
  function CheckResponse(v: JsValue): (r: Result<(), string>)
    ensures !v.Object? ==> r == Failure("Invalid response object")
    ensures v.Object? ==> (r.Success? <==> forall j :: 0 <= j < |RequiredKeys| ==> Present(v.props, RequiredKeys[j]))
    ensures v.Object? && r.Failure? ==>
      exists i :: 0 <= i < |RequiredKeys| && r == Failure("Missing key: " + RequiredKeys[i])
        && !Present(v.props, RequiredKeys[i]) && forall j :: 0 <= j < i ==> Present(v.props, RequiredKeys[j])
    ensures r.Success? ==> (v.Object? && Present(v.props, "status") && Present(v.props, "statusText")
      && Present(v.props, "url") && Present(v.props, "text"))
  {
    assert RequiredKeys[0] == "status" && RequiredKeys[1] == "statusText";
    assert RequiredKeys[2] == "url" && RequiredKeys[3] == "text";
    if !v.Object? then Failure("Invalid response object")
    else match FirstMissing(v.props, RequiredKeys)
      case None => Success(())
      case Some(i) => Failure("Missing key: " + RequiredKeys[i])
  }

  /** `assertIsResponse`: the loop over the required keys that throws at the first one missing. */
  method AssertIsResponse(v: JsValue) returns (r: Result<(), string>)
    ensures r == CheckResponse(v)
  {
    if !v.Object? {
      return Failure("Invalid response object");
    }
    for i := 0 to |RequiredKeys|
      invariant forall j :: 0 <= j < i ==> Present(v.props, RequiredKeys[j])
    {
      var key := RequiredKeys[i];
      if !(key in v.props) || v.props[key] == Undefined {
        assert FirstMissing(v.props, RequiredKeys) == Some(i);
        return Failure("Missing key: " + key);
      }
    }
    r := Success(());
  }

  /** The record `responseParser` builds; `text` is what `text()` resolves to. */
  datatype Response = Response(status: JsValue, statusText: JsValue, url: JsValue, text: JsValue, ok: bool)

  /** `obj.status >= 200 && obj.status < 300`. */
  predicate IsOk(status: JsValue) {
    status.Num? && 200.0 <= status.n < 300.0
  }

  function ResponseParser(v: JsValue): (r: Result<Response, string>)
    ensures r.Failure? <==> CheckResponse(v).Failure?
    ensures r.Failure? ==> r.error == CheckResponse(v).error
    ensures r.Success? ==> (r.value.status == v.props["status"] && r.value.statusText == v.props["statusText"]
      && r.value.url == v.props["url"] && r.value.text == v.props["text"])
  {
    var _ :- CheckResponse(v);
    var status := v.props["status"];
    Success(Response(status, v.props["statusText"], v.props["url"], v.props["text"], IsOk(status)))
  }

  /** The members of the response a caller can read or call, `json()` aside. */
  datatype Member =
    | Status | StatusText | Url | Ok | Text
    | Body | BodyUsed | Headers | Type | Redirected
    | ArrayBuffer | Blob | Bytes | Clone | FormData

  function MemberName(m: Member): string {
    match m
    case Status => "status"
    case StatusText => "statusText"
    case Url => "url"
    case Ok => "ok"
    case Text => "text"
    case Body => "body"
    case BodyUsed => "bodyUsed"
    case Headers => "headers"
    case Type => "type"
    case Redirected => "redirected"
    case ArrayBuffer => "arrayBuffer"
    case Blob => "blob"
    case Bytes => "bytes"
    case Clone => "clone"
    case FormData => "formData"
  }

  predicate Implemented(m: Member) {
    m.Status? || m.StatusText? || m.Url? || m.Ok? || m.Text?
  }

  /** `notImplemented(name)`: always throws. */
  function NotImplemented(name: string): (r: Result<JsValue, string>)
    ensures r.Failure? && name <= r.error && r.error[|name|..] == " is not implemented yet"
  {
    Failure(name + " is not implemented yet")
  }

  /** Reading a getter, or calling a method, of the response. */
  function Get(resp: Response, m: Member): (r: Result<JsValue, string>)
    ensures r.Success? <==> Implemented(m)
    ensures r.Failure? ==> r.error == MemberName(m) + " is not implemented yet"
  {
    match m
    case Status => Success(resp.status)
    case StatusText => Success(resp.statusText)
    case Url => Success(resp.url)
    case Ok => Success(Bool(resp.ok))
    case Text => Success(resp.text)
    case _ => NotImplemented(MemberName(m))
  }

  /**
   * A parsed response hands back exactly the fields it was given, `ok` holds
   * exactly for a numeric status in [200, 300), and every other member throws.
   */
  lemma ParsedResponseMembers(v: JsValue, m: Member)
    requires CheckResponse(v).Success?
    ensures var resp := ResponseParser(v).value;
      Get(resp, Status) == Success(v.props["status"]) && Get(resp, StatusText) == Success(v.props["statusText"])
      && Get(resp, Url) == Success(v.props["url"]) && Get(resp, Text) == Success(v.props["text"])
      && (Get(resp, Ok) == Success(Bool(true)) <==> v.props["status"].Num? && 200.0 <= v.props["status"].n < 300.0)
      && (!Implemented(m) ==> Get(resp, m) == Failure(MemberName(m) + " is not implemented yet"))
  {
  }

  function ResponseData(status: JsValue, statusText: JsValue, url: JsValue, text: JsValue): JsValue {
    Object(map["status" := status, "statusText" := statusText, "url" := url, "text" := text])
  }

  /** Four keys none of which is `undefined` make a response; `null` counts as present. */
  lemma ParseResponseData(status: JsValue, statusText: JsValue, url: JsValue, text: JsValue)
    requires status != Undefined && statusText != Undefined && url != Undefined && text != Undefined
    ensures ResponseParser(ResponseData(status, statusText, url, text))
      == Success(Response(status, statusText, url, text, IsOk(status)))
  {
    var props := ResponseData(status, statusText, url, text).props;
    forall j | 0 <= j < |RequiredKeys|
      ensures Present(props, RequiredKeys[j])
    {
      assert RequiredKeys[j] in {"status", "statusText", "url", "text"};
    }
  }

  /** `ok` of a parsed response is decided by its status alone. */
  lemma ResponseParserOk(status: JsValue)
    requires status != Undefined
    ensures ResponseParser(ResponseData(status, Null, Null, Null)) == Success(Response(status, Null, Null, Null, IsOk(status)))
  {
    ParseResponseData(status, Null, Null, Null);
  }

  /** `ok` switches at 200 and at 300. */
  lemma ResponseParserOkBounds()
    ensures ResponseParser(ResponseData(Num(200.0), Null, Null, Null)) == Success(Response(Num(200.0), Null, Null, Null, true))
    ensures ResponseParser(ResponseData(Num(299.0), Null, Null, Null)) == Success(Response(Num(299.0), Null, Null, Null, true))
    ensures ResponseParser(ResponseData(Num(300.0), Null, Null, Null)) == Success(Response(Num(300.0), Null, Null, Null, false))
    ensures ResponseParser(ResponseData(Num(199.0), Null, Null, Null)) == Success(Response(Num(199.0), Null, Null, Null, false))
  {
    ResponseParserOk(Num(200.0));
    ResponseParserOk(Num(299.0));
    ResponseParserOk(Num(300.0));
    ResponseParserOk(Num(199.0));
  }

  /** A key explicitly `undefined` is missing; the first missing key in check order is reported. */
  lemma ResponseParserMissingKeys()
    ensures ResponseParser(ResponseData(Num(200.0), Undefined, Null, Undefined)) == Failure("Missing key: statusText")
    ensures ResponseParser(Object(map["text" := Str("")])) == Failure("Missing key: status")
    ensures ResponseParser(Null) == Failure("Invalid response object")
  {
    MissingStatusText();
    MissingStatus();
  }

  lemma MissingStatusText()
    ensures ResponseParser(ResponseData(Num(200.0), Undefined, Null, Undefined)) == Failure("Missing key: statusText")
  {
    assert RequiredKeys[0] == "status" && RequiredKeys[1] == "statusText" && RequiredKeys[1..][0] == "statusText";
    var a := ResponseData(Num(200.0), Undefined, Null, Undefined);
    assert Present(a.props, "status") && !Present(a.props, "statusText");
    assert FirstMissing(a.props, RequiredKeys[1..]) == Some(0);
    assert FirstMissing(a.props, RequiredKeys) == Some(1);
    assert "Missing key: " + "statusText" == "Missing key: statusText";
  }

  lemma MissingStatus()
    ensures ResponseParser(Object(map["text" := Str("")])) == Failure("Missing key: status")
  {
    assert RequiredKeys[0] == "status";
    var b := Object(map["text" := Str("")]);
    assert !Present(b.props, "status");
    assert FirstMissing(b.props, RequiredKeys) == Some(0);
    assert "Missing key: " + "status" == "Missing key: status";
  }
}
