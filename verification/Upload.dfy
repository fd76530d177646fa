/**
 * The data-URL payload split of `getBase64` and the response handling of
 * `uploadFile`, with the network reply given as an input.
 */
module Upload {
  import opened Wrappers

  // ---------------------------------------------------------------------------
  // Splitting a string on a separator, as `String.prototype.split` does with a
  // one-character separator.

  /** The position of the first `c` in `s`. */
  function FirstIndex(s: string, c: char): (r: nat)
    requires c in s
    ensures r < |s| && s[r] == c && c !in s[..r]
  {
    if s[0] == c then 0
    else
      assert c in s[1..] by { var k :| 0 <= k < |s| && s[k] == c; assert s[1..][k - 1] == c; }
      var r := 1 + FirstIndex(s[1..], c);
      assert s[..r] == [s[0]] + s[1..][..r - 1];
      r
  }

  /** The fields joined back together with the separator between them. */
  function Join(fields: seq<string>, sep: char): string
    requires |fields| >= 1
  {
    if |fields| == 1 then fields[0]
    else fields[0] + [sep] + Join(fields[1..], sep)
  }

  /**
   * `s.split(sep)`: the maximal separator-free pieces of `s`, in order; there
   * is always at least one, possibly empty.
   */
  function Split(s: string, sep: char): (r: seq<string>)
    ensures |r| >= 1
    ensures forall i :: 0 <= i < |r| ==> sep !in r[i]
    ensures Join(r, sep) == s
    ensures |r| == 1 <==> sep !in s
    decreases |s|
  {
    if sep !in s then [s]
    else
      var i := FirstIndex(s, sep);
      var rest := Split(s[i + 1..], sep);
      var r := [s[..i]] + rest;
      assert r[1..] == rest;
      assert s == s[..i] + [sep] + s[i + 1..];
      r
  }

  /** The first separator of `head + [sep] + tail` sits right after a separator-free `head`. */
  lemma FirstIndexAfterHead(head: string, sep: char, tail: string)
    requires sep !in head
    ensures sep in head + [sep] + tail
    ensures FirstIndex(head + [sep] + tail, sep) == |head|
  {
    var s := head + [sep] + tail;
    assert s[|head|] == sep;
  }

  /** Splitting `head + [sep] + tail` splits off `head` and goes on with `tail`. */
  lemma SplitAfterHead(head: string, sep: char, tail: string)
    requires sep !in head
    ensures Split(head + [sep] + tail, sep) == [head] + Split(tail, sep)
  {
    var s := head + [sep] + tail;
    FirstIndexAfterHead(head, sep, tail);
    assert s[..|head|] == head;
    assert s[|head| + 1..] == tail;
  }

  /** Splitting a join of separator-free fields gives the fields back. */
  lemma {:induction false} SplitJoin(fields: seq<string>, sep: char)
    requires |fields| >= 1
    requires forall i :: 0 <= i < |fields| ==> sep !in fields[i]
    ensures Split(Join(fields, sep), sep) == fields
  {
    if |fields| > 1 {
      var rest := fields[1..];
      assert forall i :: 0 <= i < |rest| ==> sep !in rest[i] by {
        forall i | 0 <= i < |rest| ensures sep !in rest[i] { assert rest[i] == fields[i + 1]; }
      }
      SplitAfterHead(fields[0], sep, Join(rest, sep));
      SplitJoin(rest, sep);
      assert fields == [fields[0]] + rest;
    }
  }

  /** The first piece of a split runs up to the first separator, or to the end. */
  lemma SplitHead(s: string, sep: char)
    ensures Split(s, sep)[0] <= s
    ensures |Split(s, sep)[0]| < |s| ==> s[|Split(s, sep)[0]|] == sep
  {
    if sep in s {
      var i := FirstIndex(s, sep);
      assert Split(s, sep)[0] == s[..i];
    }
  }

  // ---------------------------------------------------------------------------
  // The base64 payload of a data URL.

  /** The data URL `FileReader.readAsDataURL` produces for base64 content. */
  function DataUrl(mime: string, payload: string): string
  {
    "data:" + mime + ";base64," + payload
  }

  /**
   * `dataUrl.split(',')[1]`: the text after the first comma up to the next
   * comma or the end; `None` (JavaScript's `undefined`) when there is no comma.
   */
  function Base64Payload(dataUrl: string): (r: Option<string>)
    ensures r.None? <==> ',' !in dataUrl
    ensures r.Some? ==> ',' !in r.value
    ensures r.Some? ==>
              var start := FirstIndex(dataUrl, ',') + 1;
              && r.value <= dataUrl[start..]
              && (start + |r.value| == |dataUrl| || dataUrl[start + |r.value|] == ',')
  {
    var fields := Split(dataUrl, ',');
    if |fields| > 1 then
      var start := FirstIndex(dataUrl, ',') + 1;
      SplitHead(dataUrl[start..], ',');
      assert fields[1] == Split(dataUrl[start..], ',')[0];
      Some(fields[1])
    else None
  }

  /** A base64 data URL yields exactly its payload, since neither part holds a comma. */
  lemma PayloadOfDataUrl(mime: string, payload: string)
    requires ',' !in mime && ',' !in payload
    ensures Base64Payload(DataUrl(mime, payload)) == Some(payload)
  {
    var url := DataUrl(mime, payload);
    var head := "data:" + mime + ";base64";
    assert url == head + [','] + payload;
    assert ',' !in head;
    SplitJoin([head, payload], ',');
  }

  // ---------------------------------------------------------------------------
  // `uploadFile`: from the request's reply to the promise's settlement.

  const StatusError := "unexpected status code"

  /**
   * The JSON body of an upload reply; only `status` and `data.link` are read.
   * `data` is the link when the body has a `data` object, `None` when it has none.
   */
  datatype ApiResponse = ApiResponse(success: bool, status: int, data: Option<string>)

  /**
   * What the cross-origin request reports: a transport error, or a load whose
   * body is the parsed JSON (`None` when the body did not parse).
   */
  datatype Reply = TransportError(error: string) | Loaded(body: Option<ApiResponse>)

  /** A call to the promise's `resolve` or `reject`. */
  datatype Settle = Resolve(link: string) | Reject(reason: string)

  /**
   * A promise takes the first of the calls made to settle it and ignores the
   * rest; with no call it stays pending (`None`).
   */
  function Settled(calls: seq<Settle>): Option<Result<string, string>>
  {
    if |calls| == 0 then None
    else match calls[0]
      case Resolve(link) => Some(Success(link))
      case Reject(reason) => Some(Failure(reason))
  }

  /** Once a promise has settled, later calls to `resolve` or `reject` change nothing. */
  lemma LaterCallsIgnored(calls: seq<Settle>, more: seq<Settle>)
    requires |calls| > 0
    ensures Settled(calls + more) == Settled(calls)
  {
    assert (calls + more)[0] == calls[0];
  }

  /**
   * The calls the `onload` callback makes: `reject` when the status is not
   * 200, then `resolve` with the link. An unparsed body makes the callback
   * throw on reading `status`, before either call; a body without `data`
   * makes it throw on reading `data.link`, after the `reject` but before the
   * `resolve`.
   */
  function OnLoadCalls(body: Option<ApiResponse>): seq<Settle>
  {
    match body
    case None => []
    case Some(response) =>
      (if response.status != 200 then [Reject(StatusError)] else [])
      + (if response.data.Some? then [Resolve(response.data.value)] else [])
  }

  /** True when the callback throws before settling: the body did not parse, or it has status 200 and no `data`. */
  predicate NeverSettles(reply: Reply)
  {
    reply.Loaded?
    && (reply.body.None? || (reply.body.value.status == 200 && reply.body.value.data.None?))
  }

  /** How the promise `uploadFile` returns settles for a given reply; `None` when it never does. */
  function UploadFile(reply: Reply): (r: Option<Result<string, string>>)
    ensures r.None? <==> NeverSettles(reply)
    ensures reply.TransportError? ==> r == Some(Failure(reply.error))
    ensures reply.Loaded? && reply.body.Some? && reply.body.value.status != 200 ==>
              r == Some(Failure(StatusError))
    ensures reply.Loaded? && reply.body.Some? && reply.body.value.status == 200
            && reply.body.value.data.Some? ==>
              r == Some(Success(reply.body.value.data.value))
  {
    match reply
    case TransportError(error) => Settled([Reject(error)])
    case Loaded(body) => Settled(OnLoadCalls(body))
  }

  /** The upload yields a link exactly when a body parsed with status 200, and then it is that body's link. */
  lemma UploadSucceedsIff(reply: Reply, link: string)
    ensures UploadFile(reply) == Some(Success(link))
            <==> reply.Loaded? && reply.body.Some? && reply.body.value.status == 200
                 && reply.body.value.data == Some(link)
  {
  }

  /** The body's `success` flag plays no part in the outcome. */
  lemma SuccessFlagIgnored(status: int, data: Option<string>)
    ensures UploadFile(Loaded(Some(ApiResponse(true, status, data))))
            == UploadFile(Loaded(Some(ApiResponse(false, status, data))))
  {
  }
}
