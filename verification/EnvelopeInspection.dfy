/**
  Classifying a request by peeking at its body, and handing the body back unread.
*/
module EnvelopeInspection {
  import opened Common
  import opened GatewayAdmission

  type Byte = b: int | 0 <= b < 256

  /** How an upload ends: normally, or with an error that is reported once. */
  datatype End = Eof | Failure(error: string)

  /** Everything a reader of a body will see. */
  datatype Stream = Stream(bytes: seq<Byte>, end: End)

  const MAX_CATALOG_ENVELOPE := 4096
  const MAX_DASHBOARD_ENVELOPE := 36864

  /** The upload as the server hands it over. It arrives in chunks of any size; the last chunk
      may come together with the end; an error is lost to whoever reads again after it. */
  class Upload {
    var pending: seq<Byte>
    var end: End

    constructor (stream: Stream)
      ensures Remaining() == stream
    {
      pending, end := stream.bytes, stream.end;
    }

    function Remaining(): Stream
      reads this
    {
      Stream(pending, end)
    }

    method Read(max: nat) returns (chunk: seq<Byte>, ended: Option<End>)
      requires max > 0
      modifies this
      ensures |chunk| <= max && old(pending) == chunk + pending
      ensures ended.None? ==> chunk != [] && end == old(end)
      ensures ended.Some? ==> pending == [] && ended.value == old(end) && end == Eof
    {
      var n: nat := 0;
      if pending != [] {
        var available := if |pending| < max then |pending| else max;
        n :| 0 < n <= available;
      }
      chunk, pending := pending[..n], pending[n..];
      ended := None;
      var early: bool := *;
      if pending == [] && (early || n == 0) {
        ended, end := Some(end), Eof;
      }
    }
  }

  /** `io.ReadAll(io.LimitReader(upload, limit))`: reads up to `limit` bytes, or fewer when the
      upload ends; reports an error it met, but not the end of file. */
  method ReadAllLimited(upload: Upload, limit: nat) returns (prefix: seq<Byte>, failed: Option<string>)
    modifies upload
    ensures |prefix| <= limit
    ensures failed.Some? ==> old(upload.Remaining()) == Stream(prefix, Failure(failed.value))
    ensures failed.None? && |prefix| < limit ==> old(upload.Remaining()) == Stream(prefix, Eof)
    ensures failed.None? ==> old(upload.Remaining()) == Stream(prefix + upload.pending, upload.end)
  {
    prefix, failed := [], None;
    while |prefix| < limit
      invariant |prefix| <= limit
      invariant old(upload.pending) == prefix + upload.pending && upload.end == old(upload.end)
      decreases limit - |prefix|
    {
      ghost var before := upload.pending;
      var chunk, ended := upload.Read(limit - |prefix|);
      assert prefix + before == (prefix + chunk) + upload.pending;
      prefix := prefix + chunk;
      if ended.Some? {
        assert prefix == old(upload.pending);
        if ended.value.Failure? {
          failed := Some(ended.value.error);
        }
        return;
      }
    }
  }

  /** The body that replaces the upload: the bytes already read, then either the rest of the
      upload or the error that was met. */
  class RestoredBody {
    var unread: seq<Byte>
    const upload: Upload
    const failed: Option<string>

    constructor (prefix: seq<Byte>, upload: Upload, failed: Option<string>)
      ensures unread == prefix && this.upload == upload && this.failed == failed
    {
      unread, this.upload, this.failed := prefix, upload, failed;
    }

    function Remaining(): Stream
      reads this, upload
    {
      if failed.Some? then Stream(unread, Failure(failed.value))
      else Stream(unread + upload.pending, upload.end)
    }

    method Read(max: nat) returns (chunk: seq<Byte>, ended: Option<End>)
      requires max > 0
      modifies this, upload
      ensures |chunk| <= max
      ensures old(Remaining()).bytes == chunk + Remaining().bytes
      ensures ended.None? ==> chunk != [] && Remaining().end == old(Remaining()).end
      ensures ended.Some? ==> Remaining().bytes == [] && ended.value == old(Remaining()).end
    {
      if unread != [] {
        var available := if |unread| < max then |unread| else max;
        var n: nat :| 0 < n <= available;
        assert unread == unread[..n] + unread[n..];
        chunk, unread, ended := unread[..n], unread[n..], None;
        assert old(Remaining()).bytes == chunk + Remaining().bytes;
      } else if failed.Some? {
        chunk, ended := [], Some(Failure(failed.value));
      } else {
        chunk, ended := upload.Read(max);
      }
    }
  }

  /** Whoever reads the restored body to its end gets its whole stream. */
  method Drain(body: RestoredBody) returns (bytes: seq<Byte>, end: End)
    modifies body, body.upload
    ensures Stream(bytes, end) == old(body.Remaining())
  {
    bytes := [];
    var ended: Option<End> := None;
    while ended.None?
      invariant old(body.Remaining()).bytes == bytes + body.Remaining().bytes
      invariant ended.None? ==> body.Remaining().end == old(body.Remaining()).end
      invariant ended.Some? ==> body.Remaining().bytes == [] && ended.value == old(body.Remaining()).end
      decreases |body.Remaining().bytes|, ended.None?
    {
      ghost var before := body.Remaining().bytes;
      var chunk: seq<Byte>;
      chunk, ended := body.Read(512);
      assert bytes + before == (bytes + chunk) + body.Remaining().bytes;
      bytes := bytes + chunk;
    }
    return bytes, ended.value;
  }

  /** Reads the envelope and restores the body: what is left to read is exactly what the
      upload would have delivered, and the envelope is complete exactly when the upload ended
      normally within the limit. */
  method ReadEnvelope(upload: Upload, limit: nat) returns (prefix: seq<Byte>, ok: bool, body: RestoredBody)
    modifies upload
    ensures fresh(body) && body.upload == upload
    ensures body.Remaining() == old(upload.Remaining())
    ensures ok <==> old(upload.end).Eof? && |old(upload.pending)| <= limit
    ensures ok ==> prefix == old(upload.pending)
  {
    var failed: Option<string>;
    prefix, failed := ReadAllLimited(upload, limit + 1);
    body := new RestoredBody(prefix, upload, failed);
    ok := failed.None? && |prefix| <= limit;
  }

  // ---------------------------------------------------------------- envelopes

  type Raw = seq<Byte>

  /** The JSON decoder: an object as its members, a member as text; `None` is an error. */
  datatype Json = Json(members: Raw -> Option<map<string, Raw>>, text: Raw -> Option<string>)

  /** A missing member decodes like an empty message: with an error. */
  function Text(json: Json, members: map<string, Raw>, key: string): Option<string> {
    if key in members then json.text(members[key]) else None
  }

  function Params(json: Json, members: map<string, Raw>): Option<map<string, Raw>> {
    if "params" in members then json.members(members["params"]) else None
  }

  predicate CallsTool(json: Json, members: map<string, Raw>, tool: string) {
    var params := Params(json, members);
    params.Some? && Text(json, params.value, "name") == Some(tool)
  }

  predicate IsCatalogEnvelope(json: Json, body: Raw) {
    var envelope := json.members(body);
    if envelope.None? then false
    else
      var members := envelope.value;
      var rpc := Text(json, members, "method");
      if Text(json, members, "jsonrpc") != Some("2.0") || rpc.None? then false
      else if rpc.value in {"initialize", "server/discover", "notifications/initialized", "tools/list"} then true
      else rpc.value == "tools/call" && CallsTool(json, members, "list_observability_providers")
  }

  predicate IsDashboardEnvelope(json: Json, body: Raw) {
    var envelope := json.members(body);
    && envelope.Some?
    && Text(json, envelope.value, "jsonrpc") == Some("2.0")
    && Text(json, envelope.value, "method") == Some("tools/call")
    && CallsTool(json, envelope.value, "query_dashboard")
  }

  /** What makes a catalog envelope, over the decoded members. */
  lemma CatalogEnvelopeIff(json: Json, body: Raw)
    ensures IsCatalogEnvelope(json, body) <==>
      && json.members(body).Some?
      && var members := json.members(body).value;
      && "jsonrpc" in members && json.text(members["jsonrpc"]) == Some("2.0")
      && "method" in members
      && (|| json.text(members["method"]) == Some("initialize")
          || json.text(members["method"]) == Some("server/discover")
          || json.text(members["method"]) == Some("notifications/initialized")
          || json.text(members["method"]) == Some("tools/list")
          || (&& json.text(members["method"]) == Some("tools/call")
              && "params" in members && json.members(members["params"]).Some?
              && var params := json.members(members["params"]).value;
              && "name" in params && json.text(params["name"]) == Some("list_observability_providers")))
  {
  }

  lemma DashboardEnvelopeIff(json: Json, body: Raw)
    ensures IsDashboardEnvelope(json, body) <==>
      && json.members(body).Some?
      && var members := json.members(body).value;
      && "jsonrpc" in members && json.text(members["jsonrpc"]) == Some("2.0")
      && "method" in members && json.text(members["method"]) == Some("tools/call")
      && "params" in members && json.members(members["params"]).Some?
      && var params := json.members(members["params"]).value;
      && "name" in params && json.text(params["name"]) == Some("query_dashboard")
  {
  }

  /** What the classifier looks at. `declared` is the Content-Length, negative when unknown. */
  datatype Request = Request(path: string, verb: string, declared: int, stream: Option<Stream>)

  const PROVIDERS := "/observe/api/providers"
  const MCP := "/observe/mcp"

  predicate CanInspect(r: Request, limit: nat) {
    r.path == MCP && r.verb == "POST" && r.stream.Some? && r.declared <= limit
  }

  /** A body that ends normally within the limit, as `ReadEnvelope` reports it. */
  predicate Complete(stream: Stream, limit: nat) {
    stream.end.Eof? && |stream.bytes| <= limit
  }

  /** The standalone catalog check. */
  predicate IsCatalogRequest(json: Json, r: Request) {
    if r.path == PROVIDERS then r.verb == "GET"
    else
      && CanInspect(r, MAX_CATALOG_ENVELOPE)
      && Complete(r.stream.value, MAX_CATALOG_ENVELOPE)
      && IsCatalogEnvelope(json, r.stream.value.bytes)
  }

  /** The single-pass classifier, which reads once with the larger limit. */
  function ClassOf(json: Json, r: Request): RequestClass {
    if r.path == PROVIDERS && r.verb == "GET" then CatalogRequest
    else if !CanInspect(r, MAX_DASHBOARD_ENVELOPE) then WorkRequest
    else if !Complete(r.stream.value, MAX_DASHBOARD_ENVELOPE) then WorkRequest
    else if |r.stream.value.bytes| <= MAX_CATALOG_ENVELOPE && IsCatalogEnvelope(json, r.stream.value.bytes) then
      CatalogRequest
    else if IsDashboardEnvelope(json, r.stream.value.bytes) then DashboardRequest
    else WorkRequest
  }

  /** An HTTP request whose body the classifier reads and replaces. */
  class HttpRequest {
    const path: string
    const verb: string
    const contentLength: int
    const upload: Upload?
    var body: RestoredBody?

    constructor (path: string, verb: string, contentLength: int, upload: Upload?)
      ensures this.path == path && this.verb == verb && this.contentLength == contentLength
      ensures this.upload == upload && body == null
    {
      this.path, this.verb, this.contentLength, this.upload, body := path, verb, contentLength, upload, null;
    }

    ghost function AsRequest(): Request
      reads this, upload
    {
      Request(path, verb, contentLength, if upload == null then None else Some(upload.Remaining()))
    }

    /** What the next handler will read from the request. */
    ghost function Readable(): Option<Stream>
      reads this, upload, body, if body == null then {} else {body.upload}
    {
      if body != null then Some(body.Remaining())
      else if upload == null then None
      else Some(upload.Remaining())
    }

    /** The standalone check: it reads with the catalog limit. */
    method CheckCatalog(json: Json) returns (catalog: bool)
      requires body == null
      modifies this, upload
      ensures catalog <==> old(IsCatalogRequest(json, AsRequest()))
      ensures Readable() == old(Readable())
    {
      if path == PROVIDERS {
        return verb == "GET";
      }
      if !(path == MCP && verb == "POST" && upload != null && contentLength <= MAX_CATALOG_ENVELOPE) {
        return false;
      }
      var prefix, ok, restored := ReadEnvelope(upload, MAX_CATALOG_ENVELOPE);
      body := restored;
      return ok && IsCatalogEnvelope(json, prefix);
    }

    method Classify(json: Json) returns (class_: RequestClass)
      requires body == null
      modifies this, upload
      ensures class_ == old(ClassOf(json, AsRequest()))
      ensures Readable() == old(Readable())
    {
      if path == PROVIDERS && verb == "GET" {
        return CatalogRequest;
      }
      if !(path == MCP && verb == "POST" && upload != null && contentLength <= MAX_DASHBOARD_ENVELOPE) {
        return WorkRequest;
      }
      var prefix, ok, restored := ReadEnvelope(upload, MAX_DASHBOARD_ENVELOPE);
      body := restored;
      if !ok {
        return WorkRequest;
      }
      if |prefix| <= MAX_CATALOG_ENVELOPE && IsCatalogEnvelope(json, prefix) {
        return CatalogRequest;
      }
      if IsDashboardEnvelope(json, prefix) {
        return DashboardRequest;
      }
      return WorkRequest;
    }
  }

  /** The class of every request, with its paths and limits: an MCP body counts when it is posted,
      not declared longer than 36 KiB, and ends normally within that limit. */
  lemma ClassIff(json: Json, r: Request)
    ensures var inspected := r.path == "/observe/mcp" && r.verb == "POST" && r.stream.Some? && r.declared <= 36 * 1024
                             && r.stream.value.end == Eof && |r.stream.value.bytes| <= 36 * 1024;
      && (ClassOf(json, r) == CatalogRequest <==>
            || (r.path == "/observe/api/providers" && r.verb == "GET")
            || (inspected && |r.stream.value.bytes| <= 4 * 1024 && IsCatalogEnvelope(json, r.stream.value.bytes)))
      && (ClassOf(json, r) == DashboardRequest <==> inspected && IsDashboardEnvelope(json, r.stream.value.bytes))
  {
    if r.stream.Some? {
      CatalogEnvelopeIff(json, r.stream.value.bytes);
      DashboardEnvelopeIff(json, r.stream.value.bytes);
    }
  }

  // ---------------------------------------------------------------- how the two checks compare

  /** A declared length the upload keeps to: all of it when it ends normally, at most that
      much when it breaks off. */
  predicate Truthful(r: Request) {
    || r.declared < 0
    || r.stream.None?
    || (if r.stream.value.end.Eof? then |r.stream.value.bytes| == r.declared
        else |r.stream.value.bytes| <= r.declared)
  }

  /** The one way they can differ: a small catalog envelope under a declared length between
      the two limits. */
  predicate OverdeclaredCatalog(json: Json, r: Request) {
    && r.path == MCP && r.verb == "POST" && r.stream.Some?
    && MAX_CATALOG_ENVELOPE < r.declared <= MAX_DASHBOARD_ENVELOPE
    && Complete(r.stream.value, MAX_CATALOG_ENVELOPE)
    && IsCatalogEnvelope(json, r.stream.value.bytes)
  }

  /** For every request, the two checks agree exactly when the length is not overdeclared in
      that way; a declared length that is unknown or true never is. */
  lemma CatalogChecksAgree(json: Json, r: Request)
    ensures (ClassOf(json, r) == CatalogRequest <==> IsCatalogRequest(json, r)) <==> !OverdeclaredCatalog(json, r)
    ensures Truthful(r) ==> !OverdeclaredCatalog(json, r)
    ensures IsCatalogRequest(json, r) ==> ClassOf(json, r) == CatalogRequest
  {
  }

  /** Every small catalog envelope can be put into a request on which the two checks differ, by
      declaring 4097 bytes. The HTTP server ends a shorter body with an error, so the request
      has to be built by hand. */
  lemma OverdeclaredRequestDiffers(json: Json, body: Raw)
    requires |body| <= MAX_CATALOG_ENVELOPE && IsCatalogEnvelope(json, body)
    ensures var r := Request(MCP, "POST", MAX_CATALOG_ENVELOPE + 1, Some(Stream(body, Eof)));
      OverdeclaredCatalog(json, r) && ClassOf(json, r) == CatalogRequest && !IsCatalogRequest(json, r)
  {
  }

  /** The two kinds of envelope exclude each other, so the order of the classifier's tests
      does not matter: a dashboard is a complete dashboard envelope within the larger limit. */
  lemma DashboardAndCatalogDisjoint(json: Json, r: Request)
    ensures r.stream.Some? ==>
      !(IsCatalogEnvelope(json, r.stream.value.bytes) && IsDashboardEnvelope(json, r.stream.value.bytes))
    ensures ClassOf(json, r) == DashboardRequest <==>
      && CanInspect(r, MAX_DASHBOARD_ENVELOPE)
      && Complete(r.stream.value, MAX_DASHBOARD_ENVELOPE)
      && IsDashboardEnvelope(json, r.stream.value.bytes)
    ensures ClassOf(json, r) == DashboardRequest ==> !IsCatalogRequest(json, r)
  {
  }
}
