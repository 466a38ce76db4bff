/**
 * The HTTP handler of images-to-google-cloud-storage: method dispatch, the
 * fail-fast header validation of an upload, the single write to the object
 * store and the mapping of its outcome to a status code.
 *
 * The object store is a foreign collaborator: `Decide` returns the write the
 * handler would issue, and the outcome of that write is an input
 * (`writeOk`) of `Handle`, which reports the status sent and the writes
 * issued.
 */
module UploadHandler {
  import opened Wrappers
  import opened ContentDisposition

  type Byte = bv8

  const StatusOk: int := 200
  const StatusBadRequest: int := 400
  const StatusMethodNotAllowed: int := 405
  const StatusUnsupportedMediaType: int := 415
  const StatusInternalServerError: int := 500

  const ImagePrefix: string := "image/"

  /** An incoming request: headers are already looked up by name (the
      hosting runtime does the case-insensitive lookup); `body` is None
      when the runtime supplies no body `Buffer.from` can convert. */
  datatype Request = Request(
    verb: string,
    contentType: Option<string>,
    contentDisposition: Option<string>,
    body: Option<seq<Byte>>)

  /** One call of the object store's save: bucket, object key, content. */
  datatype StoreWrite = StoreWrite(bucket: string, key: string, content: seq<Byte>)

  /** What the handler does once the request is read: answer at once, or
      save an object and answer by the outcome of the save. */
  datatype Action = Respond(status: int) | Save(write: StoreWrite)

  /** The status sent and every store write issued, in order. */
  datatype Response = Response(status: int, writes: seq<StoreWrite>)

  /** JavaScript truthiness of a header value: present and not "". */
  predicate Present(h: Option<string>) {
    h.Some? && h.value != ""
  }

  /** The media-type check: present and starting, case-sensitively, with
      "image/". */
  predicate AcceptsContentType(h: Option<string>) {
    Present(h) && ImagePrefix <= h.value
  }

  /** Headers that pass every check of the upload path, naming `name` as
      the object key, stated through the regular expression's meaning. */
  ghost predicate AcceptedHeaders(req: Request, name: string) {
    && AcceptsContentType(req.contentType)
    && req.contentDisposition.Some?
    && Describes(req.contentDisposition.value, name)
    && name != ""
  }

  /** A POST whose headers pass every check. */
  ghost predicate ValidUpload(req: Request, name: string) {
    req.verb == "POST" && AcceptedHeaders(req, name)
  }

  /** `postHandler` up to the store call: the validation chain in source
      order (index.js lines 28-48). */
  function DecidePost(req: Request, bucket: string): (a: Action)
    ensures a.Save? ==> AcceptedHeaders(req, a.write.key)
    ensures a.Save? ==> a.write.bucket == bucket && req.body == Some(a.write.content)
    ensures a.Respond? ==> a.status in {StatusUnsupportedMediaType, StatusBadRequest, StatusInternalServerError}
  {
    if !AcceptsContentType(req.contentType) then
      Respond(StatusUnsupportedMediaType)
    else if !Present(req.contentDisposition) then
      Respond(StatusBadRequest)
    else
      var v := req.contentDisposition.value;
      match ParseFilename(v)
      case None => Respond(StatusBadRequest)
      case Some(name) =>
        if name == "" then
          Respond(StatusBadRequest)
        else if req.body.None? then
          // Buffer.from throws inside the try block
          Respond(StatusInternalServerError)
        else
          ParseFilenameMeaning(v, name);
          Save(StoreWrite(bucket, name, req.body.value))
  }

  /** `exports.handler`'s dispatch on the method (index.js lines 56-67),
      with `getHandler` inlined. */
  function Decide(req: Request, bucket: string): (a: Action)
    ensures a.Save? ==> ValidUpload(req, a.write.key)
    ensures a.Save? ==> a.write.bucket == bucket && req.body == Some(a.write.content)
    ensures req.verb != "POST" ==> a.Respond?
  {
    if req.verb == "GET" then Respond(StatusOk)
    else if req.verb == "POST" then DecidePost(req, bucket)
    else Respond(StatusMethodNotAllowed)
  }

  /** The status sent after the store call: 200 exactly when it succeeded,
      500 for every failure (index.js lines 47-53). */
  function Finish(writeOk: bool): (status: int)
    ensures status in {StatusOk, StatusInternalServerError}
    ensures status == StatusOk <==> writeOk
  {
    if writeOk then StatusOk else StatusInternalServerError
  }

  /** One request handled end to end; `writeOk` is the outcome of the store
      call, consulted only when one is issued. */
  function Handle(req: Request, bucket: string, writeOk: bool): (r: Response)
    ensures |r.writes| <= 1
    ensures r.status in {StatusOk, StatusBadRequest, StatusMethodNotAllowed,
                         StatusUnsupportedMediaType, StatusInternalServerError}
    ensures r.writes != [] ==> ValidUpload(req, r.writes[0].key)
    ensures r.writes != [] ==> r.writes[0].bucket == bucket && req.body == Some(r.writes[0].content)
    ensures r.status == StatusOk ==> req.verb == "GET" || (r.writes != [] && writeOk)
  {
    match Decide(req, bucket)
    case Respond(status) => Response(status, [])
    case Save(w) => Response(Finish(writeOk), [w])
  }

  /** Any method other than GET and POST: 405, nothing written. */
  lemma OtherMethodNotAllowed(req: Request, bucket: string, writeOk: bool)
    requires req.verb != "GET" && req.verb != "POST"
    ensures Handle(req, bucket, writeOk) == Response(StatusMethodNotAllowed, [])
  {
  }

  /** GET: 200 whatever the headers and body, nothing written. */
  lemma GetAlwaysOk(req: Request, bucket: string, writeOk: bool)
    requires req.verb == "GET"
    ensures Handle(req, bucket, writeOk) == Response(StatusOk, [])
  {
  }

  /** A POST without an image media type gets 415 and nothing is written,
      whatever its Content-Disposition: this check comes first. */
  lemma UnsupportedMediaType(req: Request, bucket: string, writeOk: bool)
    requires req.verb == "POST"
    requires req.contentType.None? || !(ImagePrefix <= req.contentType.value)
    ensures Handle(req, bucket, writeOk) == Response(StatusUnsupportedMediaType, [])
  {
  }

  /** A POST with an image media type and a missing or empty
      Content-Disposition gets 400, nothing written. */
  lemma MissingDisposition(req: Request, bucket: string, writeOk: bool)
    requires req.verb == "POST" && AcceptsContentType(req.contentType)
    requires req.contentDisposition.None? || req.contentDisposition.value == ""
    ensures Handle(req, bucket, writeOk) == Response(StatusBadRequest, [])
  {
  }

  /** A POST whose Content-Disposition names no non-empty filename (the
      expression does not match, or captures "") gets 400, nothing written. */
  lemma NoFilename(req: Request, bucket: string, writeOk: bool)
    requires req.verb == "POST" && AcceptsContentType(req.contentType)
    requires req.contentDisposition.Some?
    requires forall name :: Describes(req.contentDisposition.value, name) ==> name == ""
    ensures Handle(req, bucket, writeOk) == Response(StatusBadRequest, [])
  {
    var v := req.contentDisposition.value;
    match ParseFilename(v)
    case None =>
    case Some(name) =>
      ParseFilenameMeaning(v, name);
  }

  /** A request that passes every check issues exactly one write, of the
      body to the configured bucket under the filename unchanged; the
      status is 200 if the write succeeds and 500 if it fails. */
  lemma ValidUploadWritesOnce(req: Request, bucket: string, name: string, content: seq<Byte>, writeOk: bool)
    requires ValidUpload(req, name)
    requires req.body == Some(content)
    ensures Handle(req, bucket, writeOk)
         == Response(if writeOk then StatusOk else StatusInternalServerError,
                     [StoreWrite(bucket, name, content)])
  {
    ParseFilenameMeaning(req.contentDisposition.value, name);
  }

  /** A request that passes every header check but carries no convertible
      body: `Buffer.from` throws inside the try block, so 500 and nothing
      written. */
  lemma UnconvertibleBody(req: Request, bucket: string, name: string, writeOk: bool)
    requires ValidUpload(req, name)
    requires req.body.None?
    ensures Handle(req, bucket, writeOk) == Response(StatusInternalServerError, [])
  {
    ParseFilenameMeaning(req.contentDisposition.value, name);
  }

  /** The handler keeps no state and does no deduplication: the same valid
      upload handled twice issues the same write twice, whatever the first
      outcome. */
  lemma NoDeduplication(req: Request, bucket: string, name: string, content: seq<Byte>, firstOk: bool, secondOk: bool)
    requires ValidUpload(req, name)
    requires req.body == Some(content)
    ensures Handle(req, bucket, firstOk).writes + Handle(req, bucket, secondOk).writes
         == [StoreWrite(bucket, name, content), StoreWrite(bucket, name, content)]
  {
    ValidUploadWritesOnce(req, bucket, name, content, firstOk);
    ValidUploadWritesOnce(req, bucket, name, content, secondOk);
  }

  /** A well-formed PNG upload named "cat.png": one write of the exact
      body under "cat.png" to the configured bucket; 200 when the write
      succeeds, 500 when it fails. */
  lemma CatPngUpload(bucket: string, content: seq<Byte>, writeOk: bool)
    ensures
      var req := Request("POST", Some("image/png"),
                         Some("attachment; filename=\"cat.png\""), Some(content));
      Handle(req, bucket, writeOk)
        == Response(if writeOk then StatusOk else StatusInternalServerError,
                    [StoreWrite(bucket, "cat.png", content)])
  {
    var v := "attachment; filename=\"cat.png\"";
    var req := Request("POST", Some("image/png"), Some(v), Some(content));
    assert Describes(v, "cat.png") by {
      assert AllSpace(" ") && SingleLine("cat.png");
      assert v == Header(" ", "cat.png");
    }
    assert ImagePrefix <= "image/png";
    ValidUploadWritesOnce(req, bucket, "cat.png", content, writeOk);
  }
}
