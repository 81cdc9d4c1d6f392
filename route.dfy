/** The two endpoints. POST /upload takes the token from the x-upload-token header or, failing
    that, from the body's token field; it checks for a file first, then that the token is a
    non-empty string, then hands both to the storage adapter and turns a thrown error into a
    401. POST /generate-invoice runs the invoice pipeline and turns any error it throws into a
    500. */
module UploadRoute {
  import opened Wrappers
  import Js
  import opened Http
  import opened Uploader
  import Generator
  import InvoiceLayout

  const NO_FILE_MESSAGE: string := "No file uploaded"
  const BAD_TOKEN_MESSAGE: string := "Missing or invalid token"

  /** `req.headers['x-upload-token'] || req.body.token`. */
  function EffectiveToken(header: Js.Value, bodyToken: Js.Value): (token: Js.Value)
    ensures token == header || token == bodyToken
    ensures Js.Truthy(token) <==> Js.Truthy(header) || Js.Truthy(bodyToken)
    ensures !Js.Truthy(header) ==> token == bodyToken
  {
    Js.Or(header, bodyToken)
  }

  /** The token passes `!token || typeof token !== 'string'` untouched. */
  predicate TokenUsable(token: Js.Value)
    ensures TokenUsable(token) <==> token.Str? && token.s != ""
  {
    Js.NonEmptyStringTest(token);
    Js.Truthy(token) && Js.TypeOf(token) == "string"
  }

  /** What the upload handler decides before it calls the adapter. */
  datatype Gate = NoFile | BadToken | Proceed(token: string)

  function CheckUpload(hasFile: bool, header: Js.Value, bodyToken: Js.Value): (g: Gate)
    ensures g == NoFile <==> !hasFile
    ensures g == BadToken <==> hasFile && !TokenUsable(EffectiveToken(header, bodyToken))
    ensures g.Proceed? <==> hasFile && EffectiveToken(header, bodyToken).Str? && EffectiveToken(header, bodyToken).s != ""
    ensures g.Proceed? ==> EffectiveToken(header, bodyToken) == Js.Str(g.token)
  {
    Js.NonEmptyStringTest(EffectiveToken(header, bodyToken));
    var token := EffectiveToken(header, bodyToken);
    if !hasFile then NoFile
    else if !Js.Truthy(token) || Js.TypeOf(token) != "string" then BadToken
    else Proceed(token.s)
  }

  /** The response for a request the handler turns away before the adapter is called. */
  function RejectReply(g: Gate): (resp: Response)
    requires !g.Proceed?
    ensures resp.status == BAD_REQUEST <==> g.NoFile?
    ensures resp.status == UNAUTHORIZED <==> g.BadToken?
    ensures resp.body == ErrorBody(if g.NoFile? then NO_FILE_MESSAGE else BAD_TOKEN_MESSAGE)
  {
    if g.NoFile? then Response(BAD_REQUEST, ErrorBody(NO_FILE_MESSAGE))
    else Response(UNAUTHORIZED, ErrorBody(BAD_TOKEN_MESSAGE))
  }

  /** The response once the adapter has run: its result with `success: true`, or a 401 carrying
      the thrown error's message. */
  function UploadReply(outcome: Result<UploadResult, string>): (resp: Response)
    ensures resp.status == OK <==> outcome.Success?
    ensures outcome.Success? ==> resp.body == UploadedBody(outcome.value)
    ensures outcome.Failure? ==> resp == Response(UNAUTHORIZED, ErrorBody(outcome.error))
  {
    match outcome
    case Success(result) => Response(OK, UploadedBody(result))
    case Failure(message) => Response(UNAUTHORIZED, ErrorBody(message))
  }

  /** The upload handler's decision as a whole, given what the adapter would return. */
  function UploadResponse(hasFile: bool, header: Js.Value, bodyToken: Js.Value, outcome: Result<UploadResult, string>): (resp: Response)
    ensures resp.status == BAD_REQUEST <==> !hasFile
    ensures resp.status == UNAUTHORIZED <==> hasFile && (!TokenUsable(EffectiveToken(header, bodyToken)) || outcome.Failure?)
    ensures resp.status == OK <==> hasFile && TokenUsable(EffectiveToken(header, bodyToken)) && outcome.Success?
    ensures resp.status == OK ==> resp.body == UploadedBody(outcome.value)
  {
    var g := CheckUpload(hasFile, header, bodyToken);
    if !g.Proceed? then RejectReply(g) else UploadReply(outcome)
  }

  /** A request turned away before the adapter is called gets the same response whatever the
      adapter would have done. */
  lemma RejectedIgnoresOutcome(hasFile: bool, header: Js.Value, bodyToken: Js.Value,
                               o1: Result<UploadResult, string>, o2: Result<UploadResult, string>)
    requires !hasFile || !TokenUsable(EffectiveToken(header, bodyToken))
    ensures UploadResponse(hasFile, header, bodyToken, o1) == UploadResponse(hasFile, header, bodyToken, o2)
  {
  }

  /** The missing file is reported whatever the token: the file check comes first. */
  lemma FileCheckedFirst(header: Js.Value, bodyToken: Js.Value)
    ensures RejectReply(CheckUpload(false, header, bodyToken)).status == BAD_REQUEST
  {
  }

  /** A non-empty header wins over the body's token: the upload proceeds with the header's token
      whatever the body carries. */
  lemma HeaderTakesPrecedence(header: Js.Value, bodyToken: Js.Value)
    requires Js.Truthy(header)
    ensures EffectiveToken(header, bodyToken) == header
    ensures header.Str? ==> CheckUpload(true, header, bodyToken) == Proceed(header.s)
  {
  }

  /** An absent or empty header falls back to the body's token. */
  lemma EmptyHeaderFallsBack(header: Js.Value, bodyToken: Js.Value)
    requires header == Js.Undefined || header == Js.Str("")
    ensures CheckUpload(true, header, bodyToken) ==
              (if bodyToken.Str? && bodyToken.s != "" then Proceed(bodyToken.s) else BadToken)
  {
  }

  /** While UPLOAD_TOKEN is unset, every upload that reaches the adapter is refused with a 401:
      the handler only ever passes a string. */
  lemma UnsetSecretLocksUploads(c: Config, header: Js.Value, bodyToken: Js.Value)
    requires c.uploadToken.None?
    requires CheckUpload(true, header, bodyToken).Proceed?
    ensures !TokenAccepted(Some(CheckUpload(true, header, bodyToken).token), c.uploadToken)
    ensures UploadReply(Failure(INVALID_TOKEN_MESSAGE)).status == UNAUTHORIZED
  {
    UnsetSecretRejectsEveryString(c, CheckUpload(true, header, bodyToken).token);
  }

  /** POST /upload. `file` is what multer parsed from the multipart field "file". */
  method HandleUpload(store: LocalStore, file: Option<File>, header: Js.Value, bodyToken: Js.Value, now: nat)
    returns (resp: Response)
    requires store.Valid()
    modifies store`files
    ensures store.Valid()
    ensures var g := CheckUpload(file.Some?, header, bodyToken);
      && (!g.Proceed? ==> resp == RejectReply(g) && store.files == old(store.files))
      && (g.Proceed? && !TokenAccepted(Some(g.token), store.config.uploadToken) ==>
            resp == Response(UNAUTHORIZED, ErrorBody(INVALID_TOKEN_MESSAGE)) && store.files == old(store.files))
      && (g.Proceed? && TokenAccepted(Some(g.token), store.config.uploadToken) && !store.dirExists ==>
            && resp == Response(UNAUTHORIZED, ErrorBody(MissingDirectoryMessage(
                 FilePath(store.config.uploadDir, ObjectName(now, file.value.originalname)))))
            && store.files == old(store.files))
      && (g.Proceed? && TokenAccepted(Some(g.token), store.config.uploadToken) && store.dirExists ==>
            var key := ObjectName(now, file.value.originalname);
            && resp == Response(OK, UploadedBody(
                 UploadResult(FileUrl(store.config.serverUrl, key), key, FilePath(store.config.uploadDir, key))))
            && store.files == old(store.files)[key := file.value.buffer])
  {
    var g := CheckUpload(file.Some?, header, bodyToken);
    if !g.Proceed? {
      return RejectReply(g);
    }
    var r := store.UploadToMinio(file.value, Some(g.token), now);
    resp := UploadResponse(file.Some?, header, bodyToken, r);
  }

  /** The /generate-invoice wrapper: the pipeline's response, or a 500 carrying the message of the
      error it threw. */
  function GenerateInvoiceReply(outcome: Result<Response, string>): (resp: Response)
    ensures resp.status == INTERNAL_ERROR <==> outcome.Failure? || outcome.value.status == INTERNAL_ERROR
    ensures resp.status == OK <==> outcome.Success? && outcome.value.status == OK
    ensures outcome.Success? ==> resp == outcome.value
    ensures outcome.Failure? ==> resp.body == ErrorBody(outcome.error)
  {
    match outcome
    case Success(r) => r
    case Failure(message) => Response(INTERNAL_ERROR, ErrorBody(message))
  }

  /** The pipeline's own 400 passes through; an upload refused inside the pipeline becomes a 500,
      not the 401 that the /upload endpoint sends for the same refusal. */
  lemma PipelineErrorsBecomeServerErrors(message: string)
    ensures GenerateInvoiceReply(Success(Response(BAD_REQUEST, ErrorBody(Generator.MISSING_DATA_MESSAGE)))).status == BAD_REQUEST
    ensures GenerateInvoiceReply(Failure(message)).status == INTERNAL_ERROR
    ensures UploadReply(Failure(message)).status == UNAUTHORIZED
  {
  }

  /** POST /generate-invoice. */
  method HandleGenerateInvoice(store: LocalStore, data: Generator.InvoiceData,
                               render: (Generator.InvoiceData, seq<InvoiceLayout.Placement>) -> Bytes,
                               envUploadToken: Option<string>, now: nat)
    returns (resp: Response)
    requires store.Valid()
    modifies store`files
    ensures store.Valid()
    ensures !Generator.HasRequiredData(data) ==>
              resp == Response(BAD_REQUEST, ErrorBody(Generator.MISSING_DATA_MESSAGE)) && store.files == old(store.files)
    ensures Generator.HasRequiredData(data) && Generator.DrawFault(data).Some? ==>
              && resp == Response(INTERNAL_ERROR, ErrorBody(Generator.UndefinedReadMessage(Generator.DrawFault(data).value)))
              && store.files == old(store.files)
    ensures Generator.HasRequiredData(data) && Generator.DrawFault(data).None? && !TokenAccepted(envUploadToken, store.config.uploadToken) ==>
              resp == Response(INTERNAL_ERROR, ErrorBody(INVALID_TOKEN_MESSAGE)) && store.files == old(store.files)
    ensures Generator.HasRequiredData(data) && Generator.DrawFault(data).None? && TokenAccepted(envUploadToken, store.config.uploadToken) && !store.dirExists ==>
              && resp == Response(INTERNAL_ERROR, ErrorBody(MissingDirectoryMessage(FilePath(store.config.uploadDir,
                   ObjectName(now, Generator.InvoiceFileName(data.invoiceNumber.value))))))
              && store.files == old(store.files)
    ensures Generator.HasRequiredData(data) && Generator.DrawFault(data).None? && TokenAccepted(envUploadToken, store.config.uploadToken) && store.dirExists ==>
              var key := ObjectName(now, Generator.InvoiceFileName(data.invoiceNumber.value));
              && resp == Response(OK, StoredBody(
                   UploadResult(FileUrl(store.config.serverUrl, key), key, FilePath(store.config.uploadDir, key))))
              && exists doc :: InvoiceLayout.IsInvoiceLayout(InvoiceLayout.A4_HEIGHT, data.items.value, doc)
                               && store.files == old(store.files)[key := render(data, doc)]
  {
    var outcome, doc := Generator.GenerateInvoice(store, data, render, envUploadToken, now);
    resp := GenerateInvoiceReply(outcome);
  }
}
