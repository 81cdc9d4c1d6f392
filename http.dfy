/** The responses the two endpoints send: a status code and a JSON body. */
module Http {
  import Uploader

  datatype Body =
    | ErrorBody(error: string)                  // { error: message }
    | UploadedBody(result: Uploader.UploadResult) // { success: true, url, objectName, filePath }
    | StoredBody(result: Uploader.UploadResult)   // { url, objectName, filePath }

  datatype Response = Response(status: nat, body: Body)

  const OK: nat := 200
  const BAD_REQUEST: nat := 400
  const UNAUTHORIZED: nat := 401
  const INTERNAL_ERROR: nat := 500
}
