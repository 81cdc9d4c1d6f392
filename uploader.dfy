/** The local-filesystem storage adapter: configuration read from the environment, the
    upload-directory ensure step run when the module loads, the token check, object-key and URL
    derivation, and the write of the uploaded bytes. The directory is a map from object name to
    bytes plus a flag that says whether the directory exists. */
module Uploader {
  import opened Wrappers
  import Js

  newtype Byte = x: int | 0 <= x < 256
  type Bytes = seq<Byte>

  /** The in-memory file record that multer produces (and that the invoice pipeline imitates). */
  datatype File = File(
    fieldname: string,
    originalname: string,
    encoding: string,
    mimetype: string,
    size: nat,
    destination: string,
    filename: string,
    path: string,
    buffer: Bytes)

  /** What uploadToLocal returns: exactly these three fields. */
  datatype UploadResult = UploadResult(url: string, objectName: string, filePath: string)

  /** The adapter's configuration, read once from the environment. */
  datatype Config = Config(uploadDir: string, uploadToken: Option<string>, serverUrl: string)

  const DEFAULT_UPLOAD_DIR: string := "./uploads"
  const DEFAULT_SERVER_URL: string := "http://localhost:8001"
  const INVALID_TOKEN_MESSAGE: string := "Invalid upload token"
  const FILES_ROUTE: string := "/files/"

  /** The JavaScript value of an environment variable: undefined when it is unset. */
  function EnvValue(v: Option<string>): Js.Value
  {
    if v.None? then Js.Undefined else Js.Str(v.value)
  }

  /** `process.env.X || default`: an unset or empty variable falls back to the default. */
  function EnvOr(v: Option<string>, default: string): (r: string)
    ensures Js.Str(r) == Js.Or(EnvValue(v), Js.Str(default))
    ensures default != "" ==> r != ""
  {
    if v.Some? && v.value != "" then v.value else default
  }

  /** The configuration as the module computes it at load time. The token has no default:
      when UPLOAD_TOKEN is unset the configured token is undefined. */
  function LoadConfig(envUploadDir: Option<string>, envUploadToken: Option<string>, envServerUrl: Option<string>): (c: Config)
    ensures c.uploadDir != "" && c.serverUrl != ""
    ensures c.uploadToken == envUploadToken
    ensures envUploadDir.None? ==> c.uploadDir == DEFAULT_UPLOAD_DIR
    ensures envServerUrl.None? ==> c.serverUrl == DEFAULT_SERVER_URL
  {
    Config(EnvOr(envUploadDir, DEFAULT_UPLOAD_DIR), envUploadToken, EnvOr(envServerUrl, DEFAULT_SERVER_URL))
  }

  /** `token !== UPLOAD_TOKEN` is false exactly when both are the same string, or both undefined. */
  predicate TokenAccepted(token: Option<string>, configured: Option<string>)
    ensures TokenAccepted(token, configured) <==>
              (token.None? && configured.None?) || (token.Some? && configured.Some? && token.value == configured.value)
  {
    token == configured
  }

  /** A caller-supplied string token is never accepted while UPLOAD_TOKEN is unset. */
  lemma UnsetSecretRejectsEveryString(c: Config, s: string)
    requires c.uploadToken.None?
    ensures !TokenAccepted(Some(s), c.uploadToken)
  {
  }

  // ---------------------------------------------------------------------------------------
  // Object names: `Date.now() + '-' + file.originalname`

  predicate IsDigit(c: char) { '0' <= c <= '9' }

  predicate AllDigits(s: string) { forall i :: 0 <= i < |s| ==> IsDigit(s[i]) }

  function DigitChar(d: nat): (c: char)
    requires d < 10
    ensures IsDigit(c) && c as int - '0' as int == d
  {
    ('0' as int + d) as char
  }

  /** The decimal rendering of a non-negative integer, as Number.prototype.toString gives it
      for a millisecond timestamp. */
  function DecimalString(n: nat): (s: string)
    ensures |s| >= 1 && AllDigits(s)
    decreases n
  {
    if n < 10 then [DigitChar(n)] else DecimalString(n / 10) + [DigitChar(n % 10)]
  }

  /** The value of a string of decimal digits. */
  function DecimalValue(s: string): nat
    requires AllDigits(s)
  {
    if s == [] then 0 else DecimalValue(s[..|s| - 1]) * 10 + (s[|s| - 1] as int - '0' as int)
  }

  lemma {:induction false} DecimalRoundTrip(n: nat)
    ensures DecimalValue(DecimalString(n)) == n
    decreases n
  {
    if n >= 10 {
      DecimalRoundTrip(n / 10);
      var s := DecimalString(n);
      assert s[..|s| - 1] == DecimalString(n / 10);
    }
  }

  /** The object name under which an upload is stored. */
  function ObjectName(timestamp: nat, originalname: string): (k: string)
    ensures |k| == |DecimalString(timestamp)| + 1 + |originalname|
    ensures k[..|DecimalString(timestamp)|] == DecimalString(timestamp)
    ensures k[|DecimalString(timestamp)|] == '-'
    ensures k[|k| - |originalname|..] == originalname
  {
    DecimalString(timestamp) + "-" + originalname
  }

  /** The index of the first '-' in `s`, or |s| when there is none. */
  function FirstDash(s: string): (i: nat)
    ensures i <= |s|
    ensures i < |s| ==> s[i] == '-'
    ensures forall j :: 0 <= j < i ==> s[j] != '-'
  {
    if s == [] then 0 else if s[0] == '-' then 0 else 1 + FirstDash(s[1..])
  }

  /** Recovers (timestamp, original filename) from an object name: the digits before the
      first '-' and everything after it. */
  function SplitObjectName(k: string): Option<(nat, string)>
  {
    var i := FirstDash(k);
    if 0 < i < |k| && AllDigits(k[..i]) then Some((DecimalValue(k[..i]), k[i + 1..])) else None
  }

  lemma {:induction false} FirstDashAfterDigits(d: string, rest: string)
    requires AllDigits(d)
    ensures FirstDash(d + "-" + rest) == |d|
    decreases |d|
  {
    if d != [] {
      FirstDashAfterDigits(d[1..], rest);
      assert (d + "-" + rest)[1..] == d[1..] + "-" + rest;
    }
  }

  /** Splitting an object name gives back the timestamp and the original filename. */
  lemma ObjectNameRoundTrip(timestamp: nat, originalname: string)
    ensures SplitObjectName(ObjectName(timestamp, originalname)) == Some((timestamp, originalname))
  {
    var d := DecimalString(timestamp);
    var k := ObjectName(timestamp, originalname);
    FirstDashAfterDigits(d, originalname);
    assert k[..|d|] == d;
    assert k[|d| + 1..] == originalname;
    DecimalRoundTrip(timestamp);
  }

  /** Two uploads get the same object name exactly when they have the same timestamp and the
      same original filename: the only collision the key scheme admits. */
  lemma ObjectNameCollision(t1: nat, f1: string, t2: nat, f2: string)
    ensures ObjectName(t1, f1) == ObjectName(t2, f2) <==> t1 == t2 && f1 == f2
  {
    if ObjectName(t1, f1) == ObjectName(t2, f2) {
      ObjectNameRoundTrip(t1, f1);
      ObjectNameRoundTrip(t2, f2);
    }
  }

  // ---------------------------------------------------------------------------------------
  // Paths and URLs

  /** `path.join(UPLOAD_DIR, objectName)`, without path normalisation. */
  function FilePath(uploadDir: string, objectName: string): (p: string)
    ensures |p| == |uploadDir| + 1 + |objectName|
    ensures p[..|uploadDir|] == uploadDir && p[|uploadDir|] == '/'
    ensures p[|p| - |objectName|..] == objectName
  {
    uploadDir + "/" + objectName
  }

  /** The public URL of a stored object. */
  function FileUrl(serverUrl: string, objectName: string): (url: string)
    ensures |url| == |serverUrl| + |FILES_ROUTE| + |objectName|
    ensures url[..|serverUrl|] == serverUrl
    ensures url[|url| - |objectName|..] == objectName
  {
    serverUrl + FILES_ROUTE + objectName
  }

  /** The object name a URL of this server points at, if it is one of its file URLs. */
  function UrlObjectName(serverUrl: string, url: string): Option<string>
  {
    var prefix := serverUrl + FILES_ROUTE;
    if |prefix| <= |url| && url[..|prefix|] == prefix then Some(url[|prefix|..]) else None
  }

  lemma UrlRoundTrip(serverUrl: string, objectName: string)
    ensures UrlObjectName(serverUrl, FileUrl(serverUrl, objectName)) == Some(objectName)
  {
    var prefix := serverUrl + FILES_ROUTE;
    assert FileUrl(serverUrl, objectName) == prefix + objectName;
  }

  const ENOENT_PREFIX: string := "ENOENT: no such file or directory, open '"

  /** The message writeFileSync throws when the directory is missing; it names the path. */
  function MissingDirectoryMessage(filePath: string): (m: string)
    ensures |m| == |ENOENT_PREFIX| + |filePath| + 1
    ensures m[..|ENOENT_PREFIX|] == ENOENT_PREFIX && m[|ENOENT_PREFIX|..|m| - 1] == filePath
  {
    ENOENT_PREFIX + filePath + "'"
  }

  /** What one call of uploadToLocal does: its result, and the directory's files afterwards. A wrong
      token is refused first; a missing directory makes the write throw; otherwise the bytes are
      written under the object name. */
  function UploadOutcome(config: Config, dirExists: bool, files: map<string, Bytes>, file: File,
                         token: Option<string>, now: nat): (out: (Result<UploadResult, string>, map<string, Bytes>))
    ensures out.0.Success? <==> TokenAccepted(token, config.uploadToken) && dirExists
    ensures out.0.Failure? ==> out.1 == files
    ensures out.0.Success? ==>
              && SplitObjectName(out.0.value.objectName) == Some((now, file.originalname))
              && UrlObjectName(config.serverUrl, out.0.value.url) == Some(out.0.value.objectName)
              && out.0.value.objectName in out.1 && out.1[out.0.value.objectName] == file.buffer
    ensures forall k :: k in files && (out.0.Failure? || k != out.0.value.objectName) ==> k in out.1 && out.1[k] == files[k]
    ensures forall k :: k in out.1 ==> k in files || (out.0.Success? && k == out.0.value.objectName)
  {
    if !TokenAccepted(token, config.uploadToken) then (Failure(INVALID_TOKEN_MESSAGE), files)
    else
      var key := ObjectName(now, file.originalname);
      if !dirExists then (Failure(MissingDirectoryMessage(FilePath(config.uploadDir, key))), files)
      else
        ObjectNameRoundTrip(now, file.originalname);
        UrlRoundTrip(config.serverUrl, key);
        (Success(UploadResult(FileUrl(config.serverUrl, key), key, FilePath(config.uploadDir, key))),
         files[key := file.buffer])
  }

  /** The upload directory and its contents, keyed by object name. */
  class LocalStore {
    const config: Config
    var dirExists: bool
    var files: map<string, Bytes>

    /** An absent directory holds no files. */
    ghost predicate Valid()
      reads this
    {
      !dirExists ==> files == map[]
    }

    /** Loading the module: the directory as found on disk, then the ensure step. */
    constructor (config: Config, dirPresent: bool, existing: map<string, Bytes>)
      requires !dirPresent ==> existing == map[]
      ensures Valid()
      ensures this.config == config && dirExists && files == existing
    {
      this.config := config;
      dirExists := dirPresent;
      files := existing;
      new;
      var _ := EnsureUploadDir();
    }

    /** `if (!fs.existsSync(UPLOAD_DIR)) fs.mkdirSync(UPLOAD_DIR, { recursive: true })`. */
    method EnsureUploadDir() returns (created: bool)
      requires Valid()
      modifies this`dirExists
      ensures Valid()
      ensures dirExists
      ensures created == !old(dirExists)
      ensures files == old(files)
    {
      created := !dirExists;
      if created {
        dirExists := true;
      }
    }

    /** The upload directory removed from outside the server after the module has loaded. The
        ensure step runs only at load time, so every later write fails with ENOENT. */
    method RemoveUploadDir()
      modifies this`dirExists, this`files
      ensures Valid()
      ensures !dirExists && files == map[]
    {
      dirExists := false;
      files := map[];
    }

    /** uploadToLocal: check the token, derive the object name from the timestamp and the
        original filename, write the bytes, return the URL, the object name and the path. */
    method UploadToLocal(file: File, token: Option<string>, now: nat) returns (r: Result<UploadResult, string>)
      requires Valid()
      modifies this`files
      ensures Valid()
      ensures (r, files) == UploadOutcome(config, dirExists, old(files), file, token, now)
    {
      if token != config.uploadToken {
        return Failure(INVALID_TOKEN_MESSAGE);
      }
      var objectName := ObjectName(now, file.originalname);
      var filePath := FilePath(config.uploadDir, objectName);
      if !dirExists {
        return Failure(MissingDirectoryMessage(filePath));
      }
      files := files[objectName := file.buffer];
      var fullUrl := FileUrl(config.serverUrl, objectName);
      r := Success(UploadResult(fullUrl, objectName, filePath));
    }

    /** uploadToMinio is the same function object as uploadToLocal. */
    method UploadToMinio(file: File, token: Option<string>, now: nat) returns (r: Result<UploadResult, string>)
      requires Valid()
      modifies this`files
      ensures Valid()
      ensures (r, files) == UploadOutcome(config, dirExists, old(files), file, token, now)
    {
      r := UploadToLocal(file, token, now);
    }
  }

  /** Running the ensure step a second time creates nothing and changes nothing. */
  method EnsureUploadDirTwice(store: LocalStore) returns (first: bool, second: bool)
    requires store.Valid()
    modifies store`dirExists
    ensures store.Valid() && store.dirExists && store.files == old(store.files)
    ensures first == !old(store.dirExists)
    ensures !second
  {
    first := store.EnsureUploadDir();
    second := store.EnsureUploadDir();
  }

  /** Two successful uploads under the same object name: the second write wins. */
  method UploadTwiceSameKey(store: LocalStore, a: File, b: File, token: Option<string>, now: nat)
    returns (ra: Result<UploadResult, string>, rb: Result<UploadResult, string>)
    requires store.Valid() && store.dirExists
    requires TokenAccepted(token, store.config.uploadToken)
    requires a.originalname == b.originalname
    modifies store`files
    ensures ra.Success? && rb.Success? && ra.value == rb.value
    ensures store.dirExists
    ensures store.files == old(store.files)[ra.value.objectName := b.buffer]
  {
    ra := store.UploadToLocal(a, token, now);
    rb := store.UploadToLocal(b, token, now);
  }
}
