/**
 * `upload` and `main`: the command-line flow from an argument vector to a
 * stored key and its download URL. The file system, the working directory,
 * the environment and the object store are fields of `Host`.
 */
module Uploader {
  import opened Results
  import opened Errors
  import opened Strings
  import opened Paths
  import opened Tokens
  import opened ContentTypes
  import opened Keys
  import opened DownloadUrls

  /** The parameters handed to the object store's upload call; the file body is not modelled. */
  datatype PutRequest = PutRequest(bucket: Option<string>, key: string, contentType: string)

  /**
   * What the uploader takes from its surroundings:
   * `resolve` resolves a path against the working directory, `fileExists` tests a
   * resolved path, `store` performs the upload and answers `None` on success or
   * the failure's cause, and the last two fields are `BUCKET_NAME` and
   * `CUSTOM_BUCKET_URL`.
   */
  datatype Host = Host(
    resolve: string -> string,
    fileExists: string -> bool,
    store: PutRequest -> Option<string>,
    bucketName: Option<string>,
    customBucketUrl: Option<string>)

  /** How one run of the command ends. `storedKey` is set when the object was stored before the failure. */
  datatype Outcome =
    | Completed(key: string, url: string)
    | Failed(error: Error, storedKey: Option<string>)

  /** The request `upload` hands to the store for an existing file at `resolved`. */
  function UploadRequest(host: Host, resolved: string, bucketPath: string, randomBytes: seq<Byte>): (request: PutRequest)
    ensures request.bucket == host.bucketName
    ensures request.contentType != "" && request.contentType == ContentTypeOf(resolved)
    ensures EndsWith(request.key, "-" + Basename(resolved))
    ensures bucketPath != "" ==> '/' in request.key
  {
    var key := BuildKey(bucketPath, GenerateRandomString(randomBytes), Basename(resolved));
    PutRequest(host.bucketName, key, ContentTypeOf(resolved))
  }

  /**
   * `upload(filePath, bucketPath = '')`: checks the resolved file exists, then
   * stores it under a fresh key with the content type of its extension. An
   * omitted bucket path is the empty one. Answers the request that was stored.
   */
  function Upload(host: Host, filePath: string, bucketPath: Option<string>, randomBytes: seq<Byte>): (r: Result<PutRequest, Error>)
    ensures var resolved := host.resolve(filePath);
            !host.fileExists(resolved) <==> r == Err(FileNotFound(filePath, resolved))
    ensures var resolved := host.resolve(filePath);
            var request := UploadRequest(host, resolved, bucketPath.GetOr(""), randomBytes);
            && (r.Ok? <==> host.fileExists(resolved) && host.store(request) == None)
            && (r.Ok? ==> r.value == request)
            && (r.Err? && host.fileExists(resolved) ==> r.error == TransferFailed(host.store(request).value))
  {
    var resolved := host.resolve(filePath);
    if !host.fileExists(resolved) then
      Err(FileNotFound(filePath, resolved))
    else
      var request := UploadRequest(host, resolved, bucketPath.GetOr(""), randomBytes);
      match host.store(request)
      case Some(cause) => Err(TransferFailed(cause))
      case None => Ok(request)
  }

  /**
   * A stored key parses back into the trimmed bucket path, the token of the
   * random bytes and the base name of the resolved file, and it ends with
   * `-` and that base name.
   */
  lemma UploadKey(host: Host, filePath: string, bucketPath: string, randomBytes: seq<Byte>)
    requires |randomBytes| == DefaultLength
    requires Upload(host, filePath, Some(bucketPath), randomBytes).Ok?
    ensures var key := Upload(host, filePath, Some(bucketPath), randomBytes).value.key;
            var fileName := Basename(host.resolve(filePath));
            && EndsWith(key, "-" + fileName)
            && ParseKey(key) == Some(KeyParts(if bucketPath == "" then None else Some(TrimSlashes(bucketPath)),
                                              GenerateRandomString(randomBytes), fileName))
  {
    ParseBuildKey(bucketPath, GenerateRandomString(randomBytes), Basename(host.resolve(filePath)));
  }

  /** `process.argv[3] || 'temp'`: a missing or empty second argument selects `temp`. */
  function CliBucketPath(argv: seq<string>): (bucketPath: string)
    ensures bucketPath != ""
    ensures |argv| > 3 && argv[3] != "" ==> bucketPath == argv[3]
    ensures |argv| <= 3 || argv[3] == "" ==> bucketPath == "temp"
  {
    if |argv| > 3 && argv[3] != "" then argv[3] else "temp"
  }

  /**
   * `main`: `argv[0]` and `argv[1]` are the interpreter and the script. Uploads
   * `argv[2]` under the bucket path chosen by `CliBucketPath`, then builds the
   * download URL; a missing base URL is only noticed after the upload.
   */
  function Main(host: Host, argv: seq<string>, randomBytes: seq<Byte>): (o: Outcome)
    ensures |argv| < 3 <==> o == Failed(Usage, None)
    ensures o.Completed? ==> '/' in o.key && EndsWith(o.url, "/" + o.key)
    ensures o.Completed? ==>
              host.customBucketUrl.Some? && o.url == StripTrailingSlash(host.customBucketUrl.value) + "/" + o.key
    ensures o.Failed? && o.storedKey.Some? <==> o.Failed? && o.error == MissingBucketUrl
  {
    if |argv| < 3 then
      Failed(Usage, None)
    else
      match Upload(host, argv[2], Some(CliBucketPath(argv)), randomBytes)
      case Err(e) => Failed(e, None)
      case Ok(request) =>
        var key := request.key;
        match GenerateDownloadUrl(key, host.customBucketUrl)
        case Err(e) => Failed(e, Some(key))
        case Ok(url) => Completed(key, url)
  }

  /**
   * Every key produced through the command line parses back into the trimmed
   * bucket path, the token of the random bytes and the file's base name; with
   * no second argument the prefix is `temp`.
   */
  lemma MainKeyParts(host: Host, argv: seq<string>, randomBytes: seq<Byte>)
    requires |randomBytes| == DefaultLength
    requires Main(host, argv, randomBytes).Completed?
    ensures ParseKey(Main(host, argv, randomBytes).key)
         == Some(KeyParts(Some(TrimSlashes(CliBucketPath(argv))),
                          GenerateRandomString(randomBytes),
                          Basename(host.resolve(argv[2]))))
    ensures |argv| == 3 || argv[3] == "" ==> ParseKey(Main(host, argv, randomBytes).key).value.prefix == Some("temp")
  {
    UploadKey(host, argv[2], CliBucketPath(argv), randomBytes);
    if |argv| == 3 || argv[3] == "" {
      assert "temp" == [] + "temp" + [];
      TrimSlashesOfFramed([], "temp", []);
    }
  }

  /** A run completes exactly when there is a file argument, the upload succeeds and a base URL is configured. */
  lemma MainCompletes(host: Host, argv: seq<string>, randomBytes: seq<Byte>)
    ensures Main(host, argv, randomBytes).Completed?
        <==> && |argv| >= 3
             && Upload(host, argv[2], Some(CliBucketPath(argv)), randomBytes).Ok?
             && host.customBucketUrl != None && host.customBucketUrl != Some("")
  {
  }

  /**
   * Without `CUSTOM_BUCKET_URL` the run fails, but only after the object has
   * been stored: the failure still reports the stored key.
   */
  lemma MissingUrlAfterStore(host: Host, argv: seq<string>, randomBytes: seq<Byte>)
    requires |argv| >= 3
    requires host.customBucketUrl == None || host.customBucketUrl == Some("")
    requires Upload(host, argv[2], Some(CliBucketPath(argv)), randomBytes).Ok?
    ensures Main(host, argv, randomBytes)
         == Failed(MissingBucketUrl, Some(Upload(host, argv[2], Some(CliBucketPath(argv)), randomBytes).value.key))
  {
  }

  /**
   * A completed run with an explicit, already trimmed bucket path (further
   * arguments are ignored): the key is `prefix/token-name` for the resolved file's
   * base name, and the URL is the base URL less one trailing slash, `/` and the key.
   */
  lemma MainWithPrefix(host: Host, argv: seq<string>, randomBytes: seq<Byte>, resolved: string, baseUrl: string)
    requires |argv| >= 4 && argv[3] != "" && Unpadded(argv[3])
    requires host.resolve(argv[2]) == resolved && host.fileExists(resolved)
    requires baseUrl != "" && host.customBucketUrl == Some(baseUrl)
    requires host.store(UploadRequest(host, resolved, argv[3], randomBytes)) == None
    ensures var key := argv[3] + "/" + KeyName(GenerateRandomString(randomBytes), Basename(resolved));
            Main(host, argv, randomBytes) == Completed(key, StripTrailingSlash(baseUrl) + "/" + key)
  {
    var prefix, token := argv[3], GenerateRandomString(randomBytes);
    var request := UploadRequest(host, resolved, prefix, randomBytes);
    assert request.key == prefix + "/" + KeyName(token, Basename(resolved)) by {
      BuildKeyOfTrimmed(prefix, token, Basename(resolved));
    }
    assert Upload(host, argv[2], Some(CliBucketPath(argv)), randomBytes) == Ok(request) by {
      assert CliBucketPath(argv) == prefix;
    }
    MainOfUpload(host, argv, randomBytes, request, baseUrl);
  }

  /**
   * A successful upload completes the run: the URL is the base URL less one
   * trailing slash, `/` and the stored key.
   */
  lemma MainOfUpload(host: Host, argv: seq<string>, randomBytes: seq<Byte>, request: PutRequest, baseUrl: string)
    requires |argv| >= 3
    requires Upload(host, argv[2], Some(CliBucketPath(argv)), randomBytes) == Ok(request)
    requires baseUrl != "" && host.customBucketUrl == Some(baseUrl)
    ensures Main(host, argv, randomBytes) == Completed(request.key, StripTrailingSlash(baseUrl) + "/" + request.key)
  {
  }

  /**
   * The object stored for a file `stem + ext` is sent with the table's type for
   * `ext`, in any letter case.
   */
  lemma UploadContentType(host: Host, filePath: string, bucketPath: Option<string>, randomBytes: seq<Byte>,
                          dir: string, stem: string, ext: string)
    requires host.resolve(filePath) == dir + "/" + (stem + ext)
    requires stem != [] && '/' !in stem && '/' !in ext
    requires |ext| > 0 && ext[0] == '.' && '.' !in ext[1..]
    requires stem + ext != ".."
    requires ToLower(ext) in Table
    requires Upload(host, filePath, bucketPath, randomBytes).Ok?
    ensures Upload(host, filePath, bucketPath, randomBytes).value.contentType == Table[ToLower(ext)]
  {
    ContentTypeOfName(dir, stem, ext);
  }

  /** The literal facts the scenario below relies on, proved apart from its large context. */
  lemma ScenarioLiterals()
    ensures Unpadded("docs") && "docs" != "" && '/' !in "note.txt" && "note.txt" != []
  {
  }

  /** `upload('note.txt', 'docs')` sends `docs/<token>-note.txt` as `text/plain`. */
  lemma NoteTxtUpload(host: Host, cwd: string, randomBytes: seq<Byte>)
    requires host.resolve("note.txt") == cwd + "/" + "note.txt"
    requires host.fileExists(cwd + "/" + "note.txt")
    requires host.store(PutRequest(host.bucketName, "docs" + "/" + KeyName(GenerateRandomString(randomBytes), "note.txt"), "text/plain")) == None
    ensures Upload(host, "note.txt", Some("docs"), randomBytes)
         == Ok(PutRequest(host.bucketName, "docs" + "/" + KeyName(GenerateRandomString(randomBytes), "note.txt"), "text/plain"))
  {
    var resolved := cwd + "/" + "note.txt";
    var request := UploadRequest(host, resolved, "docs", randomBytes);
    assert request.contentType == "text/plain" by {
      TextFileType(cwd);
    }
    assert request.key == "docs" + "/" + KeyName(GenerateRandomString(randomBytes), "note.txt") by {
      ScenarioLiterals();
      BasenameOfJoin(cwd, "note.txt");
      BuildKeyOfTrimmed("docs", GenerateRandomString(randomBytes), "note.txt");
    }
  }

  /**
   * The documented scenario: `cfdrive note.txt docs` stores `docs/<token>-note.txt`
   * as `text/plain` and reports it under the base URL less one trailing slash.
   */
  lemma NoteTxtScenario(host: Host, cwd: string, baseUrl: string, randomBytes: seq<Byte>)
    requires host.resolve("note.txt") == cwd + "/" + "note.txt"
    requires host.fileExists(cwd + "/" + "note.txt")
    requires baseUrl != "" && host.customBucketUrl == Some(baseUrl)
    requires host.store(PutRequest(host.bucketName, "docs" + "/" + KeyName(GenerateRandomString(randomBytes), "note.txt"), "text/plain")) == None
    ensures var key := "docs" + "/" + KeyName(GenerateRandomString(randomBytes), "note.txt");
            && Upload(host, "note.txt", Some("docs"), randomBytes) == Ok(PutRequest(host.bucketName, key, "text/plain"))
            && Main(host, ["node", "cfdrive", "note.txt", "docs"], randomBytes) == Completed(key, StripTrailingSlash(baseUrl) + "/" + key)
  {
    var argv := ["node", "cfdrive", "note.txt", "docs"];
    var key := "docs" + "/" + KeyName(GenerateRandomString(randomBytes), "note.txt");
    NoteTxtUpload(host, cwd, randomBytes);
    assert argv[2] == "note.txt" && CliBucketPath(argv) == "docs" by {
      ScenarioLiterals();
      assert |argv| == 4 && argv[3] == "docs";
    }
    MainOfUpload(host, argv, randomBytes, PutRequest(host.bucketName, key, "text/plain"), baseUrl);
  }
}
