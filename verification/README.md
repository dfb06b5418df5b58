# cfdrive: a Dafny model of the upload key, content type and download URL

cfdrive is a small command-line tool that uploads one local file to a
Cloudflare R2 bucket through the S3 API and prints a permanent public
download URL for it. Each object is stored under a key of the form
`[bucketPath/]<token>-<fileName>`. The token is 20 lower-case hex digits
made from 10 random bytes. Distinct tokens never produce the same key; a
collision needs two equal 10-byte random draws.

This project models `index.js` as pure functions and proves properties of
them. It covers:

- the random token (`generateRandomString`);
- the content-type lookup (`getContentType`), including the two Node
  `path` functions it depends on (`basename`, `extname`);
- the key builder inside `upload`, with its slash trimming;
- the download URL (`generateDownloadUrl`);
- the command-line flow of `main`, with its default bucket path `temp`.

The outside world is handed in as values, never performed. This covers the
working directory, the file-system existence test, the object store, the
environment variables and the random bytes. It is a `Host` value plus the
random bytes given to each run.

Modules, one per concern:

| file | module | models |
|---|---|---|
| `results.dfy` | `Results`, `Errors` | the success/failure shapes and the errors a run can end with |
| `strings.dfy` | `Strings` | the slash-trimming regular expression, ASCII `toLowerCase`, last-index search |
| `paths.dfy` | `Paths` | POSIX `path.basename` and `path.extname` |
| `random_token.dfy` | `Tokens` | `randomBytes(n).toString('hex')` as a hex encoding of given bytes |
| `content_type.dfy` | `ContentTypes` | the 19-entry extension table and its fallback |
| `storage_key.dfy` | `Keys` | the key builder and a parser that inverts it |
| `download_url.dfy` | `DownloadUrls` | the base URL, less one trailing slash, joined to the key |
| `uploader.dfy` | `Uploader` | `upload` and `main` over a `Host` |

The missing-URL error is raised only by `generateDownloadUrl`, after the
object has been stored.

A bucket path made only of slashes (for example `cfdrive f.txt /`) gives a key
starting with `/`. That is what the code does (`Keys.SlashOnlyBucketPath`), so
it is modelled as written.

`Upload` answers the whole request it handed to the store. The key in that
request is the value `upload` returns in `index.js`.

## Model

| member | source | states |
|---|---|---|
| Strings.TrimSlashes | index.js:65 | the trimmed bucket path has no slash at either end and is what remains after removing a leading and a trailing run of slashes |
| Strings.TrimSlashesOfFramed | index.js:65 | whatever runs of slashes surround a middle with no slash at either end, trimming gives back exactly that middle, interior slashes included |
| Strings.TrimSlashesIdempotent | index.js:65 | trimming an already trimmed bucket path changes nothing |
| Strings.TrimSlashesEmpty | index.js:64-65 | a bucket path trims to nothing exactly when it consists of slashes only |
| Paths.Basename | index.js:60 | the file name has no `/` and is the last segment of the path once trailing slashes are ignored |
| Paths.ExtnameOfBase | index.js:27 | the extension of a base name is empty or a dot followed by no other dot, a proper suffix of the name |
| Paths.Extname | index.js:27 | the extension of a path is empty or a dot-started, slash-free suffix of its base name |
| Paths.BasenameOfJoin | index.js:60 | a slash-free name resolved under any directory keeps that name as its base name |
| Paths.ExtnameOfStem | index.js:27 | a file `stem + ext`, where `ext` is one dot and no further dot, has extension `ext` under any directory |
| Paths.ExtnameOfDotFile | index.js:27 | a dot-file such as `.env` has no extension, so it falls back to the generic type |
| Paths.ExtnameLower | index.js:27 | lower-casing a path lower-cases its extension and changes nothing else about it |
| Strings.ToLower | index.js:27 | lower-casing keeps the length and maps every character through ASCII lower-casing |
| Tokens.HexEncode | index.js:23 | the hex form has two lower-case hex digits per byte |
| Tokens.GenerateRandomString | index.js:22-24 | the token has two hex digits per random byte, is 20 lower-case hex digits for the default 10 bytes, and decodes back to those bytes |
| Tokens.HexDecodeEncode | index.js:23 | decoding the hex encoding of any bytes gives the bytes back |
| Tokens.HexEncodeDecode | index.js:23 | every string that decodes is the encoding of what it decodes to |
| Tokens.HexDecodeDefined | index.js:23 | exactly the even-length strings of lower-case hex digits are hex encodings |
| Tokens.TokenHasNoSeparator | index.js:23 | a token contains neither `/` nor `-`, so it cannot blur the key's separators |
| ContentTypes.ContentTypeOf | index.js:26-50 | the content type is never empty, and a path without an extension is `application/octet-stream` |
| ContentTypes.ContentTypeForExtension | index.js:28-49 | the lookup of a lower-cased extension is never empty, and an empty extension gets `application/octet-stream` |
| ContentTypes.ContentTypeRange | index.js:28-49 | the type is a table entry or `application/octet-stream`, and it is the latter exactly when the lower-cased extension is not in the table |
| ContentTypes.ContentTypeIgnoresCase | index.js:27 | a path and its lower-cased form get the same type |
| ContentTypes.ContentTypeOfName | index.js:27-49 | a file `stem + ext` gets the table's entry for `ext` in any letter case |
| ContentTypes.JpegAliases | index.js:29-30 | `image/jpeg` is chosen for `.jpg` and `.jpeg` and for no other extension |
| ContentTypes.TextFileType | index.js:36 | `note.txt` in any directory is sent as `text/plain` |
| Keys.KeyName | index.js:65-66 | the last key segment ends with `-` and the file name |
| Keys.BuildKey | index.js:64-66 | every key ends with `-` and the file name, and a non-empty bucket path always puts a `/` in it |
| Keys.ParseKey | index.js:60-66 | any key that parses yields a 20-digit token and a slash-free file name |
| Keys.ParseBuildKey | index.js:60-66 | a key parses back to its trimmed bucket path (none for an empty path), its token and its file name |
| Keys.BuildKeyInjective | index.js:61-66 | two keys collide only if their tokens, file names and trimmed bucket paths agree and both or neither bucket path is empty |
| Keys.BuildKeyAtRoot | index.js:66 | an empty bucket path stores the object at the root as `token-fileName` |
| Keys.BuildKeyOfTrimmed | index.js:64-65 | a bucket path with no slash at either end is used unchanged before `/` |
| Keys.SlashOnlyBucketPath | index.js:64-65 | a non-empty bucket path of slashes only still adds the separator, so the key starts with `/` |
| DownloadUrls.StripTrailingSlash | index.js:93 | exactly one trailing slash is removed when present, and nothing otherwise |
| DownloadUrls.GenerateDownloadUrl | index.js:88-95 | the URL fails exactly when the base URL is unset or empty; otherwise it ends in `/` and the key, after the base URL less at most one slash |
| DownloadUrls.DownloadUrlKey | index.js:93-94 | the key is recovered from the URL by cutting off the stripped base URL and one slash |
| DownloadUrls.DownloadUrlOfPlainBase | index.js:93-94 | a base URL without a trailing slash is used unchanged |
| DownloadUrls.TrailingSlashIrrelevant | index.js:93 | one trailing slash on the base URL makes no difference to the URL |
| DownloadUrls.DoubleSlashKeepsOne | index.js:93 | a base URL ending in `//` loses only one slash |
| DownloadUrls.DownloadUrlInjective | index.js:94 | distinct keys under one base URL get distinct URLs |
| Uploader.Upload | index.js:52-86 | a missing file fails with its given and resolved paths; otherwise the request stored has the built key and content type, and a store failure is reported with its cause |
| Uploader.UploadRequest | index.js:60-76 | the request names the configured bucket, carries the non-empty `getContentType` of the resolved path, and its key ends with `-` and the resolved file's base name, with a `/` whenever a bucket path is given |
| Uploader.UploadKey | index.js:60-66 | a stored key parses back into the trimmed bucket path, the token of the random bytes and the resolved file's base name |
| Uploader.CliBucketPath | index.js:105 | the second argument is the bucket path when present and non-empty; otherwise it is `temp` |
| Uploader.Main | index.js:97-116 | fewer than three arguments is a usage failure; a completed run's key contains `/` and its URL is the configured base URL less one trailing slash, then `/` and the key; only a missing base URL fails after the object was stored |
| Uploader.MainKeyParts | index.js:104-108 | every key made through the command line parses into the trimmed bucket path, the token and the file name; with no second argument, or an empty one, the prefix is `temp` |
| Uploader.MainCompletes | index.js:107-111 | a run completes exactly when there is a file argument, the upload succeeds and a base URL is configured |
| Uploader.MissingUrlAfterStore | index.js:107-109 | without a base URL the run fails, but only after the upload, and reports the stored key |
| Uploader.MainWithPrefix | index.js:104-109 | with an already trimmed bucket path the key is `prefix/token-name` for the resolved file's base name, and the URL is the base URL less one trailing slash, `/` and the key |
| Uploader.MainOfUpload | index.js:107-111 | once the upload succeeds and a base URL is set, the run completes with the stored key and the base URL less one trailing slash, `/` and that key |
| Uploader.NoteTxtUpload | index.js:60-76 | `upload('note.txt', 'docs')` hands the store the request with key `docs/<token>-note.txt` and content type `text/plain` |
| Uploader.UploadContentType | index.js:26-50 | an uploaded file `stem + ext` is stored with the table's type for `ext`, whatever the letter case of `ext` |
| Uploader.NoteTxtScenario | index.js:104-111 | `cfdrive note.txt docs` uploads `docs/<token>-note.txt` as `text/plain` and reports it under the base URL less one trailing slash |

## Left out

- The S3 client and its transfer (`s3.upload(...).promise()`, lines 15-20 and 79) are the outcome of `Host.store`: `None` for success, or the failure's text.
- `dotenv` and `process.env` (lines 13, 72, 89, 93) are the `bucketName` and `customBucketUrl` fields of `Host`. An unset variable is `None`.
- `path.resolve(process.cwd(), ...)` (line 54) and `fs.existsSync` (line 56) are the `resolve` and `fileExists` fields of `Host`, because both depend on the machine. Run through `bin/cli.js`, the working directory is `bin/` itself (`process.chdir(__dirname)`, bin/cli.js line 11), so a relative path is resolved against `bin/`, not the user's directory; `Host.resolve` stands for that.
- `fs.readFileSync` (line 68) and the file body are not modelled. A read error after the existence check is not modelled either.
- `crypto.randomBytes` (line 23) is a parameter: each run is given its random bytes. Only the hex encoding is modelled.
- Console output and `process.exit` (lines 80, 83, 99-101, 110-114) are not modelled. A run's result is the `Outcome` value.
- The run-directly check (lines 118-121) and `bin/cli.js`, which changes directory and calls `main`, are not part of this model.
- Paths.Basename: POSIX semantics only (`/` is the only separator). The Windows variant of Node's `path` is not modelled, although the hard-coded `D:\\Utils\\cfdrive\\.env` path (index.js line 13) shows Windows is the program's own platform; there `\` also separates segments and `basename` differs for paths that use it.
- ContentTypes.ContentTypeOf: `toLowerCase` is modelled on ASCII letters only. Full Unicode case mapping is not modelled. Every key of the table is ASCII.
- Strings.ToLower: lower-cases ASCII letters only and leaves every other character unchanged. This cannot change `getContentType`. Every table key is ASCII, and under full Unicode lower-casing a non-ASCII character turns into ASCII in two cases only. The Kelvin sign U+212A becomes `k`, and no key contains `k`. U+0130 becomes `i` followed by U+0307, and no key contains U+0307. So an extension holding a non-ASCII character misses the table in both the model and JavaScript.
- Uploader.Upload: assumes the resolved path is what `basename` and `extname` see. A file that disappears between the existence check and the read is not modelled.
