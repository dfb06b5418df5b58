/** `getContentType`: the MIME type sent with the upload, chosen by file extension. */
module ContentTypes {
  import opened Strings
  import opened Paths

  const OctetStream: string := "application/octet-stream"

  /** The fixed table, keyed by lower-case extension including its dot. */
  const Table: map<string, string> := map[
    ".jpg" := "image/jpeg",
    ".jpeg" := "image/jpeg",
    ".png" := "image/png",
    ".pdf" := "application/pdf",
    ".gif" := "image/gif",
    ".webp" := "image/webp",
    ".svg" := "image/svg+xml",
    ".txt" := "text/plain",
    ".json" := "application/json",
    ".csv" := "text/csv",
    ".zip" := "application/zip",
    ".rar" := "application/x-rar-compressed",
    ".7z" := "application/x-7z-compressed",
    ".doc" := "application/msword",
    ".docx" := "application/vnd.openxmlformats-officedocument.wordprocessingml.document",
    ".xls" := "application/vnd.ms-excel",
    ".xlsx" := "application/vnd.openxmlformats-officedocument.spreadsheetml.sheet",
    ".ppt" := "application/vnd.ms-powerpoint",
    ".pptx" := "application/vnd.openxmlformats-officedocument.presentationml.presentation"
  ]

  /**
   * The lower-cased extension looked up in `Table`. Every entry of the table is
   * a non-empty string, so the `||` fallback of `getContentType` fires exactly on a miss.
   */
  function ContentTypeOf(path: string): (t: string)
    ensures t != ""
    ensures Extname(path) == "" ==> t == OctetStream
  {
    ContentTypeForExtension(ToLower(Extname(path)))
  }

  /** The table lookup with its fallback, for an already lower-cased extension. */
  function ContentTypeForExtension(ext: string): (t: string)
    ensures t != ""
    ensures ext == "" ==> t == OctetStream
  {
    if ext in Table then Table[ext] else OctetStream
  }

  /** The answer is either a table entry or the generic binary type, and the generic type means a miss. */
  lemma ContentTypeRange(path: string)
    ensures ContentTypeOf(path) == OctetStream || ContentTypeOf(path) in Table.Values
    ensures ContentTypeOf(path) == OctetStream <==> ToLower(Extname(path)) !in Table
  {
    assert OctetStream !in Table.Values;
  }

  /** Extensions are matched without regard to case: `photo.JPG` and `photo.jpg` agree. */
  lemma ContentTypeIgnoresCase(path: string)
    ensures ContentTypeOf(ToLower(path)) == ContentTypeOf(path)
  {
    ExtnameLower(path);
    ToLowerIdempotent(Extname(path));
  }

  /** A file named `stem + ext` under any directory gets the type listed for `ext`, in any case. */
  lemma ContentTypeOfName(dir: string, stem: string, ext: string)
    requires stem != [] && '/' !in stem && '/' !in ext
    requires |ext| > 0 && ext[0] == '.' && '.' !in ext[1..]
    requires stem + ext != ".."
    requires ToLower(ext) in Table
    ensures ContentTypeOf(dir + "/" + (stem + ext)) == Table[ToLower(ext)]
  {
    ExtnameOfStem(dir, stem, ext);
  }

  /** Both JPEG spellings, and only they, give `image/jpeg`. */
  lemma JpegAliases(path: string)
    ensures ContentTypeOf(path) == "image/jpeg" <==> ToLower(Extname(path)) in {".jpg", ".jpeg"}
  {
    JpegAliasesOfExtension(ToLower(Extname(path)));
  }

  lemma JpegAliasesOfExtension(ext: string)
    ensures ContentTypeForExtension(ext) == "image/jpeg" <==> ext in {".jpg", ".jpeg"}
  {
  }

  /** A `.txt` file is sent as plain text. */
  lemma TextFileType(dir: string)
    ensures ContentTypeOf(dir + "/" + "note.txt") == "text/plain"
  {
    assert ToLower(".txt") == ".txt" by {
      ToLowerOfLower(".txt");
    }
    assert ".txt" in Table && Table[".txt"] == "text/plain";
    assert "note" + ".txt" == "note.txt";
    ContentTypeOfName(dir, "note", ".txt");
  }
}
