/** The storage key built inside `upload`: `prefix/token-fileName`. */
module Keys {
  import opened Results
  import opened Strings
  import opened Tokens

  /** The pieces a key is made of; `prefix` is `None` when no bucket path was given. */
  datatype KeyParts = KeyParts(prefix: Option<string>, token: string, fileName: string)

  /** The last segment of a key: the token, a hyphen and the file's base name. */
  function KeyName(token: string, fileName: string): (name: string)
    ensures EndsWith(name, "-" + fileName)
  {
    var name := token + "-" + fileName;
    assert name[|token|..] == "-" + fileName;
    name
  }

  /** A key name holds a slash only when the file name does. */
  lemma KeyNameHasNoSlash(token: string, fileName: string)
    requires IsToken(token) && '/' !in fileName
    ensures '/' !in KeyName(token, fileName)
  {
    TokenHasNoSeparator(token);
    var name := KeyName(token, fileName);
    forall i | 0 <= i < |name| ensures name[i] != '/' {
      if i < |token| { assert name[i] == token[i]; }
      else if i > |token| { assert name[i] == fileName[i - |token| - 1]; }
    }
  }

  /**
   * An empty bucket path puts the object at the bucket root; any other one is
   * trimmed of its leading and trailing slashes and joined with a single `/`,
   * even when trimming leaves nothing.
   */
  function BuildKey(bucketPath: string, token: string, fileName: string): (key: string)
    ensures EndsWith(key, "-" + fileName)
    ensures bucketPath != "" ==> '/' in key
  {
    var name := KeyName(token, fileName);
    if bucketPath != "" then
      var key := TrimSlashes(bucketPath) + "/" + name;
      assert key[|key| - |name|..] == name;
      assert key[|TrimSlashes(bucketPath)|] == '/';
      key
    else
      name
  }

  /**
   * Splits a key at its last `/` and then after the token. Fails when the part
   * after the last `/` does not start with a token and a hyphen.
   */
  function ParseKey(key: string): (parts: Option<KeyParts>)
    ensures parts.Some? ==> IsToken(parts.value.token) && '/' !in parts.value.fileName
  {
    match LastIndexOf(key, '/')
    case None => ParseName(None, key)
    case Some(i) => ParseName(Some(key[..i]), key[i + 1..])
  }

  /** Reads the token and the file name from the last segment of a key. */
  function ParseName(prefix: Option<string>, name: string): (parts: Option<KeyParts>)
    ensures parts.Some? ==> parts.value.prefix == prefix && IsToken(parts.value.token)
  {
    var n := 2 * DefaultLength;
    if |name| > n && name[n] == '-' && IsToken(name[..n]) then
      Some(KeyParts(prefix, name[..n], name[n + 1..]))
    else
      None
  }

  lemma ParseKeyName(prefix: Option<string>, token: string, fileName: string)
    requires IsToken(token)
    ensures ParseName(prefix, KeyName(token, fileName)) == Some(KeyParts(prefix, token, fileName))
  {
    var name := KeyName(token, fileName);
    assert name[..2 * DefaultLength] == token;
    assert name[2 * DefaultLength + 1..] == fileName;
  }

  /** A key names its trimmed prefix, its token and its file name unambiguously. */
  lemma ParseBuildKey(bucketPath: string, token: string, fileName: string)
    requires IsToken(token) && '/' !in fileName
    ensures ParseKey(BuildKey(bucketPath, token, fileName))
         == Some(KeyParts(if bucketPath == "" then None else Some(TrimSlashes(bucketPath)), token, fileName))
  {
    var name := KeyName(token, fileName);
    KeyNameHasNoSlash(token, fileName);
    if bucketPath != "" {
      var p := TrimSlashes(bucketPath);
      var key := p + "/" + name;
      assert key == p + ['/'] + name;
      LastIndexOfSplit(p, '/', name);
      assert key[..|p|] == p;
      assert key[|p| + 1..] == name;
      ParseKeyName(Some(p), token, fileName);
    } else {
      ParseKeyName(None, token, fileName);
    }
  }

  /** Different tokens or different file names never collide on the same key. */
  lemma BuildKeyInjective(b1: string, t1: string, f1: string, b2: string, t2: string, f2: string)
    requires IsToken(t1) && '/' !in f1
    requires IsToken(t2) && '/' !in f2
    requires BuildKey(b1, t1, f1) == BuildKey(b2, t2, f2)
    ensures t1 == t2 && f1 == f2
    ensures b1 == "" <==> b2 == ""
    ensures TrimSlashes(b1) == TrimSlashes(b2)
  {
    ParseBuildKey(b1, t1, f1);
    ParseBuildKey(b2, t2, f2);
    if b1 == "" {
      TrimSlashesEmpty(b1);
      TrimSlashesEmpty(b2);
    }
  }

  /** With no bucket path the key is the bare key name. */
  lemma BuildKeyAtRoot(token: string, fileName: string)
    ensures BuildKey("", token, fileName) == token + "-" + fileName
  {
  }

  /** A bucket path with no slash at either end is used as it is. */
  lemma BuildKeyOfTrimmed(bucketPath: string, token: string, fileName: string)
    requires bucketPath != "" && Unpadded(bucketPath)
    ensures BuildKey(bucketPath, token, fileName) == bucketPath + "/" + KeyName(token, fileName)
  {
    assert bucketPath == [] + bucketPath + [];
    TrimSlashesOfFramed([], bucketPath, []);
  }

  /** A non-empty bucket path of slashes only trims away, and the key starts with `/`. */
  lemma SlashOnlyBucketPath(bucketPath: string, token: string, fileName: string)
    requires bucketPath != "" && AllSlashes(bucketPath)
    ensures BuildKey(bucketPath, token, fileName) == "/" + KeyName(token, fileName)
  {
    TrimSlashesEmpty(bucketPath);
  }
}
