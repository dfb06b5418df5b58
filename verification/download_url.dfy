/** `generateDownloadUrl`: the permanent public URL of a stored key. */
module DownloadUrls {
  import opened Results
  import opened Errors
  import opened Strings

  /** `replace(/\/$/, '')`: at most one trailing slash is removed. */
  function StripTrailingSlash(s: string): (r: string)
    ensures s == r || s == r + "/"
    ensures s == r + "/" <==> (s != [] && s[|s| - 1] == '/')
  {
    if s != [] && s[|s| - 1] == '/' then s[..|s| - 1] else s
  }

  /**
   * Fails when the configured base URL is absent or empty (both falsy in
   * JavaScript); otherwise the base URL, less one trailing slash, then `/` and the key.
   */
  function GenerateDownloadUrl(key: string, customBucketUrl: Option<string>): (r: Result<string, Error>)
    ensures r.Err? <==> customBucketUrl == None || customBucketUrl == Some("")
    ensures r.Err? ==> r.error == MissingBucketUrl
    ensures r.Ok? ==> EndsWith(r.value, "/" + key)
    ensures r.Ok? ==> var base := r.value[..|r.value| - |key| - 1];
                      customBucketUrl.value == base || customBucketUrl.value == base + "/"
  {
    match customBucketUrl
    case None => Err(MissingBucketUrl)
    case Some(base) =>
      if base == "" then Err(MissingBucketUrl)
      else
        var url := StripTrailingSlash(base) + "/" + key;
        assert url[..|url| - |key| - 1] == StripTrailingSlash(base);
        Ok(url)
  }

  /** The key is recovered from the URL by cutting off the stripped base and one slash. */
  lemma DownloadUrlKey(key: string, baseUrl: string)
    requires baseUrl != ""
    ensures var url := GenerateDownloadUrl(key, Some(baseUrl));
            url.Ok? && url.value[|StripTrailingSlash(baseUrl)| + 1..] == key
  {
  }

  /** A base URL without a trailing slash is used as it is. */
  lemma DownloadUrlOfPlainBase(key: string, baseUrl: string)
    requires baseUrl != "" && baseUrl[|baseUrl| - 1] != '/'
    ensures GenerateDownloadUrl(key, Some(baseUrl)) == Ok(baseUrl + "/" + key)
  {
  }

  /** One trailing slash on the base URL makes no difference. */
  lemma TrailingSlashIrrelevant(key: string, baseUrl: string)
    requires baseUrl != "" && baseUrl[|baseUrl| - 1] != '/'
    ensures GenerateDownloadUrl(key, Some(baseUrl + "/")) == GenerateDownloadUrl(key, Some(baseUrl))
  {
  }

  /** A base URL ending in `//` loses only one slash, so the URL has `//` before the key. */
  lemma DoubleSlashKeepsOne(key: string, baseUrl: string)
    ensures GenerateDownloadUrl(key, Some(baseUrl + "//")) == Ok(baseUrl + "//" + key)
  {
    var s := baseUrl + "//";
    assert s[..|s| - 1] == baseUrl + "/";
  }

  /** Distinct keys under one base URL get distinct URLs. */
  lemma DownloadUrlInjective(k1: string, k2: string, baseUrl: Option<string>)
    requires GenerateDownloadUrl(k1, baseUrl).Ok?
    requires GenerateDownloadUrl(k1, baseUrl) == GenerateDownloadUrl(k2, baseUrl)
    ensures k1 == k2
  {
    DownloadUrlKey(k1, baseUrl.value);
    DownloadUrlKey(k2, baseUrl.value);
  }
}
