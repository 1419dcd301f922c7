/** The one endpoint helper with logic of its own: the address a generated
    file is downloaded from. */
module Endpoints {
  import opened Optional
  import opened Text
  import Http

  const DownloadPath := "/api/download/"

  /** `${baseURL}/api/download/${filename}`, with the same base-address
      fallback as the API client. */
  function GetDownloadUrl(configured: Option<string>, filename: string): (url: string)
    ensures StartsWith(url, Http.BaseUrl(configured) + DownloadPath)
    ensures EndsWith(url, filename)
    ensures |url| == |Http.BaseUrl(configured)| + |DownloadPath| + |filename|
  {
    var prefix := Http.BaseUrl(configured) + DownloadPath;
    var url := prefix + filename;
    assert url[..|prefix|] == prefix;
    assert url[|url| - |filename|..] == filename;
    url
  }

  /** The file name a download address points at, when it is one. */
  function DownloadedFile(configured: Option<string>, url: string): (filename: Option<string>)
    ensures filename.Some? ==> GetDownloadUrl(configured, filename.value) == url
  {
    var prefix := Http.BaseUrl(configured) + DownloadPath;
    if StartsWith(url, prefix) then
      var name := url[|prefix|..];
      assert prefix + name == url;
      Some(name)
    else
      None
  }

  /** Building an address and reading it back gives the file name. */
  lemma DownloadUrlRoundTrip(configured: Option<string>, filename: string)
    ensures DownloadedFile(configured, GetDownloadUrl(configured, filename)) == Some(filename)
  {
    var prefix := Http.BaseUrl(configured) + DownloadPath;
    assert (prefix + filename)[|prefix|..] == filename;
  }

  /** Different files get different addresses. */
  lemma DownloadUrlInjective(configured: Option<string>, f: string, g: string)
    ensures GetDownloadUrl(configured, f) == GetDownloadUrl(configured, g) <==> f == g
  {
    DownloadUrlRoundTrip(configured, f);
    DownloadUrlRoundTrip(configured, g);
  }

  /** The last path segment of a download address is the file name, whatever
      the base address looks like, provided the name itself has no `/`. */
  lemma LastSegmentIsFile(configured: Option<string>, filename: string)
    requires '/' !in filename
    ensures LastPiece(GetDownloadUrl(configured, filename), '/') == filename
  {
    var base := Http.BaseUrl(configured) + "/api/download";
    assert GetDownloadUrl(configured, filename) == base + ['/'] + filename;
    LastPieceAfterSep(base, filename, '/');
  }
}
