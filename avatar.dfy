/** `wrapAvatar` of util.tsx: GitLab returns avatar paths relative to its own origin. */
module Avatar {

  const GitLabOrigin := "https://gitlab.com"

  /** An avatar URL made absolute: a URL starting with `"http"` is kept, anything else is
      taken as a path on gitlab.com. */
  function WrapAvatar(url: string): (r: string)
    ensures "http" <= r
    ensures r == url <==> "http" <= url
    ensures |url| <= |r| && r[|r| - |url|..] == url
    ensures r != url ==> r[..|r| - |url|] == GitLabOrigin
  {
    if !("http" <= url) then GitLabOrigin + url else url
  }

  /** Wrapping an already wrapped URL changes nothing. */
  lemma WrapAvatarIdempotent(url: string)
    ensures WrapAvatar(WrapAvatar(url)) == WrapAvatar(url)
  {
  }
}
