/** The front end's API base URL and the helper that joins it with a route path
    (src/lib/api-config.ts). The build environment (`VITE_API_URL`, the production
    flag) is passed in. */
module ApiConfig {
  import opened Common

  /** Backend address used in development when no URL is configured. */
  const DevelopmentUrl: string := "http://localhost:3002"

  predicate EndsWithSlash(s: string)
  {
    s != [] && s[|s| - 1] == '/'
  }

  /** `getApiUrl()`: a configured, non-empty `VITE_API_URL` minus one trailing '/',
      otherwise '' in production (same-origin relative paths) and the local
      backend in development. */
  function GetApiUrl(envApiUrl: Option<string>, isProduction: bool): (url: string)
    ensures Truthy(envApiUrl) ==>
              if EndsWithSlash(envApiUrl.value) then url + "/" == envApiUrl.value
              else url == envApiUrl.value
    ensures !Truthy(envApiUrl) ==> url == (if isProduction then "" else DevelopmentUrl)
  {
    if Truthy(envApiUrl) then
      var env := envApiUrl.value;
      if EndsWithSlash(env) then env[..|env| - 1] else env
    else if isProduction then ""
    else DevelopmentUrl
  }

  /** Only one trailing slash is removed: "http://h//" becomes "http://h/". */
  lemma OnlyOneTrailingSlashRemoved(base: string, isProduction: bool)
    requires base != []
    ensures GetApiUrl(Some(base + "//"), isProduction) == base + "/"
  {
    assert (base + "//")[..|base| + 1] == base + "/";
  }

  /** The path with a leading '/', added only when missing. */
  function NormalizePath(path: string): (p: string)
    ensures p != [] && p[0] == '/'
    ensures path != [] && path[0] == '/' ==> p == path
    ensures !(path != [] && path[0] == '/') ==> p == "/" + path
  {
    if path != [] && path[0] == '/' then path else "/" + path
  }

  /** Normalising twice is the same as normalising once. */
  lemma NormalizePathIdempotent(path: string)
    ensures NormalizePath(NormalizePath(path)) == NormalizePath(path)
  {
  }

  /** `apiUrl(path)`: the configured base followed by the normalised path; with an
      empty base this is the normalised path alone. */
  function ApiUrl(envApiUrl: Option<string>, isProduction: bool, path: string): (url: string)
    ensures var base := GetApiUrl(envApiUrl, isProduction);
            && |url| == |base| + |NormalizePath(path)|
            && url[..|base|] == base
            && url[|base|..] == NormalizePath(path)
    ensures GetApiUrl(envApiUrl, isProduction) == "" ==> url == NormalizePath(path)
  {
    var base := GetApiUrl(envApiUrl, isProduction);
    var normalizedPath := NormalizePath(path);
    if base == "" then normalizedPath else base + normalizedPath
  }

  /** In development without configuration, routes go to the local backend. */
  lemma DevelopmentRoute(path: string)
    ensures ApiUrl(None, false, path) == DevelopmentUrl + NormalizePath(path)
  {
  }

  /** In production without configuration, the URL is the route path itself. */
  lemma ProductionRoute(path: string)
    requires path != [] && path[0] == '/'
    ensures ApiUrl(None, true, path) == path
  {
  }
}
