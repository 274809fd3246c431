/** The desktop shell's network rules (electron/main.ts): which URLs a
    request may load, and which navigations the window allows. Whether the
    build is packaged is an input; a failed `new URL` is a `None` origin. */
module ElectronMain {
  import opened Base

  const DEV_ORIGIN := "http://localhost:3000"
  const DEV_HTTP := "http://localhost:3000/"
  const DEV_HTTPS := "https://localhost:3000/"

  /** The app's own schemes. */
  predicate HasAppScheme(u: string) {
    StartsWith(u, "file:") || StartsWith(u, "app:") || StartsWith(u, "devtools:")
  }

  /** `/^https?:\/\/localhost:3000\//i`: the pattern is ASCII, so
      ignoring case is ASCII case folding. */
  predicate IsDevServerUrl(u: string) {
    StartsWith(Lower(u), DEV_HTTP) || StartsWith(Lower(u), DEV_HTTPS)
  }

  /** allowUrl. */
  predicate AllowUrl(u: string, isProd: bool) {
    HasAppScheme(u) || (!isProd && IsDevServerUrl(u))
  }

  /** The `onBeforeRequest` handler's answer: cancel a request unless its
      URL passes the handler's own inline test. */
  function CancelRequest(u: string, isPackaged: bool): (cancel: bool)
    ensures cancel <==> !AllowUrl(u, isPackaged)
  {
    var allowed := StartsWith(u, "file:") || StartsWith(u, "app:") || StartsWith(u, "devtools:")
      || (!isPackaged && IsDevServerUrl(u));
    !allowed
  }

  /** A packaged build loads only the app's own schemes. */
  lemma PackagedAllowsOnlyAppSchemes(u: string)
    ensures AllowUrl(u, true) <==> HasAppScheme(u)
    ensures !CancelRequest(u, true) <==> HasAppScheme(u)
  {
  }

  lemma LowerIsIdempotent(s: string)
    ensures Lower(Lower(s)) == Lower(s)
  {
  }

  /** A development build also loads the dev server, in any letter case. */
  lemma DevServerAllowedInAnyCase(u: string)
    requires StartsWith(Lower(u), DEV_HTTP)
    ensures AllowUrl(u, false) && !CancelRequest(u, false)
    ensures AllowUrl(Lower(u), false)
  {
    LowerIsIdempotent(u);
  }

  /** The `will-navigate` rule: prevented unless the origin is the dev
      server or the URL is a file URL. A URL that does not parse makes the
      listener throw before it can prevent anything. */
  function PreventNavigation(origin: Option<string>, url: string): (prevent: bool)
    ensures prevent <==> origin.Some? && origin.value != DEV_ORIGIN && !StartsWith(url, "file:")
  {
    match origin
    case None => false
    case Some(o) => o != DEV_ORIGIN && !StartsWith(url, "file:")
  }

  /** The two rules agree on file URLs: loaded and navigated to in every
      build. */
  lemma FileUrlsAlwaysPass(origin: Option<string>, url: string, isProd: bool)
    requires StartsWith(url, "file:")
    ensures AllowUrl(url, isProd) && !CancelRequest(url, isProd) && !PreventNavigation(origin, url)
  {
  }

  /** They disagree on the dev server in a packaged build: the navigation
      goes ahead, but every request it makes is cancelled. */
  lemma PackagedDevServerNavigatesButLoadsNothing(path: string)
    ensures var url := DEV_HTTP + path;
      !PreventNavigation(Some(DEV_ORIGIN), url) && CancelRequest(url, true)
  {
    var url := DEV_HTTP + path;
    assert url[0] == 'h';
    assert !StartsWith(url, "file:") && !StartsWith(url, "app:") && !StartsWith(url, "devtools:");
  }
}
