/** The capture side of the screenshot service: the session cookies, the login-redirect check,
    the auto-scroll loop, the record-name fallback, the related-list clip, and the capture itself
    as a sequence of browser calls that may fail, with the page and the browser released on every
    exit. The browser is an environment value: what each call returns or whether it throws. */
module Screenshot {
  import opened Bytes
  import opened Text
  import opened Results
  import opened Artifacts

  // ---------------------------------------------------------------------------------------------
  // Cookies

  datatype Cookie = Cookie(name: string, value: string, domain: string, path: string,
                           httpOnly: bool, secure: bool, sameSite: string)

  /** The Lightning session cookie for one host. */
  function SidCookie(accessToken: string, domain: string): Cookie
  {
    Cookie("sid", accessToken, domain, "/", false, true, "Lax")
  }

  /** The cookie list: one `sid` cookie for the instance host, and one more for the record host
      when it differs. */
  method BuildSessionCookies(accessToken: string, instanceHost: string, recordHost: string) returns (cookies: seq<Cookie>)
    ensures |cookies| == if recordHost == instanceHost then 1 else 2
    ensures cookies[0].domain == instanceHost
    ensures recordHost != instanceHost ==> cookies[1].domain == recordHost
    ensures forall i :: 0 <= i < |cookies| ==> cookies[i].domain == instanceHost || cookies[i].domain == recordHost
    ensures forall i :: 0 <= i < |cookies| ==>
      && cookies[i].name == "sid" && cookies[i].value == accessToken && cookies[i].path == "/"
      && cookies[i].secure && !cookies[i].httpOnly && cookies[i].sameSite == "Lax"
  {
    cookies := [SidCookie(accessToken, instanceHost)];
    if recordHost != instanceHost {
      cookies := cookies + [SidCookie(accessToken, recordHost)];
    }
  }

  // ---------------------------------------------------------------------------------------------
  // Login redirect

  /** The page ended up on a login page after navigation. */
  predicate IsLoginRedirect(url: string)
  {
    Contains(url, "login.salesforce.com") || Contains(url, "/login") || Contains(url, "secur/login")
  }

  /** The third test adds nothing: every URL containing `secur/login` contains `/login`. */
  lemma LoginRedirectSimplified(url: string)
    ensures IsLoginRedirect(url) <==> Contains(url, "login.salesforce.com") || Contains(url, "/login")
  {
    if Contains(url, "secur/login") {
      ContainsPiece(url, "secur/login", 5, 11);
      assert "secur/login"[5..11] == "/login";
    }
  }

  // ---------------------------------------------------------------------------------------------
  // Auto-scroll

  /** The tick on which the scroll interval stops, counting from tick `t`: the first tick whose
      running total (100 per tick) reaches the page height read on that tick. */
  function ScrollTicksFrom(heightAt: nat -> nat, bound: nat, t: nat): (n: nat)
    requires forall k :: heightAt(k) <= bound
    ensures n > t && 100 * n >= heightAt(n - 1)
    decreases bound + 100 - 100 * t
  {
    if 100 * (t + 1) >= heightAt(t) then t + 1 else ScrollTicksFrom(heightAt, bound, t + 1)
  }

  /** `autoScroll`: every 100 ms read the page height, scroll by 100 and stop once the scrolled
      total reaches the height. `heightAt(t)` is the height read on tick `t`; the page is assumed
      never to grow past `bound`. */
  method AutoScroll(heightAt: nat -> nat, bound: nat) returns (ticks: nat, totalHeight: nat)
    requires forall k :: heightAt(k) <= bound
    ensures ticks == ScrollTicksFrom(heightAt, bound, 0)
    ensures totalHeight == 100 * ticks
    ensures ticks >= 1 && totalHeight >= heightAt(ticks - 1)
    ensures forall t :: 0 <= t < ticks - 1 ==> 100 * (t + 1) < heightAt(t)
  {
    totalHeight, ticks := 0, 0;
    var done := false;
    while !done
      invariant totalHeight == 100 * ticks
      invariant !done ==> 100 * ticks <= bound
      invariant !done ==> ScrollTicksFrom(heightAt, bound, ticks) == ScrollTicksFrom(heightAt, bound, 0)
      invariant done ==> ticks >= 1 && ticks == ScrollTicksFrom(heightAt, bound, 0) && totalHeight >= heightAt(ticks - 1)
      invariant forall t :: 0 <= t < ticks && !(done && t == ticks - 1) ==> 100 * (t + 1) < heightAt(t)
      decreases if done then 0 else bound + 200 - totalHeight
    {
      var scrollHeight := heightAt(ticks);
      totalHeight := totalHeight + 100;
      ticks := ticks + 1;
      if totalHeight >= scrollHeight {
        done := true;
      }
    }
  }

  /** For a page of constant height h the interval runs max(1, ceil(h / 100)) ticks. */
  lemma {:induction false} ScrollTicksConstant(heightAt: nat -> nat, h: nat, t: nat)
    requires forall k :: heightAt(k) == h
    ensures ScrollTicksFrom(heightAt, h, t) == if 100 * (t + 1) >= h then t + 1 else (h + 99) / 100
    decreases h + 100 - 100 * t
  {
    if 100 * (t + 1) < h {
      ScrollTicksConstant(heightAt, h, t + 1);
    }
  }

  lemma ScrollTicksFixedHeight(heightAt: nat -> nat, h: nat)
    requires forall k :: heightAt(k) == h
    ensures ScrollTicksFrom(heightAt, h, 0) == if h <= 100 then 1 else (h + 99) / 100
  {
    ScrollTicksConstant(heightAt, h, 0);
  }

  // ---------------------------------------------------------------------------------------------
  // Record name

  /** The selectors tried for the record name, in order. */
  const RecordNameSelectors: seq<string> :=
    ["h1.slds-page-header__title", ".slds-text-heading_large", "[data-aura-class*=\"recordTitle\"]", "h1"]

  const UnknownRecord: string := "Unknown Record"

  /** The fallback chain: the trimmed text of the first selector whose element has non-blank text,
      else the document title when non-empty, else "Unknown Record". `textOf(selector)` is the
      text content of the first element the selector matches, if any. */
  function RecordNameFrom(selectors: seq<string>, textOf: string -> Option<string>, title: string): (name: string)
    ensures name != []
    decreases |selectors|
  {
    if selectors == [] then (if title != [] then title else UnknownRecord)
    else
      var text := textOf(selectors[0]);
      if text.Some? && Trim(text.value) != [] then Trim(text.value)
      else RecordNameFrom(selectors[1..], textOf, title)
  }

  /** The selector at `i` has an element with non-blank text. */
  predicate Named(selectors: seq<string>, textOf: string -> Option<string>, i: nat)
    requires i < |selectors|
  {
    textOf(selectors[i]).Some? && Trim(textOf(selectors[i]).value) != []
  }

  /** The chain picks the first named selector. */
  lemma {:induction false} RecordNameFirstNamed(selectors: seq<string>, textOf: string -> Option<string>, title: string, i: nat)
    requires i < |selectors| && Named(selectors, textOf, i)
    requires forall j :: 0 <= j < i ==> !Named(selectors, textOf, j)
    ensures RecordNameFrom(selectors, textOf, title) == Trim(textOf(selectors[i]).value)
    decreases i
  {
    if i > 0 {
      var tail := selectors[1..];
      assert !Named(selectors, textOf, 0);
      assert Named(tail, textOf, i - 1) by { assert tail[i - 1] == selectors[i]; }
      forall j | 0 <= j < i - 1
        ensures !Named(tail, textOf, j)
      {
        assert tail[j] == selectors[j + 1];
        assert !Named(selectors, textOf, j + 1);
      }
      RecordNameFirstNamed(tail, textOf, title, i - 1);
    }
  }

  /** With no named selector the chain falls back to the title, then to "Unknown Record". */
  lemma {:induction false} RecordNameNoneNamed(selectors: seq<string>, textOf: string -> Option<string>, title: string)
    requires forall i :: 0 <= i < |selectors| ==> !Named(selectors, textOf, i)
    ensures RecordNameFrom(selectors, textOf, title) == if title != [] then title else UnknownRecord
    decreases |selectors|
  {
    if selectors != [] {
      var tail := selectors[1..];
      assert !Named(selectors, textOf, 0);
      forall j | 0 <= j < |tail|
        ensures !Named(tail, textOf, j)
      {
        assert tail[j] == selectors[j + 1];
        assert !Named(selectors, textOf, j + 1);
      }
      RecordNameNoneNamed(tail, textOf, title);
    }
  }

  /** `extractRecordName`: the selector loop with early return inside `page.evaluate`; an error
      thrown by the evaluation yields "Unknown Record". */
  method ExtractRecordName(textOf: string -> Option<string>, title: string, evaluateFails: bool) returns (name: string)
    ensures name == if evaluateFails then UnknownRecord else RecordNameFrom(RecordNameSelectors, textOf, title)
    ensures name != []
  {
    if evaluateFails {
      return UnknownRecord;
    }
    for i := 0 to |RecordNameSelectors|
      invariant RecordNameFrom(RecordNameSelectors[i..], textOf, title) == RecordNameFrom(RecordNameSelectors, textOf, title)
    {
      var text := textOf(RecordNameSelectors[i]);
      assert RecordNameSelectors[i..][1..] == RecordNameSelectors[i + 1..];
      if text.Some? && Trim(text.value) != [] {
        return Trim(text.value);
      }
    }
    assert RecordNameSelectors[|RecordNameSelectors|..] == [];
    name := if title != [] then title else UnknownRecord;
  }

  // ---------------------------------------------------------------------------------------------
  // Related-list screenshot

  datatype Rect = Rect(x: real, y: real, width: real, height: real)

  function MinReal(a: real, b: real): real
  {
    if a <= b then a else b
  }

  /** The clip region: the list's position with the width capped at 1920 and the height at 5000. */
  function Clip(position: Rect): (c: Rect)
    ensures c.x == position.x && c.y == position.y
    ensures c.width <= 1920.0 && c.height <= 5000.0
    ensures c.width == position.width || (c.width == 1920.0 && position.width > 1920.0)
    ensures c.height == position.height || (c.height == 5000.0 && position.height > 5000.0)
  {
    Rect(position.x, position.y, MinReal(position.width, 1920.0), MinReal(position.height, 5000.0))
  }

  /** `captureRelatedListScreenshot`: `render(clip)` is the PNG the page produces for a clip, or
      `None` when the screenshot call throws; a throw yields `false` and writes nothing. */
  method CaptureRelatedListScreenshot(store: ArtifactStore, position: Rect, outputPath: string,
                                      render: Rect -> Option<seq<Byte>>) returns (ok: bool)
    modifies store
    ensures ok <==> render(Clip(position)).Some?
    ensures ok ==> store.files == old(store.files)[outputPath := render(Clip(position)).value]
    ensures !ok ==> store.files == old(store.files)
  {
    var image := render(Clip(position));
    if image.None? {
      return false;
    }
    store.Write(outputPath, image.value);
    return true;
  }

  // ---------------------------------------------------------------------------------------------
  // Browser handles

  /** The live browser and page handles; `next` numbers the following one. */
  class Playwright {
    var live: set<nat>
    var next: nat

    ghost predicate Valid()
      reads this
    {
      forall h :: h in live ==> h < next
    }

    constructor()
      ensures Valid() && live == {}
    {
      live, next := {}, 0;
    }

    /** `chromium.launch()` or `context.newPage()`: a new live handle. */
    method Acquire() returns (h: nat)
      requires Valid()
      modifies this
      ensures Valid()
      ensures h !in old(live) && live == old(live) + {h}
    {
      h := next;
      live, next := live + {h}, next + 1;
    }

    /** `page.close()` or `browser.close()`. */
    method Release(h: nat)
      requires Valid()
      modifies this
      ensures Valid()
      ensures live == old(live) - {h}
    {
      live := live - {h};
    }
  }

  // ---------------------------------------------------------------------------------------------
  // The capture

  /** The browser calls of a capture that can throw. */
  datatype Step =
    | Launch | NewContext | NewPage | SetHeaders | AddCookies | Navigate
    | DebugScreenshot | Scroll | FullPageScreenshot | PageTitle

  /** The browser as the capture sees it: which calls throw, what `new URL(..).hostname` gives
      (`None` for an invalid URL), where navigation lands, the page heights the scroll loop
      reads, the PNGs rendered, the title, and the DOM text the record-name selectors find.
      `markerMs` and `spinnersGoneMs` are when the header marker appears and the spinners
      vanish. */
  datatype BrowserEnv = BrowserEnv(
    failing: set<Step>,
    hostOf: string -> Option<string>,
    finalUrl: string,
    markerMs: Option<nat>,
    spinnersGoneMs: Option<nat>,
    heightAt: nat -> nat,
    maxHeight: nat,
    image: seq<Byte>,
    debugImage: seq<Byte>,
    title: string,
    textOf: string -> Option<string>,
    nameEvaluateFails: bool)

  /** The page height never exceeds its bound, so the scroll loop ends. */
  ghost predicate Bounded(env: BrowserEnv)
  {
    forall k :: env.heightAt(k) <= env.maxHeight
  }

  datatype CaptureRequest = CaptureRequest(
    recordUrl: string,
    accessToken: string,
    instanceUrl: string,
    recordId: string,
    objectApiName: string,
    upgradeState: string)

  datatype CaptureResult = CaptureResult(
    screenshotPath: string,
    screenshotFilename: string,
    recordUrl: string,
    recordId: string,
    objectApiName: string,
    upgradeState: string,
    recordName: string,
    pageTitle: string,
    capturedAt: string)

  datatype CaptureError =
    | StepFailed(step: Step)
    | InvalidUrl(url: string)
    | AuthenticationFailed

  /** The screenshots directory, standing for the absolute path the service computes. */
  const ScreenshotsDir: string := "screenshots"

  /** `path.join(SCREENSHOTS_DIR, filename)`. */
  function ScreenshotPath(filename: string): string
  {
    ScreenshotsDir + "/" + filename
  }

  /** The debugging screenshot written on a login redirect, named after the clock. */
  function DebugFilename(now: nat): string
  {
    DebugPrefix + Decimal(now) + PngExtension
  }

  const DebugPrefix: string := "debug-login-redirect-"

  lemma DebugPrefixDotFree()
    ensures '.' !in DebugPrefix
  {
  }

  const PngExtension: string := ".png"

  lemma PngExtensionOneDot()
    ensures Count(PngExtension, '.') == 1
  {
    assert PngExtension[1..] == "png";
    assert '.' !in "png";
  }

  /** The artifact a capture writes. */
  function RequestFilename(req: CaptureRequest): string
  {
    ArtifactFilename(req.objectApiName, req.recordId, req.upgradeState)
  }

  /** What a capture returns, step by step in the order the service makes the calls. */
  function CaptureOutcome(env: BrowserEnv, req: CaptureRequest, capturedAt: string): Result<CaptureResult, CaptureError>
  {
    if Launch in env.failing then Failure(StepFailed(Launch))
    else if NewContext in env.failing then Failure(StepFailed(NewContext))
    else if NewPage in env.failing then Failure(StepFailed(NewPage))
    else if env.hostOf(req.instanceUrl).None? then Failure(InvalidUrl(req.instanceUrl))
    else if env.hostOf(req.recordUrl).None? then Failure(InvalidUrl(req.recordUrl))
    else if SetHeaders in env.failing then Failure(StepFailed(SetHeaders))
    else if AddCookies in env.failing then Failure(StepFailed(AddCookies))
    else if Navigate in env.failing then Failure(StepFailed(Navigate))
    else if IsLoginRedirect(env.finalUrl) then
      if DebugScreenshot in env.failing then Failure(StepFailed(DebugScreenshot)) else Failure(AuthenticationFailed)
    else if Scroll in env.failing then Failure(StepFailed(Scroll))
    else if FullPageScreenshot in env.failing then Failure(StepFailed(FullPageScreenshot))
    else if PageTitle in env.failing then Failure(StepFailed(PageTitle))
    else
      var filename := RequestFilename(req);
      var name := if env.nameEvaluateFails then UnknownRecord else RecordNameFrom(RecordNameSelectors, env.textOf, env.title);
      Success(CaptureResult(ScreenshotPath(filename), filename, req.recordUrl, req.recordId,
                            req.objectApiName, req.upgradeState, name, env.title, capturedAt))
  }

  /** The navigation itself succeeded: every call up to `page.goto` returned. */
  predicate Navigated(env: BrowserEnv, req: CaptureRequest)
  {
    && Launch !in env.failing && NewContext !in env.failing && NewPage !in env.failing
    && env.hostOf(req.instanceUrl).Some? && env.hostOf(req.recordUrl).Some?
    && SetHeaders !in env.failing && AddCookies !in env.failing && Navigate !in env.failing
  }

  /** The screenshots directory after a capture: the debug PNG after a login redirect, the
      artifact after a full-page screenshot, nothing otherwise. */
  function CaptureFiles(env: BrowserEnv, req: CaptureRequest, now: nat, files: map<string, seq<Byte>>): map<string, seq<Byte>>
  {
    if !Navigated(env, req) then files
    else if IsLoginRedirect(env.finalUrl) then
      if DebugScreenshot in env.failing then files else files[DebugFilename(now) := env.debugImage]
    else if Scroll in env.failing || FullPageScreenshot in env.failing then files
    else files[RequestFilename(req) := env.image]
  }

  /** The body of the `try` block. It returns the handles it acquired so that the caller can
      release them, as the `finally` block does. */
  method CaptureAttempt(pw: Playwright, store: ArtifactStore, env: BrowserEnv, req: CaptureRequest, now: nat, capturedAt: string)
      returns (r: Result<CaptureResult, CaptureError>, browser: Option<nat>, page: Option<nat>)
    requires pw.Valid() && Bounded(env)
    modifies pw, store
    ensures pw.Valid()
    ensures r == CaptureOutcome(env, req, capturedAt)
    ensures store.files == CaptureFiles(env, req, now, old(store.files))
    ensures browser.Some? ==> browser.value !in old(pw.live)
    ensures page.Some? ==> page.value !in old(pw.live) && browser.Some? && page.value != browser.value
    ensures pw.live == old(pw.live) + (if browser.Some? then {browser.value} else {}) + (if page.Some? then {page.value} else {})
  {
    browser, page := None, None;
    if Launch in env.failing {
      return Failure(StepFailed(Launch)), browser, page;
    }
    var b := pw.Acquire();
    browser := Some(b);
    if NewContext in env.failing {
      return Failure(StepFailed(NewContext)), browser, page;
    }
    if NewPage in env.failing {
      return Failure(StepFailed(NewPage)), browser, page;
    }
    var p := pw.Acquire();
    page := Some(p);
    var instanceHost := env.hostOf(req.instanceUrl);
    if instanceHost.None? {
      return Failure(InvalidUrl(req.instanceUrl)), browser, page;
    }
    var recordHost := env.hostOf(req.recordUrl);
    if recordHost.None? {
      return Failure(InvalidUrl(req.recordUrl)), browser, page;
    }
    if SetHeaders in env.failing {
      return Failure(StepFailed(SetHeaders)), browser, page;
    }
    var cookies := BuildSessionCookies(req.accessToken, instanceHost.value, recordHost.value);
    if AddCookies in env.failing {
      return Failure(StepFailed(AddCookies)), browser, page;
    }
    if Navigate in env.failing {
      return Failure(StepFailed(Navigate)), browser, page;
    }
    if IsLoginRedirect(env.finalUrl) {
      if DebugScreenshot in env.failing {
        return Failure(StepFailed(DebugScreenshot)), browser, page;
      }
      store.Write(DebugFilename(now), env.debugImage);
      return Failure(AuthenticationFailed), browser, page;
    }
    // The header-marker race and the spinner wait catch their own failures: neither can end
    // the capture, they only delay it.
    if Scroll in env.failing {
      return Failure(StepFailed(Scroll)), browser, page;
    }
    var ticks, totalHeight := AutoScroll(env.heightAt, env.maxHeight);
    var filename := ArtifactFilename(req.objectApiName, req.recordId, req.upgradeState);
    if FullPageScreenshot in env.failing {
      return Failure(StepFailed(FullPageScreenshot)), browser, page;
    }
    store.Write(filename, env.image);
    if PageTitle in env.failing {
      return Failure(StepFailed(PageTitle)), browser, page;
    }
    var recordName := ExtractRecordName(env.textOf, env.title, env.nameEvaluateFails);
    r := Success(CaptureResult(ScreenshotPath(filename), filename, req.recordUrl, req.recordId,
                               req.objectApiName, req.upgradeState, recordName, env.title, capturedAt));
  }

  /** `captureRecordScreenshot`: the attempt, then the `finally` block closing the page and the
      browser if they were opened. Whatever the outcome, no handle stays live. */
  method CaptureRecordScreenshot(pw: Playwright, store: ArtifactStore, env: BrowserEnv, req: CaptureRequest, now: nat, capturedAt: string)
      returns (r: Result<CaptureResult, CaptureError>)
    requires pw.Valid() && Bounded(env)
    modifies pw, store
    ensures pw.Valid() && pw.live == old(pw.live)
    ensures r == CaptureOutcome(env, req, capturedAt)
    ensures store.files == CaptureFiles(env, req, now, old(store.files))
  {
    var browser, page;
    r, browser, page := CaptureAttempt(pw, store, env, req, now, capturedAt);
    if page.Some? {
      pw.Release(page.value);
    }
    if browser.Some? {
      pw.Release(browser.value);
    }
  }

  // ---------------------------------------------------------------------------------------------
  // Properties of the capture

  /** A redirect to a login page aborts the capture with the authentication error (or the
      debug screenshot's own error), and the artifact is not written. */
  lemma LoginRedirectAborts(env: BrowserEnv, req: CaptureRequest, now: nat, capturedAt: string, files: map<string, seq<Byte>>)
    requires Navigated(env, req) && IsLoginRedirect(env.finalUrl)
    ensures CaptureOutcome(env, req, capturedAt) == Failure(if DebugScreenshot in env.failing then StepFailed(DebugScreenshot) else AuthenticationFailed)
    ensures var after := CaptureFiles(env, req, now, files);
      (RequestFilename(req) in after <==> RequestFilename(req) in files)
      && (RequestFilename(req) in files ==> after[RequestFilename(req)] == files[RequestFilename(req)])
  {
    DebugIsNotArtifact(now, req.objectApiName, req.recordId, req.upgradeState);
  }

  /** The debug file name holds exactly one dot. */
  lemma DebugFilenameDots(now: nat)
    ensures Count(DebugFilename(now), '.') == 1
  {
    var digits := Decimal(now);
    DebugPrefixDotFree();
    assert '.' !in digits by {
      forall i | 0 <= i < |digits| ensures digits[i] != '.' {
        assert '0' <= digits[i] <= '9';
      }
    }
    CountConcat(DebugPrefix, digits, '.');
    PngExtensionOneDot();
    CountConcat(DebugPrefix + digits, PngExtension, '.');
  }

  /** An artifact name holds at least three dots. */
  lemma ArtifactFilenameDots(o: string, i: string, p: string)
    ensures Count(ArtifactFilename(o, i, p), '.') >= 3
  {
    assert Count(".", '.') == 1;
    assert Count(".png", '.') == 1 by {
      assert ".png"[1..] == "png";
      assert '.' !in "png";
    }
    CountConcat(o, ".", '.');
    CountConcat(o + ".", i, '.');
    CountConcat(o + "." + i, ".", '.');
    CountConcat(o + "." + i + ".", p, '.');
    CountConcat(o + "." + i + "." + p, ".png", '.');
  }

  /** The debug file can never overwrite an artifact: it has one dot, an artifact name three. */
  lemma DebugIsNotArtifact(now: nat, objectApiName: string, recordId: string, upgradeState: string)
    ensures DebugFilename(now) != ArtifactFilename(objectApiName, recordId, upgradeState)
  {
    DebugFilenameDots(now);
    ArtifactFilenameDots(objectApiName, recordId, upgradeState);
  }

  /** A successful capture names the artifact after the request, writes the rendered page to
      it, and reports a non-empty record name. */
  lemma CaptureSuccess(env: BrowserEnv, req: CaptureRequest, now: nat, capturedAt: string, files: map<string, seq<Byte>>)
    requires CaptureOutcome(env, req, capturedAt).Success?
    ensures var r := CaptureOutcome(env, req, capturedAt).value;
      && r.screenshotFilename == ArtifactFilename(req.objectApiName, req.recordId, req.upgradeState)
      && r.screenshotPath == ScreenshotPath(r.screenshotFilename)
      && r.upgradeState == req.upgradeState && r.recordName != []
      && CaptureFiles(env, req, now, files) == files[r.screenshotFilename := env.image]
  {
  }

  /** When the header marker appears and when the spinners vanish only delays the capture: its
      outcome and the files it writes do not depend on them. */
  lemma WaitsDoNotMatter(env: BrowserEnv, req: CaptureRequest, now: nat, capturedAt: string, files: map<string, seq<Byte>>,
                         markerMs: Option<nat>, spinnersGoneMs: Option<nat>)
    ensures var env' := env.(markerMs := markerMs, spinnersGoneMs := spinnersGoneMs);
      && CaptureOutcome(env', req, capturedAt) == CaptureOutcome(env, req, capturedAt)
      && CaptureFiles(env', req, now, files) == CaptureFiles(env, req, now, files)
  {
  }
}
