/** The page-object base class: thin wrappers around calls on one engine page.

    Each operation returns the page calls it makes, in order, and how it ended. Whether each
    engine call throws is an input (`None` means it returns normally), as in `Engine`. The
    pause between click attempts is assumed to return normally.
 */
module BasePage {
  import opened Wrappers
  import opened Engine
  import Config

  /** The pause between two click attempts, in milliseconds. */
  const RetryDelayMs: int := 1000

  /** What the Java `String.valueOf` of a null reference reads as when concatenated. */
  const NullText: string := "null"

  datatype LoadState = Load | DomContentLoaded | NetworkIdle

  /** A call on the engine page, with the arguments that reach the engine. */
  datatype PageCall =
    | Navigate(url: string)
    | WaitForLoadState(state: LoadState)
    | Click(selector: string)
    | WaitForTimeout(ms: int)
    | PressSequentially(selector: string, text: string, delayMs: int)
    | IsVisibleProbe(selector: string)
    | WaitForSelector(selector: string, timeoutMs: Option<int>)
    | Screenshot
    | AddAttachment(name: string, mimeType: string, extension: string)

  /** The calls an operation made and whether it returned normally or threw. */
  datatype Act = Act(calls: seq<PageCall>, outcome: Outcome<Fault>)

  /** A call that either returns normally or throws `fault`. */
  function Outcome(fault: Option<Fault>): (o: Outcome<Fault>)
    ensures o.Pass? <==> fault.None?
    ensures o.Fail? ==> fault == Some(o.error)
  {
    match fault
    case None => Pass
    case Some(e) => Fail(e)
  }

  // ---------------------------------------------------------------------------
  // Navigation

  /** `waitForPageLoad`: a single wait for the network-idle load state. */
  function WaitForPageLoad(load: Option<Fault>): (a: Act)
    ensures a.calls == [WaitForLoadState(NetworkIdle)]
    ensures a.outcome.Pass? <==> load.None?
    ensures a.outcome.Fail? ==> load == Some(a.outcome.error)
  {
    Act([WaitForLoadState(NetworkIdle)], Outcome(load))
  }

  /** `navigateTo`: navigate to `url`, then wait for the page load; a failing navigation throws
      before the wait. */
  function NavigateTo(url: string, navigate: Option<Fault>, load: Option<Fault>): (a: Act)
    ensures navigate.Some? ==> a == Act([Navigate(url)], Fail(navigate.value))
    ensures navigate.None? ==> a.calls == [Navigate(url), WaitForLoadState(NetworkIdle)]
    ensures navigate.None? ==> a.outcome == WaitForPageLoad(load).outcome
  {
    match navigate
    case Some(e) => Act([Navigate(url)], Fail(e))
    case None =>
      var wait := WaitForPageLoad(load);
      Act([Navigate(url)] + wait.calls, wait.outcome)
  }

  /** Navigation makes exactly one navigate call, first, and at most one load-state wait, only
      after a navigation that returned normally. */
  lemma NavigateOnce(url: string, navigate: Option<Fault>, load: Option<Fault>)
    ensures var a := NavigateTo(url, navigate, load);
            && 1 <= |a.calls| <= 2
            && a.calls[0] == Navigate(url)
            && (forall i :: 1 <= i < |a.calls| ==> !a.calls[i].Navigate?)
            && (|a.calls| == 2 <==> navigate.None?)
            && (a.outcome.Pass? <==> navigate.None? && load.None?)
  {
  }

  /** The text `getUiBaseUrl() + path` evaluates to: an absent base URL reads as "null". */
  function FullUrl(c: Config.ConfigManager, path: string): (url: string)
    ensures var base := Config.GetUiBaseUrl(c);
            && (base.Some? ==> url == base.value + path)
            && (base.None? ==> url == NullText + path)
  {
    Config.GetUiBaseUrl(c).GetOr(NullText) + path
  }

  /** `navigateToPath`: navigation to the base URL followed directly by `path`. */
  function NavigateToPath(c: Config.ConfigManager, path: string, navigate: Option<Fault>, load: Option<Fault>): (a: Act)
    ensures a == NavigateTo(FullUrl(c, path), navigate, load)
    ensures a.calls[0] == Navigate(FullUrl(c, path))
  {
    NavigateTo(FullUrl(c, path), navigate, load)
  }

  /** The URL reached is the configured base URL with `path` appended verbatim: no separator is
      added or removed, so the base and the path can both be read back off it. */
  lemma NavigateToPathVerbatim(c: Config.ConfigManager, path: string, navigate: Option<Fault>, load: Option<Fault>)
    requires Config.UiBaseUrlKey in c.properties
    ensures var url := NavigateToPath(c, path, navigate, load).calls[0].url;
            var base := c.properties[Config.UiBaseUrlKey];
            && |url| == |base| + |path|
            && url[..|base|] == base
            && url[|base|..] == path
  {
  }

  /** Two different paths under the same configuration always lead to different URLs. */
  lemma NavigateToPathInjective(c: Config.ConfigManager, p: string, q: string)
    requires FullUrl(c, p) == FullUrl(c, q)
    ensures p == q
  {
    var base := Config.GetUiBaseUrl(c).GetOr(NullText);
    assert FullUrl(c, p)[|base|..] == p;
    assert FullUrl(c, q)[|base|..] == q;
  }

  // ---------------------------------------------------------------------------
  // Clicking with retries

  /** The calls of `n` click attempts: clicks with a pause between each two. */
  function Attempts(selector: string, n: nat): (calls: seq<PageCall>)
    ensures n == 0 ==> calls == []
    ensures n > 0 ==> |calls| == 2 * n - 1
    ensures forall i :: 0 <= i < |calls| ==>
              calls[i] == if i % 2 == 0 then Click(selector) else WaitForTimeout(RetryDelayMs)
    decreases n
  {
    if n == 0 then []
    else if n == 1 then [Click(selector)]
    else Attempts(selector, n - 1) + [WaitForTimeout(RetryDelayMs), Click(selector)]
  }

  function CountClicks(calls: seq<PageCall>): (n: nat)
    ensures n <= |calls|
    decreases |calls|
  {
    if |calls| == 0 then 0
    else CountClicks(calls[..|calls| - 1]) + (if calls[|calls| - 1].Click? then 1 else 0)
  }

  function CountWaits(calls: seq<PageCall>): (n: nat)
    ensures n <= |calls|
    decreases |calls|
  {
    if |calls| == 0 then 0
    else CountWaits(calls[..|calls| - 1]) + (if calls[|calls| - 1].WaitForTimeout? then 1 else 0)
  }

  /** `n` attempts make exactly `n` clicks and `n - 1` pauses. */
  lemma {:induction false} AttemptsCounts(selector: string, n: nat)
    requires n > 0
    ensures CountClicks(Attempts(selector, n)) == n
    ensures CountWaits(Attempts(selector, n)) == n - 1
    decreases n
  {
    if n > 1 {
      var prev := Attempts(selector, n - 1);
      var calls := Attempts(selector, n);
      AttemptsCounts(selector, n - 1);
      assert calls == prev + [WaitForTimeout(RetryDelayMs)] + [Click(selector)];
      assert calls[..|calls| - 1] == prev + [WaitForTimeout(RetryDelayMs)];
      assert (prev + [WaitForTimeout(RetryDelayMs)])[..|prev|] == prev;
    } else {
      assert Attempts(selector, 1)[..0] == [];
    }
  }

  /** Among click outcomes `from` to `from + m - 1`, the offset of the first that returns
      normally, or `m` when every one of them throws. */
  function FirstSuccess(clicks: Faults, from: nat, m: nat): (k: nat)
    ensures k <= m
    ensures forall j: nat :: from <= j < from + k ==> FaultAt(clicks, j).Some?
    ensures k < m ==> FaultAt(clicks, from + k).None?
    decreases m
  {
    if m == 0 then 0
    else if FaultAt(clicks, from).None? then 0
    else 1 + FirstSuccess(clicks, from + 1, m - 1)
  }

  /** `clickWithRetry`: up to `maxRetries` click attempts with a one-second pause after each
      failed one except the last. The first attempt that returns normally ends the method; when
      the last attempt throws, its exception is rethrown unchanged. With `maxRetries <= 0` the
      loop body never runs: nothing is clicked and the method returns normally. Click attempt
      number `i` (from 0) has outcome `FaultAt(clicks, i)`. */
  method ClickWithRetry(selector: string, maxRetries: int, clicks: Faults) returns (calls: seq<PageCall>, outcome: Outcome<Fault>)
    ensures RetryOutcome(selector, maxRetries, clicks, calls, outcome)
  {
    calls := [];
    outcome := Pass;
    var i := 0;
    while i < maxRetries
      invariant 0 <= i
      invariant maxRetries <= 0 ==> i == 0
      invariant maxRetries > 0 ==> i < maxRetries
      invariant maxRetries > 0 ==> i <= FirstSuccess(clicks, 0, maxRetries)
      invariant calls == if i == 0 then [] else Attempts(selector, i) + [WaitForTimeout(RetryDelayMs)]
      decreases maxRetries - i
    {
      calls := calls + [Click(selector)];
      assert calls == Attempts(selector, i + 1);
      match FaultAt(clicks, i)
      case None =>
        return;
      case Some(e) =>
        if i == maxRetries - 1 {
          outcome := Fail(e);
          return;
        }
        calls := calls + [WaitForTimeout(RetryDelayMs)];
        i := i + 1;
    }
  }

  /** What `clickWithRetry` does: nothing for `maxRetries <= 0`; otherwise the attempts up to
      and including the first that returns normally, or all `maxRetries` attempts with the
      last one's exception rethrown. */
  predicate RetryOutcome(selector: string, maxRetries: int, clicks: Faults, calls: seq<PageCall>, outcome: Outcome<Fault>)
  {
    && (maxRetries <= 0 ==> calls == [] && outcome == Pass)
    && (maxRetries > 0 && FirstSuccess(clicks, 0, maxRetries) < maxRetries ==>
          && calls == Attempts(selector, FirstSuccess(clicks, 0, maxRetries) + 1)
          && outcome == Pass)
    && (maxRetries > 0 && FirstSuccess(clicks, 0, maxRetries) == maxRetries ==>
          && calls == Attempts(selector, maxRetries)
          && FaultAt(clicks, maxRetries - 1).Some?
          && outcome == Fail(FaultAt(clicks, maxRetries - 1).value))
  }

  /** However the attempts turn out, `clickWithRetry` clicks at most `max(maxRetries, 0)` times,
      pauses once less than it clicks, and throws only when every attempt threw. */
  lemma ClickWithRetryBounded(selector: string, maxRetries: int, clicks: Faults, calls: seq<PageCall>, outcome: Outcome<Fault>)
    requires RetryOutcome(selector, maxRetries, clicks, calls, outcome)
    ensures CountClicks(calls) <= if maxRetries > 0 then maxRetries else 0
    ensures CountClicks(calls) > 0 ==> CountWaits(calls) == CountClicks(calls) - 1
    ensures outcome.Fail? ==> forall j: nat :: j < maxRetries ==> FaultAt(clicks, j).Some?
  {
    if maxRetries > 0 {
      var k := FirstSuccess(clicks, 0, maxRetries);
      AttemptsCounts(selector, if k < maxRetries then k + 1 else maxRetries);
    }
  }

  // ---------------------------------------------------------------------------
  // Screenshots

  /** `takeScreenshot(name)`: a viewport screenshot, then one PNG attachment called `name`. A
      failing capture throws before anything is attached. */
  function TakeScreenshot(name: string, shot: Option<Fault>): (a: Act)
    ensures shot.None? ==> a == Act([Screenshot, AddAttachment(name, PngMimeType, PngExtension)], Pass)
    ensures shot.Some? ==> a == Act([Screenshot], Fail(shot.value))
    ensures a.calls[0] == Screenshot
    ensures AddAttachment(name, PngMimeType, PngExtension) in a.calls <==> a.outcome.Pass?
  {
    match shot
    case Some(e) => Act([Screenshot], Fail(e))
    case None => Act([Screenshot, AddAttachment(name, PngMimeType, PngExtension)], Pass)
  }

  // ---------------------------------------------------------------------------
  // Typing, visibility and waiting

  /** `typeSlowly`: one sequential-press call carrying the text and the delay unchanged; its
      exception, if any, propagates. */
  function TypeSlowly(selector: string, text: string, delayMs: int, press: Option<Fault>): (a: Act)
    ensures a.calls == [PressSequentially(selector, text, delayMs)]
    ensures a.outcome.Pass? <==> press.None?
    ensures a.outcome.Fail? ==> press == Some(a.outcome.error)
  {
    Act([PressSequentially(selector, text, delayMs)], Outcome(press))
  }

  /** `typeSlowly` hands its arguments to the engine unchanged and is not retried: what it does
      determines the selector, the text, the delay and the engine's outcome. */
  lemma TypeSlowlyVerbatim(selector: string, text: string, delayMs: int, press: Option<Fault>,
                           selector': string, text': string, delayMs': int, press': Option<Fault>)
    requires TypeSlowly(selector, text, delayMs, press) == TypeSlowly(selector', text', delayMs', press')
    ensures selector == selector' && text == text' && delayMs == delayMs' && press == press'
  {
    var a := TypeSlowly(selector, text, delayMs, press);
    assert a.calls[0] == PressSequentially(selector, text, delayMs);
  }

  /** `isVisible`: the probe's answer, or false when the probe throws. It never throws. */
  function IsVisible(selector: string, probe: Result<bool, Fault>): (r: (seq<PageCall>, bool))
    ensures r.0 == [IsVisibleProbe(selector)]
    ensures r.1 <==> probe == Success(true)
  {
    match probe
    case Success(v) => ([IsVisibleProbe(selector)], v)
    case Failure(_) => ([IsVisibleProbe(selector)], false)
  }

  /** A probe that throws reads as "not visible", exactly like one that answers false. */
  lemma IsVisibleSwallowsFailure(selector: string, e: Fault)
    ensures IsVisible(selector, Failure(e)) == IsVisible(selector, Success(false))
  {
  }

  /** `waitForElement(selector)`: one wait with the engine's default timeout. */
  function WaitForElement(selector: string, wait: Option<Fault>): (a: Act)
    ensures a.calls == [WaitForSelector(selector, None)]
    ensures a.outcome.Pass? <==> wait.None?
    ensures a.outcome.Fail? ==> wait == Some(a.outcome.error)
  {
    Act([WaitForSelector(selector, None)], Outcome(wait))
  }

  /** `waitForElement(selector, timeoutMs)`: one wait carrying the timeout unchanged. */
  function WaitForElementWithin(selector: string, timeoutMs: int, wait: Option<Fault>): (a: Act)
    ensures a.calls == [WaitForSelector(selector, Some(timeoutMs))]
    ensures a.outcome.Pass? <==> wait.None?
    ensures a.outcome.Fail? ==> wait == Some(a.outcome.error)
  {
    Act([WaitForSelector(selector, Some(timeoutMs))], Outcome(wait))
  }

  /** The two overloads differ only in the timeout they pass: none, or the given one. */
  lemma WaitForElementOverloads(selector: string, timeoutMs: int, wait: Option<Fault>)
    ensures WaitForElementWithin(selector, timeoutMs, wait).outcome == WaitForElement(selector, wait).outcome
    ensures WaitForElementWithin(selector, timeoutMs, wait).calls[0].timeoutMs == Some(timeoutMs)
    ensures WaitForElement(selector, wait).calls[0].timeoutMs == None
  {
  }
}
