/** Per-worker browser sessions: each worker (test thread) owns four optional slots, the
    Playwright instance, the browser, the browser context and the primary page.

    The real engine is not modelled. A `World` holds every worker's slots, a counter that
    hands out fresh handles for created engine objects, the outcomes of the next engine
    calls (see module Engine) and the log of every engine call made with its reply.
    Operations are functions from a world to the next world and a result; a Java
    exception that escapes an operation is a `Failure` result.
 */
module BrowserManager {
  import opened Wrappers
  import opened Engine
  import Config

  /** A unit of parallel test execution (the thread owning a set of thread-local slots). */
  type Worker = nat

  /** Identity of an engine object created by a successful engine call. */
  type Handle = nat

  datatype BrowserKind = Chromium | Firefox | WebKit

  const ViewportWidth: nat := 1920
  const ViewportHeight: nat := 1080
  const VideoDir: string := "target/playwright-videos"
  const TracePath: string := "target/trace.zip"
  const ScreenshotDir: string := "target/playwright-screenshots/"
  const ScreenshotSuffix: string := ".png"

  // ---------------------------------------------------------------------------
  // Browser kind

  /** The engine launched for a configured browser name, compared in lower case. */
  function BrowserTypeFor(name: string): (kind: BrowserKind)
    ensures kind == Firefox <==> Config.ToLower(name) == "firefox"
    ensures kind == WebKit <==> Config.ToLower(name) == "webkit" || Config.ToLower(name) == "safari"
    ensures kind == Chromium <==> Config.ToLower(name) !in ["firefox", "webkit", "safari"]
  {
    var lower := Config.ToLower(name);
    if lower == "firefox" then Firefox
    else if lower == "webkit" || lower == "safari" then WebKit
    else Chromium
  }

  /** The engine for every case spelling of the three recognised names: Firefox for any mix of
      upper and lower case in "firefox", WebKit for "webkit" or "safari", Chromium otherwise. */
  lemma BrowserTypeCaseSpellings(name: string)
    ensures BrowserTypeFor(name) == Firefox <==> Config.SpelledIgnoringCase(name, "firefox")
    ensures BrowserTypeFor(name) == WebKit <==>
              Config.SpelledIgnoringCase(name, "webkit") || Config.SpelledIgnoringCase(name, "safari")
  {
    Config.LowerSpelling(name, "firefox");
    Config.LowerSpelling(name, "webkit");
    Config.LowerSpelling(name, "safari");
  }

  /** A configured "Firefox", as a user would type it, launches Firefox. */
  lemma CapitalisedFirefox()
    ensures BrowserTypeFor("Firefox") == Firefox
  {
    var name := "Firefox";
    assert name[0] as int + 32 == 'f' as int;
    assert Config.SpelledIgnoringCase(name, "firefox");
    BrowserTypeCaseSpellings(name);
  }

  /** A configured "Safari" launches WebKit. */
  lemma CapitalisedSafari()
    ensures BrowserTypeFor("Safari") == WebKit
  {
    var name := "Safari";
    assert name[0] as int + 32 == 's' as int;
    assert Config.SpelledIgnoringCase(name, "safari");
    BrowserTypeCaseSpellings(name);
  }

  /** Only the letters matter, not their case. */
  lemma BrowserTypeIgnoresCase(a: string, b: string)
    requires Config.EqualsIgnoreCase(a, b)
    ensures BrowserTypeFor(a) == BrowserTypeFor(b)
  {
  }

  // ---------------------------------------------------------------------------
  // State

  /** One worker's thread-local slots. */
  datatype Slots = Slots(playwright: Option<Handle>, browser: Option<Handle>, context: Option<Handle>, page: Option<Handle>)

  const NoSlots: Slots := Slots(None, None, None, None)

  /** A call into the engine (or, for `AddAttachment`, into the report's attachment sink). */
  datatype Call =
    | CreatePlaywright
    | Launch(playwright: Handle, kind: BrowserKind, headless: bool)
    | NewContext(browser: Handle, viewportWidth: nat, viewportHeight: nat, videoDir: string)
    | TracingStart(context: Handle, screenshots: bool, snapshots: bool, sources: bool)
    | NewPage(context: Handle)
    | PageClose(page: Handle)
    | PageScreenshot(page: Handle, path: string, fullPage: bool)
    | AddAttachment(name: string, mimeType: string, extension: string)
    | TracingStop(context: Handle, path: string)
    | ContextClose(context: Handle)
    | BrowserClose(browser: Handle)
    | PlaywrightClose(playwright: Handle)

  /** What a call answered: nothing, a newly created object, or an exception. */
  datatype Reply = Done | Created(handle: Handle) | Threw(fault: Fault)

  datatype Event = Event(worker: Worker, call: Call, reply: Reply)

  /** `faults` holds the outcomes of all engine calls and `pos` the number of calls made so far. */
  datatype World = World(slots: map<Worker, Slots>, next: Handle, faults: Faults, pos: nat, log: seq<Event>)

  /** The world after an operation and what the operation returned or threw. */
  datatype Step<T> = Step(world: World, result: Result<T, Fault>)

  /** A worker that never touched the browser has all four slots empty. */
  function SlotsOf(w: World, k: Worker): Slots
  {
    if k in w.slots then w.slots[k] else NoSlots
  }

  function SetSlots(w: World, k: Worker, s: Slots): (r: World)
    ensures SlotsOf(r, k) == s
    ensures forall j :: j != k ==> SlotsOf(r, j) == SlotsOf(w, j)
    ensures r.next == w.next && r.faults == w.faults && r.pos == w.pos && r.log == w.log
  {
    w.(slots := w.slots[k := s])
  }

  predicate SlotsBelow(s: Slots, n: Handle)
  {
    && (s.playwright.Some? ==> s.playwright.value < n)
    && (s.browser.Some? ==> s.browser.value < n)
    && (s.context.Some? ==> s.context.value < n)
    && (s.page.Some? ==> s.page.value < n)
  }

  /** Every handle held in a slot was handed out before the counter: a handle the counter
      hands out next is therefore different from every held one. */
  ghost predicate HandlesIssued(w: World)
  {
    forall k :: SlotsBelow(SlotsOf(w, k), w.next)
  }

  predicate Creates(c: Call)
  {
    c.CreatePlaywright? || c.Launch? || c.NewContext? || c.NewPage?
  }

  /** The reply the engine gives to call `c` when it is call number `w.pos`. */
  function ReplyTo(w: World, c: Call): Reply
  {
    var outcome := FaultAt(w.faults, w.pos);
    if outcome.Some? then Threw(outcome.value) else if Creates(c) then Created(w.next) else Done
  }

  /** One engine call made by worker `k`: it uses up one outcome, a successful creating call
      yields the next fresh handle, and the call is logged with its reply. */
  function Invoke(w: World, k: Worker, c: Call): (r: (World, Reply))
    ensures r.0.slots == w.slots && r.0.faults == w.faults
    ensures r.0.pos == w.pos + 1
    ensures r.1 == ReplyTo(w, c)
    ensures r.0.log == w.log + [Event(k, c, r.1)]
    ensures r.0.next == if r.1.Created? then w.next + 1 else w.next
  {
    var reply := ReplyTo(w, c);
    var next := if reply.Created? then w.next + 1 else w.next;
    (w.(next := next, pos := w.pos + 1, log := w.log + [Event(k, c, reply)]), reply)
  }

  // ---------------------------------------------------------------------------
  // Initialisation

  /** What `initializeBrowser` reads from the configuration: the browser type to launch and
      whether it runs headless. */
  datatype BrowserSettings = BrowserSettings(kind: BrowserKind, headless: bool)

  function SettingsOf(c: Config.ConfigManager): BrowserSettings
  {
    BrowserSettings(BrowserTypeFor(Config.GetBrowser(c)), Config.IsHeadless(c))
  }

  /** With neither key configured, the manager launches headless Chromium. */
  lemma DefaultSettings(c: Config.ConfigManager)
    requires Config.BrowserKey !in c.properties && Config.HeadlessKey !in c.properties
    ensures SettingsOf(c) == BrowserSettings(Chromium, true)
  {
    DefaultBrowserIsChromium();
  }

  lemma DefaultBrowserIsChromium()
    ensures BrowserTypeFor(Config.DefaultBrowser) == Chromium
  {
    var lower := Config.ToLower(Config.DefaultBrowser);
    Config.ToLowerOfLower(Config.DefaultBrowser);
    assert |lower| == 8;  // longer than every other engine name
  }

  /** The calls a fully successful initialisation makes, in order, when the next fresh handle
      is `n`: Playwright, browser, context, tracing start, page. */
  function InitEvents(b: BrowserSettings, k: Worker, n: Handle): (es: seq<Event>)
    ensures |es| == 5
  {
    [ Event(k, CreatePlaywright, Created(n)),
      Event(k, Launch(n, b.kind, b.headless), Created(n + 1)),
      Event(k, NewContext(n + 1, ViewportWidth, ViewportHeight, VideoDir), Created(n + 2)),
      Event(k, TracingStart(n + 2, true, true, true), Done),
      Event(k, NewPage(n + 2), Created(n + 3)) ]
  }

  /** How many objects initialisation creates before its call number `f` (0-based). */
  function CreatedBefore(f: nat): nat
    requires f <= 5
  {
    if f <= 3 then f else f - 1
  }

  /** The events of an initialisation whose first failing call is number `f` (5: none fails). */
  function InitLog(b: BrowserSettings, k: Worker, n: Handle, fault: Option<Fault>, f: nat): seq<Event>
    requires f <= 5
    requires f < 5 ==> fault.Some?
  {
    Truncated(k, InitEvents(b, k, n), fault, f)
  }

  /** The events `es` up to call number `f`, which is logged as throwing `fault` instead (all of
      `es` when `f` is past the last call). */
  function Truncated(k: Worker, es: seq<Event>, fault: Option<Fault>, f: nat): seq<Event>
    requires f <= |es|
    requires f < |es| ==> fault.Some?
  {
    if f == |es| then es else es[..f] + [Event(k, es[f].call, Threw(fault.value))]
  }

  /** The result and the counters: how far the run got decides success, the exception, the next
      fresh handle and the number of outcomes used. */
  ghost predicate InitResultSpec(w: World, i: nat, r: Step<()>)
    requires i <= 5
  {
    InitOutcomeSpec(w, i, r) && InitCountersSpec(w, i, r)
  }

  ghost predicate InitOutcomeSpec(w: World, i: nat, r: Step<()>)
    requires i <= 5
  {
    var f := FirstFault(w.faults, w.pos, 5 - i); var fault := FaultAt(w.faults, w.pos + f);
    && (r.result.Success? <==> f == 5 - i)
    && (r.result.Failure? ==> fault == Some(r.result.error))
  }

  ghost predicate InitCountersSpec(w: World, i: nat, r: Step<()>)
    requires i <= 5
  {
    var f := FirstFault(w.faults, w.pos, 5 - i);
    && r.world.next == w.next + CreatedBefore(i + f) - CreatedBefore(i)
    && r.world.pos == w.pos + (if f == 5 - i then f else f + 1)
    && r.world.faults == w.faults
  }

  ghost predicate InitLogSpec(b: BrowserSettings, w: World, k: Worker, i: nat, base: Handle, r: Step<()>)
    requires i <= 5
  {
    r.world.log == w.log + InitTrace(b, k, base, w.faults, w.pos, i)
  }

  ghost predicate InitSlotsSpec(w: World, k: Worker, i: nat, base: Handle, r: Step<()>)
    requires i <= 5
  {
    var f := FirstFault(w.faults, w.pos, 5 - i);
    var s := SlotsOf(w, k); var s' := SlotsOf(r.world, k);
    && s'.playwright == (if i <= 0 < i + f then Some(base) else s.playwright)
    && s'.browser == (if i <= 1 < i + f then Some(base + 1) else s.browser)
    && s'.context == (if i <= 2 < i + f then Some(base + 2) else s.context)
    && s'.page == (if i <= 4 < i + f then Some(base + 3) else s.page)
    && (forall j :: j != k ==> SlotsOf(r.world, j) == SlotsOf(w, j))
  }

  /** Call number `i` of initialisation, built from the slots as `initializeBrowser` reads them
      back: the browser is launched from the Playwright slot, the context is opened on the
      browser slot, and tracing and the page use the context slot. */
  function InitCall(b: BrowserSettings, s: Slots, i: nat): Call
    requires i < 5
    requires i >= 1 ==> s.playwright.Some?
    requires i >= 2 ==> s.browser.Some?
    requires i >= 3 ==> s.context.Some?
  {
    if i == 0 then CreatePlaywright
    else if i == 1 then Launch(s.playwright.value, b.kind, b.headless)
    else if i == 2 then NewContext(s.browser.value, ViewportWidth, ViewportHeight, VideoDir)
    else if i == 3 then TracingStart(s.context.value, true, true, true)
    else NewPage(s.context.value)
  }

  /** The slot that creating call number `i` fills with its new handle (call 3 creates nothing). */
  function WithCreated(s: Slots, i: nat, h: Handle): Slots
  {
    if i == 0 then s.(playwright := Some(h))
    else if i == 1 then s.(browser := Some(h))
    else if i == 2 then s.(context := Some(h))
    else if i == 4 then s.(page := Some(h))
    else s
  }

  /** One statement of `initializeBrowser`: call number `i`, whose created object, if any, is
      stored in its slot at once. With the earlier objects holding `base`, `base + 1`, ..., the
      call and its successful reply are those of the fully successful run. */
  function InitCallAt(b: BrowserSettings, w: World, k: Worker, i: nat, base: Handle): (r: (World, Reply))
    requires i < 5
    requires w.next == base + CreatedBefore(i)
    requires i >= 1 ==> SlotsOf(w, k).playwright == Some(base)
    requires i >= 2 ==> SlotsOf(w, k).browser == Some(base + 1)
    requires i >= 3 ==> SlotsOf(w, k).context == Some(base + 2)
    ensures var e := InitEvents(b, k, base)[i]; var fault := FaultAt(w.faults, w.pos);
            && r.1 == (if fault.Some? then Threw(fault.value) else e.reply)
            && r.0.log == w.log + [if fault.Some? then Event(k, e.call, Threw(fault.value)) else e]
    ensures r.0.pos == w.pos + 1 && r.0.faults == w.faults
    ensures r.0.next == if r.1.Threw? then w.next else base + CreatedBefore(i + 1)
    ensures var s := SlotsOf(w, k); var s' := SlotsOf(r.0, k); var ok := !r.1.Threw?;
            && s'.playwright == (if i == 0 && ok then Some(base) else s.playwright)
            && s'.browser == (if i == 1 && ok then Some(base + 1) else s.browser)
            && s'.context == (if i == 2 && ok then Some(base + 2) else s.context)
            && s'.page == (if i == 4 && ok then Some(base + 3) else s.page)
    ensures forall j :: j != k ==> SlotsOf(r.0, j) == SlotsOf(w, j)
  {
    var p := Invoke(w, k, InitCall(b, SlotsOf(w, k), i));
    if p.1.Created? then (SetSlots(p.0, k, WithCreated(SlotsOf(p.0, k), i, p.1.handle)), p.1) else p
  }

  /** Initialisation from call number `i` on: the calls run in order and the first that throws
      ends the run with its exception. */
  function InitFrom(b: BrowserSettings, w: World, k: Worker, i: nat, base: Handle): (r: Step<()>)
    requires i <= 5
    requires w.next == base + CreatedBefore(i)
    requires i >= 1 ==> SlotsOf(w, k).playwright == Some(base)
    requires i >= 2 ==> SlotsOf(w, k).browser == Some(base + 1)
    requires i >= 3 ==> SlotsOf(w, k).context == Some(base + 2)
    ensures InitResultSpec(w, i, r)
    ensures InitLogSpec(b, w, k, i, base, r)
    ensures InitSlotsSpec(w, k, i, base, r)
    decreases 5 - i
  {
    if i == 5 then Step(w, Success(()))
    else
      var p := InitCallAt(b, w, k, i, base);
      if p.1.Threw? then
        InitResultThrew(w, i, Step(p.0, Failure(p.1.fault)));
        InitLogThrew(b, w, k, i, base, p.0.log);
        InitSlotsThrew(w, p.0, k, i, base, Step(p.0, Failure(p.1.fault)));
        Step(p.0, Failure(p.1.fault))
      else
        var r := InitFrom(b, p.0, k, i + 1, base);
        InitResultStep(w, p.0, i, r);
        InitLogStep(b, w, p.0, k, i, base, r);
        InitSlotsStep(w, p.0, k, i, base, r);
        r
  }

  lemma InitSlotsThrew(w: World, w1: World, k: Worker, i: nat, base: Handle, r: Step<()>)
    requires i < 5
    requires FaultAt(w.faults, w.pos).Some?
    requires r.world == w1
    requires SlotsOf(w1, k) == SlotsOf(w, k)
    requires forall j :: j != k ==> SlotsOf(w1, j) == SlotsOf(w, j)
    ensures InitSlotsSpec(w, k, i, base, r)
  {
  }

  lemma InitSlotsStep(w: World, w1: World, k: Worker, i: nat, base: Handle, r: Step<()>)
    requires i < 5
    requires FaultAt(w.faults, w.pos).None?
    requires w1.faults == w.faults && w1.pos == w.pos + 1
    requires var s := SlotsOf(w, k); var s' := SlotsOf(w1, k);
             && s'.playwright == (if i == 0 then Some(base) else s.playwright)
             && s'.browser == (if i == 1 then Some(base + 1) else s.browser)
             && s'.context == (if i == 2 then Some(base + 2) else s.context)
             && s'.page == (if i == 4 then Some(base + 3) else s.page)
    requires forall j :: j != k ==> SlotsOf(w1, j) == SlotsOf(w, j)
    requires InitSlotsSpec(w1, k, i + 1, base, r)
    ensures InitSlotsSpec(w, k, i, base, r)
  {
    FirstFaultStep(w.faults, w.pos, 5 - i);
  }

  lemma InitLogThrew(b: BrowserSettings, w: World, k: Worker, i: nat, base: Handle, log: seq<Event>)
    requires i < 5
    requires FaultAt(w.faults, w.pos).Some?
    requires log == w.log + [Event(k, InitEvents(b, k, base)[i].call, Threw(FaultAt(w.faults, w.pos).value))]
    ensures InitLogSpec(b, w, k, i, base, Step(w.(log := log), Failure(FaultAt(w.faults, w.pos).value)))
  {
  }

  lemma InitLogStep(b: BrowserSettings, w: World, w1: World, k: Worker, i: nat, base: Handle, r: Step<()>)
    requires i < 5
    requires FaultAt(w.faults, w.pos).None?
    requires w1.faults == w.faults && w1.pos == w.pos + 1
    requires w1.log == w.log + [InitEvents(b, k, base)[i]]
    requires InitLogSpec(b, w1, k, i + 1, base, r)
    ensures InitLogSpec(b, w, k, i, base, r)
  {
  }

  lemma InitResultThrew(w: World, i: nat, r: Step<()>)
    requires i < 5
    requires FaultAt(w.faults, w.pos).Some?
    requires r.result == Failure(FaultAt(w.faults, w.pos).value)
    requires r.world.next == w.next && r.world.pos == w.pos + 1 && r.world.faults == w.faults
    ensures InitResultSpec(w, i, r)
  {
  }

  lemma InitResultStep(w: World, w1: World, i: nat, r: Step<()>)
    requires i < 5
    requires FaultAt(w.faults, w.pos).None?
    requires w1.faults == w.faults && w1.pos == w.pos + 1
    requires w1.next == w.next + CreatedBefore(i + 1) - CreatedBefore(i)
    requires InitResultSpec(w1, i + 1, r)
    ensures InitResultSpec(w, i, r)
  {
    InitOutcomeStep(w, w1, i, r);
    InitCountersStep(w, w1, i, r);
  }

  lemma InitOutcomeStep(w: World, w1: World, i: nat, r: Step<()>)
    requires i < 5
    requires FaultAt(w.faults, w.pos).None?
    requires w1.faults == w.faults && w1.pos == w.pos + 1
    requires InitOutcomeSpec(w1, i + 1, r)
    ensures InitOutcomeSpec(w, i, r)
  {
    FirstFaultShift(w.faults, w.pos, w1.pos, 5 - i, 5 - (i + 1));
    var f1 := FirstFault(w1.faults, w1.pos, 5 - (i + 1));
    assert w.pos + (f1 + 1) == w1.pos + f1;
  }

  lemma InitCountersStep(w: World, w1: World, i: nat, r: Step<()>)
    requires i < 5
    requires FaultAt(w.faults, w.pos).None?
    requires w1.faults == w.faults && w1.pos == w.pos + 1
    requires w1.next == w.next + CreatedBefore(i + 1) - CreatedBefore(i)
    requires InitCountersSpec(w1, i + 1, r)
    ensures InitCountersSpec(w, i, r)
  {
    FirstFaultShift(w.faults, w.pos, w1.pos, 5 - i, 5 - (i + 1));
    var f1 := FirstFault(w1.faults, w1.pos, 5 - (i + 1));
    assert i + (f1 + 1) == (i + 1) + f1;
  }

  /** The events of initialisation from call number `i` on, reference definition: call by call,
      stopping after the first that throws. */
  function InitTrace(b: BrowserSettings, k: Worker, base: Handle, fs: Faults, pos: nat, i: nat): seq<Event>
    requires i <= 5
  {
    RunTrace(k, InitEvents(b, k, base), fs, pos, i)
  }

  /** The events of making the calls of `es` from number `i` on, in order, against the outcomes
      from call number `pos` on: a call that returns normally gets its reply from `es`, and the
      first call that throws is logged with its fault and ends the run. */
  function RunTrace(k: Worker, es: seq<Event>, fs: Faults, pos: nat, i: nat): seq<Event>
    requires i <= |es|
    decreases |es| - i
  {
    if i == |es| then []
    else
      match FaultAt(fs, pos)
      case Some(x) => [Event(k, es[i].call, Threw(x))]
      case None => [es[i]] + RunTrace(k, es, fs, pos + 1, i + 1)
  }

  /** The reference trace agrees with the closed form: the events of the fully successful run up
      to the first failing call, which is logged with its exception. */
  lemma InitTraceClosedForm(b: BrowserSettings, k: Worker, base: Handle, fs: Faults, pos: nat, i: nat)
    requires i <= 5
    ensures var f := FirstFault(fs, pos, 5 - i);
            InitTrace(b, k, base, fs, pos, i) == InitLog(b, k, base, FaultAt(fs, pos + f), i + f)[i..]
  {
    RunTraceClosedForm(k, InitEvents(b, k, base), fs, pos, i);
  }

  lemma {:induction false} RunTraceClosedForm(k: Worker, es: seq<Event>, fs: Faults, pos: nat, i: nat)
    requires i <= |es|
    ensures var f := FirstFault(fs, pos, |es| - i);
            RunTrace(k, es, fs, pos, i) == Truncated(k, es, FaultAt(fs, pos + f), i + f)[i..]
    decreases |es| - i
  {
    if i == |es| {
      RunTraceEnd(k, es, fs, pos);
    } else if FaultAt(fs, pos).Some? {
      RunTraceThrew(k, es, fs, pos, i);
    } else {
      RunTraceClosedForm(k, es, fs, pos + 1, i + 1);
      RunTraceReturned(k, es, fs, pos, i);
    }
  }

  /** `RunTraceClosedForm` once every call has been made. */
  lemma RunTraceEnd(k: Worker, es: seq<Event>, fs: Faults, pos: nat)
    ensures var f := FirstFault(fs, pos, 0);
            RunTrace(k, es, fs, pos, |es|) == Truncated(k, es, FaultAt(fs, pos + f), |es| + f)[|es|..]
  {
  }

  /** `RunTraceClosedForm` when call `i` throws. */
  lemma RunTraceThrew(k: Worker, es: seq<Event>, fs: Faults, pos: nat, i: nat)
    requires i < |es| && FaultAt(fs, pos).Some?
    ensures var f := FirstFault(fs, pos, |es| - i);
            RunTrace(k, es, fs, pos, i) == Truncated(k, es, FaultAt(fs, pos + f), i + f)[i..]
  {
    assert FirstFault(fs, pos, |es| - i) == 0;
    TruncatedThrew(k, es, FaultAt(fs, pos), i);
  }

  /** The inductive step of `RunTraceClosedForm` when call `i` returns normally. */
  lemma RunTraceReturned(k: Worker, es: seq<Event>, fs: Faults, pos: nat, i: nat)
    requires i < |es| && FaultAt(fs, pos).None?
    requires var g := FirstFault(fs, pos + 1, |es| - (i + 1));
             RunTrace(k, es, fs, pos + 1, i + 1) == Truncated(k, es, FaultAt(fs, pos + 1 + g), i + 1 + g)[i + 1..]
    ensures var f := FirstFault(fs, pos, |es| - i);
            RunTrace(k, es, fs, pos, i) == Truncated(k, es, FaultAt(fs, pos + f), i + f)[i..]
  {
    FirstFaultStep(fs, pos, |es| - i);
    var g := FirstFault(fs, pos + 1, |es| - (i + 1));
    var f := FirstFault(fs, pos, |es| - i);
    assert f == 1 + g;
    var fault := FaultAt(fs, pos + 1 + g);
    var t := Truncated(k, es, fault, i + 1 + g);
    assert Truncated(k, es, FaultAt(fs, pos + f), i + f) == t;
    TruncatedStep(k, es, fault, i, i + 1 + g);
    assert RunTrace(k, es, fs, pos, i) == [es[i]] + t[i + 1..];
  }

  lemma TruncatedThrew(k: Worker, es: seq<Event>, fault: Option<Fault>, i: nat)
    requires i < |es| && fault.Some?
    ensures Truncated(k, es, fault, i)[i..] == [Event(k, es[i].call, Threw(fault.value))]
  {
  }

  lemma TruncatedStep(k: Worker, es: seq<Event>, fault: Option<Fault>, i: nat, f: nat)
    requires i < f <= |es|
    requires f < |es| ==> fault.Some?
    ensures Truncated(k, es, fault, f)[i..] == [es[i]] + Truncated(k, es, fault, f)[i + 1..]
  {
  }

  /** The three parts of `InitFrom`'s contract for a whole initialisation, that is from call 0. */
  lemma InitResultFromStart(w: World, r: Step<()>)
    requires InitResultSpec(w, 0, r)
    ensures var f := FirstFault(w.faults, w.pos, 5);
            && (r.result.Success? <==> f == 5)
            && (r.result.Failure? ==> FaultAt(w.faults, w.pos + f) == Some(r.result.error))
            && r.world.next == w.next + CreatedBefore(f)
            && r.world.pos == w.pos + (if f == 5 then 5 else f + 1)
            && r.world.faults == w.faults
  {
  }

  lemma InitSlotsFromStart(w: World, k: Worker, r: Step<()>)
    requires InitSlotsSpec(w, k, 0, w.next, r)
    ensures var f := FirstFault(w.faults, w.pos, 5); var s := SlotsOf(w, k); var s' := SlotsOf(r.world, k);
            && s'.playwright == (if f > 0 then Some(w.next) else s.playwright)
            && s'.browser == (if f > 1 then Some(w.next + 1) else s.browser)
            && s'.context == (if f > 2 then Some(w.next + 2) else s.context)
            && s'.page == (if f > 4 then Some(w.next + 3) else s.page)
            && (forall j :: j != k ==> SlotsOf(r.world, j) == SlotsOf(w, j))
  {
  }

  /** `initializeBrowser`: creates Playwright, launches the configured browser, opens a
      1920x1080 context recording video, starts tracing and opens a page. Each created object
      overwrites its slot as soon as it exists; the first failing call throws, leaving the
      slots of the later steps as they were. */
  function InitializeBrowser(c: Config.ConfigManager, w: World, k: Worker): (r: Step<()>)
    ensures r.result.Success? <==> FirstFault(w.faults, w.pos, 5) == 5
    ensures r.result.Failure? ==> FaultAt(w.faults, w.pos + FirstFault(w.faults, w.pos, 5)) == Some(r.result.error)
    ensures r.world.log == w.log + InitTrace(SettingsOf(c), k, w.next, w.faults, w.pos, 0)
    ensures r.world.next == w.next + CreatedBefore(FirstFault(w.faults, w.pos, 5))
    ensures var f := FirstFault(w.faults, w.pos, 5); r.world.pos == w.pos + (if f == 5 then 5 else f + 1)
    ensures r.world.faults == w.faults
    ensures var f := FirstFault(w.faults, w.pos, 5);
            SlotsOf(r.world, k).playwright == (if f > 0 then Some(w.next) else SlotsOf(w, k).playwright)
    ensures var f := FirstFault(w.faults, w.pos, 5);
            SlotsOf(r.world, k).browser == (if f > 1 then Some(w.next + 1) else SlotsOf(w, k).browser)
    ensures var f := FirstFault(w.faults, w.pos, 5);
            SlotsOf(r.world, k).context == (if f > 2 then Some(w.next + 2) else SlotsOf(w, k).context)
    ensures var f := FirstFault(w.faults, w.pos, 5);
            SlotsOf(r.world, k).page == (if f > 4 then Some(w.next + 3) else SlotsOf(w, k).page)
    ensures forall j :: j != k ==> SlotsOf(r.world, j) == SlotsOf(w, j)
  {
    var r := InitFrom(SettingsOf(c), w, k, 0, w.next);
    InitResultFromStart(w, r);
    InitSlotsFromStart(w, k, r);
    r
  }

  /** An initialisation none of whose five calls throws (exactly the successful ones) holds
      the four new objects, in creation order, in the worker's slots. */
  lemma InitializeSucceeded(c: Config.ConfigManager, w: World, k: Worker)
    requires FirstFault(w.faults, w.pos, 5) == 5
    ensures var r := InitializeBrowser(c, w, k);
            && SlotsOf(r.world, k) == Slots(Some(w.next), Some(w.next + 1), Some(w.next + 2), Some(w.next + 3))
            && r.world.next == w.next + 4
            && r.world.pos == w.pos + 5
  {
  }

  /** A successful initialisation logs exactly the five calls of the fully successful run, so
      tracing starts on the new context just before its page is created, and all four slots
      end up set. */
  lemma InitializeSetsAllSlots(c: Config.ConfigManager, w: World, k: Worker)
    requires InitializeBrowser(c, w, k).result.Success?
    ensures InitializeBrowser(c, w, k).world.log == w.log + InitEvents(SettingsOf(c), k, w.next)
    ensures var s := SlotsOf(InitializeBrowser(c, w, k).world, k);
            s.playwright.Some? && s.browser.Some? && s.context.Some? && s.page.Some?
    ensures var r := InitializeBrowser(c, w, k); var s := SlotsOf(r.world, k);
            r.world.log[|w.log| + 3] == Event(k, TracingStart(s.context.value, true, true, true), Done)
    ensures var r := InitializeBrowser(c, w, k); var s := SlotsOf(r.world, k);
            r.world.log[|w.log| + 4] == Event(k, NewPage(s.context.value), Created(s.page.value))
  {
    var r := InitializeBrowser(c, w, k);
    SuccessfulInitTrace(SettingsOf(c), k, w.next, w.faults, w.pos);
    InitializeSucceeded(c, w, k);
  }

  /** When none of the five calls throws, the trace is the fully successful run's. */
  lemma SuccessfulInitTrace(b: BrowserSettings, k: Worker, base: Handle, fs: Faults, pos: nat)
    requires FirstFault(fs, pos, 5) == 5
    ensures InitTrace(b, k, base, fs, pos, 0) == InitEvents(b, k, base)
  {
    InitTraceClosedForm(b, k, base, fs, pos, 0);
    assert InitLog(b, k, base, FaultAt(fs, pos + 5), 5)[0..] == InitEvents(b, k, base);
  }

  // ---------------------------------------------------------------------------
  // Pages

  /** `getPage`: the worker's primary page, initialising first only when the page slot is empty. */
  function GetPage(c: Config.ConfigManager, w: World, k: Worker): (r: Step<Handle>)
    ensures SlotsOf(w, k).page.Some? ==> r == Step(w, Success(SlotsOf(w, k).page.value))
    ensures SlotsOf(w, k).page.None? ==>
              && r.world == InitializeBrowser(c, w, k).world
              && (r.result.Success? <==> InitializeBrowser(c, w, k).result.Success?)
              && (r.result.Success? ==> r.result.value == w.next + 3)
              && (r.result.Failure? ==> InitializeBrowser(c, w, k).result == Failure(r.result.error))
    ensures r.result.Success? ==> SlotsOf(r.world, k).page == Some(r.result.value)
    ensures forall j :: j != k ==> SlotsOf(r.world, j) == SlotsOf(w, j)
  {
    match SlotsOf(w, k).page
    case Some(p) => Step(w, Success(p))
    case None =>
      var init := InitializeBrowser(c, w, k);
      if init.result.Failure? then Step(init.world, Failure(init.result.error))
      else
        InitializeSucceeded(c, w, k);
        Step(init.world, Success(SlotsOf(init.world, k).page.value))
  }

  /** Once `getPage` has returned a page, asking again changes nothing and returns the same page. */
  lemma GetPageIdempotent(c: Config.ConfigManager, w: World, k: Worker)
    requires GetPage(c, w, k).result.Success?
    ensures var r := GetPage(c, w, k);
            GetPage(c, r.world, k) == Step(r.world, Success(r.result.value))
  {
  }

  /** `createNewPage`: opens one more page in the worker's context, initialising first only when
      the context slot is empty; the primary page slot is never replaced by the new page. */
  function CreateNewPage(c: Config.ConfigManager, w: World, k: Worker): (r: Step<Handle>)
    ensures SlotsOf(w, k).context.Some? ==> PageOpened(w, k, SlotsOf(w, k).context.value, r)
    ensures SlotsOf(w, k).context.None? && InitializeBrowser(c, w, k).result.Failure? ==>
              var init := InitializeBrowser(c, w, k);
              r == Step(init.world, Failure(init.result.error))
    ensures SlotsOf(w, k).context.None? && InitializeBrowser(c, w, k).result.Success? ==>
              && SlotsOf(InitializeBrowser(c, w, k).world, k).context == Some(w.next + 2)
              && InitializeBrowser(c, w, k).world.pos == w.pos + 5
              && InitializeBrowser(c, w, k).world.next == w.next + 4
    ensures SlotsOf(w, k).context.None? && InitializeBrowser(c, w, k).result.Success? ==>
              PageOpened(InitializeBrowser(c, w, k).world, k, w.next + 2, r)
    ensures SlotsOf(w, k).context.None? && r.result.Success? ==> r.result.value == w.next + 4
    ensures forall j :: j != k ==> SlotsOf(r.world, j) == SlotsOf(w, j)
  {
    match SlotsOf(w, k).context
    case Some(ctx) => OpenPageIn(w, k, ctx)
    case None =>
      var init := InitializeBrowser(c, w, k);
      if init.result.Failure? then Step(init.world, Failure(init.result.error))
      else
        InitializeSucceeded(c, w, k);
        OpenPageIn(init.world, k, w.next + 2)
  }

  /** `r` is what one `newPage` call on context `ctx` does to `w`: it is logged with its reply,
      uses one outcome, touches no slot, and either hands out the next fresh handle or throws
      that outcome's exception. */
  predicate PageOpened(w: World, k: Worker, ctx: Handle, r: Step<Handle>)
  {
    var outcome := FaultAt(w.faults, w.pos);
    && r.world.slots == w.slots
    && r.world.log == w.log + [Event(k, NewPage(ctx), ReplyTo(w, NewPage(ctx)))]
    && r.world.faults == w.faults && r.world.pos == w.pos + 1
    && (outcome.None? ==> r.result == Success(w.next) && r.world.next == w.next + 1)
    && (outcome.Some? ==> r.result == Failure(outcome.value) && r.world.next == w.next)
  }

  /** `context.newPage()` on context `ctx`: a new page handle, not stored in any slot. */
  function OpenPageIn(w: World, k: Worker, ctx: Handle): (r: Step<Handle>)
    ensures PageOpened(w, k, ctx, r)
  {
    var p := Invoke(w, k, NewPage(ctx));
    if p.1.Threw? then Step(p.0, Failure(p.1.fault)) else Step(p.0, Success(p.1.handle))
  }

  /** The page `createNewPage` returns is a new object, distinct from the primary page. */
  lemma NewPageIsNotPrimary(c: Config.ConfigManager, w: World, k: Worker)
    requires HandlesIssued(w)
    requires CreateNewPage(c, w, k).result.Success?
    ensures var r := CreateNewPage(c, w, k);
            SlotsOf(r.world, k).page.Some? ==> r.result.value != SlotsOf(r.world, k).page.value
  {
  }

  /** `closePage`: closes the primary page if there is one, but leaves it in its slot. */
  function ClosePage(w: World, k: Worker): (r: Step<()>)
    ensures r.world.slots == w.slots && r.world.next == w.next && r.world.faults == w.faults
    ensures SlotsOf(w, k).page.None? ==> r == Step(w, Success(()))
    ensures SlotsOf(w, k).page.Some? ==>
              var call := PageClose(SlotsOf(w, k).page.value);
              && r.world.log == w.log + [Event(k, call, ReplyTo(w, call))]
              && r.world.pos == w.pos + 1
              && (r.result.Failure? <==> FaultAt(w.faults, w.pos).Some?)
              && (r.result.Failure? ==> FaultAt(w.faults, w.pos) == Some(r.result.error))
  {
    match SlotsOf(w, k).page
    case None => Step(w, Success(()))
    case Some(p) =>
      var i := Invoke(w, k, PageClose(p));
      if i.1.Threw? then Step(i.0, Failure(i.1.fault)) else Step(i.0, Success(()))
  }

  /** After `closePage`, `getPage` still answers the closed page without initialising again. */
  lemma GetPageAfterClosePage(c: Config.ConfigManager, w: World, k: Worker)
    requires SlotsOf(w, k).page.Some?
    ensures var closed := ClosePage(w, k).world;
            GetPage(c, closed, k) == Step(closed, Success(SlotsOf(w, k).page.value))
  {
  }

  /** Where a screenshot named `name` is written. */
  function ScreenshotPath(name: string): (path: string)
    ensures |path| == |ScreenshotDir| + |name| + |ScreenshotSuffix|
    ensures path[..|ScreenshotDir|] == ScreenshotDir
    ensures path[|ScreenshotDir|..|ScreenshotDir| + |name|] == name
    ensures path[|ScreenshotDir| + |name|..] == ScreenshotSuffix
  {
    ScreenshotDir + name + ScreenshotSuffix
  }

  /** Different screenshot names never share a file. */
  lemma ScreenshotPathInjective(a: string, b: string)
    requires ScreenshotPath(a) == ScreenshotPath(b)
    ensures a == b
  {
    var p := ScreenshotPath(a);
    assert a == p[|ScreenshotDir|..|p| - |ScreenshotSuffix|];
  }

  /** `takeScreenshot(name)`: with no page, nothing happens; otherwise one full-page capture to
      the screenshot path, then exactly one PNG attachment called `name`. A failed capture
      throws and nothing is attached. */
  function TakeScreenshot(w: World, k: Worker, name: string): (r: Step<()>)
    ensures r.world.slots == w.slots && r.world.next == w.next && r.world.faults == w.faults
    ensures SlotsOf(w, k).page.Some? ==> r.world.pos == w.pos + 1
    ensures SlotsOf(w, k).page.None? ==> r == Step(w, Success(()))
    ensures SlotsOf(w, k).page.Some? ==>
              var shot := PageScreenshot(SlotsOf(w, k).page.value, ScreenshotPath(name), true);
              var outcome := FaultAt(w.faults, w.pos);
              && (outcome.None? ==>
                    && r.result.Success?
                    && r.world.log == w.log + [Event(k, shot, Done), Event(k, AddAttachment(name, PngMimeType, PngExtension), Done)])
              && (outcome.Some? ==>
                    && r.result == Failure(outcome.value)
                    && r.world.log == w.log + [Event(k, shot, Threw(outcome.value))])
  {
    match SlotsOf(w, k).page
    case None => Step(w, Success(()))
    case Some(p) =>
      var i := Invoke(w, k, PageScreenshot(p, ScreenshotPath(name), true));
      if i.1.Threw? then Step(i.0, Failure(i.1.fault))
      else Step(i.0.(log := i.0.log + [Event(k, AddAttachment(name, PngMimeType, PngExtension), Done)]), Success(()))
  }

  // ---------------------------------------------------------------------------
  // Teardown

  /** The five guarded steps of `closeBrowser`, in the order the code runs them. */
  datatype Stage = StopTracingStage | PageStage | ContextStage | BrowserStage | PlaywrightStage

  const TeardownOrder: seq<Stage> := [StopTracingStage, PageStage, ContextStage, BrowserStage, PlaywrightStage]

  datatype Field = PlaywrightField | BrowserField | ContextField | PageField

  /** The slot whose presence guards a stage. */
  function Reads(st: Stage): Field
  {
    match st
    case StopTracingStage => ContextField
    case PageStage => PageField
    case ContextStage => ContextField
    case BrowserStage => BrowserField
    case PlaywrightStage => PlaywrightField
  }

  /** The slot a stage empties once its call has succeeded. */
  function Clears(st: Stage): Option<Field>
  {
    match st
    case StopTracingStage => None
    case PageStage => Some(PageField)
    case ContextStage => Some(ContextField)
    case BrowserStage => Some(BrowserField)
    case PlaywrightStage => Some(PlaywrightField)
  }

  function Get(s: Slots, f: Field): Option<Handle>
  {
    match f
    case PlaywrightField => s.playwright
    case BrowserField => s.browser
    case ContextField => s.context
    case PageField => s.page
  }

  function Clear(s: Slots, f: Field): (r: Slots)
    ensures Get(r, f) == None
    ensures forall g :: g != f ==> Get(r, g) == Get(s, g)
  {
    match f
    case PlaywrightField => s.(playwright := None)
    case BrowserField => s.(browser := None)
    case ContextField => s.(context := None)
    case PageField => s.(page := None)
  }

  function AfterStage(s: Slots, st: Stage): Slots
  {
    match Clears(st)
    case None => s
    case Some(f) => Clear(s, f)
  }

  function StageCall(st: Stage, h: Handle): Call
  {
    match st
    case StopTracingStage => TracingStop(h, TracePath)
    case PageStage => PageClose(h)
    case ContextStage => ContextClose(h)
    case BrowserStage => BrowserClose(h)
    case PlaywrightStage => PlaywrightClose(h)
  }

  /** No stage empties a slot that a later stage is guarded by. */
  predicate Independent(stages: seq<Stage>)
  {
    forall i, j :: 0 <= i < j < |stages| ==> Clears(stages[i]) != Some(Reads(stages[j]))
  }

  /** Runs the guarded stages in order: a stage whose slot is empty is skipped; a call that throws
      ends the run (the exception is caught by `closeBrowser` and only logged); a call that
      succeeds empties the stage's slot. */
  function RunStages(w: World, k: Worker, stages: seq<Stage>): World
    decreases |stages|
  {
    if |stages| == 0 then w
    else
      var st := stages[0];
      match Get(SlotsOf(w, k), Reads(st))
      case None => RunStages(w, k, stages[1..])
      case Some(h) =>
        var i := Invoke(w, k, StageCall(st, h));
        if i.1.Threw? then i.0 else RunStages(AfterSuccess(w, k, st, h), k, stages[1..])
  }

  /** The calls the stages make when none of them fails, read off the slots as they were before. */
  function PlanOf(s: Slots, stages: seq<Stage>): seq<Call>
    decreases |stages|
  {
    if |stages| == 0 then []
    else
      StagePlan(s, stages[0]) + PlanOf(s, stages[1..])
  }

  /** The call stage `st` makes, if its slot is set. */
  function StagePlan(s: Slots, st: Stage): seq<Call>
  {
    match Get(s, Reads(st))
    case None => []
    case Some(h) => [StageCall(st, h)]
  }

  /** `closeBrowser`'s calls when nothing fails: the calls of its stages, in code order, read off
      the slots as they were before. */
  function TeardownPlan(s: Slots): seq<Call>
  {
    PlanOf(s, TeardownOrder)
  }

  /** The slots left once the given close calls have succeeded. */
  function ClearedBy(s: Slots, calls: seq<Call>): Slots
    decreases |calls|
  {
    if |calls| == 0 then s else ClearedBy(AfterCall(s, calls[0]), calls[1..])
  }

  /** The slot a successful close call empties (`remove()` after `close()`). */
  function AfterCall(s: Slots, c: Call): Slots
  {
    match c
    case PageClose(_) => s.(page := None)
    case ContextClose(_) => s.(context := None)
    case BrowserClose(_) => s.(browser := None)
    case PlaywrightClose(_) => s.(playwright := None)
    case _ => s
  }

  function DoneEvents(k: Worker, calls: seq<Call>): (es: seq<Event>)
    ensures |es| == |calls|
    ensures forall i :: 0 <= i < |calls| ==> es[i] == Event(k, calls[i], Done)
  {
    seq(|calls|, i requires 0 <= i < |calls| => Event(k, calls[i], Done))
  }

  /** The events of running `plan` against the outcomes `fs`, whose first failure is at `n`. */
  function TeardownLog(k: Worker, plan: seq<Call>, fault: Option<Fault>, n: nat): seq<Event>
    requires n <= |plan|
    requires n < |plan| ==> fault.Some?
  {
    DoneEvents(k, plan[..n]) + (if n < |plan| then [Event(k, plan[n], Threw(fault.value))] else [])
  }

  lemma PlanOfFrame(s: Slots, s': Slots, stages: seq<Stage>)
    requires forall i :: 0 <= i < |stages| ==> Get(s, Reads(stages[i])) == Get(s', Reads(stages[i]))
    ensures PlanOf(s, stages) == PlanOf(s', stages)
    decreases |stages|
  {
    if |stages| > 0 {
      PlanOfFrame(s, s', stages[1..]);
    }
  }

  /** What running the stages does, stated against the plan read off the slots beforehand. */
  ghost predicate RunMatchesPlan(w: World, k: Worker, stages: seq<Stage>)
  {
    LogMatchesPlan(w, k, stages) && SlotsMatchPlan(w, k, stages) && CountersMatchPlan(w, k, stages)
  }

  /** The calls made are the plan up to and including the first failing one. */
  ghost predicate LogMatchesPlan(w: World, k: Worker, stages: seq<Stage>)
  {
    LogFits(w.log, RunStages(w, k, stages).log, k, PlanOf(SlotsOf(w, k), stages), w.faults, w.pos)
  }

  /** `after` is `before` followed by the events of running `plan` against the outcomes from
      call number `pos` on. */
  ghost predicate LogFits(before: seq<Event>, after: seq<Event>, k: Worker, plan: seq<Call>, fs: Faults, pos: nat)
  {
    var n := FirstFault(fs, pos, |plan|);
    after == before + TeardownLog(k, plan, FaultAt(fs, pos + n), n)
  }

  /** Exactly the slots whose close call succeeded are emptied. */
  ghost predicate SlotsMatchPlan(w: World, k: Worker, stages: seq<Stage>)
  {
    SlotsFit(w, RunStages(w, k, stages), k, PlanOf(SlotsOf(w, k), stages))
  }

  /** From `w` to `r`, worker `k`'s slots lost exactly those emptied by the calls of `plan` up
      to the first failing one, and no other worker's slots changed. */
  ghost predicate SlotsFit(w: World, r: World, k: Worker, plan: seq<Call>)
  {
    var n := FirstFault(w.faults, w.pos, |plan|);
    && SlotsOf(r, k) == ClearedBy(SlotsOf(w, k), plan[..n])
    && (forall j :: j != k ==> SlotsOf(r, j) == SlotsOf(w, j))
  }

  /** One outcome is used per call made, and nothing is created. */
  ghost predicate CountersMatchPlan(w: World, k: Worker, stages: seq<Stage>)
  {
    CountersFit(w, RunStages(w, k, stages), PlanOf(SlotsOf(w, k), stages))
  }

  ghost predicate CountersFit(w: World, r: World, plan: seq<Call>)
  {
    var n := FirstFault(w.faults, w.pos, |plan|);
    && r.pos == w.pos + (if n < |plan| then n + 1 else n)
    && r.faults == w.faults
    && r.next == w.next
  }

  /** The world after stage `st` closed object `h` successfully. */
  function AfterSuccess(w: World, k: Worker, st: Stage, h: Handle): World
  {
    SetSlots(Invoke(w, k, StageCall(st, h)).0, k, AfterStage(SlotsOf(w, k), st))
  }

  lemma {:induction false} RunStagesSpec(w: World, k: Worker, stages: seq<Stage>)
    requires Independent(stages)
    ensures RunMatchesPlan(w, k, stages)
    decreases |stages|
  {
    if |stages| > 0 {
      var s := SlotsOf(w, k);
      var st := stages[0];
      var rest := stages[1..];
      assert Independent(rest) by {
        forall i, j | 0 <= i < j < |rest| ensures Clears(rest[i]) != Some(Reads(rest[j])) {
          assert rest[i] == stages[i + 1] && rest[j] == stages[j + 1];
        }
      }
      match Get(s, Reads(st))
      case None =>
        RunStagesSpec(w, k, rest);
        RunStagesSkipped(w, k, stages);
      case Some(h) =>
        if FaultAt(w.faults, w.pos).Some? {
          RunStagesThrew(w, k, stages, h);
        } else {
          RunStagesSpec(AfterSuccess(w, k, st, h), k, rest);
          RunStagesClosed(w, k, stages, h);
        }
    }
  }

  lemma RunStagesSkipped(w: World, k: Worker, stages: seq<Stage>)
    requires |stages| > 0
    requires Get(SlotsOf(w, k), Reads(stages[0])).None?
    requires RunMatchesPlan(w, k, stages[1..])
    ensures RunMatchesPlan(w, k, stages)
  {
    assert PlanOf(SlotsOf(w, k), stages) == PlanOf(SlotsOf(w, k), stages[1..]);
    assert RunStages(w, k, stages) == RunStages(w, k, stages[1..]);
  }

  lemma RunStagesThrew(w: World, k: Worker, stages: seq<Stage>, h: Handle)
    requires |stages| > 0
    requires Get(SlotsOf(w, k), Reads(stages[0])) == Some(h)
    requires FaultAt(w.faults, w.pos).Some?
    ensures RunMatchesPlan(w, k, stages)
  {
    var c := StageCall(stages[0], h);
    var rest := PlanOf(SlotsOf(w, k), stages[1..]);
    assert PlanOf(SlotsOf(w, k), stages) == [c] + rest;
    var r := Invoke(w, k, c).0;
    assert r.log == w.log + [Event(k, c, Threw(FaultAt(w.faults, w.pos).value))];
    assert RunStages(w, k, stages) == r;
    ThrewFits(w, r, k, c, rest);
  }

  /** `RunStagesThrew` on worlds taken apart: the first call of the plan throws. */
  lemma ThrewFits(w: World, r: World, k: Worker, c: Call, rest: seq<Call>)
    requires FaultAt(w.faults, w.pos).Some?
    requires r.log == w.log + [Event(k, c, Threw(FaultAt(w.faults, w.pos).value))]
    requires r.slots == w.slots && r.faults == w.faults && r.pos == w.pos + 1 && r.next == w.next
    ensures LogFits(w.log, r.log, k, [c] + rest, w.faults, w.pos)
    ensures SlotsFit(w, r, k, [c] + rest)
    ensures CountersFit(w, r, [c] + rest)
  {
    var plan := [c] + rest;
    assert FirstFault(w.faults, w.pos, |plan|) == 0;
    assert plan[..0] == [];
    assert TeardownLog(k, plan, FaultAt(w.faults, w.pos), 0) == [Event(k, c, Threw(FaultAt(w.faults, w.pos).value))];
  }

  lemma RunStagesClosed(w: World, k: Worker, stages: seq<Stage>, h: Handle)
    requires |stages| > 0
    requires Independent(stages)
    requires Get(SlotsOf(w, k), Reads(stages[0])) == Some(h)
    requires FaultAt(w.faults, w.pos).None?
    requires RunMatchesPlan(AfterSuccess(w, k, stages[0], h), k, stages[1..])
    ensures RunMatchesPlan(w, k, stages)
  {
    ClosedLog(w, k, stages, h);
    ClosedSlots(w, k, stages, h);
    ClosedCounters(w, k, stages, h);
  }

  /** The facts shared by the three parts of `RunStagesClosed`. */
  lemma ClosedStep(w: World, k: Worker, stages: seq<Stage>, h: Handle)
    requires |stages| > 0
    requires Independent(stages)
    requires Get(SlotsOf(w, k), Reads(stages[0])) == Some(h)
    requires FaultAt(w.faults, w.pos).None?
    ensures var s := SlotsOf(w, k); var c := StageCall(stages[0], h);
            var w1 := AfterSuccess(w, k, stages[0], h);
            var plan := PlanOf(s, stages); var plan1 := PlanOf(SlotsOf(w1, k), stages[1..]);
            && plan == [c] + plan1
            && SlotsOf(w1, k) == AfterCall(s, c)
            && w1.log == w.log + [Event(k, c, Done)]
            && w1.pos == w.pos + 1 && w1.faults == w.faults && w1.next == w.next
            && (forall j :: j != k ==> SlotsOf(w1, j) == SlotsOf(w, j))
            && RunStages(w, k, stages) == RunStages(w1, k, stages[1..])
            && FirstFault(w.faults, w.pos, |plan|) == 1 + FirstFault(w1.faults, w1.pos, |plan1|)
  {
    var s := SlotsOf(w, k);
    var st := stages[0];
    var rest := stages[1..];
    var c := StageCall(st, h);
    var s1 := AfterStage(s, st);
    assert !Creates(c);
    AfterStageCall(s, st, h);
    forall m | 0 <= m < |rest|
      ensures Get(s, Reads(rest[m])) == Get(s1, Reads(rest[m]))
    {
      assert rest[m] == stages[m + 1];
    }
    PlanOfFrame(s, s1, rest);
    FirstFaultStep(w.faults, w.pos, |PlanOf(s, stages)|);
  }

  lemma ClosedLog(w: World, k: Worker, stages: seq<Stage>, h: Handle)
    requires |stages| > 0
    requires Independent(stages)
    requires Get(SlotsOf(w, k), Reads(stages[0])) == Some(h)
    requires FaultAt(w.faults, w.pos).None?
    requires LogMatchesPlan(AfterSuccess(w, k, stages[0], h), k, stages[1..])
    ensures LogMatchesPlan(w, k, stages)
  {
    ClosedStep(w, k, stages, h);
    var w1 := AfterSuccess(w, k, stages[0], h);
    LogStep(w, w1, k, StageCall(stages[0], h), PlanOf(SlotsOf(w1, k), stages[1..]),
            RunStages(w1, k, stages[1..]).log);
  }

  /** `ClosedLog` on worlds taken apart: one successful call in front of a run that fits. */
  lemma LogStep(w: World, w1: World, k: Worker, c: Call, plan1: seq<Call>, after: seq<Event>)
    requires FaultAt(w.faults, w.pos).None?
    requires w1.log == w.log + [Event(k, c, Done)]
    requires w1.pos == w.pos + 1 && w1.faults == w.faults
    requires LogFits(w1.log, after, k, plan1, w1.faults, w1.pos)
    ensures LogFits(w.log, after, k, [c] + plan1, w.faults, w.pos)
  {
    LogCons(w.log, w1.log, after, k, c, plan1, w.faults, w.pos);
  }

  /** The log step of `ClosedLog`, on the sequences alone. */
  lemma LogCons(log: seq<Event>, log1: seq<Event>, log2: seq<Event>, k: Worker, c: Call, plan: seq<Call>, fs: Faults, pos: nat)
    requires FaultAt(fs, pos).None?
    requires log1 == log + [Event(k, c, Done)]
    requires LogFits(log1, log2, k, plan, fs, pos + 1)
    ensures LogFits(log, log2, k, [c] + plan, fs, pos)
  {
    FirstFaultStep(fs, pos, |[c] + plan|);
    var n := FirstFault(fs, pos + 1, |plan|);
    assert pos + (n + 1) == (pos + 1) + n;
    TeardownLogCons(k, c, plan, FaultAt(fs, pos + 1 + n), n);
  }

  lemma ClosedSlots(w: World, k: Worker, stages: seq<Stage>, h: Handle)
    requires |stages| > 0
    requires Independent(stages)
    requires Get(SlotsOf(w, k), Reads(stages[0])) == Some(h)
    requires FaultAt(w.faults, w.pos).None?
    requires SlotsMatchPlan(AfterSuccess(w, k, stages[0], h), k, stages[1..])
    ensures SlotsMatchPlan(w, k, stages)
  {
    ClosedStep(w, k, stages, h);
    var w1 := AfterSuccess(w, k, stages[0], h);
    var plan1 := PlanOf(SlotsOf(w1, k), stages[1..]);
    var n1 := FirstFault(w1.faults, w1.pos, |plan1|);
    ClearedByCons(SlotsOf(w, k), StageCall(stages[0], h), plan1, n1);
  }

  lemma ClosedCounters(w: World, k: Worker, stages: seq<Stage>, h: Handle)
    requires |stages| > 0
    requires Independent(stages)
    requires Get(SlotsOf(w, k), Reads(stages[0])) == Some(h)
    requires FaultAt(w.faults, w.pos).None?
    requires CountersMatchPlan(AfterSuccess(w, k, stages[0], h), k, stages[1..])
    ensures CountersMatchPlan(w, k, stages)
  {
    ClosedStep(w, k, stages, h);
  }

  lemma AfterStageCall(s: Slots, st: Stage, h: Handle)
    ensures AfterCall(s, StageCall(st, h)) == AfterStage(s, st)
  {
  }

  lemma ClearedByCons(s: Slots, c: Call, plan: seq<Call>, n: nat)
    requires n <= |plan|
    ensures ClearedBy(s, ([c] + plan)[..n + 1]) == ClearedBy(AfterCall(s, c), plan[..n])
  {
    var xs := ([c] + plan)[..n + 1];
    assert xs[0] == c && xs[1..] == plan[..n];
  }

  lemma TeardownLogCons(k: Worker, c: Call, plan: seq<Call>, fault: Option<Fault>, n: nat)
    requires n <= |plan|
    requires n < |plan| ==> fault.Some?
    ensures TeardownLog(k, [c] + plan, fault, n + 1) == [Event(k, c, Done)] + TeardownLog(k, plan, fault, n)
  {
    assert ([c] + plan)[..n + 1] == [c] + plan[..n];
    assert DoneEvents(k, [c] + plan[..n]) == [Event(k, c, Done)] + DoneEvents(k, plan[..n]);
  }

  /** The teardown plan spelled out: stop tracing, then close page, context, browser and
      Playwright, each only when its slot is set. */
  lemma TeardownPlanSpelledOut(s: Slots)
    ensures TeardownPlan(s) ==
              (if s.context.Some? then [TracingStop(s.context.value, TracePath)] else [])
              + (if s.page.Some? then [PageClose(s.page.value)] else [])
              + (if s.context.Some? then [ContextClose(s.context.value)] else [])
              + (if s.browser.Some? then [BrowserClose(s.browser.value)] else [])
              + (if s.playwright.Some? then [PlaywrightClose(s.playwright.value)] else [])
  {
    var o := TeardownOrder;
    PlanOfFive(s, o);
    assert o[0] == StopTracingStage && o[1] == PageStage && o[2] == ContextStage && o[3] == BrowserStage
        && o[4] == PlaywrightStage;
  }

  lemma PlanOfFive(s: Slots, stages: seq<Stage>)
    requires |stages| == 5
    ensures PlanOf(s, stages) == StagePlan(s, stages[0]) + StagePlan(s, stages[1]) + StagePlan(s, stages[2])
                                 + StagePlan(s, stages[3]) + StagePlan(s, stages[4])
  {
    var t1 := stages[1..]; var t2 := t1[1..]; var t3 := t2[1..]; var t4 := t3[1..];
    PlanOfCons(s, stages);
    PlanOfCons(s, t1);
    PlanOfCons(s, t2);
    PlanOfCons(s, t3);
    PlanOfCons(s, t4);
    assert t4[1..] == [];
    assert t1[0] == stages[1] && t2[0] == stages[2] && t3[0] == stages[3] && t4[0] == stages[4];
  }

  /** The plan of a non-empty list of stages: the first stage's call, if its slot is set, then
      the plan of the rest. */
  lemma PlanOfCons(s: Slots, stages: seq<Stage>)
    requires |stages| > 0
    ensures PlanOf(s, stages) == StagePlan(s, stages[0]) + PlanOf(s, stages[1..])
  {
  }

  lemma TeardownOrderIndependent()
    ensures Independent(TeardownOrder)
  {
  }

  /** Used by `CloseBrowser`: the stages in `closeBrowser`'s order make the calls of the
      teardown plan up to and including the first failing one. */
  lemma TeardownLogFacts(w: World, k: Worker)
    ensures LogFits(w.log, RunStages(w, k, TeardownOrder).log, k, TeardownPlan(SlotsOf(w, k)), w.faults, w.pos)
  {
    TeardownOrderIndependent();
    RunStagesSpec(w, k, TeardownOrder);
    assert LogMatchesPlan(w, k, TeardownOrder);
  }

  /** Used by `CloseBrowser`: the stages empty exactly the slots whose close call succeeded. */
  lemma TeardownSlotsFacts(w: World, k: Worker)
    ensures SlotsFit(w, RunStages(w, k, TeardownOrder), k, TeardownPlan(SlotsOf(w, k)))
  {
    TeardownOrderIndependent();
    RunStagesSpec(w, k, TeardownOrder);
    assert SlotsMatchPlan(w, k, TeardownOrder);
  }

  /** Used by `CloseBrowser`: the stages use one outcome per call made and create nothing. */
  lemma TeardownCountersFacts(w: World, k: Worker)
    ensures CountersFit(w, RunStages(w, k, TeardownOrder), TeardownPlan(SlotsOf(w, k)))
  {
    TeardownOrderIndependent();
    RunStagesSpec(w, k, TeardownOrder);
    assert CountersMatchPlan(w, k, TeardownOrder);
  }

  /** `closeBrowser`: the guarded steps run in the order stop tracing, close page, close context,
      close browser, close Playwright; each empties its slot once its call succeeds. The first
      call that throws ends the teardown and the exception does not escape (the result is only
      a world): the calls made are the plan up to and including the first failing one, only
      the slots of the successful close calls are emptied, and one outcome is used per call
      made. */
  function CloseBrowser(w: World, k: Worker): (r: World)
    ensures LogFits(w.log, r.log, k, TeardownPlan(SlotsOf(w, k)), w.faults, w.pos)
    ensures SlotsFit(w, r, k, TeardownPlan(SlotsOf(w, k)))
    ensures CountersFit(w, r, TeardownPlan(SlotsOf(w, k)))
  {
    TeardownLogFacts(w, k);
    TeardownSlotsFacts(w, k);
    TeardownCountersFacts(w, k);
    RunStages(w, k, TeardownOrder)
  }

  /** Every close call of the plan empties its slot: a teardown in which nothing fails leaves
      the worker with no slots set. */
  lemma ClearedByWholePlan(s: Slots)
    ensures ClearedBy(s, TeardownPlan(s)) == NoSlots
  {
    var r := ClearedBy(s, TeardownPlan(s));
    SlotClearedByWholePlan(s, PlaywrightField);
    SlotClearedByWholePlan(s, BrowserField);
    SlotClearedByWholePlan(s, ContextField);
    SlotClearedByWholePlan(s, PageField);
    assert r.playwright == Get(r, PlaywrightField) && r.browser == Get(r, BrowserField);
    assert r.context == Get(r, ContextField) && r.page == Get(r, PageField);
  }

  lemma SlotClearedByWholePlan(s: Slots, f: Field)
    ensures Get(ClearedBy(s, TeardownPlan(s)), f) == None
  {
    var o := TeardownOrder;
    var i := match f
      case PageField => 1
      case ContextField => 2
      case BrowserField => 3
      case PlaywrightField => 4;
    assert Reads(o[i]) == f && Clears(o[i]) == Some(f);
    ClearedByGet(s, TeardownPlan(s), f);
    if Get(s, f).Some? {
      PlanOfContains(s, o, i);
      assert Empties(StageCall(o[i], Get(s, f).value), f);
    }
  }

  /** Whether call `c` is the close call that empties slot `f`. */
  predicate Empties(c: Call, f: Field)
  {
    match f
    case PlaywrightField => c.PlaywrightClose?
    case BrowserField => c.BrowserClose?
    case ContextField => c.ContextClose?
    case PageField => c.PageClose?
  }

  lemma AfterCallGet(s: Slots, c: Call, f: Field)
    ensures Get(AfterCall(s, c), f) == if Empties(c, f) then None else Get(s, f)
  {
  }

  /** After a run of successful calls, a slot is empty exactly when one of the calls empties it
      or it was empty before; otherwise it is unchanged. */
  lemma {:induction false} ClearedByGet(s: Slots, calls: seq<Call>, f: Field)
    ensures Get(ClearedBy(s, calls), f) == if exists c :: c in calls && Empties(c, f) then None else Get(s, f)
    decreases |calls|
  {
    if |calls| > 0 {
      var rest := calls[1..];
      ClearedByGet(AfterCall(s, calls[0]), rest, f);
      AfterCallGet(s, calls[0], f);
      assert calls == [calls[0]] + rest;
      if exists c :: c in rest && Empties(c, f) {
        var c :| c in rest && Empties(c, f);
        assert c in calls;
      }
    }
  }

  /** Every stage whose slot is set contributes its call to the plan. */
  lemma {:induction false} PlanOfContains(s: Slots, stages: seq<Stage>, i: nat)
    requires i < |stages|
    requires Get(s, Reads(stages[i])).Some?
    ensures StageCall(stages[i], Get(s, Reads(stages[i])).value) in PlanOf(s, stages)
    decreases i
  {
    PlanOfCons(s, stages);
    if i > 0 {
      assert stages[1..][i - 1] == stages[i];
      PlanOfContains(s, stages[1..], i - 1);
    }
  }

  /** With no failing call, teardown makes every planned call and empties all four slots. */
  lemma CloseBrowserClean(w: World, k: Worker)
    requires forall j: nat :: w.pos <= j < w.pos + |TeardownPlan(SlotsOf(w, k))| ==> FaultAt(w.faults, j).None?
    ensures var r := CloseBrowser(w, k);
            && SlotsOf(r, k) == NoSlots
            && r.log == w.log + DoneEvents(k, TeardownPlan(SlotsOf(w, k)))
  {
    var plan := TeardownPlan(SlotsOf(w, k));
    FirstFaultUnique(w.faults, w.pos, |plan|, |plan|);
    assert plan[..|plan|] == plan;
    ClearedByWholePlan(SlotsOf(w, k));
  }

  /** Tracing is stopped before the page is closed, and the page before its context. */
  lemma TeardownOrdering(s: Slots)
    requires s.context.Some? && s.page.Some?
    ensures var plan := TeardownPlan(s);
            && plan[0] == TracingStop(s.context.value, TracePath)
            && plan[1] == PageClose(s.page.value)
            && plan[2] == ContextClose(s.context.value)
  {
    TeardownPlanSpelledOut(s);
  }

  /** Teardown of a worker with no slots set does nothing at all. */
  lemma CloseBrowserOnEmptyIsNoOp(w: World, k: Worker)
    requires SlotsOf(w, k) == NoSlots
    ensures CloseBrowser(w, k) == w
  {
    RunStagesSkipsEmpty(w, k, TeardownOrder);
  }

  lemma {:induction false} RunStagesSkipsEmpty(w: World, k: Worker, stages: seq<Stage>)
    requires SlotsOf(w, k) == NoSlots
    ensures RunStages(w, k, stages) == w
    decreases |stages|
  {
    if |stages| > 0 {
      RunStagesSkipsEmpty(w, k, stages[1..]);
    }
  }

  /** A second teardown right after one in which nothing failed does nothing. */
  lemma CloseBrowserTwice(w: World, k: Worker)
    requires forall j: nat :: w.pos <= j < w.pos + |TeardownPlan(SlotsOf(w, k))| ==> FaultAt(w.faults, j).None?
    ensures var once := CloseBrowser(w, k);
            CloseBrowser(once, k) == once
  {
    CloseBrowserClean(w, k);
    CloseBrowserOnEmptyIsNoOp(CloseBrowser(w, k), k);
  }

  /** No two stages empty the same slot. */
  predicate ClearsDistinct(stages: seq<Stage>)
  {
    forall i, j :: 0 <= i < j < |stages| && Clears(stages[i]).Some? ==> Clears(stages[i]) != Clears(stages[j])
  }

  lemma TeardownOrderClearsDistinct()
    ensures ClearsDistinct(TeardownOrder)
  {
  }

  /** A stage's call empties exactly the slot the stage clears, and that slot is the one
      guarding the stage. */
  lemma StageCallEmpties(st: Stage, h: Handle, f: Field)
    ensures Empties(StageCall(st, h), f) <==> Clears(st) == Some(f)
    ensures Clears(st) == Some(f) ==> Reads(st) == f
  {
  }

  /** A planned call that empties slot `f` comes from a stage that clears `f`, so `f` was set. */
  lemma {:induction false} PlanOfEmptier(s: Slots, stages: seq<Stage>, c: Call, f: Field)
    requires c in PlanOf(s, stages) && Empties(c, f)
    ensures Get(s, f).Some?
    ensures exists i :: 0 <= i < |stages| && Clears(stages[i]) == Some(f)
    decreases |stages|
  {
    PlanOfCons(s, stages);
    var st := stages[0];
    if c in StagePlan(s, st) {
      StageCallEmpties(st, Get(s, Reads(st)).value, f);
      assert Clears(stages[0]) == Some(f);
    } else {
      PlanOfEmptier(s, stages[1..], c, f);
      var i :| 0 <= i < |stages[1..]| && Clears(stages[1..][i]) == Some(f);
      assert Clears(stages[i + 1]) == Some(f);
    }
  }

  /** With distinct cleared slots, at most one planned call empties a given slot. */
  lemma {:induction false} PlanEmptiesOnce(s: Slots, stages: seq<Stage>, f: Field, i: nat, j: nat)
    requires ClearsDistinct(stages)
    requires i < j < |PlanOf(s, stages)| && Empties(PlanOf(s, stages)[j], f)
    ensures !Empties(PlanOf(s, stages)[i], f)
    decreases |stages|
  {
    PlanOfCons(s, stages);
    var head := StagePlan(s, stages[0]);
    var rest := PlanOf(s, stages[1..]);
    assert ClearsDistinct(stages[1..]) by {
      forall a, b | 0 <= a < b < |stages[1..]| && Clears(stages[1..][a]).Some?
        ensures Clears(stages[1..][a]) != Clears(stages[1..][b])
      {
        assert stages[1..][a] == stages[a + 1] && stages[1..][b] == stages[b + 1];
      }
    }
    if i < |head| {
      // the head's call and a later one would both come from stages clearing `f`
      StageCallEmpties(stages[0], Get(s, Reads(stages[0])).value, f);
      assert rest[j - |head|] == PlanOf(s, stages)[j];
      PlanOfEmptier(s, stages[1..], rest[j - |head|], f);
    } else {
      assert rest[i - |head|] == PlanOf(s, stages)[i] && rest[j - |head|] == PlanOf(s, stages)[j];
      PlanEmptiesOnce(s, stages[1..], f, i - |head|, j - |head|);
    }
  }

  /** When teardown stops at a failing call, the slot of that step and of every later step is
      still set, as it was before: only the close calls before the failure took effect. */
  lemma FailedTeardownKeepsLaterSlots(w: World, k: Worker)
    requires var plan := TeardownPlan(SlotsOf(w, k));
             FirstFault(w.faults, w.pos, |plan|) < |plan|
    ensures var s := SlotsOf(w, k); var plan := TeardownPlan(s); var n := FirstFault(w.faults, w.pos, |plan|);
            forall m, f :: n <= m < |plan| && Empties(plan[m], f) ==>
              Get(SlotsOf(CloseBrowser(w, k), k), f) == Get(s, f) && Get(s, f).Some?
    ensures var plan := TeardownPlan(SlotsOf(w, k)); var n := FirstFault(w.faults, w.pos, |plan|);
            && CloseBrowser(w, k).log[|w.log| + n].reply.Threw?
            && |CloseBrowser(w, k).log| == |w.log| + n + 1
  {
    var s := SlotsOf(w, k);
    var plan := TeardownPlan(s);
    var n := FirstFault(w.faults, w.pos, |plan|);
    forall m, f | n <= m < |plan| && Empties(plan[m], f)
      ensures Get(ClearedBy(s, plan[..n]), f) == Get(s, f) && Get(s, f).Some?
    {
      ClearedPrefixKeepsLater(s, n, m, f);
    }
  }

  /** Used by `FailedTeardownKeepsLaterSlots`: after the first `n` planned calls succeeded, a
      slot that a later call empties is untouched and set. */
  lemma ClearedPrefixKeepsLater(s: Slots, n: nat, m: nat, f: Field)
    requires n <= m < |TeardownPlan(s)| && Empties(TeardownPlan(s)[m], f)
    ensures Get(ClearedBy(s, TeardownPlan(s)[..n]), f) == Get(s, f) && Get(s, f).Some?
  {
    var plan := TeardownPlan(s);
    TeardownOrderClearsDistinct();
    PlanOfEmptier(s, TeardownOrder, plan[m], f);
    ClearedByGet(s, plan[..n], f);
    if exists c :: c in plan[..n] && Empties(c, f) {
      var c :| c in plan[..n] && Empties(c, f);
      var i :| 0 <= i < n && plan[..n][i] == c;
      PlanEmptiesOnce(s, TeardownOrder, f, i, m);
    }
  }

  // ---------------------------------------------------------------------------
  // Sequences of operations

  /** The manager's operations, each on behalf of one worker. */
  datatype Op =
    | DoInitialize(worker: Worker)
    | DoGetPage(worker: Worker)
    | DoCreateNewPage(worker: Worker)
    | DoClosePage(worker: Worker)
    | DoTakeScreenshot(worker: Worker, name: string)
    | DoCloseBrowser(worker: Worker)

  /** The world after one operation, whether it returned or threw. */
  function ApplyOp(c: Config.ConfigManager, w: World, op: Op): World
  {
    match op
    case DoInitialize(k) => InitializeBrowser(c, w, k).world
    case DoGetPage(k) => GetPage(c, w, k).world
    case DoCreateNewPage(k) => CreateNewPage(c, w, k).world
    case DoClosePage(k) => ClosePage(w, k).world
    case DoTakeScreenshot(k, name) => TakeScreenshot(w, k, name).world
    case DoCloseBrowser(k) => CloseBrowser(w, k)
  }

  /** The world after a sequence of operations, in order. */
  function RunOps(c: Config.ConfigManager, w: World, ops: seq<Op>): World
    decreases |ops|
  {
    if |ops| == 0 then w else RunOps(c, ApplyOp(c, w, ops[0]), ops[1..])
  }

  /** A world in which no worker has touched the browser holds no handle at all. */
  lemma NoSlotsHandlesIssued(w: World)
    requires forall k :: SlotsOf(w, k) == NoSlots
    ensures HandlesIssued(w)
  {
  }

  /** A step that leaves every slot alone and hands out no handle twice keeps the invariant. */
  lemma SameSlotsKeepHandlesIssued(w: World, r: World)
    requires HandlesIssued(w)
    requires r.slots == w.slots && w.next <= r.next
    ensures HandlesIssued(r)
  {
    forall j
      ensures SlotsBelow(SlotsOf(r, j), r.next)
    {
      assert SlotsOf(r, j) == SlotsOf(w, j);
    }
  }

  /** The slots an initialisation whose first failing call is `f` leaves, in terms of the ones
      before it: each set slot holds one of the handles created, or an older one. */
  lemma InitSlotsBelow(w: World, r: World, k: Worker, f: nat)
    requires f <= 5 && SlotsBelow(SlotsOf(w, k), w.next)
    requires r.next == w.next + CreatedBefore(f)
    requires SlotsOf(r, k).playwright == (if f > 0 then Some(w.next) else SlotsOf(w, k).playwright)
    requires SlotsOf(r, k).browser == (if f > 1 then Some(w.next + 1) else SlotsOf(w, k).browser)
    requires SlotsOf(r, k).context == (if f > 2 then Some(w.next + 2) else SlotsOf(w, k).context)
    requires SlotsOf(r, k).page == (if f > 4 then Some(w.next + 3) else SlotsOf(w, k).page)
    ensures SlotsBelow(SlotsOf(r, k), r.next)
  {
  }

  /** A step that changes only worker `k`'s slots, to handles below the new counter. */
  lemma OneWorkerKeepsHandlesIssued(w: World, r: World, k: Worker)
    requires HandlesIssued(w) && w.next <= r.next
    requires forall j :: j != k ==> SlotsOf(r, j) == SlotsOf(w, j)
    requires SlotsBelow(SlotsOf(r, k), r.next)
    ensures HandlesIssued(r)
  {
    forall j
      ensures SlotsBelow(SlotsOf(r, j), r.next)
    {
      if j != k {
        assert SlotsBelow(SlotsOf(w, j), w.next);
      }
    }
  }

  /** Initialisation only stores handles it has just handed out. */
  lemma InitializeKeepsHandlesIssued(c: Config.ConfigManager, w: World, k: Worker)
    requires HandlesIssued(w)
    ensures HandlesIssued(InitializeBrowser(c, w, k).world)
  {
    var r := InitializeBrowser(c, w, k).world;
    var f := FirstFault(w.faults, w.pos, 5);
    assert SlotsBelow(SlotsOf(w, k), w.next);
    InitSlotsBelow(w, r, k, f);
    OneWorkerKeepsHandlesIssued(w, r, k);
  }

  lemma GetPageKeepsHandlesIssued(c: Config.ConfigManager, w: World, k: Worker)
    requires HandlesIssued(w)
    ensures HandlesIssued(GetPage(c, w, k).world)
  {
    if SlotsOf(w, k).page.None? {
      InitializeKeepsHandlesIssued(c, w, k);
    }
  }

  lemma CreateNewPageKeepsHandlesIssued(c: Config.ConfigManager, w: World, k: Worker)
    requires HandlesIssued(w)
    ensures HandlesIssued(CreateNewPage(c, w, k).world)
  {
    var r := CreateNewPage(c, w, k);
    if SlotsOf(w, k).context.Some? {
      SameSlotsKeepHandlesIssued(w, r.world);
    } else {
      var init := InitializeBrowser(c, w, k);
      InitializeKeepsHandlesIssued(c, w, k);
      if init.result.Success? {
        SameSlotsKeepHandlesIssued(init.world, r.world);
      }
    }
  }

  /** Successful close calls only empty slots. */
  lemma {:induction false} ClearedByKeepsBelow(s: Slots, calls: seq<Call>, n: Handle)
    requires SlotsBelow(s, n)
    ensures SlotsBelow(ClearedBy(s, calls), n)
    decreases |calls|
  {
    if |calls| > 0 {
      ClearedByKeepsBelow(AfterCall(s, calls[0]), calls[1..], n);
    }
  }

  lemma CloseBrowserKeepsHandlesIssued(w: World, k: Worker)
    requires HandlesIssued(w)
    ensures HandlesIssued(CloseBrowser(w, k))
  {
    var r := CloseBrowser(w, k);
    var plan := TeardownPlan(SlotsOf(w, k));
    ClearedByKeepsBelow(SlotsOf(w, k), plan[..FirstFault(w.faults, w.pos, |plan|)], w.next);
    forall j
      ensures SlotsBelow(SlotsOf(r, j), r.next)
    {
      if j != k {
        assert SlotsBelow(SlotsOf(w, j), w.next);
      }
    }
  }

  /** Every operation keeps every held handle below the fresh-handle counter. */
  lemma ApplyOpKeepsHandlesIssued(c: Config.ConfigManager, w: World, op: Op)
    requires HandlesIssued(w)
    ensures HandlesIssued(ApplyOp(c, w, op))
  {
    match op
    case DoInitialize(k) =>
      InitializeKeepsHandlesIssued(c, w, k);
    case DoGetPage(k) =>
      GetPageKeepsHandlesIssued(c, w, k);
    case DoCreateNewPage(k) =>
      CreateNewPageKeepsHandlesIssued(c, w, k);
    case DoClosePage(k) =>
      SameSlotsKeepHandlesIssued(w, ClosePage(w, k).world);
    case DoTakeScreenshot(k, name) =>
      SameSlotsKeepHandlesIssued(w, TakeScreenshot(w, k, name).world);
    case DoCloseBrowser(k) =>
      CloseBrowserKeepsHandlesIssued(w, k);
  }

  lemma {:induction false} RunOpsKeepsHandlesIssued(c: Config.ConfigManager, w: World, ops: seq<Op>)
    requires HandlesIssued(w)
    ensures HandlesIssued(RunOps(c, w, ops))
    decreases |ops|
  {
    if |ops| > 0 {
      ApplyOpKeepsHandlesIssued(c, w, ops[0]);
      RunOpsKeepsHandlesIssued(c, ApplyOp(c, w, ops[0]), ops[1..]);
    }
  }

  /** In every world reached from one where no worker has touched the browser, the page
      `createNewPage` returns differs from the worker's primary page. */
  lemma NewPageIsNotPrimaryWhenReached(c: Config.ConfigManager, w0: World, ops: seq<Op>, k: Worker)
    requires forall j :: SlotsOf(w0, j) == NoSlots
    ensures var w := RunOps(c, w0, ops); var r := CreateNewPage(c, w, k);
            r.result.Success? && SlotsOf(r.world, k).page.Some? ==> r.result.value != SlotsOf(r.world, k).page.value
  {
    NoSlotsHandlesIssued(w0);
    RunOpsKeepsHandlesIssued(c, w0, ops);
    var w := RunOps(c, w0, ops);
    if CreateNewPage(c, w, k).result.Success? {
      NewPageIsNotPrimary(c, w, k);
    }
  }
}
