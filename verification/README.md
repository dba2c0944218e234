# java-playwright core, modelled in Dafny

This project models the sequential logic of the java-playwright test framework and its demo back end. It proves properties of that model.

- **`UserStore`** models the demo back end's `UserController`. The store is a map from `Long` id to user plus an `AtomicLong` id counter. Each endpoint (list, get, create, update, delete) is a transition from one store to the next that also returns the HTTP response.
- **`BrowserManager`** models the per-thread browser sessions. Each worker has four optional slots: Playwright instance, browser, browser context and primary page.
  - A `World` holds every worker's slots, a counter for fresh engine-object handles, the outcomes of the engine calls to come, and a log of every engine call made with its reply.
  - The operations are lazy initialisation, extra-page creation, page close, screenshot and ordered teardown.
  - The engine kind is chosen from the configured browser name.
- **`BasePage`** models the page-object primitives: navigation, the bounded click retry, the visibility probe that turns exceptions into false, slow typing, element waits and the screenshot attachment. Each primitive returns the page calls it makes, in order, and whether it returned normally or threw.
- **`Config`** models `ConfigManager`:
  - the environment name and its resource path;
  - both `getProperty` overloads and the typed getters;
  - `Boolean.parseBoolean`, and `Integer.parseInt` together with its inverse.
- **`Engine`** holds what the modules share about engine calls. The engine is not modelled; instead, each call's outcome comes from a given sequence `seq<Option<Fault>>`: entry `i` says whether call `i` throws, and with which fault. `FirstFault` locates the first throwing call. Every operation is proved for every possible sequence of outcomes.
- **`Wrappers`** holds `Option`, `Result` and `Outcome`.

A Java exception that escapes an operation is a `Failure` result, or `Fail` for `BasePage`. An exception that the code catches and only logs does not appear in the result.

## Model

| member | source | states |
|---|---|---|
| UserStore.Initial | demo-app/backend/src/main/java/com/demo/controller/UserController.java:20-26 | The seeded store holds exactly ids 1, 2 and 3, the counter is 4, and the store is valid: every user sits under its own id, which is below the counter. |
| UserStore.IncrementLong | demo-app/backend/src/main/java/com/demo/controller/UserController.java:44 | The counter moves up by one, except at Long.MAX_VALUE, where it wraps to Long.MIN_VALUE. |
| UserStore.GetUserById | demo-app/backend/src/main/java/com/demo/controller/UserController.java:33-40 | 200 with the stored user exactly when the id is present, 404 with no body otherwise; the store never changes. |
| UserStore.CreateUser | demo-app/backend/src/main/java/com/demo/controller/UserController.java:42-48 | The user is stored under the counter's current value, whatever id the client sent, and is returned with 201. The counter goes up by one. The id used was not taken in a valid store. Validity is kept below Long.MAX_VALUE. |
| UserStore.UpdateUser | demo-app/backend/src/main/java/com/demo/controller/UserController.java:50-58 | A present id gets the new record with its id forced to the path id, and 200. An absent id gets 404 and the store is unchanged. The key set and the counter never change, and validity is kept. |
| UserStore.DeleteUser | demo-app/backend/src/main/java/com/demo/controller/UserController.java:60-66 | Exactly the given key is removed and every other user is untouched. The answer is 204 when the key was present; otherwise it is 404 and nothing changes. Validity is kept. |
| UserStore.GetAllUsers | demo-app/backend/src/main/java/com/demo/controller/UserController.java:28-31 | On any store that keeps each user under its own id, 200 with every stored user exactly once: the list length equals the number of keys, every element is the stored user under its id, and every stored user appears. |
| UserStore.ApplyPreservesValid | demo-app/backend/src/main/java/com/demo/controller/UserController.java:33-66 | Every endpoint keeps the store valid and moves the counter up by at most one. |
| UserStore.RunPreservesValid | demo-app/backend/src/main/java/com/demo/controller/UserController.java:42-66 | Across any sequence of requests, the store stays valid and the counter never decreases. |
| UserStore.RunKeepsKeyedById | demo-app/backend/src/main/java/com/demo/controller/UserController.java:42-66 | Any sequence of requests keeps every user under its own id, with no bound on the counter, so the listing above applies to every store the endpoints build, also after the counter wrapped. |
| UserStore.AbsentIssuedIdStaysAbsent | demo-app/backend/src/main/java/com/demo/controller/UserController.java:44-46 | An id below the counter that is not stored is never stored again by any later requests, so an id is never reissued. |
| UserStore.DeletedStaysDeleted | demo-app/backend/src/main/java/com/demo/controller/UserController.java:60-66 | After a delete of a stored id, no later sequence of requests brings the id back, and a get of it answers 404. |
| UserStore.CreateNeverOverwrites | demo-app/backend/src/main/java/com/demo/controller/UserController.java:42-48 | On a valid store, a create keeps every existing user unchanged and adds exactly one key. |
| UserStore.CreateAtLongMaxWraps | demo-app/backend/src/main/java/com/demo/controller/UserController.java:18 | With the counter at Long.MAX_VALUE, a create wraps the counter to Long.MIN_VALUE and the store is no longer valid. |
| BrowserManager.BrowserTypeFor | src/main/java/com/testing/framework/ui/utils/BrowserManager.java:56-63 | Firefox exactly when the lower-cased name is "firefox"; WebKit exactly for "webkit" or "safari"; Chromium for every other name. |
| BrowserManager.BrowserTypeIgnoresCase | src/main/java/com/testing/framework/ui/utils/BrowserManager.java:57 | Names that are equal ignoring case select the same engine. |
| BrowserManager.BrowserTypeCaseSpellings | src/main/java/com/testing/framework/ui/utils/BrowserManager.java:56-63 | Firefox exactly for the spellings of "firefox" in any mix of cases, WebKit exactly for those of "webkit" or "safari". |
| BrowserManager.CapitalisedFirefox | src/main/java/com/testing/framework/ui/utils/BrowserManager.java:56-63 | A configured "Firefox" launches Firefox. |
| BrowserManager.CapitalisedSafari | src/main/java/com/testing/framework/ui/utils/BrowserManager.java:56-63 | A configured "Safari" launches WebKit. |
| BrowserManager.DefaultSettings | src/main/java/com/testing/framework/ui/utils/BrowserManager.java:32-35 | With neither "browser" nor "headless" configured, the launch is headless Chromium. |
| BrowserManager.InitFrom | src/main/java/com/testing/framework/ui/utils/BrowserManager.java:27-51 | Running initialisation from call `i` on, the calls go in order until the first throwing call. That call's fault is the result. The slots of the steps before it hold the new handles, and every other slot is untouched. |
| BrowserManager.InitTraceClosedForm | src/main/java/com/testing/framework/ui/utils/BrowserManager.java:27-51 | The call-by-call reference trace of initialisation equals the fully successful run's events up to the first failing call, which is logged with its exception. |
| BrowserManager.InitializeBrowser | src/main/java/com/testing/framework/ui/utils/BrowserManager.java:27-51 | The order is Playwright, browser launch (with the configured kind and headless flag), 1920x1080 context with video, tracing start, page. Success holds exactly when none of the five calls throws; otherwise the first throwing call's fault escapes. Each created object overwrites its slot as soon as it exists, the slots of the steps not reached keep their old values, and other workers are untouched. |
| BrowserManager.InitializeSucceeded | src/main/java/com/testing/framework/ui/utils/BrowserManager.java:30-49 | When none of the five calls throws, which is exactly when initialisation succeeds, the four fresh handles end up, in creation order, in the four slots, and exactly five call outcomes are used. |
| BrowserManager.InitializeSetsAllSlots | src/main/java/com/testing/framework/ui/utils/BrowserManager.java:44-49 | After a successful initialisation the log holds exactly the five calls in order: create Playwright, launch, new context, start tracing on that context, new page. All four slots are set; tracing is started on the context in the slot, and the page in the slot is the one created on that context. |
| BrowserManager.GetPage | src/main/java/com/testing/framework/ui/utils/BrowserManager.java:69-74 | With the page slot set, nothing happens and that page is returned. With it empty, exactly one initialisation runs and its new page is returned, or initialisation's exception escapes unchanged. Only the calling worker's slots change. |
| BrowserManager.GetPageIdempotent | src/main/java/com/testing/framework/ui/utils/BrowserManager.java:69-74 | Once `getPage` has returned a page, calling it again changes nothing and returns the same page. |
| BrowserManager.CreateNewPage | src/main/java/com/testing/framework/ui/utils/BrowserManager.java:79-84 | With the context slot set, exactly one `newPage` call on that context. With it empty, initialisation runs first: if it throws, its exception escapes unchanged and no page is requested; otherwise `newPage` goes to the context it just created, after its five calls, and the page is the handle after the four it created. A throwing `newPage` rethrows its fault. No slot changes apart from initialisation, and other workers are untouched. |
| BrowserManager.OpenPageIn | src/main/java/com/testing/framework/ui/utils/BrowserManager.java:83 | `newPage` on the context is one logged call with its reply. It uses one outcome and touches no slot. When the outcome is normal it returns the next fresh handle and moves the counter on; otherwise it throws that outcome's fault and creates nothing. |
| BrowserManager.NewPageIsNotPrimary | src/main/java/com/testing/framework/ui/utils/BrowserManager.java:79-84 | In a world where every held handle is older than the fresh-handle counter, the page `createNewPage` returns is never the primary page held in the slot. |
| BrowserManager.InitializeKeepsHandlesIssued | src/main/java/com/testing/framework/ui/utils/BrowserManager.java:27-51 | Initialisation stores only handles it has just created, so every held handle stays older than the counter. |
| BrowserManager.GetPageKeepsHandlesIssued | src/main/java/com/testing/framework/ui/utils/BrowserManager.java:69-74 | `getPage` keeps every held handle older than the counter. |
| BrowserManager.CreateNewPageKeepsHandlesIssued | src/main/java/com/testing/framework/ui/utils/BrowserManager.java:79-84 | `createNewPage` keeps every held handle older than the counter, since the extra page is stored nowhere. |
| BrowserManager.CloseBrowserKeepsHandlesIssued | src/main/java/com/testing/framework/ui/utils/BrowserManager.java:114-146 | Teardown only empties slots, so every held handle stays older than the counter. |
| BrowserManager.ApplyOpKeepsHandlesIssued | src/main/java/com/testing/framework/ui/utils/BrowserManager.java:27-146 | Every operation of the manager, whether it returns or throws, keeps every held handle older than the counter. |
| BrowserManager.RunOpsKeepsHandlesIssued | src/main/java/com/testing/framework/ui/utils/BrowserManager.java:27-146 | Any sequence of operations by any workers keeps every held handle older than the counter. |
| BrowserManager.NewPageIsNotPrimaryWhenReached | src/main/java/com/testing/framework/ui/utils/BrowserManager.java:79-84 | Starting from a world where no worker holds anything, after any sequence of operations, the page `createNewPage` returns is never the primary page in the slot. |
| BrowserManager.ClosePage | src/main/java/com/testing/framework/ui/utils/BrowserManager.java:89-93 | Without a page, it does nothing. With one, it makes one close call and uses one outcome; the call throws exactly that outcome's fault, which escapes. Either way, no slot is cleared and no handle is created. |
| BrowserManager.GetPageAfterClosePage | src/main/java/com/testing/framework/ui/utils/BrowserManager.java:89-93 | After `closePage`, `getPage` still returns the closed page without initialising again. |
| BrowserManager.ScreenshotPath | src/main/java/com/testing/framework/ui/utils/BrowserManager.java:102 | The path is "target/playwright-screenshots/", then the name, then ".png". |
| BrowserManager.ScreenshotPathInjective | src/main/java/com/testing/framework/ui/utils/BrowserManager.java:102 | Different names never share a screenshot file. |
| BrowserManager.TakeScreenshot | src/main/java/com/testing/framework/ui/utils/BrowserManager.java:98-109 | With no page, nothing happens. With a page, there is one full-page capture to the name's path, using one outcome, then exactly one image/png attachment called `name`. A failed capture throws and nothing is attached. No slot changes. |
| BrowserManager.RunStagesSpec | src/main/java/com/testing/framework/ui/utils/BrowserManager.java:115-141 | Guarded stages, none of which clears a slot a later stage needs, make the calls planned from the slots beforehand, up to and including the first call that throws. Exactly the slots of the successful calls are emptied, and nothing is created. |
| BrowserManager.TeardownPlanSpelledOut | src/main/java/com/testing/framework/ui/utils/BrowserManager.java:116-140 | The plan read off the five stages in code order is: stop tracing, close page, context, browser, Playwright, each only when its slot is set. |
| BrowserManager.CloseBrowser | src/main/java/com/testing/framework/ui/utils/BrowserManager.java:114-146 | The calls are the teardown plan up to and including the first throwing call. The slots emptied are exactly those whose close call succeeded. No exception escapes, nothing is created, and other workers are untouched. |
| BrowserManager.ClearedByWholePlan | src/main/java/com/testing/framework/ui/utils/BrowserManager.java:122-140 | Carrying out the whole plan empties all four slots. |
| BrowserManager.CloseBrowserClean | src/main/java/com/testing/framework/ui/utils/BrowserManager.java:114-142 | When no call fails, every planned call is made and logged as successful, and all four slots end empty. |
| BrowserManager.TeardownOrdering | src/main/java/com/testing/framework/ui/utils/BrowserManager.java:116-130 | Tracing is stopped before the page is closed, and the page is closed before its context. |
| BrowserManager.CloseBrowserOnEmptyIsNoOp | src/main/java/com/testing/framework/ui/utils/BrowserManager.java:114-142 | With all slots empty, teardown changes nothing at all. |
| BrowserManager.CloseBrowserTwice | src/main/java/com/testing/framework/ui/utils/BrowserManager.java:114-142 | A second teardown right after a clean one does nothing. |
| BrowserManager.FailedTeardownKeepsLaterSlots | src/main/java/com/testing/framework/ui/utils/BrowserManager.java:115-145 | When a step throws, the slot of that step and of every later close step is still set, holding its old handle. The log ends with the throwing call, so no later step runs. |
| BasePage.WaitForPageLoad | src/main/java/com/testing/framework/ui/pages/BasePage.java:44-46 | One wait for the NETWORKIDLE load state. It throws exactly when the wait throws, and then with the wait's own fault. |
| BasePage.NavigateTo | src/main/java/com/testing/framework/ui/pages/BasePage.java:27-31 | One navigate to the URL, then one NETWORKIDLE wait. A failing navigate throws before the wait. |
| BasePage.NavigateOnce | src/main/java/com/testing/framework/ui/pages/BasePage.java:27-31 | Exactly one navigate call, first. The wait happens exactly when the navigate returned normally. The method returns normally exactly when both calls do. |
| BasePage.FullUrl | src/main/java/com/testing/framework/ui/pages/BasePage.java:37 | The UI base URL followed directly by the path. When no base URL is configured, "null" takes its place, as Java string concatenation gives. |
| BasePage.NavigateToPath | src/main/java/com/testing/framework/ui/pages/BasePage.java:36-39 | Navigation to the full URL, with the same calls and outcome as `navigateTo`. |
| BasePage.NavigateToPathVerbatim | src/main/java/com/testing/framework/ui/pages/BasePage.java:37 | The URL is the configured base followed by the path, with no separator added or removed, so both can be read back from it. |
| BasePage.NavigateToPathInjective | src/main/java/com/testing/framework/ui/pages/BasePage.java:37 | Under one configuration, different paths lead to different URLs. |
| BasePage.Attempts | src/main/java/com/testing/framework/ui/pages/BasePage.java:75-85 | `n` attempts alternate click, 1000 ms pause, click, and so on: 2n-1 calls that start and end with a click. |
| BasePage.AttemptsCounts | src/main/java/com/testing/framework/ui/pages/BasePage.java:75-85 | `n` attempts make exactly `n` clicks and `n - 1` pauses of 1000 ms. |
| BasePage.ClickWithRetry | src/main/java/com/testing/framework/ui/pages/BasePage.java:74-87 | With `maxRetries <= 0`, nothing is clicked and the method returns normally. If attempt `k + 1` is the first that succeeds, there are `k + 1` attempts and a normal return. If all `maxRetries` attempts throw, there are `maxRetries` attempts and the last exception is rethrown unchanged. |
| BasePage.ClickWithRetryBounded | src/main/java/com/testing/framework/ui/pages/BasePage.java:74-87 | For every result `clickWithRetry` can produce, clicks never exceed max(maxRetries, 0), and there is one pause fewer than clicks. The method throws only when every one of the `maxRetries` attempts threw. |
| BasePage.TakeScreenshot | src/main/java/com/testing/framework/ui/pages/BasePage.java:65-69 | A screenshot, then an image/png attachment called `name` exactly when the capture returned normally. A failed capture escapes. |
| BasePage.TypeSlowly | src/main/java/com/testing/framework/ui/pages/BasePage.java:92-94 | One sequential-press call with the text and delay unchanged. It is not retried, and its exception escapes. |
| BasePage.TypeSlowlyVerbatim | src/main/java/com/testing/framework/ui/pages/BasePage.java:92-94 | Selector, text, delay and outcome can all be read back off what `typeSlowly` does. |
| BasePage.IsVisible | src/main/java/com/testing/framework/ui/pages/BasePage.java:99-105 | One probe. The answer is true exactly when the probe answered true; a throwing probe gives false, and the method never throws. |
| BasePage.IsVisibleSwallowsFailure | src/main/java/com/testing/framework/ui/pages/BasePage.java:99-105 | A throwing probe is indistinguishable from one that answered false. |
| BasePage.WaitForElement | src/main/java/com/testing/framework/ui/pages/BasePage.java:110-112 | One selector wait with no timeout given. It throws exactly when the wait throws, and then with the wait's own fault. |
| BasePage.WaitForElementWithin | src/main/java/com/testing/framework/ui/pages/BasePage.java:117-119 | One selector wait that carries the given timeout unchanged. It throws exactly when the wait throws, and then with the wait's own fault. |
| BasePage.WaitForElementOverloads | src/main/java/com/testing/framework/ui/pages/BasePage.java:110-119 | The two overloads differ only in the timeout they pass, none or the given one, and have the same outcome. |
| Config.Environment | src/main/java/com/testing/framework/core/config/ConfigManager.java:17 | The `env` system property when set, "dev" otherwise. |
| Config.ConfigPath | src/main/java/com/testing/framework/core/config/ConfigManager.java:34 | The path is "config/", then the environment name, then ".properties". |
| Config.ConfigPathRoundTrip | src/main/java/com/testing/framework/core/config/ConfigManager.java:34 | The environment can be read back off its resource path, so different environments never share a file. |
| Config.Load | src/main/java/com/testing/framework/core/config/ConfigManager.java:32-44 | It succeeds exactly when the environment's resource exists, with that environment and those properties. Otherwise the error is "Unable to find config file: " plus the path. |
| Config.DefaultConfiguration | src/main/java/com/testing/framework/core/config/ConfigManager.java:17-78 | With no `env` property, loading succeeds exactly when "config/dev.properties" exists, and the environment is "dev". With none of "browser", "headless" and "api.timeout" configured, the browser is "chromium", headless is on and the API timeout is 30000. |
| Config.GetProperty | src/main/java/com/testing/framework/core/config/ConfigManager.java:46-48 | Present exactly when the key is stored, and then it is the stored value. |
| Config.GetPropertyOr | src/main/java/com/testing/framework/core/config/ConfigManager.java:50-52 | The stored value when the key is present, the default otherwise. |
| Config.GetPropertyOverloadsAgree | src/main/java/com/testing/framework/core/config/ConfigManager.java:46-52 | The defaulting overload is the plain one with an absent value replaced by the default. |
| Config.GetApiBaseUrl | src/main/java/com/testing/framework/core/config/ConfigManager.java:59-61 | The raw value of "api.base.url", absent when not configured, with no default. |
| Config.GetUiBaseUrl | src/main/java/com/testing/framework/core/config/ConfigManager.java:68-70 | The raw value of "ui.base.url", absent when not configured, with no default. |
| Config.GetDatabaseUrl | src/main/java/com/testing/framework/core/config/ConfigManager.java:81-83 | The raw value of "db.url", or absent. |
| Config.GetDatabaseUser | src/main/java/com/testing/framework/core/config/ConfigManager.java:85-87 | The raw value of "db.user", or absent. |
| Config.GetDatabasePassword | src/main/java/com/testing/framework/core/config/ConfigManager.java:89-91 | The raw value of "db.password", or absent. |
| Config.GetBrowser | src/main/java/com/testing/framework/core/config/ConfigManager.java:72-74 | "chromium" when "browser" is absent, the stored value otherwise. |
| Config.IsHeadless | src/main/java/com/testing/framework/core/config/ConfigManager.java:76-78 | True when "headless" is absent. Otherwise it is true exactly when the value spells "true" in some mix of cases; every other string gives false. |
| Config.ParseBoolean | src/main/java/com/testing/framework/core/config/ConfigManager.java:77 | True exactly for a non-null string that spells "true" ignoring case. |
| Config.TrueWordCharacterisation | src/main/java/com/testing/framework/core/config/ConfigManager.java:77 | Equality with "true" ignoring case accepts exactly the sixteen case spellings of "true". |
| Config.ToLowerChar | src/main/java/com/testing/framework/ui/utils/BrowserManager.java:57 | An ASCII capital becomes the letter 32 code points above it, which is its own lower-case letter; every other character is kept. |
| Config.ToLower | src/main/java/com/testing/framework/ui/utils/BrowserManager.java:57 | Same length, and each character is lower-cased as above. |
| Config.LowerSpelling | src/main/java/com/testing/framework/ui/utils/BrowserManager.java:57 | Lower-casing yields a lower-case word exactly for the spellings of that word with any of its letters capitalised. |
| Config.ToLowerIdempotent | src/main/java/com/testing/framework/ui/utils/BrowserManager.java:57 | Lower-casing twice is the same as lower-casing once. |
| Config.GetApiTimeout | src/main/java/com/testing/framework/core/config/ConfigManager.java:63-65 | 30000 when "api.timeout" is absent. Otherwise it is the decimal parse of the stored value, which fails on a non-numeric string. A success always fits in a Java int. |
| Config.ParseInt | src/main/java/com/testing/framework/core/config/ConfigManager.java:64 | The empty string and a lone sign are rejected, every success fits in a Java int, and a failure names its input. |
| Config.ParseIntOfDigits | src/main/java/com/testing/framework/core/config/ConfigManager.java:64 | A nonempty string of digits, with or without a leading "+", parses to its decimal value exactly when that value fits in a Java int, and fails naming the input otherwise. |
| Config.ParseIntOfNegative | src/main/java/com/testing/framework/core/config/ConfigManager.java:64 | A "-" followed by digits parses to the negated value exactly when it is at least Integer.MIN_VALUE, and fails naming the input otherwise. |
| Config.ParseIntRejectsNonDigit | src/main/java/com/testing/framework/core/config/ConfigManager.java:64 | Any character other than a digit, apart from one leading sign, makes the parse fail. |
| Config.FormatNatDigits | src/main/java/com/testing/framework/core/config/ConfigManager.java:64 | The decimal rendering of a natural number is all digits and has that number as its value. |
| Config.ParseFormatRoundTrip | src/main/java/com/testing/framework/core/config/ConfigManager.java:64 | Parsing the decimal rendering of any Java int gives that int back. |

## Left out

- Threads are not modelled. `ThreadLocal` slots become a map keyed by worker. The `ConcurrentHashMap` and the `AtomicLong` of the user store are modelled sequentially. The double-checked singleton `ConfigManager.getInstance` is not modelled; a configuration is passed explicitly instead.
- Classpath I/O is not modelled: neither the resource lookup nor `Properties.load`. The available resources are given as a map from path to parsed properties. The IOException path of `loadProperties` is not modelled.
- The Playwright engine is not modelled. Each engine call's outcome comes from a given sequence. A created object is an opaque handle. Screenshot bytes, trace and video files, real load states and real sleeps are not represented.
- The Allure attachment sink is not modelled; only its calls are logged.
- SLF4J logging is not modelled; log lines have no effect on the state.
- `UserController.health` is not modelled, because it only reports the wall-clock time. The Spring HTTP routing and JSON binding are not modelled either.
- `BaseApiClient`, `TestListener`, `InstallBrowsers` and the test classes are not part of this model.
- `BasePage.getTitle` and `BasePage.getCurrentUrl` are not modelled. They return an engine value unchanged, and nothing can be stated about them without modelling the engine. The `BasePage` constructor only stores its page and configuration.
- `ConfigManager.getEnvironment` is the `environment` field of `ConfigManager` and has no member of its own.
- BasePage.ClickWithRetry: the one-second pause between attempts is assumed to return normally. In the code, an interrupted pause would throw out of the loop.
- Config.ToLower: only ASCII letters are case-folded. Java's `toLowerCase` also maps other Unicode letters and depends on the default locale.
- Config.ParseInt: only ASCII digits are accepted. `Integer.parseInt` also accepts other Unicode decimal digits.
- UserStore.ApplyPreservesValid: validity is proved only while the counter is below Long.MAX_VALUE. At that value the `AtomicLong` wraps, and `UserStore.CreateAtLongMaxWraps` shows that validity then fails. The same bound applies to `UserStore.RunPreservesValid`, `UserStore.AbsentIssuedIdStaysAbsent` and `UserStore.DeletedStaysDeleted`.
- UserStore.GetAllUsers: the list order is left unspecified, because `ConcurrentHashMap` gives none. The method picks keys in an arbitrary order.
- BrowserManager.TakeScreenshot: the name is taken to form a valid file path. `Paths.get` throws before any capture for a name the platform rejects (one containing NUL, for instance), and which names those are depends on the file system, so that exception is not modelled.
- BrowserManager.InitializeBrowser: `getBrowserType` and the `firefox()`/`webkit()`/`chromium()` accessors are folded into the launch call, which records the chosen kind. They are not separate engine calls.
- The model follows the code as written:
  - `closeBrowser` stops tracing before it closes the page.
  - The first teardown call that throws ends the teardown. `closeBrowser` catches that exception and only logs it, and the later steps' slots stay set.
  - After a throwing teardown call, no later teardown call is made.
  - A failed initialisation leaves the objects it had already created in their slots, with no clean-up, and rethrows the engine's exception unchanged.
  - `closePage` does not clear the slot, and its exception escapes.
  - Screenshot failures in both `takeScreenshot` methods escape instead of being swallowed.
  - `clickWithRetry` with `maxRetries <= 0` clicks nothing and returns normally.
  - Screenshot, trace and video paths are hard-coded, and so is the 1920x1080 viewport.
