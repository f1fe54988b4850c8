# AI Review Harvester — a Dafny model of its content pipeline and page logic

AI Review Harvester produces product-review pages for a static site. The
Python pipeline (`automation.py`) finds trending products, collects reviews
from several sources, and writes one HTML page per product. The browser script
(`scripts.js`) handles the theme toggle, the newsletter form, scroll effects,
notifications and the statistics counters.

This project models the deterministic core of both files as pure Dafny
functions and methods on immutable values, and proves what that code promises:

- **Trending** — products are de-duplicated by name, keeping the first record
  for each name. They are ranked by non-increasing search volume (a missing
  volume counts as 0), and the sort is stable. The list is then cut with
  Python's `[:count]` slice.
- **Reviews** — configured sources are visited in order. A source that raises
  is recorded with an empty review list and adds nothing to `total_reviews`. An
  unknown source is answered with an empty list and an error message. Reviews
  longer than 50 characters become quotes of at most 200 characters, plus "..."
  when cut.
- **Pages** — the review file name, the two citation query strings, and the
  category rule that picks the gallery image set.
- **Email** — the newsletter regex `^[^\s@]+@[^\s@]+\.[^\s@]+$`, stated as a
  predicate over characters and proved equivalent to the validator's conditions.
- **Ui** — the initial theme and theme toggle, the notification icon lookup,
  the order of checks when the newsletter form is submitted, the navbar and
  back-to-top scroll thresholds, and the run-once counter guard.
- **Debounce** — `debounce` and `throttle`, which are textually identical here.
  Both are modelled as one timed pending-call state machine where the last call
  wins.

Support modules: `Wrappers` (Option) and `Text` (ASCII lower-casing,
one-character replacement, substring search).

Inputs that come from outside are passed in as parameters:
- the simulated search results (a sequence of per-query product lists);
- what each review-source handler returned or raised;
- the stored theme (`Option<string>`);
- `window.scrollY`;
- the times at which calls and timer ticks happen.

## Model

| member | source | states |
|---|---|---|
| Trending.FirstOccurrencesCorrect | automation.py:141-147 | The first-occurrence list has pairwise distinct names. It carries exactly the input's names. Every record it keeps is the first input record with that name. |
| Trending.Deduplicate | automation.py:141-147 | The `seen_names` loop returns exactly the first occurrence of every name, in input order, with distinct names covering all input names. |
| Trending.SortByVolume | automation.py:150 | The result is ordered by non-increasing volume. It is a permutation of the input. For every volume, the products with that volume keep their input order (stability under `reverse=True`). |
| Trending.DeduplicateAndRank | automation.py:139-150 | The ranked list is sorted and has distinct names, covering all input names. It is a stable permutation of the first occurrences. |
| Trending.PyTake | automation.py:98 | `s[:n]` is a prefix of `s`. It has `min(n, len)` elements for `n >= 0` and `max(0, len + n)` for negative `n`. |
| Trending.FindTrendingProducts | automation.py:84-98 | The result is `[:count]`, with Python slice semantics, of the stable ranking of the first occurrences among all query results: highest volume first, and among equal volumes in search order. So for a non-negative count at most `count` products come back, still ranked, with distinct names, and every one of them came from the query results. |
| Trending.TieKeepsSearchOrder | automation.py:150 | For any search result and any count: if a first occurrence makes the cut, so does every earlier first occurrence of the same volume. On a tie at the cut, the product found first survives. |
| Trending.TiedPairCut | automation.py:150 | For a search result of exactly two tied products with distinct names and a cut of 1, the cut keeps exactly the first one. |
| Trending.TiedPairRanking | automation.py:150 | A permutation of two tied products that keeps their order within the shared volume, as a stable sort does, is their search order. |
| Reviews.QuoteText | automation.py:281 | A quote is the text itself up to 200 characters. Otherwise it is the first 200 characters followed by "...". Either way it is at most 203 characters. |
| Reviews.QuotesForShape | automation.py:277-284 | One quote per review longer than 50 characters. Each quote's text is between 51 and 203 characters. |
| Reviews.ExtractInsights | automation.py:275-285 | Existing quotes are kept as a prefix. After them come the quotes of the substantial reviews, in review order. |
| Reviews.CollectSource | automation.py:192-207 | One of the four known sources (amazon, reddit, youtube, google) gets its handler's outcome, whether returned or raised. Any other name is answered, without raising, by an empty review list with the error "Unknown source: " followed by the name. |
| Reviews.ContributionsAgree | automation.py:203-207 | What a source adds to the total and to the quotes is determined by the outcome of `_collect_source_reviews`. An unknown source answers with an empty list and so adds nothing. A raised error adds nothing. |
| Reviews.VisitSource | automation.py:176-187 | One visit of a source records its entry, or an empty list with the error when the handler raised. It adds that entry's review count and appends that source's quotes after the quotes already collected. |
| Reviews.CollectStart | automation.py:164-171 | The record starts with the product, a zero total, no source entries and no quotes. |
| Reviews.CollectStep | automation.py:174-187 | Each visit extends the running total, the map of entries and the quote list from the first i sources to the first i + 1. |
| Reviews.FailedSourceAddsNothing | automation.py:185-187 | A source whose handler raises adds nothing to the total and no quotes. |
| Reviews.TotalBounded | automation.py:174-178 | The total never exceeds the number of reviews the handlers returned. |
| Reviews.CollectReviews | automation.py:152-190 | `total_reviews` is the sum of review counts over sources that did not raise. Every configured source has an entry. The entry is that of the source's last occurrence, and a raised error is recorded as an empty list with its message. The quotes are those of the successful sources, in order. |
| Reviews.CollectedCoversSources | automation.py:174-187 | Once the loop has visited every source, the `sources` map has exactly the configured sources as keys. |
| Text.ContainsIff | automation.py:638 | Python's `sub in s` holds exactly when `sub` occurs at some position of `s`. |
| Pages.ReviewFilename | automation.py:792 | The file name is the name mapped character by character, with space and slash becoming '-' and capitals lower-cased, followed by "-review.html". |
| Pages.ReviewFilePath | automation.py:793 | The path is "reviews/" followed by the file name. |
| Pages.FilenameStemClean | automation.py:792 | The part before the suffix has no space, no slash and no ASCII capital. |
| Pages.FilenameEqualIff | automation.py:792 | Two names give the same file exactly when they have equal length and agree character by character after case, space and slash folding. |
| Pages.FilenameCollision | automation.py:792 | "A/B" and "a b" are different names that give the same file. |
| Pages.SearchQuery | automation.py:518 | The query has no spaces. It is two characters longer per space in the name. |
| Pages.RedditQuery | automation.py:519 | The query has no spaces and has the name's length. |
| Pages.SearchQueryRoundTrip | automation.py:518 | For a name without '%', decoding "%20" back to spaces gives the lower-cased name. |
| Pages.RedditQueryRoundTrip | automation.py:519 | For a name without '+', turning '+' back into spaces gives the lower-cased name. |
| Pages.UnsplashInjective | automation.py:641-684 | Different photo ids give different image URLs, so the gallery sources of the three branches are distinct. |
| Pages.GalleryImages | automation.py:629-689 | Three images for the phone rule, two otherwise. Every image has the same fallback SVG. Every alt text starts with the product name. The first caption starts with the name and " - ". |
| Pages.PhoneImages | automation.py:639-658 | The phone set: three images led by the official product shot. Each image has the fallback SVG and an alt text starting with the name, and the first caption starts with the name and " - ". |
| Pages.GamingImages | automation.py:660-673 | The gaming set: two images led by the gaming setup, with the same fallback, alt and caption shape. |
| Pages.GenericImages | automation.py:674-689 | The generic set: two images led by the product photo, with the same fallback, alt and caption shape. |
| Pages.GalleryRulePrecedence | automation.py:638-689 | The first image shows which rule fired: the phone rule, else the gaming rule, else the generic set. So the phone rule takes precedence over the gaming rule. |
| Pages.PhoneNameSelectsPhoneSet | automation.py:638 | A name containing "iphone" yields the three phone images, whatever its category. |
| Email.IsValidEmail | scripts.js:402-405 | The validator accepts exactly the strings the regular expression matches. |
| Email.ValidEmailConditions | scripts.js:402-405 | Valid means all three hold: no JavaScript white space, exactly one '@' with a non-empty part before it, and a '.' after it that is neither the first nor the last character of the domain. |
| Email.EmailExamples | scripts.js:403 | "" and "a@b" are rejected. "a@b.c" is accepted. An address containing a space is rejected. |
| Ui.InitialTheme | scripts.js:93 | The stored theme is used when present and non-empty. Otherwise the theme is "light". |
| Ui.ToggleTheme | scripts.js:100-101 | The toggle gives "light" exactly when the current theme is "dark", and "dark" otherwise, including when the attribute is missing. |
| Ui.ThemeIcon | scripts.js:114-118 | The icon is the sun exactly for the dark theme, and the moon otherwise. |
| Ui.InitDarkMode | scripts.js:88-97 | Start-up applies the initial theme and shows its matching icon. |
| Ui.ClickToggle | scripts.js:99-105 | A click applies the toggled theme, persists the same value, and shows the matching icon. |
| Ui.ToggleTwice | scripts.js:100-101 | Toggling twice from "light" or "dark" returns the original theme. |
| Ui.ToggleTwiceFromOther | scripts.js:100-101 | From any other value, two toggles end in "light", not at the start value. |
| Ui.ReloadKeepsToggledTheme | scripts.js:93-105 | Reloading after a toggle restores exactly the toggled state. |
| Ui.IconLookupAsWritten | scripts.js:351-359 | The lookup with its `icons.info` fallback, as written: a named type gets its icon, and an unknown type gets "info-circle". An inherited `Object.prototype` name yields a non-icon value. |
| Ui.ConstructorTypeHasNoIcon | scripts.js:358 | As written, the type "constructor" yields no icon name. |
| Ui.NotificationIcon | scripts.js:351-359 | The corrected lookup returns the fixed icon for success, error, info and warning, and "info-circle" for every other type. |
| Ui.IconLookupAgrees | scripts.js:351-359 | Both lookups agree on every type that is not an inherited member name. |
| Ui.Notify | scripts.js:272-280 | A notification carries its message and type, and the icon class "fas fa-" followed by the intended icon of that type. |
| Ui.SubmitNewsletter | scripts.js:240-259 | Submission proceeds exactly when the value is a valid email. An empty value gives the "enter your email" error. Any other invalid value gives the "valid email" error. When it proceeds, the button is disabled and shows the spinner text. |
| Ui.EmptyIsInvalid | scripts.js:247-253 | The empty string is not a valid email, so the first check only chooses the message. |
| Ui.CompleteSubscription | scripts.js:261-266 | Completion clears the field, restores and enables the button, and shows the success notice thanking the subscriber. |
| Ui.SubscribeRoundTrip | scripts.js:245-266 | For a valid address, submitting then completing leaves the form empty and enabled, with its original button text. |
| Ui.NavbarClasses | scripts.js:50-56 | The navbar has "scrolled" exactly when `scrollY > 100`. No other class changes. |
| Ui.BackToTopClasses | scripts.js:216-222 | The back-to-top button has "visible" exactly when `scrollY > 300`. No other class changes. |
| Ui.NavbarIdempotent | scripts.js:50-56 | Handling the same scroll position twice equals handling it once. |
| Ui.AnimateCounters | scripts.js:170-172 | Counting starts exactly when it has not started before. Afterwards the flag is set. |
| Ui.TriggerTimes | scripts.js:168-172 | However many times it is triggered, the animation starts at most once. It starts exactly once when triggered at least once from a fresh guard. |
| Debounce.NewDebounced | scripts.js:389-391 | A new debounced wrapper has no pending timer. |
| Debounce.NewThrottled | scripts.js:376-378 | A new throttled wrapper has no pending timer. |
| Debounce.Call | scripts.js:396-397 | A call schedules its own arguments, due `wait` after it. |
| Debounce.CallCancelsPending | scripts.js:396-397 | The state after a call does not depend on what was pending before it. |
| Debounce.Tick | scripts.js:379-382 | `func` runs exactly when a timer is pending and due. It then uses that timer's arguments and nothing stays pending. Otherwise nothing changes. |
| Debounce.Run | scripts.js:389-399 | Over any sequence of events, invocations never outnumber calls (plus a timer pending at the start) or ticks. Every invocation uses some call's arguments. |
| Debounce.PendingIsLastCall | scripts.js:396-397 | From a fresh wrapper, any pending timer is the most recent call's, with its arguments and its deadline `wait` after it. |
| Debounce.LastCallFires | scripts.js:392-395 | `func` runs only at a tick at or after the deadline of the most recent earlier call, and with that call's arguments. |
| Debounce.RunOutputsAreFirings | scripts.js:389-399 | Every invocation in a run is the firing of some event. |
| Debounce.EveryRunUsesLastCall | scripts.js:389-399 | Last call wins: every invocation is at a tick and uses the arguments of the call that was most recent at that tick. |
| Debounce.QuietWindowNeverFires | scripts.js:389-399 | While every tick either precedes all calls or comes before the latest call's deadline, `func` never runs, and the pending timer is the latest call's. |
| Debounce.BurstFiresOnce | scripts.js:389-399 | Once the clock passes the last call's deadline, a burst of calls yields exactly one invocation, with the last call's arguments. |
| Debounce.ThrottleIsDebounce | scripts.js:376-399 | The throttled wrapper behaves exactly like the debounced one on every event sequence. |

## Left out

- `load_config`, `create_html_page`'s file writing and `os.makedirs`: file and configuration I/O. The configured source list is a parameter instead.
- `deploy_to_github`, `update_homepage`, `main`/`argparse`, logging and `datetime.now()`: shell commands, printing and the clock.
- `_simulate_product_search` and the four `_collect_*_reviews` handlers: they return constant literals. Their output is an input of the model (per-query product lists, and one handled-or-raised outcome per source).
- `generate_review_content`, `_compile_html_template` and the `_generate_*` section builders: HTML string templates with no logic beyond what is modelled. `_get_gallery_images` is modelled; the loop that renders it into HTML is not.
- `sentiment_summary` and `pros_cons` in the reviews record: `collect_reviews` never fills them.
- A review whose text is not a string makes `_extract_insights` raise after `total_reviews` was already increased. In the model a review's text is always a string, so that path is not represented.
- A record whose `search_volume` key holds a non-number makes the Python sort raise. The model's volume is an optional integer.
- Quotes take `source_reviews.get("source", "unknown")` from the source-level record. No handler sets that key, so the quotes say "unknown". The model follows the code.
- Pages.ReviewFilename: lower-cases ASCII capitals only. Python's `str.lower` is Unicode-aware and can change a string's length, for example with 'İ'.
- Pages.SearchQuery: same ASCII-only lower-casing.
- Pages.RedditQuery: same ASCII-only lower-casing.
- Pages.GalleryImages: same ASCII-only lower-casing in the category and name tests.
- Pages.ReviewFilePath: assumes POSIX path joining with '/'.
- Ui.Notify: uses the corrected icon lookup `Ui.NotificationIcon`. For a type that names an `Object.prototype` member, such as "constructor", `showNotification` as written would render the inherited value's text instead; `Ui.IconLookupAsWritten` models that lookup, and `Ui.IconLookupAgrees` shows the two agree on every other type. Every call site in `scripts.js` passes 'error' or 'success'. The default parameter `type = 'info'` is not modelled: `kind` is always given.
- All DOM wiring: event listeners, `IntersectionObserver`, AOS, smooth scrolling, hover and focus styles, the mobile menu, the loader splash, image preloading, notification element creation and styling, and the global error handlers. A missing DOM element (optional chaining) is not modelled.
- `localStorage`: the stored theme is an `Option<string>` parameter, and a toggle's write is the `stored` field.
- Real timers and durations: 1500/500 ms loader, 2000 ms subscription delay, 5000 ms notification removal, 50 ms counter interval. The subscription delay is the separate step `Ui.CompleteSubscription`.
- Counter increments, `toFixed`, `toLocaleString` and the scroll-progress percentage: floating-point display arithmetic.
- Debounce.Run: the timers are abstract ticks. The model does not say when the host's event loop delivers them. A negative `wait` (clamped to 0 by browsers) cannot occur because `wait` is a `nat`.

## Findings

| source | as written | input that shows it | evidently intended | confidence | as-written member | corrected member |
|---|---|---|---|---|---|---|
| scripts.js:358 | the lookup `icons[type]`, with `icons.info` as fallback when it is falsy, reads through the prototype chain of the object literal | `getNotificationIcon('constructor')` returns the `Object` constructor function, so the icon class becomes `fas fa-function Object() …` | any type other than success/error/info/warning gets "info-circle" | not executed; follows from JavaScript property lookup | Ui.IconLookupAsWritten (shown by Ui.ConstructorTypeHasNoIcon) | Ui.NotificationIcon (used by Ui.Notify) |
