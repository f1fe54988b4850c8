/**
 * The page's decision logic with the DOM abstracted away: the colour theme,
 * the notification icon, the newsletter form's checks, the scroll-position
 * class toggles and the run-once guard on the statistics counters.
 */
module Ui {
  import opened Wrappers
  import opened Email

  // ----- theme -----

  const Dark: string := "dark"
  const Light: string := "light"

  /** `localStorage.getItem('theme') || 'light'`: a missing or empty stored value means light. */
  function InitialTheme(stored: Option<string>): (t: string)
    ensures t != ""
    ensures stored.Some? && stored.value != "" ==> t == stored.value
    ensures stored.None? || stored.value == "" ==> t == Light
  {
    match stored
    case Some(v) => if v != "" then v else Light
    case None => Light
  }

  /** `toggleTheme`: the root's `data-theme` becomes light when it was dark, and dark otherwise. */
  function ToggleTheme(current: Option<string>): (t: string)
    ensures t == Light <==> current == Some(Dark)
    ensures t == Dark <==> current != Some(Dark)
  {
    if current == Some(Dark) then Light else Dark
  }

  /** `updateThemeIcon`: a sun while dark, a moon otherwise. */
  function ThemeIcon(theme: string): (icon: string)
    ensures icon == "fas fa-sun" <==> theme == Dark
    ensures icon == "fas fa-moon" <==> theme != Dark
  {
    if theme == Dark then "fas fa-sun" else "fas fa-moon"
  }

  /** The root's `data-theme` attribute, the stored preference and the toggle's icon class. */
  datatype ThemeState = ThemeState(attribute: Option<string>, stored: Option<string>, icon: string)

  ghost predicate ThemeConsistent(st: ThemeState) {
    st.attribute.Some? && st.icon == ThemeIcon(st.attribute.value)
  }

  /** `initializeDarkMode`: apply the stored theme, or light, and show its icon. */
  function InitDarkMode(stored: Option<string>): (st: ThemeState)
    ensures ThemeConsistent(st)
    ensures st.stored == stored
    ensures st.attribute == Some(InitialTheme(stored))
  {
    var theme := InitialTheme(stored);
    ThemeState(Some(theme), stored, ThemeIcon(theme))
  }

  /** A click on the toggle: the new theme is applied, persisted and shown. */
  function ClickToggle(st: ThemeState): (r: ThemeState)
    ensures ThemeConsistent(r)
    ensures r.stored == r.attribute
    ensures r.attribute == Some(ToggleTheme(st.attribute))
  {
    var theme := ToggleTheme(st.attribute);
    ThemeState(Some(theme), Some(theme), ThemeIcon(theme))
  }

  /** Toggling twice from light or dark gives back the theme one started with. */
  lemma ToggleTwice(theme: string)
    requires theme == Light || theme == Dark
    ensures ToggleTheme(Some(ToggleTheme(Some(theme)))) == theme
  {
  }

  /** Any other attribute value is not restored: two toggles end in light. */
  lemma ToggleTwiceFromOther(theme: string)
    requires theme != Light && theme != Dark
    ensures ToggleTheme(Some(ToggleTheme(Some(theme)))) == Light
  {
  }

  /** After a toggle, reloading the page applies the theme that was chosen. */
  lemma ReloadKeepsToggledTheme(st: ThemeState)
    ensures InitDarkMode(ClickToggle(st).stored) == ClickToggle(st)
  {
  }

  // ----- notifications -----

  /** The icons `getNotificationIcon` knows by name. */
  const IconTable: map<string, string> := map[
    "success" := "check-circle",
    "error" := "exclamation-circle",
    "info" := "info-circle",
    "warning" := "exclamation-triangle"]

  /**
   * Names every plain JavaScript object inherits from `Object.prototype`;
   * `icons[type]` finds these too, since the lookup follows the prototype chain.
   */
  const ObjectPrototypeKeys: set<string> := {
    "constructor", "hasOwnProperty", "isPrototypeOf", "propertyIsEnumerable",
    "toString", "toLocaleString", "valueOf", "__proto__",
    "__defineGetter__", "__defineSetter__", "__lookupGetter__", "__lookupSetter__"}

  /** A JavaScript value as far as `icons[type] || icons.info` can see it. */
  datatype JsValue = JsString(s: string) | JsInherited(key: string)

  /**
   * `icons[type] || icons.info` as written: an inherited member is a
   * truthy value (a function, or the prototype for `__proto__`), so it is
   * returned instead of the fallback.
   */
  function IconLookupAsWritten(kind: string): (v: JsValue)
    ensures kind in IconTable ==> v == JsString(IconTable[kind])
    ensures kind in ObjectPrototypeKeys ==> v == JsInherited(kind)
    ensures kind !in IconTable && kind !in ObjectPrototypeKeys ==> v == JsString(IconTable["info"])
  {
    if kind in IconTable then JsString(IconTable[kind])
    else if kind in ObjectPrototypeKeys then JsInherited(kind)
    else JsString(IconTable["info"])
  }

  /** As written, the type "constructor" yields no icon name at all. */
  lemma ConstructorTypeHasNoIcon()
    ensures !IconLookupAsWritten("constructor").JsString?
  {
  }

  /** `getNotificationIcon` as intended: the named icon, or "info-circle" for any other type. */
  function NotificationIcon(kind: string): (icon: string)
    ensures kind in IconTable ==> icon == IconTable[kind]
    ensures kind !in IconTable ==> icon == "info-circle"
    ensures icon in IconTable.Values
  {
    assert "info" in IconTable;
    if kind in IconTable then IconTable[kind] else IconTable["info"]
  }

  /** Both versions agree on every type that is not an inherited member name. */
  lemma IconLookupAgrees(kind: string)
    requires kind !in ObjectPrototypeKeys
    ensures IconLookupAsWritten(kind) == JsString(NotificationIcon(kind))
  {
  }

  /** A notification as `showNotification` renders it: message, CSS type and icon class. */
  datatype Notification = Notification(message: string, kind: string, iconClass: string)

  function Notify(message: string, kind: string): (n: Notification)
    ensures n.message == message && n.kind == kind
    ensures n.iconClass == "fas fa-" + NotificationIcon(kind)
  {
    Notification(message, kind, "fas fa-" + NotificationIcon(kind))
  }

  // ----- newsletter form -----

  const MissingEmailMessage: string := "Please enter your email address"
  const InvalidEmailMessage: string := "Please enter a valid email address"
  const SubscribedMessage: string := "Thank you for subscribing! Welcome to AI Review Harvester."
  const SubscribingText: string := "<i class=\"fas fa-spinner fa-spin\"></i> <span>Subscribing...</span>"

  /** The email input's value and the submit button's label and disabled flag. */
  datatype Form = Form(value: string, buttonText: string, disabled: bool)

  /** Either an error notice (the form is left as it was) or the start of a subscription. */
  datatype SubmitOutcome = Rejected(notice: Notification) | Subscribing(form: Form, originalText: string)

  /**
   * The submit handler: an empty value is reported first, then an invalid
   * one; only a valid address disables the button and starts subscribing.
   */
  function SubmitNewsletter(f: Form): (o: SubmitOutcome)
    ensures o.Subscribing? <==> IsValidEmail(f.value)
    ensures f.value == "" ==> o == Rejected(Notify(MissingEmailMessage, "error"))
    ensures f.value != "" && !IsValidEmail(f.value) ==> o == Rejected(Notify(InvalidEmailMessage, "error"))
    ensures o.Subscribing? ==> o.form == f.(buttonText := SubscribingText, disabled := true) && o.originalText == f.buttonText
  {
    if f.value == "" then
      EmptyIsInvalid();
      Rejected(Notify(MissingEmailMessage, "error"))
    else if !IsValidEmail(f.value) then Rejected(Notify(InvalidEmailMessage, "error"))
    else Subscribing(f.(buttonText := SubscribingText, disabled := true), f.buttonText)
  }

  lemma EmptyIsInvalid()
    ensures !IsValidEmail("")
  {
  }

  /** The delayed completion: thank the user, clear the field, restore the button. */
  function CompleteSubscription(f: Form, originalText: string): (r: (Form, Notification))
    ensures r.0 == Form("", originalText, false)
    ensures r.1.kind == "success" && r.1.iconClass == "fas fa-check-circle"
    ensures r.1.message == SubscribedMessage
  {
    (Form("", originalText, false), Notify(SubscribedMessage, "success"))
  }

  /** A successful subscription returns the form to its original label, enabled and empty. */
  lemma SubscribeRoundTrip(f: Form)
    requires IsValidEmail(f.value)
    ensures var o := SubmitNewsletter(f);
            o.Subscribing? && CompleteSubscription(o.form, o.originalText).0 == f.(value := "", disabled := false)
  {
  }

  // ----- scroll-position classes -----

  const NavbarThreshold: real := 100.0
  const BackToTopThreshold: real := 300.0

  /** Adds `cls` when `scrollY` is past `threshold`, removes it otherwise; other classes are untouched. */
  function ClassPast(threshold: real, cls: string, scrollY: real, classes: set<string>): (r: set<string>)
    ensures cls in r <==> scrollY > threshold
    ensures r - {cls} == classes - {cls}
  {
    if scrollY > threshold then classes + {cls} else classes - {cls}
  }

  /** `handleScroll`: the navbar carries "scrolled" exactly when `scrollY > 100`. */
  function NavbarClasses(scrollY: real, classes: set<string>): (r: set<string>)
    ensures "scrolled" in r <==> scrollY > NavbarThreshold
    ensures r - {"scrolled"} == classes - {"scrolled"}
  {
    ClassPast(NavbarThreshold, "scrolled", scrollY, classes)
  }

  /** `toggleBackToTop`: the button carries "visible" exactly when `scrollY > 300`. */
  function BackToTopClasses(scrollY: real, classes: set<string>): (r: set<string>)
    ensures "visible" in r <==> scrollY > BackToTopThreshold
    ensures r - {"visible"} == classes - {"visible"}
  {
    ClassPast(BackToTopThreshold, "visible", scrollY, classes)
  }

  /** Handling the same scroll position twice is the same as handling it once. */
  lemma NavbarIdempotent(scrollY: real, classes: set<string>)
    ensures NavbarClasses(scrollY, NavbarClasses(scrollY, classes)) == NavbarClasses(scrollY, classes)
  {
  }

  // ----- counters -----

  /** The `hasAnimated` flag of `initializeCounters`. */
  datatype CounterGuard = CounterGuard(hasAnimated: bool)

  /** `animateCounters`: starts counting only on the first call. */
  function AnimateCounters(g: CounterGuard): (r: (CounterGuard, bool))
    ensures r.1 <==> !g.hasAnimated
    ensures r.0.hasAnimated
  {
    if g.hasAnimated then (g, false) else (CounterGuard(true), true)
  }

  /** `n` visibility triggers in a row; the result counts how many started the animation. */
  function TriggerTimes(g: CounterGuard, n: nat): (r: (CounterGuard, nat))
    ensures r.1 <= 1
    ensures r.1 == 1 <==> n > 0 && !g.hasAnimated
    ensures r.0.hasAnimated <==> n > 0 || g.hasAnimated
    decreases n
  {
    if n == 0 then (g, 0)
    else
      var (g1, started) := AnimateCounters(g);
      var (g2, later) := TriggerTimes(g1, n - 1);
      (g2, (if started then 1 else 0) + later)
  }
}
