/** The cookie-consent banner of the client: which cookie categories the user
    allows, what is kept in local storage under `gdpr-consent`, and when the
    banner and the preferences dialog show. */
module CookieConsent {
  import opened Wrappers

  datatype Preferences = Preferences(necessary: bool, analytics: bool, marketing: bool, preferences: bool)

  /** The four keys of the preference record. */
  datatype Key = Necessary | Analytics | Marketing | PreferenceCookies

  function Get(p: Preferences, k: Key): bool {
    match k
    case Necessary => p.necessary
    case Analytics => p.analytics
    case Marketing => p.marketing
    case PreferenceCookies => p.preferences
  }

  /** Only the strictly necessary cookies: the component's default and the
      record "Reject All" stores. */
  const OnlyNecessary := Preferences(true, false, false, false)

  const AllAccepted := Preferences(true, true, true, true)

  /** The component's state together with the `gdpr-consent` storage entry. */
  datatype ConsentState = ConsentState(
    showBanner: bool,
    showPreferences: bool,
    prefs: Preferences,
    stored: Option<Preferences>)

  /** The mount effect: the banner shows when nothing was stored; otherwise the
      stored record becomes the current preferences. */
  function Initial(stored: Option<Preferences>): (s: ConsentState)
    ensures s.showBanner <==> stored.None?
    ensures !s.showPreferences && s.stored == stored
    ensures s.prefs == if stored.Some? then stored.value else OnlyNecessary
  {
    match stored
    case None => ConsentState(true, false, OnlyNecessary, None)
    case Some(saved) => ConsentState(false, false, saved, stored)
  }

  /** `togglePreference`: `necessary` cannot be switched; any other key flips. */
  function Toggle(p: Preferences, k: Key): (r: Preferences)
    ensures k == Necessary ==> r == p
    ensures k != Necessary ==> Get(r, k) == !Get(p, k)
    ensures forall other :: other != k ==> Get(r, other) == Get(p, other)
  {
    match k
    case Necessary => p
    case Analytics => p.(analytics := !p.analytics)
    case Marketing => p.(marketing := !p.marketing)
    case PreferenceCookies => p.(preferences := !p.preferences)
  }

  /** Two records agreeing on every key are the same record. */
  lemma Extensional(p: Preferences, q: Preferences)
    requires forall k :: Get(p, k) == Get(q, k)
    ensures p == q
  {
    assert Get(p, Necessary) == Get(q, Necessary);
    assert Get(p, Analytics) == Get(q, Analytics);
    assert Get(p, Marketing) == Get(q, Marketing);
    assert Get(p, PreferenceCookies) == Get(q, PreferenceCookies);
  }

  /** Toggling the same key twice restores the preferences. */
  lemma ToggleTwice(p: Preferences, k: Key)
    ensures Toggle(Toggle(p, k), k) == p
  {
    var r := Toggle(Toggle(p, k), k);
    forall other
      ensures Get(r, other) == Get(p, other)
    {
    }
    Extensional(r, p);
  }

  /** Toggles of different keys commute. */
  lemma TogglesCommute(p: Preferences, k: Key, j: Key)
    ensures Toggle(Toggle(p, k), j) == Toggle(Toggle(p, j), k)
  {
    var a := Toggle(Toggle(p, k), j);
    var b := Toggle(Toggle(p, j), k);
    forall other
      ensures Get(a, other) == Get(b, other)
    {
    }
    Extensional(a, b);
  }

  /** The user's actions on the banner and the dialog. */
  datatype Action =
    | AcceptAll
    | RejectAll
    | SavePreferences
    | TogglePreference(key: Key)
    | OpenPreferences
    | ClosePreferences

  /** One action. Accepting, rejecting and saving write the record to storage
      and hide the banner; saving also closes the dialog. */
  function Step(s: ConsentState, a: Action): (r: ConsentState)
    ensures a == AcceptAll ==>
      r.prefs == AllAccepted && r.stored == Some(AllAccepted) && !r.showBanner && r.showPreferences == s.showPreferences
    ensures a == RejectAll ==>
      r.prefs == OnlyNecessary && r.stored == Some(OnlyNecessary) && !r.showBanner && r.showPreferences == s.showPreferences
    ensures a == SavePreferences ==>
      r.prefs == s.prefs && r.stored == Some(s.prefs) && !r.showBanner && !r.showPreferences
    ensures a.TogglePreference? ==> r == s.(prefs := Toggle(s.prefs, a.key))
    ensures a == OpenPreferences ==> r == s.(showPreferences := true)
    ensures a == ClosePreferences ==> r == s.(showPreferences := false)
  {
    match a
    case AcceptAll => s.(prefs := AllAccepted, stored := Some(AllAccepted), showBanner := false)
    case RejectAll => s.(prefs := OnlyNecessary, stored := Some(OnlyNecessary), showBanner := false)
    case SavePreferences => s.(stored := Some(s.prefs), showPreferences := false, showBanner := false)
    case TogglePreference(k) => s.(prefs := Toggle(s.prefs, k))
    case OpenPreferences => s.(showPreferences := true)
    case ClosePreferences => s.(showPreferences := false)
  }

  /** A sequence of actions, first to last. */
  function Run(s: ConsentState, actions: seq<Action>): ConsentState
    decreases |actions|
  {
    if actions == [] then s else Run(Step(s, actions[0]), actions[1..])
  }

  /** `necessary` is on in the current preferences and in whatever is stored. */
  predicate NecessaryOn(s: ConsentState) {
    s.prefs.necessary && (s.stored.Some? ==> s.stored.value.necessary)
  }

  /** Every action keeps the necessary cookies on. */
  lemma StepKeepsNecessary(s: ConsentState, a: Action)
    requires NecessaryOn(s)
    ensures NecessaryOn(Step(s, a))
  {
    if a.TogglePreference? {
      assert Get(Step(s, a).prefs, Necessary) == Get(s.prefs, Necessary);
    }
  }

  /** Starting from no stored consent, or from a stored record with
      `necessary` on, no sequence of actions ever turns it off. */
  lemma {:induction false} NecessaryAlwaysOn(stored: Option<Preferences>, actions: seq<Action>)
    requires stored.Some? ==> stored.value.necessary
    ensures NecessaryOn(Run(Initial(stored), actions))
  {
    RunKeepsNecessary(Initial(stored), actions);
  }

  lemma {:induction false} RunKeepsNecessary(s: ConsentState, actions: seq<Action>)
    requires NecessaryOn(s)
    ensures NecessaryOn(Run(s, actions))
    decreases |actions|
  {
    if actions != [] {
      StepKeepsNecessary(s, actions[0]);
      RunKeepsNecessary(Step(s, actions[0]), actions[1..]);
    }
  }

  /** Once a choice is stored, reloading the page shows no banner and restores it. */
  lemma ChoiceSurvivesReload(s: ConsentState, a: Action)
    requires a == AcceptAll || a == RejectAll || a == SavePreferences
    ensures var after := Step(s, a);
      after.stored.Some? && !Initial(after.stored).showBanner && Initial(after.stored).prefs == after.prefs
  {
  }
}
