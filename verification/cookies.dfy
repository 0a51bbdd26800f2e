/**
 * The cookie-preferences page: four switches, of which the essential one
 * cannot be turned off.
 */
module Cookies {

  datatype CookieType = Essential | Analytics | Marketing | Preferences

  datatype CookieSettings = CookieSettings(essential: bool, analytics: bool, marketing: bool, preferences: bool)
  {
    /** The switch for one kind of cookie. */
    function Get(t: CookieType): bool {
      match t
      case Essential => essential
      case Analytics => analytics
      case Marketing => marketing
      case Preferences => preferences
    }
  }

  /** The switches when the page opens: everything on except marketing. */
  const InitialSettings := CookieSettings(true, true, false, true)

  /** `handleCookieToggle`: flip one switch, except the essential one, which stays as it is. */
  function Toggle(s: CookieSettings, t: CookieType): (r: CookieSettings)
    ensures t == Essential ==> r == s
    ensures t != Essential ==> r.Get(t) == !s.Get(t)
    ensures forall u :: u != t ==> r.Get(u) == s.Get(u)
  {
    match t
    case Essential => s
    case Analytics => s.(analytics := !s.analytics)
    case Marketing => s.(marketing := !s.marketing)
    case Preferences => s.(preferences := !s.preferences)
  }

  /** Two settings that agree on every switch are the same settings. */
  lemma SameSwitches(a: CookieSettings, b: CookieSettings)
    requires forall u :: a.Get(u) == b.Get(u)
    ensures a == b
  {
    assert a.Get(Essential) == b.Get(Essential);
    assert a.Get(Analytics) == b.Get(Analytics);
    assert a.Get(Marketing) == b.Get(Marketing);
    assert a.Get(Preferences) == b.Get(Preferences);
  }

  /** Flipping the same switch twice changes nothing. */
  lemma ToggleTwice(s: CookieSettings, t: CookieType)
    ensures Toggle(Toggle(s, t), t) == s
  {
    SameSwitches(Toggle(Toggle(s, t), t), s);
  }

  /** The settings after a series of clicks. */
  function ToggleAll(s: CookieSettings, clicks: seq<CookieType>): (r: CookieSettings)
    ensures r.essential == s.essential
    decreases |clicks|
  {
    if |clicks| == 0 then s else ToggleAll(Toggle(s, clicks[0]), clicks[1..])
  }

  /** Essential cookies are on whatever the user clicks. */
  lemma EssentialAlwaysOn(clicks: seq<CookieType>)
    ensures ToggleAll(InitialSettings, clicks).essential
  {
  }

  /** Clicking two different switches in either order ends in the same settings. */
  lemma TogglesCommute(s: CookieSettings, t: CookieType, u: CookieType)
    ensures Toggle(Toggle(s, t), u) == Toggle(Toggle(s, u), t)
  {
    SameSwitches(Toggle(Toggle(s, t), u), Toggle(Toggle(s, u), t));
  }
}
