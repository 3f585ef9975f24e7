/** The Blazor theme service: one current theme name and a change event
    that fires only when the name actually changes. Subscribers are not
    modelled; the number of times the event has been raised is. */
module Theme {

  const Dark: string := "dark"
  const Light: string := "light"

  /** The theme `ToggleTheme` moves to from `t`. */
  function Toggled(t: string): (r: string)
    ensures t == Dark ==> r == Light
    ensures t != Dark ==> r == Dark
  {
    if t == Dark then Light else Dark
  }

  /** Toggling always changes the theme, so it always raises the event. */
  lemma ToggledDiffers(t: string)
    ensures Toggled(t) != t
  {
  }

  /** From either known theme, toggling twice comes back; from any other
      name it lands on light. */
  lemma ToggleTwice(t: string)
    ensures t == Dark || t == Light ==> Toggled(Toggled(t)) == t
    ensures t != Dark && t != Light ==> Toggled(Toggled(t)) == Light
  {
  }

  class ThemeService {
    var currentTheme: string
    /** How many times `OnThemeChanged` has been raised. */
    var changeEvents: nat

    constructor ()
      ensures currentTheme == Dark && changeEvents == 0
    {
      currentTheme := Dark;
      changeEvents := 0;
    }

    /** The guarded private setter of `CurrentTheme`. */
    method SetCurrentTheme(value: string)
      modifies this
      ensures currentTheme == value
      ensures changeEvents == old(changeEvents) + (if old(currentTheme) != value then 1 else 0)
    {
      if currentTheme != value {
        currentTheme := value;
        changeEvents := changeEvents + 1;
      }
    }

    method SetTheme(theme: string)
      modifies this
      ensures currentTheme == theme
      ensures changeEvents == old(changeEvents) + (if old(currentTheme) != theme then 1 else 0)
    {
      SetCurrentTheme(theme);
    }

    method ToggleTheme()
      modifies this
      ensures currentTheme == Toggled(old(currentTheme))
      ensures changeEvents == old(changeEvents) + 1
    {
      ToggledDiffers(currentTheme);
      SetCurrentTheme(if currentTheme == Dark then Light else Dark);
    }

    predicate IsDarkTheme()
      reads this
    {
      currentTheme == Dark
    }

    predicate IsLightTheme()
      reads this
    {
      currentTheme == Light
    }

    function GetMasaThemeClass(): (c: string)
      reads this
      ensures c == "theme--dark" || c == "theme--light"
      ensures c == "theme--dark" <==> IsDarkTheme()
    {
      if currentTheme == Dark then "theme--dark" else "theme--light"
    }

    /** The two flags never hold together, and a name other than the two
        known ones makes both false while the class falls back to light. */
    lemma ThemeFlags()
      ensures !(IsDarkTheme() && IsLightTheme())
      ensures !IsDarkTheme() && !IsLightTheme() <==> currentTheme != Dark && currentTheme != Light
      ensures !IsDarkTheme() ==> GetMasaThemeClass() == "theme--light"
    {
    }
  }
}
