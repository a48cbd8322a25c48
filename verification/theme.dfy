/**
  The light/dark theme: `applyTheme` derives the page's look from the value
  stored under the `theme` key of `localStorage`, and `toggleTheme` flips it
  and stores the new choice.
 */
module Theme {
  import opened Text

  /** The icon on the theme buttons: a sun offers light mode, a moon dark mode. */
  datatype Icon = Sun | Moon

  /**
    What the theme logic touches: whether the body carries `dark-mode`, the
    buttons' icon, and the stored `theme` value (`Absent` when never written).
   */
  datatype Page = Page(dark: bool, icon: Icon, stored: MaybeString)

  const DarkValue: string := "dark"
  const LightValue: string := "light"

  /** The icon the buttons carry in a given mode. */
  function IconFor(dark: bool): Icon {
    if dark then Sun else Moon
  }

  /** Body class and icon agree with the stored value. */
  predicate Consistent(p: Page) {
    && (p.dark <==> p.stored == Present(DarkValue))
    && p.icon == IconFor(p.dark)
  }

  /**
    `applyTheme`: dark mode exactly when the stored value is exactly
    `"dark"`; a missing value, `"light"` or anything else gives light mode.
    The stored value is only read.
   */
  function ApplyTheme(p: Page): (r: Page)
    ensures Consistent(r)
    ensures r.stored == p.stored
    ensures r.dark <==> p.stored == Present(DarkValue)
  {
    if p.stored == Present(DarkValue) then p.(dark := true, icon := Sun)
    else p.(dark := false, icon := Moon)
  }

  /**
    `toggleTheme`: flips the body class, stores `"dark"` or `"light"` for the
    new mode, then re-applies the stored theme to update the icon.
   */
  function ToggleTheme(p: Page): (r: Page)
    ensures r.dark == !p.dark
    ensures r.stored == Present(if r.dark then DarkValue else LightValue)
    ensures Consistent(r)
  {
    var dark := !p.dark;
    ApplyTheme(p.(dark := dark, stored := Present(if dark then DarkValue else LightValue)))
  }

  /**
    Toggling twice restores the mode and the icon. The stored value comes
    back too whenever it was already one the toggle writes.
   */
  lemma {:induction false} ToggleTwice(p: Page)
    ensures ToggleTheme(ToggleTheme(p)).dark == p.dark
    ensures ToggleTheme(ToggleTheme(p)).icon == IconFor(p.dark)
    ensures Consistent(p) && (p.stored == Present(DarkValue) || p.stored == Present(LightValue))
      ==> ToggleTheme(ToggleTheme(p)) == p
  {
    assert DarkValue != LightValue by {
      assert |DarkValue| != |LightValue|;
    }
  }

  /**
    On a first visit nothing is stored; two toggles leave `"light"` stored
    rather than nothing, which `applyTheme` reads back as the same light mode.
   */
  lemma {:induction false} ToggleTwiceFromNothingStored(p: Page)
    requires p.stored == Absent
    ensures var q := ToggleTheme(ToggleTheme(ApplyTheme(p)));
      && q.stored == Present(LightValue)
      && ApplyTheme(q) == ApplyTheme(ApplyTheme(p)).(stored := q.stored)
  {
    assert DarkValue != LightValue by {
      assert |DarkValue| != |LightValue|;
    }
  }
}
