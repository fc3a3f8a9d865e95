/**
 * The light/dark theme switch: the body's class list, the toggle's
 * `checked` state and the value stored under the key `theme`.
 */
module Theme {
  import opened Wrappers

  const DARK := "dark-mode"
  const LIGHT := "light-mode"
  // The preference lives in storage under the key "theme"; `stored` below is that one entry.

  datatype ThemeState = ThemeState(body: set<string>, checked: bool, stored: Option<string>)

  /** A stored value the script's `if (savedTheme)` accepts: present and not the empty string. */
  predicate Truthy(saved: Option<string>)
    ensures Truthy(saved) ==> saved.Some?
    ensures saved == None || saved == Some("") ==> !Truthy(saved)
    ensures saved == Some(DARK) || saved == Some(LIGHT) ==> Truthy(saved)
  {
    saved.Some? && saved.value != ""
  }

  /**
   * Initialisation from the stored value `saved`: a truthy value is added to
   * the body as a class and checks the toggle iff it is `dark-mode`;
   * otherwise the body gets `dark-mode` and the toggle is checked. Nothing
   * is written to storage.
   */
  function Init(body: set<string>, saved: Option<string>): (t: ThemeState)
    ensures t.stored == saved
    ensures !Truthy(saved) ==> t.body == body + {DARK} && t.checked
    ensures Truthy(saved) ==> t.body == body + {saved.value} && (t.checked <==> saved.value == DARK)
  {
    if Truthy(saved) then ThemeState(body + {saved.value}, saved.value == DARK, saved)
    else ThemeState(body + {DARK}, true, saved)
  }

  /**
   * The change handler, run with the toggle's new `checked` state: exactly
   * one of the two theme classes ends up on the body, the one `checked`
   * selects; no other class changes; storage holds that class's name.
   */
  function Change(t: ThemeState): (r: ThemeState)
    ensures r.checked == t.checked
    ensures DARK in r.body <==> r.checked
    ensures LIGHT in r.body <==> !r.checked
    ensures r.body - {DARK, LIGHT} == t.body - {DARK, LIGHT}
    ensures r.stored == Some(if r.checked then DARK else LIGHT)
    ensures r.stored.value in r.body
  {
    if t.checked then ThemeState(t.body - {LIGHT} + {DARK}, true, Some(DARK))
    else ThemeState(t.body - {DARK} + {LIGHT}, false, Some(LIGHT))
  }

  /** Handling the same change twice is the same as handling it once. */
  lemma ChangeIdempotent(t: ThemeState)
    ensures Change(Change(t)) == Change(t)
  {
  }

  /**
   * What a change stores is restored by the next page load: the toggle comes
   * back in the same state and the body gets the same theme class.
   */
  lemma ReloadRestores(t: ThemeState, freshBody: set<string>)
    ensures Init(freshBody, Change(t).stored).checked == t.checked
    ensures (if t.checked then DARK else LIGHT) in Init(freshBody, Change(t).stored).body
  {
  }

  /**
   * With no stored value the page starts dark and checked; unchecking makes
   * it light and stores `light-mode`; a reload with that value starts light
   * and unchecked.
   */
  lemma FirstVisitThenLight(body: set<string>)
    requires DARK !in body && LIGHT !in body
    ensures Init(body, None) == ThemeState(body + {DARK}, true, None)
    ensures Change(Init(body, None).(checked := false)) == ThemeState(body + {LIGHT}, false, Some(LIGHT))
    ensures Init(body, Some(LIGHT)) == ThemeState(body + {LIGHT}, false, Some(LIGHT))
  {
    assert body + {DARK} - {DARK} + {LIGHT} == body + {LIGHT};
  }

  /**
   * The two theme classes are not exclusive before the first change: a
   * stored value other than the two theme names leaves the toggle unchecked
   * and adds neither theme class to a body that has none.
   */
  lemma ForeignStoredValue(body: set<string>, s: string)
    requires s != "" && s != DARK && s != LIGHT
    requires DARK !in body && LIGHT !in body
    ensures var t := Init(body, Some(s)); !t.checked && DARK !in t.body && LIGHT !in t.body
  {
  }

  /**
   * Nor are they exclusive when the markup already carries one: a body with
   * `light-mode` and nothing stored ends up with both classes.
   */
  lemma BothThemeClasses()
    ensures var t := Init({LIGHT}, None); DARK in t.body && LIGHT in t.body && t.checked
  {
  }

  /** The body, the toggle and the storage slot of the theme switch. */
  class ThemeSwitch {
    /** The class list of `document.body`. */
    var bodyClasses: set<string>
    /** The toggle's `checked` state. */
    var checked: bool
    /** The value stored under the key "theme", if any. */
    var stored: Option<string>

    function State(): (t: ThemeState)
      reads this
    {
      ThemeState(bodyClasses, checked, stored)
    }

    /** Applies the stored preference `saved` to a body whose classes are `body`. */
    constructor (body: set<string>, saved: Option<string>)
      ensures State() == Init(body, saved)
    {
      stored := saved;
      var savedTheme := saved;
      if savedTheme.Some? && savedTheme.value != "" {
        bodyClasses := body + {savedTheme.value};
        checked := savedTheme.value == DARK;
      } else {
        bodyClasses := body + {DARK};
        checked := true;
      }
    }

    /** The user sets the toggle to `nowChecked`; the change handler runs. */
    method OnChange(nowChecked: bool)
      modifies this
      ensures checked == nowChecked
      ensures State() == Change(old(State()).(checked := nowChecked))
    {
      checked := nowChecked;
      if checked {
        bodyClasses := bodyClasses - {LIGHT};
        bodyClasses := bodyClasses + {DARK};
        stored := Some(DARK);
      } else {
        bodyClasses := bodyClasses - {DARK};
        bodyClasses := bodyClasses + {LIGHT};
        stored := Some(LIGHT);
      }
    }
  }
}
