/** Theme toggle, theme loading, the renderer's `isDark` flag and the `t`
    keyboard shortcut of js/main.js.

    The page state is the `data-theme` attribute of the document element and
    the `orion-theme` slot of localStorage, each possibly absent. */
module Theme {
  import opened Wrappers

  const Dark := "dark"
  const Light := "light"

  /** `x || 'dark'` on a value that may be absent: an absent value and the
      empty string are both falsy and read as dark. */
  function ThemeOrDark(v: Option<string>): (t: string)
    ensures t != ""
    ensures t == Dark <==> v == None || v == Some("") || v == Some(Dark)
    ensures v.Some? && v.value != "" ==> t == v.value
  {
    match v
    case None => Dark
    case Some(s) => if s == "" then Dark else s
  }

  /** The theme a toggle moves to from the current one. */
  function NextTheme(current: string): (next: string)
    ensures next == Dark || next == Light
    ensures next == Light <==> current == Dark
  {
    if current == Dark then Light else Dark
  }

  /** The renderer's `isDark`: anything but an attribute equal to `light` is dark. */
  predicate IsDark(attribute: Option<string>) {
    attribute != Some(Light)
  }

  /** Toggling twice from dark or light comes back to where it started. */
  lemma ToggleTwice(attribute: Option<string>)
    requires ThemeOrDark(attribute) == Dark || ThemeOrDark(attribute) == Light
    ensures NextTheme(NextTheme(ThemeOrDark(attribute))) == ThemeOrDark(attribute)
  {
  }

  /** From any other stored string, one toggle lands on dark and two on light. */
  lemma ToggleFromOther(attribute: Option<string>)
    requires ThemeOrDark(attribute) != Dark && ThemeOrDark(attribute) != Light
    ensures NextTheme(ThemeOrDark(attribute)) == Dark
    ensures NextTheme(NextTheme(ThemeOrDark(attribute))) == Light
  {
  }

  /** A toggle changes the renderer's colour exactly when the current
      theme reads as dark or light: from any other value it writes dark,
      and the renderer was already treating that value as dark. */
  lemma ToggleFlipsIsDark(attribute: Option<string>)
    ensures IsDark(Some(NextTheme(ThemeOrDark(attribute)))) != IsDark(attribute)
        <==> ThemeOrDark(attribute) == Dark || ThemeOrDark(attribute) == Light
  {
  }

  /** The fields of a `keydown` event the shortcut handler can see. */
  datatype KeyEvent = KeyEvent(key: string, ctrlKey: bool, metaKey: bool, shiftKey: bool, altKey: bool)

  /** The `t` shortcut fires for key `t` without Ctrl or Meta (Shift and Alt
      are not looked at) unless the focused element is an INPUT or TEXTAREA. */
  predicate TriggersToggle(e: KeyEvent, activeTag: string) {
    e.key == "t" && !e.ctrlKey && !e.metaKey &&
    !(activeTag == "INPUT" || activeTag == "TEXTAREA")
  }

  /** The theme state of a page. */
  class Page {
    /** `data-theme` on the document element. */
    var dataTheme: Option<string>
    /** `localStorage['orion-theme']`. */
    var savedTheme: Option<string>

    /** A freshly loaded document, before `loadTheme`, with whatever a previous visit stored. */
    constructor (saved: Option<string>)
      ensures dataTheme == None && savedTheme == saved
    {
      dataTheme := None;
      savedTheme := saved;
    }

    /** `toggleTheme`: writes the next theme to both the attribute and storage. */
    method ToggleTheme()
      modifies this
      ensures dataTheme == Some(NextTheme(ThemeOrDark(old(dataTheme))))
      ensures savedTheme == dataTheme
    {
      var current := ThemeOrDark(dataTheme);
      var next := NextTheme(current);
      dataTheme := Some(next);
      savedTheme := Some(next);
    }

    /** `loadTheme`: copies the stored theme, or dark, into the attribute. */
    method LoadTheme()
      modifies this`dataTheme
      ensures dataTheme == Some(ThemeOrDark(savedTheme))
    {
      var saved := ThemeOrDark(savedTheme);
      dataTheme := Some(saved);
    }

    /** The `keydown` listener: toggles when the shortcut fires, else leaves the page alone. */
    method KeyDown(e: KeyEvent, activeTag: string) returns (toggled: bool)
      modifies this
      ensures toggled == TriggersToggle(e, activeTag)
      ensures toggled ==> dataTheme == Some(NextTheme(ThemeOrDark(old(dataTheme)))) && savedTheme == dataTheme
      ensures !toggled ==> dataTheme == old(dataTheme) && savedTheme == old(savedTheme)
    {
      toggled := false;
      if e.key == "t" && !e.ctrlKey && !e.metaKey {
        var isInput := activeTag == "INPUT" || activeTag == "TEXTAREA";
        if !isInput {
          ToggleTheme();
          toggled := true;
        }
      }
    }

    /** Two toggles from a dark or light page restore both the attribute and storage. */
    method ToggleTwiceRestores()
      requires dataTheme == Some(Dark) || dataTheme == Some(Light)
      modifies this
      ensures dataTheme == old(dataTheme) && savedTheme == dataTheme
    {
      ToggleTheme();
      ToggleTheme();
    }
  }
}
