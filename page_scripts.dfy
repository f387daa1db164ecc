/** The page-wide behaviour `main.js` wires up on every page: the light/dark
    theme toggle, the mobile navigation panel, the upload-size guard on file
    inputs and the arrowed collapsible panels. DOM state is modelled as the
    fields these handlers read and write. */
module PageScripts {
  import opened Wrappers
  import opened WebStorage

  /** `THEME_STORAGE_KEY`. */
  const ThemeStorageKey := "csc-theme"

  /** `NAV_BREAKPOINT`, in CSS pixels. */
  const NavBreakpoint := 992

  /** How `setAttribute` and jQuery's `attr` write a boolean value. */
  function BoolAttr(b: bool): (s: string)
    ensures s == "true" || s == "false"
    ensures s == "true" <==> b
  {
    if b then "true" else "false"
  }

  // ---------------------------------------------------------------------
  // Theme toggle.

  /** `getPreferredTheme`: the stored theme when it is exactly `dark` or `light`, else `light`. */
  function PreferredTheme(stored: Option<string>): (theme: string)
    ensures theme == "dark" || theme == "light"
    ensures theme == "dark" <==> stored == Some("dark")
  {
    if stored == Some("dark") || stored == Some("light") then stored.value else "light"
  }

  /** The click handler's next theme: `light` after `dark`, `dark` after anything else. */
  function NextTheme(current: Option<string>): (theme: string)
    ensures theme == "dark" || theme == "light"
    ensures theme == "light" <==> current == Some("dark")
  {
    if current == Some("dark") then "light" else "dark"
  }

  /** Two clicks bring a dark or light page back to its theme. */
  lemma NextThemeTwice(theme: string)
    requires theme == "dark" || theme == "light"
    ensures NextTheme(Some(NextTheme(Some(theme)))) == theme
  {
  }

  /** Whether the colour-scheme handler goes on, given what `readStoredTheme` returned. */
  function MediaChangeApplies(stored: Option<string>): (r: bool)
    ensures r <==> stored.None? || stored.value == ""
  {
    !(stored.Some? && stored.value != "")
  }

  /** The theme the colour-scheme handler applies. */
  function MediaTheme(prefersDark: bool): (theme: string)
    ensures theme == (if prefersDark then "dark" else "light")
  {
    if prefersDark then "dark" else "light"
  }

  /** Once a theme chosen by `getPreferredTheme` or the click handler is stored,
      colour-scheme changes are ignored. */
  lemma StoredThemeSilencesMedia(stored: Option<string>, current: Option<string>)
    ensures !MediaChangeApplies(Some(PreferredTheme(stored)))
    ensures !MediaChangeApplies(Some(NextTheme(current)))
  {
  }

  /** A label text from an attribute, or the default when the attribute is missing or empty. */
  function AttrOr(attr: Option<string>, default: string): (s: string)
    ensures attr.Some? && attr.value != "" ==> s == attr.value
    ensures attr.None? || attr.value == "" ==> s == default
  {
    if attr.Some? && attr.value != "" then attr.value else default
  }

  /** The theme toggle button, its optional label, the root element's
      `data-theme`, and the storage (null when touching `localStorage` throws). */
  class ThemeToggle {
    var dataTheme: Option<string>
    var ariaPressed: Option<string>
    const hasLabel: bool
    var labelText: string
    const labelDark: string
    const labelLight: string
    const storage: LocalStorage?

    constructor (hasLabel: bool, labelDarkAttr: Option<string>, labelLightAttr: Option<string>, storage: LocalStorage?)
      ensures dataTheme == None && ariaPressed == None && labelText == ""
      ensures this.hasLabel == hasLabel && this.storage == storage
      ensures labelDark == AttrOr(labelDarkAttr, "Dark mode") && labelLight == AttrOr(labelLightAttr, "Light mode")
    {
      dataTheme := None;
      ariaPressed := None;
      this.hasLabel := hasLabel;
      labelText := "";
      labelDark := AttrOr(labelDarkAttr, "Dark mode");
      labelLight := AttrOr(labelLightAttr, "Light mode");
      this.storage := storage;
    }

    ghost predicate Valid()
      reads this, storage
    {
      storage != null ==> storage.Valid()
    }

    /** `readStoredTheme`. */
    function ReadStoredTheme(): (r: Option<string>)
      reads this, storage
      ensures storage == null ==> r.None?
      ensures storage != null ==> r == storage.GetItem(ThemeStorageKey)
    {
      if storage == null then None else storage.GetItem(ThemeStorageKey)
    }

    /** `applyTheme`. */
    method ApplyTheme(theme: string)
      modifies this
      ensures dataTheme == Some(theme) && ariaPressed == Some(BoolAttr(theme == "dark"))
      ensures labelText == if hasLabel then (if theme == "dark" then labelDark else labelLight) else old(labelText)
    {
      dataTheme := Some(theme);
      ariaPressed := Some(BoolAttr(theme == "dark"));
      if hasLabel {
        labelText := if theme == "dark" then labelDark else labelLight;
      }
    }

    /** `setTheme`: apply, then store (a storage failure is ignored). */
    method SetTheme(theme: string)
      requires Valid()
      modifies this, storage
      ensures Valid()
      ensures dataTheme == Some(theme) && ariaPressed == Some(BoolAttr(theme == "dark"))
      ensures labelText == if hasLabel then (if theme == "dark" then labelDark else labelLight) else old(labelText)
      ensures storage != null ==> storage.items == old(storage.items)[ThemeStorageKey := theme]
      ensures storage != null ==>
        storage.keys == if ThemeStorageKey in old(storage.items) then old(storage.keys) else old(storage.keys) + [ThemeStorageKey]
      ensures ReadStoredTheme() == if storage == null then None else Some(theme)
    {
      ApplyTheme(theme);
      if storage != null {
        storage.SetItem(ThemeStorageKey, theme);
      }
    }

    /** The start of `initThemeToggle`: the preferred theme is applied and stored. */
    method Init()
      requires Valid()
      modifies this, storage
      ensures Valid()
      ensures dataTheme == Some(PreferredTheme(old(ReadStoredTheme())))
      ensures ariaPressed == Some(BoolAttr(PreferredTheme(old(ReadStoredTheme())) == "dark"))
      ensures labelText == if hasLabel then (if PreferredTheme(old(ReadStoredTheme())) == "dark" then labelDark else labelLight)
                           else old(labelText)
      ensures storage != null ==> storage.items == old(storage.items)[ThemeStorageKey := PreferredTheme(old(ReadStoredTheme()))]
      ensures storage != null ==>
        storage.keys == if ThemeStorageKey in old(storage.items) then old(storage.keys) else old(storage.keys) + [ThemeStorageKey]
      ensures storage != null ==> ReadStoredTheme() == dataTheme
    {
      SetTheme(PreferredTheme(ReadStoredTheme()));
    }

    /** The toggle's click handler. */
    method Click()
      requires Valid()
      modifies this, storage
      ensures Valid()
      ensures dataTheme == Some(NextTheme(old(dataTheme)))
      ensures ariaPressed == Some(BoolAttr(old(dataTheme) != Some("dark")))
      ensures labelText == if hasLabel then (if old(dataTheme) != Some("dark") then labelDark else labelLight)
                           else old(labelText)
      ensures storage != null ==> storage.items == old(storage.items)[ThemeStorageKey := NextTheme(old(dataTheme))]
      ensures storage != null ==>
        storage.keys == if ThemeStorageKey in old(storage.items) then old(storage.keys) else old(storage.keys) + [ThemeStorageKey]
      ensures storage != null ==> ReadStoredTheme() == dataTheme
    {
      SetTheme(NextTheme(dataTheme));
    }

    /** The `prefers-color-scheme` change handler: applies the OS scheme only
      while nothing is stored, and never stores it. */
    method MediaChange(prefersDark: bool)
      modifies this
      ensures !MediaChangeApplies(old(ReadStoredTheme())) ==>
        dataTheme == old(dataTheme) && ariaPressed == old(ariaPressed) && labelText == old(labelText)
      ensures MediaChangeApplies(old(ReadStoredTheme())) ==>
        dataTheme == Some(MediaTheme(prefersDark)) && ariaPressed == Some(BoolAttr(prefersDark)) &&
        labelText == if hasLabel then (if prefersDark then labelDark else labelLight) else old(labelText)
    {
      var stored := ReadStoredTheme();
      if stored.Some? && stored.value != "" {
        return;
      }
      ApplyTheme(MediaTheme(prefersDark));
    }
  }

  /** With working storage, a colour-scheme change after start-up or after a
      click leaves the page as it is. */
  method InitThenMediaChange(toggle: ThemeToggle, prefersDark: bool)
    requires toggle.Valid() && toggle.storage != null
    modifies toggle, toggle.storage
    ensures toggle.dataTheme == Some(PreferredTheme(old(toggle.ReadStoredTheme())))
  {
    toggle.Init();
    StoredThemeSilencesMedia(old(toggle.ReadStoredTheme()), None);
    toggle.MediaChange(prefersDark);
  }

  // ---------------------------------------------------------------------
  // Mobile navigation.

  /** The events `initMobileNav` listens to. */
  datatype NavEvent =
    | ToggleClick
    | KeyUp(key: string)
    | PanelClick(onLink: bool, innerWidth: int)
    | Resize(innerWidth: int)

  /** Whether the panel is open (`header--nav-open`) after an event. */
  function NavStep(open: bool, event: NavEvent): (next: bool)
    ensures event == ToggleClick ==> next == !open
    ensures next && !open ==> event == ToggleClick
    ensures event.Resize? && event.innerWidth >= NavBreakpoint ==> !next
    ensures event.PanelClick? && event.onLink && event.innerWidth < NavBreakpoint ==> !next
    ensures event == KeyUp("Escape") ==> !next
  {
    match event
    case ToggleClick => !open
    case KeyUp(key) => if key == "Escape" && open then false else open
    case PanelClick(onLink, w) => if onLink && w < NavBreakpoint then false else open
    case Resize(w) => if w >= NavBreakpoint then false else open
  }

  /** Whether an event runs `closeNav` or `openNav`, so that `aria-expanded` is written. */
  predicate NavWrites(open: bool, event: NavEvent) {
    match event
    case ToggleClick => true
    case KeyUp(key) => key == "Escape" && open
    case PanelClick(onLink, w) => onLink && w < NavBreakpoint
    case Resize(w) => w >= NavBreakpoint
  }

  /** An event that writes nothing leaves the panel as it was. */
  lemma NavSilentEventsKeepState(open: bool, event: NavEvent)
    ensures !NavWrites(open, event) ==> NavStep(open, event) == open
    ensures NavWrites(open, event) && event != ToggleClick ==> !NavStep(open, event)
  {
  }

  /** Two toggle clicks in a row leave the panel as it was. */
  lemma ToggleClickTwice(open: bool)
    ensures NavStep(NavStep(open, ToggleClick), ToggleClick) == open
  {
  }

  /** The header, the toggle button and the panel's state. */
  class MobileNav {
    var open: bool
    var ariaExpanded: Option<string>
    var toggleFocused: bool

    constructor (open: bool, ariaExpanded: Option<string>)
      ensures this.open == open && this.ariaExpanded == ariaExpanded && !toggleFocused
    {
      this.open := open;
      this.ariaExpanded := ariaExpanded;
      toggleFocused := false;
    }

    /** `aria-expanded` says whether the panel is open. */
    predicate Mirrored()
      reads this
    {
      ariaExpanded == Some(BoolAttr(open))
    }

    method CloseNav()
      modifies this
      ensures !open && ariaExpanded == Some("false") && toggleFocused == old(toggleFocused)
    {
      open := false;
      ariaExpanded := Some("false");
    }

    method OpenNav()
      modifies this
      ensures open && ariaExpanded == Some("true") && toggleFocused == old(toggleFocused)
    {
      open := true;
      ariaExpanded := Some("true");
    }

    /** One of the four listeners, chosen by the event. */
    method Handle(event: NavEvent)
      modifies this
      ensures open == NavStep(old(open), event)
      ensures NavWrites(old(open), event) ==> Mirrored()
      ensures !NavWrites(old(open), event) ==> ariaExpanded == old(ariaExpanded)
      ensures old(Mirrored()) ==> Mirrored()
      ensures toggleFocused == (old(toggleFocused) || (event == KeyUp("Escape") && old(open)))
    {
      match event {
        case ToggleClick =>
          if open {
            CloseNav();
          } else {
            OpenNav();
          }
        case KeyUp(key) =>
          if key == "Escape" && open {
            CloseNav();
            toggleFocused := true;
          }
        case PanelClick(onLink, w) =>
          if onLink && w < NavBreakpoint {
            CloseNav();
          }
        case Resize(w) =>
          if w >= NavBreakpoint {
            CloseNav();
          }
      }
    }
  }

  // ---------------------------------------------------------------------
  // Upload-size guard.

  /** `file.size > maxUploadSize`: an undefined limit compares false against every size. */
  predicate TooLarge(size: nat, maxUploadSize: Option<int>) {
    maxUploadSize.Some? && size > maxUploadSize.value
  }

  /** How many of the file sizes exceed the limit. */
  function CountOversize(sizes: seq<nat>, maxUploadSize: Option<int>): (n: nat)
    ensures n <= |sizes|
    ensures n == 0 <==> forall i :: 0 <= i < |sizes| ==> !TooLarge(sizes[i], maxUploadSize)
    ensures n == |sizes| <==> forall i :: 0 <= i < |sizes| ==> TooLarge(sizes[i], maxUploadSize)
  {
    if sizes == [] then 0
    else
      var prefix := sizes[..|sizes| - 1];
      var final := sizes[|sizes| - 1];
      assert forall i :: 0 <= i < |prefix| ==> prefix[i] == sizes[i];
      assert sizes == prefix + [final];
      CountOversize(prefix, maxUploadSize) + if TooLarge(final, maxUploadSize) then 1 else 0
  }

  /** A file input: its value (the chosen path, `""` once cleared) and the sizes of its files. */
  class FileInput {
    var value: string
    var files: seq<nat>

    constructor (value: string, files: seq<nat>)
      ensures this.value == value && this.files == files
    {
      this.value := value;
      this.files := files;
    }
  }

  /** The notifications `createNotification` showed, as (text, level). */
  class Notifier {
    var shown: seq<(string, string)>

    constructor ()
      ensures shown == []
    {
      shown := [];
    }
  }

  /** The notification text; the MiB figure is passed in already formatted. */
  function OversizeMessage(sizeLabel: string): string {
    "Cannot upload files larger than " + sizeLabel
  }

  /** The `change` listener of `setupFileInputs`. The loop walks the input's
      live file list, which clearing the input empties: the first oversize
      file shows one error notification and clears the input, and the loop
      then stops, since no files are left to visit. */
  method OnFileInputChange(input: FileInput, notifier: Notifier, maxUploadSize: Option<int>, sizeLabel: string)
    modifies input, notifier
    ensures notifier.shown == old(notifier.shown) +
      (if CountOversize(old(input.files), maxUploadSize) > 0 then [(OversizeMessage(sizeLabel), "error")] else [])
    ensures CountOversize(old(input.files), maxUploadSize) > 0 ==> input.value == "" && input.files == []
    ensures CountOversize(old(input.files), maxUploadSize) == 0 ==> input.value == old(input.value) && input.files == old(input.files)
  {
    ghost var cleared := false;
    var i := 0;
    while i < |input.files|
      invariant 0 <= i
      invariant !cleared ==>
        i <= |input.files| && input.files == old(input.files) && input.value == old(input.value) &&
        notifier.shown == old(notifier.shown) && CountOversize(old(input.files)[..i], maxUploadSize) == 0
      invariant cleared ==>
        input.files == [] && input.value == "" && CountOversize(old(input.files), maxUploadSize) > 0 &&
        notifier.shown == old(notifier.shown) + [(OversizeMessage(sizeLabel), "error")]
    {
      assert !cleared;
      var prefix := old(input.files)[..i + 1];
      assert forall j :: 0 <= j < i ==> prefix[j] == old(input.files)[..i][j];
      if TooLarge(input.files[i], maxUploadSize) {
        notifier.shown := notifier.shown + [(OversizeMessage(sizeLabel), "error")];
        input.value := "";
        input.files := [];
        cleared := true;
      } else {
        assert CountOversize(prefix, maxUploadSize) == 0;
      }
      i := i + 1;
    }
    assert !cleared ==> old(input.files)[..i] == old(input.files);
  }


  // ---------------------------------------------------------------------
  // Arrowed collapsible panels.

  /** A panel heading's `aria-expanded`, and its next sibling: whether it has
      the `collapse` class and its `aria-expanded` (no sibling: None). */
  datatype PanelState = PanelState(headingExpanded: Option<string>, next: Option<(bool, Option<string>)>)

  /** The click handler of `initCollapsiblePanelGroups`. */
  function ArrowedHeadingClick(s: PanelState): (t: PanelState)
    ensures t.headingExpanded == Some(BoolAttr(s.headingExpanded != Some("true")))
    ensures t.next.Some? <==> s.next.Some?
    ensures t.next.Some? ==> t.next.value.0 == !s.next.value.0 && t.next.value.1 == t.headingExpanded
  {
    var expanded := BoolAttr(!(s.headingExpanded == Some("true")));
    PanelState(Some(expanded), if s.next.Some? then Some((!s.next.value.0, Some(expanded))) else None)
  }

  /** After a click the heading and its sibling agree, and from then on two
      clicks restore the state. */
  lemma ArrowedHeadingClickTwice(s: PanelState)
    requires s.headingExpanded == Some("true") || s.headingExpanded == Some("false")
    requires s.next.Some? ==> s.next.value.1 == s.headingExpanded
    ensures ArrowedHeadingClick(ArrowedHeadingClick(s)) == s
  {
  }

  class PanelSibling {
    var collapsed: bool
    var ariaExpanded: Option<string>

    constructor (collapsed: bool, ariaExpanded: Option<string>)
      ensures this.collapsed == collapsed && this.ariaExpanded == ariaExpanded
    {
      this.collapsed := collapsed;
      this.ariaExpanded := ariaExpanded;
    }
  }

  class PanelHeading {
    var ariaExpanded: Option<string>
    const next: PanelSibling?

    constructor (ariaExpanded: Option<string>, next: PanelSibling?)
      ensures this.ariaExpanded == ariaExpanded && this.next == next
    {
      this.ariaExpanded := ariaExpanded;
      this.next := next;
    }

    function State(): PanelState
      reads this, next
    {
      PanelState(ariaExpanded, if next == null then None else Some((next.collapsed, next.ariaExpanded)))
    }

    /** The click handler, on the DOM. */
    method Click()
      modifies this, next
      ensures State() == ArrowedHeadingClick(old(State()))
    {
      var open := ariaExpanded == Some("true");
      if next != null {
        next.collapsed := !next.collapsed;
        next.ariaExpanded := Some(BoolAttr(!open));
      }
      ariaExpanded := Some(BoolAttr(!open));
    }
  }
}
