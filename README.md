# lms_V2 front-end rules and test fixtures, modelled in Dafny

This project models the self-contained rules of the lms_V2 learning-management
site. It covers the following behaviour and proves properties about each part:

- **Editor drafts** (`editor_drafts.dfy`, `EditorDrafts`). The rich-text editor
  keeps a draft per textarea in `localStorage` under `ubereditor:<key>`. It
  validates a stored payload before using it. It restores a draft over the
  server's value only when the draft is non-empty and different. It hashes the
  value with whitespace removed. `cleanLocalStorage` sweeps the storage: it
  collects keys during one scan (legacy `__epiceditor` keys, empty, unparsable,
  expired or already-known drafts) and deletes them after the scan.
- **Editor toolbar** (`editor_toolbar.dfy`, `EditorToolbar`). The block switcher
  maps heading levels 2 to 4 to `h2`/`h3`/`h4` and everything else to
  `paragraph`, and maps those values back. `updateToolbarState` refreshes the
  buttons.
- **Bootstrap 5 compatibility layer** (`bootstrap_compat.dfy`, `BootstrapCompat`).
  It copies the eleven legacy `data-<x>` attributes to `data-bs-<x>` without
  overwriting, and upgrades a subtree. It decides whether a legacy jQuery plugin
  call runs a named method or the component's default method. A per-window flag
  makes it install once.
- **Source-map loader** (`strip_sourcemap.dfy`, `SourceMapStrip`). The webpack
  loader makes two regular-expression replacements, which are modelled as
  recursive functions. JavaScript's line terminators are explicit: `\n`, `\r`,
  U+2028 and U+2029.
- **Page scripts** (`page_scripts.dfy`, `PageScripts`). This covers:
  - the light/dark theme toggle and its stored preference;
  - the mobile navigation panel, with its 992 px breakpoint;
  - the upload-size guard on file inputs;
  - the arrowed panel headings.
- **Demo accounts** (`test_accounts.dfy`, `TestAccounts`). The
  `ensure_testaccounts` management command upserts two demo users, their role
  grants and a student profile. It resets their password and reports a count.
- **Test configuration** (`test_config.dfy`, `TestConfig`). This covers the image
  format chosen from a file name, and the login redirect an anonymous request is
  expected to get. The redirect needs the `path` that Python's
  `urllib.parse.urlparse` computes, which is modelled as far as the path goes. It
  also covers the baseline rows the session fixture seeds.
- **Shared modules**: `wrappers.dfy` (`Option`, `Result`), `text.dfy`
  (character classes, ASCII case mapping), and `web_storage.dfy`. The last one
  models the browser's `localStorage`: an ordered key list plus a map, where a
  null object means storage is unavailable.

Behaviour that comes from foreign code enters as a parameter:
- `JSON.parse` and `JSON.stringify`;
- `md5`;
- date parsing;
- Bootstrap's `getOrCreateInstance` and the "is this a method" test;
- the Tiptap editor's answers;
- the clock and the current year;
- the current `Site`.

Where code changes state in place, it is modelled as a class with `modifies`
clauses. Each such method is proved against a pure function of the old state,
and properties are proved about that function.

## Model

| member | source | states |
|---|---|---|
| EditorDrafts.PersistKey | frontend/src/v1/js/components/editor/index.js:21-51 | No key exactly when the textarea is missing or has an empty name; otherwise `ubereditor:` followed by the per-textarea key |
| EditorDrafts.LoadPersistedDraft | frontend/src/v1/js/components/editor/index.js:53-67 | Nothing without a truthy key or storage, or for a missing or empty stored string; otherwise the parsed payload exactly when parsing succeeds with a string `value`, and nothing for a parse failure, `null` or a non-string `value` |
| EditorDrafts.DraftHashIgnoresWhitespace | frontend/src/v1/js/components/editor/index.js:73 | Inserting a whitespace character anywhere in a value leaves its draft hash unchanged |
| EditorDrafts.RemoveWhitespaceFixpoint | frontend/src/v1/js/components/editor/index.js:73 | Removing whitespace leaves a text unchanged exactly when it has no whitespace |
| EditorDrafts.RemoveWhitespaceAppend | frontend/src/v1/js/components/editor/index.js:73 | Whitespace removal distributes over concatenation |
| EditorDrafts.PersistDraft | frontend/src/v1/js/components/editor/index.js:69-80 | With storage and a truthy key, the key maps to the serialized value, whitespace-free hash and timestamp, and a new key goes to the end of the key order; otherwise nothing changes |
| EditorDrafts.RemoveDraft | frontend/src/v1/js/components/editor/index.js:82-87 | With storage and a truthy key, exactly that key is removed from the entries and from the key order |
| EditorDrafts.EditorInstance.SyncValue | frontend/src/v1/js/components/editor/index.js:350-355 | The textarea takes the markdown and keeps its name; the draft is persisted (entries and key order) only with auto-save and a key |
| EditorDrafts.SelectInitial | frontend/src/v1/js/components/editor/index.js:383-387 | The draft is restored iff it is non-empty and differs from the server value; the markdown is then the draft, else the server value |
| EditorDrafts.OpeningHtml | frontend/src/v1/js/components/editor/index.js:383-388 | The editor opens on the rendered draft when it is restored, on the rendered server value when that is kept and non-empty, and on `<p></p>` when neither has text |
| EditorDrafts.FooterTexts | frontend/src/v1/js/components/editor/index.js:327-340 | The hint comes first, and the "Draft restored" badge is present iff the draft was restored (two texts, else one) |
| EditorDrafts.Swept | frontend/src/v1/js/components/editor/index.js:521-554 | An entry survives iff the sweep rule does not remove it, with its value unchanged; `__epiceditor` keys never survive; keys with neither prefix always survive |
| EditorDrafts.ToRemove | frontend/src/v1/js/components/editor/index.js:521-553 | The collected keys are exactly the scanned keys the sweep rule removes |
| EditorDrafts.DraftEntrySwept | frontend/src/v1/js/components/editor/index.js:534-552 | A `ubereditor:` entry is removed iff it is empty, unparsable or null, has a missing or invalid `updatedAt`, is strictly older than 24 h, is read on a page without `config.localStorage`, or has a known hash |
| EditorDrafts.NoHashListClearsDrafts | frontend/src/v1/js/components/editor/index.js:540-549 | On a page without `config.localStorage`, no `ubereditor:` entry survives the sweep |
| EditorDrafts.SweptIdempotent | frontend/src/v1/js/components/editor/index.js:517-555 | A second sweep at the same time removes nothing more |
| EditorDrafts.TryPayload | frontend/src/v1/js/components/editor/index.js:539-549 | A non-empty draft entry is removed iff it fails to parse, is `null`, is expired, is read without a hash list, or has a known hash |
| EditorDrafts.CollectKeysToRemove | frontend/src/v1/js/components/editor/index.js:521-553 | The scan visits every key once, in order, and returns the keys the rule removes |
| EditorDrafts.RemoveKeys | frontend/src/v1/js/components/editor/index.js:554 | Deleting after the scan removes exactly the collected keys and keeps the others in order |
| EditorDrafts.CleanLocalStorage | frontend/src/v1/js/components/editor/index.js:517-555 | Storage afterwards is the swept map, and the key order is the old one minus the doomed keys; unavailable storage is a no-op |
| EditorDrafts.PersistThenLoad | frontend/src/v1/js/components/editor/index.js:53-80 | Loading right after persisting gives back the persisted value |
| EditorDrafts.FreshDraftSurvivesSweep | frontend/src/v1/js/components/editor/index.js:534-552 | A draft persisted at most 24 h ago whose hash is not in the page's hash list survives the sweep |
| WebStorage.KeepKeys | frontend/src/v1/js/components/editor/index.js:554 | The kept keys are exactly those not dropped, in their order |
| WebStorage.KeepKeysTwice | frontend/src/v1/js/components/editor/index.js:554 | Removing one key set after another removes their union |
| WebStorage.KeepKeysDistinct | frontend/src/v1/js/components/editor/index.js:554 | Removing keys keeps the key list free of duplicates |
| WebStorage.LocalStorage.SetItem | frontend/src/v1/js/components/editor/index.js:79 | The key maps to the value, and a new key goes last in the key order |
| WebStorage.LocalStorage.RemoveItem | frontend/src/v1/js/components/editor/index.js:86 | The key is gone from the map and the key list; the other keys keep their order |
| EditorToolbar.SwitcherValue | frontend/src/v1/js/components/editor/index.js:270-281 | The value is one of the four options; it is `paragraph` iff the node is not a heading of level 2 to 4; otherwise it is the option for that level |
| EditorToolbar.OnSwitcherChange | frontend/src/v1/js/components/editor/index.js:104-119 | Every option value maps back to a command whose resulting node shows that value; only `h2`/`h3`/`h4` set a heading |
| EditorToolbar.SwitcherRoundTrip | frontend/src/v1/js/components/editor/index.js:104-119 | Choosing the shown option re-applies the same heading level for headings 2 to 4, and a paragraph for anything else |
| EditorToolbar.ButtonState | frontend/src/v1/js/components/editor/index.js:288-294 | A throwing probe disables the button and clears `is-active`; otherwise `disabled` is "not enabled"; never-active commands are never marked active |
| EditorToolbar.UpdateToolbarState | frontend/src/v1/js/components/editor/index.js:266-296 | The switcher shows the current block; each known command's button takes its state; unknown buttons are untouched |
| BootstrapCompat.TableFacts | frontend/src/v1/js/bootstrap5-compat.js:18-30 | No legacy attribute name is a modern one, and the eleven modern names are distinct |
| BootstrapCompat.ConvertFirstSpec | frontend/src/v1/js/bootstrap5-compat.js:33-39 | After the first n pairs: every attribute is kept with its value; a pair whose legacy attribute exists and modern one does not gets the legacy value; nothing else is added |
| BootstrapCompat.Converted | frontend/src/v1/js/bootstrap5-compat.js:32-40 | No attribute is removed or changed; `data-bs-<x>` is added with the `data-<x>` value exactly when the legacy one exists and the modern one does not |
| BootstrapCompat.ModernAttrRule | frontend/src/v1/js/bootstrap5-compat.js:36-38 | An existing modern attribute is never overwritten; a missing one is copied from the legacy attribute or stays missing |
| BootstrapCompat.OutsideTableUntouched | frontend/src/v1/js/bootstrap5-compat.js:32-40 | An attribute that is not a pair's modern name is neither added nor changed |
| BootstrapCompat.NoLegacyUnchanged | frontend/src/v1/js/bootstrap5-compat.js:36 | Markup without legacy attributes is left exactly as it is |
| BootstrapCompat.ConvertedPairs | frontend/src/v1/js/bootstrap5-compat.js:36-38 | No legacy attribute appears or disappears, and every pair with a legacy attribute ends with its modern one |
| BootstrapCompat.ConvertedIdempotent | frontend/src/v1/js/bootstrap5-compat.js:32-40 | Converting twice gives the attributes of converting once |
| BootstrapCompat.ConvertElementAttributes | frontend/src/v1/js/bootstrap5-compat.js:32-40 | The element's attributes become `Converted` of the old ones; instances are untouched |
| BootstrapCompat.ConvertMatching | frontend/src/v1/js/bootstrap5-compat.js:48-50 | Each queried node matching the legacy selector is converted; the others keep their attributes |
| BootstrapCompat.UpgradeLegacyDataAttributes | frontend/src/v1/js/bootstrap5-compat.js:42-56 | Without a document nothing changes; otherwise matching descendants of `root or document` are converted when it can be queried, and the target itself when it is an element |
| BootstrapCompat.UpgradeTwiceSameAsOnce | frontend/src/v1/js/bootstrap5-compat.js:42-56 | Converted markup still matches the legacy selector exactly when it did before, and converts to itself, so a node one upgrade left behind is unchanged by a second |
| BootstrapCompat.ConfigObject | frontend/src/v1/js/bootstrap5-compat.js:80 | There is a config exactly when the argument is a non-null object |
| BootstrapCompat.ShouldInvoke | frontend/src/v1/js/bootstrap5-compat.js:99-104 | The default method is suppressed iff there is a config object, a flag, the flag is present, and it is falsy |
| BootstrapCompat.AcquireInstance | frontend/src/v1/js/bootstrap5-compat.js:81-86 | An existing instance is reused unless a config object is passed |
| BootstrapCompat.MethodToCall | frontend/src/v1/js/bootstrap5-compat.js:87-108 | A string runs the same-named method iff it exists; a non-string runs the default method iff it exists and `shouldInvoke` holds |
| BootstrapCompat.CommandNeverDefaults | frontend/src/v1/js/bootstrap5-compat.js:87-92 | A string command never runs a default method it does not name |
| BootstrapCompat.NoDefaultMethod | frontend/src/v1/js/bootstrap5-compat.js:94-97 | Dropdown, tooltip and popover run nothing for a non-string call |
| BootstrapCompat.DefaultMethodExamples | frontend/src/v1/js/bootstrap5-compat.js:99-108 | `{show: false}` suppresses modal's `show`; `{toggle: false}` suppresses collapse's `toggle`; tab has no flag, so it always shows |
| BootstrapCompat.RunPlugin | frontend/src/v1/js/bootstrap5-compat.js:76-110 | Each element gets the acquired instance, and its invocation log grows by exactly the method `MethodToCall` selects |
| BootstrapCompat.RegisterFirstSpec | frontend/src/v1/js/bootstrap5-compat.js:112-121 | Every component's plugin is registered under its name, and other `$.fn` entries are unchanged |
| BootstrapCompat.RegisterTwice | frontend/src/v1/js/bootstrap5-compat.js:119-121 | Registering the plugins again changes nothing |
| BootstrapCompat.Install | frontend/src/v1/js/bootstrap5-compat.js:58-124 | With the flag set, nothing changes; otherwise the flag is set, a truthy `window.bootstrap` is kept (else the bundle is installed), the plugins are registered, the document node and each of its descendants matching the legacy selector are converted, the others keep their attributes, and no node's instances or invocations change |
| SourceMapStrip.StripSourceMap | frontend/webpack/loaders/strip-sourcemap-loader.js:3-5 | The output is never longer than the input |
| SourceMapStrip.StripSourceMapKeepsLines | frontend/webpack/loaders/strip-sourcemap-loader.js:3-5 | The loader's output has exactly the input's line terminators, so the line count is kept |
| SourceMapStrip.LineCommentsKeepTerminators | frontend/webpack/loaders/strip-sourcemap-loader.js:3-5 | The line pass keeps every line terminator |
| SourceMapStrip.BlockCommentsKeepTerminators | frontend/webpack/loaders/strip-sourcemap-loader.js:4-5 | The block pass keeps every line terminator |
| SourceMapStrip.LineCommentsUnchangedIff | frontend/webpack/loaders/strip-sourcemap-loader.js:3-5 | The line pass changes its input iff the input holds `//# sourceMappingURL=` |
| SourceMapStrip.BlockCommentsUnchangedIff | frontend/webpack/loaders/strip-sourcemap-loader.js:4-5 | The block pass changes its input iff some `/*# sourceMappingURL=` is closed on its own line |
| SourceMapStrip.LineMarkerRemovedToEndOfLine | frontend/webpack/loaders/strip-sourcemap-loader.js:3 | A marker is removed with the rest of its line, and the terminator stays |
| SourceMapStrip.LineCommentKeepsTextBefore | frontend/webpack/loaders/strip-sourcemap-loader.js:3-5 | The text before the marker on its line is kept |
| SourceMapStrip.LineCommentKeepsTextBeforeOnLastLine | frontend/webpack/loaders/strip-sourcemap-loader.js:3-5 | On the last line, the text before the marker is all that is left |
| SourceMapStrip.BlockCommentRemoved | frontend/webpack/loaders/strip-sourcemap-loader.js:4 | A block comment is removed up to the first close on its line |
| SourceMapStrip.UnterminatedBlockCommentKept | frontend/webpack/loaders/strip-sourcemap-loader.js:4 | A block comment not closed before the end of its line is left in place |
| SourceMapStrip.LinePassRunsFirst | frontend/webpack/loaders/strip-sourcemap-loader.js:5 | The line pass runs first: on a block comment holding a line marker, the order of the passes changes the result |
| PageScripts.PreferredTheme | frontend/src/v1/js/main.js:197-203 | The theme is `dark` iff the stored value is exactly `dark`, and `light` otherwise |
| PageScripts.NextTheme | frontend/src/v1/js/main.js:212-215 | A click gives `light` iff the current theme is `dark`, and `dark` from any other value |
| PageScripts.NextThemeTwice | frontend/src/v1/js/main.js:212-215 | Two clicks bring a dark or light page back to its theme |
| PageScripts.MediaChangeApplies | frontend/src/v1/js/main.js:219-222 | The colour-scheme handler goes on iff nothing (or an empty string) is stored |
| PageScripts.StoredThemeSilencesMedia | frontend/src/v1/js/main.js:205-224 | Once init or a click has stored a theme, colour-scheme changes are ignored |
| PageScripts.ThemeToggle.ApplyTheme | frontend/src/v1/js/main.js:173-179 | Sets `data-theme` to the theme and `aria-pressed` to "theme is dark"; the label gets the matching text when present |
| PageScripts.ThemeToggle.SetTheme | frontend/src/v1/js/main.js:205-208 | Sets `data-theme`, `aria-pressed` and (when present) the label for the theme, and writes it under `theme` (a new key goes last), so reading the stored theme gives it back |
| PageScripts.ThemeToggle.Init | frontend/src/v1/js/main.js:210 | `data-theme`, `aria-pressed`, the label and the `theme` entry all follow the preferred theme of the old stored value; other entries are unchanged |
| PageScripts.ThemeToggle.Click | frontend/src/v1/js/main.js:212-215 | `data-theme`, `aria-pressed`, the label and the `theme` entry all follow the next theme of the old `data-theme`; other entries are unchanged |
| PageScripts.ThemeToggle.MediaChange | frontend/src/v1/js/main.js:219-224 | With a non-empty stored theme nothing changes; otherwise `data-theme`, `aria-pressed` and the label follow the OS scheme; storage is never written |
| PageScripts.InitThenMediaChange | frontend/src/v1/js/main.js:205-224 | With working storage, a colour-scheme change after init leaves the preferred theme in place |
| PageScripts.NavStep | frontend/src/v1/js/main.js:251-276 | A toggle click flips the panel and is the only event that opens it; Escape closes it; a resize to ≥ 992 px closes it; a link click below 992 px closes it |
| PageScripts.NavSilentEventsKeepState | frontend/src/v1/js/main.js:259-276 | An event that runs neither handler leaves the panel as it was; handlers other than the toggle only close |
| PageScripts.ToggleClickTwice | frontend/src/v1/js/main.js:251-257 | Two toggle clicks leave the panel as it was |
| PageScripts.MobileNav.CloseNav | frontend/src/v1/js/main.js:241-244 | The panel is closed and `aria-expanded` is `false` |
| PageScripts.MobileNav.OpenNav | frontend/src/v1/js/main.js:246-249 | The panel is open and `aria-expanded` is `true` |
| PageScripts.MobileNav.Handle | frontend/src/v1/js/main.js:251-276 | The open state follows `NavStep`; `aria-expanded` mirrors it whenever a handler writes, and a mirrored state stays mirrored; Escape on an open panel focuses the toggle |
| PageScripts.CountOversize | frontend/src/v1/js/main.js:153-154 | The count is zero iff no file exceeds the limit, and equals the file count iff every file does; an undefined limit counts none |
| PageScripts.OnFileInputChange | frontend/src/v1/js/main.js:152-158 | The loop walks the live file list, which the clear empties: one error notification iff some file is oversize, the input is then cleared, and otherwise nothing changes |
| PageScripts.ArrowedHeadingClick | frontend/src/v1/js/main.js:126-132 | The heading's `aria-expanded` flips; the next sibling, if any, toggles `collapse` and takes the same value |
| PageScripts.ArrowedHeadingClickTwice | frontend/src/v1/js/main.js:126-132 | Two clicks on a consistent heading restore it and its sibling |
| PageScripts.PanelHeading.Click | frontend/src/v1/js/main.js:126-132 | The DOM state after a click is `ArrowedHeadingClick` of the state before |
| TestAccounts.RoleGrants | apps/users/management/commands/ensure_testaccounts.py:62-67 | The grants of an account are exactly (username, site, role) for its roles |
| TestAccounts.TableGrants | apps/users/management/commands/ensure_testaccounts.py:45-67 | The grants of a table are exactly those of its accounts' roles at the site |
| TestAccounts.EnsureAllUsers | apps/users/management/commands/ensure_testaccounts.py:45-60 | Every table account holds its table values, gender OTHER, `is_active` and the fixed password; other users are unchanged and none is removed |
| TestAccounts.EnsureAllGrants | apps/users/management/commands/ensure_testaccounts.py:62-67 | The grants afterwards are the old ones plus the table's, so nothing is duplicated or removed |
| TestAccounts.EnsureAllProfiles | apps/users/management/commands/ensure_testaccounts.py:69-79 | A profile flagged in the table holds NORMAL status, the current year, and empty student id and comment; the other profiles are unchanged |
| TestAccounts.EnsureAllIdempotent | apps/users/management/commands/ensure_testaccounts.py:55-79 | Running the command twice in the same year gives the state of running it once |
| TestAccounts.AccountsDistinct | apps/users/management/commands/ensure_testaccounts.py:18-40 | The table's usernames are distinct |
| TestAccounts.DemoAccounts | apps/users/management/commands/ensure_testaccounts.py:18-79 | microvanuta is a staff superuser curator without a profile; microstudent is a student with an INVITED profile; both have password `Keklol123` |
| TestAccounts.Db.Handle | apps/users/management/commands/ensure_testaccounts.py:14-86 | The database becomes `EnsureAll` of the old state over the table, and the reported count is the table size |
| TestConfig.RSplitDot | conftest.py:98 | No split iff the name has no dot; otherwise the name is stem + "." + extension, with no dot in the extension |
| TestConfig.RSplitDotJoin | conftest.py:98 | Splitting `stem.ext` finds that stem and extension |
| TestConfig.FormatIgnoresCase | conftest.py:101-108 | The format depends on the extension's letters, not their case |
| TestConfig.FormatTable | conftest.py:101-108 | png, jpg, jpeg and webp map to PNG, JPEG, JPEG and WEBP; anything else maps to itself upper-cased; the format is always upper case |
| TestConfig.ImageFormat | conftest.py:96-108 | An error iff the name has no dot; otherwise the format of the text after the last dot |
| TestConfig.ImageFormatOfJoin | conftest.py:98-108 | Only the text after the last dot counts |
| TestConfig.SplitScheme | conftest.py:69 | A scheme is the lower-cased text before a colon at a positive index; otherwise the URL is unchanged |
| TestConfig.SplitNetloc | conftest.py:69 | After `//`, the network location runs to the first `/`, `?` or `#` |
| TestConfig.SplitAt | conftest.py:69 | The part before the first separator is a separator-free prefix, and it is the whole text when there is no separator |
| TestConfig.SplitParams | conftest.py:69 | The path before the parameters is a prefix, and a text without `;` is unchanged |
| TestConfig.PathPart | conftest.py:69 | The path never contains `?` or `#` |
| TestConfig.UrlParse | conftest.py:69 | A parsed path never contains `?` or `#` |
| TestConfig.PathBeforeQueryOrFragment | conftest.py:69 | The path is the text before the query or fragment |
| TestConfig.RelativeUrlPath | conftest.py:65-73 | A site-relative URL's path is everything before its query or fragment |
| TestConfig.AbsoluteUrlPath | conftest.py:65-73 | An absolute `scheme://host/path?query` URL has path `/path`: scheme, host and query are dropped |
| TestConfig.ExpectedLoginRedirect | conftest.py:65-73 | The method is the one passed, else `get`; the expected redirect is `LOGIN_URL?next=` followed by the URL's path; `urlparse` errors propagate |
| TestConfig.UpsertTypesSpec | conftest.py:172-177 | Each enum member ends with the row id = value, code = name; other rows are untouched |
| TestConfig.SitesByDomain | conftest.py:148-156 | Every domain gets an entry, and for each domain the last upserted id wins |
| TestConfig.SeededSpec | conftest.py:140-169 | The two sites hold their domain as domain and name; one configuration per site; courses, meta-courses and bindings are gone; other sites are kept |
| TestConfig.SeededIdempotent | conftest.py:130-177 | Seeding twice leaves what seeding once leaves |
| TestConfig.TestDatabase.Prepopulate | conftest.py:131-177 | The database becomes `Seeded` of the old state |

## Left out

- The Tiptap editor, MarkdownIt rendering, Turndown conversion, highlight.js, MathJax, and jQuery/DOM construction of the toolbar and footer are foreign libraries. Their results are parameters: rendering, node state and command probes.
- `md5`, `JSON.parse`, `JSON.stringify` and `Date` parsing are uninterpreted function parameters. `new Date().toISOString()` is a timestamp parameter.
- EditorDrafts.Swept: a truthy `hashes` setting that is not an array is not modelled. In JavaScript its `indexOf` could be missing (and throw) or search substrings. The setting is either missing or a list of strings.
- `Date.now()` is one `now` value for the whole sweep. A clock that advances during the scan is not modelled.
- `hasLocalStorage()` and thrown storage access are modelled only as a missing storage object. Storage that reads but fails on writes (Safari private mode) is not modelled.
- The `UberEditor.init` wiring (hiding the textarea, event subscriptions, the global editor list) and the other editor statics are DOM plumbing. Only the draft selection and the footer contents are modelled.
- The MutationObserver in bootstrap5-compat.js:125-139 is event-driven. Only the per-node upgrade it calls is modelled.
- The `DEFAULTS` alias in bootstrap5-compat.js:113-116 and the extra `...args` forwarded to instance methods are not modelled. The invocation log records the component and method names only.
- BootstrapCompat.RunPlugin: a jQuery collection is assumed to hold distinct elements.
- PageScripts.OnFileInputChange: clearing the input is taken to empty its file list in place, so the loop stops after the first oversize file. A browser that instead installed a new list would go on over the old one and show one notification per oversize file.
- The `maxUploadSizeStr` MiB text (main.js:150) uses floating-point division. It is passed in already formatted.
- The dynamic-import section loader (main.js:16-69), CSRF setup, and the other page initialisers of main.js are not part of this model.
- The teaching bundle (`teaching/index.js`), `webpack/dev.config.js` and the Playwright tests (`test_ui_e2e.py`) are not part of this model.
- TestConfig.UrlParse: Python's NFKC check of the network location and its validation of bracketed IPv6 hosts are not modelled. Only the unbalanced-bracket error is.
- Python's `str.lower`/`str.upper` are modelled for ASCII letters only. Unicode case mapping is not modelled.
- Django ORM internals, the transaction, and the Site sequence-reset SQL (conftest.py:159-163) are not modelled. The integrity error a duplicate `Site.domain` would raise is not modelled either.
- PIL image encoding and the `DJANGO_ALLOW_ASYNC_UNSAFE` flag in conftest.py are not modelled.
- TestAccounts.Db.Handle: `MultipleObjectsReturned` for duplicate rows is not modelled. Grants are a set and profiles a map keyed by (user, type).
- User columns that the command does not write are not modelled. The command's success message is represented by the returned count.
- The current site and year are parameters rather than `Site.objects.get_current()` and `timezone.now()`.
