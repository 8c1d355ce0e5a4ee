# TopClock in Dafny

TopClock is a borderless, always-on-top desktop clock. At startup it finds
`TopClock.ini` next to the program and creates it with default content when
it is missing or has no `[Settings]` section. It reads eleven typed settings,
sizes the window from the measured label, puts it at one of five screen
anchors, and then once a second shows the time and a thin "seconds bar"
along the bottom edge.

This project models the logic in `TopClock.py` and proves properties of it:

- `results.dfy` (`Results`): `Option` and `Result`, used for error paths.
- `numerals.dfy` (`Numerals`): the conversions behind the settings reader's
  `getint`, `getfloat` and `getboolean`, with the decimal spellings they invert.
- `interpolation.dfy` (`Interpolation`): the value substitution of the
  reader created at TopClock.py:25, the standard `configparser.ConfigParser`
  with its default `BasicInterpolation`. Every `get` passes through it.
- `settings.dfy` (`Settings`): a parsed file as section → key → text, the
  literal default table, the typed `Snapshot` and `Extract`, which is
  `initialize_settings` with its error cases.
- `settingsfile.dfy` (`SettingsFile`): the file system as a `FileStore`
  object whose `files` map is updated in place. `LoadSettings` is
  `load_settings` together with `create_default_settings`. It is proved
  against the specification functions `NeedsDefaults`, `StoreAfter` and
  `Loaded`.
- `placement.dfy` (`Placement`): the anchor rule of `set_window_size_and_position`.
- `geometry.dfy` (`Geometry`): the window size of `update_window_size` and
  the seconds bar of `update_seconds_bar`.
- `timetext.dfy` (`TimeText`): the `%H:%M:%S` / `%H:%M` label text, a reader
  that inverts it, and the startup placeholder.
- `clock.dfy` (`Clock`): one tick of the display, and the worked startup
  scenarios (a 200 × 60 label on a 1920 × 1080 screen).

Inputs that come from outside the program are parameters: the current time,
the label's measured size, the screen size and the window size the toolkit
reports, and the settings path.

Behaviour worth knowing:

- The window size is `int(req * scale)`, truncation toward zero
  (TopClock.py:138), not a ceiling. `center` uses Python's floor division `//`.
- `config.read` adds to the parser object it is called on. When an existing
  file without `[Settings]` is regenerated (TopClock.py:28-31), the file
  on disk holds only the defaults. The configuration returned still holds
  the old file's other sections next to the default `Settings` section
  (`Loaded`, `RegeneratedKeepsOldSectionsInMemory`). This is harmless,
  because only `Settings` is ever read.
- The placement reads the window size back from the toolkit
  (`root.winfo_width()`, TopClock.py:107-108), so `Place` takes the window
  size as a parameter. It does not take the size computed from the scale factors.
- The label text and the seconds bar each call `datetime.now()`
  (TopClock.py:88, 97), so `Clock.Tick` takes the bar's second as an input of
  its own. The bar is drawn whether or not seconds are shown.
- Every value is read through the parser's interpolation, so a `%` in any
  setting, a colour or a font name included, must be written `%%`. A setting
  that ends in a single `%` makes reading the snapshot fail
  (`Settings.StrayPercentFails`).
- Regeneration depends only on the section being present. A `Settings`
  section with a missing key stays on disk, and reading the snapshot then fails.

## Model

| member | source | states |
|---|---|---|
| `Placement.Place` | TopClock.py:110-127 | when the window fits the screen on an axis, the corner keeps the whole window on screen on that axis, for every position text |
| `Placement.FloorHalf` | TopClock.py:111-112 | the result is Python's `//` by 2: the floor of half the argument, negative arguments included |
| `Placement.PlaceByAlignment` | TopClock.py:110-127 | the rule equals an independent per-axis definition: each axis aligned at start, middle or end of its free space |
| `Placement.NamedAnchorFormulas` | TopClock.py:110-124 | the exact (x, y) for center, top_left, bottom_left, top_right and bottom_right |
| `Placement.UnknownIsCenter` | TopClock.py:125-127 | every position text other than the five names gives exactly the `center` result |
| `Placement.CenterMargins` | TopClock.py:110-112 | a centred window's two margins on each axis differ by 0 or 1 pixel, and any extra pixel is on the right or bottom |
| `Placement.FlushEdges` | TopClock.py:113-124 | right anchors touch the right edge, bottom anchors the bottom edge, left and top anchors sit at 0 |
| `Geometry.Trunc` | TopClock.py:138 | `int()` of a real: the floor for non-negative values, the ceiling for negative ones |
| `Geometry.TruncMonotone` | TopClock.py:138 | truncation never decreases as its argument grows |
| `Geometry.ScaledSize` | TopClock.py:136-138 | for a non-negative scale the extent is the floor of measured size × scale; for a negative scale the product is truncated toward zero |
| `Geometry.WindowSize` | TopClock.py:136-138 | for non-negative scales, each side is the largest whole number of pixels not above the measured side times its own scale factor |
| `Geometry.ScaledSizeMonotone` | TopClock.py:136-138 | with the measured size fixed, a larger scale never gives a smaller extent |
| `Geometry.WindowSizeMonotone` | TopClock.py:136-138 | width is non-decreasing in the width scale and height in the height scale |
| `Geometry.SecondsBar` | TopClock.py:97-99 | the bar starts at x = 0, has the configured height, its bottom is the window's bottom, its width is `(second / 60) * width` |
| `Geometry.BarWidth` | TopClock.py:98 | sixty times the width is second × window width, so at second 60 the bar would fill the window |
| `Geometry.BarEmptyAtMinuteStart` | TopClock.py:98 | the bar is empty at second 0 |
| `Geometry.BarWidthMonotone` | TopClock.py:98 | the bar never shrinks as the second grows, for a non-negative window width |
| `Geometry.BarWithinWindow` | TopClock.py:97-98 | for seconds 0 to 59 and a positive window width, the bar width is at least 0 and below the window width |
| `Geometry.BarStep` | TopClock.py:98 | each second adds one sixtieth of the window width |
| `Geometry.BarOnBottomEdge` | TopClock.py:99 | a bar no taller than the window has its top edge at `window height - bar height`, inside the window |
| `TimeText.Pad2` | TopClock.py:88 | a two-digit zero-padded field whose digits spell the number |
| `TimeText.FormatTime` | TopClock.py:87-90 | the text has length 8 with seconds and 5 without, `:` at index 2 (and 5), and digits everywhere else |
| `TimeText.ParseTime` | TopClock.py:87-90 | the inverse reader accepts only texts of length 5 or 8 with ':' at index 2, and reads seconds exactly from the 8-character ones |
| `TimeText.ParseFormat` | TopClock.py:87-90 | reading a formatted time gives back (h, m, s), or (h, m) when seconds are hidden |
| `TimeText.FormatParse` | TopClock.py:87-90 | every text the reader accepts is the format of a valid time of day, so formatting and reading are inverse bijections |
| `TimeText.FormatInjective` | TopClock.py:87-90 | two times that show the same text have equal shown fields |
| `TimeText.Placeholder` | TopClock.py:134 | the placeholder is the format applied to 00:00:00, with or without seconds |
| `TimeText.PlaceholderLength` | TopClock.py:134 | the placeholder has the same length as every later label text of the same format |
| `Numerals.ParseInt` | TopClock.py:148 | `int()` of a setting: accepted exactly when the text is ASCII decimal digits with at most one leading sign, and then the value is the digits' value, negated after '-' |
| `Numerals.ShowNatValue` | TopClock.py:148 | the decimal spelling of n denotes n |
| `Numerals.ParseShowInt` | TopClock.py:148 | `int()` reads every printed integer back as itself, negative ones included |
| `Numerals.ParseFloat` | TopClock.py:153-154 | `float()` of a setting: every accepted text contains a digit |
| `Numerals.ParseFloatIff` | TopClock.py:153-154 | `float()` accepts a text exactly when it is an optional sign, then digits with at most one point and at least one digit, then optionally `e` or `E` and an integer |
| `Numerals.ParseFloatSign` | TopClock.py:153-154 | a leading `-` negates the value of the rest and a leading `+` leaves it unchanged, and each is accepted exactly when the rest is |
| `Numerals.ParseFloatExponent` | TopClock.py:153-154 | a mantissa followed by `e` or `E` and any integer k is read as the mantissa's value times ten to the k |
| `Numerals.ParseMantissa` | TopClock.py:153-154 | the digits of a literal before its exponent: accepted ones contain a digit and denote a non-negative number |
| `Numerals.MantissaIff` | TopClock.py:153-154 | a mantissa is accepted exactly when it is digits and at most one point, with at least one digit |
| `Numerals.MantissaWithPoint` | TopClock.py:153-154 | `whole.fraction` as a mantissa, including the forms `.5` and `1.`, denotes the whole digits' value plus the fraction digits read after the point |
| `Numerals.DecimalText` | TopClock.py:153-154 | `float()` reads an unsigned `whole.fraction` literal, including `.5` and `1.`, as that decimal number |
| `Numerals.UnsignedNoExponent` | TopClock.py:153-154 | without a sign or an exponent, `float()` of a text is its mantissa |
| `Numerals.IntTextIsFloatText` | TopClock.py:153-154 | every text `getint` accepts is accepted by `getfloat` with the same value |
| `Numerals.Lower` | TopClock.py:152 | lowering keeps length, turns each upper-case ASCII letter into its lower-case letter, and leaves every other character as it is |
| `Numerals.LowerIdempotent` | TopClock.py:152 | lowering twice is lowering once |
| `Numerals.ParseBool` | TopClock.py:152 | `getboolean`: accepted exactly when the lowered text is one of the eight words, and true exactly when it is one of the four true words |
| `Numerals.ParseBoolIgnoresCase` | TopClock.py:152 | the result does not depend on letter case |
| `Numerals.ParseShowBool` | TopClock.py:152 | "true"/"false" and "True"/"False" are read as the boolean they name |
| `Interpolation.Expand` | TopClock.py:25 | with no nesting room left, expansion fails with the depth error |
| `Interpolation.ExpandPlain` | TopClock.py:25 | a value without `%` is returned unchanged |
| `Interpolation.ExpandEscape` | TopClock.py:25 | `%%` becomes a single `%` and expansion goes on after it |
| `Interpolation.ExpandStrayPercent` | TopClock.py:25 | a `%` at the end or followed by anything but `%` or `(` is a syntax error |
| `Interpolation.ExpandBadReference` | TopClock.py:25 | a `%(` not followed by a non-empty name, a `)` and an `s` (as in `%(a)d`, `%(a` or `%()s`) is a syntax error |
| `Interpolation.ExpandReference` | TopClock.py:25 | `%(name)s` is replaced by the value of the lower-cased option name when that value has no `%` |
| `Interpolation.ExpandLoneReference` | TopClock.py:25 | a value that is exactly `%(name)s` reads as the named option's plain value |
| `Interpolation.ExpandMissing` | TopClock.py:25 | a reference to an option the section lacks is an error naming that option |
| `Interpolation.ExpandNested` | TopClock.py:25 | a referenced value that contains `%` is itself expanded, one nesting level deeper |
| `Interpolation.SelfReference` | TopClock.py:25 | an option that refers to itself fails with the depth error, whatever room is left |
| `Settings.Lookup` | TopClock.py:147-157 | `get` of one key: a missing key is `NoOption`, a present one reads as the expansion of its value, or fails with `InterpolationFailed` carrying the expansion's error; a value without `%` is returned unchanged; a failure names the key |
| `Settings.Get` | TopClock.py:147-157 | without a `Settings` section the result is `NoSection`; otherwise it is the section's `Lookup` of the key, so a missing key is `NoOption` and a present one is its expansion or `InterpolationFailed`; a value without `%` is returned unchanged |
| `Settings.GetInt` | TopClock.py:148 | `getint`: succeeds exactly when `get` succeeds and its text is an integer literal, with that integer as the value; a `get` failure is passed on, and an unreadable text gives `BadValue` with the key and the text |
| `Settings.GetBool` | TopClock.py:152 | `getboolean`: succeeds exactly when `get` succeeds and its text is one of the boolean words, with that boolean as the value; a `get` failure is passed on, and an unreadable text gives `BadValue` with the key and the text |
| `Settings.GetFloat` | TopClock.py:153-154 | `getfloat`: succeeds exactly when `get` succeeds and its text is a float literal, with that number as the value; a `get` failure is passed on, and an unreadable text gives `BadValue` with the key and the text |
| `Settings.StrayPercentFails` | TopClock.py:147-157 | a setting ending in a single `%` fails its check with a syntax error, so no snapshot is taken |
| `Settings.EscapedPercentReads` | TopClock.py:147-157 | a setting ending in `%%` reads with a single `%` |
| `Settings.ReferenceReads` | TopClock.py:147-157 | a setting `%(other)s` reads as the plain value of key `other` of the same section |
| `Settings.DefaultTexts` | TopClock.py:40-72 | the six default texts are read back unchanged |
| `Settings.DefaultNumbers` | TopClock.py:40-72 | the five default numeric and boolean texts are read back unchanged |
| `Settings.DefaultSection` | TopClock.py:40-72 | every key the reader asks for is in the default content |
| `Settings.FieldsCoverDefaults` | TopClock.py:147-157 | the reader asks for eleven keys, each once, and they are exactly the keys of the default content |
| `Settings.DefaultConfig` | TopClock.py:39-73 | the default content has a `Settings` section |
| `Settings.DefaultLookups` | TopClock.py:42-72 | the eleven default values, key by key, exactly as in the default content |
| `Settings.Check` | TopClock.py:147-157 | reading one key succeeds exactly when `get` of it succeeds and the text it returns has the key's type; a failing `get` raises its own error, and a text of the wrong type raises `BadValue` with the key and the text |
| `Settings.CheckIsGetterError` | TopClock.py:147-157 | checking a key raises exactly what `get`, `getint`, `getboolean` or `getfloat`, chosen by the key's kind, raises on that `Settings` section |
| `Settings.FirstErrorIsFirst` | TopClock.py:146-157 | reading the keys in order fails exactly when some key fails, and then with that key's error, every earlier key having succeeded |
| `Settings.CompleteFields` | TopClock.py:147-157 | in a complete section `get` succeeds for all eleven keys, and the five typed values it returns convert |
| `Settings.Extract` | TopClock.py:145-157 | no `Settings` section gives `NoSection`; success exactly when all eleven keys are present and typed; a failure is the error of the first failing key in source order |
| `Settings.ExtractValues` | TopClock.py:147-157 | each snapshot field is what `get`, `getint`, `getboolean` or `getfloat` returns for its key |
| `Settings.ExtractReadsOnlySettings` | TopClock.py:147-157 | the snapshot depends on nothing but the `Settings` section |
| `Settings.DefaultInts` | TopClock.py:45-72 | the default integer texts read as 48 and 3 |
| `Settings.DefaultWidthScale` | TopClock.py:63 | the default width factor text reads as 1.2 |
| `Settings.DefaultHeightScale` | TopClock.py:66 | the default height factor text reads as 1.05 |
| `Settings.DefaultComplete` | TopClock.py:40-72 | the default section passes every key's check |
| `Settings.BuildDefault` | TopClock.py:40-72 | the default section stands for the default snapshot |
| `Settings.ExtractDefaults` | TopClock.py:40-72 | reading the default content gives exactly the default snapshot |
| `Settings.MissingKeyFails` | TopClock.py:147-157 | a `Settings` section missing any of the eleven keys gives no snapshot |
| `SettingsFile.Merge` | TopClock.py:31 | reading into a parser keeps every old section, adds the new ones, lets new values win inside a shared section, and keeps every other key of a shared section |
| `SettingsFile.MergeIntoEmpty` | TopClock.py:28 | reading into a fresh parser gives exactly the file's sections |
| `SettingsFile.MergeDefaults` | TopClock.py:29-31 | after regeneration the parser holds the old sections plus the default `Settings` section |
| `SettingsFile.NeedsDefaults` | TopClock.py:27-29 | a missing file is always regenerated, and a malformed one never is |
| `SettingsFile.Loaded` | TopClock.py:24-35 | `load_settings` fails exactly when the file is malformed, with the error naming the path; a result always has a `Settings` section and keeps every section of the file; with no file it is the default content |
| `SettingsFile.StoreAfter` | TopClock.py:27-34 | `load_settings` changes at most the settings path; every other file is unchanged |
| `SettingsFile.FileStore.WriteDefaults` | TopClock.py:74-75 | the path now holds the default content, every other path is unchanged, and the path is appended to the `written` trace |
| `SettingsFile.FileStore.Read` | TopClock.py:28-34 | a missing path leaves the parser as it is; the read fails exactly when the file is malformed, with the error naming the path; a parsed file is merged into the parser, which keeps all its sections |
| `SettingsFile.FileStore.LoadSettings` | TopClock.py:24-35 | result, new file map and write trace are those of the specification functions; the only write is the one `NeedsDefaults` requires |
| `SettingsFile.WrittenExactlyWhen` | TopClock.py:27-34 | the file system changes exactly when the file is absent or parses without a `Settings` section |
| `SettingsFile.LoadedHasSettings` | TopClock.py:27-35 | a successful load result always has a `Settings` section, identical to the one now on disk |
| `SettingsFile.SecondLoadIsStable` | TopClock.py:27-31 | a second load writes nothing, returns the disk content with the same `Settings` section, and returns the whole same configuration unless the first call regenerated over an existing file |
| `SettingsFile.RegeneratedKeepsOldSectionsInMemory` | TopClock.py:28-31 | a file with only an unrelated section is overwritten on disk, yet the first result still holds that section |
| `SettingsFile.RegeneratedGivesDefaults` | TopClock.py:29-34 | whenever the defaults were written, the snapshot is exactly the default one |
| `SettingsFile.MissingKeyIsNotRepaired` | TopClock.py:29 | a `Settings` section missing a key is not rewritten, and taking the snapshot then fails |
| `SettingsFile.MalformedRaises` | TopClock.py:28 | an unparsable file raises and is not rewritten |
| `SettingsFile.Startup` | TopClock.py:160-169 | startup loads, then takes the snapshot; a load error or a snapshot error is fatal and reported as such |
| `SettingsFile.FirstRun` | TopClock.py:160-169 | with no settings file, startup creates exactly that file with the defaults and runs with the default snapshot |
| `Clock.Tick` | TopClock.py:86-99 | the shown text reads back as the current time, has the placeholder's length, and the bar lies on the bottom edge, `(second / 60) * width` wide and inside the window width |
| `Clock.DefaultScaleScenario` | TopClock.py:136-138 | a 200 × 60 label with the default factors gives a 240 × 63 window |
| `Clock.ScreenScenario` | TopClock.py:110-124 | on 1920 × 1080 that window is at (840, 508) centred and at (1680, 1017) bottom right |

## Left out

- Widget construction, `overrideredirect`, `-topmost`, the geometry strings
  passed to `root.geometry`, `place` and `mainloop` (TopClock.py:164-192).
  These are toolkit calls.
- The one-second self-rescheduling `root.after(1000, update_time)` and the
  double-click handler (TopClock.py:93, 141-142, 189). They belong to the
  event loop. `Clock.Tick` models one tick.
- `datetime.now()`, font measurement and the screen and window queries.
  These are inputs of the model.
- `get_settings_path` (TopClock.py:78-83). It depends on the interpreter and
  the OS path library, so the path is a parameter.
- File I/O and the INI text syntax: comments, whitespace, key case folding,
  the `DEFAULT` section and its fallback values, and duplicate-key errors.
  References are looked up in the `Settings` section only, since the
  `DEFAULT` section and `vars` are not modelled. A
  file is either its parsed sections or `Malformed`.
- Numerals.ParseInt: does not accept the `_` digit separators, the
  surrounding whitespace or the non-ASCII Unicode decimal digits (category
  Nd) that Python's `int()` also allows.
- Numerals.ParseFloat: does not accept `inf`, `nan`, `_` separators,
  surrounding whitespace or non-ASCII Unicode decimal digits. The result is an exact real, not an IEEE double.
- Geometry.ScaledSize: exact real multiplication stands in for the
  floating-point product, which can land just below an integer.
- Interpolation.Expand: option names in references are lowered with the
  ASCII-only `Lower`, not Python's full `str.lower`.
- Numerals.Lower: lowers ASCII letters only. No non-ASCII character lowers
  to a letter in the boolean words, so `getboolean` accepts the same texts.
- The seconds bar width is passed to the toolkit as a float. How the toolkit
  rounds it to pixels is not modelled.
