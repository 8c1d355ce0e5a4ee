/**
 * The settings file's contents once parsed, the literal default content,
 * and the typed snapshot `initialize_settings` takes from it.
 */
module Settings {
  import opened Results
  import opened Numerals
  import opened Interpolation

  /** A parsed INI file: section name to (key to value text). */
  type Section = map<string, string>
  type Config = map<string, Section>

  /** The one section the clock reads. */
  const SettingsSection: string := "Settings"

  const BgColor: string := "bg_color"
  const FontSize: string := "font_size"
  const FontName: string := "font_name"
  const FontStyle: string := "font_style"
  const FontColor: string := "font_color"
  const Position: string := "position"
  const ShowSeconds: string := "show_seconds"
  const WidthIncrease: string := "width_increase_percent"
  const HeightIncrease: string := "height_increase_percent"
  const SecondsBarColor: string := "seconds_bar_color"
  const SecondsBarHeight: string := "seconds_bar_height"

  /** The `[Settings]` section of the default file, with its comment lines dropped. */
  function DefaultSection(): (sec: Section)
    ensures forall i :: 0 <= i < |Fields| ==> Fields[i].0 in sec
  {
    map[BgColor := "#1E1E1E",
        FontSize := "48",
        FontName := "Tahoma",
        FontStyle := "bold",
        FontColor := "#D4D4D4",
        Position := "center",
        ShowSeconds := "true",
        WidthIncrease := "1.2",
        HeightIncrease := "1.05",
        SecondsBarColor := "#4C72AF",
        SecondsBarHeight := "3"]
  }

  /** The default file as the reader parses it: a single section, `Settings`. */
  function DefaultConfig(): (c: Config)
    ensures SettingsSection in c
  {
    map[SettingsSection := DefaultSection()]
  }

  /** The typed settings the clock runs with. */
  datatype Snapshot = Snapshot(
    bgColor: string,
    fontSize: int,
    fontName: string,
    fontStyle: string,
    fontColor: string,
    showSeconds: bool,
    widthScale: real,
    heightScale: real,
    secondsBarColor: string,
    secondsBarHeight: int,
    position: string)

  /** The snapshot the literal defaults stand for. */
  function DefaultSnapshot(): Snapshot {
    Snapshot("#1E1E1E", 48, "Tahoma", "bold", "#D4D4D4", true, 1.2, 1.05, "#4C72AF", 3, "center")
  }

  /**
   * Why a snapshot could not be taken: the reader's `NoSectionError`,
   * `NoOptionError`, an interpolation error, and the `ValueError` of a conversion.
   */
  datatype ExtractError =
    | NoSection
    | NoOption(key: string)
    | InterpolationFailed(key: string, cause: InterpolationError)
    | BadValue(key: string, text: string)

  /** How a key's text is read: `get`, `getint`, `getboolean` or `getfloat`. */
  datatype Kind = Text | Int | Bool | Float

  /** The eleven keys with the way each is read, in the order the snapshot is taken. */
  const Fields: seq<(string, Kind)> :=
    [(BgColor, Text), (FontSize, Int), (FontName, Text), (FontStyle, Text), (FontColor, Text),
     (ShowSeconds, Bool), (WidthIncrease, Float), (HeightIncrease, Float),
     (SecondsBarColor, Text), (SecondsBarHeight, Int), (Position, Text)]

  /** Where a key of the default content stands in the read order. */
  function FieldIndex(k: string): (i: nat)
    requires k in DefaultSection()
    ensures i < |Fields| && Fields[i].0 == k
  {
    if k == BgColor then 0 else if k == FontSize then 1 else if k == FontName then 2
    else if k == FontStyle then 3 else if k == FontColor then 4 else if k == ShowSeconds then 5
    else if k == WidthIncrease then 6 else if k == HeightIncrease then 7
    else if k == SecondsBarColor then 8 else if k == SecondsBarHeight then 9 else 10
  }

  /** Each key is read exactly once, and the keys read are exactly the keys of the default content. */
  lemma FieldsCoverDefaults()
    ensures |Fields| == 11
    ensures forall i, j :: 0 <= i < j < |Fields| ==> Fields[i].0 != Fields[j].0
    ensures forall k :: k in DefaultSection() <==> exists i :: 0 <= i < |Fields| && Fields[i].0 == k
  {
    forall k | k in DefaultSection()
      ensures exists i :: 0 <= i < |Fields| && Fields[i].0 == k
    {
      var i := FieldIndex(k);
      assert Fields[i].0 == k;
    }
  }

  predicate Readable(kind: Kind, text: string) {
    match kind
    case Text => true
    case Int => ParseInt(text).Some?
    case Bool => ParseBool(text).Some?
    case Float => ParseFloat(text).Some?
  }

  /** The text of `key` in a section as `get` returns it: looked up, then interpolated. */
  function Lookup(sec: Section, key: string): (r: Result<string, ExtractError>)
    ensures key !in sec ==> r == Failure(NoOption(key))
    ensures key in sec ==> (r.Success? <==> Expand(sec, sec[key], MaxDepth).Success?)
    ensures key in sec && NoPercent(sec[key]) ==> r == Success(sec[key])
    ensures key in sec ==>
              var e := Expand(sec, sec[key], MaxDepth);
              r == if e.Success? then Success(e.value) else Failure(InterpolationFailed(key, e.error))
    ensures r.Failure? ==> !r.error.NoSection? && !r.error.BadValue? && r.error.key == key
  {
    if key !in sec then Failure(NoOption(key))
    else
      assert NoPercent(sec[key]) ==> Expand(sec, sec[key], MaxDepth) == Success(sec[key]) by {
        if NoPercent(sec[key]) {
          ExpandPlain(sec, sec[key], MaxDepth);
        }
      }
      match Expand(sec, sec[key], MaxDepth)
      case Failure(cause) => Failure(InterpolationFailed(key, cause))
      case Success(text) => Success(text)
  }

  /** `get`: the text of a key of the `Settings` section. */
  function Get(cfg: Config, key: string): (r: Result<string, ExtractError>)
    ensures SettingsSection !in cfg ==> r == Failure(NoSection)
    ensures SettingsSection in cfg ==> r == Lookup(cfg[SettingsSection], key)
    ensures r.Success? <==> SettingsSection in cfg && key in cfg[SettingsSection]
                            && Expand(cfg[SettingsSection], cfg[SettingsSection][key], MaxDepth).Success?
    ensures SettingsSection in cfg && key in cfg[SettingsSection] && NoPercent(cfg[SettingsSection][key]) ==>
              r == Success(cfg[SettingsSection][key])
    ensures r.Failure? ==> !r.error.BadValue?
  {
    if SettingsSection !in cfg then Failure(NoSection)
    else Lookup(cfg[SettingsSection], key)
  }

  /** `getint`, `getboolean` and `getfloat`: `get`, then the conversion. */
  function GetInt(cfg: Config, key: string): (r: Result<int, ExtractError>)
    ensures r.Success? <==> Get(cfg, key).Success? && ParseInt(Get(cfg, key).value).Some?
    ensures r.Success? ==> r.value == ParseInt(Get(cfg, key).value).value
    ensures Get(cfg, key).Failure? ==> r == Failure(Get(cfg, key).error)
    ensures Get(cfg, key).Success? && ParseInt(Get(cfg, key).value).None? ==>
              r == Failure(BadValue(key, Get(cfg, key).value))
  {
    var t :- Get(cfg, key);
    match ParseInt(t)
    case Some(n) => Success(n)
    case None => Failure(BadValue(key, t))
  }

  function GetBool(cfg: Config, key: string): (r: Result<bool, ExtractError>)
    ensures r.Success? <==> Get(cfg, key).Success? && ParseBool(Get(cfg, key).value).Some?
    ensures r.Success? ==> r.value == ParseBool(Get(cfg, key).value).value
    ensures Get(cfg, key).Failure? ==> r == Failure(Get(cfg, key).error)
    ensures Get(cfg, key).Success? && ParseBool(Get(cfg, key).value).None? ==>
              r == Failure(BadValue(key, Get(cfg, key).value))
  {
    var t :- Get(cfg, key);
    match ParseBool(t)
    case Some(b) => Success(b)
    case None => Failure(BadValue(key, t))
  }

  function GetFloat(cfg: Config, key: string): (r: Result<real, ExtractError>)
    ensures r.Success? <==> Get(cfg, key).Success? && ParseFloat(Get(cfg, key).value).Some?
    ensures r.Success? ==> r.value == ParseFloat(Get(cfg, key).value).value
    ensures Get(cfg, key).Failure? ==> r == Failure(Get(cfg, key).error)
    ensures Get(cfg, key).Success? && ParseFloat(Get(cfg, key).value).None? ==>
              r == Failure(BadValue(key, Get(cfg, key).value))
  {
    var t :- Get(cfg, key);
    match ParseFloat(t)
    case Some(v) => Success(v)
    case None => Failure(BadValue(key, t))
  }

  /** What reading one key of the section raises, if anything. */
  function Check(sec: Section, field: (string, Kind)): (e: Option<ExtractError>)
    ensures e.None? <==> Lookup(sec, field.0).Success? && Readable(field.1, Lookup(sec, field.0).value)
    ensures field.0 !in sec ==> e == Some(NoOption(field.0))
    ensures Lookup(sec, field.0).Failure? ==> e == Some(Lookup(sec, field.0).error)
    ensures Lookup(sec, field.0).Success? && !Readable(field.1, Lookup(sec, field.0).value) ==>
              e == Some(BadValue(field.0, Lookup(sec, field.0).value))
    ensures e.Some? ==> !e.value.NoSection? && e.value.key == field.0
  {
    match Lookup(sec, field.0)
    case Failure(err) => Some(err)
    case Success(text) => if Readable(field.1, text) then None else Some(BadValue(field.0, text))
  }

  /** The error a reading raises, if any. */
  function ErrorOf<T>(r: Result<T, ExtractError>): Option<ExtractError> {
    if r.Failure? then Some(r.error) else None
  }

  /** Checking a key raises exactly what the getter for its kind raises on the `Settings` section. */
  lemma CheckIsGetterError(sec: Section, field: (string, Kind))
    ensures var cfg := map[SettingsSection := sec];
            Check(sec, field) ==
              match field.1
              case Text => ErrorOf(Get(cfg, field.0))
              case Int => ErrorOf(GetInt(cfg, field.0))
              case Bool => ErrorOf(GetBool(cfg, field.0))
              case Float => ErrorOf(GetFloat(cfg, field.0))
  {
  }

  /** The error of the first field in `fields` whose reading fails. */
  function FirstError(sec: Section, fields: seq<(string, Kind)>): Option<ExtractError> {
    if fields == [] then None
    else if Check(sec, fields[0]).Some? then Check(sec, fields[0])
    else FirstError(sec, fields[1..])
  }

  /** Reading the fields in order stops at the first one that fails, with that field's error. */
  lemma {:induction false} FirstErrorIsFirst(sec: Section, fields: seq<(string, Kind)>)
    ensures FirstError(sec, fields).None? <==> forall i :: 0 <= i < |fields| ==> Check(sec, fields[i]).None?
    ensures FirstError(sec, fields).Some? ==>
              exists i :: 0 <= i < |fields| && Check(sec, fields[i]) == FirstError(sec, fields) &&
                          forall j :: 0 <= j < i ==> Check(sec, fields[j]).None?
  {
    if fields != [] && Check(sec, fields[0]).None? {
      var rest := fields[1..];
      FirstErrorIsFirst(sec, rest);
      if FirstError(sec, rest).Some? {
        var i :| 0 <= i < |rest| && Check(sec, rest[i]) == FirstError(sec, rest) &&
                 forall j :: 0 <= j < i ==> Check(sec, rest[j]).None?;
        assert Check(sec, fields[i + 1]) == FirstError(sec, fields);
        forall j | 0 <= j < i + 1 ensures Check(sec, fields[j]).None? {
          if j > 0 { assert fields[j] == rest[j - 1]; }
        }
      } else {
        forall i | 0 <= i < |fields| ensures Check(sec, fields[i]).None? {
          if i > 0 { assert fields[i] == rest[i - 1]; }
        }
      }
    }
  }

  /** All eleven keys are present and the five typed ones hold text of their type. */
  predicate Complete(sec: Section) {
    forall i :: 0 <= i < |Fields| ==> Check(sec, Fields[i]).None?
  }

  lemma CompleteFields(sec: Section)
    requires Complete(sec)
    ensures Lookup(sec, BgColor).Success? && Lookup(sec, FontName).Success?
    ensures Lookup(sec, FontStyle).Success? && Lookup(sec, FontColor).Success?
    ensures Lookup(sec, SecondsBarColor).Success? && Lookup(sec, Position).Success?
    ensures Lookup(sec, FontSize).Success? && ParseInt(Lookup(sec, FontSize).value).Some?
    ensures Lookup(sec, ShowSeconds).Success? && ParseBool(Lookup(sec, ShowSeconds).value).Some?
    ensures Lookup(sec, WidthIncrease).Success? && ParseFloat(Lookup(sec, WidthIncrease).value).Some?
    ensures Lookup(sec, HeightIncrease).Success? && ParseFloat(Lookup(sec, HeightIncrease).value).Some?
    ensures Lookup(sec, SecondsBarHeight).Success? && ParseInt(Lookup(sec, SecondsBarHeight).value).Some?
  {
    assert Check(sec, Fields[0]).None? && Check(sec, Fields[1]).None? && Check(sec, Fields[2]).None?;
    assert Check(sec, Fields[3]).None? && Check(sec, Fields[4]).None? && Check(sec, Fields[5]).None?;
    assert Check(sec, Fields[6]).None? && Check(sec, Fields[7]).None? && Check(sec, Fields[8]).None?;
    assert Check(sec, Fields[9]).None? && Check(sec, Fields[10]).None?;
  }

  /** The snapshot a complete section stands for. */
  function Build(sec: Section): Snapshot
    requires Complete(sec)
  {
    CompleteFields(sec);
    Snapshot(Lookup(sec, BgColor).value, ParseInt(Lookup(sec, FontSize).value).value,
             Lookup(sec, FontName).value, Lookup(sec, FontStyle).value, Lookup(sec, FontColor).value,
             ParseBool(Lookup(sec, ShowSeconds).value).value, ParseFloat(Lookup(sec, WidthIncrease).value).value,
             ParseFloat(Lookup(sec, HeightIncrease).value).value, Lookup(sec, SecondsBarColor).value,
             ParseInt(Lookup(sec, SecondsBarHeight).value).value, Lookup(sec, Position).value)
  }

  /**
   * `initialize_settings`: reads the eleven keys in order; a missing section,
   * or the first missing key or ill-typed value, stops it with that error.
   */
  function Extract(cfg: Config): (r: Result<Snapshot, ExtractError>)
    ensures SettingsSection !in cfg ==> r == Failure(NoSection)
    ensures r.Success? <==> SettingsSection in cfg && Complete(cfg[SettingsSection])
    ensures r.Success? ==> r.value == Build(cfg[SettingsSection])
    ensures r.Failure? && SettingsSection in cfg ==>
              exists i :: 0 <= i < |Fields| && Check(cfg[SettingsSection], Fields[i]) == Some(r.error) &&
                          forall j :: 0 <= j < i ==> Check(cfg[SettingsSection], Fields[j]).None?
  {
    if SettingsSection !in cfg then Failure(NoSection)
    else
      var sec := cfg[SettingsSection];
      FirstErrorIsFirst(sec, Fields);
      match FirstError(sec, Fields)
      case Some(e) => Failure(e)
      case None => Success(Build(sec))
  }

  /** The typed values are the settings' texts read at their types. */
  lemma ExtractValues(cfg: Config)
    requires Extract(cfg).Success?
    ensures var r := Extract(cfg).value;
            && Get(cfg, BgColor) == Success(r.bgColor)
            && Get(cfg, FontName) == Success(r.fontName)
            && Get(cfg, FontStyle) == Success(r.fontStyle)
            && Get(cfg, FontColor) == Success(r.fontColor)
            && Get(cfg, SecondsBarColor) == Success(r.secondsBarColor)
            && Get(cfg, Position) == Success(r.position)
            && GetInt(cfg, FontSize) == Success(r.fontSize)
            && GetBool(cfg, ShowSeconds) == Success(r.showSeconds)
            && GetFloat(cfg, WidthIncrease) == Success(r.widthScale)
            && GetFloat(cfg, HeightIncrease) == Success(r.heightScale)
            && GetInt(cfg, SecondsBarHeight) == Success(r.secondsBarHeight)
  {
    CompleteFields(cfg[SettingsSection]);
  }

  /** Only the `Settings` section matters to the snapshot; every other section is ignored. */
  lemma ExtractReadsOnlySettings(c: Config, c': Config)
    requires SettingsSection in c && SettingsSection in c'
    requires c[SettingsSection] == c'[SettingsSection]
    ensures Extract(c) == Extract(c')
  {
  }

  lemma DefaultInts()
    ensures ParseInt("48") == Some(48) && ParseInt("3") == Some(3)
  {
    ParseShowInt(48);
    assert ShowInt(48) == "48";
    ParseShowInt(3);
    assert ShowInt(3) == "3";
  }

  lemma DefaultWidthScale()
    ensures ParseFloat("1.2") == Some(1.2)
  {
    var t := "1.2";
    assert IndexOfAny(t, {'e', 'E'}) == 3;
    assert t[..3] == t;
    assert IndexOfAny(t, {'.'}) == 1;
    assert t[..1] == "1" && t[2..] == "2";
  }

  lemma DefaultHeightScale()
    ensures ParseFloat("1.05") == Some(1.05)
  {
    var t := "1.05";
    assert IndexOfAny(t, {'e', 'E'}) == 4;
    assert t[..4] == t;
    assert IndexOfAny(t, {'.'}) == 1;
    assert t[..1] == "1" && t[2..] == "05";
    assert DigitsValue("05") == 5 by {
      assert "05"[..1] == "0";
    }
  }

  /** The default content yields exactly the default snapshot. */
  lemma ExtractDefaults()
    ensures Extract(DefaultConfig()) == Success(DefaultSnapshot())
  {
    DefaultComplete();
    assert Extract(DefaultConfig()) == Success(Build(DefaultSection()));
    BuildDefault();
  }

  lemma BuildDefault()
    ensures Complete(DefaultSection()) && Build(DefaultSection()) == DefaultSnapshot()
  {
    DefaultComplete();
    DefaultTexts();
    DefaultNumbers();
    DefaultInts();
    ParseShowBool(true);
    DefaultWidthScale();
    DefaultHeightScale();
  }

  /** The eleven default texts, key by key. */
  lemma DefaultLookups()
    ensures var sec := DefaultSection();
            && sec[BgColor] == "#1E1E1E" && sec[FontSize] == "48" && sec[FontName] == "Tahoma"
            && sec[FontStyle] == "bold" && sec[FontColor] == "#D4D4D4" && sec[ShowSeconds] == "true"
            && sec[WidthIncrease] == "1.2" && sec[HeightIncrease] == "1.05"
            && sec[SecondsBarColor] == "#4C72AF" && sec[SecondsBarHeight] == "3" && sec[Position] == "center"
  {
  }

  /** No default text contains a `%`, so reading the defaults returns them unchanged. */
  lemma DefaultTexts()
    ensures var sec := DefaultSection();
            && Lookup(sec, BgColor) == Success("#1E1E1E") && Lookup(sec, FontName) == Success("Tahoma")
            && Lookup(sec, FontStyle) == Success("bold") && Lookup(sec, FontColor) == Success("#D4D4D4")
            && Lookup(sec, SecondsBarColor) == Success("#4C72AF") && Lookup(sec, Position) == Success("center")
  {
    DefaultLookups();
    assert NoPercent("#1E1E1E") && NoPercent("Tahoma") && NoPercent("bold");
    assert NoPercent("#D4D4D4") && NoPercent("#4C72AF") && NoPercent("center");
  }

  lemma DefaultNumbers()
    ensures var sec := DefaultSection();
            && Lookup(sec, FontSize) == Success("48") && Lookup(sec, ShowSeconds) == Success("true")
            && Lookup(sec, WidthIncrease) == Success("1.2") && Lookup(sec, HeightIncrease) == Success("1.05")
            && Lookup(sec, SecondsBarHeight) == Success("3")
  {
    DefaultLookups();
    assert NoPercent("48") && NoPercent("true") && NoPercent("1.2") && NoPercent("1.05") && NoPercent("3");
  }

  /** A key whose text has no `%` and reads at its kind passes its check. */
  lemma PlainFieldPasses(sec: Section, field: (string, Kind))
    requires field.0 in sec && NoPercent(sec[field.0]) && Readable(field.1, sec[field.0])
    ensures Check(sec, field).None?
  {
  }

  lemma DefaultPresent(i: nat)
    requires i < |Fields|
    ensures Fields[i].0 in DefaultSection() && NoPercent(DefaultSection()[Fields[i].0])
  {
    DefaultLookups();
    assert NoPercent("#1E1E1E") && NoPercent("Tahoma") && NoPercent("bold");
    assert NoPercent("#D4D4D4") && NoPercent("#4C72AF") && NoPercent("center");
    assert NoPercent("48") && NoPercent("true") && NoPercent("1.2") && NoPercent("1.05") && NoPercent("3");
  }

  lemma DefaultIntField(i: nat)
    requires i == 1 || i == 9
    ensures Readable(Fields[i].1, DefaultSection()[Fields[i].0])
  {
    DefaultLookups();
    DefaultInts();
    assert Fields[i].1 == Int;
  }

  lemma DefaultBoolField()
    ensures Readable(Fields[5].1, DefaultSection()[Fields[5].0])
  {
    DefaultLookups();
    ParseShowBool(true);
    assert Fields[5] == (ShowSeconds, Bool);
  }

  lemma DefaultWidthField()
    ensures Readable(Fields[6].1, DefaultSection()[Fields[6].0])
  {
    DefaultLookups();
    DefaultWidthScale();
    assert Fields[6] == (WidthIncrease, Float);
  }

  lemma DefaultHeightField()
    ensures Readable(Fields[7].1, DefaultSection()[Fields[7].0])
  {
    DefaultLookups();
    DefaultHeightScale();
    assert Fields[7] == (HeightIncrease, Float);
  }

  lemma DefaultField(i: nat)
    requires i < |Fields|
    ensures Check(DefaultSection(), Fields[i]).None?
  {
    DefaultPresent(i);
    if i == 1 || i == 9 {
      DefaultIntField(i);
    } else if i == 5 {
      DefaultBoolField();
    } else if i == 6 {
      DefaultWidthField();
    } else if i == 7 {
      DefaultHeightField();
    } else {
      assert Fields[i].1 == Text;
    }
    PlainFieldPasses(DefaultSection(), Fields[i]);
  }

  lemma DefaultComplete()
    ensures Complete(DefaultSection())
  {
    forall i | 0 <= i < |Fields| ensures Check(DefaultSection(), Fields[i]).None? {
      DefaultField(i);
    }
  }

  /** A `Settings` section with a key missing gives no snapshot. */
  lemma MissingKeyFails(cfg: Config, i: nat)
    requires SettingsSection in cfg && i < |Fields| && Fields[i].0 !in cfg[SettingsSection]
    ensures Extract(cfg).Failure?
  {
  }

  /** A setting with a stray `%`, such as `50%`, stops the snapshot with an interpolation error. */
  lemma StrayPercentFails(cfg: Config, i: nat, a: string)
    requires SettingsSection in cfg && i < |Fields| && NoPercent(a)
    requires Fields[i].0 in cfg[SettingsSection] && cfg[SettingsSection][Fields[i].0] == a + "%"
    ensures Check(cfg[SettingsSection], Fields[i]) == Some(InterpolationFailed(Fields[i].0, BadSyntax))
    ensures Extract(cfg).Failure?
  {
    var sec := cfg[SettingsSection];
    assert a + "%" + [] == a + "%";
    ExpandStrayPercent(sec, a, [], MaxDepth);
  }

  /** `%%` in a setting reads as a single `%`. */
  lemma EscapedPercentReads(sec: Section, key: string, a: string)
    requires key in sec && NoPercent(a) && sec[key] == a + "%%"
    ensures Lookup(sec, key) == Success(a + "%")
  {
    assert a + "%%" + [] == a + "%%";
    ExpandEscape(sec, a, [], MaxDepth);
    ExpandPlain(sec, [], MaxDepth);
    assert a + "%" + [] == a + "%";
  }

  /** A setting that is exactly `%(other)s` reads as the other key's text. */
  lemma ReferenceReads(sec: Section, key: string, other: string)
    requires |other| >= 1 && (forall i :: 0 <= i < |other| ==> other[i] != ')') && Lower(other) == other
    requires key in sec && sec[key] == "%(" + other + ")s"
    requires other in sec && NoPercent(sec[other])
    ensures Lookup(sec, key) == Success(sec[other])
  {
    ExpandLoneReference(sec, other, MaxDepth);
  }
}
