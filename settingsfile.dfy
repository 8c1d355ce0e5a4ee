/**
 * `load_settings` and `create_default_settings`: finding, regenerating and
 * reading the settings file. The file system is a map from path to what the
 * INI reader makes of the file there.
 */
module SettingsFile {
  import opened Results
  import opened Settings

  /** A file as the INI reader sees it: its sections, or text it refuses to parse. */
  datatype IniFile = Parsed(sections: Config) | Malformed

  /** The reader's `MissingSectionHeaderError` / `ParsingError`, raised out of `load_settings`. */
  datatype LoadError = ParseError(path: string)

  type Store = map<string, IniFile>

  /**
   * What reading a file into a parser that already holds `base` leaves in the
   * parser: sections are added, and within a section present in both the
   * keys are added and the newly read values win.
   */
  function Merge(base: Config, add: Config): (m: Config)
    ensures m.Keys == base.Keys + add.Keys
    ensures forall s :: s in add ==> m[s].Keys == (if s in base then base[s].Keys else {}) + add[s].Keys
    ensures forall s, k :: s in add && k in add[s] ==> m[s][k] == add[s][k]
    ensures forall s :: s in base && s !in add ==> m[s] == base[s]
    ensures forall s, k :: s in base && s in add && k in base[s] && k !in add[s] ==> m[s][k] == base[s][k]
  {
    map s | s in base.Keys + add.Keys ::
      if s in base && s in add then base[s] + add[s]
      else if s in add then add[s]
      else base[s]
  }

  /** Reading into a fresh parser gives exactly the file's sections. */
  lemma MergeIntoEmpty(add: Config)
    ensures Merge(map[], add) == add
  {
  }

  /**
   * After regenerating over a file whose sections lack `Settings`, the parser
   * holds the old sections unchanged next to the default `Settings` section.
   */
  lemma MergeDefaults(base: Config)
    requires SettingsSection !in base
    ensures Merge(base, DefaultConfig()) == base[SettingsSection := DefaultSection()]
  {
  }

  /** Whether `load_settings` rewrites the file with the default content. */
  predicate NeedsDefaults(store: Store, path: string): (b: bool)
    ensures path !in store ==> b
    ensures path in store && store[path].Malformed? ==> !b
  {
    path !in store || (store[path].Parsed? && SettingsSection !in store[path].sections)
  }

  /** The store after `load_settings`. */
  function StoreAfter(store: Store, path: string): (s: Store)
    ensures s.Keys == store.Keys + {path} || s == store
    ensures forall q :: q in store && q != path ==> q in s && s[q] == store[q]
  {
    if NeedsDefaults(store, path) then store[path := Parsed(DefaultConfig())] else store
  }

  /** The configuration `load_settings` returns, or the error it raises. */
  function Loaded(store: Store, path: string): (r: Result<Config, LoadError>)
    ensures r.Failure? <==> path in store && store[path].Malformed?
    ensures r.Failure? ==> r.error == ParseError(path)
    ensures r.Success? ==> SettingsSection in r.value
    ensures r.Success? && path in store ==> store[path].sections.Keys <= r.value.Keys
    ensures path !in store ==> r == Success(DefaultConfig())
  {
    if path !in store then Success(DefaultConfig())
    else match store[path]
      case Malformed => Failure(ParseError(path))
      case Parsed(c) =>
        if SettingsSection in c then Success(c)
        else Success(c[SettingsSection := DefaultSection()])
  }

  /** The file system, updated in place by `create_default_settings`. */
  class FileStore {
    var files: Store
    /** Every path written so far, in order. */
    var written: seq<string>

    constructor (initial: Store)
      ensures files == initial && written == []
    {
      files := initial;
      written := [];
    }

    /** `create_default_settings`: (over)writes `path` with the default content. */
    method WriteDefaults(path: string)
      modifies this
      ensures files == old(files)[path := Parsed(DefaultConfig())]
      ensures written == old(written) + [path]
    {
      files := files[path := Parsed(DefaultConfig())];
      written := written + [path];
    }

    /**
     * `config.read(path)` on a parser holding `parser`: a missing path is
     * skipped silently, a malformed file raises, and a parsed file is merged
     * into what the parser already holds.
     */
    method Read(parser: Config, path: string) returns (r: Result<Config, LoadError>)
      ensures path !in files ==> r == Success(parser)
      ensures r.Failure? <==> path in files && files[path].Malformed?
      ensures r.Failure? ==> r.error == ParseError(path)
      ensures r.Success? ==> parser.Keys <= r.value.Keys
      ensures path in files && files[path].Parsed? ==> r == Success(Merge(parser, files[path].sections))
    {
      if path !in files {
        r := Success(parser);
      } else {
        match files[path]
        case Malformed =>
          r := Failure(ParseError(path));
        case Parsed(c) =>
          r := Success(Merge(parser, c));
      }
    }

    /** `load_settings`. */
    method LoadSettings(path: string) returns (r: Result<Config, LoadError>)
      modifies this
      ensures r == Loaded(old(files), path)
      ensures files == StoreAfter(old(files), path)
      ensures written == old(written) + (if NeedsDefaults(old(files), path) then [path] else [])
    {
      var config: Config := map[];
      if path in files {
        r := Read(config, path);
        if r.Success? {
          config := r.value;
          MergeIntoEmpty(files[path].sections);
          if SettingsSection !in config {
            WriteDefaults(path);
            r := Read(config, path);
            MergeDefaults(config);
          }
        }
      } else {
        WriteDefaults(path);
        r := Read(config, path);
        MergeIntoEmpty(DefaultConfig());
      }
    }
  }

  /** The file is written exactly when it is absent or parses without a `Settings` section. */
  lemma WrittenExactlyWhen(store: Store, path: string)
    ensures StoreAfter(store, path) != store <==>
            path !in store || (store[path].Parsed? && SettingsSection !in store[path].sections)
  {
    if path in store && NeedsDefaults(store, path) {
      assert store[path] != Parsed(DefaultConfig()) by {
        assert SettingsSection in DefaultConfig();
      }
      assert StoreAfter(store, path)[path] != store[path];
    }
  }

  /** Whatever `load_settings` returns holds a `Settings` section, the one now on disk. */
  lemma LoadedHasSettings(store: Store, path: string)
    requires Loaded(store, path).Success?
    ensures var after := StoreAfter(store, path);
            && SettingsSection in Loaded(store, path).value
            && path in after && after[path].Parsed?
            && SettingsSection in after[path].sections
            && Loaded(store, path).value[SettingsSection] == after[path].sections[SettingsSection]
  {
  }

  /**
   * A second `load_settings` writes nothing and returns what is on disk; its
   * `Settings` section is that of the first call. The whole configuration is
   * the same unless the first call regenerated over an existing file, whose
   * other sections only the first result still holds.
   */
  lemma SecondLoadIsStable(store: Store, path: string)
    requires Loaded(store, path).Success?
    ensures var after := StoreAfter(store, path);
            && !NeedsDefaults(after, path)
            && StoreAfter(after, path) == after
            && Loaded(after, path) == Success(after[path].sections)
            && Loaded(after, path).value[SettingsSection] == Loaded(store, path).value[SettingsSection]
            && (!(path in store && NeedsDefaults(store, path)) ==> Loaded(after, path) == Loaded(store, path))
  {
    LoadedHasSettings(store, path);
  }

  /** A file with only an unrelated section: the first result keeps that section, the file does not. */
  lemma RegeneratedKeepsOldSectionsInMemory()
    ensures var store := map["TopClock.ini" := Parsed(map["Other" := map[]])];
            var after := StoreAfter(store, "TopClock.ini");
            && after["TopClock.ini"] == Parsed(DefaultConfig())
            && "Other" in Loaded(store, "TopClock.ini").value
            && "Other" !in Loaded(after, "TopClock.ini").value
  {
  }

  /** Whenever the defaults were (re)written, the snapshot is the default one. */
  lemma RegeneratedGivesDefaults(store: Store, path: string)
    requires NeedsDefaults(store, path)
    ensures Loaded(store, path).Success?
    ensures Extract(Loaded(store, path).value) == Success(DefaultSnapshot())
  {
    ExtractDefaults();
    ExtractReadsOnlySettings(Loaded(store, path).value, DefaultConfig());
  }

  /**
   * Only the section decides regeneration: a `Settings` section that lacks a
   * key is left on disk as it is, and the snapshot cannot be taken.
   */
  lemma MissingKeyIsNotRepaired(store: Store, path: string, i: nat)
    requires path in store && store[path].Parsed?
    requires SettingsSection in store[path].sections
    requires i < |Fields| && Fields[i].0 !in store[path].sections[SettingsSection]
    ensures !NeedsDefaults(store, path) && StoreAfter(store, path) == store
    ensures Loaded(store, path) == Success(store[path].sections)
    ensures Extract(Loaded(store, path).value).Failure?
  {
    MissingKeyFails(store[path].sections, i);
  }

  /** A malformed file is neither read nor rewritten: `load_settings` raises. */
  lemma MalformedRaises(store: Store, path: string)
    requires path in store && store[path].Malformed?
    ensures Loaded(store, path) == Failure(ParseError(path))
    ensures StoreAfter(store, path) == store
  {
  }

  /** Initialising the settings: load, then take the snapshot; either step may be fatal. */
  datatype StartupError = LoadFailed(load: LoadError) | ExtractFailed(extract: ExtractError)

  /** The start of the program: `load_settings`, then `initialize_settings`. */
  method Startup(fs: FileStore, path: string) returns (r: Result<Snapshot, StartupError>)
    modifies fs
    ensures fs.files == StoreAfter(old(fs.files), path)
    ensures fs.written == old(fs.written) + (if NeedsDefaults(old(fs.files), path) then [path] else [])
    ensures r == match Loaded(old(fs.files), path)
                 case Failure(e) => Failure(LoadFailed(e))
                 case Success(c) =>
                   match Extract(c)
                   case Failure(e) => Failure(ExtractFailed(e))
                   case Success(s) => Success(s)
  {
    var loaded := fs.LoadSettings(path);
    match loaded
    case Failure(e) =>
      r := Failure(LoadFailed(e));
    case Success(c) =>
      match Extract(c)
      case Failure(e) =>
        r := Failure(ExtractFailed(e));
      case Success(s) =>
        r := Success(s);
  }

  /** On a first run, with no settings file, startup creates it and runs with the defaults. */
  method FirstRun(path: string) returns (r: Result<Snapshot, StartupError>, fs: FileStore)
    ensures r == Success(DefaultSnapshot())
    ensures fs.files == map[path := Parsed(DefaultConfig())] && fs.written == [path]
  {
    fs := new FileStore(map[]);
    RegeneratedGivesDefaults(map[], path);
    assert Loaded(map[], path) == Success(DefaultConfig());
    r := Startup(fs, path);
  }
}
