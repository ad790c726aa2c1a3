/**
 * The configuration store: a dictionary that starts as a copy of the
 * defaults, is overlaid with the saved configuration file when that loads,
 * and is read and changed key by key.
 */
module Configuration {
  import opened Basics

  /** A JSON value, as the store and the configuration file hold them. */
  datatype Value =
    | Null
    | Bool(b: bool)
    | Int(i: int)
    | Real(r: real)
    | Str(s: string)
    | List(items: seq<Value>)
    | Object(fields: map<string, Value>)

  /** `DEFAULT_CONFIG`. */
  const Defaults: map<string, Value> := map[
    "similarity_threshold" := Int(80),
    "sample_frames" := Int(10),
    "min_file_size" := Int(1024 * 1024),
    "min_duration" := Int(5),
    "max_duration" := Null,
    "supported_formats" := List([Str(".mp4"), Str(".avi"), Str(".mkv"), Str(".mov"),
                                 Str(".wmv"), Str(".flv"), Str(".webm"), Str(".m4v")]),
    "processing_mode" := Str("trash"),
    "backup_folder" := Str(""),
    "ui_theme" := Str("default"),
    "language" := Str("zh_CN")
  ]

  /** `dict.get(key, default)`. */
  function Lookup(store: map<string, Value>, key: string, default: Value): (v: Value)
    ensures key in store ==> v == store[key]
    ensures key !in store ==> v == default
  {
    if key in store then store[key] else default
  }

  /** `dict.update(other)`: every key of `other` takes its value there; every other key keeps its own. */
  lemma UpdateOverrides(store: map<string, Value>, other: map<string, Value>, key: string, default: Value)
    ensures Lookup(store + other, key, default) == Lookup(other, key, Lookup(store, key, default))
    ensures (store + other).Keys == store.Keys + other.Keys
  {
  }

  /** The store built at start-up holds every default key, with the loaded value where one was loaded. */
  lemma StartupKeys(loaded: Option<map<string, Value>>, key: string, default: Value)
    ensures var store := if loaded.Some? then Defaults + loaded.value else Defaults;
      && Defaults.Keys <= store.Keys
      && (loaded.Some? && key in loaded.value ==> Lookup(store, key, default) == loaded.value[key])
      && (loaded.None? || key !in loaded.value ==> Lookup(store, key, default) == Lookup(Defaults, key, default))
  {
  }

  /** The defaults hold the threshold, the formats and the processing mode the scanners and the processor start from. */
  lemma DefaultValues()
    ensures Lookup(Defaults, "similarity_threshold", Null) == Int(80)
    ensures Lookup(Defaults, "min_file_size", Null) == Int(1048576)
    ensures Lookup(Defaults, "processing_mode", Null) == Str("trash")
    ensures Lookup(Defaults, "max_duration", Int(0)) == Null
  {
  }

  /** pathlib's `folder / name`. */
  function JoinPath(folder: string, name: string): string
  {
    folder + "/" + name
  }

  class Config {
    /** Where the store is loaded from and saved to. */
    const configFile: string
    /** `self.config`. */
    var config: map<string, Value>

    /**
     * A copy of the defaults, then overlaid with the configuration file.
     * `loaded` is what `json.load` returns for that file, None when it does
     * not exist or fails to load; `home` is the user's home directory.
     */
    constructor(configFile: Option<string>, home: string, loaded: Option<map<string, Value>>)
      ensures this.configFile == if configFile.Some? then configFile.value else JoinPath(JoinPath(home, ".dupfinder"), "config.json")
      ensures config == if loaded.Some? then Defaults + loaded.value else Defaults
    {
      this.configFile := if configFile.Some? then configFile.value else JoinPath(JoinPath(home, ".dupfinder"), "config.json");
      config := Defaults;
      new;
      LoadConfig(loaded);
    }

    /** `load_config`: overlay the loaded dictionary; a failed load changes nothing. */
    method LoadConfig(loaded: Option<map<string, Value>>)
      modifies this
      ensures config == if loaded.Some? then old(config) + loaded.value else old(config)
    {
      if loaded.Some? {
        config := config + loaded.value;
      }
    }

    /** `get`: the stored value if the key is present, else the default. */
    function Get(key: string, default: Value): (v: Value)
      reads this
      ensures key in config ==> v == config[key]
      ensures key !in config ==> v == default
    {
      Lookup(config, key, default)
    }

    /** `set`: afterwards the key reads back the value, and every other key reads as before. */
    method Set(key: string, value: Value)
      modifies this
      ensures config == old(config)[key := value]
      ensures Get(key, Null) == value
      ensures forall k, d :: k != key ==> Get(k, d) == old(Get(k, d))
    {
      config := config[key := value];
    }

    /** `update`: exactly the keys of `other` take its values. */
    method Update(other: map<string, Value>)
      modifies this
      ensures config == old(config) + other
      ensures forall k, d :: k in other ==> Get(k, d) == other[k]
      ensures forall k, d :: k !in other ==> Get(k, d) == old(Get(k, d))
    {
      config := config + other;
    }

    /** `reset_to_default`. */
    method ResetToDefault()
      modifies this
      ensures config == Defaults
    {
      config := Defaults;
    }

    /**
     * `get_all`: a copy of the store. A map here is a value, so what the
     * caller does with the copy cannot reach the store.
     */
    method GetAll() returns (all: map<string, Value>)
      ensures all == config
    {
      all := config;
    }
  }
}
