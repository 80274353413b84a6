/**
 * The configuration accessor: a YAML document read once per path into a
 * one-entry cache, and a total dotted-path lookup over it.
 */
module Config {
  import opened Wrappers
  import opened Text

  /** A parsed YAML value; mapping keys are strings. */
  datatype Value =
    | Null
    | Bool(b: bool)
    | Int(i: int)
    | Float(x: real)
    | Str(s: string)
    | List(items: seq<Value>)
    | Dict(entries: map<string, Value>)

  /** Python truthiness: `None`, `False`, zero and empty containers are false. */
  predicate Truthy(v: Value)
  {
    match v
    case Null => false
    case Bool(b) => b
    case Int(i) => i != 0
    case Float(x) => x != 0.0
    case Str(s) => s != ""
    case List(items) => items != []
    case Dict(entries) => entries != map[]
  }

  /** The path that `get_param` and `reload_config` use when none is given. */
  const DefaultConfigPath: string := "config.yaml"

  /**
   * What `_load_config` returns for the outcome of reading its file: `None`
   * when the path does not exist, otherwise the parsed document. A missing
   * file and any false-valued document (empty, `null`, `0`, `[]`, ...) give
   * the empty mapping.
   */
  function Loaded(file: Option<Value>): (cfg: Value)
    ensures Truthy(cfg) || cfg == Dict(map[])
    ensures file.Some? && Truthy(file.value) ==> cfg == file.value
    ensures !(file.Some? && Truthy(file.value)) ==> cfg == Dict(map[])
  {
    if file.Some? && Truthy(file.value) then file.value else Dict(map[])
  }

  /** `v` is `cur` or is stored somewhere below it. */
  ghost predicate Within(v: Value, cur: Value)
    decreases cur
  {
    v == cur || (cur.Dict? && exists k :: k in cur.entries && Within(v, cur.entries[k]))
  }

  /**
   * The lookup loop of `get_param` over already split segments: descend while
   * the current value is a mapping holding the segment, otherwise give back
   * `default`. Only key membership is tested, so a stored `null` is returned.
   */
  function Walk(cur: Value, parts: seq<string>, default: Value): (v: Value)
    ensures v == default || Within(v, cur)
  {
    if parts == [] then cur
    else if cur.Dict? && parts[0] in cur.entries then Walk(cur.entries[parts[0]], parts[1..], default)
    else default
  }

  /** `get_param(name, default)` on a loaded configuration. */
  function Get(cfg: Value, name: string, default: Value): Value
  {
    Walk(cfg, Split(name, '.'), default)
  }

  /** The loop of `get_param`: rebinding `current` segment by segment, returning early on a miss. */
  method Resolve(cfg: Value, name: string, default: Value) returns (v: Value)
    ensures v == Get(cfg, name, default)
  {
    var parts := Split(name, '.');
    var current := cfg;
    for i := 0 to |parts|
      invariant Walk(current, parts[i..], default) == Walk(cfg, parts, default)
    {
      assert parts[i..][1..] == parts[i + 1..];
      if current.Dict? && parts[i] in current.entries {
        current := current.entries[parts[i]];
      } else {
        return default;
      }
    }
    assert parts[|parts|..] == [];
    return current;
  }

  /** Composition: looking up `a.rest` is looking up `rest` in the mapping stored under `a`. */
  lemma GetDotted(cfg: Value, a: string, rest: string, default: Value)
    requires '.' !in a
    requires cfg.Dict? && a in cfg.entries
    ensures Get(cfg, a + "." + rest, default) == Get(cfg.entries[a], rest, default)
  {
    SplitCons(a, rest, '.');
    assert a + "." + rest == a + ['.'] + rest;
  }

  /** Descending through a value that is not a mapping gives `default`, however long the path. */
  lemma GetThroughScalar(cfg: Value, a: string, rest: string, default: Value)
    requires '.' !in a
    requires cfg.Dict? && a in cfg.entries && !cfg.entries[a].Dict?
    ensures Get(cfg, a + "." + rest, default) == default
  {
    GetDotted(cfg, a, rest, default);
  }

  /** A key that is present at the top level yields the value stored under it, whatever that value is. */
  lemma GetPresent(cfg: Value, a: string, default: Value)
    requires '.' !in a
    requires cfg.Dict? && a in cfg.entries
    ensures Get(cfg, a, default) == cfg.entries[a]
  {
    SplitNoSeparator(a, '.');
    assert [a][1..] == [];
    assert Walk(cfg, [a], default) == Walk(cfg.entries[a], [], default);
  }

  /** A key that is present with a `null` value yields `null`, not `default`. */
  lemma GetStoredNull(cfg: Value, a: string, default: Value)
    requires '.' !in a
    requires cfg.Dict? && a in cfg.entries && cfg.entries[a] == Null
    ensures Get(cfg, a, default) == Null
  {
    GetPresent(cfg, a, default);
  }

  /** A missing key at the top level yields `default`. */
  lemma GetMissingKey(cfg: Value, a: string, rest: string, default: Value)
    requires '.' !in a
    requires !(cfg.Dict? && a in cfg.entries)
    ensures Get(cfg, a, default) == default
    ensures Get(cfg, a + "." + rest, default) == default
  {
    SplitNoSeparator(a, '.');
    SplitCons(a, rest, '.');
    assert a + "." + rest == a + ['.'] + rest;
  }

  /** A missing file, or a document that is empty or false, makes every lookup return `default`. */
  lemma MissingFileDefaults(file: Option<Value>, name: string, default: Value)
    requires file.None? || !Truthy(file.value)
    ensures Get(Loaded(file), name, default) == default
  {
  }

  /** The cached (path, configuration) pair. */
  datatype Entry = Entry(path: string, cfg: Value)

  /**
   * `_load_config` under `lru_cache(maxsize=1)` and `reload_config`. The disk
   * (file existence, contents and YAML parsing) is passed to each call, so a
   * cached configuration can be older than what the disk now holds. `misses`
   * is `cache_info().misses`: how often the file was actually read since the
   * last `cache_clear()`.
   */
  class ConfigCache {
    var slot: Option<Entry>
    var misses: nat

    ghost predicate Valid()
      reads this
    {
      slot.Some? ==> misses >= 1 && (Truthy(slot.value.cfg) || slot.value.cfg == Dict(map[]))
    }

    /** The cache holds the configuration of `path`. */
    predicate Holds(path: string)
      reads this
    {
      slot.Some? && slot.value.path == path
    }

    constructor ()
      ensures Valid() && slot == None && misses == 0
    {
      slot := None;
      misses := 0;
    }

    /**
     * `_load_config(path)`: a hit returns the cached configuration and reads
     * nothing; a miss reads the file once and replaces the single entry.
     */
    method LoadConfig(disk: string -> Option<Value>, path: string) returns (cfg: Value)
      requires Valid()
      modifies this
      ensures Valid() && Holds(path) && cfg == slot.value.cfg
      ensures Truthy(cfg) || cfg == Dict(map[])
      ensures old(Holds(path)) ==> slot == old(slot) && misses == old(misses)
      ensures !old(Holds(path)) ==> slot == Some(Entry(path, Loaded(disk(path)))) && misses == old(misses) + 1
    {
      if slot.Some? && slot.value.path == path {
        cfg := slot.value.cfg;
      } else {
        cfg := Loaded(disk(path));
        slot := Some(Entry(path, cfg));
        misses := misses + 1;
      }
    }

    /** `_load_config.cache_clear()`: drops the entry and resets the statistics. */
    method CacheClear()
      modifies this
      ensures Valid() && slot == None && misses == 0
    {
      slot := None;
      misses := 0;
    }

    /** `get_param(name, default, path)`: load (possibly from the cache), then look up. */
    method GetParam(disk: string -> Option<Value>, name: string, default: Value := Null, path: string := DefaultConfigPath)
      returns (v: Value)
      requires Valid()
      modifies this
      ensures Valid() && Holds(path) && v == Get(slot.value.cfg, name, default)
      ensures old(Holds(path)) ==> slot == old(slot) && misses == old(misses)
      ensures !old(Holds(path)) ==> slot == Some(Entry(path, Loaded(disk(path)))) && misses == old(misses) + 1
    {
      var cfg := LoadConfig(disk, path);
      v := Resolve(cfg, name, default);
    }

    /** `reload_config(path)`: clear the cache, then read `path` afresh. */
    method ReloadConfig(disk: string -> Option<Value>, path: string := DefaultConfigPath)
      requires Valid()
      modifies this
      ensures Valid() && slot == Some(Entry(path, Loaded(disk(path)))) && misses == 1
    {
      CacheClear();
      var _ := LoadConfig(disk, path);
    }
  }
}
