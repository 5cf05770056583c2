/** RuntimePrefs: a key/value preference store that always writes an
    in-memory dictionary and, in PlayerPrefs mode, also the PlayerPrefs
    backing store.  The backing store is the `backing` map; `backingFails`
    says whether its calls throw.  int.TryParse is the `parseInt` argument
    (it depends on the current culture). */
module Prefs {
  import opened Text

  datatype StorageMode = MemoryOnly | PlayerPrefs

  /** A value of the in-memory store or of the backing store. */
  datatype Value = IntValue(i: int) | StringValue(s: string)

  /** TryConvertInt: a stored int, or a stored string int.TryParse accepts. */
  function ConvertInt(store: map<string, Value>, key: string, parseInt: string -> Option<int>): (r: Option<int>)
    ensures r.Some? ==> key in store
    ensures key in store && store[key].IntValue? ==> r == Some(store[key].i)
    ensures key in store && store[key].StringValue? ==> r == parseInt(store[key].s)
  {
    if key !in store then None
    else
      match store[key]
      case IntValue(i) => Some(i)
      case StringValue(s) => parseInt(s)
  }

  /** cached.ToString() */
  function ValueText(v: Value): string {
    match v
    case IntValue(i) => IntText(i)
    case StringValue(s) => s
  }

  /** PlayerPrefs.GetInt(key, defaultValue) */
  function BackingInt(backing: map<string, Value>, key: string, defaultValue: int): int {
    if key in backing && backing[key].IntValue? then backing[key].i else defaultValue
  }

  /** PlayerPrefs.GetString(key, defaultValue) */
  function BackingString(backing: map<string, Value>, key: string, defaultValue: string): string {
    if key in backing && backing[key].StringValue? then backing[key].s else defaultValue
  }

  /** The mode and the logged-fallback flag after a call to the backing
      store: when the call threw and fallback is allowed, the store falls
      back to memory and, since the Mode setter runs last, the flag ends
      false; otherwise both keep their values. */
  predicate AfterBackingCall(failed: bool, allowFallback: bool, oldMode: StorageMode, oldLogged: bool,
                             newMode: StorageMode, newLogged: bool) {
    if failed && allowFallback then newMode == MemoryOnly && !newLogged
    else newMode == oldMode && newLogged == oldLogged
  }

  class RuntimePrefs {
    var store: map<string, Value>
    var mode: StorageMode
    var allowFallbackToMemory: bool
    var hasLoggedFallback: bool
    var backing: map<string, Value>
    const backingFails: bool
    const parseInt: string -> Option<int>

    /** The static initialiser: an empty store in the platform's default
        mode, with fallback allowed. */
    constructor (defaultMode: StorageMode, backing: map<string, Value>, backingFails: bool,
                 parseInt: string -> Option<int>)
      ensures store == map[] && mode == defaultMode && allowFallbackToMemory && !hasLoggedFallback
      ensures this.backing == backing && this.backingFails == backingFails && this.parseInt == parseInt
    {
      store := map[];
      mode := defaultMode;
      allowFallbackToMemory := true;
      hasLoggedFallback := false;
      this.backing := backing;
      this.backingFails := backingFails;
      this.parseInt := parseInt;
    }

    /** The Mode setter: switching to memory resets the logged flag. */
    method SetMode(value: StorageMode)
      modifies this
      ensures mode == value
      ensures hasLoggedFallback == if value == MemoryOnly then false else old(hasLoggedFallback)
      ensures store == old(store) && backing == old(backing) && allowFallbackToMemory == old(allowFallbackToMemory)
    {
      mode := value;
      if mode == MemoryOnly {
        hasLoggedFallback := false;
      }
    }

    /** RuntimePrefs.Configure */
    method Configure(value: StorageMode, enableFallback: bool)
      modifies this
      ensures mode == value && allowFallbackToMemory == enableFallback
      ensures hasLoggedFallback == if value == MemoryOnly then false else old(hasLoggedFallback)
      ensures store == old(store) && backing == old(backing)
    {
      SetMode(value);
      allowFallbackToMemory := enableFallback;
    }

    /** RuntimePrefs.HandlePlayerPrefsFailure; `warned` is the one-time
        fallback warning. */
    method HandlePlayerPrefsFailure() returns (warned: bool)
      modifies this
      ensures warned == (old(allowFallbackToMemory) && !old(hasLoggedFallback))
      ensures AfterBackingCall(true, allowFallbackToMemory, old(mode), old(hasLoggedFallback), mode, hasLoggedFallback)
      ensures store == old(store) && backing == old(backing) && allowFallbackToMemory == old(allowFallbackToMemory)
    {
      if !allowFallbackToMemory {
        return false;
      }
      warned := false;
      if !hasLoggedFallback {
        warned := true;
        hasLoggedFallback := true;
      }
      SetMode(MemoryOnly);
    }

    /** RuntimePrefs.TryWrite; `write` is the PlayerPrefs call, as its
        effect on the backing store.  Outside PlayerPrefs mode the backing
        store is not touched. */
    method TryWrite(write: map<string, Value> -> map<string, Value>) returns (ok: bool)
      modifies this
      ensures ok == (old(mode) == PlayerPrefs && !backingFails)
      ensures backing == if ok then write(old(backing)) else old(backing)
      ensures AfterBackingCall(old(mode) == PlayerPrefs && backingFails, allowFallbackToMemory,
                               old(mode), old(hasLoggedFallback), mode, hasLoggedFallback)
      ensures store == old(store) && allowFallbackToMemory == old(allowFallbackToMemory)
    {
      if mode != PlayerPrefs {
        return false;
      }
      if backingFails {
        var _ := HandlePlayerPrefsFailure();
        return false;
      }
      backing := write(backing);
      return true;
    }

    /** RuntimePrefs.TryRead; None where it returns false. */
    method TryRead<T>(read: map<string, Value> -> T) returns (value: Option<T>)
      modifies this
      ensures value == if old(mode) == PlayerPrefs && !backingFails then Some(read(old(backing))) else None
      ensures AfterBackingCall(old(mode) == PlayerPrefs && backingFails, allowFallbackToMemory,
                               old(mode), old(hasLoggedFallback), mode, hasLoggedFallback)
      ensures store == old(store) && backing == old(backing) && allowFallbackToMemory == old(allowFallbackToMemory)
    {
      if mode != PlayerPrefs {
        return None;
      }
      if backingFails {
        var _ := HandlePlayerPrefsFailure();
        return None;
      }
      return Some(read(backing));
    }

    /** RuntimePrefs.SetInt: memory first, whatever the mode. */
    method SetInt(key: string, value: int)
      modifies this
      ensures store == old(store)[key := IntValue(value)]
      ensures backing == if old(mode) == PlayerPrefs && !backingFails then old(backing)[key := IntValue(value)] else old(backing)
      ensures AfterBackingCall(old(mode) == PlayerPrefs && backingFails, allowFallbackToMemory,
                               old(mode), old(hasLoggedFallback), mode, hasLoggedFallback)
      ensures allowFallbackToMemory == old(allowFallbackToMemory)
    {
      store := store[key := IntValue(value)];
      var _ := TryWrite(b => b[key := IntValue(value)]);
    }

    /** What RuntimePrefs.GetInt(key, defaultValue) returning `v` does: a
        convertible cached value wins; otherwise the backing store is read
        and its answer cached, the default included; in memory mode a miss
        returns the default and caches nothing. */
    twostate predicate GotInt(key: string, defaultValue: int, v: int)
      reads this
    {
      && (ConvertInt(old(store), key, parseInt).Some? ==>
            v == ConvertInt(old(store), key, parseInt).value
            && store == old(store) && mode == old(mode) && hasLoggedFallback == old(hasLoggedFallback))
      && (ConvertInt(old(store), key, parseInt).None? ==>
            && (if old(mode) == PlayerPrefs && !backingFails
                then v == BackingInt(backing, key, defaultValue) && store == old(store)[key := IntValue(v)]
                else v == defaultValue && store == old(store))
            && AfterBackingCall(old(mode) == PlayerPrefs && backingFails, allowFallbackToMemory,
                                old(mode), old(hasLoggedFallback), mode, hasLoggedFallback))
      && backing == old(backing) && allowFallbackToMemory == old(allowFallbackToMemory)
    }

    /** RuntimePrefs.GetInt */
    method GetInt(key: string, defaultValue: int) returns (v: int)
      modifies this
      ensures GotInt(key, defaultValue, v)
    {
      var cached := ConvertInt(store, key, parseInt);
      if cached.Some? {
        return cached.value;
      }
      var result := TryRead(b => BackingInt(b, key, defaultValue));
      if result.Some? {
        store := store[key := IntValue(result.value)];
        return result.value;
      }
      return defaultValue;
    }

    /** RuntimePrefs.SetString; a null value is stored as "". */
    method SetString(key: string, value: string)
      modifies this
      ensures store == old(store)[key := StringValue(value)]
      ensures backing == if old(mode) == PlayerPrefs && !backingFails then old(backing)[key := StringValue(value)] else old(backing)
      ensures AfterBackingCall(old(mode) == PlayerPrefs && backingFails, allowFallbackToMemory,
                               old(mode), old(hasLoggedFallback), mode, hasLoggedFallback)
      ensures allowFallbackToMemory == old(allowFallbackToMemory)
    {
      store := store[key := StringValue(value)];
      var _ := TryWrite(b => b[key := StringValue(value)]);
    }

    /** RuntimePrefs.GetString: a cached value is returned as text;
        otherwise as GetInt, reading PlayerPrefs.GetString. */
    method GetString(key: string, defaultValue: string) returns (v: string)
      modifies this
      ensures key in old(store) ==>
        v == ValueText(old(store)[key])
        && store == old(store) && mode == old(mode) && hasLoggedFallback == old(hasLoggedFallback)
      ensures key !in old(store) ==>
        && (if old(mode) == PlayerPrefs && !backingFails
            then v == BackingString(backing, key, defaultValue) && store == old(store)[key := StringValue(v)]
            else v == defaultValue && store == old(store))
        && AfterBackingCall(old(mode) == PlayerPrefs && backingFails, allowFallbackToMemory,
                            old(mode), old(hasLoggedFallback), mode, hasLoggedFallback)
      ensures backing == old(backing) && allowFallbackToMemory == old(allowFallbackToMemory)
    {
      if key in store {
        return ValueText(store[key]);
      }
      var result := TryRead(b => BackingString(b, key, defaultValue));
      if result.Some? {
        store := store[key := StringValue(result.value)];
        return result.value;
      }
      return defaultValue;
    }

    /** RuntimePrefs.HasKey: a hit in memory is true; a miss asks the
        backing store in PlayerPrefs mode and is false otherwise. */
    method HasKey(key: string) returns (b: bool)
      modifies this
      ensures key in old(store) ==> b && mode == old(mode) && hasLoggedFallback == old(hasLoggedFallback)
      ensures key !in old(store) ==>
        b == (old(mode) == PlayerPrefs && !backingFails && key in backing)
        && AfterBackingCall(old(mode) == PlayerPrefs && backingFails, allowFallbackToMemory,
                            old(mode), old(hasLoggedFallback), mode, hasLoggedFallback)
      ensures store == old(store) && backing == old(backing) && allowFallbackToMemory == old(allowFallbackToMemory)
    {
      if key in store {
        return true;
      }
      if mode != PlayerPrefs {
        return false;
      }
      var flag := TryRead(b => if key in b then 1 else 0);
      b := flag.Some? && flag.value == 1;
    }

    /** RuntimePrefs.DeleteKey: an empty key is ignored; otherwise only that
        key is removed. */
    method DeleteKey(key: string)
      modifies this
      ensures key == "" ==>
        store == old(store) && backing == old(backing)
        && mode == old(mode) && hasLoggedFallback == old(hasLoggedFallback)
      ensures key != "" ==>
        && store == old(store) - {key}
        && backing == (if old(mode) == PlayerPrefs && !backingFails then old(backing) - {key} else old(backing))
        && AfterBackingCall(old(mode) == PlayerPrefs && backingFails, allowFallbackToMemory,
                            old(mode), old(hasLoggedFallback), mode, hasLoggedFallback)
      ensures allowFallbackToMemory == old(allowFallbackToMemory)
    {
      if key == "" {
        return;
      }
      store := store - {key};
      var _ := TryWrite((b: map<string, Value>) => b - {key});
    }

    /** RuntimePrefs.DeleteAll */
    method DeleteAll()
      modifies this
      ensures store == map[]
      ensures backing == if old(mode) == PlayerPrefs && !backingFails then map[] else old(backing)
      ensures AfterBackingCall(old(mode) == PlayerPrefs && backingFails, allowFallbackToMemory,
                               old(mode), old(hasLoggedFallback), mode, hasLoggedFallback)
      ensures allowFallbackToMemory == old(allowFallbackToMemory)
    {
      store := map[];
      var _ := TryWrite(b => map[]);
    }

    /** RuntimePrefs.Save: flushing changes no key. */
    method Save()
      modifies this
      ensures store == old(store) && backing == old(backing)
      ensures AfterBackingCall(old(mode) == PlayerPrefs && backingFails, allowFallbackToMemory,
                               old(mode), old(hasLoggedFallback), mode, hasLoggedFallback)
      ensures allowFallbackToMemory == old(allowFallbackToMemory)
    {
      var _ := TryWrite(b => b);
    }
  }
}
