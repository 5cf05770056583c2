/** The runtime config registry (ConfigManager): a dictionary from config
    type name to the records of that type by id, filled from the JSON
    payloads under a resources path.  A record is `None` where the payload
    holds a JSON null.  Resources.LoadAll is the `assets` argument and
    JsonConvert is `deserialize`, None where it throws; a payload that
    deserialises to null is treated as a throw too. */
module ConfigRegistry {
  import opened Text
  import opened Maps

  type Bucket<R> = map<string, Option<R>>
  type Data<R> = map<string, Bucket<R>>

  /** The members of a payload's JSON object, in document order. */
  type Payload<R> = seq<(string, Option<R>)>

  /** The Dictionary JsonConvert builds from the members: a repeated id
      keeps its last record. */
  function ToBucket<R>(members: Payload<R>): Bucket<R> {
    Assign(map[], members)
  }

  /** A TextAsset: its name and its text. */
  datatype Asset = Asset(name: string, text: string)

  /** A System.Type argument: its Name, and whether BaseConfig is assignable
      from it. */
  datatype ConfigType = ConfigType(name: string, isConfig: bool)

  /** The bucket a payload fills: the text of its name before the first
      '_', i.e. name.Split('_')[0]. */
  function BucketKey(assetName: string): (k: string)
    ensures '_' !in k && StartsWith(assetName, k)
  {
    BeforeFirst(assetName, '_')
  }

  /** The index of the first payload that does not deserialise. */
  function FirstFailure<R>(assets: seq<Asset>, deserialize: string -> Option<Payload<R>>): (n: nat)
    ensures n <= |assets|
    ensures forall j :: 0 <= j < n ==> deserialize(assets[j].text).Some?
    ensures n < |assets| ==> deserialize(assets[n].text).None?
    decreases |assets|
  {
    if assets == [] || deserialize(assets[0].text).None? then 0
    else
      var n := 1 + FirstFailure(assets[1..], deserialize);
      assert forall j :: 0 < j < |assets| ==> assets[j] == assets[1..][j - 1];
      n
  }

  /** The dictionary writes of the load loop. */
  function Writes<R>(assets: seq<Asset>, deserialize: string -> Option<Payload<R>>): (ps: seq<(string, Bucket<R>)>)
    requires forall j :: 0 <= j < |assets| ==> deserialize(assets[j].text).Some?
    ensures |ps| == |assets|
    ensures forall j :: 0 <= j < |assets| ==>
      ps[j] == (BucketKey(assets[j].name), ToBucket(deserialize(assets[j].text).value))
  {
    seq(|assets|, j requires 0 <= j < |assets| => (BucketKey(assets[j].name), ToBucket(deserialize(assets[j].text).value)))
  }

  lemma WritesSnoc<R>(assets: seq<Asset>, deserialize: string -> Option<Payload<R>>, i: nat)
    requires i < FirstFailure(assets, deserialize)
    ensures Writes(assets[..i + 1], deserialize)
         == Writes(assets[..i], deserialize) + [(BucketKey(assets[i].name), ToBucket(deserialize(assets[i].text).value))]
  {
    assert assets[..i + 1] == assets[..i] + [assets[i]];
  }

  /** The registry after the load loop: every payload before the first one
      that fails to deserialise has replaced its bucket, in order; the
      failure ends the loop. */
  function Installed<R>(data: Data<R>, assets: seq<Asset>, deserialize: string -> Option<Payload<R>>): Data<R> {
    Assign(data, Writes(assets[..FirstFailure(assets, deserialize)], deserialize))
  }

  /** The load loop ran to the end, so the path is recorded as loaded. */
  predicate Completes<R>(assets: seq<Asset>, deserialize: string -> Option<Payload<R>>) {
    FirstFailure(assets, deserialize) == |assets|
  }

  /** A complete load: the bucket of every key is the payload of the last
      asset with that key, and a bucket no asset names is untouched. */
  lemma LoadLastWins<R>(data: Data<R>, assets: seq<Asset>, deserialize: string -> Option<Payload<R>>, j: nat)
    requires Completes(assets, deserialize) && j < |assets|
    requires forall l :: j < l < |assets| ==> BucketKey(assets[l].name) != BucketKey(assets[j].name)
    ensures var r := Installed(data, assets, deserialize);
      BucketKey(assets[j].name) in r && r[BucketKey(assets[j].name)] == ToBucket(deserialize(assets[j].text).value)
  {
    assert assets[..|assets|] == assets;
    AssignLastWins(data, Writes(assets, deserialize), j);
  }

  lemma LoadUntouched<R>(data: Data<R>, assets: seq<Asset>, deserialize: string -> Option<Payload<R>>, key: string)
    requires forall l :: 0 <= l < |assets| ==> BucketKey(assets[l].name) != key
    ensures var r := Installed(data, assets, deserialize);
      (key in r <==> key in data) && (key in data ==> r[key] == data[key])
  {
    var n := FirstFailure(assets, deserialize);
    var ws := Writes(assets[..n], deserialize);
    forall l | 0 <= l < |ws| ensures ws[l].0 != key {
      assert assets[..n][l] == assets[l];
    }
    AssignUntouched(data, ws, key);
  }

  /** The registry and the set of loaded paths. */
  datatype Store<R> = Store(data: Data<R>, loadedPaths: set<string>)

  /** LoadAllFromResources (and EnsureLoaded, which only adds a check the
      callee repeats): an empty or already loaded path changes nothing;
      otherwise the payloads are installed and the path is recorded once
      the loop completes. */
  function AfterLoad<R>(s: Store<R>, jsonPath: string, assets: seq<Asset>,
                        deserialize: string -> Option<Payload<R>>): Store<R>
  {
    if jsonPath == "" || jsonPath in s.loadedPaths then s
    else
      Store(Installed(s.data, assets, deserialize),
            if Completes(assets, deserialize) then s.loadedPaths + {jsonPath} else s.loadedPaths)
  }

  lemma InstalledTwice<R>(data: Data<R>, assets: seq<Asset>, deserialize: string -> Option<Payload<R>>)
    ensures Installed(Installed(data, assets, deserialize), assets, deserialize) == Installed(data, assets, deserialize)
  {
    AssignIdempotent(data, Writes(assets[..FirstFailure(assets, deserialize)], deserialize));
  }

  /** Loading a path twice is loading it once, whether or not the first
      load completed, as long as the path lists the same payloads. */
  lemma LoadIdempotent<R>(s: Store<R>, jsonPath: string, assets: seq<Asset>,
                          deserialize: string -> Option<Payload<R>>)
    ensures AfterLoad(AfterLoad(s, jsonPath, assets, deserialize), jsonPath, assets, deserialize)
         == AfterLoad(s, jsonPath, assets, deserialize)
  {
    if jsonPath != "" && jsonPath !in s.loadedPaths && !Completes(assets, deserialize) {
      InstalledTwice(s.data, assets, deserialize);
    }
  }

  /** NormalizeId: null and "" pass through, anything else is trimmed. */
  function Normalize(id: string): (r: string)
    ensures IsTrimmed(r)
    ensures r == "" <==> IsBlank(id)
  {
    BlankIffTrimEmpty(id);
    if id == "" then id else Trim(id)
  }

  /** Surrounding white space does not change the id a lookup uses. */
  lemma NormalizeOfTrim(id: string)
    ensures Normalize(Trim(id)) == Normalize(id)
  {
    TrimIdempotent(id);
    BlankIffTrimEmpty(id);
  }

  /** The id needed trimming, which the source logs. */
  predicate NeedsTrim(id: string) {
    id != "" && Trim(id) != id
  }

  function LogKey(configName: string, id: string): string {
    configName + ":" + Trim(id)
  }

  /** NormalizeId warns only the first time a given type name and trimmed
      id needed trimming. */
  predicate Warns(cache: set<string>, configName: string, id: string) {
    NeedsTrim(id) && LogKey(configName, id) !in cache
  }

  function CacheAfter(cache: set<string>, configName: string, id: string): (c: set<string>)
    ensures cache <= c
  {
    if NeedsTrim(id) then cache + {LogKey(configName, id)} else cache
  }

  /** After one warning for an id, no spelling of the same trimmed id
      warns again for that type. */
  lemma WarnsOnce(cache: set<string>, configName: string, id: string, other: string)
    requires Warns(cache, configName, id) && Trim(other) == Trim(id)
    ensures !Warns(CacheAfter(cache, configName, id), configName, other)
  {
  }

  /** Get<T> and Get(Type) for a valid type: a blank id, a missing bucket,
      a missing id, a JSON null or a record of another type all give null. */
  function Lookup<R>(data: Data<R>, configName: string, isInstance: R -> bool, id: string): Option<R> {
    var n := Normalize(id);
    if n == "" || configName !in data || n !in data[configName] then None
    else
      match data[configName][n]
      case None => None
      case Some(r) => if isInstance(r) then Some(r) else None
  }

  /** Has<T>: the trimmed id is a key of the bucket. */
  predicate HasId<R>(data: Data<R>, configName: string, id: string) {
    var n := Normalize(id);
    n != "" && configName in data && n in data[configName]
  }

  /** Has<T> in terms of the caller's id: false for a blank id, and
      otherwise true exactly when the bucket holds the trimmed id. */
  lemma HasIdTrimmed<R>(data: Data<R>, configName: string, id: string)
    ensures HasId(data, configName, id) <==> !IsBlank(id) && configName in data && Trim(id) in data[configName]
  {
    BlankIffTrimEmpty(id);
  }

  /** Get(" x ") is Get("x"), and a blank id finds nothing. */
  lemma LookupIgnoresSurroundingSpace<R>(data: Data<R>, configName: string, isInstance: R -> bool, id: string)
    ensures Lookup(data, configName, isInstance, id) == Lookup(data, configName, isInstance, Trim(id))
    ensures IsBlank(id) ==> Lookup(data, configName, isInstance, id).None?
  {
    NormalizeOfTrim(id);
  }

  /** What Get finds is a stored record of the type, under the trimmed id,
      so Has also holds. */
  lemma LookupFound<R>(data: Data<R>, configName: string, isInstance: R -> bool, id: string)
    requires Lookup(data, configName, isInstance, id).Some?
    ensures HasId(data, configName, id)
    ensures var r := Lookup(data, configName, isInstance, id).value;
      isInstance(r) && data[configName][Trim(id)] == Some(r)
  {
  }

  /** Remove<T>: a missing bucket is left alone, a null or "" id drops the
      bucket, a blank id does nothing, any other id removes the trimmed id
      from the bucket. */
  function Removed<R>(data: Data<R>, configName: string, id: string): Data<R> {
    if configName !in data then data
    else if id == "" then map c | c in data && c != configName :: data[c]
    else
      var n := Normalize(id);
      if n == "" then data else data[configName := data[configName] - {n}]
  }

  /** Remove changes only its own bucket, and afterwards Has is false for
      the removed id; other ids of the bucket keep their records. */
  lemma RemoveEffects<R>(data: Data<R>, configName: string, id: string)
    ensures var r := Removed(data, configName, id);
      && (forall c :: c != configName ==> (c in r <==> c in data))
      && (forall c :: c != configName && c in data ==> r[c] == data[c])
      && !HasId(r, configName, id)
      && (configName in data && id == "" ==> configName !in r)
      && (configName in data && !IsBlank(id) ==>
            configName in r && forall k :: k in data[configName] && k != Trim(id) ==>
              k in r[configName] && r[configName][k] == data[configName][k])
  {
    BlankIffTrimEmpty(id);
  }

  /** `ks` visits every key of `keys` exactly once, in some order: the
      order a Dictionary enumerates them in. */
  predicate Enumerates(ks: seq<string>, keys: set<string>) {
    && (forall i :: 0 <= i < |ks| ==> ks[i] in keys)
    && (forall k :: k in keys ==> k in ks)
    && (forall i, j :: 0 <= i < j < |ks| ==> ks[i] != ks[j])
  }

  /** `vals` lists the bucket's values in the key order `ks`. */
  ghost predicate ListsAlong<R>(bucket: Bucket<R>, ks: seq<string>, vals: seq<Option<R>>) {
    && Enumerates(ks, bucket.Keys)
    && |vals| == |ks|
    && (forall i :: 0 <= i < |ks| ==> vals[i] == bucket[ks[i]])
  }

  /** What GetAll<T> returns: the value of every key of the bucket once,
      in some key order, or an InvalidCastException (None) when one is a
      record of another type. */
  ghost predicate ListsBucket<R>(bucket: Bucket<R>, vals: seq<Option<R>>) {
    exists ks :: ListsAlong(bucket, ks, vals)
  }

  predicate CastsTo<R>(bucket: Bucket<R>, isInstance: R -> bool) {
    forall k :: k in bucket && bucket[k].Some? ==> isInstance(bucket[k].value)
  }

  /** The records of the bucket that are instances of the type. */
  function Instances<R>(bucket: Bucket<R>, isInstance: R -> bool): set<string> {
    set k | k in bucket && bucket[k].Some? && isInstance(bucket[k].value)
  }

  /** `result` lists the instance records of the bucket in the key
      order `ks`. */
  ghost predicate InstancesAlong<R>(bucket: Bucket<R>, isInstance: R -> bool, ks: seq<string>, result: seq<R>) {
    && Enumerates(ks, Instances(bucket, isInstance))
    && |result| == |ks|
    && (forall i :: 0 <= i < |ks| ==> bucket[ks[i]] == Some(result[i]))
  }

  /** What GetAll(Type) returns: the record of every key whose record is
      an instance of the type, once each, in some key order. */
  ghost predicate ListsInstances<R>(bucket: Bucket<R>, isInstance: R -> bool, result: seq<R>) {
    exists ks :: InstancesAlong(bucket, isInstance, ks, result)
  }

  /** The `dict.Values.Cast<T>().ToList()` of GetAll<T>, in the order the
      keys are visited. */
  method CastAll<R(==)>(bucket: Bucket<R>, isInstance: R -> bool) returns (r: Option<seq<Option<R>>>)
    ensures r.Some? <==> CastsTo(bucket, isInstance)
    ensures r.Some? ==> ListsBucket(bucket, r.value)
  {
    var rest := bucket.Keys;
    var vals: seq<Option<R>> := [];
    ghost var visited: seq<string> := [];
    while rest != {}
      invariant rest <= bucket.Keys
      invariant forall i :: 0 <= i < |visited| ==> visited[i] in bucket && visited[i] !in rest
      invariant forall k :: k in bucket && k !in rest ==> k in visited
      invariant forall i, j :: 0 <= i < j < |visited| ==> visited[i] != visited[j]
      invariant |vals| == |visited|
      invariant forall i :: 0 <= i < |visited| ==> vals[i] == bucket[visited[i]]
      invariant forall k :: k in bucket && k !in rest && bucket[k].Some? ==> isInstance(bucket[k].value)
      decreases |rest|
    {
      var k :| k in rest;
      if bucket[k].Some? && !isInstance(bucket[k].value) {
        return None;
      }
      vals := vals + [bucket[k]];
      visited := visited + [k];
      rest := rest - {k};
    }
    assert ListsAlong(bucket, visited, vals);
    return Some(vals);
  }

  /** The foreach of GetAll(Type) over `dict.Values`. */
  method InstancesOf<R(==)>(bucket: Bucket<R>, isInstance: R -> bool) returns (result: seq<R>)
    ensures ListsInstances(bucket, isInstance, result)
  {
    var rest := bucket.Keys;
    result := [];
    ghost var found: seq<string> := [];
    while rest != {}
      invariant rest <= bucket.Keys
      invariant forall i :: 0 <= i < |found| ==> found[i] in Instances(bucket, isInstance) && found[i] !in rest
      invariant forall k :: k in Instances(bucket, isInstance) && k !in rest ==> k in found
      invariant forall i, j :: 0 <= i < j < |found| ==> found[i] != found[j]
      invariant |result| == |found|
      invariant forall i :: 0 <= i < |found| ==> bucket[found[i]] == Some(result[i])
      decreases |rest|
    {
      var k :| k in rest;
      var config := bucket[k];
      if config.Some? && isInstance(config.value) {
        result := result + [config.value];
        found := found + [k];
      }
      rest := rest - {k};
    }
    assert InstancesAlong(bucket, isInstance, found, result);
  }

  /** The foreach over the payloads of a path; `completed` is false where
      JsonConvert threw, which ends the loop. */
  method LoadPayloads<R>(data: Data<R>, assets: seq<Asset>, deserialize: string -> Option<Payload<R>>)
    returns (result: Data<R>, completed: bool)
    ensures result == Installed(data, assets, deserialize)
    ensures completed == Completes(assets, deserialize)
  {
    result := data;
    ghost var n := FirstFailure(assets, deserialize);
    var i := 0;
    while i < |assets|
      invariant i <= n
      invariant result == Assign(data, Writes(assets[..i], deserialize))
      decreases |assets| - i
    {
      var config := deserialize(assets[i].text);
      if config.None? {
        assert i == n;
        return result, false;
      }
      var key := BeforeFirst(assets[i].name, '_');
      var bucket := ToBucket(config.value);
      WritesSnoc(assets, deserialize, i);
      AssignSnoc(data, Writes(assets[..i], deserialize), (key, bucket));
      result := result[key := bucket];
      i := i + 1;
    }
    assert i == n && assets[..i] == assets;
    return result, true;
  }

  class Registry<R(==)> {
    var jsonDataDict: Data<R>
    var loadedPaths: set<string>
    var normalizedIdLogCache: set<string>

    constructor ()
      ensures jsonDataDict == map[] && loadedPaths == {} && normalizedIdLogCache == {}
    {
      jsonDataDict := map[];
      loadedPaths := {};
      normalizedIdLogCache := {};
    }

    /** The foreach over the payloads. */
    method InstallAll(assets: seq<Asset>, deserialize: string -> Option<Payload<R>>) returns (completed: bool)
      modifies this`jsonDataDict
      ensures jsonDataDict == Installed(old(jsonDataDict), assets, deserialize)
      ensures completed == Completes(assets, deserialize)
    {
      jsonDataDict, completed := LoadPayloads(jsonDataDict, assets, deserialize);
    }

    /** ConfigManager.LoadAll: re-reads the path unconditionally. */
    method LoadAll(jsonPath: string, assets: seq<Asset>, deserialize: string -> Option<Payload<R>>)
      returns (completed: bool)
      modifies this
      ensures jsonDataDict == Installed(old(jsonDataDict), assets, deserialize)
      ensures completed == Completes(assets, deserialize)
      ensures loadedPaths == if completed then old(loadedPaths) + {jsonPath} else old(loadedPaths)
      ensures normalizedIdLogCache == old(normalizedIdLogCache)
    {
      completed := InstallAll(assets, deserialize);
      if completed {
        loadedPaths := loadedPaths + {jsonPath};
      }
    }

    /** ConfigManager.LoadAllFromResources */
    method LoadAllFromResources(jsonPath: string, assets: seq<Asset>, deserialize: string -> Option<Payload<R>>)
      returns (completed: bool)
      modifies this
      ensures Store(jsonDataDict, loadedPaths) == AfterLoad(Store(old(jsonDataDict), old(loadedPaths)), jsonPath, assets, deserialize)
      ensures completed == (jsonPath == "" || jsonPath in old(loadedPaths) || Completes(assets, deserialize))
      ensures normalizedIdLogCache == old(normalizedIdLogCache)
    {
      if jsonPath == "" {
        return true;
      }
      if jsonPath in loadedPaths {
        return true;
      }
      completed := InstallAll(assets, deserialize);
      if completed {
        loadedPaths := loadedPaths + {jsonPath};
      }
    }

    /** ConfigManager.EnsureLoaded */
    method EnsureLoaded(jsonPath: string, assets: seq<Asset>, deserialize: string -> Option<Payload<R>>)
      returns (completed: bool)
      modifies this
      ensures Store(jsonDataDict, loadedPaths) == AfterLoad(Store(old(jsonDataDict), old(loadedPaths)), jsonPath, assets, deserialize)
      ensures completed == (jsonPath == "" || jsonPath in old(loadedPaths) || Completes(assets, deserialize))
      ensures normalizedIdLogCache == old(normalizedIdLogCache)
    {
      completed := true;
      if jsonPath !in loadedPaths {
        completed := LoadAllFromResources(jsonPath, assets, deserialize);
      }
    }

    /** ConfigManager.NormalizeId; `warned` is the warning it logs. */
    method NormalizeId(id: string, configName: string) returns (normalizedId: string, warned: bool)
      modifies this`normalizedIdLogCache
      ensures normalizedId == Normalize(id)
      ensures warned == Warns(old(normalizedIdLogCache), configName, id)
      ensures normalizedIdLogCache == CacheAfter(old(normalizedIdLogCache), configName, id)
    {
      warned := false;
      if id == "" {
        return id, false;
      }
      var trimmedId := Trim(id);
      if id != trimmedId {
        var cacheKey := configName + ":" + trimmedId;
        if cacheKey !in normalizedIdLogCache {
          normalizedIdLogCache := normalizedIdLogCache + {cacheKey};
          warned := true;
        }
      }
      return trimmedId, warned;
    }

    /** ConfigManager.Get<T>; `configName` is typeof(T).Name and
        `isInstance` the `as T` test. */
    method Get(configName: string, isInstance: R -> bool, id: string) returns (config: Option<R>)
      modifies this`normalizedIdLogCache
      ensures config == Lookup(jsonDataDict, configName, isInstance, id)
      ensures normalizedIdLogCache == CacheAfter(old(normalizedIdLogCache), configName, id)
    {
      var normalizedId, _ := NormalizeId(id, configName);
      if normalizedId == "" {
        return None;
      }
      if configName in jsonDataDict && normalizedId in jsonDataDict[configName] {
        var stored := jsonDataDict[configName][normalizedId];
        if stored.Some? && isInstance(stored.value) {
          return stored;
        }
      }
      return None;
    }

    /** ConfigManager.Get(Type, id): a null type or one not derived from
        BaseConfig gives null and changes nothing. */
    method GetOfType(t: Option<ConfigType>, isInstance: R -> bool, id: string) returns (config: Option<R>)
      modifies this`normalizedIdLogCache
      ensures t.None? || !t.value.isConfig ==> config.None? && normalizedIdLogCache == old(normalizedIdLogCache)
      ensures t.Some? && t.value.isConfig ==>
        config == Lookup(jsonDataDict, t.value.name, isInstance, id)
        && normalizedIdLogCache == CacheAfter(old(normalizedIdLogCache), t.value.name, id)
    {
      if t.None? || !t.value.isConfig {
        return None;
      }
      config := Get(t.value.name, isInstance, id);
    }

    /** ConfigManager.Has<T> */
    method Has(configName: string, id: string) returns (b: bool)
      modifies this`normalizedIdLogCache
      ensures b == HasId(jsonDataDict, configName, id)
      ensures normalizedIdLogCache == CacheAfter(old(normalizedIdLogCache), configName, id)
    {
      var normalizedId, _ := NormalizeId(id, configName);
      if normalizedId == "" {
        return false;
      }
      return configName in jsonDataDict && normalizedId in jsonDataDict[configName];
    }

    /** ConfigManager.Has(Type, id): also demands a non-null record of the
        type, so it holds exactly when Get(Type, id) finds one. */
    method HasOfType(t: Option<ConfigType>, isInstance: R -> bool, id: string) returns (b: bool)
      modifies this`normalizedIdLogCache
      ensures b == (t.Some? && t.value.isConfig && Lookup(jsonDataDict, t.value.name, isInstance, id).Some?)
      ensures t.None? || !t.value.isConfig ==> normalizedIdLogCache == old(normalizedIdLogCache)
      ensures t.Some? && t.value.isConfig ==>
        normalizedIdLogCache == CacheAfter(old(normalizedIdLogCache), t.value.name, id)
    {
      if t.None? || !t.value.isConfig {
        return false;
      }
      var configName := t.value.name;
      var normalizedId, _ := NormalizeId(id, configName);
      if normalizedId == "" {
        return false;
      }
      b := configName in jsonDataDict && normalizedId in jsonDataDict[configName]
        && jsonDataDict[configName][normalizedId].Some? && isInstance(jsonDataDict[configName][normalizedId].value);
    }

    /** ConfigManager.GetAll<T>: the values of the bucket, empty for a
        missing bucket; None where Cast<T> throws. */
    method GetAll(configName: string, isInstance: R -> bool) returns (r: Option<seq<Option<R>>>)
      ensures configName !in jsonDataDict ==> r == Some([])
      ensures configName in jsonDataDict ==>
        (r.Some? <==> CastsTo(jsonDataDict[configName], isInstance))
        && (r.Some? ==> ListsBucket(jsonDataDict[configName], r.value))
    {
      if configName !in jsonDataDict {
        return Some([]);
      }
      r := CastAll(jsonDataDict[configName], isInstance);
    }

    /** ConfigManager.GetAll(Type): the non-null records of the type in the
        bucket, in some order. */
    method GetAllOfType(t: Option<ConfigType>, isInstance: R -> bool) returns (result: seq<R>)
      ensures t.None? || !t.value.isConfig || t.value.name !in jsonDataDict ==> result == []
      ensures t.Some? && t.value.isConfig && t.value.name in jsonDataDict ==>
        ListsInstances(jsonDataDict[t.value.name], isInstance, result)
    {
      if t.None? || !t.value.isConfig || t.value.name !in jsonDataDict {
        return [];
      }
      result := InstancesOf(jsonDataDict[t.value.name], isInstance);
    }

    /** ConfigManager.Remove<T> */
    method Remove(configName: string, id: string)
      modifies this
      ensures jsonDataDict == Removed(old(jsonDataDict), configName, id)
      ensures normalizedIdLogCache ==
        if configName in old(jsonDataDict) && id != "" then CacheAfter(old(normalizedIdLogCache), configName, id)
        else old(normalizedIdLogCache)
      ensures loadedPaths == old(loadedPaths)
    {
      if configName !in jsonDataDict {
        return;
      }
      var dict := jsonDataDict[configName];
      if id == "" {
        jsonDataDict := map c | c in jsonDataDict && c != configName :: jsonDataDict[c];
        return;
      }
      var normalizedId, _ := NormalizeId(id, configName);
      if normalizedId == "" {
        return;
      }
      jsonDataDict := jsonDataDict[configName := dict - {normalizedId}];
    }

    /** ConfigManager.Remove(Type, id): a null type or one not derived from
        BaseConfig changes nothing. */
    method RemoveOfType(t: Option<ConfigType>, id: string)
      modifies this
      ensures t.None? || !t.value.isConfig ==>
        jsonDataDict == old(jsonDataDict) && normalizedIdLogCache == old(normalizedIdLogCache)
      ensures t.Some? && t.value.isConfig ==> jsonDataDict == Removed(old(jsonDataDict), t.value.name, id)
      ensures t.Some? && t.value.isConfig ==>
        normalizedIdLogCache ==
          if t.value.name in old(jsonDataDict) && id != "" then CacheAfter(old(normalizedIdLogCache), t.value.name, id)
          else old(normalizedIdLogCache)
      ensures loadedPaths == old(loadedPaths)
    {
      if t.None? || !t.value.isConfig {
        return;
      }
      Remove(t.value.name, id);
    }
  }
}
