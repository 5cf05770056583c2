/** LocaleManager: the texts of every supported language, folded from the
    LanguagesConfig payloads, the current language chosen from a persisted
    index, and the lookup that falls back to the key. */
module Locale {
  import opened Text
  import opened Maps
  import opened ConfigRegistry
  import opened Prefs

  /** UnityEngine.SystemLanguage: the two supported values, and every
      other one by its enum value. */
  datatype SystemLanguage = ChineseSimplified | English | OtherLanguage(code: nat)

  /** A LanguagesConfig record. */
  datatype LanguageEntry = LanguageEntry(id: string, langKey: string, text: string)

  /** The supported languages and their keys, in order. */
  const SupportedLanguages: seq<(string, SystemLanguage)> := [("cn", ChineseSimplified), ("en", English)]

  const LanguageIndexKey: string := "CURRENT_LANGUAGE_INDEX"
  const LanguageAssetPrefix: string := "LanguagesConfig_"
  const LanguagesConfigName: string := "LanguagesConfig"
  const ConfigResourcesPath: string := "JsonConfigs"

  type LocaleData = map<SystemLanguage, map<string, string>>

  /** The prefix test ignores case as OrdinalIgnoreCase does, which also
      matches a dotless i or a long s for the prefix's 'i' and 's'. */
  lemma LanguagePrefixFolds()
    ensures StartsWithIgnoreCase("LANGUAGESCONFIG_en", LanguageAssetPrefix)
    ensures StartsWithIgnoreCase("LanguagesConf\U{0131}g_en", LanguageAssetPrefix)
    ensures StartsWithIgnoreCase("Language\U{017F}Config_en", LanguageAssetPrefix)
    ensures !StartsWithIgnoreCase("LanguageConfig_en", LanguageAssetPrefix)
  {
    var missingS := "LanguageConfig_en"[..|LanguageAssetPrefix|];
    assert Fold(missingS)[8] == 'c' && Fold(LanguageAssetPrefix)[8] == 's';
  }

  /** supportedLanguages.Find by key, ignoring case; None where Find yields
      the default entry with a null key. */
  function FindSupported(langKey: string): (r: Option<SystemLanguage>)
    ensures r.Some? <==> exists i :: 0 <= i < |SupportedLanguages| && EqualsIgnoreCase(SupportedLanguages[i].0, langKey)
    ensures r.Some? ==> r.value == ChineseSimplified || r.value == English
  {
    if EqualsIgnoreCase(SupportedLanguages[0].0, langKey) then Some(SupportedLanguages[0].1)
    else if EqualsIgnoreCase(SupportedLanguages[1].0, langKey) then Some(SupportedLanguages[1].1)
    else None
  }

  /** supportedLanguages.FindIndex by language: -1 if unsupported. */
  function FindIndex(language: SystemLanguage): (i: int)
    ensures -1 <= i < |SupportedLanguages|
    ensures i >= 0 ==> SupportedLanguages[i].1 == language
    ensures i == -1 <==> forall j :: 0 <= j < |SupportedLanguages| ==> SupportedLanguages[j].1 != language
  {
    if SupportedLanguages[0].1 == language then 0
    else if SupportedLanguages[1].1 == language then 1
    else -1
  }

  /** The language a saved index selects: a supported index selects its
      language, any other value the first one. */
  function SelectLanguage(savedIndex: int): (language: SystemLanguage)
    ensures 0 <= savedIndex < |SupportedLanguages| ==> language == SupportedLanguages[savedIndex].1
    ensures !(0 <= savedIndex < |SupportedLanguages|) ==> language == SupportedLanguages[0].1
  {
    if 0 <= savedIndex < |SupportedLanguages| then SupportedLanguages[savedIndex].1
    else SupportedLanguages[0].1
  }

  /** The index the setter persists reads back as the language set, when it
      is supported; an unsupported language is saved as -1 and reads back
      as the first language.  Every supported index round-trips too. */
  lemma SavedIndexRoundTrip(language: SystemLanguage, savedIndex: int)
    ensures FindIndex(language) >= 0 ==> SelectLanguage(FindIndex(language)) == language
    ensures FindIndex(language) == -1 ==> SelectLanguage(FindIndex(language)) == ChineseSimplified
    ensures 0 <= savedIndex < |SupportedLanguages| ==> FindIndex(SelectLanguage(savedIndex)) == savedIndex
  {
  }

  /** Whether a list of entries has one with key `k`. */
  predicate HasEntry<V>(es: seq<(string, V)>, k: string) {
    exists i :: 0 <= i < |es| && es[i].0 == k
  }

  /** The entries of a Dictionary filled by the members in turn, in
      enumeration order: a new key goes last, a repeated key keeps its
      place and takes the later value. */
  function Entries<V>(members: seq<(string, V)>): seq<(string, V)> {
    if members == [] then []
    else
      var prev := Entries(members[..|members| - 1]);
      var e := members[|members| - 1];
      if HasEntry(prev, e.0) then
        seq(|prev|, i requires 0 <= i < |prev| => if prev[i].0 == e.0 then e else prev[i])
      else
        prev + [e]
  }

  /** No key is listed twice. */
  predicate DistinctKeys<V>(es: seq<(string, V)>) {
    forall i, j :: 0 <= i < j < |es| ==> es[i].0 != es[j].0
  }

  lemma {:induction false} EntriesDistinct<V>(members: seq<(string, V)>)
    ensures DistinctKeys(Entries(members))
    decreases |members|
  {
    if members != [] {
      var prev := Entries(members[..|members| - 1]);
      EntriesDistinct(members[..|members| - 1]);
      var e := members[|members| - 1];
      var es := Entries(members);
      if HasEntry(prev, e.0) {
        assert |es| == |prev|;
        forall i, j | 0 <= i < j < |es| ensures es[i].0 != es[j].0 {
          assert es[i].0 == prev[i].0 && es[j].0 == prev[j].0;
        }
      } else {
        assert es == prev + [e];
        forall i, j | 0 <= i < j < |es| ensures es[i].0 != es[j].0 {
          if j == |prev| {
            assert es[i] == prev[i];
          } else {
            assert es[i] == prev[i] && es[j] == prev[j];
          }
        }
      }
    }
  }

  /** Every listed entry holds the dictionary's value for its key. */
  ghost predicate ValuesMatch<V>(es: seq<(string, V)>, m: map<string, V>) {
    forall i :: 0 <= i < |es| ==> es[i].0 in m && m[es[i].0] == es[i].1
  }

  /** Every key of the dictionary is listed. */
  predicate Covers<V>(es: seq<(string, V)>, m: map<string, V>) {
    forall k :: k in m ==> HasEntry(es, k)
  }

  /** The dictionary after the last member is the one before it with that
      member written. */
  lemma LastWrite<V>(members: seq<(string, V)>)
    requires members != []
    ensures Assign(map[], members)
            == Assign(map[], members[..|members| - 1])[members[|members| - 1].0 := members[|members| - 1].1]
  {
    var init, e := members[..|members| - 1], members[|members| - 1];
    AssignSnoc(map[], init, e);
    assert init + [e] == members;
  }

  lemma {:induction false} EntriesValues<V>(members: seq<(string, V)>)
    ensures ValuesMatch(Entries(members), Assign(map[], members))
    decreases |members|
  {
    if members != [] {
      var init := members[..|members| - 1];
      var e := members[|members| - 1];
      var prev := Entries(init);
      var m0 := Assign(map[], init);
      EntriesValues(init);
      LastWrite(members);
      var m := m0[e.0 := e.1];
      var es := Entries(members);
      forall i | 0 <= i < |es|
        ensures es[i].0 in m && m[es[i].0] == es[i].1
      {
        if i < |prev| && prev[i].0 != e.0 {
          assert es[i] == prev[i];
        } else {
          assert es[i] == e;
        }
      }
    }
  }

  lemma {:induction false} EntriesCover<V>(members: seq<(string, V)>)
    ensures Covers(Entries(members), Assign(map[], members))
    decreases |members|
  {
    if members != [] {
      var init := members[..|members| - 1];
      var e := members[|members| - 1];
      var prev := Entries(init);
      EntriesCover(init);
      LastWrite(members);
      var m := Assign(map[], init)[e.0 := e.1];
      var es := Entries(members);
      forall k | k in m
        ensures HasEntry(es, k)
      {
        if k == e.0 && !HasEntry(prev, e.0) {
          assert es[|prev|].0 == k;
        } else {
          var i :| 0 <= i < |prev| && prev[i].0 == k;
          assert es[i].0 == k;
        }
      }
    }
  }

  /** The values of that Dictionary, in enumeration order. */
  function DictValues<V>(members: seq<(string, V)>): (vs: seq<V>)
    ensures |vs| == |Entries(members)|
    ensures forall i :: 0 <= i < |vs| ==> vs[i] == Entries(members)[i].1
  {
    var es := Entries(members);
    seq(|es|, i requires 0 <= i < |es| => es[i].1)
  }

  /** The record a value holds, if it is a LanguagesConfig. */
  function EntryOf<R>(value: Option<R>, asLanguage: R -> Option<LanguageEntry>): Option<LanguageEntry> {
    if value.None? then None else asLanguage(value.value)
  }

  /** A record the fold keeps: non-empty key, text and id, and a supported
      key. */
  predicate Usable(e: LanguageEntry) {
    e.langKey != "" && e.text != "" && e.id != "" && FindSupported(e.langKey).Some?
  }

  /** One step of the inner loop: `dict[entry.id] = text` in the language's
      dictionary, created on first use; other records are skipped. */
  function AddEntry(data: LocaleData, e: Option<LanguageEntry>): LocaleData {
    if e.None? || !Usable(e.value) then data
    else
      var language := FindSupported(e.value.langKey).value;
      var dict := if language in data then data[language] else map[];
      data[language := dict[e.value.id := e.value.text]]
  }

  /** The inner loop over a payload's values. */
  function AddEntries<R>(data: LocaleData, values: seq<Option<R>>, asLanguage: R -> Option<LanguageEntry>): LocaleData
  {
    if values == [] then data
    else AddEntry(AddEntries(data, values[..|values| - 1], asLanguage), EntryOf(values[|values| - 1], asLanguage))
  }

  /** One step of the outer loop: an asset whose name does not start with
      "LanguagesConfig_" (ignoring case), whose text does not parse, or
      whose payload is empty is skipped. */
  function AddAsset<R>(data: LocaleData, asset: Asset, deserialize: string -> Option<Payload<R>>,
                       asLanguage: R -> Option<LanguageEntry>): LocaleData
  {
    if !StartsWithIgnoreCase(asset.name, LanguageAssetPrefix) then data
    else
      match deserialize(asset.text)
      case None => data
      case Some(members) =>
        if |members| == 0 then data else AddEntries(data, DictValues(members), asLanguage)
  }

  /** The outer loop over the assets. */
  function AddAssets<R>(data: LocaleData, assets: seq<Asset>, deserialize: string -> Option<Payload<R>>,
                        asLanguage: R -> Option<LanguageEntry>): LocaleData
  {
    if assets == [] then data
    else AddAsset(AddAssets(data, assets[..|assets| - 1], deserialize, asLanguage), assets[|assets| - 1], deserialize, asLanguage)
  }

  /** Every language stored is supported, and every stored id and text is
      non-empty. */
  ghost predicate WellFormed(data: LocaleData) {
    forall language :: language in data ==>
      && (language == ChineseSimplified || language == English)
      && forall id :: id in data[language] ==> id != "" && data[language][id] != ""
  }

  /** A usable record sets its text under its id in its language and
      changes no other text; any other record changes nothing. */
  lemma AddEntryEffect(data: LocaleData, e: Option<LanguageEntry>, language: SystemLanguage, id: string)
    ensures e.None? || !Usable(e.value) ==> AddEntry(data, e) == data
    ensures e.Some? && Usable(e.value) && language == FindSupported(e.value.langKey).value && id == e.value.id ==>
      TextIn(AddEntry(data, e), language, id) == Some(e.value.text)
    ensures e.Some? && Usable(e.value) && (language != FindSupported(e.value.langKey).value || id != e.value.id) ==>
      TextIn(AddEntry(data, e), language, id) == TextIn(data, language, id)
  {
  }

  /** The fold keeps the data well formed. */
  lemma {:induction false} AddAssetsWellFormed<R>(data: LocaleData, assets: seq<Asset>,
                                                  deserialize: string -> Option<Payload<R>>,
                                                  asLanguage: R -> Option<LanguageEntry>)
    requires WellFormed(data)
    ensures WellFormed(AddAssets(data, assets, deserialize, asLanguage))
    decreases |assets|
  {
    if assets != [] {
      var prev := AddAssets(data, assets[..|assets| - 1], deserialize, asLanguage);
      AddAssetsWellFormed(data, assets[..|assets| - 1], deserialize, asLanguage);
      var a := assets[|assets| - 1];
      if StartsWithIgnoreCase(a.name, LanguageAssetPrefix) && deserialize(a.text).Some? {
        var members := deserialize(a.text).value;
        AddEntriesWellFormed(prev, DictValues(members), asLanguage);
      }
    }
  }

  lemma {:induction false} AddEntriesWellFormed<R>(data: LocaleData, values: seq<Option<R>>,
                                                   asLanguage: R -> Option<LanguageEntry>)
    requires WellFormed(data)
    ensures WellFormed(AddEntries(data, values, asLanguage))
    decreases |values|
  {
    if values != [] {
      AddEntriesWellFormed(data, values[..|values| - 1], asLanguage);
    }
  }

  /** The locale data InitLanguage builds from the assets. */
  function LocaleDataOf<R>(assets: seq<Asset>, deserialize: string -> Option<Payload<R>>,
                           asLanguage: R -> Option<LanguageEntry>): LocaleData
  {
    AddAssets(map[], assets, deserialize, asLanguage)
  }

  /** The stored text of a key, if any. */
  function TextIn(data: LocaleData, language: SystemLanguage, key: string): Option<string> {
    if language in data && key in data[language] then Some(data[language][key]) else None
  }

  /** LocaleManager.GetText(language, key) on the data: the stored text,
      or the key itself. */
  function TextOrKey(data: LocaleData, language: SystemLanguage, key: string): (r: string)
    ensures TextIn(data, language, key).Some? ==> r == TextIn(data, language, key).value
    ensures TextIn(data, language, key).None? ==> r == key
  {
    if language in data && key in data[language] then data[language][key] else key
  }

  /** On well-formed data a lookup never yields an empty text for a
      non-empty key, and an unsupported language always yields the key. */
  lemma TextOrKeyNonEmpty(data: LocaleData, language: SystemLanguage, key: string)
    requires WellFormed(data)
    ensures key != "" ==> TextOrKey(data, language, key) != ""
    ensures FindIndex(language) == -1 ==> TextOrKey(data, language, key) == key
  {
  }

  /** The inner loop of InitLanguage. */
  method FoldValues<R>(data: LocaleData, values: seq<Option<R>>, asLanguage: R -> Option<LanguageEntry>)
    returns (result: LocaleData)
    ensures result == AddEntries(data, values, asLanguage)
  {
    result := data;
    var j := 0;
    while j < |values|
      invariant 0 <= j <= |values|
      invariant result == AddEntries(data, values[..j], asLanguage)
    {
      assert values[..j + 1][..j] == values[..j];
      var entry := EntryOf(values[j], asLanguage);
      if entry.Some? {
        var langKey := entry.value.langKey;
        var text := entry.value.text;
        if langKey != "" && text != "" && entry.value.id != "" {
          var supported := FindSupported(langKey);
          if supported.Some? {
            var dict := if supported.value in result then result[supported.value] else map[];
            result := result[supported.value := dict[entry.value.id := text]];
          }
        }
      }
      j := j + 1;
    }
    assert values[..j] == values;
  }

  /** One pass of the outer loop of InitLanguage. */
  method FoldAsset<R>(data: LocaleData, asset: Asset, deserialize: string -> Option<Payload<R>>,
                      asLanguage: R -> Option<LanguageEntry>)
    returns (result: LocaleData)
    ensures result == AddAsset(data, asset, deserialize, asLanguage)
  {
    result := data;
    if StartsWithIgnoreCase(asset.name, LanguageAssetPrefix) {
      var configs := deserialize(asset.text);
      if configs.Some? && |configs.value| != 0 {
        result := FoldValues(data, DictValues(configs.value), asLanguage);
      }
    }
  }

  lemma AddAssetsSnoc<R>(data: LocaleData, assets: seq<Asset>, i: nat, deserialize: string -> Option<Payload<R>>,
                         asLanguage: R -> Option<LanguageEntry>)
    requires i < |assets|
    ensures AddAssets(data, assets[..i + 1], deserialize, asLanguage)
            == AddAsset(AddAssets(data, assets[..i], deserialize, asLanguage), assets[i], deserialize, asLanguage)
  {
    assert assets[..i + 1][..i] == assets[..i];
  }

  /** The outer loop of InitLanguage. */
  method FoldAssets<R>(assets: seq<Asset>, deserialize: string -> Option<Payload<R>>,
                       asLanguage: R -> Option<LanguageEntry>)
    returns (result: LocaleData)
    ensures result == LocaleDataOf(assets, deserialize, asLanguage)
  {
    result := map[];
    var i := 0;
    while i < |assets|
      invariant 0 <= i <= |assets|
      invariant result == AddAssets(map[], assets[..i], deserialize, asLanguage)
    {
      AddAssetsSnoc(map[], assets, i, deserialize, asLanguage);
      result := FoldAsset(result, assets[i], deserialize, asLanguage);
      i := i + 1;
    }
    assert assets[..i] == assets;
  }

  /** The registry after a load of "JsonConfigs". */
  function Loaded<R>(data: Data<R>, loadedPaths: set<string>, assets: seq<Asset>,
                     deserialize: string -> Option<Payload<R>>): Store<R>
  {
    AfterLoad(Store(data, loadedPaths), ConfigResourcesPath, assets, deserialize)
  }

  /** LocaleManager.  The registry is ConfigManager and `prefs` is
      RuntimePrefs; `assets` is Resources.LoadAll("JsonConfigs"),
      `deserialize` JsonConvert (None where it throws) and `asLanguage` the
      `is LanguagesConfig` test. */
  class LocaleManager<R(==)> {
    const registry: Registry<R>
    const prefs: RuntimePrefs
    const assets: seq<Asset>
    const deserialize: string -> Option<Payload<R>>
    const asLanguage: R -> Option<LanguageEntry>
    var localeDataDict: LocaleData
    var isInitialized: bool
    var currentLanguage: SystemLanguage

    /** The locale data holds only supported languages and non-empty ids
        and texts. */
    ghost predicate Valid()
      reads this
    {
      WellFormed(localeDataDict)
    }

    constructor (registry: Registry<R>, prefs: RuntimePrefs, assets: seq<Asset>,
                 deserialize: string -> Option<Payload<R>>, asLanguage: R -> Option<LanguageEntry>)
      ensures Valid() && localeDataDict == map[] && !isInitialized && currentLanguage == ChineseSimplified
      ensures this.registry == registry && this.prefs == prefs && this.assets == assets
      ensures this.deserialize == deserialize && this.asLanguage == asLanguage
    {
      this.registry := registry;
      this.prefs := prefs;
      this.assets := assets;
      this.deserialize := deserialize;
      this.asLanguage := asLanguage;
      localeDataDict := map[];
      isInitialized := false;
      currentLanguage := ChineseSimplified;
    }

    /** Whether ConfigManager.EnsureLoaded("JsonConfigs") returns rather
        than throws, from the registry's loaded paths. */
    ghost predicate LoadReturns(loadedPaths: set<string>) {
      ConfigResourcesPath in loadedPaths || Completes(assets, deserialize)
    }

    /** LocaleManager.InitLanguage.  `completed` is false where the registry
        load throws; `savedIndex` is the persisted index it read, if it got
        that far. */
    method InitLanguage() returns (completed: bool, ghost savedIndex: int)
      requires Valid()
      modifies this, registry, prefs
      ensures Valid()
      ensures old(isInitialized) ==>
        && completed && localeDataDict == old(localeDataDict) && isInitialized && currentLanguage == old(currentLanguage)
        && registry.jsonDataDict == old(registry.jsonDataDict) && registry.loadedPaths == old(registry.loadedPaths)
        && prefs.store == old(prefs.store) && prefs.mode == old(prefs.mode)
        && prefs.hasLoggedFallback == old(prefs.hasLoggedFallback) && prefs.backing == old(prefs.backing)
      ensures !old(isInitialized) ==>
        && completed == LoadReturns(old(registry.loadedPaths))
        && registry.loadedPaths == Loaded(old(registry.jsonDataDict), old(registry.loadedPaths), assets, deserialize).loadedPaths
        && (!completed ==> localeDataDict == old(localeDataDict))
        && (completed ==> localeDataDict == LocaleDataOf(assets, deserialize, asLanguage))
        && isInitialized == (completed && localeDataDict != map[])
        && (isInitialized ==>
              && currentLanguage == SelectLanguage(savedIndex)
              && prefs.GotInt(LanguageIndexKey, 0, savedIndex)
              && registry.jsonDataDict
                   == Removed(Loaded(old(registry.jsonDataDict), old(registry.loadedPaths), assets, deserialize).data,
                              LanguagesConfigName, ""))
        && (!isInitialized ==>
              && currentLanguage == old(currentLanguage)
              && registry.jsonDataDict == Loaded(old(registry.jsonDataDict), old(registry.loadedPaths), assets, deserialize).data
              && prefs.store == old(prefs.store) && prefs.mode == old(prefs.mode)
              && prefs.hasLoggedFallback == old(prefs.hasLoggedFallback) && prefs.backing == old(prefs.backing))
      ensures prefs.backing == old(prefs.backing)
      ensures prefs.store == old(prefs.store) || prefs.store == old(prefs.store)[LanguageIndexKey := IntValue(savedIndex)]
      ensures (prefs.mode == old(prefs.mode) && prefs.hasLoggedFallback == old(prefs.hasLoggedFallback))
              || AfterBackingCall(old(prefs.mode) == PlayerPrefs && prefs.backingFails, prefs.allowFallbackToMemory,
                                  old(prefs.mode), old(prefs.hasLoggedFallback), prefs.mode, prefs.hasLoggedFallback)
      ensures prefs.allowFallbackToMemory == old(prefs.allowFallbackToMemory)
      ensures registry.normalizedIdLogCache == old(registry.normalizedIdLogCache)
    {
      savedIndex := 0;
      if isInitialized {
        return true, savedIndex;
      }
      completed := registry.EnsureLoaded(ConfigResourcesPath, assets, deserialize);
      if !completed {
        return;
      }
      savedIndex := InstallLocaleData();
    }

    /** The rest of InitLanguage once the registry has loaded: fold the
        language records, then, if any were found, select the language,
        evict the LanguagesConfig bucket and mark the manager
        initialised. */
    method InstallLocaleData() returns (ghost savedIndex: int)
      requires Valid()
      modifies this, registry, prefs
      ensures Valid()
      ensures localeDataDict == LocaleDataOf(assets, deserialize, asLanguage)
      ensures isInitialized == (localeDataDict != map[])
      ensures isInitialized ==>
        && currentLanguage == SelectLanguage(savedIndex)
        && prefs.GotInt(LanguageIndexKey, 0, savedIndex)
        && registry.jsonDataDict == Removed(old(registry.jsonDataDict), LanguagesConfigName, "")
      ensures !isInitialized ==>
        && currentLanguage == old(currentLanguage) && registry.jsonDataDict == old(registry.jsonDataDict)
        && prefs.store == old(prefs.store) && prefs.mode == old(prefs.mode)
        && prefs.hasLoggedFallback == old(prefs.hasLoggedFallback) && prefs.backing == old(prefs.backing)
      ensures prefs.backing == old(prefs.backing)
      ensures prefs.store == old(prefs.store) || prefs.store == old(prefs.store)[LanguageIndexKey := IntValue(savedIndex)]
      ensures (prefs.mode == old(prefs.mode) && prefs.hasLoggedFallback == old(prefs.hasLoggedFallback))
              || AfterBackingCall(old(prefs.mode) == PlayerPrefs && prefs.backingFails, prefs.allowFallbackToMemory,
                                  old(prefs.mode), old(prefs.hasLoggedFallback), prefs.mode, prefs.hasLoggedFallback)
      ensures prefs.allowFallbackToMemory == old(prefs.allowFallbackToMemory)
      ensures registry.loadedPaths == old(registry.loadedPaths)
      ensures registry.normalizedIdLogCache == old(registry.normalizedIdLogCache)
    {
      savedIndex := 0;
      localeDataDict := map[];
      isInitialized := false;
      if |assets| == 0 {
        return;
      }
      localeDataDict := FoldAssets(assets, deserialize, asLanguage);
      AddAssetsWellFormed(map[], assets, deserialize, asLanguage);
      if localeDataDict == map[] {
        return;
      }
      var index := prefs.GetInt(LanguageIndexKey, 0);
      savedIndex := index;
      currentLanguage := SelectLanguage(index);
      registry.Remove(LanguagesConfigName, "");
      isInitialized := true;
    }

    /** The CurrentLanguage setter: initialise, set, then persist the
        language's index (-1 when unsupported).  Nothing is set where the
        initialisation throws. */
    method SetCurrentLanguage(value: SystemLanguage) returns (completed: bool)
      requires Valid()
      modifies this, registry, prefs
      ensures Valid()
      ensures completed ==> currentLanguage == value
      ensures completed ==>
        && prefs.store == old(prefs.store)[LanguageIndexKey := IntValue(FindIndex(value))]
        && prefs.backing == (if old(prefs.mode) == PlayerPrefs && !prefs.backingFails
                             then old(prefs.backing)[LanguageIndexKey := IntValue(FindIndex(value))]
                             else old(prefs.backing))
        && AfterBackingCall(old(prefs.mode) == PlayerPrefs && prefs.backingFails, prefs.allowFallbackToMemory,
                            old(prefs.mode), old(prefs.hasLoggedFallback), prefs.mode, prefs.hasLoggedFallback)
      ensures !completed ==>
        && !old(isInitialized) && !LoadReturns(old(registry.loadedPaths))
        && currentLanguage == old(currentLanguage) && localeDataDict == old(localeDataDict) && !isInitialized
        && prefs.store == old(prefs.store) && prefs.backing == old(prefs.backing)
      ensures old(isInitialized) ==> completed && localeDataDict == old(localeDataDict) && isInitialized
      ensures !old(isInitialized) && completed ==>
        localeDataDict == LocaleDataOf(assets, deserialize, asLanguage) && isInitialized == (localeDataDict != map[])
      ensures prefs.allowFallbackToMemory == old(prefs.allowFallbackToMemory)
      ensures registry.normalizedIdLogCache == old(registry.normalizedIdLogCache)
    {
      var ok, _ := InitLanguage();
      if !ok {
        return false;
      }
      currentLanguage := value;
      var languageIndex := FindIndex(value);
      prefs.SetInt(LanguageIndexKey, languageIndex);
      return true;
    }

    /** The CurrentLanguage getter: initialise, then read; None where the
        initialisation throws. */
    method GetCurrentLanguage() returns (language: Option<SystemLanguage>)
      requires Valid()
      modifies this, registry, prefs
      ensures Valid()
      ensures language.Some? <==> old(isInitialized) || LoadReturns(old(registry.loadedPaths))
      ensures old(isInitialized) ==> language == Some(old(currentLanguage)) && isInitialized
      ensures language.Some? ==> language.value == currentLanguage
      ensures isInitialized ==> currentLanguage == ChineseSimplified || currentLanguage == English
                                || currentLanguage == old(currentLanguage)
    {
      var ok, _ := InitLanguage();
      if !ok {
        return None;
      }
      return Some(currentLanguage);
    }

    /** LocaleManager.GetText(language, key): None where the initialisation
        throws; otherwise the stored text, or the key itself. */
    method GetText(language: SystemLanguage, key: string) returns (text: Option<string>)
      requires Valid()
      modifies this, registry, prefs
      ensures Valid()
      ensures text.Some? <==> old(isInitialized) || LoadReturns(old(registry.loadedPaths))
      ensures text.Some? ==> text.value == TextOrKey(localeDataDict, language, key)
      ensures text.Some? && key != "" ==> text.value != ""
      ensures old(isInitialized) ==> localeDataDict == old(localeDataDict) && isInitialized
      ensures !old(isInitialized) && text.Some? ==>
        localeDataDict == LocaleDataOf(assets, deserialize, asLanguage) && isInitialized == (localeDataDict != map[])
      ensures prefs.allowFallbackToMemory == old(prefs.allowFallbackToMemory)
      ensures registry.normalizedIdLogCache == old(registry.normalizedIdLogCache)
    {
      var ok, _ := InitLanguage();
      if !ok {
        return None;
      }
      TextOrKeyNonEmpty(localeDataDict, language, key);
      if language in localeDataDict && key in localeDataDict[language] {
        return Some(localeDataDict[language][key]);
      }
      return Some(key);
    }
  }
}
