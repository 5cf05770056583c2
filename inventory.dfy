/** The collect-only inventory: items (InventoryItem), the list and index
    that hold them (InventoryState), the catalog that builds an item from
    its ItemsConfig record (InventoryItemCatalog) and the shared service
    (InventoryService).  A C# null string is "". */
module Inventory {
  import opened Text
  import opened ConfigRegistry

  /** A sprite, as the resources path it was loaded from. */
  datatype Sprite = Sprite(resourcePath: string)

  /** InventoryItem: its constructor stores its five arguments as they are. */
  datatype InventoryItem = InventoryItem(id: string, displayName: string, description: string,
                                         icon: Option<Sprite>, audioPath: string)

  /** InventoryItem.GetDisplayNameOrId */
  function DisplayNameOrId(item: InventoryItem): (r: string)
    ensures item.displayName != "" ==> r == item.displayName
    ensures item.displayName == "" ==> r == item.id
  {
    if item.displayName == "" then item.id else item.displayName
  }

  const DefaultDescription: string := "暂无描述。"

  /** InventoryItem.GetDescriptionOrDefault */
  function DescriptionOrDefault(item: InventoryItem, defaultText: string): (r: string)
    ensures item.description != "" ==> r == item.description
    ensures item.description == "" ==> r == defaultText
  {
    if item.description == "" then defaultText else item.description
  }

  /** The shown name is never empty unless both the name and the id are. */
  lemma DisplayNameNonEmpty(item: InventoryItem)
    ensures DisplayNameOrId(item) == "" <==> item.displayName == "" && item.id == ""
  {
  }

  /** The ids of a list of items. */
  function Ids(items: seq<InventoryItem>): set<string> {
    set i | 0 <= i < |items| :: items[i].id
  }

  /** List.IndexOf: the first position of `x`, or -1. */
  function IndexOf(items: seq<InventoryItem>, x: InventoryItem): (r: int)
    ensures -1 <= r < |items|
    ensures r >= 0 ==> items[r] == x && forall j :: 0 <= j < r ==> items[j] != x
    ensures r == -1 <==> x !in items
  {
    if items == [] then -1
    else if items[0] == x then 0
    else
      var r := IndexOf(items[1..], x);
      if r == -1 then -1 else r + 1
  }

  /** The list and the dictionary hold the same items, and no id occurs
      twice in the list. */
  ghost predicate Consistent(items: seq<InventoryItem>, byId: map<string, InventoryItem>) {
    && byId.Keys == Ids(items)
    && (forall i :: 0 <= i < |items| ==> byId[items[i].id] == items[i])
    && (forall i, j :: 0 <= i < j < |items| ==> items[i].id != items[j].id)
  }

  /** After an add or a replacement the item's id is listed. */
  lemma AddedIdPresent(items: seq<InventoryItem>, it: InventoryItem)
    ensures it.id in Ids(items + [it])
    ensures it.id in Ids(items) ==> it.id in Ids(ReplaceById(items, it))
  {
    assert (items + [it])[|items|] == it;
    if it.id in Ids(items) {
      var k :| 0 <= k < |items| && items[k].id == it.id;
      assert ReplaceById(items, it)[k] == it;
    }
  }

  /** The list with the item of `it`'s id replaced by `it`. */
  function ReplaceById(items: seq<InventoryItem>, it: InventoryItem): (r: seq<InventoryItem>)
    ensures |r| == |items|
    ensures forall i :: 0 <= i < |r| ==> r[i] == if items[i].id == it.id then it else items[i]
  {
    seq(|items|, i requires 0 <= i < |items| => if items[i].id == it.id then it else items[i])
  }

  /** Appending an item of a new id keeps list and dictionary consistent. */
  lemma AppendKeepsConsistent(items: seq<InventoryItem>, byId: map<string, InventoryItem>, it: InventoryItem)
    requires Consistent(items, byId) && it.id !in byId
    ensures Consistent(items + [it], byId[it.id := it])
  {
    var items' := items + [it];
    assert Ids(items') == Ids(items) + {it.id} by {
      assert items'[|items|].id == it.id;
      assert forall i :: 0 <= i < |items| ==> items'[i] == items[i];
    }
  }

  /** Under consistency IndexOf finds the stored item of a known id, and
      overwriting it there is the replacement by id. */
  lemma ReplaceAtIndexOf(items: seq<InventoryItem>, byId: map<string, InventoryItem>, it: InventoryItem)
    requires Consistent(items, byId) && it.id in byId
    ensures 0 <= IndexOf(items, byId[it.id])
    ensures items[IndexOf(items, byId[it.id]) := it] == ReplaceById(items, it)
  {
    assert it.id in Ids(items);
    var k :| 0 <= k < |items| && items[k].id == it.id;
    assert items[k] == byId[it.id];
    var index := IndexOf(items, byId[it.id]);
    assert index >= 0 && items[index].id == it.id;
    assert index == k;
    var r := ReplaceById(items, it);
    assert forall i :: 0 <= i < |items| ==> items[index := it][i] == r[i];
  }

  /** Replacing the item of a known id keeps list and dictionary
      consistent. */
  lemma ReplaceKeepsConsistent(items: seq<InventoryItem>, byId: map<string, InventoryItem>, it: InventoryItem)
    requires Consistent(items, byId) && it.id in byId
    ensures Consistent(ReplaceById(items, it), byId[it.id := it])
  {
    var r := ReplaceById(items, it);
    var byId' := byId[it.id := it];
    assert forall i :: 0 <= i < |items| ==> r[i].id == items[i].id;
    assert Ids(r) == Ids(items);
    forall i | 0 <= i < |r|
      ensures byId'[r[i].id] == r[i]
    {
    }
  }

  class InventoryState {
    var items: seq<InventoryItem>
    var itemsById: map<string, InventoryItem>

    ghost predicate Valid()
      reads this
    {
      Consistent(items, itemsById)
    }

    constructor ()
      ensures Valid() && items == [] && itemsById == map[]
    {
      items := [];
      itemsById := map[];
    }

    /** InventoryState.Clear */
    method Clear()
      modifies this
      ensures Valid() && items == [] && itemsById == map[]
    {
      items := [];
      itemsById := map[];
    }

    /** InventoryState.Contains: false for an empty id. */
    method Contains(id: string) returns (b: bool)
      requires Valid()
      ensures b <==> id != "" && exists i :: 0 <= i < |items| && items[i].id == id
    {
      if id == "" {
        return false;
      }
      b := id in itemsById;
      if b {
        assert id in Ids(items);
      }
    }

    /** InventoryState.TryGet: the item with that id, none for an empty id. */
    method TryGet(id: string) returns (item: Option<InventoryItem>)
      requires Valid()
      ensures item.Some? <==> id != "" && id in Ids(items)
      ensures item.Some? ==> item.value.id == id && item.value in items
    {
      if id == "" {
        return None;
      }
      if id in itemsById {
        assert id in Ids(items);
        var i :| 0 <= i < |items| && items[i].id == id;
        return Some(itemsById[id]);
      }
      return None;
    }

    /** InventoryState.TryAdd: a null item or a blank id changes nothing; a
        new id is appended; a known id has its item replaced in place. */
    method TryAdd(item: Option<InventoryItem>) returns (added: bool)
      requires Valid()
      modifies this
      ensures Valid()
      ensures item.None? || IsBlank(item.value.id) ==>
        !added && items == old(items) && itemsById == old(itemsById)
      ensures item.Some? && !IsBlank(item.value.id) ==>
        && added == (item.value.id !in old(Ids(items)))
        && itemsById == old(itemsById)[item.value.id := item.value]
        && items == if added then old(items) + [item.value] else ReplaceById(old(items), item.value)
    {
      if item.None? || IsBlank(item.value.id) {
        return false;
      }
      var it := item.value;
      if it.id in itemsById {
        var existing := itemsById[it.id];
        ReplaceAtIndexOf(items, itemsById, it);
        ReplaceKeepsConsistent(items, itemsById, it);
        itemsById := itemsById[it.id := it];
        var index := IndexOf(items, existing);
        if index >= 0 {
          items := items[index := it];
        }
        return false;
      }
      AppendKeepsConsistent(items, itemsById, it);
      items := items + [it];
      itemsById := itemsById[it.id := it];
      return true;
    }
  }

  /** Replacing by id keeps the order of acquisition: every position keeps
      its id. */
  lemma ReplaceKeepsOrder(items: seq<InventoryItem>, it: InventoryItem)
    ensures forall i :: 0 <= i < |items| ==> ReplaceById(items, it)[i].id == items[i].id
    ensures it.id in Ids(items) ==> it in ReplaceById(items, it)
  {
    if it.id in Ids(items) {
      var k :| 0 <= k < |items| && items[k].id == it.id;
      assert ReplaceById(items, it)[k] == it;
    }
  }

  /** A record of the ItemsConfig sheet. */
  datatype ItemsConfig = ItemsConfig(name: string, desc: string, iconPath: string, audioPath: string)

  /** The item TryCreateItem builds for a non-blank id, from the record
      the registry holds for it (if any) and the sprite of its icon path. */
  function CatalogItem(id: string, cfg: Option<ItemsConfig>, loadSprite: string -> Option<Sprite>): (item: InventoryItem)
    ensures item.id == id && item.audioPath == ""
    ensures cfg.None? ==> item.displayName == id && item.description == "" && item.icon.None?
    ensures cfg.Some? ==> item.displayName == cfg.value.name && item.description == cfg.value.desc
    ensures cfg.Some? ==> item.icon == if cfg.value.iconPath == "" then None else loadSprite(cfg.value.iconPath)
  {
    match cfg
    case None => InventoryItem(id, id, "", None, "")
    case Some(c) => InventoryItem(id, c.name, c.desc, if c.iconPath == "" then None else loadSprite(c.iconPath), "")
  }

  /** An item without a record shows its id. */
  lemma UnconfiguredItemShowsId(id: string, loadSprite: string -> Option<Sprite>)
    ensures DisplayNameOrId(CatalogItem(id, None, loadSprite)) == id
    ensures DescriptionOrDefault(CatalogItem(id, None, loadSprite), DefaultDescription) == DefaultDescription
  {
  }

  const ItemsConfigName: string := "ItemsConfig"
  const ConfigResourcesPath: string := "JsonConfigs"

  /** InventoryItemCatalog.  The registry is ConfigManager; `assets` and
      `deserialize` are what it loads from "JsonConfigs"; `isItemsConfig`
      is the `as ItemsConfig` test and `itemsConfigOf` the record it
      yields; `loadSprite` is Resources.Load<Sprite>. */
  class ItemCatalog<R(==)> {
    const registry: Registry<R>
    const assets: seq<Asset>
    const deserialize: string -> Option<Payload<R>>
    const isItemsConfig: R -> bool
    const itemsConfigOf: R -> ItemsConfig
    const loadSprite: string -> Option<Sprite>
    var isLoaded: bool
    var spriteCache: map<string, Option<Sprite>>
    /** The paths Resources.Load was called with, in order. */
    ghost var loaderCalls: seq<string>

    /** The cache holds what the loader gave, and the loader ran once per
        cached path. */
    ghost predicate Valid()
      reads this
    {
      && (forall p :: p in spriteCache ==> spriteCache[p] == loadSprite(p))
      && (forall i :: 0 <= i < |loaderCalls| ==> loaderCalls[i] in spriteCache)
      && (forall i, j :: 0 <= i < j < |loaderCalls| ==> loaderCalls[i] != loaderCalls[j])
    }

    constructor (registry: Registry<R>, assets: seq<Asset>, deserialize: string -> Option<Payload<R>>,
                 isItemsConfig: R -> bool, itemsConfigOf: R -> ItemsConfig, loadSprite: string -> Option<Sprite>)
      ensures Valid() && !isLoaded && spriteCache == map[] && loaderCalls == []
      ensures this.registry == registry && this.assets == assets && this.deserialize == deserialize
      ensures this.isItemsConfig == isItemsConfig && this.itemsConfigOf == itemsConfigOf && this.loadSprite == loadSprite
    {
      this.registry := registry;
      this.assets := assets;
      this.deserialize := deserialize;
      this.isItemsConfig := isItemsConfig;
      this.itemsConfigOf := itemsConfigOf;
      this.loadSprite := loadSprite;
      isLoaded := false;
      spriteCache := map[];
      loaderCalls := [];
    }

    /** The record the registry holds for `id`, if it is an ItemsConfig. */
    ghost function Found(data: Data<R>, id: string): Option<ItemsConfig> {
      match Lookup(data, ItemsConfigName, isItemsConfig, id)
      case None => None
      case Some(r) => Some(itemsConfigOf(r))
    }

    /** Whether the catalog's load goes through without throwing, given
        the catalog's flag and the registry's loaded paths before it. */
    ghost predicate LoadGoesThrough(wasLoaded: bool, paths: set<string>) {
      wasLoaded || ConfigResourcesPath in paths || Completes(assets, deserialize)
    }

    /** InventoryItemCatalog.EnsureLoaded: the flag is set before the
        registry loads, so the load is attempted at most once even when it
        throws; `completed` is false exactly when this call's load throws. */
    method EnsureLoaded() returns (completed: bool)
      modifies this`isLoaded, registry
      ensures completed == LoadGoesThrough(old(isLoaded), old(registry.loadedPaths))
      ensures isLoaded
      ensures old(isLoaded) ==>
        registry.jsonDataDict == old(registry.jsonDataDict) && registry.loadedPaths == old(registry.loadedPaths)
      ensures !old(isLoaded) ==>
        Store(registry.jsonDataDict, registry.loadedPaths)
          == AfterLoad(Store(old(registry.jsonDataDict), old(registry.loadedPaths)), ConfigResourcesPath, assets, deserialize)
      ensures registry.normalizedIdLogCache == old(registry.normalizedIdLogCache)
    {
      if isLoaded {
        return true;
      }
      isLoaded := true;
      completed := registry.EnsureLoaded(ConfigResourcesPath, assets, deserialize);
    }

    /** InventoryItemCatalog.LoadSpriteOrNull: an empty path gives null; the
        loader runs once per path and its answer, null included, is
        cached. */
    method LoadSpriteOrNull(resourcesPath: string) returns (sprite: Option<Sprite>)
      requires Valid()
      modifies this`spriteCache, this`loaderCalls
      ensures Valid()
      ensures sprite == if resourcesPath == "" then None else loadSprite(resourcesPath)
      ensures spriteCache == if resourcesPath == "" then old(spriteCache) else old(spriteCache)[resourcesPath := sprite]
      ensures loaderCalls == if resourcesPath == "" || resourcesPath in old(spriteCache) then old(loaderCalls)
                             else old(loaderCalls) + [resourcesPath]
    {
      if resourcesPath == "" {
        return None;
      }
      if resourcesPath in spriteCache {
        return spriteCache[resourcesPath];
      }
      sprite := loadSprite(resourcesPath);
      loaderCalls := loaderCalls + [resourcesPath];
      spriteCache := spriteCache[resourcesPath := sprite];
    }

    /** InventoryItemCatalog.TryCreateItem: a blank id is refused; a first
        load that throws gives no item (the exception leaves the method);
        any other id gives an item whose id is the id as passed, built from
        the ItemsConfig record found under the trimmed id, or from the id
        alone when there is none. */
    method TryCreateItem(id: string) returns (item: Option<InventoryItem>)
      requires Valid()
      modifies this`isLoaded, this`spriteCache, this`loaderCalls, registry
      ensures Valid()
      ensures IsBlank(id) ==>
        item.None? && isLoaded == old(isLoaded) && spriteCache == old(spriteCache)
        && registry.jsonDataDict == old(registry.jsonDataDict) && registry.loadedPaths == old(registry.loadedPaths)
        && registry.normalizedIdLogCache == old(registry.normalizedIdLogCache)
      ensures !IsBlank(id) ==>
        && isLoaded
        && (item.Some? <==> LoadGoesThrough(old(isLoaded), old(registry.loadedPaths)))
        && Store(registry.jsonDataDict, registry.loadedPaths)
             == (if old(isLoaded) then Store(old(registry.jsonDataDict), old(registry.loadedPaths))
                 else AfterLoad(Store(old(registry.jsonDataDict), old(registry.loadedPaths)), ConfigResourcesPath, assets, deserialize))
      ensures !IsBlank(id) && item.Some? ==>
        && item == Some(CatalogItem(id, Found(registry.jsonDataDict, id), loadSprite))
        && registry.normalizedIdLogCache == CacheAfter(old(registry.normalizedIdLogCache), ItemsConfigName, id)
      ensures !IsBlank(id) && item.None? ==>
        spriteCache == old(spriteCache) && registry.normalizedIdLogCache == old(registry.normalizedIdLogCache)
    {
      if IsBlank(id) {
        return None;
      }
      var loaded := EnsureLoaded();
      if !loaded {
        return None;
      }
      var has := registry.Has(ItemsConfigName, id);
      if !has {
        return Some(InventoryItem(id, id, "", None, ""));
      }
      var cfg := registry.Get(ItemsConfigName, isItemsConfig, id);
      if cfg.None? {
        return Some(InventoryItem(id, id, "", None, ""));
      }
      var record := itemsConfigOf(cfg.value);
      var icon := LoadSpriteOrNull(record.iconPath);
      return Some(InventoryItem(id, record.name, record.desc, icon, ""));
    }
  }

  /** InventoryService: the shared state and the catalog it collects
      through. */
  class InventoryService<R(==)> {
    const state: InventoryState
    const catalog: ItemCatalog<R>

    constructor (catalog: ItemCatalog<R>)
      ensures fresh(state) && state.Valid() && state.items == [] && this.catalog == catalog
    {
      state := new InventoryState();
      this.catalog := catalog;
    }

    /** InventoryService.Reset */
    method Reset()
      modifies state
      ensures state.Valid() && state.items == [] && state.itemsById == map[]
    {
      state.Clear();
    }

    /** InventoryService.TryCollect: false with the inventory unchanged
        when the catalog refuses the id or its first load throws; otherwise
        TryAdd of the catalog's item, true exactly the first time an id is
        collected. */
    method TryCollect(id: string) returns (collected: bool)
      requires state.Valid() && catalog.Valid()
      modifies state, catalog`isLoaded, catalog`spriteCache, catalog`loaderCalls, catalog.registry
      ensures state.Valid() && catalog.Valid()
      ensures IsBlank(id) || !catalog.LoadGoesThrough(old(catalog.isLoaded), old(catalog.registry.loadedPaths)) ==>
        !collected && state.items == old(state.items) && state.itemsById == old(state.itemsById)
      ensures !IsBlank(id) && catalog.LoadGoesThrough(old(catalog.isLoaded), old(catalog.registry.loadedPaths)) ==>
        var it := CatalogItem(id, catalog.Found(catalog.registry.jsonDataDict, id), catalog.loadSprite);
        && collected == (id !in old(Ids(state.items)))
        && state.itemsById == old(state.itemsById)[id := it]
        && state.items == if collected then old(state.items) + [it] else ReplaceById(old(state.items), it)
      ensures collected ==> id in Ids(state.items) && |state.items| == |old(state.items)| + 1
      ensures !collected ==> |state.items| == |old(state.items)|
    {
      var item := catalog.TryCreateItem(id);
      if item.None? {
        return false;
      }
      ghost var before := state.items;
      collected := state.TryAdd(item);
      AddedIdPresent(before, item.value);
    }
  }
}
