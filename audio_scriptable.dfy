/** AudioScriptable: two inspector lists of (key, clip) entries, turned
    into lookup tables for background music by name and for item sounds
    by item id, the latter falling back to the "else" entry. */
module AudioTable {
  import opened Text

  /** An inspector entry; `None` is a missing clip. */
  datatype AudioEntry<C> = AudioEntry(key: string, clip: Option<C>)

  const FallbackKey: string := "else"

  /** An entry BuildDictionaries keeps: a non-empty key and a clip. */
  predicate Usable<C>(e: AudioEntry<C>) {
    e.key != "" && e.clip.Some?
  }

  /** The table BuildDictionaries fills from a list, entry by entry. */
  function Table<C>(entries: seq<AudioEntry<C>>): (m: map<string, C>)
    ensures forall k :: k in m ==> k != ""
    decreases |entries|
  {
    if entries == [] then map[]
    else
      var m := Table(entries[..|entries| - 1]);
      var e := entries[|entries| - 1];
      if Usable(e) then m[e.key := e.clip.value] else m
  }

  /** Some kept entry has key `k`. */
  predicate Listed<C>(entries: seq<AudioEntry<C>>, k: string) {
    exists i :: 0 <= i < |entries| && Usable(entries[i]) && entries[i].key == k
  }

  /** The table's keys are exactly the keys of the kept entries. */
  lemma {:induction false} TableKeys<C>(entries: seq<AudioEntry<C>>, k: string)
    ensures k in Table(entries) <==> Listed(entries, k)
    decreases |entries|
  {
    if entries != [] {
      var init := entries[..|entries| - 1];
      TableKeys(init, k);
      assert forall i :: 0 <= i < |init| ==> init[i] == entries[i];
    }
  }

  /** A key takes the clip of the last kept entry with that key. */
  lemma {:induction false} TableLastWins<C>(entries: seq<AudioEntry<C>>, i: nat)
    requires i < |entries| && Usable(entries[i])
    requires forall j :: i < j < |entries| && Usable(entries[j]) ==> entries[j].key != entries[i].key
    ensures entries[i].key in Table(entries) && Table(entries)[entries[i].key] == entries[i].clip.value
    decreases |entries|
  {
    if i < |entries| - 1 {
      var init := entries[..|entries| - 1];
      assert init[i] == entries[i];
      TableLastWins(init, i);
    }
  }

  /** GetSpecialItemSound's choice: the id's clip, else the "else" clip,
      else nothing. */
  function SoundFor<C>(table: map<string, C>, id: string): (r: Option<C>)
    ensures id in table ==> r == Some(table[id])
    ensures id !in table && FallbackKey in table ==> r == Some(table[FallbackKey])
    ensures id !in table && FallbackKey !in table ==> r.None?
  {
    if id in table then Some(table[id])
    else if FallbackKey in table then Some(table[FallbackKey])
    else None
  }

  /** An id no kept entry names sounds like the "else" entry. */
  lemma UnlistedIdFallsBack<C>(entries: seq<AudioEntry<C>>, id: string)
    requires !Listed(entries, id)
    ensures SoundFor(Table(entries), id) == SoundFor(Table(entries), FallbackKey)
  {
    TableKeys(entries, id);
  }

  /** The entries of an optional list, none for a null list. */
  function EntriesOf<C>(list: Option<seq<AudioEntry<C>>>): seq<AudioEntry<C>> {
    if list.Some? then list.value else []
  }

  /** BuildDictionaries' loop over one list. */
  method BuildTable<C>(list: Option<seq<AudioEntry<C>>>) returns (dict: map<string, C>)
    ensures dict == Table(EntriesOf(list))
  {
    dict := map[];
    if list.None? {
      return;
    }
    var entries := list.value;
    var i := 0;
    while i < |entries|
      invariant 0 <= i <= |entries|
      invariant dict == Table(entries[..i])
    {
      var e := entries[i];
      assert entries[..i + 1][..i] == entries[..i];
      if e.key != "" && e.clip.Some? {
        dict := dict[e.key := e.clip.value];
      }
      i := i + 1;
    }
    assert entries[..i] == entries;
  }

  /** AudioScriptable; a dictionary not yet built is `None`. */
  class AudioScriptable<C(==)> {
    const mainBgms: Option<seq<AudioEntry<C>>>
    const specialItemSounds: Option<seq<AudioEntry<C>>>
    var mainBgmDict: Option<map<string, C>>
    var specialItemDict: Option<map<string, C>>

    /** The asset as loaded, before OnEnable builds the tables. */
    constructor (mainBgms: Option<seq<AudioEntry<C>>>, specialItemSounds: Option<seq<AudioEntry<C>>>)
      ensures this.mainBgms == mainBgms && this.specialItemSounds == specialItemSounds
      ensures mainBgmDict.None? && specialItemDict.None?
    {
      this.mainBgms := mainBgms;
      this.specialItemSounds := specialItemSounds;
      mainBgmDict := None;
      specialItemDict := None;
    }

    /** Both tables as BuildDictionaries leaves them. */
    predicate Built()
      reads this
    {
      mainBgmDict == Some(Table(EntriesOf(mainBgms)))
      && specialItemDict == Some(Table(EntriesOf(specialItemSounds)))
    }

    /** AudioScriptable.BuildDictionaries: both tables are rebuilt from
        their lists. */
    method BuildDictionaries()
      modifies this
      ensures Built()
    {
      var m := BuildTable(mainBgms);
      var s := BuildTable(specialItemSounds);
      mainBgmDict := Some(m);
      specialItemDict := Some(s);
    }

    /** AudioScriptable.GetMainBgm: the tables are built on first use; an
        unknown name gives nothing. */
    method GetMainBgm(name: string) returns (clip: Option<C>)
      modifies this
      ensures old(mainBgmDict).None? ==> Built()
      ensures old(mainBgmDict).Some? ==>
                mainBgmDict == old(mainBgmDict) && specialItemDict == old(specialItemDict)
      ensures mainBgmDict.Some?
      ensures clip == if name in mainBgmDict.value then Some(mainBgmDict.value[name]) else None
    {
      if mainBgmDict.None? {
        BuildDictionaries();
      }
      var d := mainBgmDict.value;
      clip := if name in d then Some(d[name]) else None;
    }

    /** AudioScriptable.GetSpecialItemSound: the tables are built on first
        use; the id's clip, else the "else" clip, else nothing. */
    method GetSpecialItemSound(id: string) returns (clip: Option<C>)
      modifies this
      ensures old(specialItemDict).None? ==> Built()
      ensures old(specialItemDict).Some? ==>
                mainBgmDict == old(mainBgmDict) && specialItemDict == old(specialItemDict)
      ensures specialItemDict.Some?
      ensures clip == SoundFor(specialItemDict.value, id)
    {
      if specialItemDict.None? {
        BuildDictionaries();
      }
      var d := specialItemDict.value;
      clip := if id in d then Some(d[id]) else None;
      if clip.None? {
        clip := if FallbackKey in d then Some(d[FallbackKey]) else None;
        return;
      }
    }
  }
}
