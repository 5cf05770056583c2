/** GameResetService: clearing the session (inventory and puzzle progress)
    and the persisted progress of a new game (the prologue flags of every
    version up to 10, and on request the language choice). */
module GameReset {
  import opened Text
  import opened Prefs
  import Inventory
  import Puzzles

  const MaxPrologueVersionToClear: nat := 10
  const PrologueCompletedKeyPrefix: string := "Game.Prologue.Completed"
  const LanguageIndexKey: string := "CURRENT_LANGUAGE_INDEX"

  /** The prologue flag key of version `v`. */
  function PrologueKey(v: nat): (key: string)
    ensures |key| > |PrologueCompletedKeyPrefix| + 2
    ensures key[..|PrologueCompletedKeyPrefix| + 2] == PrologueCompletedKeyPrefix + ".v"
  {
    PrologueCompletedKeyPrefix + ".v" + NatText(v)
  }

  /** Different versions have different keys. */
  lemma PrologueKeyInjective(v: nat, w: nat)
    requires PrologueKey(v) == PrologueKey(w)
    ensures v == w
  {
    var n := |PrologueCompletedKeyPrefix| + 2;
    assert NatText(v) == PrologueKey(v)[n..];
    assert NatText(w) == PrologueKey(w)[n..];
    NatTextValue(v);
    NatTextValue(w);
  }

  /** The language key is no prologue key. */
  lemma LanguageKeyIsNoPrologueKey(v: nat)
    ensures PrologueKey(v) != LanguageIndexKey
  {
    assert PrologueKey(v)[0] == 'G';
  }

  /** The prologue keys of versions 1 to n. */
  function PrologueKeys(n: nat): set<string> {
    set v | 1 <= v <= n :: PrologueKey(v)
  }

  /** The keys a new game deletes. */
  function ResetKeys(keepLanguage: bool): set<string> {
    PrologueKeys(MaxPrologueVersionToClear) + if keepLanguage then {} else {LanguageIndexKey}
  }

  /** Deleting the reset keys removes every prologue flag up to version 10,
      removes the language choice exactly when it is not kept, and keeps
      every other key with its value. */
  lemma ResetEffect(store: map<string, Value>, keepLanguage: bool, key: string)
    ensures forall v :: 1 <= v <= MaxPrologueVersionToClear ==> PrologueKey(v) !in store - ResetKeys(keepLanguage)
    ensures LanguageIndexKey in store - ResetKeys(keepLanguage) <==> keepLanguage && LanguageIndexKey in store
    ensures key in store && key != LanguageIndexKey
            && (forall v :: 1 <= v <= MaxPrologueVersionToClear ==> key != PrologueKey(v)) ==>
              key in store - ResetKeys(keepLanguage) && (store - ResetKeys(keepLanguage))[key] == store[key]
  {
    forall v | 1 <= v <= MaxPrologueVersionToClear
      ensures PrologueKey(v) != LanguageIndexKey
    {
      LanguageKeyIsNoPrologueKey(v);
    }
  }

  /** One more deleted version, on a key-value map. */
  lemma DeleteNextVersion<V>(m: map<string, V>, v: nat)
    requires v >= 1
    ensures m - PrologueKeys(v) == (m - PrologueKeys(v - 1)) - {PrologueKey(v)}
  {
    assert PrologueKeys(v) == PrologueKeys(v - 1) + {PrologueKey(v)};
  }

  /** GameResetService.ResetSession */
  method ResetSession<R(==)>(inventory: Inventory.InventoryService<R>, puzzles: Puzzles.PuzzleProgress)
    modifies inventory.state, puzzles
    ensures inventory.state.Valid() && inventory.state.items == [] && inventory.state.itemsById == map[]
    ensures puzzles.solvedById == map[]
  {
    inventory.Reset();
    puzzles.ResetAll();
  }

  /** GameResetService.ResetProgressForNewGame: every reset key leaves the
      in-memory store, and the backing store too when it accepts writes;
      nothing else changes. */
  method ResetProgressForNewGame(prefs: RuntimePrefs, keepLanguage: bool)
    modifies prefs
    ensures prefs.store == old(prefs.store) - ResetKeys(keepLanguage)
    ensures prefs.backing == if old(prefs.mode) == PlayerPrefs && !prefs.backingFails
                             then old(prefs.backing) - ResetKeys(keepLanguage) else old(prefs.backing)
    ensures AfterBackingCall(old(prefs.mode) == PlayerPrefs && prefs.backingFails, prefs.allowFallbackToMemory,
                             old(prefs.mode), old(prefs.hasLoggedFallback), prefs.mode, prefs.hasLoggedFallback)
    ensures prefs.allowFallbackToMemory == old(prefs.allowFallbackToMemory)
  {
    ghost var writes := old(prefs.mode) == PlayerPrefs && !prefs.backingFails;
    var v := 1;
    while v <= MaxPrologueVersionToClear
      invariant 1 <= v <= MaxPrologueVersionToClear + 1
      invariant prefs.store == old(prefs.store) - PrologueKeys(v - 1)
      invariant prefs.backing == if writes then old(prefs.backing) - PrologueKeys(v - 1) else old(prefs.backing)
      invariant prefs.allowFallbackToMemory == old(prefs.allowFallbackToMemory)
      invariant v == 1 ==> prefs.mode == old(prefs.mode) && prefs.hasLoggedFallback == old(prefs.hasLoggedFallback)
      invariant v > 1 ==>
        AfterBackingCall(old(prefs.mode) == PlayerPrefs && prefs.backingFails, prefs.allowFallbackToMemory,
                         old(prefs.mode), old(prefs.hasLoggedFallback), prefs.mode, prefs.hasLoggedFallback)
      decreases MaxPrologueVersionToClear + 1 - v
    {
      DeleteNextVersion(old(prefs.store), v);
      DeleteNextVersion(old(prefs.backing), v);
      prefs.DeleteKey(PrologueKey(v));
      v := v + 1;
    }
    if !keepLanguage {
      prefs.DeleteKey(LanguageIndexKey);
    }
    prefs.Save();
  }
}
