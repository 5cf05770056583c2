/** AudioClipCache: clips loaded by resource path through a loader, each
    trimmed path loaded at most once; a missing clip (`None`, null in the
    source) is cached like any other. */
module AudioClips {
  import opened Text

  class AudioClipCache<C(==)> {
    const loader: string -> Option<C>
    var cache: map<string, Option<C>>
    /** The paths passed to the loader, in call order. */
    ghost var loaderCalls: seq<string>

    /** The cache holds the loader's answer for every path it knows, the
        paths are trimmed and non-blank, and the loader was called once
        for each of them and for nothing else. */
    ghost predicate Valid()
      reads this
    {
      && (forall p :: p in cache ==> cache[p] == loader(p) && p != "" && IsTrimmed(p))
      && (forall i :: 0 <= i < |loaderCalls| ==> loaderCalls[i] in cache)
      && (forall p :: p in cache ==> p in loaderCalls)
      && (forall i, j :: 0 <= i < j < |loaderCalls| ==> loaderCalls[i] != loaderCalls[j])
    }

    constructor (loader: string -> Option<C>)
      ensures Valid() && this.loader == loader && cache == map[] && loaderCalls == []
    {
      this.loader := loader;
      cache := map[];
      loaderCalls := [];
    }

    /** AudioClipCache.TryGet: a blank path gives nothing and changes
        nothing; otherwise the trimmed path is looked up, loaded and cached
        on a miss, and `found` says whether a clip exists. */
    method TryGet(resourcesPath: string) returns (found: bool, clip: Option<C>)
      requires Valid()
      modifies this
      ensures Valid()
      ensures IsBlank(resourcesPath) ==>
                !found && clip.None? && cache == old(cache) && loaderCalls == old(loaderCalls)
      ensures !IsBlank(resourcesPath) ==>
                clip == loader(Trim(resourcesPath))
                && cache == old(cache)[Trim(resourcesPath) := clip]
                && loaderCalls == if Trim(resourcesPath) in old(cache) then old(loaderCalls)
                                  else old(loaderCalls) + [Trim(resourcesPath)]
      ensures found <==> clip.Some?
    {
      if IsBlank(resourcesPath) {
        return false, None;
      }
      var key := Trim(resourcesPath);
      TrimOfNonBlank(resourcesPath);
      TrimIdempotent(resourcesPath);
      if key in cache {
        clip := cache[key];
        return clip.Some?, clip;
      }
      clip := loader(key);
      loaderCalls := loaderCalls + [key];
      cache := cache[key := clip];
      found := clip.Some?;
    }
  }

  /** The AudioClipCache constructor, where `None` is a null loader: a
      null loader is refused (the source throws), any other gives an empty
      cache. */
  method Create<C(==)>(loader: Option<string -> Option<C>>) returns (c: AudioClipCache?<C>)
    ensures loader.None? <==> c == null
    ensures c != null ==> fresh(c) && c.Valid() && c.loader == loader.value && c.cache == map[]
  {
    if loader.None? {
      return null;
    }
    c := new AudioClipCache(loader.value);
  }

  /** Two lookups of the same missing clip on a fresh cache call the
      loader at most once (never for a blank path), and both report that
      nothing was found. */
  method CachesMissingClip(path: string) returns (first: bool, second: bool, ghost calls: nat)
    ensures !first && !second
    ensures calls == if IsBlank(path) then 0 else 1
  {
    var c := new AudioClipCache<int>((_: string) => None);
    var clip1, clip2;
    first, clip1 := c.TryGet(path);
    second, clip2 := c.TryGet(path);
    calls := |c.loaderCalls|;
  }

  /** Paths that differ only by surrounding white space share one entry:
      looking up `a` and then `b` gives the same clip both times, stores
      one entry, and calls the loader at most once, only when that entry
      was not cached yet. */
  method SurroundingSpaceSharesEntry<C(==)>(c: AudioClipCache<C>, a: string, b: string)
    returns (clipA: Option<C>, clipB: Option<C>)
    requires c.Valid() && !IsBlank(a) && Trim(a) == Trim(b)
    modifies c
    ensures c.Valid()
    ensures clipA == clipB == c.loader(Trim(a))
    ensures c.cache == old(c.cache)[Trim(a) := clipA]
    ensures c.loaderCalls == if Trim(a) in old(c.cache) then old(c.loaderCalls)
                             else old(c.loaderCalls) + [Trim(a)]
  {
    BlankIffTrimEmpty(a);
    BlankIffTrimEmpty(b);
    var foundA, foundB;
    foundA, clipA := c.TryGet(a);
    foundB, clipB := c.TryGet(b);
  }
}
