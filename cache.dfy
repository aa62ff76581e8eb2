/**
 * The module-level `metafile_cache` and `get_cached_metadata`: each
 * filename string is loaded at most once successfully, and the object built
 * then is handed out on every later request.
 */
module MetafileCache {
  import opened Wrappers
  import opened Yaml
  import opened RezMetafile

  class Cache {
    /** Keyed by the filename exactly as the caller spelled it. */
    var entries: map<string, ConfigMetadata>

    /** Every cached object was loaded from its own key and passed validation. */
    ghost predicate Valid()
      reads this, entries.Values
    {
      forall f :: f in entries ==> entries[f].filename == f && entries[f].Valid()
    }

    /** The empty cache a process starts with. */
    constructor ()
      ensures Valid() && entries == map[]
    {
      entries := map[];
    }

    /**
     * `get_cached_metadata(filename)`. `doc` is what reading and parsing the
     * file would give now; it is only consulted on a miss.
     */
    method GetCachedMetadata(filename: string, doc: Document, conv: Coercions) returns (r: Result<ConfigMetadata, Error>)
      requires Valid()
      modifies this
      ensures Valid()
      ensures filename in old(entries) ==> r == Success(old(entries)[filename]) && entries == old(entries)
      ensures filename !in old(entries) ==>
        var spec := LoadDocument(filename, doc, conv);
        && (r.Failure? <==> spec.Failure?)
        && (r.Failure? ==> r.error == spec.error && entries == old(entries))
        && (r.Success? ==> fresh(r.value) && r.value.Snapshot() == spec.value
                           && entries == old(entries)[filename := r.value])
      ensures forall f :: f in old(entries) ==> f in entries && entries[f] == old(entries)[f]
    {
      if filename in entries {
        return Success(entries[filename]);
      }
      r := NewConfigMetadata(filename, doc, conv);
      if r.Success? {
        entries := entries[filename := r.value];
      }
    }
  }

  /** A failed load is not cached: once the file is fixed it loads, and later requests get that same object back. */
  method CacheScenario(filename: string, broken: Document, fixed: Document, conv: Coercions)
    returns (first: Result<ConfigMetadata, Error>, second: Result<ConfigMetadata, Error>, third: Result<ConfigMetadata, Error>)
    requires LoadDocument(filename, broken, conv).Failure?
    requires LoadDocument(filename, fixed, conv).Success?
    ensures first.Failure? && second.Success? && third == second
  {
    var cache := new Cache();
    first := cache.GetCachedMetadata(filename, broken, conv);
    second := cache.GetCachedMetadata(filename, fixed, conv);
    third := cache.GetCachedMetadata(filename, broken, conv);
  }
}
