/** A context whose partials are files: each is read the first time a
    partial tag asks for it and kept from then on. Reading a file is looking
    its name up in `files`; a name that is not there is a file that cannot be
    read. */
module FilePartials {
  import opened Text
  import opened Data
  import opened Scope

  class PartialCache {
    const frames: seq<Value>
    const files: map<string, string>
    var cached: map<string, Value>

    /** Every cached entry is the string its file holds. */
    ghost predicate Valid()
      reads this
    {
      forall k :: k in cached ==> k in files && cached[k] == Str(files[k])
    }

    /** The context rendering sees: names resolve through `frames`,
        partials come from the files. */
    function AsContext(): (c: Context)
      ensures forall name :: Lookup(c, name) == LookupFrames(frames, name)
    {
      Files(frames, files)
    }

    constructor(frames: seq<Value>, files: map<string, string>)
      ensures Valid()
      ensures this.frames == frames && this.files == files && cached == map[]
    {
      this.frames := frames;
      this.files := files;
      cached := map[];
    }

    /** `get_partial`: the cached entry when there is one; otherwise the file
        is read and, if that succeeds, its contents are cached and returned.
        The cache never changes what a lookup returns. */
    method GetPartial(name: string) returns (r: Option<Value>)
      requires Valid()
      modifies this
      ensures Valid()
      ensures r == LookupPartial(AsContext(), name)
      ensures r.Some? <==> name in files
      ensures cached == if name in old(cached) || name !in files then old(cached)
                        else old(cached)[name := Str(files[name])]
    {
      if name in cached {
        return Some(cached[name]);
      }
      if name in files {
        var v := Str(files[name]);
        cached := cached[name := v];
        return Some(v);
      }
      return None;
    }
  }
}
