/**
 * The encode-format registry of src/rsvc/encode.c: formats pushed in
 * registration order, a for-each with stop, and lookup by name built on
 * that for-each.
 */
module EncodeFormats {
  import opened Common

  /** `struct rsvc_encode_format`, without the encoder function pointer. */
  datatype EncodeFormat = EncodeFormat(name: string, extension: string, lossless: bool)

  class Registry {
    var formats: seq<EncodeFormat>

    constructor ()
      ensures formats == []
    {
      formats := [];
    }

    /** `rsvc_encode_format_register`: pushes the format at the tail. */
    method Register(name: string, extension: string, lossless: bool)
      modifies this
      ensures formats == old(formats) + [EncodeFormat(name, extension, lossless)]
    {
      formats := formats + [EncodeFormat(name, extension, lossless)];
    }

    /**
     * `rsvc_encode_formats_each`: hands the formats to the block in order
     * while `loop` is true; the block stops the loop for the formats where
     * `stops` holds. Returns false iff stop was called.
     */
    method Each(stops: EncodeFormat -> bool) returns (visited: seq<EncodeFormat>, completed: bool)
      ensures visited == VisitedUntil(formats, stops)
      ensures !completed <==> exists i :: 0 <= i < |formats| && stops(formats[i])
    {
      visited := [];
      var loop := true;
      var i := 0;
      while i < |formats| && loop
        invariant i <= |formats| && visited == formats[..i]
        invariant loop ==> forall k :: 0 <= k < i ==> !stops(formats[k])
        invariant !loop ==> 0 < i && stops(formats[i - 1]) && forall k :: 0 <= k < i - 1 ==> !stops(formats[k])
      {
        visited := visited + [formats[i]];
        if stops(formats[i]) {
          loop := false;
        }
        i := i + 1;
      }
      if loop {
        VisitedUntilAt(formats, stops, i);
      } else {
        VisitedUntilAt(formats, stops, i - 1);
      }
      completed := loop;
    }

    /** `rsvc_encode_format_named`: the for-each stops at the first format with that name. */
    method Named(name: string) returns (r: Option<EncodeFormat>)
      ensures r.Some? ==> exists i :: (0 <= i < |formats| && formats[i] == r.value && r.value.name == name &&
                                       forall j :: 0 <= j < i ==> formats[j].name != name)
      ensures r.None? <==> forall i :: 0 <= i < |formats| ==> formats[i].name != name
    {
      var visited, completed := Each((f: EncodeFormat) => f.name == name);
      if completed {
        return None;
      }
      return Some(visited[|visited| - 1]);
    }
  }
}
