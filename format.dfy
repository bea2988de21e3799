/**
 * The container-format registry of src/rsvc/format.c: formats are
 * registered in order, looked up by name, and detected by comparing the
 * first bytes of a file against each format's magic string, in which '?'
 * matches any byte.
 */
module ContainerFormats {
  import opened Common

  /**
   * A registered container format. `magic` holds `magic_size` characters
   * (every registration passes a magic string of exactly that length).
   */
  datatype ContainerFormat = ContainerFormat(name: string, magic: string)

  /** Whether `data` begins with `magic`, '?' matching any byte. */
  predicate Matches(magic: string, data: seq<byte>)
  {
    |magic| <= |data| && forall i :: 0 <= i < |magic| ==> magic[i] == '?' || magic[i] as int == data[i]
  }

  /** Whether no format before index `n` has this name. */
  predicate NoneNamedBefore(formats: seq<ContainerFormat>, n: nat, name: string)
    requires n <= |formats|
  {
    forall j :: 0 <= j < n ==> formats[j].name != name
  }

  class Registry {
    var formats: seq<ContainerFormat>

    constructor ()
      ensures formats == []
    {
      formats := [];
    }

    /** `rsvc_container_format_register`: pushes the format at the tail. */
    method Register(name: string, magic: string)
      modifies this
      ensures formats == old(formats) + [ContainerFormat(name, magic)]
    {
      formats := formats + [ContainerFormat(name, magic)];
    }

    /** `rsvc_container_format_named`: the first registered format with that name. */
    method Named(name: string) returns (r: Option<nat>)
      ensures r.Some? ==> r.value < |formats| && formats[r.value].name == name && NoneNamedBefore(formats, r.value, name)
      ensures r.None? ==> NoneNamedBefore(formats, |formats|, name)
    {
      var i := 0;
      while i < |formats|
        invariant i <= |formats| && NoneNamedBefore(formats, i, name)
      {
        if formats[i].name == name {
          return Some(i);
        }
        i := i + 1;
      }
      return None;
    }

    /**
     * `rsvc_container_format_detect`: a directory is refused; otherwise the
     * first format, in registration order, whose magic matches the file's
     * first bytes. A file shorter than a magic does not match it.
     */
    method Detect(isDirectory: bool, data: seq<byte>) returns (r: Result<nat>)
      ensures isDirectory ==> r == Err("is a directory")
      ensures !isDirectory && r.Ok? ==> r.value < |formats| && Matches(formats[r.value].magic, data)
      ensures !isDirectory && r.Ok? ==> forall j :: 0 <= j < r.value ==> !Matches(formats[j].magic, data)
      ensures !isDirectory && r.Err? ==> r.msg == "couldn't detect file type"
      ensures !isDirectory && r.Err? ==> forall j :: 0 <= j < |formats| ==> !Matches(formats[j].magic, data)
    {
      if isDirectory {
        return Err("is a directory");
      }
      var i := 0;
      while i < |formats|
        invariant i <= |formats|
        invariant forall j :: 0 <= j < i ==> !Matches(formats[j].magic, data)
      {
        var m := MagicMatches(formats[i].magic, data);
        if m {
          return Ok(i);
        }
        i := i + 1;
      }
      return Err("couldn't detect file type");
    }
  }

  /** The byte-compare loop of the detector. */
  method MagicMatches(magic: string, data: seq<byte>) returns (m: bool)
    ensures m <==> Matches(magic, data)
  {
    if |data| < |magic| {
      return false;
    }
    var i := 0;
    while i < |magic|
      invariant i <= |magic|
      invariant forall k :: 0 <= k < i ==> magic[k] == '?' || magic[k] as int == data[k]
    {
      if magic[i] != '?' && magic[i] as int != data[i] {
        return false;
      }
      i := i + 1;
    }
    return true;
  }

  /** A file that begins with a magic string (wildcards filled in arbitrarily) matches it. */
  lemma {:induction false} MagicPrefixMatches(magic: string, data: seq<byte>, rest: seq<byte>)
    requires |data| == |magic|
    requires forall i :: 0 <= i < |magic| ==> magic[i] == '?' || magic[i] as int == data[i]
    ensures Matches(magic, data + rest)
  {
    assert forall i :: 0 <= i < |magic| ==> (data + rest)[i] == data[i];
  }
}
