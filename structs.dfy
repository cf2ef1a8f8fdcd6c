/** The records the engine works on: one parsed input file (data_t) and the
    split form of a typed input path (file_type_t). */
module Structs {
  import opened Results

  /** An "ext:path" argument split into the path proper and the type
      extension, written with its leading dot. */
  datatype FileType = FileType(path: string, typeExt: string)

  /** One parsed input file: the path it was read from and its parallel lists
      of record names and sequences. The datatype constructor is data_t's
      constructor, which stores the three as given; its defaulted arguments
      are written Data(p, [], []). */
  datatype Data = Data(path: string, names: seq<string>, seqs: seq<string>)

  /** size(): the number of records, or invalid_argument when the name and
      sequence lists disagree in length. */
  function Size(d: Data): (r: Result<nat>)
    ensures r.Err? <==> |d.names| != |d.seqs|
    ensures r.Err? ==> r.error == InvalidArgument
    ensures r.Ok? ==> r.value == |d.names| && r.value == |d.seqs|
  {
    if |d.names| != |d.seqs| then Err(InvalidArgument) else Ok(|d.names|)
  }

  /** len(index): the length of the sequence at index. */
  function Len(d: Data, index: nat): (n: nat)
    requires index < |d.seqs|
  {
    |d.seqs[index]|
  }

  /** The length of the longest string of a non-empty list (max_element by
      size). */
  function MaxLength(ss: seq<string>): (n: nat)
    requires |ss| > 0
    ensures forall i :: 0 <= i < |ss| ==> |ss[i]| <= n
    ensures exists i :: 0 <= i < |ss| && |ss[i]| == n
  {
    if |ss| == 1 then |ss[0]|
    else
      var m := MaxLength(ss[..|ss| - 1]);
      if |ss[|ss| - 1]| > m then |ss[|ss| - 1]| else m
  }

  /** len(): the length of the longest sequence. The source dereferences
      max_element, so the file must hold at least one sequence. */
  function MaxLen(d: Data): (n: nat)
    requires |d.seqs| > 0
    ensures forall i :: 0 <= i < |d.seqs| ==> Len(d, i) <= n
    ensures exists i :: 0 <= i < |d.seqs| && Len(d, i) == n
  {
    var n := MaxLength(d.seqs);
    assert exists i :: 0 <= i < |d.seqs| && Len(d, i) == n by {
      var i :| 0 <= i < |d.seqs| && |d.seqs[i]| == n;
      assert Len(d, i) == n;
    }
    n
  }
}
