/** File metadata shared by the batch protocols, and NUL-terminated strings in byte buffers. */
module Metadata {
  import opened Serial
  import opened Numerals

  /** zmodem_file_info_t and ymodem_file_info_t. */
  datatype FileInfo = FileInfo(name: seq<byte>, size: nat)

  /** One entry of a transmitted batch: the C string get_file_info stores and the bytes read_data
      serves, as many as the size it reports. */
  datatype File = File(name: seq<byte>, content: seq<byte>)

  /** True when get_file_info reports no further file. */
  predicate BatchOver(files: seq<File>, idx: nat) {
    idx >= |files| || CString(files[idx].name) == []
  }

  /** The same said of the file itself: there is none, or it has no name. */
  predicate Ends(files: seq<File>, i: nat) {
    i >= |files| || files[i].name == [] || files[i].name[0] == 0
  }

  lemma EndsIs(files: seq<File>, i: nat)
    ensures Ends(files, i) <==> BatchOver(files, i)
    ensures !Ends(files, i) ==> i < |files| && CString(files[i].name) != []
  {
  }

  /** A batch of files with clean, non-empty names and 64-bit sizes. */
  predicate Sendable(files: seq<File>) {
    forall f :: f in files ==> f.name != [] && 0 !in f.name && |f.content| <= SIZE_MAX
  }

  /** memchr(s, 0, |s|), or |s| when there is no NUL; strlen for a terminated string. */
  function Length(s: seq<byte>): (n: nat)
    ensures n <= |s|
    ensures n < |s| ==> s[n] == 0
    ensures forall i :: 0 <= i < n ==> s[i] != 0
  {
    if s == [] || s[0] == 0 then 0 else 1 + Length(s[1..])
  }

  function CString(s: seq<byte>): seq<byte> {
    s[..Length(s)]
  }

  /** The first `cap` bytes. */
  function Cut(s: seq<byte>, cap: nat): seq<byte> {
    if |s| <= cap then s else s[..cap]
  }

  lemma {:induction false} LengthOfTerminated(name: seq<byte>, rest: seq<byte>)
    requires 0 !in name
    ensures Length(name + [0] + rest) == |name|
  {
    var s := name + [0] + rest;
    assert s[|name|] == 0;
    assert forall i :: 0 <= i < |name| ==> s[i] == name[i];
  }

  lemma LengthOfClean(name: seq<byte>)
    requires 0 !in name
    ensures Length(name) == |name|
  {
  }

  lemma SendableName(files: seq<File>, idx: nat)
    requires Sendable(files) && idx <= |files|
    ensures BatchOver(files, idx) <==> idx == |files|
    ensures idx < |files| ==> CString(files[idx].name) == files[idx].name
  {
    if idx < |files| {
      assert files[idx] in files;
      LengthOfClean(files[idx].name);
    }
  }
}
