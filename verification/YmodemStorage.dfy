/** What a YMODEM batch should look like to storage, and that it is the files. */
module YmodemStorage {
  import opened Serial
  import opened Metadata
  import opened Numerals
  import opened YmodemBlock0
  import R = YmodemReceiver
  import T = YmodemTransmitter

  /** The storage call for the k-th block of a file: the padded block, of which the length says
      how much belongs to the file. */
  function DataCall(content: seq<byte>, k: nat): R.Call
    requires 1024 * k < |content|
  {
    var offset := 1024 * k;
    var remaining := |content| - offset;
    R.Data(T.BlockAt(content, offset), Min(remaining, T.BlockSize(remaining)), offset)
  }

  function Blocks(content: seq<byte>): nat {
    (|content| + 1023) / 1024
  }

  function DataCalls(content: seq<byte>, k: nat): seq<R.Call>
    requires k <= Blocks(content)
  {
    if k == 0 then [] else DataCalls(content, k - 1) + [DataCall(content, k - 1)]
  }

  /** A file's calls up to block `k`. */
  function Begun(f: File, k: nat): seq<R.Call>
    requires k <= Blocks(f.content)
  {
    [R.FileStart(InfoOf(f))] + DataCalls(f.content, k)
  }

  function FileCalls(f: File): seq<R.Call> {
    Begun(f, Blocks(f.content)) + [R.FileEnd(InfoOf(f), R.Ok)]
  }

  function BatchCalls(files: seq<File>, i: nat): seq<R.Call>
    requires i <= |files|
  {
    if i == 0 then [] else BatchCalls(files, i - 1) + FileCalls(files[i - 1])
  }

  /** The bytes that storage keeps of a file. */
  function Kept(calls: seq<R.Call>): seq<byte> {
    if calls == [] then []
    else
      var c := calls[|calls| - 1];
      Kept(calls[..|calls| - 1]) + (if c.Data? && c.len <= |c.block| then c.block[..c.len] else [])
  }

  lemma KeptAppend(calls: seq<R.Call>, c: R.Call)
    requires c.Data? && c.len <= |c.block|
    ensures Kept(calls + [c]) == Kept(calls) + c.block[..c.len]
  {
    assert (calls + [c])[..|calls|] == calls;
  }

  lemma DataCallBytes(content: seq<byte>, k: nat)
    requires 1024 * k < |content|
    ensures var c := DataCall(content, k);
      && c.Data? && c.len <= |c.block| && 1024 * k + c.len == Min(1024 * (k + 1), |content|)
      && c.block[..c.len] == content[1024 * k..1024 * k + c.len]
  {
  }

  /** Block choice and truncation together write exactly the file. */
  lemma {:induction false} DataCallsKeepContent(content: seq<byte>, k: nat)
    requires k <= Blocks(content)
    ensures Kept(DataCalls(content, k)) == content[..Min(1024 * k, |content|)]
  {
    hide DataCall, Kept;
    if k == 0 {
      NothingKept();
    } else {
      DataCallsKeepContent(content, k - 1);
      DataCallBytes(content, k - 1);
      KeptAppend(DataCalls(content, k - 1), DataCall(content, k - 1));
      var from, to := 1024 * (k - 1), Min(1024 * k, |content|);
      assert content[..from] + content[from..to] == content[..to];
    }
  }

  lemma NothingKept()
    ensures Kept([]) == []
  {
  }

  lemma KeptLast(calls: seq<R.Call>, c: R.Call)
    ensures Kept(calls + [c]) == Kept(calls) + Kept([c])
  {
    assert (calls + [c])[..|calls|] == calls;
    assert [c][..0] == [];
  }

  lemma {:induction false} KeptConcat(a: seq<R.Call>, b: seq<R.Call>)
    ensures Kept(a + b) == Kept(a) + Kept(b)
    decreases |b|
  {
    hide Kept;
    if b == [] {
      NothingKept();
      assert a + b == a;
    } else {
      var before, c := b[..|b| - 1], b[|b| - 1];
      KeptConcat(a, before);
      KeptLast(before, c);
      KeptLast(a + before, c);
      assert b == before + [c] && a + b == a + before + [c];
    }
  }

  lemma NoDataNothingKept(c: R.Call)
    requires !c.Data?
    ensures Kept([c]) == []
  {
    assert [c][..0] == [];
  }

  /** What storage keeps of a file's calls, from its start to its end, is the file. */
  lemma FileKept(f: File)
    ensures Kept(FileCalls(f)) == f.content
  {
    hide Kept, DataCalls;
    var n := Blocks(f.content);
    NoDataNothingKept(R.FileStart(InfoOf(f)));
    NoDataNothingKept(R.FileEnd(InfoOf(f), R.Ok));
    KeptConcat([R.FileStart(InfoOf(f))], DataCalls(f.content, n));
    KeptConcat(Begun(f, n), [R.FileEnd(InfoOf(f), R.Ok)]);
    DataCallsKeepContent(f.content, n);
    assert f.content[..|f.content|] == f.content;
  }

  /** An intact block is written at the offset both ends agree on, cut to the file's size. */
  lemma BlockStored(f: File, k: nat, calls: seq<R.Call>)
    requires 1024 * k < |f.content| <= SIZE_MAX
    ensures var payload := T.BlockAt(f.content, 1024 * k);
      R.Store(InfoOf(f), payload, 1024 * k, World([], [], calls)) == World([], [], calls + [DataCall(f.content, k)])
  {
    hide T.BlockAt;
  }

  lemma BegunGrows(f: File, k: nat, calls: seq<R.Call>)
    requires 1024 * k < |f.content|
    ensures calls + Begun(f, k) + [DataCall(f.content, k)] == calls + Begun(f, k + 1)
  {
    hide DataCall;
  }

  lemma BatchGrows(files: seq<File>, i: nat)
    requires i < |files|
    ensures BatchCalls(files, i) + Begun(files[i], Blocks(files[i].content)) + [R.FileEnd(InfoOf(files[i]), R.Ok)]
         == BatchCalls(files, i + 1)
  {
    hide Begun;
  }

  // ----- prefixes of a batch -----

  /** All calls of a file but the one that ends it. */
  function Complete(files: seq<File>, i: nat): seq<R.Call>
    requires i < |files|
  {
    BatchCalls(files, i) + Begun(files[i], Blocks(files[i].content))
  }

  function AllCalls(files: seq<File>): seq<R.Call> {
    BatchCalls(files, |files|)
  }

  lemma {:induction false} DataCallsPrefix(content: seq<byte>, k: nat, n: nat)
    requires k <= n <= Blocks(content)
    ensures DataCalls(content, k) <= DataCalls(content, n)
    decreases n - k
  {
    if k < n {
      DataCallsPrefix(content, k, n - 1);
    }
  }

  lemma {:induction false} BatchPrefix(files: seq<File>, i: nat, n: nat)
    requires i <= n <= |files|
    ensures BatchCalls(files, i) <= BatchCalls(files, n)
    decreases n - i
  {
    if i < n {
      hide FileCalls;
      BatchPrefix(files, i, n - 1);
    }
  }

  /** Whatever has been told of a file so far is told in the whole batch, too. */
  lemma BegunPrefix(files: seq<File>, i: nat, k: nat)
    requires i < |files| && k <= Blocks(files[i].content)
    ensures BatchCalls(files, i) + Begun(files[i], k) <= AllCalls(files)
    ensures Complete(files, i) + [R.FileEnd(InfoOf(files[i]), R.Ok)] <= AllCalls(files)
  {
    hide InfoOf, DataCalls, BatchCalls, Begun;
    var f := files[i];
    var n := Blocks(f.content);
    DataCallsPrefix(f.content, k, n);
    BeginsAlike(f, k);
    BatchGrows(files, i);
    BatchPrefix(files, i + 1, |files|);
    assert BatchCalls(files, i) + Begun(f, k) <= BatchCalls(files, i) + Begun(f, n);
  }

  lemma BeginsAlike(f: File, k: nat)
    requires k <= Blocks(f.content) && DataCalls(f.content, k) <= DataCalls(f.content, Blocks(f.content))
    ensures Begun(f, k) <= Begun(f, Blocks(f.content))
  {
    hide DataCalls;
  }
}
