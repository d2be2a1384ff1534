/** Resumable downloads: one attempt hashes the local prefix and appends the rest,
    and a retry loop resumes, or discards a prefix of another version. The hash is
    a parameter; a stream's drops and a disk's failures are a script. */
module Download {
  import opened Bytes
  import opened Addresses

  type Hash = seq<byte> -> string

  /** Errors by what the retry loop does with them; Mismatch is the three messages
      that discard the local prefix. */
  datatype Failure = Cancelled | Mismatch | Retryable | Other

  /** A write of a read's bytes to the local file; a failing one is short. */
  datatype Disk = Takes | FailsAfter(n: nat, why: Failure)

  datatype Chunk = Chunk(data: seq<byte>, disk: Disk)

  datatype Response = Response(size: int, offset: int)

  datatype Receipt = Receipt(success: bool, why: Failure, size: int, sha256: string)

  /** Everything outside the program in one attempt. */
  datatype Script = Script(
    local: Option<Failure>, // seeking or reading the local prefix fails
    answer: Result<Response, Failure>,
    chunks: seq<Chunk>, broken: Failure, // the stream's reads, and how it ends early
    receipt: Result<Receipt, Failure>,
    cancelledAfterCopy: bool, cancelledAfterReceipt: bool, cancelled: bool, cancelledWaiting: bool,
    truncateFails: Option<Failure>)

  /** The other side: its answer to an attempt with an offset and a prefix hash. */
  type Remote = (nat, nat, string) -> Script

  function Prefix(h: Hash, file: seq<byte>): string {
    if file == [] then "" else h(file)
  }

  function Cut(data: seq<byte>, n: nat): (r: seq<byte>)
    ensures r <= data && |r| <= n
  {
    if |data| <= n then data else data[..n]
  }

  // ---- What the file becomes ----

  /** The file after a copy of n bytes that is cut short by the stream or the disk. */
  function Copied(file: seq<byte>, chunks: seq<Chunk>, n: nat, broken: Failure): (seq<byte>, Option<Failure>)
    decreases chunks
  {
    if n == 0 then (file, None)
    else if chunks == [] then (file, Some(broken))
    else
      var data := Cut(chunks[0].data, n);
      if chunks[0].disk.FailsAfter? && chunks[0].disk.n < |data| then
        (file + data[..chunks[0].disk.n], Some(chunks[0].disk.why))
      else Copied(file + data, chunks[1..], n - |data|, broken)
  }

  /** One attempt; the last receipt is what a successful one returns. */
  function Attempted(h: Hash, file: seq<byte>, s: Script): (seq<byte>, Result<Receipt, Failure>) {
    if s.local.Some? then (file, Err(s.local.value)) else
    match s.answer
    case Err(why) => (file, Err(why))
    case Ok(r) =>
      if r.size < |file| || r.offset != |file| then (file, Err(Mismatch)) else
      var (after, broken) := Copied(file, s.chunks, r.size - |file|, s.broken);
      (after, if broken.Some? then Err(broken.value) else Judged(h, after, r, s))
  }

  function Judged(h: Hash, file: seq<byte>, r: Response, s: Script): Result<Receipt, Failure> {
    if s.cancelledAfterCopy then Err(Cancelled)
    else match s.receipt
      case Err(why) => Err(why)
      case Ok(receipt) =>
        if !receipt.success then Err(receipt.why)
        else if receipt.size != r.size || receipt.sha256 == "" || receipt.sha256 != h(file) then Err(Other)
        else if s.cancelledAfterReceipt then Err(Cancelled)
        else Ok(receipt)
  }

  /** The retry loop from an attempt on. */
  function Retried(h: Hash, remote: Remote, file: seq<byte>, attempt: nat): (seq<byte>, Result<Receipt, Failure>)
    requires attempt < 4
    decreases 4 - attempt
  {
    var s := remote(attempt, |file|, Prefix(h, file));
    var (after, result) := Attempted(h, file, s);
    if result.Ok? then (after, result)
    else if s.cancelled then (after, Err(Cancelled))
    else if result.error == Mismatch then
      if s.truncateFails.Some? then (after, Err(s.truncateFails.value))
      else if attempt == 3 then ([], result)
      else if s.cancelledWaiting then ([], Err(Cancelled))
      else Retried(h, remote, [], attempt + 1)
    else if result.error != Retryable || attempt == 3 then (after, result)
    else if s.cancelledWaiting then (after, Err(Cancelled))
    else Retried(h, remote, after, attempt + 1)
  }

  // ---- Integrity ----

  function Data(chunks: seq<Chunk>): seq<byte> {
    if chunks == [] then [] else chunks[0].data + Data(chunks[1..])
  }

  /** A copy only appends, bytes of the stream in their order, and is complete just
      when it does not fail. */
  lemma {:induction false} CopyAppends(file: seq<byte>, chunks: seq<Chunk>, n: nat, broken: Failure)
    ensures var (after, failed) := Copied(file, chunks, n, broken);
            && |file| <= |after| <= |file| + n && |after| - |file| <= |Data(chunks)|
            && after == file + Data(chunks)[..|after| - |file|]
            && (failed == None <==> |after| == |file| + n)
    decreases chunks
  {
    hide Copied, Data, Cut;
    CopiedUnfold(file, chunks, n, broken);
    if n == 0 || chunks == [] {
      assert file + Data(chunks)[..0] == file;
    } else {
      var data := Cut(chunks[0].data, n);
      if chunks[0].disk.FailsAfter? && chunks[0].disk.n < |data| {
        CopyFails(file, chunks, chunks[0].disk.n, n);
      } else {
        CopyAppends(file + data, chunks[1..], n - |data|, broken);
        Glue(file, chunks, |data|, |Copied(file + data, chunks[1..], n - |data|, broken).0| - |file| - |data|, n);
      }
    }
  }

  lemma CopiedUnfold(file: seq<byte>, chunks: seq<Chunk>, n: nat, broken: Failure)
    ensures Copied(file, chunks, n, broken) ==
            if n == 0 then (file, None)
            else if chunks == [] then (file, Some(broken))
            else
              var data := Cut(chunks[0].data, n);
              if chunks[0].disk.FailsAfter? && chunks[0].disk.n < |data| then
                (file + data[..chunks[0].disk.n], Some(chunks[0].disk.why))
              else Copied(file + data, chunks[1..], n - |data|, broken)
  {
  }

  lemma CopyFails(file: seq<byte>, chunks: seq<Chunk>, k: nat, n: nat)
    requires chunks != [] && k < |Cut(chunks[0].data, n)|
    ensures k < n && k <= |Data(chunks)| && Cut(chunks[0].data, n)[..k] == Data(chunks)[..k]
  {
  }

  lemma Glue(file: seq<byte>, chunks: seq<Chunk>, k: nat, m: nat, n: nat)
    requires chunks != [] && k == |Cut(chunks[0].data, n)| && m <= |Data(chunks[1..])| && m <= n - k
    ensures k + m <= |Data(chunks)|
    ensures file + Cut(chunks[0].data, n) + Data(chunks[1..])[..m] == file + Data(chunks)[..k + m]
  {
    var a, b := chunks[0].data, Data(chunks[1..]);
    assert Data(chunks) == a + b;
    if k < |a| {
      assert m == 0;
    } else {
      assert (a + b)[..k + m] == a + b[..m];
    }
  }

  /** An attempt never loses a byte of the local file. */
  lemma AttemptKeepsPrefix(h: Hash, file: seq<byte>, s: Script)
    ensures file <= Attempted(h, file, s).0
  {
    if s.local.None? && s.answer.Ok? && s.answer.value.size >= |file| {
      CopyAppends(file, s.chunks, s.answer.value.size - |file|, s.broken);
    }
    hide Copied;
  }

  lemma AttemptIsSound(h: Hash, file: seq<byte>, s: Script)
    ensures var (after, result) := Attempted(h, file, s);
            result.Ok? ==> && result == s.receipt && result.value.success
                           && |after| == result.value.size && h(after) == result.value.sha256
                           && s.answer.Ok? && s.answer.value.size == |after|
  {
    if s.local.None? && s.answer.Ok? && s.answer.value.size >= |file| {
      CopyAppends(file, s.chunks, s.answer.value.size - |file|, s.broken);
    }
    hide Copied;
  }

  /** Whatever is dropped, cut short, resumed or discarded on the way, a successful
      download has the length and the hash of the last receipt. */
  lemma {:induction false} SuccessMeansIntact(h: Hash, remote: Remote, file: seq<byte>, attempt: nat)
    requires attempt < 4
    ensures var (after, result) := Retried(h, remote, file, attempt);
            result.Ok? ==> |after| == result.value.size && h(after) == result.value.sha256 && result.value.success
    decreases 4 - attempt
  {
    var s := remote(attempt, |file|, Prefix(h, file));
    AttemptIsSound(h, file, s);
    AttemptKeepsPrefix(h, file, s);
    var after := Attempted(h, file, s).0;
    if attempt < 3 {
      SuccessMeansIntact(h, remote, after, attempt + 1);
      SuccessMeansIntact(h, remote, [], attempt + 1);
    }
    hide Attempted;
  }

  // ---- Against a host ----

  /** The host's side of an attempt for a file with this content, serve.go: it
      checks offset and prefix and streams the rest, which may be cut short. */
  ghost predicate Serves(h: Hash, content: seq<byte>, offset: nat, prefix: string, s: Script) {
    if offset > |content| || prefix != Prefix(h, content[..offset]) then s.answer.Err?
    else && (s.answer.Ok? ==> s.answer.value == Response(|content|, offset))
         && Data(s.chunks) <= content[offset..]
         && (s.receipt.Ok? && s.receipt.value.success ==>
               s.receipt.value.size == |content| && s.receipt.value.sha256 == h(content))
  }

  /** A prefix of the content with the hash of the local file, but not its bytes: a
      collision of the hash, there for the taking. */
  predicate CollidesWith(h: Hash, content: seq<byte>, file: seq<byte>) {
    |file| <= |content| && h(content[..|file|]) == h(file) && content[..|file|] != file
  }

  /** Versions are never spliced: the file stays as it was, or is a prefix of the
      version the host serves now, and after a success that whole version; or else
      file and content exhibit a collision. */
  lemma NeverSplices(h: Hash, content: seq<byte>, file: seq<byte>, s: Script)
    requires Serves(h, content, |file|, Prefix(h, file), s)
    ensures var (after, result) := Attempted(h, file, s);
            || ((after == file || after <= content) && (result.Ok? ==> after == content))
            || CollidesWith(h, content, file)
  {
    AttemptIsSound(h, file, s);
    if s.local.None? && s.answer.Ok? && !CollidesWith(h, content, file) {
      assert content[..|file|] == file;
      CopyAppends(file, s.chunks, s.answer.value.size - |file|, s.broken);
      Extend(file, content, Data(s.chunks), |Attempted(h, file, s).0| - |file|);
    }
    hide Copied, Judged;
  }

  lemma Extend(file: seq<byte>, content: seq<byte>, more: seq<byte>, n: nat)
    requires file <= content && more <= content[|file|..] && n <= |more|
    ensures file + more[..n] <= content
  {
  }

  /** A host that serves the same content in full, and nothing fails or is
      cancelled: a Mismatch is all an opening can end with. */
  ghost predicate Quiet(h: Hash, content: seq<byte>, offset: nat, prefix: string, s: Script) {
    && s.local.None? && !s.cancelled && !s.cancelledAfterCopy && !s.cancelledAfterReceipt && !s.cancelledWaiting
    && s.truncateFails.None?
    && if offset > |content| || prefix != Prefix(h, content[..offset]) then s.answer == Err(Mismatch)
       else && s.answer == Ok(Response(|content|, offset))
            && Data(s.chunks) == content[offset..] && (forall c :: c in s.chunks ==> c.disk == Takes)
            && s.receipt.Ok? && s.receipt.value.success
            && s.receipt.value.size == |content| && s.receipt.value.sha256 == h(content)
  }

  lemma {:induction false} QuietCopy(file: seq<byte>, chunks: seq<Chunk>, broken: Failure)
    requires forall c :: c in chunks ==> c.disk == Takes
    ensures Copied(file, chunks, |Data(chunks)|, broken) == (file + Data(chunks), None)
    decreases chunks
  {
    if |Data(chunks)| == 0 {
      assert file + Data(chunks) == file;
    } else {
      assert chunks[0] in chunks;
      assert Cut(chunks[0].data, |Data(chunks)|) == chunks[0].data;
      QuietCopy(file + chunks[0].data, chunks[1..], broken);
      assert file + chunks[0].data + Data(chunks[1..]) == file + Data(chunks);
    }
  }

  lemma QuietAttempt(h: Hash, content: seq<byte>, file: seq<byte>, s: Script)
    requires h(content) != "" && Quiet(h, content, |file|, Prefix(h, file), s) && !CollidesWith(h, content, file)
    ensures var (after, result) := Attempted(h, file, s);
            if file <= content then after == content && result.Ok? else after == file && result == Err(Mismatch)
  {
    if |file| <= |content| && Prefix(h, file) == Prefix(h, content[..|file|]) {
      assert file == content[..|file|];
      QuietCopy(file, s.chunks, s.broken);
      assert file + content[|file|..] == content;
    }
    assert file <= content ==> content[..|file|] == file;
    hide Copied;
  }

  /** Whatever the partial file holds, its own version or another, the download
      completes once two attempts are left and nothing fails any more; or else file
      and content exhibit a collision. */
  lemma Converges(h: Hash, content: seq<byte>, remote: Remote, file: seq<byte>, attempt: nat)
    requires attempt <= 2 && h(content) != ""
    requires forall k, offset, prefix :: Quiet(h, content, offset, prefix, remote(k, offset, prefix))
    ensures || (Retried(h, remote, file, attempt).0 == content && Retried(h, remote, file, attempt).1.Ok?)
            || CollidesWith(h, content, file)
  {
    if !CollidesWith(h, content, file) {
      QuietAttempt(h, content, file, remote(attempt, |file|, Prefix(h, file)));
      QuietAttempt(h, content, [], remote(attempt + 1, 0, Prefix(h, [])));
      hide Attempted;
    }
  }

  // ---- Drops ----

  /** The partial file after k attempts, each of which resumes behind the one before. */
  ghost function Kept(h: Hash, remote: Remote, file: seq<byte>, attempt: nat, k: nat): seq<byte> {
    if k == 0 then file else
    var f := Kept(h, remote, file, attempt, k - 1);
    Attempted(h, f, remote(attempt + k - 1, |f|, Prefix(h, f))).0
  }

  /** The host serves this content to the local file, but the attempt is dropped. */
  ghost predicate Dropped(h: Hash, content: seq<byte>, file: seq<byte>, s: Script) {
    && Serves(h, content, |file|, Prefix(h, file), s) && Attempted(h, file, s).1 == Err(Retryable)
    && !s.cancelled && !s.cancelledWaiting
  }

  lemma {:induction false} KeptShifts(h: Hash, remote: Remote, file: seq<byte>, attempt: nat, k: nat)
    ensures var after := Attempted(h, file, remote(attempt, |file|, Prefix(h, file))).0;
            Kept(h, remote, file, attempt, k + 1) == Kept(h, remote, after, attempt + 1, k)
  {
    hide Attempted;
    if k > 0 {
      KeptShifts(h, remote, file, attempt, k - 1);
    } else {
      assert Kept(h, remote, file, attempt, 0) == file;
    }
  }

  /** What attempt number attempt + k meets is dropped. */
  ghost predicate DroppedAt(h: Hash, content: seq<byte>, remote: Remote, file: seq<byte>, attempt: nat, k: nat) {
    var f := Kept(h, remote, file, attempt, k);
    Dropped(h, content, f, remote(attempt + k, |f|, Prefix(h, f)))
  }

  /** It meets a host that serves all of the rest. */
  ghost predicate QuietAt(h: Hash, content: seq<byte>, remote: Remote, file: seq<byte>, attempt: nat, k: nat) {
    var f := Kept(h, remote, file, attempt, k);
    Quiet(h, content, |f|, Prefix(h, f), remote(attempt + k, |f|, Prefix(h, f)))
  }

  lemma AfterOne(h: Hash, content: seq<byte>, remote: Remote, file: seq<byte>, attempt: nat, k: nat)
    ensures var after := Attempted(h, file, remote(attempt, |file|, Prefix(h, file))).0;
            && DroppedAt(h, content, remote, file, attempt, k + 1) == DroppedAt(h, content, remote, after, attempt + 1, k)
            && QuietAt(h, content, remote, file, attempt, k + 1) == QuietAt(h, content, remote, after, attempt + 1, k)
  {
    hide Attempted, Kept, Quiet, Dropped;
    KeptShifts(h, remote, file, attempt, k);
    assert attempt + (k + 1) == attempt + 1 + k;
  }

  lemma DropRetries(h: Hash, content: seq<byte>, remote: Remote, file: seq<byte>, attempt: nat)
    requires attempt < 3 && file <= content && DroppedAt(h, content, remote, file, attempt, 0)
    ensures var after := Attempted(h, file, remote(attempt, |file|, Prefix(h, file))).0;
            after <= content && Retried(h, remote, file, attempt) == Retried(h, remote, after, attempt + 1)
  {
    hide Attempted, Serves;
    assert Kept(h, remote, file, attempt, 0) == file && content[..|file|] == file;
    NeverSplices(h, content, file, remote(attempt, |file|, Prefix(h, file)));
  }

  /** A download of which up to three attempts are dropped, wherever, is resumed from the bytes
      that it has, and completes with the next attempt that is not. */
  lemma {:induction false} ResumesAfterDrops(h: Hash, content: seq<byte>, remote: Remote, file: seq<byte>, attempt: nat, drops: nat)
    requires attempt + drops < 4 && file <= content && h(content) != ""
    requires forall k: nat :: k < drops ==> DroppedAt(h, content, remote, file, attempt, k)
    requires QuietAt(h, content, remote, file, attempt, drops)
    ensures Retried(h, remote, file, attempt).0 == content && Retried(h, remote, file, attempt).1.Ok?
    decreases drops
  {
    hide Attempted, Quiet, DroppedAt;
    if drops == 0 {
      assert content[..|file|] == file;
      QuietAttempt(h, content, file, remote(attempt, |file|, Prefix(h, file)));
    } else {
      hide Retried, QuietAt;
      DropRetries(h, content, remote, file, attempt);
      var after := Attempted(h, file, remote(attempt, |file|, Prefix(h, file))).0;
      var next := attempt + 1;
      forall k: nat | k < drops - 1 ensures DroppedAt(h, content, remote, after, next, k) {
        AfterOne(h, content, remote, file, attempt, k);
      }
      AfterOne(h, content, remote, file, attempt, drops - 1);
      ResumesAfterDrops(h, content, remote, after, next, drops - 1);
    }
  }

  /** A cancellation, and an error that is neither a drop nor a mismatch, ends the download
      with the bytes so far: nothing more is asked of the host. */
  lemma StopsAtOnce(h: Hash, remote: Remote, other: Remote, file: seq<byte>, attempt: nat)
    requires attempt < 4
    requires var s := remote(attempt, |file|, Prefix(h, file)); var r := Attempted(h, file, s).1;
             r.Err? && (s.cancelled || (r.error != Mismatch && r.error != Retryable))
    requires other(attempt, |file|, Prefix(h, file)) == remote(attempt, |file|, Prefix(h, file))
    ensures var s := remote(attempt, |file|, Prefix(h, file)); var (after, r) := Attempted(h, file, s);
            && Retried(h, other, file, attempt) == (after, Err(if s.cancelled then Cancelled else r.error))
            && file <= after
  {
    hide Attempted;
    AttemptKeepsPrefix(h, file, remote(attempt, |file|, Prefix(h, file)));
  }

  /** The host is asked four times at most: what it would answer after that is irrelevant. */
  lemma {:induction false} FourAttempts(h: Hash, remote: Remote, other: Remote, file: seq<byte>, attempt: nat)
    requires attempt < 4
    requires forall k: nat, offset: nat, prefix: string :: k < 4 ==> remote(k, offset, prefix) == other(k, offset, prefix)
    ensures Retried(h, remote, file, attempt) == Retried(h, other, file, attempt)
    decreases 4 - attempt
  {
    hide Attempted;
    var after := Attempted(h, file, remote(attempt, |file|, Prefix(h, file))).0;
    if attempt < 3 {
      FourAttempts(h, remote, other, after, attempt + 1);
      FourAttempts(h, remote, other, [], attempt + 1);
    }
  }

  // ---- The file, the digest and the writers ----

  class LocalFile {
    var data: seq<byte>
    var pos: nat

    constructor (data: seq<byte>)
      ensures this.data == data && pos == 0
    {
      this.data, pos := data, 0;
    }

    /** Reads at most n bytes; a local file's reads are not empty before its end. */
    method Read(n: nat) returns (p: seq<byte>)
      requires pos < |data| && n > 0
      modifies this`pos
      ensures 0 < |p| <= n && old(pos) + |p| <= |data|
      ensures pos == old(pos) + |p| && p == data[old(pos)..old(pos) + |p|]
    {
      var k := if |data| - pos < n then |data| - pos else n;
      p := data[pos..pos + k];
      pos := pos + k;
    }

    method Write(p: seq<byte>, disk: Disk) returns (n: nat, failed: Option<Failure>)
      requires pos <= |data|
      modifies this
      ensures if disk.FailsAfter? && disk.n < |p| then n == disk.n && failed == Some(disk.why)
              else n == |p| && failed == None
      ensures pos == old(pos) + n
      ensures data == old(data[..pos]) + p[..n] + (if pos <= |old(data)| then old(data)[pos..] else [])
    {
      n, failed := |p|, None;
      if disk.FailsAfter? && disk.n < |p| {
        n, failed := disk.n, Some(disk.why);
      }
      data := data[..pos] + p[..n] + (if pos + n <= |data| then data[pos + n..] else []);
      pos := pos + n;
    }
  }

  class Digest {
    var written: seq<byte>

    constructor ()
      ensures written == []
    {
      written := [];
    }

    method Write(p: seq<byte>)
      modifies this
      ensures written == old(written) + p
    {
      written := written + p;
    }
  }

  /** fileProgressWriter over a MultiWriter of the file and the digest, in this
      order; `reported` holds its calls to progress. */
  class FileProgressWriter {
    const file: LocalFile
    const digest: Digest
    const size: int
    var n: int
    var reported: seq<(int, int)>

    constructor (file: LocalFile, digest: Digest, n: int, size: int)
      ensures this.file == file && this.digest == digest && this.n == n && this.size == size && reported == []
    {
      this.file, this.digest, this.n, this.size, reported := file, digest, n, size, [];
    }

    /** The file ends where it is written and the writer has counted it all. */
    ghost predicate AtEnd()
      reads this, file
    {
      file.pos == |file.data| == n
    }

    /** No report exceeds the size, and the last one is the file's length now. */
    ghost predicate ReportsLengths(start: nat)
      reads this, file
    {
      && |file.data| == (if reported == [] then start else reported[|reported| - 1].0)
      && forall i :: 0 <= i < |reported| ==>
        start <= reported[i].0 <= |file.data| && reported[i].0 <= size && reported[i].1 == size
    }

    method Write(p: seq<byte>, disk: Disk) returns (k: nat, failed: Option<Failure>)
      requires AtEnd()
      modifies this`n, this`reported, file, digest
      ensures AtEnd()
      ensures if disk.FailsAfter? && disk.n < |p| then k == disk.n && failed == Some(disk.why)
              else k == |p| && failed == None
      ensures file.data == old(file.data) + p[..k]
      ensures digest.written == old(digest.written) + if failed == None then p else []
      ensures reported == old(reported) + [(|file.data|, size)]
    {
      k, failed := file.Write(p, disk);
      if failed == None {
        digest.Write(p);
      }
      n := n + k;
      reported := reported + [(n, size)];
    }
  }

  /** io.CopyN into the writer: the stream's chunks, the last of them cut. */
  method CopyN(w: FileProgressWriter, chunks: seq<Chunk>, n: nat, broken: Failure) returns (failed: Option<Failure>)
    requires w.AtEnd() && w.size == |w.file.data| + n && w.digest.written == w.file.data
    requires w.ReportsLengths(|w.file.data|)
    modifies w`n, w`reported, w.file, w.digest
    ensures w.AtEnd() && w.ReportsLengths(|old(w.file.data)|)
    ensures (w.file.data, failed) == Copied(old(w.file.data), chunks, n, broken)
    ensures failed == None ==> w.digest.written == w.file.data
  {
    hide Data;
    var left, i := n, 0;
    failed := None;
    ghost var start := |w.file.data|;
    ghost var all := Copied(w.file.data, chunks, n, broken);
    assert chunks[0..] == chunks;
    while left > 0
      invariant i <= |chunks| && failed == None && w.AtEnd() && w.size == |w.file.data| + left
      invariant start <= |w.file.data| && w.ReportsLengths(start) && w.digest.written == w.file.data
      invariant Copied(w.file.data, chunks[i..], left, broken) == all
      decreases |chunks| - i
    {
      if i == |chunks| {
        assert chunks[i..] == [];
        return Some(broken);
      }
      var data := Cut(chunks[i].data, left);
      assert chunks[i..][0] == chunks[i] && chunks[i..][1..] == chunks[i + 1..];
      var k;
      k, failed := w.Write(data, chunks[i].disk);
      if failed.Some? {
        return;
      }
      assert data[..k] == data;
      left := left - k;
      i := i + 1;
    }
  }

  /** Hashing the local prefix, DownloadRemoteFileResumingWithPath's first part. */
  method HashPrefix(file: LocalFile, digest: Digest)
    requires digest.written == []
    modifies file`pos, digest
    ensures digest.written == file.data && file.pos == |file.data|
  {
    file.pos := 0;
    while file.pos < |file.data|
      invariant file.pos <= |file.data| && digest.written == file.data[..file.pos]
    {
      var p := file.Read(32768);
      digest.Write(p);
    }
    assert file.data[..file.pos] == file.data;
  }

  /** One attempt on the real file and digest; `reported` is what progress was
      called with. */
  method DownloadResuming(h: Hash, remote: Remote, attempt: nat, file: LocalFile)
    returns (result: Result<Receipt, Failure>, reported: seq<(int, int)>, s: Script)
    modifies file
    ensures s == remote(attempt, |old(file.data)|, Prefix(h, old(file.data)))
    ensures (file.data, result) == Attempted(h, old(file.data), s)
    ensures forall i :: 0 <= i < |reported| ==> |old(file.data)| <= reported[i].0 <= |file.data| && reported[i].0 <= reported[i].1
    ensures reported != [] ==> reported[|reported| - 1].0 == |file.data|
    ensures result.Ok? ==> reported != [] && reported[|reported| - 1].1 == |file.data|
  {
    hide Copied;
    var offset := |file.data|;
    var digest := new Digest();
    HashPrefix(file, digest);
    var prefix := if offset > 0 then h(digest.written) else "";
    s := remote(attempt, offset, prefix);
    reported := [];
    if s.local.Some? {
      return Err(s.local.value), reported, s;
    }
    if s.answer.Err? {
      return Err(s.answer.error), reported, s;
    }
    var r := s.answer.value;
    if r.size < offset || r.offset != offset {
      return Err(Mismatch), reported, s;
    }
    var w := new FileProgressWriter(file, digest, offset, r.size);
    CopyAppends(file.data, s.chunks, r.size - offset, s.broken);
    var broken := CopyN(w, s.chunks, r.size - offset, s.broken);
    reported := [(offset, r.size)] + w.reported;
    if broken.Some? {
      return Err(broken.value), reported, s;
    }
    if s.cancelledAfterCopy {
      return Err(Cancelled), reported, s;
    }
    if s.receipt.Err? {
      return Err(s.receipt.error), reported, s;
    }
    var receipt := s.receipt.value;
    if !receipt.success {
      return Err(receipt.why), reported, s;
    }
    if receipt.size != r.size || receipt.sha256 == "" || receipt.sha256 != h(digest.written) {
      return Err(Other), reported, s;
    }
    if s.cancelledAfterReceipt {
      return Err(Cancelled), reported, s;
    }
    return Ok(receipt), reported, s;
  }

  /** downloadToDisk's loop: at most four attempts on one partial file. */
  method DownloadToDisk(h: Hash, remote: Remote, file: LocalFile) returns (result: Result<Receipt, Failure>)
    modifies file
    ensures (file.data, result) == Retried(h, remote, old(file.data), 0)
    ensures result.Ok? ==> |file.data| == result.value.size && h(file.data) == result.value.sha256
  {
    hide Attempted;
    SuccessMeansIntact(h, remote, file.data, 0);
    ghost var all := Retried(h, remote, file.data, 0);
    var attempt := 0;
    while true
      invariant attempt < 4 && Retried(h, remote, file.data, attempt) == all
      decreases 4 - attempt
    {
      var reported, s;
      result, reported, s := DownloadResuming(h, remote, attempt, file);
      if result.Ok? {
        return;
      }
      if s.cancelled {
        return Err(Cancelled);
      }
      if result.error == Mismatch {
        if s.truncateFails.Some? {
          return Err(s.truncateFails.value);
        }
        file.data := [];
        file.pos := 0;
      } else if result.error != Retryable {
        return;
      }
      if attempt == 3 {
        return;
      }
      if s.cancelledWaiting {
        return Err(Cancelled);
      }
      attempt := attempt + 1;
    }
  }
}
