/**
 The compressed artifact: small ones in memory, large ones in a temporary file. All handles cloned
 from the file share one offset, which every consumer rewinds before it reads.
 */
module ArtifactBody {
  import opened Wrappers

  type Byte = i: int | 0 <= i < 256

  const ARTIFACT_CHUNK_BYTES: nat := 256 * 1024

  function Min(a: nat, b: nat): nat {
    if a < b then a else b
  }

  function From(s: seq<Byte>, offset: nat): seq<Byte> {
    if offset <= |s| then s[offset..] else []
  }

  /** An open file with its offset; cloning a handle gives another name for the same object. */
  class File {
    const bytes: seq<Byte>
    var offset: nat

    constructor (bytes: seq<Byte>, offset: nat)
      ensures this.bytes == bytes && this.offset == offset
    {
      this.bytes := bytes;
      this.offset := offset;
    }

    method Seek(to: nat)
      modifies this
      ensures offset == to
    {
      offset := to;
    }

    /** A read may return fewer bytes than asked for, but none only at the end. */
    method Read(max: nat) returns (chunk: seq<Byte>)
      requires max > 0
      modifies this
      ensures From(bytes, old(offset)) == chunk + From(bytes, offset)
      ensures |chunk| <= max && (chunk == [] <==> From(bytes, old(offset)) == [])
      ensures offset == old(offset) + |chunk|
    {
      if offset >= |bytes| {
        return [];
      }
      assert 1 <= max && offset + 1 <= |bytes|;
      var n: nat :| 1 <= n <= max && offset + n <= |bytes|;
      chunk := bytes[offset..offset + n];
      assert bytes[offset..] == chunk + bytes[offset + n..];
      offset := offset + n;
    }
  }

  datatype ArtifactBody = InMemory(bytes: seq<Byte>) | OnDisk(file: File)

  /** The artifact, whichever way it is held. */
  function Whole(body: ArtifactBody): seq<Byte> {
    match body
    case InMemory(bytes) => bytes
    case OnDisk(file) => file.bytes
  }

  function Handles(body: ArtifactBody): set<object> {
    match body
    case InMemory(_) => {}
    case OnDisk(file) => {file}
  }

  // ---------- Construction ----------

  /** A spooled temporary file: in memory until it grows past a threshold. */
  datatype Spool = Spool(rolled: bool, bytes: seq<Byte>, position: nat)

  method FromSpool(spool: Spool) returns (body: ArtifactBody)
    ensures body.OnDisk? <==> spool.rolled
    ensures Whole(body) == if spool.rolled then spool.bytes else From(spool.bytes, spool.position)
    ensures body.OnDisk? ==> fresh(body.file) && body.file.offset == 0
  {
    if spool.rolled {
      var file := new File(spool.bytes, spool.position);
      file.Seek(0);
      body := OnDisk(file);
    } else {
      var file := new File(spool.bytes, spool.position);
      var bytes: seq<Byte> := [];
      var chunk := file.Read(ARTIFACT_CHUNK_BYTES);
      while chunk != []
        invariant bytes + (chunk + From(file.bytes, file.offset)) == From(spool.bytes, spool.position)
        invariant chunk == [] ==> From(file.bytes, file.offset) == []
        decreases |chunk| + |From(file.bytes, file.offset)|
      {
        AppendAssociates(bytes, chunk, From(file.bytes, file.offset));
        bytes := bytes + chunk;
        chunk := file.Read(ARTIFACT_CHUNK_BYTES);
      }
      body := InMemory(bytes);
    }
  }

  /** Both representations hold the whole spool exactly if it has rolled over or was rewound before: only
      the file is rewound here. */
  lemma SpoolIsWholeExactlyWhenRewound(spool: Spool)
    ensures (if spool.rolled then spool.bytes else From(spool.bytes, spool.position)) == spool.bytes
       <==> spool.rolled || spool.position == 0 || spool.bytes == []
  {
    if !spool.rolled && From(spool.bytes, spool.position) == spool.bytes && spool.bytes != [] {
      assert |From(spool.bytes, spool.position)| == |spool.bytes|;
    }
  }

  /** The length of the artifact; a file whose metadata cannot be read counts as empty. */
  method Len(body: ArtifactBody, metadataReadable: bool) returns (n: nat)
    ensures n == |Whole(body)| || (body.OnDisk? && !metadataReadable && n == 0)
    ensures body.InMemory? || metadataReadable ==> n == |Whole(body)|
  {
    match body {
      case InMemory(bytes) => n := |bytes|;
      case OnDisk(file) => n := if metadataReadable then |file.bytes| else 0;
    }
  }

  // ---------- Readers ----------

  /** A cursor over memory, or a buffered reader over a file handle. */
  class Reader {
    const memory: seq<Byte>
    const handle: File?
    var position: nat
    var buffered: seq<Byte>

    constructor (memory: seq<Byte>, handle: File?)
      ensures this.memory == memory && this.handle == handle && position == 0 && buffered == []
    {
      this.memory, this.handle := memory, handle;
      position, buffered := 0, [];
    }

    ghost function Footprint(): set<object> {
      if handle == null then {this} else {this, handle}
    }

    /** What reading to the end would yield, if nobody else moves the offset. */
    ghost function Rest(): seq<Byte>
      reads Footprint()
    {
      if handle == null then From(memory, position) else buffered + From(handle.bytes, handle.offset)
    }

    method Read(max: nat) returns (chunk: seq<Byte>)
      requires max > 0
      modifies Footprint()
      ensures old(Rest()) == chunk + Rest()
      ensures |chunk| <= max && (chunk == [] <==> old(Rest()) == [])
    {
      if handle == null {
        chunk := ReadMemory(max);
      } else if buffered == [] && max >= ARTIFACT_CHUNK_BYTES {
        chunk := handle.Read(max);
      } else {
        chunk := ReadBuffered(max);
      }
    }

    method ReadMemory(max: nat) returns (chunk: seq<Byte>)
      requires max > 0 && handle == null
      modifies this
      ensures old(Rest()) == chunk + Rest()
      ensures |chunk| <= max && (chunk == [] <==> old(Rest()) == [])
    {
      if position >= |memory| {
        return [];
      }
      var n := Min(max, |memory| - position);
      chunk := memory[position..position + n];
      assert memory[position..] == chunk + memory[position + n..];
      position := position + n;
    }

    method ReadBuffered(max: nat) returns (chunk: seq<Byte>)
      requires max > 0 && handle != null
      modifies this, handle
      ensures old(Rest()) == chunk + Rest()
      ensures |chunk| <= max && (chunk == [] <==> old(Rest()) == [])
    {
      if buffered == [] {
        buffered := handle.Read(ARTIFACT_CHUNK_BYTES);
      }
      var n := Min(max, |buffered|);
      chunk := buffered[..n];
      assert buffered == chunk + buffered[n..];
      AppendAssociates(chunk, buffered[n..], From(handle.bytes, handle.offset));
      buffered := buffered[n..];
    }
  }

  /** A reader at the start of the artifact, wherever earlier consumers have left the offset. */
  method NewReader(body: ArtifactBody) returns (r: Reader)
    modifies Handles(body)
    ensures fresh(r.Footprint() - Handles(body)) && fresh(r)
    ensures r.Rest() == Whole(body)
  {
    match body {
      case InMemory(bytes) => r := new Reader(bytes, null);
      case OnDisk(file) =>
        file.Seek(0);
        r := new Reader([], file);
        assert From(file.bytes, 0) == file.bytes;
    }
  }

  /** Copies the complete artifact, after any history of earlier reads. */
  method CopyTo(body: ArtifactBody) returns (written: seq<Byte>)
    modifies Handles(body)
    ensures written == Whole(body)
  {
    var r := NewReader(body);
    written := [];
    var chunk := r.Read(ARTIFACT_CHUNK_BYTES);
    while chunk != []
      invariant fresh(r.Footprint() - Handles(body))
      invariant written + (chunk + r.Rest()) == Whole(body)
      invariant chunk == [] ==> r.Rest() == []
      decreases |chunk| + |r.Rest()|
    {
      AppendAssociates(written, chunk, r.Rest());
      written := written + chunk;
      chunk := r.Read(ARTIFACT_CHUNK_BYTES);
    }
  }

  // ---------- Streams ----------

  /** The slices an in-memory stream yields from `offset` on. */
  function Chunks(buf: seq<Byte>, size: nat, offset: nat): seq<seq<Byte>>
    requires size > 0
    decreases |buf| - offset
  {
    if offset >= |buf| then []
    else
      var end := Min(offset + size, |buf|);
      [buf[offset..end]] + Chunks(buf, size, end)
  }

  lemma {:induction false} ChunksCover(buf: seq<Byte>, size: nat, offset: nat)
    requires size > 0
    ensures Flatten(Chunks(buf, size, offset)) == From(buf, offset)
    decreases |buf| - offset
  {
    if offset < |buf| {
      var end := Min(offset + size, |buf|);
      ChunksCover(buf, size, end);
      assert Chunks(buf, size, offset)[1..] == Chunks(buf, size, end);
      assert buf[offset..end] + buf[end..] == buf[offset..];
    }
  }

  /** No chunk is empty, and every one but possibly the last has the full size. */
  lemma {:induction false} ChunksAreFull(buf: seq<Byte>, size: nat, offset: nat)
    requires size > 0
    ensures var cs := Chunks(buf, size, offset);
            && (forall i :: 0 <= i < |cs| ==> 0 < |cs[i]| <= size)
            && (forall i :: 0 <= i < |cs| - 1 ==> |cs[i]| == size)
    decreases |buf| - offset
  {
    if offset < |buf| {
      var end := Min(offset + size, |buf|);
      ChunksAreFull(buf, size, end);
      var cs := Chunks(buf, size, offset);
      assert cs[1..] == Chunks(buf, size, end);
      assert forall i :: 0 < i < |cs| ==> cs[i] == cs[1..][i - 1];
    }
  }

  function TotalLength(cs: seq<seq<Byte>>): nat {
    if cs == [] then 0 else |cs[0]| + TotalLength(cs[1..])
  }

  lemma {:induction false} TotalIsFlatLength(cs: seq<seq<Byte>>)
    ensures TotalLength(cs) == |Flatten(cs)|
  {
    if cs != [] {
      TotalIsFlatLength(cs[1..]);
    }
  }

  /** The chunks of an in-memory artifact concatenate to it, and their lengths add up to its length. */
  lemma ChunksAreTheArtifact(buf: seq<Byte>, size: nat)
    requires size > 0
    ensures Flatten(Chunks(buf, size, 0)) == buf
    ensures TotalLength(Chunks(buf, size, 0)) == |buf|
  {
    ChunksCover(buf, size, 0);
    TotalIsFlatLength(Chunks(buf, size, 0));
  }

  /** Drains an upload stream. Both representations yield the whole artifact in non-empty bounded chunks. */
  method Stream(body: ArtifactBody) returns (chunks: seq<seq<Byte>>)
    modifies Handles(body)
    ensures Flatten(chunks) == Whole(body)
    ensures forall i :: 0 <= i < |chunks| ==> 0 < |chunks[i]| <= ARTIFACT_CHUNK_BYTES
    ensures body.InMemory? ==> chunks == Chunks(body.bytes, ARTIFACT_CHUNK_BYTES, 0)
  {
    match body {
      case InMemory(bytes) => chunks := ChunkedByteStream(bytes, ARTIFACT_CHUNK_BYTES);
      case OnDisk(file) => chunks := ReaderStream(file);
    }
  }

  method ChunkedByteStream(buf: seq<Byte>, size: nat) returns (chunks: seq<seq<Byte>>)
    requires size > 0
    ensures chunks == Chunks(buf, size, 0)
    ensures Flatten(chunks) == buf
    ensures forall i :: 0 <= i < |chunks| ==> 0 < |chunks[i]| <= size
  {
    chunks := [];
    var offset: nat := 0;
    while offset < |buf|
      invariant offset <= |buf| && chunks + Chunks(buf, size, offset) == Chunks(buf, size, 0)
    {
      var end := Min(offset + size, |buf|);
      AppendAssociates(chunks, [buf[offset..end]], Chunks(buf, size, end));
      chunks := chunks + [buf[offset..end]];
      offset := end;
    }
    assert Chunks(buf, size, offset) == [];
    ChunksAreTheArtifact(buf, size);
    ChunksAreFull(buf, size, 0);
  }

  method ReaderStream(file: File) returns (chunks: seq<seq<Byte>>)
    modifies file
    ensures Flatten(chunks) == file.bytes
    ensures forall i :: 0 <= i < |chunks| ==> 0 < |chunks[i]| <= ARTIFACT_CHUNK_BYTES
  {
    file.Seek(0);
    chunks := [];
    assert From(file.bytes, 0) == file.bytes;
    var chunk := file.Read(ARTIFACT_CHUNK_BYTES);
    while chunk != []
      invariant Flatten(chunks) + (chunk + From(file.bytes, file.offset)) == file.bytes
      invariant chunk == [] ==> From(file.bytes, file.offset) == []
      invariant forall i :: 0 <= i < |chunks| ==> 0 < |chunks[i]| <= ARTIFACT_CHUNK_BYTES
      invariant |chunk| <= ARTIFACT_CHUNK_BYTES
      decreases |chunk| + |From(file.bytes, file.offset)|
    {
      FlattenSnoc(chunks, chunk);
      AppendAssociates(Flatten(chunks), chunk, From(file.bytes, file.offset));
      chunks := chunks + [chunk];
      chunk := file.Read(ARTIFACT_CHUNK_BYTES);
    }
  }

  // ---------- Interleaved consumers ----------

  /** One consumer rewinds the shared offset, or takes up to `n` bytes from it. */
  datatype Use = Rewind(who: nat) | Take(who: nat, n: nat)

  function Advance(len: nat, offset: nat, n: nat): nat {
    if offset <= len then Min(offset + n, len) else offset
  }

  /** The shared offset of a file of `len` bytes after the uses. */
  function OffsetAfter(len: nat, uses: seq<Use>, offset: nat): nat {
    if uses == [] then offset
    else
      match uses[|uses| - 1]
      case Rewind(_) => 0
      case Take(_, n) => Advance(len, OffsetAfter(len, uses[..|uses| - 1], offset), n)
  }

  /** What consumer `who` sees in one use, when the shared offset is `at`. */
  function Piece(bytes: seq<Byte>, u: Use, at: nat, who: nat): seq<Byte> {
    if u.Take? && u.who == who && at <= |bytes| then bytes[at..Advance(|bytes|, at, u.n)] else []
  }

  /** What consumer `who` sees in total, when all consumers share one offset. */
  function Seen(bytes: seq<Byte>, uses: seq<Use>, offset: nat, who: nat): seq<Byte> {
    if uses == [] then []
    else
      var front := uses[..|uses| - 1];
      Seen(bytes, front, offset, who)
      + Piece(bytes, uses[|uses| - 1], OffsetAfter(|bytes|, front, offset), who)
  }

  lemma SnocUse(bytes: seq<Byte>, uses: seq<Use>, u: Use, offset: nat, who: nat)
    ensures var at := OffsetAfter(|bytes|, uses, offset);
            && Seen(bytes, uses + [u], offset, who) == Seen(bytes, uses, offset, who) + Piece(bytes, u, at, who)
            && OffsetAfter(|bytes|, uses + [u], offset) == if u.Rewind? then 0 else Advance(|bytes|, at, u.n)
  {
    assert (uses + [u])[..|uses|] == uses;
  }

  /** A read that may come up short is logged with the number of bytes it returned. */
  ghost predicate Logged(request: Use, use: Use) {
    match request
    case Rewind(_) => use == request
    case Take(who, n) => use.Take? && use.who == who && use.n <= n
  }

  /** One consumer seeks or reads; the reply is what consumer `who` sees of it. */
  method UseOnce(file: File, request: Use, who: nat) returns (use: Use, piece: seq<Byte>)
    modifies file
    ensures Logged(request, use) && piece == Piece(file.bytes, use, old(file.offset), who)
    ensures file.offset == if use.Rewind? then 0 else Advance(|file.bytes|, old(file.offset), use.n)
  {
    ghost var at := file.offset;
    match request {
      case Rewind(_) =>
        file.Seek(0);
        use, piece := request, [];
      case Take(w, n) =>
        var chunk: seq<Byte> := [];
        if n > 0 {
          chunk := file.Read(n);
        }
        ReadIsPiece(file.bytes, at, chunk, file.offset, w);
        use, piece := Take(w, |chunk|), if w == who then chunk else [];
    }
  }

  /** Consumers seek and read one shared file in the requested order. Whatever the reads return, consumer
      `who` sees what `Seen` says of the log. */
  method UseFile(file: File, requests: seq<Use>, who: nat) returns (uses: seq<Use>, seen: seq<Byte>)
    modifies file
    ensures |uses| == |requests| && forall i :: 0 <= i < |uses| ==> Logged(requests[i], uses[i])
    ensures seen == Seen(file.bytes, uses, old(file.offset), who)
    ensures file.offset == OffsetAfter(|file.bytes|, uses, old(file.offset))
  {
    uses, seen := [], [];
    assert Seen(file.bytes, uses, file.offset, who) == seen;
    assert OffsetAfter(|file.bytes|, uses, file.offset) == file.offset;
    hide Seen, OffsetAfter, Advance, Piece;
    for i := 0 to |requests|
      invariant |uses| == i && forall j :: 0 <= j < i ==> Logged(requests[j], uses[j])
      invariant seen == Seen(file.bytes, uses, old(file.offset), who)
      invariant file.offset == OffsetAfter(|file.bytes|, uses, old(file.offset))
    {
      var use, piece := UseOnce(file, requests[i], who);
      SnocUse(file.bytes, uses, use, old(file.offset), who);
      uses, seen := uses + [use], seen + piece;
    }
  }

  lemma ReadIsPiece(bytes: seq<Byte>, at: nat, chunk: seq<Byte>, end: nat, who: nat)
    requires From(bytes, at) == chunk + From(bytes, end) && end == at + |chunk|
    ensures chunk == Piece(bytes, Take(who, |chunk|), at, who) && end == Advance(|bytes|, at, |chunk|)
  {
    if at <= |bytes| {
      assert |From(bytes, at)| == |chunk| + |From(bytes, end)|;
      assert bytes[at..at + |chunk|] == bytes[at..][..|chunk|];
    }
  }

  /** Use `k` gives consumer `who` at least one byte. */
  predicate Feeds(len: nat, uses: seq<Use>, offset: nat, who: nat, k: nat)
    requires k < |uses|
  {
    uses[k].Take? && uses[k].who == who && uses[k].n > 0 && OffsetAfter(len, uses[..k], offset) < len
  }

  /** The number of bytes consumer `who` takes in total. */
  function Taken(len: nat, uses: seq<Use>, offset: nat, who: nat): nat {
    if uses == [] then 0
    else
      var k := |uses| - 1;
      var at := OffsetAfter(len, uses[..k], offset);
      Taken(len, uses[..k], offset, who)
      + if Feeds(len, uses, offset, who, k) then Advance(len, at, uses[k].n) - at else 0
  }

  /** Whenever consumer `who` is given bytes, the shared offset is where that consumer left off. */
  ghost predicate InStep(len: nat, uses: seq<Use>, offset: nat, who: nat) {
    forall k :: 0 <= k < |uses| && Feeds(len, uses, offset, who, k) ==>
      OffsetAfter(len, uses[..k], offset) == Taken(len, uses[..k], offset, who)
  }

  /** Whatever the artifact of that length, the consumer sees its beginning, without gaps or repetitions. */
  ghost predicate SeesPrefix(len: nat, uses: seq<Use>, offset: nat, who: nat) {
    forall bytes: seq<Byte> :: |bytes| == len ==> Seen(bytes, uses, offset, who) <= bytes
  }

  lemma {:induction false} SeenLength(bytes: seq<Byte>, uses: seq<Use>, offset: nat, who: nat)
    ensures |Seen(bytes, uses, offset, who)| == Taken(|bytes|, uses, offset, who)
  {
    if uses != [] {
      SeenLength(bytes, uses[..|uses| - 1], offset, who);
    }
  }

  lemma InStepFront(len: nat, uses: seq<Use>, offset: nat, who: nat)
    requires uses != []
    ensures var n := |uses| - 1;
            InStep(len, uses, offset, who) <==>
              && InStep(len, uses[..n], offset, who)
              && (Feeds(len, uses, offset, who, n) ==>
                    OffsetAfter(len, uses[..n], offset) == Taken(len, uses[..n], offset, who))
  {
    var n := |uses| - 1;
    forall k | 0 <= k < n
      ensures Feeds(len, uses[..n], offset, who, k) <==> Feeds(len, uses, offset, who, k)
      ensures uses[..n][..k] == uses[..k]
    {
      assert uses[..n][..k] == uses[..k];
    }
  }

  /** The last use gives consumer `who` a non-empty piece at the shared offset, or nothing. */
  lemma LastPiece(bytes: seq<Byte>, uses: seq<Use>, offset: nat, who: nat)
    requires uses != []
    ensures var n := |uses| - 1;
            var at := OffsetAfter(|bytes|, uses[..n], offset);
            if Feeds(|bytes|, uses, offset, who, n) then
              var end := Advance(|bytes|, at, uses[n].n);
              && at < end <= |bytes|
              && Seen(bytes, uses, offset, who) == Seen(bytes, uses[..n], offset, who) + bytes[at..end]
            else Seen(bytes, uses, offset, who) == Seen(bytes, uses[..n], offset, who)
  {
    hide OffsetAfter;
    var n := |uses| - 1;
    var at := OffsetAfter(|bytes|, uses[..n], offset);
    if !Feeds(|bytes|, uses, offset, who, n) {
      assert Piece(bytes, uses[n], at, who) == [];
    }
  }

  lemma PrefixExtends(bytes: seq<Byte>, uses: seq<Use>, offset: nat, who: nat, seen: nat)
    requires uses != [] && seen <= |bytes| && Seen(bytes, uses[..|uses| - 1], offset, who) == bytes[..seen]
    requires Feeds(|bytes|, uses, offset, who, |uses| - 1) ==>
               OffsetAfter(|bytes|, uses[..|uses| - 1], offset) == seen
    ensures var end := |Seen(bytes, uses, offset, who)|;
            end <= |bytes| && Seen(bytes, uses, offset, who) == bytes[..end]
  {
    hide Seen, OffsetAfter, Advance;
    var n := |uses| - 1;
    LastPiece(bytes, uses, offset, who);
    if Feeds(|bytes|, uses, offset, who, n) {
      var end := Advance(|bytes|, seen, uses[n].n);
      assert Seen(bytes, uses, offset, who) == bytes[..seen] + bytes[seen..end] == bytes[..end];
    }
  }

  lemma {:induction false} InStepSeesPrefix(bytes: seq<Byte>, uses: seq<Use>, offset: nat, who: nat)
    requires InStep(|bytes|, uses, offset, who)
    ensures var n := Taken(|bytes|, uses, offset, who);
            n <= |bytes| && Seen(bytes, uses, offset, who) == bytes[..n]
  {
    SeenLength(bytes, uses, offset, who);
    if uses == [] {
      assert Seen(bytes, uses, offset, who) == [];
    } else {
      hide Seen, OffsetAfter, Taken, Feeds, InStep;
      InStepFront(|bytes|, uses, offset, who);
      InStepSeesPrefix(bytes, uses[..|uses| - 1], offset, who);
      PrefixExtends(bytes, uses, offset, who, Taken(|bytes|, uses[..|uses| - 1], offset, who));
    }
  }

  /** An artifact that tells position `at` from all others. */
  function Marked(len: nat, at: nat): seq<Byte> {
    seq(len, i => if i == at then 1 else 0)
  }

  lemma {:induction false} PrefixMeansInStep(len: nat, uses: seq<Use>, offset: nat, who: nat)
    requires SeesPrefix(len, uses, offset, who)
    ensures InStep(len, uses, offset, who)
  {
    if uses != [] {
      hide Seen, OffsetAfter, Taken, Feeds, InStep;
      var n := |uses| - 1;
      forall bytes: seq<Byte> | |bytes| == len
        ensures Seen(bytes, uses[..n], offset, who) <= bytes
      {
        LastPiece(bytes, uses, offset, who);
        assert Seen(bytes, uses, offset, who) <= bytes;
      }
      PrefixMeansInStep(len, uses[..n], offset, who);
      InStepFront(len, uses, offset, who);
      if Feeds(len, uses, offset, who, n) {
        LastPieceIsInPlace(len, uses, offset, who);
      }
    }
  }

  lemma LastPieceIsInPlace(len: nat, uses: seq<Use>, offset: nat, who: nat)
    requires SeesPrefix(len, uses, offset, who)
    requires uses != [] && Feeds(len, uses, offset, who, |uses| - 1)
    ensures OffsetAfter(len, uses[..|uses| - 1], offset) == Taken(len, uses[..|uses| - 1], offset, who)
  {
    hide Seen, OffsetAfter, Taken, Feeds;
    var n := |uses| - 1;
    var at, before := OffsetAfter(len, uses[..n], offset), Taken(len, uses[..n], offset, who);
    LastPiece(seq(len, _ => 0), uses, offset, who);
    var bytes := Marked(len, at);
    SeenLength(bytes, uses[..n], offset, who);
    LastPiece(bytes, uses, offset, who);
    assert Seen(bytes, uses, offset, who) <= bytes;
    assert Seen(bytes, uses, offset, who)[before] == bytes[at] == 1;
  }

  /** A consumer of a shared file sees the beginning of every artifact exactly if, whenever it is given
      bytes, the shared offset is where it left off. */
  lemma SeesPrefixExactlyInStep(len: nat, uses: seq<Use>, offset: nat, who: nat)
    ensures SeesPrefix(len, uses, offset, who) <==> InStep(len, uses, offset, who)
  {
    if InStep(len, uses, offset, who) {
      forall bytes: seq<Byte> | |bytes| == len
        ensures Seen(bytes, uses, offset, who) <= bytes
      {
        InStepSeesPrefix(bytes, uses, offset, who);
      }
    }
    if SeesPrefix(len, uses, offset, who) {
      PrefixMeansInStep(len, uses, offset, who);
    }
  }

  // ---------- A consumer that is left alone ----------

  /** The number of bytes asked for. */
  function Requested(uses: seq<Use>): nat {
    if uses == [] then 0
    else
      Requested(uses[..|uses| - 1])
      + match uses[|uses| - 1] case Rewind(_) => 0 case Take(_, n) => n
  }

  ghost predicate OnlyTakes(uses: seq<Use>, who: nat) {
    forall i :: 0 <= i < |uses| ==> uses[i].Take? && uses[i].who == who
  }

  ghost predicate NoTakes(uses: seq<Use>, who: nat) {
    forall i :: 0 <= i < |uses| ==> uses[i].Rewind? || uses[i].who != who
  }

  lemma {:induction false} UninvolvedSeesNothingMore(
    bytes: seq<Byte>, before: seq<Use>, others: seq<Use>, offset: nat, who: nat)
    requires NoTakes(others, who)
    ensures Seen(bytes, before + others, offset, who) == Seen(bytes, before, offset, who)
  {
    hide Seen, OffsetAfter, Advance;
    if others == [] {
      assert before + others == before;
    } else {
      var n := |others| - 1;
      UninvolvedSeesNothingMore(bytes, before, others[..n], offset, who);
      SnocUse(bytes, before + others[..n], others[n], offset, who);
      assert before + others == before + others[..n] + [others[n]];
      assert Piece(bytes, others[n], OffsetAfter(|bytes|, before + others[..n], offset), who) == [];
    }
  }

  /** One more read of a consumer that has read `r` bytes from the start, or all there are. */
  lemma AloneStep(bytes: seq<Byte>, uses: seq<Use>, u: Use, r: nat, offset: nat)
    requires u.Take?
    requires Seen(bytes, uses, offset, u.who) == bytes[..Min(r, |bytes|)]
    requires OffsetAfter(|bytes|, uses, offset) == Min(r, |bytes|)
    ensures Seen(bytes, uses + [u], offset, u.who) == bytes[..Min(r + u.n, |bytes|)]
    ensures OffsetAfter(|bytes|, uses + [u], offset) == Min(r + u.n, |bytes|)
  {
    SnocUse(bytes, uses, u, offset, u.who);
    hide Seen, OffsetAfter;
    var at, end := Min(r, |bytes|), Min(r + u.n, |bytes|);
    assert Advance(|bytes|, at, u.n) == end;
    assert bytes[..at] + bytes[at..end] == bytes[..end];
  }

  lemma {:induction false} AloneFromStart(
    bytes: seq<Byte>, before: seq<Use>, mine: seq<Use>, offset: nat, who: nat)
    requires Seen(bytes, before, offset, who) == [] && OffsetAfter(|bytes|, before, offset) == 0
    requires OnlyTakes(mine, who)
    ensures Seen(bytes, before + mine, offset, who) == bytes[..Min(Requested(mine), |bytes|)]
    ensures OffsetAfter(|bytes|, before + mine, offset) == Min(Requested(mine), |bytes|)
  {
    hide Seen, OffsetAfter;
    if mine == [] {
      assert before + mine == before;
    } else {
      var n := |mine| - 1;
      AloneFromStart(bytes, before, mine[..n], offset, who);
      assert mine[n].Take? && mine[n].who == who;
      AloneStep(bytes, before + mine[..n], mine[n], Requested(mine[..n]), offset);
      assert before + mine == before + mine[..n] + [mine[n]];
    }
  }

  /** After any use of the file by others, a consumer that rewinds and then reads alone, in pieces of any
      sizes, sees the artifact from its start, and what others do later does not matter. */
  lemma UndisturbedConsumerSeesStart(
    bytes: seq<Byte>, before: seq<Use>, mine: seq<Use>, after: seq<Use>, offset: nat, who: nat)
    requires NoTakes(before, who) && OnlyTakes(mine, who) && NoTakes(after, who)
    ensures Seen(bytes, before + [Rewind(who)] + mine + after, offset, who)
         == bytes[..Min(Requested(mine), |bytes|)]
  {
    var rewound := before + [Rewind(who)];
    assert [] + rewound == rewound;
    UninvolvedSeesNothingMore(bytes, [], rewound, offset, who);
    AloneFromStart(bytes, rewound, mine, offset, who);
    UninvolvedSeesNothingMore(bytes, rewound + mine, after, offset, who);
  }

  /** Two consumers that rewind, read and read again in turns, with any request sizes. */
  function Alternating(a: nat, b: nat, c: nat, d: nat): seq<Use> {
    [Rewind(1), Take(1, a), Rewind(2), Take(2, b), Take(1, c), Take(2, d)]
  }

  lemma AlternatingOffsets(len: nat, a: nat, b: nat, c: nat, d: nat, offset: nat)
    ensures var uses := Alternating(a, b, c, d);
            && OffsetAfter(len, uses[..1], offset) == 0 == OffsetAfter(len, uses[..3], offset)
            && OffsetAfter(len, uses[..4], offset) == Min(b, len)
            && OffsetAfter(len, uses[..5], offset) == Min(b + c, len)
            && (a > 0 ==> Taken(len, uses[..4], offset, 1) == Min(a, len))
            && (b > 0 ==> Taken(len, uses[..5], offset, 2) == Min(b, len))
  {
    var uses := Alternating(a, b, c, d);
    forall k | 0 <= k < 5
      ensures uses[..k + 1][..k] == uses[..k]
    {
    }
    assert uses[..5][..4] == uses[..4] && uses[..4][..3] == uses[..3] && uses[..3][..2] == uses[..2]
        && uses[..2][..1] == uses[..1];
    assert Taken(len, uses[..1], offset, 1) == 0 == Taken(len, uses[..1], offset, 2);
    assert Taken(len, uses[..2], offset, 1) == Min(a, len) && Taken(len, uses[..2], offset, 2) == 0;
    assert Taken(len, uses[..3], offset, 1) == Min(a, len) && Taken(len, uses[..3], offset, 2) == 0;
  }

  /** So consumers of one file must not interleave: of two that read in turns, with any request sizes that
      leave some of the file unread, at least one does not see the beginning of every artifact. */
  lemma AlternatingConsumersInterfere(len: nat, a: nat, b: nat, c: nat, d: nat, offset: nat)
    requires a > 0 && b > 0 && c > 0 && d > 0 && b + c < len
    ensures var uses := Alternating(a, b, c, d);
            !SeesPrefix(len, uses, offset, 1) || !SeesPrefix(len, uses, offset, 2)
  {
    var uses := Alternating(a, b, c, d);
    AlternatingOffsets(len, a, b, c, d, offset);
    SeesPrefixExactlyInStep(len, uses, offset, 1);
    SeesPrefixExactlyInStep(len, uses, offset, 2);
    assert Feeds(len, uses, offset, 1, 4);
    assert Feeds(len, uses, offset, 2, 5);
  }
}
