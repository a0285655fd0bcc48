/**
 A file cut into chunks by the sending side of Store and fetchFile, and the writes at
 running offsets by which storeFile and Fetch put it together again.
 */
module DfsTransfer {
  import opened Options
  import opened Words
  import FileChecksum

  type File = seq<Byte>

  const READ_LENGTH: nat := 4000

  function Min(a: nat, b: nat): nat {
    if a < b then a else b
  }

  /** The chunks of a file, in the order they are sent. */
  function Chunks(file: File): seq<File>
    decreases |file|
  {
    if file == [] then [] else
      var k := Min(READ_LENGTH, |file|);
      [file[..k]] + Chunks(file[k..])
  }

  function Join(chunks: seq<File>): File {
    if chunks == [] then [] else chunks[0] + Join(chunks[1..])
  }

  /** seekg and write: bytes past the end are overwritten or appended, a gap reads as zeros. */
  function WriteAt(file: File, offset: nat, data: File): (r: File)
    ensures |r| >= offset + |data|
  {
    var padded := if |file| < offset then file + seq(offset - |file|, _ => ByteOf(0)) else file;
    padded[..offset] + data + (if offset + |data| < |padded| then padded[offset + |data|..] else [])
  }

  /** Byte by byte: the data where they go, elsewhere what was there, and zeros in a gap. */
  lemma {:induction false} WrittenBytes(file: File, offset: nat, data: File, i: nat)
    requires i < |WriteAt(file, offset, data)|
    ensures |WriteAt(file, offset, data)| == if |file| < offset + |data| then offset + |data| else |file|
    ensures WriteAt(file, offset, data)[i] ==
            if offset <= i < offset + |data| then data[i - offset] else if i < |file| then file[i] else ByteOf(0)
  {
  }

  // ---------------------------------------------------------------- what the chunks are

  /** There are ceil(n / 4000) chunks. */
  lemma {:induction false} ChunkCount(file: File)
    ensures |Chunks(file)| == (|file| + 3999) / 4000
    decreases |file|
  {
    if file != [] {
      ChunkCount(file[Min(READ_LENGTH, |file|)..]);
    }
  }

  /** Chunk i holds the bytes from 4000 i on. */
  lemma {:induction false} ChunkAt(file: File, i: nat)
    requires i < |Chunks(file)|
    ensures i * READ_LENGTH < |file|
    ensures Chunks(file)[i] == file[i * READ_LENGTH..Min((i + 1) * READ_LENGTH, |file|)]
    decreases i
  {
    var k := Min(READ_LENGTH, |file|);
    if i == 0 {
      assert Chunks(file)[0] == file[..k] == file[0..k];
    } else {
      var rest := file[k..];
      assert Chunks(file)[i] == Chunks(rest)[i - 1];
      ChunkAt(rest, i - 1);
      assert rest != [] && k == READ_LENGTH && |rest| == |file| - READ_LENGTH;
      SliceOfRest(file, READ_LENGTH, (i - 1) * READ_LENGTH, Min(i * READ_LENGTH, |rest|));
    }
  }

  lemma {:induction false} SliceOfRest(file: File, k: nat, lo: nat, hi: nat)
    requires k <= |file| && lo <= hi <= |file| - k
    ensures file[k..][lo..hi] == file[k + lo..k + hi]
  {
  }

  /** No chunk is empty, and all but the last are full. */
  lemma {:induction false} ChunkSizes(file: File, i: nat)
    requires i < |Chunks(file)|
    ensures 0 < |Chunks(file)[i]| <= 4000
    ensures i < |Chunks(file)| - 1 ==> |Chunks(file)[i]| == 4000
  {
    ChunkAt(file, i);
    if i < |Chunks(file)| - 1 {
      ChunkAt(file, i + 1);
    }
  }

  /** Cutting and joining gives the file back. */
  lemma {:induction false} JoinChunks(file: File)
    ensures Join(Chunks(file)) == file
    decreases |file|
  {
    if file == [] {
    } else {
      var k := Min(READ_LENGTH, |file|);
      JoinChunks(file[k..]);
      assert Chunks(file)[1..] == Chunks(file[k..]);
      assert file == file[..k] + file[k..];
    }
  }

  lemma {:induction false} JoinAppend(chunks: seq<File>, last: File)
    ensures Join(chunks + [last]) == Join(chunks) + last
    decreases |chunks|
  {
    if chunks == [] {
      assert chunks + [last] == [last];
      assert Join([last]) == last + Join([]);
    } else {
      JoinAppend(chunks[1..], last);
      assert (chunks + [last])[1..] == chunks[1..] + [last];
      assert Join(chunks + [last]) == chunks[0] + (Join(chunks[1..]) + last);
    }
  }

  // ---------------------------------------------------------------- cancellation

  /** Has the call been cancelled by the time of round i? A cancelled call stays cancelled. */
  predicate IsCancelled(from: Option<nat>, i: nat) {
    from.Some? && from.value <= i
  }

  /** How many of n rounds take place. */
  function Rounds(from: Option<nat>, n: nat): (k: nat)
    ensures k <= n
    ensures k < n ==> IsCancelled(from, k)
    ensures forall i :: 0 <= i < k ==> !IsCancelled(from, i)
  {
    if from.Some? && from.value < n then from.value else n
  }

  // ---------------------------------------------------------------- the sending loop

  /** There is a chunk i exactly while the offset 4000 i lies inside the file. */
  lemma {:induction false} ChunkExists(file: File, i: nat)
    ensures i < |Chunks(file)| <==> i * READ_LENGTH < |file|
  {
    ChunkCount(file);
  }

  method ReadChunk(buffer: array<Byte>, content: File, offset: nat, size: nat) returns (chunk: File)
    requires size <= buffer.Length && offset + size <= |content|
    modifies buffer
    ensures chunk == content[offset..offset + size]
  {
    FileChecksum.Read(buffer, content, offset, size);
    chunk := buffer[..size];
  }

  /**
   The loop shared by the client's Store and the server's fetchFile: one chunk per round, through
   one buffer. Only fetchFile asks at the head of each round whether it has been cancelled.
   */
  method SendChunks(content: File, cancelled: Option<nat>) returns (sent: seq<File>)
    ensures sent == Chunks(content)[..Rounds(cancelled, |Chunks(content)|)]
  {
    var buffer := new Byte[READ_LENGTH];
    var fileLength: nat, readLength: nat, bytesTransferred: nat := |content|, READ_LENGTH, 0;
    if fileLength < readLength {
      readLength := fileLength;
    }
    sent := [];
    while bytesTransferred < fileLength
      invariant bytesTransferred == Min(|sent| * READ_LENGTH, fileLength) && fileLength == |content|
      invariant readLength == READ_LENGTH || (readLength < READ_LENGTH && fileLength - bytesTransferred <= readLength)
      invariant |sent| <= Rounds(cancelled, |Chunks(content)|) && sent == Chunks(content)[..|sent|]
      decreases fileLength - bytesTransferred
    {
      ChunkExists(content, |sent|);
      if IsCancelled(cancelled, |sent|) {
        return;
      }
      if fileLength - bytesTransferred < readLength {
        readLength := fileLength - bytesTransferred;
      }
      ChunkAt(content, |sent|);
      var chunk := ReadChunk(buffer, content, bytesTransferred, readLength);
      sent := sent + [chunk];
      bytesTransferred := bytesTransferred + readLength;
    }
    ChunkExists(content, |sent|);
  }
}
