/**
 dfs_file_checksum: CRC-32 of a file, fed to the engine through one reused buffer.
 */
module FileChecksum {
  import opened Words
  import opened Crc32
  import opened CrcModel
  import opened CrcTheorems
  import opened Division
  import opened BurstErrors
  import CrcTable

  const DFS_BUFFERSIZE: nat := 4096
  const UINT32_RANGE: nat := 0x1_0000_0000

  lemma {:induction false} Crc32Constants()
    ensures CRC_32.Valid() && ConstantsInMask(CRC_32) && CRC_32.polynomial[0]
    ensures Unfinalized(CRC_32, Zeros(CRC_WIDTH)) == CRC_32.initialValue
    ensures Checksum(CRC_32, []) == Zeros(CRC_WIDTH)
  {
    var p := CRC_32;
    assert p.initialValue[32..] == Zeros(0) && p.finalXOR[32..] == Zeros(0);
    assert p.initialValue[..32] == p.initialValue == p.finalXOR;
    XorZeros(p.initialValue);
    assert Zeros(32)[..32] == Zeros(32);
    assert p.initialValue + [] == p.initialValue;
    RevConcat(p.initialValue, []);
  }

  // ---------------------------------------------------------------- what is fed to the engine

  /** At least two chunks for small files, and never an empty buffer. */
  function BufferSize(size: nat): (n: nat)
    ensures 1 <= n <= 4096 && (size > 0 ==> n <= size)
    ensures size < 2 ==> n == 1
    ensures 2 <= size < 4096 ==> 2 * n <= size < 2 * n + 2
    ensures size >= 4096 ==> n == 4096
  {
    if size < DFS_BUFFERSIZE then (if size / 2 <= 0 then 1 else size / 2) else DFS_BUFFERSIZE
  }

  /** The chunk count, held in 32 bits. */
  function ChunkCount(size: nat): (n: nat)
    ensures n < UINT32_RANGE
  {
    var buffer := BufferSize(size);
    ((size / buffer) % UINT32_RANGE + (if size % buffer != 0 then 1 else 0)) % UINT32_RANGE
  }

  /** The bytes of the last full chunk that a short last read leaves in the buffer. */
  function StaleTail(content: seq<Byte>): (tail: seq<Byte>)
  {
    var size := |content|;
    var buffer := BufferSize(size);
    if size % buffer == 0 then [] else content[size - buffer..size - size % buffer]
  }

  /** Everything handed to CRC::Calculate, in order. */
  function Fed(content: seq<Byte>): (data: seq<Byte>)
  {
    var end := ChunkCount(|content|) * BufferSize(|content|);
    if end <= |content| then content[..end] else content + StaleTail(content)
  }

  function FileCrc(content: seq<Byte>): (crc: Word)
    ensures |crc| == CRC_WIDTH
  {
    Crc32Constants();
    Checksum(CRC_32, Fed(content))
  }

  /** The number of chunks before it is cut to 32 bits. */
  function Chunks(size: nat): nat {
    size / BufferSize(size) + (if size % BufferSize(size) != 0 then 1 else 0)
  }

  lemma {:induction false} ChunksCover(size: nat)
    ensures Chunks(size) * BufferSize(size) >= size
    ensures size % BufferSize(size) == 0 ==> Chunks(size) * BufferSize(size) == size
    ensures size % BufferSize(size) != 0 ==>
            Chunks(size) * BufferSize(size) == size - size % BufferSize(size) + BufferSize(size)
    ensures Chunks(size) < UINT32_RANGE ==> ChunkCount(size) == Chunks(size)
    ensures Chunks(size) >= UINT32_RANGE ==> ChunkCount(size) * BufferSize(size) < size
  {
    var b := BufferSize(size);
    var q, r := size / b, size % b;
    assert size == q * b + r;
    OneMore(q, b, r);
    if Chunks(size) >= UINT32_RANGE {
      CountShrinks(q, b, r);
    }
  }

  lemma {:induction false} OneMore(q: nat, b: nat, r: nat)
    ensures (q + (if r != 0 then 1 else 0)) * b == q * b + (if r != 0 then b else 0)
  {
  }

  lemma {:induction false} CountShrinks(q: nat, b: nat, r: nat)
    requires 0 < b && r < b && q + (if r != 0 then 1 else 0) >= UINT32_RANGE
    ensures (q % UINT32_RANGE + (if r != 0 then 1 else 0)) % UINT32_RANGE * b < q * b + r
  {
    var e := if r != 0 then 1 else 0;
    var n := (q % UINT32_RANGE + e) % UINT32_RANGE;
    RemainderBelow(q);
    RemainderBelow(q % UINT32_RANGE + e);
    assert n < q;
    assert n * b <= (q - 1) * b == q * b - b;
  }

  lemma {:induction false} RemainderBelow(q: nat)
    ensures q % UINT32_RANGE <= q && (q >= UINT32_RANGE ==> q % UINT32_RANGE <= q - UINT32_RANGE)
  {
  }

  /** The file is fed whole, followed by the stale bytes, exactly while the chunk count fits in 32 bits. */
  lemma {:induction false} FedIsFileAndTail(content: seq<Byte>)
    ensures Fed(content) == content + StaleTail(content) <==> Chunks(|content|) < UINT32_RANGE
  {
    ChunksCover(|content|);
    if |content| % BufferSize(|content|) == 0 && Chunks(|content|) < UINT32_RANGE {
      assert content[..|content|] == content == content + [];
    }
  }

  // ---------------------------------------------------------------- consequences

  /**
   The checksum is taken of the file itself exactly when the buffer divides its size and the count
   fits in 32 bits.
   */
  lemma {:induction false} FedIsFile(content: seq<Byte>)
    ensures Fed(content) == content <==> |content| % BufferSize(|content|) == 0 && Chunks(|content|) < UINT32_RANGE
  {
    ChunksCover(|content|);
    if |content| % BufferSize(|content|) == 0 && Chunks(|content|) < UINT32_RANGE {
      assert content[..|content|] == content;
    }
  }

  // ---------------------------------------------------------------- what is fed, by the size alone

  lemma {:induction false} FedWhenHalved(content: seq<Byte>)
    requires |content| < 4096 && (|content| % 2 == 0 || |content| <= 3)
    ensures Fed(content) == content
  {
    var n, b := |content|, BufferSize(|content|);
    assert n % b == 0 by {
      if n >= 2 && n % 2 == 0 {
        QuotientOf(n, b, 2);
      }
    }
    assert Chunks(n) <= n;
    FedIsFile(content);
  }

  lemma {:induction false} FedWhenOdd(content: seq<Byte>)
    requires 5 <= |content| < 4096 && |content| % 2 == 1
    ensures Fed(content) == content + content[(|content| + 1) / 2..|content| - 1]
  {
    var n, b := |content|, BufferSize(|content|);
    assert n == 2 * b + 1 && b >= 2;
    QuotientOf(n, b, 2);
    assert Chunks(n) == 3 && StaleTail(content) == content[n - b..n - 1];
    FedIsFileAndTail(content);
  }

  lemma {:induction false} FedWhenLarge(content: seq<Byte>)
    requires 4096 <= |content| <= 4096 * 0xFFFF_FFFF
    ensures Fed(content)
         == content + (if |content| % 4096 == 0 then [] else content[|content| - 4096..|content| - |content| % 4096])
  {
    var n := |content|;
    assert BufferSize(n) == 4096;
    assert Chunks(n) == n / 4096 + (if n % 4096 != 0 then 1 else 0) <= 0xFFFF_FFFF;
    FedIsFileAndTail(content);
  }

  /** Past that size the chunk count starts again from 0. */
  lemma {:induction false} FedWhenWrapped(content: seq<Byte>)
    requires |content| > 4096 * 0xFFFF_FFFF
    ensures var k := (|content| + 4095) / 4096 % 0x1_0000_0000 * 4096;
            k < |content| && Fed(content) == content[..k]
  {
    var n := |content|;
    var q, e := n / 4096, if n % 4096 != 0 then 1 else 0;
    assert BufferSize(n) == 4096;
    assert (n + 4095) / 4096 == q + e == Chunks(n) >= UINT32_RANGE;
    RemainderOfSum(q, e);
    ChunksCover(n);
  }

  lemma {:induction false} RemainderOfSum(q: nat, e: nat)
    ensures (q % UINT32_RANGE + e) % UINT32_RANGE == (q + e) % UINT32_RANGE
  {
  }

  // ---------------------------------------------------------------- collisions

  /**
   A file and the same file with its stale tail appended are fed alike exactly when the buffer
   chosen for the longer one divides its size, and then they have one checksum.
   */
  lemma {:induction false} StaleTailCollision(content: seq<Byte>)
    requires Chunks(|content|) < UINT32_RANGE && Chunks(|content + StaleTail(content)|) < UINT32_RANGE
    ensures var longer := content + StaleTail(content);
            && (longer == content <==> |content| % BufferSize(|content|) == 0)
            && (Fed(longer) == Fed(content) <==> |longer| % BufferSize(|longer|) == 0)
            && (|longer| % BufferSize(|longer|) == 0 ==> FileCrc(longer) == FileCrc(content))
  {
    var longer := content + StaleTail(content);
    FedIsFileAndTail(content);
    FedIsFile(longer);
    assert |StaleTail(content)| == 0 ==> longer == content;
  }

  /** From 4096 bytes on the buffer is the same for both, so every such file of another size collides. */
  lemma {:induction false} LargeFilesCollide(content: seq<Byte>)
    requires |content| >= DFS_BUFFERSIZE && |content| % DFS_BUFFERSIZE != 0 && Chunks(|content|) < UINT32_RANGE
    ensures content + StaleTail(content) != content
    ensures FileCrc(content + StaleTail(content)) == FileCrc(content)
  {
    var longer := content + StaleTail(content);
    assert |longer| == (|content| / DFS_BUFFERSIZE + 1) * DFS_BUFFERSIZE;
    assert |longer| / DFS_BUFFERSIZE == Chunks(|content|) && |longer| % DFS_BUFFERSIZE == 0;
    StaleTailCollision(content);
  }

  /** Five bytes, of which the fourth is fed again after the fifth. */
  function Five(): (content: seq<Byte>)
    ensures |content| == 5 && content[..4] == [Ones(8), Ones(8), Ones(8), Ones(8)] && content[3] == Ones(8)
            && content[4] == Zeros(8)
  {
    [Ones(8), Ones(8), Ones(8), Ones(8), Zeros(8)]
  }

  lemma {:induction false} FiveIsFedTwice(content: seq<Byte>)
    requires |content| == 5
    ensures Fed(content) == content + [content[3]]
  {
    FedIsFileAndTail(content);
    assert StaleTail(content) == content[3..4] == [content[3]];
  }

  /** The checksum of that file is not its CRC-32. */
  lemma {:induction false} FiveIsNotItsCrc()
    ensures Fed(Five()) == Five() + [Ones(8)]
    ensures CRC_32.Valid() && FileCrc(Five()) != Checksum(CRC_32, Five())
  {
    Crc32Constants();
    FiveIsFedTwice(Five());
    FiveDiffers(CRC_32, Five());
  }

  /** A reflected 32-bit engine that starts from ones with a constant term in its polynomial. */
  predicate LikeCrc32(p: Parameters) {
    p.Valid() && p.digits == p.width == 32 && p.reflectInput && p.initialValue == Ones(32) && p.polynomial[0]
  }

  lemma {:induction false} FiveDiffers(p: Parameters, content: seq<Byte>)
    requires LikeCrc32(p) && content == Five()
    ensures Checksum(p, content + [Ones(8)]) != Checksum(p, content)
  {
    var r, tail := Remainder(p, content, p.initialValue), [Ones(8)];
    FiveLeavesZero(p, content);
    RemainderConcat(p, content, tail, p.initialValue);
    TailLeavesTrace(p, tail);
    FinalizedInjective(p, Remainder(p, tail, r), r);
    assert r[..32] == r && Remainder(p, tail, r)[..32] == Remainder(p, tail, r);
  }

  lemma {:induction false} WholePolynomial(p: Parameters)
    requires LikeCrc32(p)
    ensures ScaledPolynomial(p) == p.polynomial
  {
  }

  /** Four bytes of ones cancel the initial value of ones, and a zero byte leaves the register at zero. */
  lemma {:induction false} FiveLeavesZero(p: Parameters, content: seq<Byte>)
    requires LikeCrc32(p) && content == Five()
    ensures Remainder(p, content, p.initialValue) == Zeros(32)
  {
    WholePolynomial(p);
    FourOnes(content[..4]);
    assert content == content[..4] + [Zeros(8)];
    StreamSnoc(content, content[..4], Zeros(8), true);
    assert Rev(Ones(32)) == Ones(32);
    RegisterOfOnes(p.polynomial, Ones(32), Zeros(8));
    RevZeros(32);
  }

  lemma {:induction false} RegisterOfOnes(q: Word, ones: Word, zeros: Word)
    requires |q| == 32 && ones == Ones(32) && zeros == Zeros(8)
    ensures Divide(q, ones, ones + zeros) == Zeros(32)
  {
    Preload(q, ones, ones);
    assert Load(ones, |q|) == ones;
    XorZeros(ones);
    DivideZeros(q, |ones|);
    DivideConcat(q, ones, ones, zeros);
    DivideZeros(q, |zeros|);
  }

  lemma {:induction false} FourOnes(s: seq<Byte>)
    requires s == [Ones(8), Ones(8), Ones(8), Ones(8)]
    ensures Stream(s, true) == Ones(32)
  {
    var a, b := [Ones(8)], [Ones(8), Ones(8)];
    StreamSnoc(a, [], Ones(8), true);
    StreamSnoc(b, a, Ones(8), true);
    assert s == b + b;
    StreamConcat(b, b, true);
  }

  lemma {:induction false} TailLeavesTrace(p: Parameters, tail: seq<Byte>)
    requires LikeCrc32(p) && tail == [Ones(8)]
    ensures Remainder(p, tail, Zeros(32)) != Zeros(32)
  {
    WholePolynomial(p);
    StreamSnoc(tail, [], Ones(8), true);
    RevZeros(32);
    OnesLeaveTrace(p.polynomial, Stream(tail, true));
    NotZeroBackwards(Divide(p.polynomial, Zeros(32), Stream(tail, true)));
  }

  lemma {:induction false} NotZeroBackwards(d: Word)
    requires d != Zeros(|d|)
    ensures Rev(d) != Zeros(|d|)
  {
    RevConcat(d, []);
    RevZeros(|d|);
  }

  lemma {:induction false} OnesLeaveTrace(q: Word, d: Word)
    requires |q| == 32 && q[0] && d == Ones(8)
    ensures Divide(q, Zeros(32), d) != Zeros(32)
  {
    assert d[0] && !Zeros(8)[0];
    if Divide(q, Zeros(32), d) == Zeros(32) {
      ShortStreamDetected(q, d);
    }
  }

  /** A burst of at most 32 bits that spares the bytes fed twice changes the checksum of a file. */
  lemma {:induction false} FileBurstDetected(a: seq<Byte>, b: seq<Byte>, lo: nat, k: nat)
    requires DifferOnlyWithin(CRC_32, a, b, lo, k) && k <= CRC_WIDTH
    requires Chunks(|a|) < UINT32_RANGE && StaleTail(a) == StaleTail(b)
    requires FileCrc(a) == FileCrc(b)
    ensures a == b
  {
    var tail := StaleTail(a);
    Crc32Constants();
    FedIsFileAndTail(a);
    FedIsFileAndTail(b);
    SameEnding(a, b, tail, lo, k);
    BurstDetected(CRC_32, a + tail, b + tail, lo, k);
    assert a == (a + tail)[..|a|] && b == (b + tail)[..|b|];
  }

  lemma {:induction false} SameEnding(a: seq<Byte>, b: seq<Byte>, tail: seq<Byte>, lo: nat, k: nat)
    requires DifferOnlyWithin(CRC_32, a, b, lo, k)
    ensures DifferOnlyWithin(CRC_32, a + tail, b + tail, lo, k)
  {
    var s, t, u := Stream(a, true), Stream(b, true), Stream(tail, true);
    StreamConcat(a, tail, true);
    StreamConcat(b, tail, true);
    WindowKept(s, t, u, lo, lo + k);
  }

  lemma {:induction false} WindowKept(s: Word, t: Word, u: Word, lo: nat, hi: nat)
    requires lo <= hi <= |s| == |t| && s[..lo] == t[..lo] && s[hi..] == t[hi..]
    ensures (s + u)[..lo] == (t + u)[..lo] && (s + u)[hi..] == (t + u)[hi..]
  {
    assert (s + u)[..lo] == s[..lo] && (t + u)[..lo] == t[..lo];
    assert (s + u)[hi..] == s[hi..] + u && (t + u)[hi..] == t[hi..] + u;
  }

  // ---------------------------------------------------------------- the loop

  datatype File = Missing | Unreadable | Readable(content: seq<Byte>)

  /** What the function returns for any state of the path. */
  function PathCrc(file: File): (crc: Word)
    ensures |crc| == CRC_WIDTH
  {
    if file.Readable? then FileCrc(file.content) else Zeros(CRC_WIDTH)
  }

  /** stream.read: the first bytes of the buffer are replaced, the others stay. */
  method Read(buffer: array<Byte>, content: seq<Byte>, position: nat, size: nat)
    requires size <= buffer.Length && position + size <= |content|
    modifies buffer
    ensures buffer[..] == content[position..position + size] + old(buffer[..])[size..]
  {
    var i := 0;
    while i < size
      invariant i <= size
      invariant buffer[..i] == content[position..position + i]
      invariant buffer[i..] == old(buffer[..])[i..]
    {
      buffer[i] := content[position + i];
      i := i + 1;
    }
    assert buffer[..] == buffer[..i] + buffer[i..];
  }

  method Compute(file: File, table: CrcTable.Table) returns (crc: Word)
    requires table.Valid() && table.parameters == CRC_32
    ensures crc == PathCrc(file)
  {
    Crc32Constants();
    if !file.Readable? {
      return Zeros(CRC_WIDTH);
    }
    var content := file.content;
    var buffer := new Byte[BufferSize(|content|)];
    var count := ChunkCount(|content|);
    Start(content, buffer[..]);
    ghost var fed, position;
    crc, fed, position := FeedChunks(content, count, buffer, table);
    Finish(content, count, position, buffer[..], fed);
  }

  /** The chunk loop. */
  method FeedChunks(content: seq<Byte>, count: nat, buffer: array<Byte>, table: CrcTable.Table)
    returns (crc: Word, ghost fed: seq<Byte>, ghost end: nat)
    requires table.Valid() && table.parameters == CRC_32 && buffer as object != table.table
    requires Progress(content, buffer.Length, count, 0, 0, buffer[..], [])
    modifies buffer
    ensures Progress(content, buffer.Length, count, count, end, buffer[..], fed)
    ensures CRC_32.Valid() && crc == Checksum(CRC_32, fed)
  {
    Crc32Constants();
    crc, fed := Zeros(CRC_WIDTH), [];
    var bufferSize := buffer.Length;
    var sequence: nat, position: nat := 0, 0;
    while count != sequence
      invariant Progress(content, bufferSize, count, sequence, position, buffer[..], fed)
      invariant crc == Checksum(CRC_32, fed)
      decreases count - sequence
    {
      position := ReadChunk(content, count, sequence, position, buffer, fed);
      crc := table.CalculateFrom(buffer[..], crc);
      AppendToChecksum(CRC_32, fed, buffer[..]);
      fed := fed + buffer[..];
      sequence := sequence + 1;
    }
    end := position;
  }

  method ReadChunk(content: seq<Byte>, ghost count: nat, ghost sequence: nat, position: nat, buffer: array<Byte>,
                   ghost fed: seq<Byte>)
    returns (next: nat)
    requires Progress(content, buffer.Length, count, sequence, position, buffer[..], fed) && sequence < count
    modifies buffer
    ensures Progress(content, buffer.Length, count, sequence + 1, next, buffer[..], fed + buffer[..])
  {
    var bufferSize := buffer.Length;
    var readSize := Min(|content| - position, bufferSize);
    ghost var before := buffer[..];
    Read(buffer, content, position, readSize);
    next := position + readSize;
    Advance(content, bufferSize, count, sequence, position, before, buffer[..], fed);
  }

  /** The state of the loop after `sequence` chunks: a prefix of the file has been fed, or all of it and stale bytes. */
  ghost predicate Progress(content: seq<Byte>, b: nat, count: nat, sequence: nat, position: nat, buffer: seq<Byte>,
                           fed: seq<Byte>) {
    && sequence <= count
    && |buffer| == b > 0
    && (content != [] ==> b <= |content|)
    && (count > 0 ==> (count - 1) * b < |content|)
    && position <= |content|
    && if position == sequence * b then
         && fed == content[..position]
         && (sequence > 0 ==> position >= b && buffer == content[position - b..position])
         && (sequence < count ==> position < |content|)
       else
         && sequence == count
         && position < sequence * b
         && position == |content|
         && b <= |content|
         && fed == content + content[|content| - b..|content| - |content| % b]
  }

  lemma {:induction false} LastChunkStartsInside(size: nat)
    ensures ChunkCount(size) > 0 ==> size > 0 && (ChunkCount(size) - 1) * BufferSize(size) < size
  {
    ChunksCover(size);
    var n, b := ChunkCount(size), BufferSize(size);
    if n > 0 {
      assert (n - 1) * b + b == n * b;
    }
  }

  lemma {:induction false} Start(content: seq<Byte>, buffer: seq<Byte>)
    requires |buffer| == BufferSize(|content|)
    ensures Progress(content, BufferSize(|content|), ChunkCount(|content|), 0, 0, buffer, [])
  {
    LastChunkStartsInside(|content|);
  }

  lemma {:induction false} Finish(content: seq<Byte>, sequence: nat, position: nat, buffer: seq<Byte>, fed: seq<Byte>)
    requires sequence == ChunkCount(|content|)
    requires Progress(content, BufferSize(|content|), ChunkCount(|content|), sequence, position, buffer, fed)
    ensures fed == Fed(content)
  {
    var b, size := BufferSize(|content|), |content|;
    ChunksCover(size);
    if position != sequence * b {
      assert size % b != 0;
    }
  }

  /** One chunk: a full one extends the prefix, a short one is the last and brings its stale bytes. */
  lemma {:induction false} Advance(content: seq<Byte>, b: nat, count: nat, sequence: nat, position: nat,
                                   before: seq<Byte>, after: seq<Byte>, fed: seq<Byte>)
    requires Progress(content, b, count, sequence, position, before, fed) && sequence < count
    requires var n := Min(|content| - position, b); after == content[position..position + n] + before[n..]
    ensures Progress(content, b, count, sequence + 1, position + Min(|content| - position, b), after, fed + after)
  {
    var size := |content|;
    assert (sequence + 1) * b == position + b;
    LastChunk(size, b, count, sequence);
    if position + b <= size {
      FullBytes(content, b, position, before, after);
    } else {
      LastBytes(content, b, position, before, after);
    }
  }

  lemma {:induction false} FullBytes(content: seq<Byte>, b: nat, position: nat, before: seq<Byte>, after: seq<Byte>)
    requires |before| == b && position + b <= |content|
    requires after == content[position..position + b] + before[b..]
    ensures after == content[position..position + b] && content[..position] + after == content[..position + b]
  {
    assert before[b..] == [];
  }

  lemma {:induction false} LastBytes(content: seq<Byte>, b: nat, position: nat, before: seq<Byte>, after: seq<Byte>)
    requires |before| == b <= position <= |content| < position + b
    requires |content| % b == |content| - position > 0
    requires before == content[position - b..position]
    requires after == content[position..] + before[|content| - position..]
    ensures content[..position] + after == content + content[|content| - b..|content| - |content| % b]
  {
    assert before[|content| - position..] == content[|content| - b..position];
    assert content == content[..position] + content[position..];
  }

  function Min(a: nat, b: nat): nat {
    if a < b then a else b
  }

  /** A chunk that does not fit is the last one, is never the first, and starts at the last full multiple. */
  lemma {:induction false} LastChunk(size: nat, b: nat, count: nat, sequence: nat)
    requires 0 < b <= size && sequence < count && sequence * b < size && (count - 1) * b < size
    ensures (sequence + 1) * b > size ==> sequence > 0 && sequence + 1 == count && size % b == size - sequence * b
    ensures (sequence + 1) * b <= size && sequence + 1 < count ==> (sequence + 1) * b < size
  {
    if (sequence + 1) * b > size {
      MulLess(count - 1, sequence + 1, b);
      QuotientOf(size, b, sequence);
    } else if sequence + 1 < count {
      MulAtMost(sequence + 1, count - 1, b);
    }
  }

  lemma {:induction false} MulLess(x: nat, y: nat, b: nat)
    requires x * b < y * b
    ensures x < y
  {
    if x >= y {
      MulAtMost(y, x, b);
    }
  }

  lemma {:induction false} MulAtMost(x: nat, y: nat, b: nat)
    requires x <= y
    ensures x * b <= y * b
  {
    assert (y - x) * b >= 0;
  }

  lemma {:induction false} QuotientOf(size: nat, b: nat, q: nat)
    requires b > 0 && q * b <= size < (q + 1) * b
    ensures size / b == q && size % b == size - q * b
  {
    var d := size / b;
    assert size == d * b + size % b;
    assert d * b < (q + 1) * b && q * b < (d + 1) * b;
    MulLess(d, q + 1, b);
    MulLess(q, d + 1, b);
  }
}
