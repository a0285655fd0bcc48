/**
 The server's storeFile, fetchFile, write locks and listing, and the client's Store, Fetch
 and synchronization pass, with every call made while nobody else uses the server.
 */
module DfsNodes {
  import opened Options
  import opened Words
  import opened DfsTransfer

  type Name = string
  type ClientId = string
  type Files = map<Name, File>
  type Locks = map<Name, ClientId>
  type Crc = Word
  type Checksum = File -> Crc

  /** What dfs_file_checksum answers for a path that does not exist, and what an unset crc field holds. */
  const NO_CRC: Crc := Zeros(32)

  datatype Code = Ok | AlreadyExists | ResourceExhausted | NotFound | DeadlineExceeded | Cancelled

  datatype StoreMessage = StoreMessage(filename: Name, clientid: ClientId, crc: Crc, contentsize: nat, content: File)
  datatype FetchMessage = FetchMessage(crc: Crc, contentsize: nat, content: File)

  function SumAt(sum: Checksum, files: Files, name: Name): Crc {
    if name in files then sum(files[name]) else NO_CRC
  }

  predicate SameAt<V(==)>(a: map<Name, V>, b: map<Name, V>, name: Name) {
    (name in a <==> name in b) && (name in a ==> a[name] == b[name])
  }

  // ---------------------------------------------------------------- what the calls do

  predicate MayLock(locks: Locks, name: Name, client: ClientId) {
    name !in locks || locks[name] == client
  }

  /** Does a store of `image` get as far as writing? */
  predicate Writes(sum: Checksum, files: Files, locks: Locks, name: Name, client: ClientId, image: File) {
    image != [] && MayLock(locks, name, client) && SumAt(sum, files, name) != sum(image)
  }

  /** The server's files after a store. */
  function Stored(sum: Checksum, files: Files, locks: Locks, name: Name, client: ClientId, image: File): Files {
    if Writes(sum, files, locks, name, client, image) then files[name := image] else files
  }

  /** The lock table after it: a lock the client may take is taken and given back. */
  function StoredLocks(locks: Locks, name: Name, client: ClientId, image: File): Locks {
    if image == [] then locks - {""} else if MayLock(locks, name, client) then locks - {name} else locks
  }

  /** The client's files after a fetch. */
  function Fetched(sum: Checksum, local: Files, remote: Files, name: Name): Files {
    if name in remote && remote[name] != [] && sum(remote[name]) != SumAt(sum, local, name)
    then local[name := remote[name]] else local
  }

  /** The lock table after a delete: an absent file is not even looked up there. */
  function DeletedLocks(files: Files, locks: Locks, name: Name, client: ClientId): Locks {
    if name in files && MayLock(locks, name, client) then locks - {name} else locks
  }

  // ---------------------------------------------------------------- message streams

  function StoreMessages(name: Name, client: ClientId, crc: Crc, chunks: seq<File>): (ms: seq<StoreMessage>)
    ensures |ms| == |chunks|
  {
    seq(|chunks|, i requires 0 <= i < |chunks| => StoreMessage(name, client, crc, |chunks[i]|, chunks[i]))
  }

  function FetchMessages(crc: Crc, chunks: seq<File>): (ms: seq<FetchMessage>)
    ensures |ms| == |chunks|
  {
    seq(|chunks|, i requires 0 <= i < |chunks| => FetchMessage(crc, |chunks[i]|, chunks[i]))
  }

  /** No message claims more bytes than it carries. */
  predicate StoreSized(ms: seq<StoreMessage>) {
    forall i :: 0 <= i < |ms| ==> ms[i].contentsize <= |ms[i].content|
  }

  predicate FetchSized(ms: seq<FetchMessage>) {
    forall i :: 0 <= i < |ms| ==> ms[i].contentsize <= |ms[i].content|
  }

  /** The bytes that each message has written. */
  function Contents(ms: seq<StoreMessage>): (chunks: seq<File>)
    requires StoreSized(ms)
    ensures |chunks| == |ms|
  {
    seq(|ms|, i requires 0 <= i < |ms| => ms[i].content[..ms[i].contentsize])
  }

  function FetchContents(ms: seq<FetchMessage>): (chunks: seq<File>)
    requires FetchSized(ms)
    ensures |chunks| == |ms|
  {
    seq(|ms|, i requires 0 <= i < |ms| => ms[i].content[..ms[i].contentsize])
  }

  /** One more chunk at the running offset. */
  lemma {:induction false} WriteNext(chunks: seq<File>, i: nat, file: File)
    requires i < |chunks| && file == Join(chunks[..i])
    ensures WriteAt(file, |file|, chunks[i]) == Join(chunks[..i + 1])
  {
    JoinAppend(chunks[..i], chunks[i]);
    assert chunks[..i + 1] == chunks[..i] + [chunks[i]];
  }

  // ---------------------------------------------------------------- the server

  class Server {
    const checksum: Checksum
    var files: Files
    var lockList: Locks

    constructor (checksum: Checksum, files: Files)
      ensures this.checksum == checksum && this.files == files && lockList == map[]
    {
      this.checksum, this.files, lockList := checksum, files, map[];
    }

    method Lock(name: Name, client: ClientId) returns (code: Code)
      modifies this`lockList
      ensures code == if MayLock(old(lockList), name, client) then Ok else ResourceExhausted
      ensures lockList == if code == Ok then old(lockList)[name := client] else old(lockList)
    {
      if name !in lockList || lockList[name] == client {
        lockList := lockList[name := client];
        return Ok;
      }
      return ResourceExhausted;
    }

    method Unlock(name: Name) returns (code: Code)
      modifies this`lockList
      ensures code == if name in old(lockList) then Ok else NotFound
      ensures lockList == old(lockList) - {name}
    {
      if name !in lockList {
        return NotFound;
      }
      lockList := lockList - {name};
      return Ok;
    }

    /**
     Whatever messages arrive: the first one names the file, the client and the checksum; the last
     one names the lock given back. A cancelled store returns at once and gives back nothing.
     */
    method StoreFile(stream: seq<StoreMessage>, cancelled: Option<nat>) returns (code: Code)
      requires StoreSized(stream)
      modifies this
      ensures stream == [] ==> code == Ok && files == old(files) && lockList == old(lockList) - {""}
      ensures stream != [] && IsCancelled(cancelled, 0) ==>
                code == DeadlineExceeded && files == old(files) && lockList == old(lockList)
      ensures stream != [] && !IsCancelled(cancelled, 0)
              && !MayLock(old(lockList), stream[0].filename, stream[0].clientid) ==>
                code == ResourceExhausted && files == old(files) && lockList == old(lockList)
      ensures stream != [] && !IsCancelled(cancelled, 0)
              && MayLock(old(lockList), stream[0].filename, stream[0].clientid) ==>
                var name, k := stream[0].filename, Rounds(cancelled, |stream|);
                if SumAt(checksum, old(files), name) == stream[0].crc then
                  code == AlreadyExists && files == old(files) && lockList == old(lockList) - {name}
                else
                  && files == old(files)[name := Join(Contents(stream)[..k])]
                  && code == (if k < |stream| then DeadlineExceeded else Ok)
                  && lockList == old(lockList)[name := stream[0].clientid]
                                 - (if k < |stream| then {} else {stream[|stream| - 1].filename})
    {
      var name := "";
      var target := "";
      var bytesTransferred: nat := 0;
      var first := true;
      for i := 0 to |stream|
        invariant first <==> i == 0
        invariant i <= Rounds(cancelled, |stream|)
        invariant i == 0 ==> files == old(files) && lockList == old(lockList) && name == "" && bytesTransferred == 0
        invariant i > 0 ==>
          && name == stream[i - 1].filename && target == stream[0].filename
          && MayLock(old(lockList), target, stream[0].clientid)
          && SumAt(checksum, old(files), target) != stream[0].crc
          && lockList == old(lockList)[target := stream[0].clientid]
          && files == old(files)[target := Join(Contents(stream)[..i])]
          && bytesTransferred == |files[target]|
      {
        var request := stream[i];
        if IsCancelled(cancelled, i) {
          return DeadlineExceeded;
        }
        name := request.filename;
        if first {
          var locked := Lock(name, request.clientid);
          if locked == ResourceExhausted {
            return ResourceExhausted;
          }
          if request.crc == SumAt(checksum, files, name) {
            var _ := Unlock(name);
            assert lockList == old(lockList) - {name};
            return AlreadyExists;
          }
          target := name;
          files := files[target := []];
          first := false;
        }
        WriteNext(Contents(stream), i, files[target]);
        files := files[target := WriteAt(files[target], bytesTransferred, request.content[..request.contentsize])];
        bytesTransferred := bytesTransferred + request.contentsize;
      }
      assert Contents(stream)[..|stream|] == Contents(stream);
      var _ := Unlock(name);
      return Ok;
    }

    method FetchFile(name: Name, crc: Crc, cancelled: Option<nat>) returns (stream: seq<FetchMessage>, code: Code)
      ensures name !in files ==> code == NotFound && stream == [FetchMessage(NO_CRC, 0, [])]
      ensures name in files && checksum(files[name]) == crc ==>
              code == AlreadyExists && stream == [FetchMessage(crc, 0, [])]
      ensures name in files && checksum(files[name]) != crc ==>
                var chunks := Chunks(files[name]);
                var k := Rounds(cancelled, |chunks|);
                && code == (if k < |chunks| then DeadlineExceeded else Ok)
                && stream == FetchMessages(checksum(files[name]), chunks[..k])
    {
      if name !in files {
        return [FetchMessage(NO_CRC, 0, [])], NotFound;
      }
      var own := checksum(files[name]);
      if crc == own {
        return [FetchMessage(own, 0, [])], AlreadyExists;
      }
      var chunks := SendChunks(files[name], cancelled);
      ChunkCount(files[name]);
      var count := (|files[name]| + READ_LENGTH - 1) / READ_LENGTH;
      return FetchMessages(own, chunks), if |chunks| < count then DeadlineExceeded else Ok;
    }

    /** The file goes first: a delete refused for the lock has removed it all the same. */
    method DeleteFile(name: Name, client: ClientId, cancelled: bool) returns (code: Code)
      modifies this
      ensures cancelled ==> code == DeadlineExceeded && files == old(files) && lockList == old(lockList)
      ensures !cancelled ==>
              files == old(files) - {name} && lockList == DeletedLocks(old(files), old(lockList), name, client)
      ensures !cancelled ==>
                code == if name !in old(files) then NotFound else if MayLock(old(lockList), name, client) then Ok
                  else ResourceExhausted
    {
      if cancelled {
        return DeadlineExceeded;
      }
      if name !in files {
        return NotFound;
      }
      files := files - {name};
      var locked := Lock(name, client);
      if locked == ResourceExhausted {
        return ResourceExhausted;
      }
      var _ := Unlock(name);
      assert lockList == old(lockList) - {name};
      return Ok;
    }

    method ProcessCallback() returns (crcs: map<Name, Crc>)
      ensures crcs.Keys == files.Keys
      ensures forall n :: n in files ==> crcs[n] == checksum(files[n])
    {
      crcs := map[];
      var todo := files.Keys;
      while todo != {}
        invariant todo <= files.Keys && crcs.Keys == files.Keys - todo
        invariant forall n :: n in crcs ==> n in files && crcs[n] == checksum(files[n])
        decreases |todo|
      {
        var n :| n in todo;
        crcs := crcs[n := checksum(files[n])];
        todo := todo - {n};
      }
    }
  }

  // ---------------------------------------------------------------- the client

  class Client {
    const checksum: Checksum
    const id: ClientId
    var files: Files

    constructor (checksum: Checksum, id: ClientId, files: Files)
      ensures this.checksum == checksum && this.id == id && this.files == files
    {
      this.checksum, this.id, this.files := checksum, id, files;
    }

    method Store(name: Name, server: Server) returns (code: Code)
      requires server.checksum == checksum
      modifies server
      ensures name !in files ==>
              code == Cancelled && server.files == old(server.files) && server.lockList == old(server.lockList)
      ensures name in files ==>
                && server.files == Stored(checksum, old(server.files), old(server.lockList), name, id, files[name])
                && server.lockList == StoredLocks(old(server.lockList), name, id, files[name])
      ensures code ==
              if name !in files then Cancelled
              else if files[name] == [] then Ok
              else if !MayLock(old(server.lockList), name, id) then Cancelled
              else if SumAt(checksum, old(server.files), name) == checksum(files[name]) then AlreadyExists else Ok
    {
      if name !in files {
        return Cancelled;
      }
      var crc := checksum(files[name]);
      var chunks := SendChunks(files[name], None);
      var stream := StoreMessages(name, id, crc, chunks);
      assert chunks == Chunks(files[name]);
      StoredContents(name, id, crc, chunks);
      JoinChunks(files[name]);
      assert chunks == [] <==> files[name] == [];
      assert chunks[..|chunks|] == chunks;
      var status := server.StoreFile(stream, None);
      assert old(server.lockList)[name := id] - {name} == old(server.lockList) - {name};
      if status == Ok || status == AlreadyExists {
        return status;
      }
      return Cancelled;
    }

    /** The reading loop of Fetch: it stops at the first message that is empty or has the local checksum. */
    method Receive(name: Name, crc: Crc, stream: seq<FetchMessage>, status: Code) returns (code: Code)
      requires FetchSized(stream)
      modifies this
      ensures var k := CleanMessages(stream, crc);
              var received := if k == 0 then old(files) else old(files)[name := Join(FetchContents(stream)[..k])];
              if k < |stream| then
                && files == received
                && code == if stream[k].contentsize == 0 then NotFound else AlreadyExists
              else if status == Ok || status == AlreadyExists then files == received && code == status
              else
                && files == old(files) - {name}
                && code == if status == DeadlineExceeded || status == NotFound then status else Cancelled
    {
      var bytesTransferred: nat := 0;
      for i := 0 to |stream|
        invariant i <= CleanMessages(stream, crc)
        invariant i == 0 ==> files == old(files) && bytesTransferred == 0
        invariant i > 0 ==>
                  files == old(files)[name := Join(FetchContents(stream)[..i])] && bytesTransferred == |files[name]|
      {
        var response := stream[i];
        CleanAt(stream, crc, i);
        if response.contentsize == 0 {
          return NotFound;
        }
        if response.crc == crc {
          return AlreadyExists;
        }
        if i == 0 {
          files := files[name := []];
        }
        WriteNext(FetchContents(stream), i, files[name]);
        files := files[name := WriteAt(files[name], bytesTransferred, response.content[..response.contentsize])];
        bytesTransferred := bytesTransferred + response.contentsize;
      }
      if status == Ok || status == AlreadyExists {
        return status;
      }
      files := files - {name};
      code := if status == DeadlineExceeded || status == NotFound then status else Cancelled;
    }

    /**
     A file with the checksum of the local copy is reported as not found, and nothing is written.
     A cancelled fetch takes the local copy with it.
     */
    method Fetch(name: Name, server: Server, cancelled: Option<nat>) returns (code: Code)
      requires server.checksum == checksum
      modifies this
      ensures var moves := name in server.files && checksum(server.files[name]) != SumAt(checksum, old(files), name);
              if moves && Rounds(cancelled, |Chunks(server.files[name])|) < |Chunks(server.files[name])| then
                code == DeadlineExceeded && files == old(files) - {name}
              else
                files == Fetched(checksum, old(files), server.files, name) && code == if moves then Ok else NotFound
    {
      var crc := SumAt(checksum, files, name);
      var stream, status := server.FetchFile(name, crc, cancelled);
      if name in server.files && checksum(server.files[name]) != crc {
        FetchedChunks(server.files[name], checksum(server.files[name]), crc, |stream|);
      }
      code := Receive(name, crc, stream, status);
    }

    /** The local copy goes exactly when the server reports success. */
    method Delete(name: Name, server: Server) returns (code: Code)
      modifies this, server
      ensures server.files == old(server.files) - {name}
      ensures server.lockList == DeletedLocks(old(server.files), old(server.lockList), name, id)
      ensures code == Ok <==> name in old(server.files) && MayLock(old(server.lockList), name, id)
      ensures files == if code == Ok then old(files) - {name} else old(files)
    {
      code := server.DeleteFile(name, id, false);
      if code == Ok {
        files := files - {name};
      }
    }
  }

  lemma {:induction false} StoredContents(name: Name, client: ClientId, crc: Crc, chunks: seq<File>)
    ensures var ms := StoreMessages(name, client, crc, chunks); StoreSized(ms) && Contents(ms) == chunks
  {
    var ms := StoreMessages(name, client, crc, chunks);
    forall i | 0 <= i < |chunks| ensures Contents(ms)[i] == chunks[i] {
      assert chunks[i][..|chunks[i]|] == chunks[i];
    }
  }

  lemma {:induction false} SentContents(crc: Crc, chunks: seq<File>)
    ensures var ms := FetchMessages(crc, chunks); FetchSized(ms) && FetchContents(ms) == chunks
  {
    var ms := FetchMessages(crc, chunks);
    forall i | 0 <= i < |chunks| ensures FetchContents(ms)[i] == chunks[i] {
      assert chunks[i][..|chunks[i]|] == chunks[i];
    }
  }

  /** How many messages the reading loop takes in. */
  function CleanMessages(stream: seq<FetchMessage>, crc: Crc): (k: nat)
    ensures k <= |stream|
  {
    if stream == [] || stream[0].contentsize == 0 || stream[0].crc == crc then 0
    else 1 + CleanMessages(stream[1..], crc)
  }

  lemma {:induction false} CleanAt(stream: seq<FetchMessage>, crc: Crc, i: nat)
    requires i <= CleanMessages(stream, crc) && i < |stream|
    ensures i < CleanMessages(stream, crc) <==> stream[i].contentsize != 0 && stream[i].crc != crc
    decreases i
  {
    if i > 0 {
      CleanAt(stream[1..], crc, i - 1);
    }
  }

  lemma {:induction false} AllClean(stream: seq<FetchMessage>, crc: Crc)
    requires forall i :: 0 <= i < |stream| ==> stream[i].contentsize != 0 && stream[i].crc != crc
    ensures CleanMessages(stream, crc) == |stream|
    decreases |stream|
  {
    if stream != [] {
      AllClean(stream[1..], crc);
    }
  }

  /** The first k chunks of a file arrive clean; all of them make the file. */
  lemma {:induction false} FetchedChunks(file: File, own: Crc, crc: Crc, k: nat)
    requires own != crc && k <= |Chunks(file)|
    ensures var ms := FetchMessages(own, Chunks(file)[..k]);
            && FetchSized(ms) && CleanMessages(ms, crc) == k == |ms|
            && (k == |Chunks(file)| ==> Join(FetchContents(ms)[..k]) == file && (k == 0 <==> file == []))
  {
    var ms := FetchMessages(own, Chunks(file)[..k]);
    forall i | 0 <= i < |ms| ensures ms[i].contentsize != 0 {
      ChunkSizes(file, i);
    }
    AllClean(ms, crc);
    JoinChunks(file);
    SentContents(own, Chunks(file)[..k]);
    assert Chunks(file)[..k][..k] == Chunks(file)[..k];
    assert k == |Chunks(file)| ==> Chunks(file)[..k] == Chunks(file);
  }
}
