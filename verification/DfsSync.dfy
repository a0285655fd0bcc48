/**
 One pass of HandleCallbackList against a server nobody else is using: what it leaves on
 both sides, exactly when that brings them into step, and what a further pass does.
 */
module DfsSync {
  import opened DfsNodes
  import opened DfsTransfer
  import opened Options
  import BurstErrors
  import Crc32
  import FileChecksum

  /**
   What one pass is given: the server's listing, the modification times on both sides, and
   the files that the client's working directory holds under the listed names.
   */
  datatype Pass = Pass(crcs: map<Name, Crc>, serverTime: Name -> int, localTime: Name -> int, cwd: Files)

  datatype Action = Leave | FetchIt | StoreIt

  /** The local checksum is taken of the bare file name, not of its path under the mount point. */
  function Decide(sum: Checksum, p: Pass, local: Files, name: Name): Action
    requires name in p.crcs
  {
    if name !in local then FetchIt
    else if p.crcs[name] == SumAt(sum, p.cwd, name) then Leave
    else if p.serverTime(name) > p.localTime(name) then FetchIt
    else StoreIt
  }

  function LocalAfter(sum: Checksum, p: Pass, local: Files, remote: Files, name: Name): Files
    requires name in p.crcs
  {
    if Decide(sum, p, local, name).FetchIt? then Fetched(sum, local, remote, name) else local
  }

  function RemoteAfter(sum: Checksum, p: Pass, id: ClientId, local: Files, remote: Files, locks: Locks,
                       name: Name): Files
    requires name in p.crcs
  {
    if Decide(sum, p, local, name).StoreIt? then Stored(sum, remote, locks, name, id, local[name]) else remote
  }

  /** Both sides after a pass: each listed name treated by itself, every other name gone from the client. */
  ghost predicate PassDone(sum: Checksum, p: Pass, id: ClientId, local: Files, remote: Files, locks: Locks,
                           local': Files, remote': Files) {
    && (forall n :: n !in p.crcs ==> n !in local' && SameAt(remote', remote, n))
    && (forall n :: n in p.crcs ==>
          && SameAt(local', LocalAfter(sum, p, local, remote, n), n)
          && SameAt(remote', RemoteAfter(sum, p, id, local, remote, locks, n), n))
  }

  /** The name is stored with something to send, under a lock that is free or the client's own. */
  predicate Released(sum: Checksum, p: Pass, id: ClientId, local: Files, locks: Locks, name: Name)
    requires name in p.crcs
  {
    && name in local && local[name] != []
    && p.crcs[name] != SumAt(sum, p.cwd, name) && p.serverTime(name) <= p.localTime(name)
    && (name in locks ==> locks[name] == id)
  }

  /** No lock appears and none changes hands. */
  predicate NoNewLocks(locks': Locks, locks: Locks) {
    forall n :: n in locks' ==> n in locks && locks'[n] == locks[n]
  }

  /** The lock table after a pass: the names that were stored are free, every other entry is as it was. */
  ghost predicate LocksDone(sum: Checksum, p: Pass, id: ClientId, local: Files, locks: Locks, locks': Locks) {
    && NoNewLocks(locks', locks)
    && (forall n :: n !in p.crcs && n != "" ==> SameAt(locks', locks, n))
    && (forall n :: n in p.crcs ==>
          if Released(sum, p, id, local, locks, n) then n !in locks' else SameAt(locks', locks, n))
  }

  // ---------------------------------------------------------------- the pass

  method SyncOne(client: Client, server: Server, p: Pass, name: Name)
    requires client.checksum == server.checksum && name in p.crcs && name != ""
    modifies client, server
    ensures client.files == LocalAfter(client.checksum, p, old(client.files), old(server.files), name)
    ensures server.files
            == RemoteAfter(client.checksum, p, client.id, old(client.files), old(server.files), old(server.lockList),
                           name)
    ensures Released(client.checksum, p, client.id, old(client.files), old(server.lockList), name) ==>
              name !in server.lockList
    ensures !Released(client.checksum, p, client.id, old(client.files), old(server.lockList), name) ==>
              SameAt(server.lockList, old(server.lockList), name)
    ensures forall n :: n != name && n != "" ==> SameAt(server.lockList, old(server.lockList), n)
    ensures NoNewLocks(server.lockList, old(server.lockList))
  {
    if name !in client.files {
      var _ := client.Fetch(name, server, None);
    } else {
      var crcClient := SumAt(client.checksum, p.cwd, name);
      if p.crcs[name] != crcClient {
        if p.serverTime(name) > p.localTime(name) {
          var _ := client.Fetch(name, server, None);
        } else {
          var _ := client.Store(name, server);
        }
      }
    }
  }

  /** What is done for one name depends on that name alone. */
  lemma {:induction false} Local(sum: Checksum, p: Pass, id: ClientId, local: Files, remote: Files, locks: Locks,
                                 local0: Files, remote0: Files, locks0: Locks, name: Name)
    requires name in p.crcs && SameAt(local, local0, name) && SameAt(remote, remote0, name)
             && SameAt(locks, locks0, name)
    ensures SameAt(LocalAfter(sum, p, local, remote, name), LocalAfter(sum, p, local0, remote0, name), name)
    ensures SameAt(RemoteAfter(sum, p, id, local, remote, locks, name),
                   RemoteAfter(sum, p, id, local0, remote0, locks0, name), name)
    ensures forall n :: n != name ==> SameAt(LocalAfter(sum, p, local, remote, name), local, n)
    ensures forall n :: n != name ==> SameAt(RemoteAfter(sum, p, id, local, remote, locks, name), remote, n)
  {
  }

  /** In the middle of the pass: the names still to do are as they were at the start. */
  ghost predicate Halfway(sum: Checksum, p: Pass, id: ClientId, local0: Files, remote0: Files, locks0: Locks,
                          local: Files, remote: Files, locks: Locks, todo: set<Name>) {
    && todo <= p.crcs.Keys
    && (forall n :: n in todo ==> SameAt(locks, locks0, n))
    && (forall n :: n in todo || n !in p.crcs ==> SameAt(local, local0, n) && SameAt(remote, remote0, n))
    && (forall n :: n in p.crcs && n !in todo ==>
          && SameAt(local, LocalAfter(sum, p, local0, remote0, n), n)
          && SameAt(remote, RemoteAfter(sum, p, id, local0, remote0, locks0, n), n))
  }

  lemma {:induction false} HalfwayStep(sum: Checksum, p: Pass, id: ClientId, local0: Files, remote0: Files,
                                       locks0: Locks,
                                       local: Files, remote: Files, locks: Locks, todo: set<Name>, name: Name,
                                       local': Files, remote': Files, locks': Locks)
    requires Halfway(sum, p, id, local0, remote0, locks0, local, remote, locks, todo)
    requires name in todo && "" !in p.crcs
    requires local' == LocalAfter(sum, p, local, remote, name)
    requires remote' == RemoteAfter(sum, p, id, local, remote, locks, name)
    requires forall n :: n != name && n != "" ==> SameAt(locks', locks, n)
    ensures Halfway(sum, p, id, local0, remote0, locks0, local', remote', locks', todo - {name})
  {
    Local(sum, p, id, local, remote, locks, local0, remote0, locks0, name);
    forall n | n in todo - {name} ensures SameAt(locks', locks0, n) {
      assert n in p.crcs.Keys && n != "";
      assert SameAt(locks', locks, n) && SameAt(locks, locks0, n);
    }
    forall n | n != name ensures SameAt(local', local, n) && SameAt(remote', remote, n) {
    }
  }

  /** The lock table in the middle of the pass. */
  ghost predicate HalfwayLocks(sum: Checksum, p: Pass, id: ClientId, local0: Files, locks0: Locks,
                               locks: Locks, todo: set<Name>) {
    && NoNewLocks(locks, locks0)
    && (forall n :: n in todo || (n !in p.crcs && n != "") ==> SameAt(locks, locks0, n))
    && (forall n :: n in p.crcs && n !in todo ==>
          if Released(sum, p, id, local0, locks0, n) then n !in locks else SameAt(locks, locks0, n))
  }

  lemma {:induction false} HalfwayLocksStep(sum: Checksum, p: Pass, id: ClientId, local0: Files, locks0: Locks,
                                            local: Files, locks: Locks, todo: set<Name>, name: Name, locks': Locks)
    requires HalfwayLocks(sum, p, id, local0, locks0, locks, todo)
    requires name in todo && name in p.crcs && "" !in p.crcs && SameAt(local, local0, name)
    requires if Released(sum, p, id, local, locks, name) then name !in locks' else SameAt(locks', locks, name)
    requires forall n :: n != name && n != "" ==> SameAt(locks', locks, n)
    requires NoNewLocks(locks', locks) && todo <= p.crcs.Keys
    ensures HalfwayLocks(sum, p, id, local0, locks0, locks', todo - {name})
  {
    assert SameAt(locks, locks0, name);
    forall n | n in p.crcs && n != name ensures SameAt(locks', locks, n) {
    }
    forall n | n !in p.crcs && n != "" ensures SameAt(locks', locks0, n) {
      assert SameAt(locks', locks, n) && SameAt(locks, locks0, n);
    }
    forall n | n in todo - {name} ensures SameAt(locks', locks0, n) {
      assert n in p.crcs.Keys;
    }
  }

  /** The first loop: every listed name, in any order. */
  method SyncListed(client: Client, server: Server, p: Pass)
    requires client.checksum == server.checksum && "" !in p.crcs
    modifies client, server
    ensures Halfway(client.checksum, p, client.id, old(client.files), old(server.files), old(server.lockList),
                    client.files, server.files, server.lockList, {})
    ensures LocksDone(client.checksum, p, client.id, old(client.files), old(server.lockList), server.lockList)
  {
    var todo := p.crcs.Keys;
    while todo != {}
      invariant Halfway(client.checksum, p, client.id, old(client.files), old(server.files), old(server.lockList),
                        client.files, server.files, server.lockList, todo)
      invariant HalfwayLocks(client.checksum, p, client.id, old(client.files), old(server.lockList),
                             server.lockList, todo)
      decreases |todo|
    {
      var name :| name in todo;
      ghost var local, remote, locks := client.files, server.files, server.lockList;
      SyncOne(client, server, p, name);
      HalfwayStep(client.checksum, p, client.id, old(client.files), old(server.files), old(server.lockList),
                  local, remote, locks, todo, name, client.files, server.files, server.lockList);
      HalfwayLocksStep(client.checksum, p, client.id, old(client.files), old(server.lockList),
                       local, locks, todo, name, server.lockList);
      todo := todo - {name};
    }
  }

  /** The second loop: every directory entry that is not listed is removed. */
  method RemoveUnlisted(client: Client, p: Pass)
    modifies client
    ensures forall n :: n !in p.crcs ==> n !in client.files
    ensures forall n :: n in p.crcs ==> SameAt(client.files, old(client.files), n)
  {
    var entries := client.files.Keys;
    while entries != {}
      invariant entries <= client.files.Keys
      invariant forall n :: n in client.files && n !in entries ==> n in p.crcs
      invariant forall n :: n in p.crcs ==> SameAt(client.files, old(client.files), n)
      decreases |entries|
    {
      var name :| name in entries;
      if name !in p.crcs {
        client.files := client.files - {name};
      }
      entries := entries - {name};
    }
  }

  method HandleCallbackList(client: Client, server: Server, p: Pass)
    requires client.checksum == server.checksum && "" !in p.crcs
    modifies client, server
    ensures PassDone(client.checksum, p, client.id, old(client.files), old(server.files), old(server.lockList),
                     client.files, server.files)
    ensures LocksDone(client.checksum, p, client.id, old(client.files), old(server.lockList), server.lockList)
    ensures forall n :: n in server.lockList ==>
            n in old(server.lockList) && server.lockList[n] == old(server.lockList)[n]
  {
    SyncListed(client, server, p);
    RemoveUnlisted(client, p);
  }

  // ---------------------------------------------------------------- convergence

  /** The client has exactly the server's names, each with the server's checksum. */
  ghost predicate InStep(sum: Checksum, local: Files, remote: Files) {
    local.Keys == remote.Keys && forall n :: n in remote ==> sum(local[n]) == sum(remote[n])
  }

  ghost predicate Lists(sum: Checksum, crcs: map<Name, Crc>, remote: Files) {
    crcs.Keys == remote.Keys && forall n :: n in remote ==> crcs[n] == sum(remote[n])
  }

  /** What has to hold of one name on the server before the pass. */
  predicate Ready(sum: Checksum, p: Pass, id: ClientId, local: Files, remote: Files, locks: Locks, name: Name)
    requires name in remote
  {
    var crc := sum(remote[name]);
    if name !in local then crc != NO_CRC && remote[name] != []
    else
      || sum(local[name]) == crc
      || (SumAt(sum, p.cwd, name) != crc &&
          if p.serverTime(name) > p.localTime(name) then remote[name] != []
          else local[name] != [] && MayLock(locks, name, id))
  }

  lemma {:induction false} ReadyName(sum: Checksum, p: Pass, id: ClientId, local: Files, remote: Files, locks: Locks,
                                     local': Files, remote': Files, n: Name)
    requires PassDone(sum, p, id, local, remote, locks, local', remote') && n in remote && n in p.crcs
    requires p.crcs[n] == sum(remote[n])
    ensures n in remote'
    ensures n in local' && sum(local'[n]) == sum(remote'[n]) <==> Ready(sum, p, id, local, remote, locks, n)
  {
  }

  /** A pass brings the two sides into step exactly when every listed name is ready for it. */
  lemma {:induction false} ConvergesExactly(sum: Checksum, p: Pass, id: ClientId, local: Files, remote: Files,
                                            locks: Locks,
                                            local': Files, remote': Files)
    requires PassDone(sum, p, id, local, remote, locks, local', remote') && Lists(sum, p.crcs, remote)
    ensures InStep(sum, local', remote') <==> forall n :: n in remote ==> Ready(sum, p, id, local, remote, locks, n)
  {
    forall n
      ensures n in remote' <==> n in remote
      ensures n in remote ==>
                (n in local' && sum(local'[n]) == sum(remote'[n]) <==> Ready(sum, p, id, local, remote, locks, n))
    {
      if n in remote {
        ReadyName(sum, p, id, local, remote, locks, local', remote', n);
      }
    }
    assert forall n :: n in local' ==> n in p.crcs;
    if forall n :: n in remote ==> Ready(sum, p, id, local, remote, locks, n) {
      assert local'.Keys == remote'.Keys;
    }
    if InStep(sum, local', remote') {
      forall n | n in remote ensures Ready(sum, p, id, local, remote, locks, n) {
        assert n in remote'.Keys;
      }
    }
  }

  lemma {:induction false} StableName(sum: Checksum, p: Pass, id: ClientId, local: Files, remote: Files, locks: Locks,
                                      n: Name)
    requires n in p.crcs && n in local && n in remote && sum(local[n]) == sum(remote[n])
    ensures LocalAfter(sum, p, local, remote, n) == local && RemoteAfter(sum, p, id, local, remote, locks, n) == remote
  {
  }

  /** Once in step, a pass changes no file on either side, whatever the times and the working directory. */
  lemma {:induction false} InStepIsStable(sum: Checksum, p: Pass, id: ClientId, local: Files, remote: Files,
                                          locks: Locks,
                                          local': Files, remote': Files)
    requires PassDone(sum, p, id, local, remote, locks, local', remote') && Lists(sum, p.crcs, remote)
    requires InStep(sum, local, remote)
    ensures local' == local && remote' == remote
  {
    assert p.crcs.Keys == local.Keys == remote.Keys;
    forall n | n in p.crcs.Keys ensures SameAt(local', local, n) && SameAt(remote', remote, n) {
      StableName(sum, p, id, local, remote, locks, n);
    }
    assert local'.Keys == local.Keys && remote'.Keys == remote.Keys;
  }

  // ---------------------------------------------------------------- with the checksum taken of the client's own file

  predicate Syncable(sum: Checksum, id: ClientId, local: Files, remote: Files, locks: Locks) {
    && (forall n :: n in remote ==> remote[n] != [] && sum(remote[n]) != NO_CRC && MayLock(locks, n, id))
    && (forall n :: n in local ==> local[n] != [])
  }

  /** The outcome for one name: a missing or differing copy takes over the later file, an equal one stays. */
  predicate LaterWins(sum: Checksum, p: Pass, local: Files, remote: Files, local': Files, remote': Files, n: Name)
    requires n in remote
  {
    && n in local' && n in remote'
    && if n !in local then local'[n] == remote'[n] == remote[n]
       else if sum(local[n]) == sum(remote[n]) then local'[n] == local[n] && remote'[n] == remote[n]
       else local'[n] == remote'[n] == if p.serverTime(n) > p.localTime(n) then remote[n] else local[n]
  }

  lemma {:induction false} IntendedName(sum: Checksum, p: Pass, id: ClientId, local: Files, remote: Files, locks: Locks,
                                        local': Files, remote': Files, n: Name)
    requires n in remote && n in p.crcs && p.crcs[n] == sum(remote[n])
    requires SameAt(local', LocalAfter(sum, p, local, remote, n), n)
    requires SameAt(remote', RemoteAfter(sum, p, id, local, remote, locks, n), n)
    requires SameAt(p.cwd, local, n)
    requires remote[n] != [] && sum(remote[n]) != NO_CRC && MayLock(locks, n, id) && (n in local ==> local[n] != [])
    ensures LaterWins(sum, p, local, remote, local', remote', n)
  {
  }

  /** Taken of the mounted file, the checksum lets every pass succeed, and where the sides differ the later one wins. */
  lemma {:induction false} IntendedPassConverges(sum: Checksum, p: Pass, id: ClientId, local: Files, remote: Files,
                                                 locks: Locks,
                                                 local': Files, remote': Files)
    requires PassDone(sum, p, id, local, remote, locks, local', remote') && Lists(sum, p.crcs, remote)
    requires p.cwd == local && Syncable(sum, id, local, remote, locks)
    ensures InStep(sum, local', remote')
    ensures forall n :: n in remote ==> LaterWins(sum, p, local, remote, local', remote', n)
  {
    forall n | n in remote ensures LaterWins(sum, p, local, remote, local', remote', n) {
      assert n in p.crcs.Keys;
      IntendedName(sum, p, id, local, remote, locks, local', remote', n);
    }
    assert local'.Keys == remote.Keys == remote'.Keys by {
      assert forall n :: n in p.crcs.Keys <==> n in remote.Keys;
    }
  }

  /**
   A pass over free locks leaves them free, so that the next client's pass converges in its turn:
   what the first one leaves on the server is as good as what it found there.
   */
  lemma {:induction false} NextClientSyncable(sum: Checksum, p: Pass, id: ClientId, local: Files, remote: Files,
                                              locks: Locks, local': Files, remote': Files, locks': Locks,
                                              next: ClientId, others: Files)
    requires PassDone(sum, p, id, local, remote, locks, local', remote') && Lists(sum, p.crcs, remote)
    requires LocksDone(sum, p, id, local, locks, locks')
    requires Syncable(sum, id, local, remote, locks) && (forall n :: n in remote ==> n !in locks)
    requires forall n :: n in local ==> sum(local[n]) != NO_CRC
    requires forall n :: n in others ==> others[n] != []
    ensures remote'.Keys == remote.Keys && forall n :: n in remote' ==> n !in locks'
    ensures Syncable(sum, next, others, remote', locks')
  {
    forall n ensures n in remote' <==> n in remote
             ensures n in remote' ==> remote'[n] != [] && sum(remote'[n]) != NO_CRC && n !in locks' {
      assert n in remote <==> n in p.crcs.Keys;
      if n in remote {
        AfterPass(sum, p, id, local, remote, locks, remote', n);
      } else {
        assert SameAt(remote', remote, n);
      }
    }
  }

  lemma {:induction false} AfterPass(sum: Checksum, p: Pass, id: ClientId, local: Files, remote: Files, locks: Locks,
                                     remote': Files, n: Name)
    requires n in remote && n in p.crcs && SameAt(remote', RemoteAfter(sum, p, id, local, remote, locks, n), n)
    ensures n in remote' && (remote'[n] == remote[n] || (n in local && local[n] != [] && remote'[n] == local[n]))
  {
  }

  /** As the checksum is taken, a working directory that holds the server's bytes hides a stale copy from every pass. */
  lemma {:induction false} StaleCopyHidden(sum: Checksum, p: Pass, id: ClientId, local: Files, remote: Files,
                                           locks: Locks,
                                           local': Files, remote': Files, n: Name)
    requires PassDone(sum, p, id, local, remote, locks, local', remote') && Lists(sum, p.crcs, remote)
    requires n in remote && n in local && n in p.cwd
    requires sum(p.cwd[n]) == sum(remote[n]) != sum(local[n])
    ensures n in local' && local'[n] == local[n] && n in remote' && remote'[n] == remote[n]
    ensures !InStep(sum, local', remote')
  {
    assert n in p.crcs.Keys;
    assert Decide(sum, p, local, n) == Leave;
  }

  /**
   With the real checksum, what the calls compare is what dfs_file_checksum returns for the path,
   and 0 if it is not there.
   */
  lemma {:induction false} ComparedIsPathCrc(files: Files, n: Name)
    ensures SumAt(FileChecksum.FileCrc, files, n)
         == FileChecksum.PathCrc(if n in files then FileChecksum.Readable(files[n]) else FileChecksum.Missing)
    ensures n !in files ==> forall i :: 0 <= i < 32 ==> !SumAt(FileChecksum.FileCrc, files, n)[i]
  {
  }

  /**
   With the real checksum, files in step that differ by a burst of at most 32 bits outside the
   stale bytes are equal.
   */
  lemma {:induction false} InStepCatchesBursts(local: Files, remote: Files, n: Name, lo: nat, k: nat)
    requires InStep(FileChecksum.FileCrc, local, remote) && n in remote && n in local
    requires BurstErrors.DifferOnlyWithin(Crc32.CRC_32, local[n], remote[n], lo, k) && k <= 32
    requires FileChecksum.Chunks(|local[n]|) < FileChecksum.UINT32_RANGE
    requires FileChecksum.StaleTail(local[n]) == FileChecksum.StaleTail(remote[n])
    ensures local[n] == remote[n]
  {
    FileChecksum.FileBurstDetected(local[n], remote[n], lo, k);
  }
}
