/**
 The server's write locks under interleaved requests: every client has at most one request
 in flight, and each step below is one uninterrupted stretch of a handler.
 */
module DfsLocks {
  import opened DfsTransfer
  import opened DfsNodes

  /** Where a client's request stands. `todo` is what its stream still holds, `offset` the bytes written so far. */
  datatype Session =
    | Idle
    | Streaming(name: Name, image: File, todo: seq<File>)
    | Locked(name: Name, image: File, todo: seq<File>)
    | Same(name: Name, image: File)
    | Differs(name: Name, image: File, todo: seq<File>)
    | Open(name: Name, image: File, todo: seq<File>, offset: nat, linked: bool)
    | Removed(name: Name)
    | DeleteLocked(name: Name)

  /** How a file that is not the whole image of a store came about. */
  datatype Cause = ByCancel | ByCut | Matched

  datatype State = State(
    files: Files, locks: Locks, sessions: map<ClientId, Session>,
    images: set<(Name, File)>,    // every file there at the start and every image a store has set out to write
    partial: map<Name, Cause>)    // what interrupted stores have left behind

  datatype Step =
    | StoreBegin(client: ClientId, name: Name, image: File)
    | StoreLock(client: ClientId)
    | StoreCompare(client: ClientId)
    | StoreUnchanged(client: ClientId)
    | StoreOpen(client: ClientId)
    | StoreWrite(client: ClientId)
    | StoreEnd(client: ClientId)
    | StoreEmpty(client: ClientId)
    | StoreCancel(client: ClientId)
    | StoreCut(client: ClientId)
    | RequestLock(client: ClientId, name: Name)
    | DeleteBegin(client: ClientId, name: Name)
    | DeleteLock(client: ClientId)
    | DeleteUnlock(client: ClientId)

  function SessionOf(s: State, client: ClientId): Session {
    if client in s.sessions then s.sessions[client] else Idle
  }

  predicate Enabled(s: State, step: Step) {
    var now := SessionOf(s, step.client);
    match step
    case StoreBegin(_, name, _) => now.Idle? && name != ""
    case StoreLock(_) => now.Streaming? && now.todo != []
    case StoreCompare(_) => now.Locked?
    case StoreUnchanged(_) => now.Same?
    case StoreOpen(_) => now.Differs?
    case StoreWrite(_) => now.Open? && now.todo != []
    case StoreEnd(_) => now.Open? && now.todo == []
    case StoreEmpty(_) => now.Streaming? && now.todo == []
    case StoreCancel(_) => (now.Streaming? && now.todo != []) || (now.Open? && now.todo != [] && now.offset > 0)
    case StoreCut(_) => (now.Streaming? && now.todo != []) || (now.Open? && now.todo != [] && now.offset > 0)
    case RequestLock(_, name) => now.Idle?
    case DeleteBegin(_, name) => now.Idle? && name != ""
    case DeleteLock(_) => now.Removed?
    case DeleteUnlock(_) => now.DeleteLocked?
  }

  function With(s: State, client: ClientId, session: Session): State {
    s.(sessions := s.sessions[client := session])
  }

  /** A stream that was writing to a removed file goes on writing to a file without a name. */
  function Unlinked(session: Session, name: Name): Session {
    if session.Open? && session.name == name then session.(linked := false) else session
  }

  function UnlinkedAll(sessions: map<ClientId, Session>, name: Name): map<ClientId, Session> {
    map c | c in sessions :: Unlinked(sessions[c], name)
  }

  /** A store that stops short leaves its file behind. */
  function Abandoned(s: State, client: ClientId, cause: Cause): State
    requires SessionOf(s, client).Open?
  {
    var now := SessionOf(s, client);
    With(s, client, Idle).(partial := if now.linked then s.partial[now.name := cause] else s.partial)
  }

  function Next(sum: Checksum, s: State, step: Step): State
    requires Enabled(s, step)
  {
    var c := step.client;
    var now := SessionOf(s, c);
    match step
    case StoreBegin(_, name, image) =>
      With(s, c, Streaming(name, image, Chunks(image))).(images := s.images + {(name, image)})
    case StoreLock(_) =>
      if MayLock(s.locks, now.name, c) then
        With(s, c, Locked(now.name, now.image, now.todo)).(locks := s.locks[now.name := c])
      else With(s, c, Idle)
    case StoreCompare(_) =>
      if SumAt(sum, s.files, now.name) == sum(now.image) then With(s, c, Same(now.name, now.image))
      else With(s, c, Differs(now.name, now.image, now.todo))
    case StoreUnchanged(_) =>
      With(s, c, Idle).(
        locks := s.locks - {now.name},
        partial := if now.name in s.partial then s.partial[now.name := Matched] else s.partial)
    case StoreOpen(_) =>
      With(s, c, Open(now.name, now.image, now.todo, 0, true)).(
        files := s.files[now.name := []], partial := s.partial - {now.name})
    case StoreWrite(_) =>
      With(s, c, now.(todo := now.todo[1..], offset := now.offset + |now.todo[0]|)).(
        files := if now.linked && now.name in s.files
                 then s.files[now.name := WriteAt(s.files[now.name], now.offset, now.todo[0])] else s.files)
    case StoreEnd(_) => With(s, c, Idle).(locks := s.locks - {now.name})
    case StoreEmpty(_) => With(s, c, Idle).(locks := s.locks - {""})
    case StoreCancel(_) => if now.Open? then Abandoned(s, c, ByCancel) else With(s, c, Idle)
    case StoreCut(_) =>
      if now.Open? then Abandoned(s, c, ByCut).(locks := s.locks - {now.name})
        else With(s, c, Idle).(locks := s.locks - {""})
    case RequestLock(_, name) => if MayLock(s.locks, name, c) then s.(locks := s.locks[name := c]) else s
    case DeleteBegin(_, name) =>
      if name !in s.files then s
      else s.(files := s.files - {name}, partial := s.partial - {name},
              sessions := UnlinkedAll(s.sessions, name)[c := Removed(name)])
    case DeleteLock(_) =>
      if MayLock(s.locks, now.name, c) then With(s, c, DeleteLocked(now.name)).(locks := s.locks[now.name := c])
      else With(s, c, Idle)
    case DeleteUnlock(_) => With(s, c, Idle).(locks := s.locks - {now.name})
  }

  // ---------------------------------------------------------------- the invariant

  /** The requests that act on a name only under its lock. */
  predicate UnderLock(session: Session) {
    session.Locked? || session.Same? || session.Differs? || session.Open? || session.DeleteLocked?
  }

  predicate Holds(locks: Locks, client: ClientId, name: Name) {
    name in locks && locks[name] == client
  }

  ghost predicate Stores(images: set<(Name, File)>, session: Session) {
    session.Streaming? || session.Locked? || session.Same? || session.Differs? || session.Open? ==>
      && (session.name, session.image) in images
      && (session.Streaming? || session.Locked? || session.Differs? ==> session.todo == Chunks(session.image))
      && (session.Locked? || session.Differs? ==> session.todo != [])
  }

  /** A stream in progress has written a beginning of its image, and holds the rest. */
  predicate Writing(files: Files, partial: map<Name, Cause>, session: Session) {
    session.Open? ==>
      && session.offset <= |session.image| && session.todo == Chunks(session.image[session.offset..])
      && (session.linked ==>
          session.name in files && files[session.name] == session.image[..session.offset] && session.name !in partial)
      && (!session.linked ==> session.name !in files)
  }

  predicate SessionOk(sum: Checksum, s: State, c: ClientId, session: Session) {
    && (!session.Idle? ==> session.name != "")
    && (UnderLock(session) ==> Holds(s.locks, c, session.name))
    && Writing(s.files, s.partial, session)
    && (session.Same? && session.name in s.files ==> sum(s.files[session.name]) == sum(session.image))
    && (session.Removed? && Holds(s.locks, c, session.name) ==> session.name !in s.files)
    && (session.DeleteLocked? && session.name in s.partial ==> !s.partial[session.name].ByCancel?)
  }

  /** Some stream is writing to the file. */
  predicate BeingWritten(s: State, name: Name) {
    name in s.locks && var w := SessionOf(s, s.locks[name]); w.Open? && w.name == name && w.linked
  }

  ghost predicate SameChecksumAsAnImage(sum: Checksum, s: State, name: Name)
    requires name in s.files
  {
    exists image :: (name, image) in s.images && sum(image) == sum(s.files[name])
  }

  /** Part of an image: its beginning, neither empty nor whole. */
  ghost predicate IsBeginning(images: set<(Name, File)>, name: Name, file: File) {
    file != [] && exists image :: (name, image) in images && file < image
  }

  ghost predicate FileOk(sum: Checksum, s: State, name: Name)
    requires name in s.files
  {
    if name !in s.partial then BeingWritten(s, name) || (name, s.files[name]) in s.images
    else match s.partial[name]
      case ByCancel => name in s.locks && IsBeginning(s.images, name, s.files[name])
      case Matched => SameChecksumAsAnImage(sum, s, name)
      case ByCut => IsBeginning(s.images, name, s.files[name])
  }

  ghost predicate Inv(sum: Checksum, s: State) {
    && "" !in s.files
    && s.partial.Keys <= s.files.Keys
    && (forall c :: c in s.sessions ==> SessionOk(sum, s, c, s.sessions[c]) && Stores(s.images, s.sessions[c]))
    && (forall n :: n in s.files ==> FileOk(sum, s, n))
  }

  // ---------------------------------------------------------------- every step keeps it

  /** The same at one name, as far as another client's request can tell. */
  lemma {:induction false} OtherSession(sum: Checksum, s: State, s': State, c: ClientId, session: Session)
    requires SessionOk(sum, s, c, session)
    requires !session.Idle?
    requires SameAt(s'.files, s.files, session.name) && SameAt(s'.locks, s.locks, session.name)
             && SameAt(s'.partial, s.partial, session.name)
    ensures SessionOk(sum, s', c, session)
  {
  }

  /** Nothing but client c's request and what the server keeps under name n has changed. */
  ghost predicate OnlyAt(s: State, s': State, c: ClientId, n: Name) {
    && (forall m :: m != n ==>
        SameAt(s'.files, s.files, m) && SameAt(s'.locks, s.locks, m) && SameAt(s'.partial, s.partial, m))
    && s.images <= s'.images
    && c in s'.sessions
    && (forall d :: d != c ==> SameAt(s'.sessions, s.sessions, d))
    && (SessionOf(s, c).Idle? || SessionOf(s, c).name == n)
  }

  lemma {:induction false} FileKept(sum: Checksum, s: State, s': State, c: ClientId, n: Name, m: Name)
    requires OnlyAt(s, s', c, n) && m != n && m in s.files && FileOk(sum, s, m)
    ensures m in s'.files && FileOk(sum, s', m)
  {
    assert SameAt(s'.files, s.files, m) && SameAt(s'.locks, s.locks, m) && SameAt(s'.partial, s.partial, m);
    if m !in s.partial {
      if BeingWritten(s, m) {
        assert s.locks[m] != c;
        assert SameAt(s'.sessions, s.sessions, s.locks[m]);
      }
    } else if s.partial[m].Matched? {
      var image :| (m, image) in s.images && sum(image) == sum(s.files[m]);
      assert (m, image) in s'.images;
    } else {
      var image :| (m, image) in s.images && s.files[m] < image;
      assert (m, image) in s'.images;
    }
  }

  /** To check a step: the client's own request, the other requests on that name, and the file there. */
  lemma {:induction false} Assemble(sum: Checksum, s: State, s': State, c: ClientId, n: Name)
    requires Inv(sum, s) && OnlyAt(s, s', c, n)
    requires SessionOk(sum, s', c, s'.sessions[c]) && Stores(s'.images, s'.sessions[c])
    requires forall d :: d in s.sessions && d != c && !s.sessions[d].Idle? && s.sessions[d].name == n ==>
             SessionOk(sum, s', d, s.sessions[d])
    requires n in s'.files ==> n != "" && FileOk(sum, s', n)
    requires n in s'.partial ==> n in s'.files
    ensures Inv(sum, s')
  {
    assert SameAt(s'.files, s.files, "") || n == "";
    forall d | d in s'.sessions && d != c ensures SessionOk(sum, s', d, s'.sessions[d])
      && Stores(s'.images, s'.sessions[d]) {
      assert SameAt(s'.sessions, s.sessions, d);
      var session := s.sessions[d];
      if !session.Idle? && session.name != n {
        assert SameAt(s'.files, s.files, session.name);
        OtherSession(sum, s, s', d, session);
      }
    }
    forall m | m in s'.files ensures FileOk(sum, s', m) {
      if m != n {
        assert SameAt(s'.files, s.files, m);
        FileKept(sum, s, s', c, n, m);
      }
    }
    forall m | m in s'.partial ensures m in s'.files {
      if m != n {
        assert SameAt(s'.files, s.files, m) && SameAt(s'.partial, s.partial, m);
      }
    }
  }

  /** Writing the next chunk at the running offset extends the written beginning of the image. */
  lemma {:induction false} WriteAdvances(image: File, todo: seq<File>, offset: nat)
    requires offset <= |image| && todo != [] && todo == Chunks(image[offset..])
    ensures 0 < |todo[0]| && offset + |todo[0]| <= |image| && todo[1..] == Chunks(image[offset + |todo[0]|..])
    ensures WriteAt(image[..offset], offset, todo[0]) == image[..offset + |todo[0]|]
  {
    var k := |todo[0]|;
    assert todo[0] == image[offset..][..k] && todo[1..] == Chunks(image[offset..][k..]);
    assert image[offset..][k..] == image[offset + k..];
    assert image[..offset + k] == image[..offset] + image[offset..][..k];
  }

  lemma {:induction false} StoreBeginKeeps(sum: Checksum, s: State, c: ClientId, name: Name, image: File)
    requires Inv(sum, s) && Enabled(s, StoreBegin(c, name, image))
    ensures Inv(sum, Next(sum, s, StoreBegin(c, name, image)))
  {
  }

  lemma {:induction false} StoreLockKeeps(sum: Checksum, s: State, c: ClientId)
    requires Inv(sum, s) && Enabled(s, StoreLock(c))
    ensures Inv(sum, Next(sum, s, StoreLock(c)))
  {
    Assemble(sum, s, Next(sum, s, StoreLock(c)), c, SessionOf(s, c).name);
  }

  lemma {:induction false} StoreCompareKeeps(sum: Checksum, s: State, c: ClientId)
    requires Inv(sum, s) && Enabled(s, StoreCompare(c))
    ensures Inv(sum, Next(sum, s, StoreCompare(c)))
  {
    Assemble(sum, s, Next(sum, s, StoreCompare(c)), c, SessionOf(s, c).name);
  }

  lemma {:induction false} StoreUnchangedKeeps(sum: Checksum, s: State, c: ClientId)
    requires Inv(sum, s) && Enabled(s, StoreUnchanged(c))
    ensures Inv(sum, Next(sum, s, StoreUnchanged(c)))
  {
    Assemble(sum, s, Next(sum, s, StoreUnchanged(c)), c, SessionOf(s, c).name);
  }

  lemma {:induction false} StoreOpenKeeps(sum: Checksum, s: State, c: ClientId)
    requires Inv(sum, s) && Enabled(s, StoreOpen(c))
    ensures Inv(sum, Next(sum, s, StoreOpen(c)))
  {
    var now := SessionOf(s, c);
    assert now.image[0..] == now.image && now.image[..0] == [];
    Assemble(sum, s, Next(sum, s, StoreOpen(c)), c, now.name);
  }

  lemma {:induction false} StoreWriteKeeps(sum: Checksum, s: State, c: ClientId)
    requires Inv(sum, s) && Enabled(s, StoreWrite(c))
    ensures Inv(sum, Next(sum, s, StoreWrite(c)))
  {
    var now := SessionOf(s, c);
    WriteAdvances(now.image, now.todo, now.offset);
    Assemble(sum, s, Next(sum, s, StoreWrite(c)), c, now.name);
  }

  lemma {:induction false} StoreEndKeeps(sum: Checksum, s: State, c: ClientId)
    requires Inv(sum, s) && Enabled(s, StoreEnd(c))
    ensures Inv(sum, Next(sum, s, StoreEnd(c)))
  {
    var now := SessionOf(s, c);
    assert now.offset == |now.image| && now.image[..now.offset] == now.image;
    Assemble(sum, s, Next(sum, s, StoreEnd(c)), c, now.name);
  }

  /** A stream that ends before its first message gives back the lock on the empty name. */
  lemma {:induction false} NothingStored(sum: Checksum, s: State, c: ClientId)
    requires Inv(sum, s) && SessionOf(s, c).Streaming?
    ensures Inv(sum, With(s, c, Idle).(locks := s.locks - {""}))
  {
    var u := With(s, c, Idle);
    Assemble(sum, s, u, c, SessionOf(s, c).name);
    Assemble(sum, u, u.(locks := s.locks - {""}), c, "");
  }

  lemma {:induction false} StoreEmptyKeeps(sum: Checksum, s: State, c: ClientId)
    requires Inv(sum, s) && Enabled(s, StoreEmpty(c))
    ensures Inv(sum, Next(sum, s, StoreEmpty(c)))
  {
    NothingStored(sum, s, c);
  }

  lemma {:induction false} StoreCancelKeeps(sum: Checksum, s: State, c: ClientId)
    requires Inv(sum, s) && Enabled(s, StoreCancel(c))
    ensures Inv(sum, Next(sum, s, StoreCancel(c)))
  {
    Assemble(sum, s, Next(sum, s, StoreCancel(c)), c, SessionOf(s, c).name);
  }

  lemma {:induction false} StoreCutKeeps(sum: Checksum, s: State, c: ClientId)
    requires Inv(sum, s) && Enabled(s, StoreCut(c))
    ensures Inv(sum, Next(sum, s, StoreCut(c)))
  {
    if SessionOf(s, c).Streaming? {
      NothingStored(sum, s, c);
    } else {
      Assemble(sum, s, Next(sum, s, StoreCut(c)), c, SessionOf(s, c).name);
    }
  }

  lemma {:induction false} RequestLockKeeps(sum: Checksum, s: State, c: ClientId, name: Name)
    requires Inv(sum, s) && Enabled(s, RequestLock(c, name))
    ensures Inv(sum, Next(sum, s, RequestLock(c, name)))
  {
  }

  /** Removing a file keeps every request in order: streams into it lose their name. */
  lemma {:induction false} RemoveKeeps(sum: Checksum, s: State, name: Name)
    requires Inv(sum, s) && name != ""
    ensures Inv(sum,
                s.(files := s.files - {name}, partial := s.partial - {name}, sessions := UnlinkedAll(s.sessions, name)))
  {
    var s' := s.(files := s.files - {name}, partial := s.partial - {name}, sessions := UnlinkedAll(s.sessions, name));
    forall d | d in s'.sessions ensures SessionOk(sum, s', d, s'.sessions[d]) && Stores(s'.images, s'.sessions[d]) {
      var session := s.sessions[d];
      if !session.Idle? && session.name != name {
        OtherSession(sum, s, s', d, session);
      }
    }
    forall m | m in s'.files ensures FileOk(sum, s', m) {
      assert FileOk(sum, s, m) && m != name;
    }
  }

  lemma {:induction false} DeleteBeginKeeps(sum: Checksum, s: State, c: ClientId, name: Name)
    requires Inv(sum, s) && Enabled(s, DeleteBegin(c, name))
    ensures Inv(sum, Next(sum, s, DeleteBegin(c, name)))
  {
    if name in s.files {
      var u := s.(files := s.files - {name}, partial := s.partial - {name}, sessions := UnlinkedAll(s.sessions, name));
      RemoveKeeps(sum, s, name);
      Assemble(sum, u, With(u, c, Removed(name)), c, name);
    }
  }

  lemma {:induction false} DeleteLockKeeps(sum: Checksum, s: State, c: ClientId)
    requires Inv(sum, s) && Enabled(s, DeleteLock(c))
    ensures Inv(sum, Next(sum, s, DeleteLock(c)))
  {
    Assemble(sum, s, Next(sum, s, DeleteLock(c)), c, SessionOf(s, c).name);
  }

  lemma {:induction false} DeleteUnlockKeeps(sum: Checksum, s: State, c: ClientId)
    requires Inv(sum, s) && Enabled(s, DeleteUnlock(c))
    ensures Inv(sum, Next(sum, s, DeleteUnlock(c)))
  {
    Assemble(sum, s, Next(sum, s, DeleteUnlock(c)), c, SessionOf(s, c).name);
  }

  lemma {:induction false} StepKeeps(sum: Checksum, s: State, step: Step)
    requires Inv(sum, s) && Enabled(s, step)
    ensures Inv(sum, Next(sum, s, step))
  {
    match step
    case StoreBegin(c, name, image) => StoreBeginKeeps(sum, s, c, name, image);
    case StoreLock(c) => StoreLockKeeps(sum, s, c);
    case StoreCompare(c) => StoreCompareKeeps(sum, s, c);
    case StoreUnchanged(c) => StoreUnchangedKeeps(sum, s, c);
    case StoreOpen(c) => StoreOpenKeeps(sum, s, c);
    case StoreWrite(c) => StoreWriteKeeps(sum, s, c);
    case StoreEnd(c) => StoreEndKeeps(sum, s, c);
    case StoreEmpty(c) => StoreEmptyKeeps(sum, s, c);
    case StoreCancel(c) => StoreCancelKeeps(sum, s, c);
    case StoreCut(c) => StoreCutKeeps(sum, s, c);
    case RequestLock(c, name) => RequestLockKeeps(sum, s, c, name);
    case DeleteBegin(c, name) => DeleteBeginKeeps(sum, s, c, name);
    case DeleteLock(c) => DeleteLockKeeps(sum, s, c);
    case DeleteUnlock(c) => DeleteUnlockKeeps(sum, s, c);
  }
}
