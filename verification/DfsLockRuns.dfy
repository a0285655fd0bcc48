/**
 What the write locks guarantee over every run of interleaved requests.
 */
module DfsLockRuns {
  import opened DfsTransfer
  import opened DfsNodes
  import opened DfsLocks

  predicate Legal(sum: Checksum, s: State, steps: seq<Step>)
    decreases |steps|
  {
    steps == [] || (Enabled(s, steps[0]) && Legal(sum, Next(sum, s, steps[0]), steps[1..]))
  }

  function After(sum: Checksum, s: State, steps: seq<Step>): State
    requires Legal(sum, s, steps)
    decreases |steps|
  {
    if steps == [] then s else After(sum, Next(sum, s, steps[0]), steps[1..])
  }

  /** A server that has just been started over some directory. */
  function Started(files: Files): State {
    State(files, map[], map[], set n | n in files :: (n, files[n]), map[])
  }

  lemma {:induction false} RunKeeps(sum: Checksum, s: State, steps: seq<Step>)
    requires Inv(sum, s) && Legal(sum, s, steps)
    ensures Inv(sum, After(sum, s, steps))
    decreases |steps|
  {
    if steps != [] {
      StepKeeps(sum, s, steps[0]);
      RunKeeps(sum, Next(sum, s, steps[0]), steps[1..]);
    }
  }

  lemma {:induction false} StartedInv(sum: Checksum, files: Files)
    requires "" !in files
    ensures Inv(sum, Started(files))
  {
    var s := Started(files);
    forall n | n in files ensures FileOk(sum, s, n) {
      assert (n, files[n]) in s.images;
    }
  }

  // ---------------------------------------------------------------- who writes

  /** No two clients are ever inside the locked part of a store or a delete of the same file. */
  lemma {:induction false} OneWriter(sum: Checksum, files: Files, steps: seq<Step>, c: ClientId, d: ClientId)
    requires "" !in files && Legal(sum, Started(files), steps)
    requires var s := After(sum, Started(files), steps);
             && UnderLock(SessionOf(s, c)) && UnderLock(SessionOf(s, d))
             && SessionOf(s, c).name == SessionOf(s, d).name
    ensures c == d
            && Holds(After(sum, Started(files), steps).locks, c, SessionOf(After(sum, Started(files), steps), c).name)
  {
    StartedInv(sum, files);
    RunKeeps(sum, Started(files), steps);
    var s := After(sum, Started(files), steps);
    assert SessionOk(sum, s, c, s.sessions[c]) && SessionOk(sum, s, d, s.sessions[d]);
  }

  // ---------------------------------------------------------------- where images and leftovers come from

  ghost predicate Begun(steps: seq<Step>, name: Name, image: File) {
    exists i, c :: 0 <= i < |steps| && steps[i] == StoreBegin(c, name, image)
  }

  lemma {:induction false} ImageOrigin(sum: Checksum, s: State, steps: seq<Step>, name: Name, image: File)
    requires Legal(sum, s, steps) && (name, image) in After(sum, s, steps).images
    ensures (name, image) in s.images || Begun(steps, name, image)
    decreases |steps|
  {
    if steps != [] {
      var u := Next(sum, s, steps[0]);
      ImageOrigin(sum, u, steps[1..], name, image);
      if Begun(steps[1..], name, image) {
        var i, c :| 0 <= i < |steps[1..]| && steps[1..][i] == StoreBegin(c, name, image);
        assert steps[i + 1] == StoreBegin(c, name, image);
      } else if (name, image) !in s.images {
        assert steps[0] == StoreBegin(steps[0].client, name, image);
      }
    }
  }

  predicate NoCuts(steps: seq<Step>) {
    forall i :: 0 <= i < |steps| ==> !steps[i].StoreCut?
  }

  predicate NoneCut(partial: map<Name, Cause>) {
    forall n :: n in partial ==> !partial[n].ByCut?
  }

  lemma {:induction false} NothingCut(sum: Checksum, s: State, steps: seq<Step>)
    requires Legal(sum, s, steps) && NoCuts(steps) && NoneCut(s.partial)
    ensures NoneCut(After(sum, s, steps).partial)
    decreases |steps|
  {
    if steps != [] {
      assert !steps[0].StoreCut?;
      NothingCut(sum, Next(sum, s, steps[0]), steps[1..]);
    }
  }

  // ---------------------------------------------------------------- what an unlocked file is

  /** The file is there from the start, or is what one store of the run sent. */
  ghost predicate IsImage(files: Files, steps: seq<Step>, name: Name, image: File) {
    (name in files && files[name] == image) || Begun(steps, name, image)
  }

  /** While streams end only when they are done or cancelled, an unlocked file has the checksum of a whole image. */
  lemma {:induction false} UnlockedIsWhole(sum: Checksum, files: Files, steps: seq<Step>, n: Name)
    requires "" !in files && Legal(sum, Started(files), steps) && NoCuts(steps)
    requires var s := After(sum, Started(files), steps); n in s.files && n !in s.locks
    ensures var file := After(sum, Started(files), steps).files[n];
            exists image :: IsImage(files, steps, n, image) && sum(image) == sum(file)
  {
    var s := After(sum, Started(files), steps);
    StartedInv(sum, files);
    RunKeeps(sum, Started(files), steps);
    NothingCut(sum, Started(files), steps);
    assert FileOk(sum, s, n);
    var image: File;
    if n in s.partial {
      image :| (n, image) in s.images && sum(image) == sum(s.files[n]);
    } else {
      image := s.files[n];
    }
    ImageOrigin(sum, Started(files), steps, n, image);
    assert IsImage(files, steps, n, image);
  }

  /** An unlocked file that no interrupted store has left behind is a whole image, byte for byte. */
  lemma {:induction false} UnlockedIsExact(sum: Checksum, files: Files, steps: seq<Step>, n: Name)
    requires "" !in files && Legal(sum, Started(files), steps)
    requires var s := After(sum, Started(files), steps); n in s.files && n !in s.locks && n !in s.partial
    ensures IsImage(files, steps, n, After(sum, Started(files), steps).files[n])
  {
    var s := After(sum, Started(files), steps);
    StartedInv(sum, files);
    RunKeeps(sum, Started(files), steps);
    assert FileOk(sum, s, n);
    ImageOrigin(sum, Started(files), steps, n, s.files[n]);
  }

  /** What a cancelled store leaves behind is a beginning of an image, and stays locked. */
  lemma {:induction false} CancelledStaysLocked(sum: Checksum, files: Files, steps: seq<Step>, n: Name)
    requires "" !in files && Legal(sum, Started(files), steps)
    requires var s := After(sum, Started(files), steps); n in s.partial && s.partial[n].ByCancel?
    ensures var s := After(sum, Started(files), steps);
            n in s.locks && n in s.files && IsBeginningOfImage(files, steps, n, s.files[n])
  {
    StartedInv(sum, files);
    RunKeeps(sum, Started(files), steps);
    var s := After(sum, Started(files), steps);
    assert FileOk(sum, s, n);
    BeginningOrigin(sum, files, steps, n, s.files[n]);
  }

  /** Part of an image that was there or that a store sent, neither empty nor whole. */
  ghost predicate IsBeginningOfImage(files: Files, steps: seq<Step>, name: Name, file: File) {
    file != [] && exists image :: IsImage(files, steps, name, image) && file < image
  }

  lemma {:induction false} BeginningOrigin(sum: Checksum, files: Files, steps: seq<Step>, name: Name, file: File)
    requires Legal(sum, Started(files), steps)
    requires IsBeginning(After(sum, Started(files), steps).images, name, file)
    ensures IsBeginningOfImage(files, steps, name, file)
  {
    var image :| (name, image) in After(sum, Started(files), steps).images && file < image;
    ImageOrigin(sum, Started(files), steps, name, image);
    assert IsImage(files, steps, name, image);
  }

  /**
   Is the file's last interruption a broken-off stream? Opening, deleting or recognising the file
   puts an end to it.
   */
  predicate StillCut(s: State, step: Step, n: Name, was: bool) {
    var now := SessionOf(s, step.client);
    match step
    case StoreCut(_) => (now.Open? && now.linked && now.name == n) || was
    case StoreCancel(_) => was && !(now.Open? && now.linked && now.name == n)
    case StoreOpen(_) => was && !(now.Differs? && now.name == n)
    case StoreUnchanged(_) => was && !(now.Same? && now.name == n)
    case DeleteBegin(_, name) => was && name != n
    case _ => was
  }

  predicate CutLast(sum: Checksum, s: State, steps: seq<Step>, n: Name, was: bool)
    requires Legal(sum, s, steps)
    decreases |steps|
  {
    if steps == [] then was else CutLast(sum, Next(sum, s, steps[0]), steps[1..], n, StillCut(s, steps[0], n, was))
  }

  predicate RecordedCut(s: State, n: Name) {
    n in s.partial && s.partial[n].ByCut?
  }

  lemma {:induction false} StepRecordsCut(sum: Checksum, s: State, step: Step, n: Name)
    requires Inv(sum, s) && Enabled(s, step)
    ensures RecordedCut(Next(sum, s, step), n) <==> StillCut(s, step, n, RecordedCut(s, n))
  {
  }

  lemma {:induction false} RunRecordsCut(sum: Checksum, s: State, steps: seq<Step>, n: Name)
    requires Inv(sum, s) && Legal(sum, s, steps)
    ensures RecordedCut(After(sum, s, steps), n) <==> CutLast(sum, s, steps, n, RecordedCut(s, n))
    decreases |steps|
  {
    if steps != [] {
      StepRecordsCut(sum, s, steps[0], n);
      StepKeeps(sum, s, steps[0]);
      RunRecordsCut(sum, Next(sum, s, steps[0]), steps[1..], n);
    }
  }

  /**
   Over every run, an unlocked file has the checksum of a whole image; or its last interruption
   was a broken-off stream, and then it is a beginning of an image.
   */
  lemma {:induction false} UnlockedFile(sum: Checksum, files: Files, steps: seq<Step>, n: Name)
    requires "" !in files && Legal(sum, Started(files), steps)
    requires var s := After(sum, Started(files), steps); n in s.files && n !in s.locks
    ensures var file := After(sum, Started(files), steps).files[n];
            if CutLast(sum, Started(files), steps, n, false) then IsBeginningOfImage(files, steps, n, file)
            else exists image :: IsImage(files, steps, n, image) && sum(image) == sum(file)
  {
    var s := After(sum, Started(files), steps);
    StartedInv(sum, files);
    RunKeeps(sum, Started(files), steps);
    RunRecordsCut(sum, Started(files), steps, n);
    assert FileOk(sum, s, n);
    if RecordedCut(s, n) {
      BeginningOrigin(sum, files, steps, n, s.files[n]);
    } else {
      var image := s.files[n];
      if n in s.partial {
        image :| (n, image) in s.images && sum(image) == sum(s.files[n]);
      }
      ImageOrigin(sum, Started(files), steps, n, image);
      assert IsImage(files, steps, n, image);
    }
  }

  // ---------------------------------------------------------------- one store by itself

  /** Nobody else's request has moved. */
  ghost predicate SameOthers(s: State, u: State, c: ClientId) {
    forall d :: d != c ==> SessionOf(u, d) == SessionOf(s, d)
  }

  lemma {:induction false} AfterConcat(sum: Checksum, s: State, a: seq<Step>, b: seq<Step>)
    requires Legal(sum, s, a) && Legal(sum, After(sum, s, a), b)
    ensures Legal(sum, s, a + b) && After(sum, s, a + b) == After(sum, After(sum, s, a), b)
    decreases |a|
  {
    if a == [] {
      assert a + b == b;
    } else {
      assert (a + b)[0] == a[0] && (a + b)[1..] == a[1..] + b;
      AfterConcat(sum, Next(sum, s, a[0]), a[1..], b);
    }
  }

  /** The writes of the chunks still to come, and the end of the stream. */
  function Rest(c: ClientId, todo: seq<File>): seq<Step> {
    if todo == [] then [StoreEnd(c)] else [StoreWrite(c)] + Rest(c, todo[1..])
  }

  lemma {:induction false} RestWrites(sum: Checksum, s: State, c: ClientId)
    requires var now := SessionOf(s, c);
             now.Open? && now.linked && Writing(s.files, s.partial, now)
    ensures var now := SessionOf(s, c);
            Legal(sum, s, Rest(c, now.todo)) &&
            After(sum, s, Rest(c, now.todo)) ==
            With(s, c, Idle).(files := s.files[now.name := now.image], locks := s.locks - {now.name})
    decreases |SessionOf(s, c).todo|
  {
    var now := SessionOf(s, c);
    if now.todo == [] {
      assert now.image[..now.offset] == now.image;
      assert s.files[now.name := now.image] == s.files;
      var u := Next(sum, s, StoreEnd(c));
      assert After(sum, u, []) == u;
    } else {
      WriteAdvances(now.image, now.todo, now.offset);
      var u := Next(sum, s, StoreWrite(c));
      RestWrites(sum, u, c);
      assert u.files[now.name := now.image] == s.files[now.name := now.image];
      assert With(u, c, Idle).sessions == With(s, c, Idle).sessions;
      assert Rest(c, now.todo)[0] == StoreWrite(c) && Rest(c, now.todo)[1..] == Rest(c, now.todo[1..]);
    }
  }

  lemma {:induction false} TwoSteps(sum: Checksum, s: State, a: Step, b: Step)
    requires Enabled(s, a) && Enabled(Next(sum, s, a), b)
    ensures Legal(sum, s, [a, b]) && After(sum, s, [a, b]) == Next(sum, Next(sum, s, a), b)
  {
    var u := Next(sum, s, a);
    assert [a, b][1..] == [b] && [b][1..] == [];
    assert Legal(sum, u, [b]) && After(sum, u, [b]) == Next(sum, u, b);
  }

  /** The steps of a store up to where its file is open and empty. */
  function Opening(c: ClientId, name: Name, image: File): seq<Step> {
    [StoreBegin(c, name, image), StoreLock(c)] + [StoreCompare(c), StoreOpen(c)]
  }

  lemma {:induction false} OpeningOpens(sum: Checksum, s: State, c: ClientId, name: Name, image: File)
    requires SessionOf(s, c).Idle? && name != "" && Writes(sum, s.files, s.locks, name, c, image)
    ensures Legal(sum, s, Opening(c, name, image))
    ensures var u := After(sum, s, Opening(c, name, image));
            && u.files == s.files[name := []] && u.locks == s.locks[name := c]
            && SessionOf(u, c) == Open(name, image, Chunks(image), 0, true) && name !in u.partial && SameOthers(s, u, c)
  {
    var s1 := Next(sum, s, StoreBegin(c, name, image));
    assert Chunks(image) != [];
    TwoSteps(sum, s, StoreBegin(c, name, image), StoreLock(c));
    var s2 := Next(sum, s1, StoreLock(c));
    TwoSteps(sum, s2, StoreCompare(c), StoreOpen(c));
    AfterConcat(sum, s, [StoreBegin(c, name, image), StoreLock(c)], [StoreCompare(c), StoreOpen(c)]);
  }

  /** A whole store, taken by itself. */
  function StoreAlone(sum: Checksum, s: State, c: ClientId, name: Name, image: File): seq<Step> {
    if image == [] then [StoreBegin(c, name, image), StoreEmpty(c)]
    else if !MayLock(s.locks, name, c) then [StoreBegin(c, name, image), StoreLock(c)]
    else if SumAt(sum, s.files, name) == sum(image) then
      [StoreBegin(c, name, image), StoreLock(c)] + [StoreCompare(c), StoreUnchanged(c)]
    else Opening(c, name, image) + Rest(c, Chunks(image))
  }

  lemma {:induction false} ShortStore(sum: Checksum, s: State, c: ClientId, name: Name, image: File)
    requires SessionOf(s, c).Idle? && name != "" && !Writes(sum, s.files, s.locks, name, c, image)
    ensures Legal(sum, s, StoreAlone(sum, s, c, name, image))
    ensures var u := After(sum, s, StoreAlone(sum, s, c, name, image));
            && u.files == s.files && u.locks == StoredLocks(s.locks, name, c, image)
            && SessionOf(u, c).Idle? && SameOthers(s, u, c)
  {
    var s1 := Next(sum, s, StoreBegin(c, name, image));
    if image == [] {
      TwoSteps(sum, s, StoreBegin(c, name, image), StoreEmpty(c));
    } else {
      TwoSteps(sum, s, StoreBegin(c, name, image), StoreLock(c));
      if MayLock(s.locks, name, c) {
        var s2 := Next(sum, s1, StoreLock(c));
        TwoSteps(sum, s2, StoreCompare(c), StoreUnchanged(c));
        AfterConcat(sum, s, [StoreBegin(c, name, image), StoreLock(c)], [StoreCompare(c), StoreUnchanged(c)]);
      }
    }
  }

  /** Run without interruption, the steps of a store do to files and locks what storeFile does. */
  lemma {:induction false} StoreAloneStores(sum: Checksum, s: State, c: ClientId, name: Name, image: File)
    requires SessionOf(s, c).Idle? && name != ""
    ensures Legal(sum, s, StoreAlone(sum, s, c, name, image))
    ensures var u := After(sum, s, StoreAlone(sum, s, c, name, image));
            && u.files == Stored(sum, s.files, s.locks, name, c, image)
            && u.locks == StoredLocks(s.locks, name, c, image)
            && SessionOf(u, c).Idle? && SameOthers(s, u, c)
  {
    if Writes(sum, s.files, s.locks, name, c, image) {
      OpeningOpens(sum, s, c, name, image);
      var u := After(sum, s, Opening(c, name, image));
      assert image[0..] == image && image[..0] == [];
      RestWrites(sum, u, c);
      AfterConcat(sum, s, Opening(c, name, image), Rest(c, Chunks(image)));
      assert s.files[name := []][name := image] == s.files[name := image];
      assert s.locks[name := c] - {name} == s.locks - {name};
    } else {
      ShortStore(sum, s, c, name, image);
    }
  }

  // ---------------------------------------------------------------- one delete by itself

  function DeleteAlone(s: State, c: ClientId, name: Name): seq<Step> {
    if name !in s.files then [DeleteBegin(c, name)]
    else if MayLock(s.locks, name, c) then [DeleteBegin(c, name), DeleteLock(c)] + [DeleteUnlock(c)]
    else [DeleteBegin(c, name), DeleteLock(c)]
  }

  /**
   Run without interruption, the steps of a delete do what deleteFile does, and touch no other
   session but streams into the file.
   */
  lemma {:induction false} DeleteAloneDeletes(sum: Checksum, s: State, c: ClientId, name: Name)
    requires SessionOf(s, c).Idle? && name != ""
    ensures Legal(sum, s, DeleteAlone(s, c, name))
    ensures var u := After(sum, s, DeleteAlone(s, c, name));
            && u.files == s.files - {name}
            && u.locks == DeletedLocks(s.files, s.locks, name, c)
            && SessionOf(u, c).Idle?
            && forall d :: d != c ==> SessionOf(u, d) == if name in s.files then Unlinked(SessionOf(s, d), name)
              else SessionOf(s, d)
  {
    var s1 := Next(sum, s, DeleteBegin(c, name));
    if name !in s.files {
      OneStep(sum, s, DeleteBegin(c, name));
    } else {
      TwoSteps(sum, s, DeleteBegin(c, name), DeleteLock(c));
      if MayLock(s.locks, name, c) {
        var s2 := Next(sum, s1, DeleteLock(c));
        OneStep(sum, s2, DeleteUnlock(c));
        AfterConcat(sum, s, [DeleteBegin(c, name), DeleteLock(c)], [DeleteUnlock(c)]);
      }
    }
  }

  lemma {:induction false} OneStep(sum: Checksum, s: State, a: Step)
    requires Enabled(s, a)
    ensures Legal(sum, s, [a]) && After(sum, s, [a]) == Next(sum, s, a)
  {
    assert [a][1..] == [];
  }

  // ---------------------------------------------------------------- lock requests, and stores that stop at once

  /** The requester holds the lock afterwards exactly if it was free or its own already; nothing else changes. */
  lemma {:induction false} RequestLockTakes(sum: Checksum, s: State, c: ClientId, name: Name)
    requires SessionOf(s, c).Idle?
    ensures Enabled(s, RequestLock(c, name))
    ensures var u := Next(sum, s, RequestLock(c, name));
            && (Holds(u.locks, c, name) <==> name !in s.locks || s.locks[name] == c)
            && (!Holds(u.locks, c, name) ==> u.locks == s.locks)
            && (forall n :: n != name ==> SameAt(u.locks, s.locks, n))
            && u.files == s.files && u.sessions == s.sessions
  {
  }

  /** Cancelled or broken off before its first message, a store leaves files and locks alone. */
  lemma {:induction false} StoppedBeforeFirst(sum: Checksum, s: State, c: ClientId, name: Name, image: File, stop: Step)
    requires SessionOf(s, c).Idle? && name != "" && image != [] && (stop == StoreCut(c) || stop == StoreCancel(c))
    ensures Legal(sum, s, [StoreBegin(c, name, image), stop])
    ensures var u := After(sum, s, [StoreBegin(c, name, image), stop]);
            && u.files == s.files && (forall n :: n != "" ==> SameAt(u.locks, s.locks, n))
            && SessionOf(u, c).Idle? && SameOthers(s, u, c)
  {
    assert Chunks(image) != [];
    TwoSteps(sum, s, StoreBegin(c, name, image), stop);
  }

  // ---------------------------------------------------------------- the assumption on streams is needed

  /** The writes of the next j chunks. */
  function SomeWrites(c: ClientId, j: nat): seq<Step> {
    if j == 0 then [] else [StoreWrite(c)] + SomeWrites(c, j - 1)
  }

  /** The store has written k bytes since state s, and some are left. */
  ghost predicate Reached(s: State, u: State, c: ClientId, name: Name, image: File, k: nat) {
    && k < |image|
    && SessionOf(u, c) == Open(name, image, Chunks(image[k..]), k, true)
    && u.files == s.files[name := image[..k]] && u.locks == s.locks && SameOthers(s, u, c)
  }

  lemma {:induction false} WriteReaches(sum: Checksum, s: State, u: State, c: ClientId, name: Name, image: File, k: nat)
    requires Reached(s, u, c, name, image, k) && |Chunks(image[k..])| > 1
    ensures Enabled(u, StoreWrite(c)) && Reached(s, Next(sum, u, StoreWrite(c)), c, name, image, k + READ_LENGTH)
    ensures |Chunks(image[k + READ_LENGTH..])| == |Chunks(image[k..])| - 1
  {
    var todo := Chunks(image[k..]);
    ChunkSizes(image[k..], 0);
    WriteAdvances(image, todo, k);
    assert image[k + READ_LENGTH..] != [];
  }

  lemma {:induction false} SomeWritesReach(sum: Checksum, s: State, u: State, c: ClientId, name: Name, image: File,
                                           k: nat, j: nat, end: nat)
    requires Reached(s, u, c, name, image, k) && j < |Chunks(image[k..])| && end == k + j * READ_LENGTH
    ensures Legal(sum, u, SomeWrites(c, j))
    ensures Reached(s, After(sum, u, SomeWrites(c, j)), c, name, image, end)
    decreases j
  {
    if j > 0 {
      WriteReaches(sum, s, u, c, name, image, k);
      assert SomeWrites(c, j)[0] == StoreWrite(c) && SomeWrites(c, j)[1..] == SomeWrites(c, j - 1);
      SomeWritesReach(sum, s, Next(sum, u, StoreWrite(c)), c, name, image, k + READ_LENGTH, j - 1, end);
    }
  }

  lemma {:induction false} OpeningReaches(sum: Checksum, s: State, c: ClientId, name: Name, image: File)
    requires SessionOf(s, c).Idle? && name != "" && Writes(sum, s.files, s.locks, name, c, image)
    ensures Legal(sum, s, Opening(c, name, image))
    ensures var u := After(sum, s, Opening(c, name, image));
            && u.files == s.files[name := []] && u.locks == s.locks[name := c]
            && Reached(u, u, c, name, image, 0) && SameOthers(s, u, c)
  {
    OpeningOpens(sum, s, c, name, image);
    var files := After(sum, s, Opening(c, name, image)).files;
    assert image[0..] == image && image[..0] == [] && files[name := []] == files;
  }

  /** A store that stops after j of its chunks, cancelled or broken off. */
  function StoppedStore(c: ClientId, name: Name, image: File, j: nat, stop: Step): seq<Step> {
    Opening(c, name, image) + SomeWrites(c, j) + [stop]
  }

  lemma {:induction false} StopLeaves(sum: Checksum, s: State, u: State, c: ClientId, name: Name, image: File, k: nat,
                                      stop: Step)
    requires Reached(s, u, c, name, image, k) && k > 0 && (stop == StoreCut(c) || stop == StoreCancel(c))
    ensures Enabled(u, stop)
    ensures var v := Next(sum, u, stop);
            && v.files == s.files[name := image[..k]]
            && v.locks == (if stop.StoreCut? then s.locks - {name} else s.locks)
            && SessionOf(v, c).Idle? && SameOthers(s, v, c)
  {
  }

  lemma {:induction false} StoppedStoreStops(sum: Checksum, s: State, c: ClientId, name: Name, image: File, j: nat,
                                             stop: Step)
    requires SessionOf(s, c).Idle? && name != "" && Writes(sum, s.files, s.locks, name, c, image)
    requires 0 < j < |Chunks(image)| && (stop == StoreCut(c) || stop == StoreCancel(c))
    ensures Legal(sum, s, StoppedStore(c, name, image, j, stop))
    ensures j * READ_LENGTH < |image|
    ensures var u := After(sum, s, StoppedStore(c, name, image, j, stop));
            && u.files == s.files[name := image[..j * READ_LENGTH]]
            && u.locks == (if stop.StoreCut? then s.locks - {name} else s.locks[name := c])
            && SessionOf(u, c).Idle? && SameOthers(s, u, c)
  {
    var opening, writes := Opening(c, name, image), SomeWrites(c, j);
    OpeningReaches(sum, s, c, name, image);
    assert image[0..] == image;
    var u := After(sum, s, opening);
    SomeWritesReach(sum, u, u, c, name, image, 0, j, j * READ_LENGTH);
    var v := After(sum, u, writes);
    AfterConcat(sum, s, opening, writes);
    StopLeaves(sum, u, v, c, name, image, j * READ_LENGTH, stop);
    OneStep(sum, v, stop);
    AfterConcat(sum, s, opening + writes, [stop]);
    assert s.files[name := []][name := image[..j * READ_LENGTH]] == s.files[name := image[..j * READ_LENGTH]];
    assert s.locks[name := c] - {name} == s.locks - {name};
  }

  /**
   From any state, a store that would write can break off after any number of its chunks but
   the last, and leaves that beginning of its image with the lock given back.
   */
  lemma {:induction false} CutLeavesBeginning(sum: Checksum, s: State, c: ClientId, name: Name, image: File, j: nat)
    requires SessionOf(s, c).Idle? && name != "" && Writes(sum, s.files, s.locks, name, c, image)
    requires 0 < j < |Chunks(image)|
    ensures j * READ_LENGTH < |image| && Legal(sum, s, StoppedStore(c, name, image, j, StoreCut(c)))
    ensures var u := After(sum, s, StoppedStore(c, name, image, j, StoreCut(c)));
            u.files == s.files[name := image[..j * READ_LENGTH]] && u.locks == s.locks - {name}
  {
    StoppedStoreStops(sum, s, c, name, image, j, StoreCut(c));
  }
}
