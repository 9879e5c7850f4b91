/** The registry of PDF documents: status changes by jobs, superseding, and the commit
    that writes only the rows that changed. */
module PdfRegistry {
  import opened Options

  /** What interruptions and failures leave on an entry. */
  datatype Notes = Notes(lastError: Option<string>, lastFailedAt: Option<string>, lastFailedJob: Option<string>,
                         lastInterruptedAt: Option<string>, lastInterruptedJob: Option<string>)

  const NO_NOTES := Notes(None, None, None, None, None)

  datatype Entry = Entry(hash: string, filename: string, status: string, jobId: string,
                         stagingPath: string, uploadPath: string, processedPath: string,
                         createdAt: string, updatedAt: string, options: map<string, string>,
                         previous: Option<Entry>, notes: Notes)

  type Documents = map<string, Entry>

  datatype FileItem = FileItem(
    hash: string, filename: string, stagingPath: string, uploadPath: string, processedPath: string)

  predicate IsActive(entry: Entry) {
    entry.status == "ingested" || entry.status == "indexed"
  }

  // ---------------------------------------------------------------- one entry

  /** A new queued entry; forcing keeps the entry it replaces. */
  function Queued(item: FileItem, jobId: string, options: map<string, string>, now: string,
                  previous: Option<Entry>): Entry {
    Entry(item.hash, item.filename, "queued", jobId, item.stagingPath, item.uploadPath, item.processedPath,
          now, now, options, previous, NO_NOTES)
  }

  /** The placeholder of a source the registry does not know. */
  function Unknown(hash: string, now: string): Entry {
    Entry(hash, "", "", "", "", "", "", now, now, map[], None, NO_NOTES)
  }

  function Or(error: Option<string>, fallback: string): string {
    if error.Some? && error.value != "" then error.value else fallback
  }

  function Interrupted(entry: Entry, jobId: string, error: Option<string>, now: string): Entry {
    entry.(updatedAt := now, notes := entry.notes.(lastInterruptedJob := Some(jobId), lastInterruptedAt := Some(now),
                                                   lastError := Some(Or(error, "Job interrupted."))))
  }

  function WithPaths(entry: Entry, item: FileItem): Entry {
    entry.(stagingPath := if item.stagingPath != "" then item.stagingPath else entry.stagingPath,
           uploadPath := if item.uploadPath != "" then item.uploadPath else entry.uploadPath,
           processedPath := if item.processedPath != "" then item.processedPath else entry.processedPath)
  }

  /** A job's own entry after the job reports a status for it. */
  function Marked(entry: Entry, item: FileItem, jobId: string, status: string, error: Option<string>,
                  now: string): Entry {
    if status == "interrupted" then
      if entry.previous.Some? then Interrupted(entry.previous.value, jobId, error, now)
      else WithPaths(Interrupted(entry.(status := "interrupted"), jobId, error, now), item)
    else if status == "failed" && IsActive(entry) then
      entry.(updatedAt := now, notes := entry.notes.(lastError := Some(Or(error, "")), lastFailedAt := Some(now)))
    else if status == "failed" && entry.previous.Some? then
      var restored := entry.previous.value;
      restored.(updatedAt := now,
                notes := restored.notes.(lastFailedJob := Some(jobId), lastError := Some(Or(error, ""))))
    else
      var marked := WithPaths(entry.(status := status, updatedAt := now), item);
      var kept := if IsActive(marked) then marked.(previous := None) else marked;
      if Or(error, "") != "" then kept.(notes := kept.notes.(lastError := error)) else kept
  }

  // ---------------------------------------------------------------- whole tables

  function AfterRegister(documents: Documents, jobId: string, files: seq<FileItem>, forced: set<string>,
                         options: map<string, string>, now: string): Documents {
    if files == [] then documents
    else
      var before, item :=
        AfterRegister(documents, jobId, files[..|files| - 1], forced, options, now), files[|files| - 1];
      var previous := if item.hash in before && item.hash in forced then Some(before[item.hash]) else None;
      before[item.hash := Queued(item, jobId, options, now, previous)]
  }

  function At(documents: Documents, key: string): Option<Entry> {
    if key in documents then Some(documents[key]) else None
  }

  /** The last of the first files that has a hash. */
  ghost predicate IsLatest(files: seq<FileItem>, n: nat, hash: string, k: nat) {
    && k < n <= |files| && files[k].hash == hash
    && forall j :: k < j < n ==> files[j].hash != hash
  }

  /** None of the first files has the hash. */
  ghost predicate IsUnnamed(files: seq<FileItem>, n: nat, hash: string) {
    forall k :: 0 <= k < n && k < |files| ==> files[k].hash != hash
  }

  /** A fresh queued entry of a file, whatever it replaced. */
  predicate IsQueuedFor(entry: Entry, item: FileItem, jobId: string, options: map<string, string>, now: string) {
    && entry.hash == item.hash && entry.filename == item.filename
    && entry.status == "queued" && entry.jobId == jobId
    && entry.stagingPath == item.stagingPath
    && entry.uploadPath == item.uploadPath
    && entry.processedPath == item.processedPath
    && entry.createdAt == now && entry.updatedAt == now
    && entry.options == options && entry.notes == NO_NOTES
  }

  /** What stands under a key once the first files are registered: what stood there before
      if none of them has the key, else the entry of the last that has. */
  ghost predicate Stands(stands: Option<Entry>, documents: Documents, jobId: string, files: seq<FileItem>,
                         forced: set<string>, options: map<string, string>, now: string, key: string, n: nat)
    decreases n, 0
  {
    && (IsUnnamed(files, n, key) ==> stands == At(documents, key))
    && forall k: nat :: IsLatest(files, n, key, k) ==>
         stands.Some? && StandsFor(stands.value, documents, jobId, files, forced, options, now, key, k)
  }

  /** The queued entry of a file, which keeps what stood under the key just before the file
      if the key is forced, and nothing otherwise. */
  ghost predicate StandsFor(entry: Entry, documents: Documents, jobId: string, files: seq<FileItem>,
                            forced: set<string>, options: map<string, string>, now: string, key: string, k: nat)
    decreases k, 1
  {
    && k < |files| && IsQueuedFor(entry, files[k], jobId, options, now)
    && if key in forced then Stands(entry.previous, documents, jobId, files, forced, options, now, key, k)
       else entry.previous == None
  }

  function AfterMarks(documents: Documents, jobId: string, files: seq<FileItem>, status: string, error: Option<string>,
                      now: string): Documents {
    if files == [] then documents
    else
      MarkedOne(AfterMarks(documents, jobId, files[..|files| - 1], status, error, now),
                jobId, files[|files| - 1], status, error, now)
  }

  function MarkedOne(documents: Documents, jobId: string, item: FileItem, status: string, error: Option<string>,
                     now: string): Documents {
    if item.hash in documents && documents[item.hash].jobId == jobId
    then documents[item.hash := Marked(documents[item.hash], item, jobId, status, error, now)]
    else documents
  }

  /** The active document of a path: of several, the last in row order. */
  function Winner(documents: Documents, order: seq<string>, path: string): Option<string> {
    if order == [] then None
    else
      var last := order[|order| - 1];
      if last in documents && IsActive(documents[last]) && documents[last].processedPath == path then Some(last)
      else Winner(documents, order[..|order| - 1], path)
  }

  /** Whether another active document owns the entry's path. */
  predicate IsBeaten(documents: Documents, order: seq<string>, key: string)
    requires key in documents
  {
    var path := documents[key].processedPath;
    path != "" && Winner(documents, order, path).Some? && Winner(documents, order, path).value != key
  }

  function Superseded(documents: Documents, order: seq<string>, now: string): Documents {
    map key | key in documents ::
      if IsBeaten(documents, order, key) then documents[key].(status := "superseded", updatedAt := now)
      else documents[key]
  }

  /** The order runs through every document once. */
  ghost predicate Lists(order: seq<string>, documents: Documents) {
    && (forall key :: key in documents <==> key in order)
    && (forall i, j :: 0 <= i < j < |order| ==> order[i] != order[j])
  }

  function AfterMark(documents: Documents, order: seq<string>, jobId: string, files: seq<FileItem>, status: string,
                     error: Option<string>, now: string, later: string): Documents {
    Superseded(AfterMarks(documents, jobId, files, status, error, now), order, later)
  }

  function AfterInterrupt(documents: Documents, jobId: string, hashes: seq<string>, error: Option<string>,
                          now: string): Documents {
    if hashes == [] then documents
    else
      var before := AfterInterrupt(documents, jobId, hashes[..|hashes| - 1], error, now);
      InterruptedOne(before, jobId, hashes[|hashes| - 1], error, now)
  }

  function InterruptedOne(documents: Documents, jobId: string, hash: string, error: Option<string>,
                          now: string): Documents {
    if hash == "" then documents
    else
      var entry := if hash in documents then documents[hash] else Unknown(hash, now);
      documents[hash := Interrupted(entry, jobId, error, now)]
  }

  /** The notes an interruption leaves: its own, over those of earlier failures. */
  predicate NotesInterruption(before: Notes, after: Notes, jobId: string, error: Option<string>, now: string) {
    && after.lastInterruptedJob == Some(jobId) && after.lastInterruptedAt == Some(now)
    && after.lastFailedAt == before.lastFailedAt && after.lastFailedJob == before.lastFailedJob
    && after.lastError == if error.Some? && error.value != "" then error else Some("Job interrupted.")
  }

  /** The blank entry of a source nothing was known of. */
  predicate IsPlaceholder(entry: Entry, hash: string, now: string) {
    && entry.hash == hash && entry.filename == "" && entry.status == "" && entry.jobId == ""
    && entry.stagingPath == "" && entry.uploadPath == "" && entry.processedPath == ""
    && entry.createdAt == now && entry.options == map[] && entry.previous == None
  }

  /** What interrupting leaves under a key: what was there unless it is named, else an
      entry with the notes of the interruption, a placeholder if there was none. */
  predicate Interrupts(before: Option<Entry>, after: Option<Entry>, key: string, named: bool, jobId: string,
                       error: Option<string>, now: string) {
    if !named || key == "" then after == before
    else
      && after.Some? && after.value.updatedAt == now
      && NotesInterruption(if before.Some? then before.value.notes else NO_NOTES, after.value.notes,
                           jobId, error, now)
      && if before.None? then IsPlaceholder(after.value, key, now)
         else after.value == before.value.(updatedAt := now, notes := after.value.notes)
  }

  function AfterDelete(documents: Documents, hash: string): Documents {
    if hash == "" then documents else documents - {hash}
  }

  // ---------------------------------------------------------------- commit

  predicate Same(a: Documents, b: Documents, key: string) {
    (key in a <==> key in b) && (key in a && key in b ==> a[key] == b[key])
  }

  /** The rows after committing the difference between two snapshots. */
  function Committed(rows: Documents, before: Documents, state: Documents): Documents {
    (map key | key in rows && (key in before ==> key in state) :: rows[key])
    + (map key | key in state && (key in before ==> before[key] != state[key]) :: state[key])
  }

  lemma CommittedAt(rows: Documents, before: Documents, state: Documents, key: string)
    ensures Same(Committed(rows, before, state), if Same(before, state, key) then rows else state, key)
  {
  }

  ghost predicate AgreesWhereUnchanged(rows: Documents, before: Documents, state: Documents) {
    forall key :: Same(before, state, key) ==> Same(rows, state, key)
  }

  lemma SameEverywhere(a: Documents, b: Documents)
    requires forall key :: Same(a, b, key)
    ensures a == b
  {
    assert forall key :: key in a ==> Same(a, b, key);
    assert forall key :: key in b ==> Same(a, b, key);
  }

  /** The commit leaves the table as a full rewrite would exactly when the table agrees
      with the snapshot on everything the operation left alone. */
  lemma CommitIsRewrite(rows: Documents, before: Documents, state: Documents)
    ensures Committed(rows, before, state) == state <==> AgreesWhereUnchanged(rows, before, state)
  {
    hide Committed, Same;
    var after := Committed(rows, before, state);
    if after == state {
      forall key | Same(before, state, key) ensures Same(rows, state, key) {
        CommittedAt(rows, before, state, key);
        SameFlips(after, rows, key);
      }
    }
    if AgreesWhereUnchanged(rows, before, state) {
      forall key ensures Same(after, state, key) {
        CommittedAt(rows, before, state, key);
        if Same(before, state, key) { SameChains(after, rows, state, key); }
      }
      SameEverywhere(after, state);
    }
  }

  lemma SameFlips(a: Documents, b: Documents, key: string)
    ensures Same(a, b, key) <==> Same(b, a, key)
  {
  }

  lemma SameChains(a: Documents, b: Documents, c: Documents, key: string)
    requires Same(a, b, key) && Same(b, c, key)
    ensures Same(a, c, key)
  {
  }

  /** What another process wrote since the snapshot survives wherever this operation
      changed nothing. */
  lemma CommitKeepsOthers(rows: Documents, before: Documents, state: Documents, key: string)
    requires Same(before, state, key)
    ensures Same(Committed(rows, before, state), rows, key)
  {
    hide Committed;
    CommittedAt(rows, before, state, key);
  }

  // ---------------------------------------------------------------- the program

  /** The registry over its table of rows. */
  class Registry {
    var rows: Documents
    var version: nat

    constructor ()
      ensures rows == map[] && version == 0
    {
      rows, version := map[], 0;
    }

    /** Writes the changed rows and deletions in one transaction that bumps the version. */
    method CommitChanged(before: Documents, state: Documents)
      modifies this
      ensures rows == Committed(old(rows), before, state)
      ensures version == old(version) + if before == state then 0 else 1
    {
      var changed := map key | key in state && (key in before ==> before[key] != state[key]) :: state[key];
      var deleted := set key | key in before && key !in state;
      NothingToCommit(before, state, changed, deleted);
      if changed != map[] || deleted != {} {
        rows := (map key | key in rows && key !in deleted :: rows[key]) + changed;
        version := version + 1;
      }
      CommittedByDiff(old(rows), before, state, changed, deleted);
    }

    method RegisterQueued(jobId: string, files: seq<FileItem>, forced: set<string>,
                         options: map<string, string>, now: string)
      modifies this
      ensures rows == AfterRegister(old(rows), jobId, files, forced, options, now)
      ensures forall key :: Stands(At(rows, key), old(rows), jobId, files, forced, options, now, key, |files|)
    {
      var documents := rows;
      for i: nat := 0 to |files|
        invariant documents == AfterRegister(rows, jobId, files[..i], forced, options, now) && rows == old(rows)
      {
        assert files[..i + 1][..i] == files[..i];
        hide Queued;
        var item := files[i];
        var previous := if item.hash in documents && item.hash in forced then Some(documents[item.hash]) else None;
        documents := documents[item.hash := Queued(item, jobId, options, now, previous)];
      }
      assert files[..|files|] == files;
      CommitFresh(rows, documents);
      CommitChanged(rows, documents);
      hide Stands, AfterRegister, At;
      forall key ensures Stands(At(rows, key), old(rows), jobId, files, forced, options, now, key, |files|) {
        RegistersAll(old(rows), jobId, files, forced, options, now, key);
      }
    }

    method MarkJobStatus(order: seq<string>, jobId: string, files: seq<FileItem>, status: string, error: Option<string>,
                         now: string, later: string)
      requires Lists(order, rows)
      modifies this
      ensures rows == AfterMark(old(rows), order, jobId, files, status, error, now, later)
    {
      var state := rows;
      for i: nat := 0 to |files|
        invariant state == AfterMarks(rows, jobId, files[..i], status, error, now) && rows == old(rows)
      {
        assert files[..i + 1][..i] == files[..i];
        hide Marked;
        var item := files[i];
        if item.hash in state && state[item.hash].jobId == jobId {
          state := state[item.hash := Marked(state[item.hash], item, jobId, status, error, now)];
        }
      }
      assert files[..|files|] == files;
      hide AfterMarks, Lists;
      MarksKeepKeys(rows, jobId, files, status, error, now);
      ListsSame(order, rows, state);
      state := SupersedeSameProcessedPaths(state, order, later);
      CommitFresh(rows, state);
      CommitChanged(rows, state);
    }

    method MarkSourcesInterrupted(jobId: string, hashes: seq<string>, error: Option<string>, now: string)
      modifies this
      ensures rows == AfterInterrupt(old(rows), jobId, hashes, error, now)
      ensures forall key :: Interrupts(At(old(rows), key), At(rows, key), key, key in hashes, jobId, error, now)
    {
      var state := rows;
      for i: nat := 0 to |hashes|
        invariant state == AfterInterrupt(rows, jobId, hashes[..i], error, now) && rows == old(rows)
      {
        assert hashes[..i + 1][..i] == hashes[..i];
        hide Interrupted;
        if hashes[i] != "" {
          var entry := if hashes[i] in state then state[hashes[i]]
                       else Unknown(hashes[i], now);
          state := state[hashes[i] := Interrupted(entry, jobId, error, now)];
        }
      }
      assert hashes[..|hashes|] == hashes;
      CommitFresh(rows, state);
      CommitChanged(rows, state);
      hide AfterInterrupt, Interrupts, At;
      forall key
        ensures Interrupts(At(old(rows), key), At(rows, key), key, key in hashes, jobId, error, now)
      {
        InterruptsAll(old(rows), jobId, hashes, error, now, key);
      }
    }

    method DeleteSource(hash: string) returns (victim: Option<Entry>)
      modifies this
      ensures rows == AfterDelete(old(rows), hash)
      ensures forall key :: key in rows <==> key in old(rows) && (hash != "" ==> key != hash)
      ensures forall key :: key in rows ==> rows[key] == old(rows)[key]
      ensures victim == if hash != "" && hash in old(rows) then Some(old(rows)[hash]) else None
    {
      if hash == "" { return None; }
      victim := if hash in rows then Some(rows[hash]) else None;
      var documents := rows - {hash};
      var before := if victim.Some? then documents[hash := victim.value] else documents;
      assert before == rows;
      CommitFresh(rows, documents);
      CommitChanged(before, documents);
    }
  }

  lemma FrontAlike(files: seq<FileItem>, key: string, n: nat, front: nat)
    requires n <= front <= |files|
    ensures IsUnnamed(files, n, key) ==> IsUnnamed(files[..front], n, key)
    ensures forall k: nat :: IsLatest(files, n, key, k) ==> IsLatest(files[..front], n, key, k)
  {
  }

  /** What stands after the first files depends on those alone. */
  lemma {:induction false} StandsInFront(stands: Option<Entry>, documents: Documents, jobId: string,
                                         files: seq<FileItem>, forced: set<string>, options: map<string, string>,
                                         now: string, key: string, n: nat, front: nat)
    requires n <= front <= |files|
    requires Stands(stands, documents, jobId, files[..front], forced, options, now, key, n)
    ensures Stands(stands, documents, jobId, files, forced, options, now, key, n)
    decreases n
  {
    FrontAlike(files, key, n, front);
    hide IsQueuedFor, At, IsUnnamed;
    forall k: nat | IsLatest(files, n, key, k)
      ensures StandsFor(stands.value, documents, jobId, files, forced, options, now, key, k)
    {
      assert StandsFor(stands.value, documents, jobId, files[..front], forced, options, now, key, k);
      if key in forced {
        StandsInFront(stands.value.previous, documents, jobId, files, forced, options, now, key, k, front);
      }
    }
    hide IsLatest, StandsFor;
  }

  lemma LatestOther(files: seq<FileItem>, key: string, n: nat, m: nat)
    requires m == n + 1 <= |files| && files[n].hash != key
    ensures IsUnnamed(files, m, key) ==> IsUnnamed(files, n, key)
    ensures forall k: nat :: IsLatest(files, m, key, k) ==> IsLatest(files, n, key, k)
  {
  }

  /** Another key's file leaves what stands. */
  lemma StandsOther(stands: Option<Entry>, documents: Documents, jobId: string, files: seq<FileItem>,
                    forced: set<string>, options: map<string, string>, now: string, key: string, n: nat, m: nat)
    requires m == n + 1 <= |files| && files[n].hash != key
    requires Stands(stands, documents, jobId, files, forced, options, now, key, n)
    ensures Stands(stands, documents, jobId, files, forced, options, now, key, m)
  {
    LatestOther(files, key, n, m);
    hide IsLatest, IsUnnamed, StandsFor, At;
  }

  /** The key's own file replaces it. */
  lemma StandsOwn(entry: Entry, documents: Documents, jobId: string, files: seq<FileItem>, forced: set<string>,
                  options: map<string, string>, now: string, key: string, n: nat)
    requires n < |files| && files[n].hash == key
    requires StandsFor(entry, documents, jobId, files, forced, options, now, key, n)
    ensures Stands(Some(entry), documents, jobId, files, forced, options, now, key, n + 1)
  {
    hide StandsFor, At;
    assert !IsUnnamed(files, n + 1, key);
    hide IsUnnamed;
    forall k: nat | IsLatest(files, n + 1, key, k)
      ensures StandsFor(entry, documents, jobId, files, forced, options, now, key, k)
    {
      assert k >= n;
    }
    hide IsLatest;
  }

  lemma RegisterLast(documents: Documents, jobId: string, files: seq<FileItem>, forced: set<string>,
                     options: map<string, string>, now: string, key: string)
    requires files != []
    ensures var n := |files| - 1;
            var stands := At(AfterRegister(documents, jobId, files[..n], forced, options, now), key);
            var after := At(AfterRegister(documents, jobId, files, forced, options, now), key);
            && (files[n].hash != key ==> after == stands)
            && (files[n].hash == key ==>
                  && after.Some? && IsQueuedFor(after.value, files[n], jobId, options, now)
                  && after.value.previous == if key in forced then stands else None)
  {
  }

  /** Registering leaves under every key exactly what should stand there. */
  lemma {:induction false} RegistersAll(documents: Documents, jobId: string, files: seq<FileItem>,
                                        forced: set<string>, options: map<string, string>, now: string, key: string)
    ensures Stands(At(AfterRegister(documents, jobId, files, forced, options, now), key),
                   documents, jobId, files, forced, options, now, key, |files|)
  {
    if files != [] {
      var n := |files| - 1;
      RegistersAll(documents, jobId, files[..n], forced, options, now, key);
      RegisterLast(documents, jobId, files, forced, options, now, key);
      hide AfterRegister, Stands, At, IsQueuedFor;
      var stands := At(AfterRegister(documents, jobId, files[..n], forced, options, now), key);
      StandsInFront(stands, documents, jobId, files, forced, options, now, key, n, n);
      var after := At(AfterRegister(documents, jobId, files, forced, options, now), key);
      if files[n].hash == key {
        assert StandsFor(after.value, documents, jobId, files, forced, options, now, key, n);
        StandsOwn(after.value, documents, jobId, files, forced, options, now, key, n);
      } else {
        StandsOther(stands, documents, jobId, files, forced, options, now, key, n, n + 1);
      }
    }
  }

  lemma InterruptsAgain(before: Option<Entry>, after: Entry, more: Entry, key: string, jobId: string,
                        error: Option<string>, now: string)
    requires key != "" && Interrupts(before, Some(after), key, true, jobId, error, now)
    requires Interrupts(Some(after), Some(more), key, true, jobId, error, now)
    ensures Interrupts(before, Some(more), key, true, jobId, error, now)
  {
  }

  lemma InterruptsNext(documents: Documents, jobId: string, hash: string, error: Option<string>, now: string,
                       key: string)
    ensures Interrupts(At(documents, key), At(InterruptedOne(documents, jobId, hash, error, now), key), key,
                       key == hash, jobId, error, now)
  {
  }

  /** Interrupting sources leaves under every key exactly what it should. */
  lemma {:induction false} InterruptsAll(documents: Documents, jobId: string, hashes: seq<string>,
                                         error: Option<string>, now: string, key: string)
    ensures Interrupts(At(documents, key), At(AfterInterrupt(documents, jobId, hashes, error, now), key), key,
                       key in hashes, jobId, error, now)
  {
    if hashes != [] {
      var front, last := hashes[..|hashes| - 1], hashes[|hashes| - 1];
      assert hashes == front + [last];
      var middle := AfterInterrupt(documents, jobId, front, error, now);
      var after := AfterInterrupt(documents, jobId, hashes, error, now);
      InterruptsAll(documents, jobId, front, error, now, key);
      InterruptsNext(middle, jobId, last, error, now, key);
      hide InterruptedOne, AfterInterrupt, NotesInterruption, IsPlaceholder, At;
      if key != "" && key in front && key == last {
        InterruptsAgain(At(documents, key), At(middle, key).value, At(after, key).value, key, jobId, error, now);
      }
    }
  }

  lemma NothingToCommit(before: Documents, state: Documents, changed: Documents, deleted: set<string>)
    requires changed == map key | key in state && (key in before ==> before[key] != state[key]) :: state[key]
    requires deleted == set key | key in before && key !in state
    ensures changed == map[] && deleted == {} <==> before == state
  {
    if changed == map[] && deleted == {} {
      forall key ensures Same(before, state, key) {
        assert key !in changed && key !in deleted;
      }
      SameEverywhere(before, state);
    }
  }

  lemma CommittedByDiff(rows: Documents, before: Documents, state: Documents, changed: Documents, deleted: set<string>)
    requires changed == map key | key in state && (key in before ==> before[key] != state[key]) :: state[key]
    requires deleted == set key | key in before && key !in state
    ensures (map key | key in rows && key !in deleted :: rows[key]) + changed == Committed(rows, before, state)
    ensures changed == map[] && deleted == {} ==> rows == Committed(rows, before, state)
  {
    var kept := map key | key in rows && key !in deleted :: rows[key];
    assert kept == map key | key in rows && (key in before ==> key in state) :: rows[key];
    if changed == map[] && deleted == {} { assert kept == rows; }
  }

  lemma CommitFresh(rows: Documents, state: Documents)
    ensures Committed(rows, rows, state) == state
  {
    hide Committed, Same;
    CommitIsRewrite(rows, rows, state);
  }

  lemma {:induction false} MarksKeepKeys(documents: Documents, jobId: string, files: seq<FileItem>, status: string,
                                         error: Option<string>, now: string)
    ensures AfterMarks(documents, jobId, files, status, error, now).Keys == documents.Keys
  {
    hide Marked;
    if files != [] { MarksKeepKeys(documents, jobId, files[..|files| - 1], status, error, now); }
  }

  lemma ListsSame(order: seq<string>, a: Documents, b: Documents)
    requires Lists(order, a) && a.Keys == b.Keys
    ensures Lists(order, b)
  {
    forall key ensures key in b <==> key in order { assert key in a <==> key in b.Keys; }
  }

  function Found(owners: map<string, string>, path: string): Option<string> {
    if path in owners then Some(owners[path]) else None
  }

  ghost predicate OwnersOf(owners: map<string, string>, documents: Documents, order: seq<string>) {
    forall path :: path != "" ==> Found(owners, path) == Winner(documents, order, path)
  }

  method ActiveByPath(documents: Documents, order: seq<string>) returns (owners: map<string, string>)
    requires Lists(order, documents)
    ensures OwnersOf(owners, documents, order)
  {
    owners := map[];
    for i: nat := 0 to |order|
      invariant OwnersOf(owners, documents, order[..i])
    {
      assert order[..i + 1][..i] == order[..i];
      assert order[i] in order;
      var entry := documents[order[i]];
      if entry.processedPath != "" && IsActive(entry) {
        owners := owners[entry.processedPath := order[i]];
      }
    }
    assert order[..|order|] == order;
  }

  /** The table with the first documents already dealt with. */
  ghost predicate DoneFor(state: Documents, documents: Documents, order: seq<string>, done: seq<string>, now: string) {
    && state.Keys == documents.Keys
    && forall key :: key in documents ==>
         state[key] == if key in done then Superseded(documents, order, now)[key] else documents[key]
  }

  lemma AllDone(state: Documents, documents: Documents, order: seq<string>, now: string)
    requires Lists(order, documents) && DoneFor(state, documents, order, order, now)
    ensures state == Superseded(documents, order, now)
  {
    hide Winner;
    forall key | key in documents ensures state[key] == Superseded(documents, order, now)[key] {
      assert key in order;
    }
  }

  lemma DoneStep(state: Documents, documents: Documents, order: seq<string>, done: seq<string>, now: string,
                 key: string)
    requires DoneFor(state, documents, order, done, now) && key in documents && key !in done
    ensures key in state && state[key] == documents[key]
    ensures DoneFor(if IsBeaten(documents, order, key)
                    then state[key := state[key].(status := "superseded", updatedAt := now)] else state,
                    documents, order, done + [key], now)
  {
    hide Winner;
    assert Superseded(documents, order, now)[key] ==
           if IsBeaten(documents, order, key) then documents[key].(status := "superseded", updatedAt := now)
             else documents[key];
    hide Superseded, IsBeaten;
  }

  /** Marks every document whose path belongs to a different active document. */
  method SupersedeSameProcessedPaths(documents: Documents, order: seq<string>, now: string) returns (state: Documents)
    requires Lists(order, documents)
    ensures state == Superseded(documents, order, now)
  {
    var activeByPath := ActiveByPath(documents, order);
    state := documents;
    hide Winner, Superseded;
    for i: nat := 0 to |order|
      invariant DoneFor(state, documents, order, order[..i], now)
    {
      assert order[i] in order && order[i] !in order[..i];
      var key, path := order[i], documents[order[i]].processedPath;
      assert order[..i + 1] == order[..i] + [key];
      assert path != "" ==> Found(activeByPath, path) == Winner(documents, order, path);
      assert IsBeaten(documents, order, key) <==> path != "" && path in activeByPath && activeByPath[path] != key;
      hide OwnersOf, DoneFor, IsBeaten;
      DoneStep(state, documents, order, order[..i], now, key);
      if path != "" && path in activeByPath && activeByPath[path] != key {
        state := state[key := state[key].(status := "superseded", updatedAt := now)];
      }
    }
    assert order[..|order|] == order;
    AllDone(state, documents, order, now);
  }

  // ---------------------------------------------------------------- one active document a path

  ghost predicate OneActive(documents: Documents) {
    forall a, b :: a in documents && b in documents && BothActive(documents, a, b) ==> a == b
  }

  /** Two keys hold active documents of one non-empty path. */
  predicate BothActive(documents: Documents, a: string, b: string)
    requires a in documents && b in documents
  {
    IsActive(documents[a]) && IsActive(documents[b])
    && documents[a].processedPath == documents[b].processedPath != ""
  }

  lemma {:induction false} WinnerFacts(documents: Documents, order: seq<string>, path: string, key: string)
    requires key in order && key in documents && IsActive(documents[key]) && documents[key].processedPath == path
    ensures Winner(documents, order, path).Some?
  {
    var front, last := order[..|order| - 1], order[|order| - 1];
    assert order == front + [last];
    if key != last { WinnerFacts(documents, front, path, key); }
  }

  lemma {:induction false} WinnerIsActive(documents: Documents, order: seq<string>, path: string)
    requires Winner(documents, order, path).Some?
    ensures var key := Winner(documents, order, path).value;
            key in order && key in documents && IsActive(documents[key]) && documents[key].processedPath == path
  {
    var front, last := order[..|order| - 1], order[|order| - 1];
    assert order == front + [last];
    if !(last in documents && IsActive(documents[last]) && documents[last].processedPath == path) {
      WinnerIsActive(documents, front, path);
    }
  }

  /** Superseding leaves at most one active document a path, from any table. */
  lemma SupersedeMakesOneActive(documents: Documents, order: seq<string>, now: string)
    requires Lists(order, documents)
    ensures OneActive(Superseded(documents, order, now))
  {
    hide Winner;
    var after := Superseded(documents, order, now);
    forall a, b | a in after && b in after && BothActive(after, a, b) ensures a == b {
      assert !IsBeaten(documents, order, a) && !IsBeaten(documents, order, b);
      WinnerFacts(documents, order, documents[a].processedPath, a);
    }
  }

  /** No path loses its last active document by superseding. */
  lemma SupersedeKeepsWinner(documents: Documents, order: seq<string>, now: string, key: string)
    requires Lists(order, documents) && key in documents && IsActive(documents[key])
             && documents[key].processedPath != ""
    ensures var winner := Winner(documents, order, documents[key].processedPath);
            && winner.Some? && winner.value in documents
            && Superseded(documents, order, now)[winner.value] == documents[winner.value]
            && IsActive(documents[winner.value])
            && documents[winner.value].processedPath == documents[key].processedPath
  {
    hide Winner;
    WinnerFacts(documents, order, documents[key].processedPath, key);
    WinnerIsActive(documents, order, documents[key].processedPath);
  }

  // ---------------------------------------------------------------- runs

  datatype Operation =
    | Register(jobId: string, files: seq<FileItem>, forced: set<string>, options: map<string, string>, now: string)
    | Mark(order: seq<string>, jobId: string, files: seq<FileItem>, status: string, error: Option<string>,
      now: string, later: string)
    | Interrupt(jobId: string, hashes: seq<string>, error: Option<string>, now: string)
    | Delete(hash: string)

  function After(operation: Operation, rows: Documents): Documents {
    match operation
    case Register(jobId, files, forced, options, now) => AfterRegister(rows, jobId, files, forced, options, now)
    case Mark(order, jobId, files, status, error, now, later) =>
      AfterMark(rows, order, jobId, files, status, error, now, later)
    case Interrupt(jobId, hashes, error, now) => AfterInterrupt(rows, jobId, hashes, error, now)
    case Delete(hash) => AfterDelete(rows, hash)
  }

  function Run(operations: seq<Operation>): Documents {
    if operations == [] then map[] else After(operations[|operations| - 1], Run(operations[..|operations| - 1]))
  }

  /** Marking reads the rows in some order of the table. */
  ghost predicate Orderly(operations: seq<Operation>) {
    forall i :: 0 <= i < |operations| ==> OrderlyAt(operations, i)
  }

  ghost predicate OrderlyAt(operations: seq<Operation>, i: nat)
    requires i < |operations|
  {
    operations[i].Mark? ==> Lists(operations[i].order, Run(operations[..i]))
  }

  lemma PutInactive(documents: Documents, key: string, entry: Entry)
    requires OneActive(documents) && !IsActive(entry)
    ensures OneActive(documents[key := entry])
  {
    var after := documents[key := entry];
    forall a, b | a in after && b in after && BothActive(after, a, b) ensures a == b {
      assert BothActive(documents, a, b);
    }
  }

  lemma PutAlike(documents: Documents, key: string, entry: Entry)
    requires OneActive(documents) && key in documents
    requires entry.status == documents[key].status && entry.processedPath == documents[key].processedPath
    ensures OneActive(documents[key := entry])
  {
    var after := documents[key := entry];
    forall a, b | a in after && b in after && BothActive(after, a, b) ensures a == b {
      assert BothActive(documents, a, b);
    }
  }

  lemma {:induction false} RegisterKeepsOneActive(documents: Documents, jobId: string, files: seq<FileItem>,
                                                  forced: set<string>, options: map<string, string>, now: string)
    requires OneActive(documents)
    ensures OneActive(AfterRegister(documents, jobId, files, forced, options, now))
  {
    hide OneActive;
    if files != [] {
      var before, item :=
        AfterRegister(documents, jobId, files[..|files| - 1], forced, options, now), files[|files| - 1];
      RegisterKeepsOneActive(documents, jobId, files[..|files| - 1], forced, options, now);
      PutInactive(before, item.hash,
                  Queued(item, jobId, options, now,
                         if item.hash in before && item.hash in forced then Some(before[item.hash]) else None));
    }
  }

  lemma {:induction false} InterruptKeepsOneActive(documents: Documents, jobId: string, hashes: seq<string>,
                                                   error: Option<string>, now: string)
    requires OneActive(documents)
    ensures OneActive(AfterInterrupt(documents, jobId, hashes, error, now))
  {
    hide OneActive;
    if hashes != [] {
      var before, hash := AfterInterrupt(documents, jobId, hashes[..|hashes| - 1], error, now), hashes[|hashes| - 1];
      InterruptKeepsOneActive(documents, jobId, hashes[..|hashes| - 1], error, now);
      if hash in before {
        PutAlike(before, hash, Interrupted(before[hash], jobId, error, now));
      } else {
        PutInactive(before, hash, Interrupted(Unknown(hash, now), jobId, error, now));
      }
    }
  }

  lemma DeleteKeepsOneActive(documents: Documents, hash: string)
    requires OneActive(documents)
    ensures OneActive(AfterDelete(documents, hash))
  {
    var after := AfterDelete(documents, hash);
    forall a, b | a in after && b in after && BothActive(after, a, b) ensures a == b {
      assert BothActive(documents, a, b);
    }
  }

  lemma MarkMakesOneActive(rows: Documents, order: seq<string>, jobId: string, files: seq<FileItem>, status: string,
                           error: Option<string>, now: string, later: string)
    requires Lists(order, rows)
    ensures OneActive(AfterMark(rows, order, jobId, files, status, error, now, later))
  {
    hide AfterMarks, OneActive, Superseded, Lists;
    MarksKeepKeys(rows, jobId, files, status, error, now);
    ListsSame(order, rows, AfterMarks(rows, jobId, files, status, error, now));
    SupersedeMakesOneActive(AfterMarks(rows, jobId, files, status, error, now), order, later);
  }

  /** No operation makes two active documents of one path. */
  lemma AfterKeepsOneActive(operation: Operation, rows: Documents)
    requires OneActive(rows) && (operation.Mark? ==> Lists(operation.order, rows))
    ensures OneActive(After(operation, rows))
  {
    hide OneActive, AfterRegister, AfterMark, AfterInterrupt, AfterDelete, Lists;
    match operation {
      case Register(jobId, files, forced, options, now) =>
        RegisterKeepsOneActive(rows, jobId, files, forced, options, now);
      case Mark(order, jobId, files, status, error, now, later) =>
        MarkMakesOneActive(rows, order, jobId, files, status, error, now, later);
      case Interrupt(jobId, hashes, error, now) => InterruptKeepsOneActive(rows, jobId, hashes, error, now);
      case Delete(hash) => DeleteKeepsOneActive(rows, hash);
    }
  }

  /** From an empty registry no run ever has two active documents of one path. */
  lemma {:induction false} RunsKeepOneActive(operations: seq<Operation>)
    requires Orderly(operations)
    ensures OneActive(Run(operations))
  {
    if operations != [] {
      var before, last := operations[..|operations| - 1], operations[|operations| - 1];
      OrderlyBefore(operations);
      RunsKeepOneActive(before);
      assert OrderlyAt(operations, |operations| - 1);
      hide OneActive, Orderly, After;
      AfterKeepsOneActive(last, Run(before));
    }
  }

  lemma OrderlyBefore(operations: seq<Operation>)
    requires Orderly(operations) && operations != []
    ensures Orderly(operations[..|operations| - 1])
  {
    hide Run, Lists;
    var before := operations[..|operations| - 1];
    forall i | 0 <= i < |before| ensures OrderlyAt(before, i) {
      assert OrderlyAt(operations, i) && before[..i] == operations[..i];
    }
  }
}
