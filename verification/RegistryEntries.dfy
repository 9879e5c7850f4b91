/** What registering and a job's reports leave in the registry, field by field. */
module RegistryEntries {
  import opened Options
  import opened PdfRegistry

  // ---------------------------------------------------------------- registering

  /** A key is known afterwards exactly if it was before or a file has it; it then has the
      entry of the last such file, which keeps a replaced entry exactly if the key is forced
      and an entry stood there just before. */
  lemma RegistersExactly(documents: Documents, jobId: string, files: seq<FileItem>, forced: set<string>,
                         options: map<string, string>, now: string, key: string)
    ensures var after := AfterRegister(documents, jobId, files, forced, options, now);
            && (key in after <==> key in documents || !IsUnnamed(files, |files|, key))
            && (IsUnnamed(files, |files|, key) ==> At(after, key) == At(documents, key))
            && forall k: nat :: IsLatest(files, |files|, key, k) ==>
                 && key in after && IsQueuedFor(after[key], files[k], jobId, options, now)
                 && (after[key].previous.Some? <==>
                     key in forced && (key in documents || !IsUnnamed(files, k, key)))
  {
    RegistersAll(documents, jobId, files, forced, options, now, key);
    hide AfterRegister, IsQueuedFor;
    var after := AfterRegister(documents, jobId, files, forced, options, now);
    var k := LatestOrUnnamed(files, |files|, key);
    forall k: nat | IsLatest(files, |files|, key, k)
      ensures && key in after && IsQueuedFor(after[key], files[k], jobId, options, now)
              && (after[key].previous.Some? <==> key in forced && (key in documents || !IsUnnamed(files, k, key)))
    {
      assert StandsFor(after[key], documents, jobId, files, forced, options, now, key, k);
      if key in forced { StandsIff(after[key].previous, documents, jobId, files, forced, options, now, key, k); }
    }
    hide Stands, IsLatest, IsUnnamed;
  }

  /** Some one of the first files is the last with the hash, or none has it. */
  lemma {:induction false} LatestOrUnnamed(files: seq<FileItem>, n: nat, hash: string) returns (k: nat)
    requires n <= |files|
    ensures IsUnnamed(files, n, hash) != IsLatest(files, n, hash, k)
  {
    k := 0;
    if n > 0 {
      if files[n - 1].hash == hash {
        k := n - 1;
      } else {
        k := LatestOrUnnamed(files, n - 1, hash);
      }
    }
  }

  lemma StandsIff(stands: Option<Entry>, documents: Documents, jobId: string, files: seq<FileItem>,
                  forced: set<string>, options: map<string, string>, now: string, key: string, n: nat)
    requires n <= |files| && Stands(stands, documents, jobId, files, forced, options, now, key, n)
    ensures stands.Some? <==> key in documents || !IsUnnamed(files, n, key)
  {
    var k := LatestOrUnnamed(files, n, key);
    hide IsUnnamed, IsLatest, StandsFor;
  }

  // ---------------------------------------------------------------- a job's report

  /** Only the status, the paths, the replaced entry, the notes and the time may differ. */
  predicate KeepsOrigin(before: Entry, after: Entry) {
    && after.hash == before.hash && after.filename == before.filename && after.jobId == before.jobId
    && after.createdAt == before.createdAt && after.options == before.options
  }

  /** The paths reported that are not empty, else those before. */
  predicate TakesPaths(before: Entry, after: Entry, item: FileItem) {
    && after.stagingPath == (if item.stagingPath == "" then before.stagingPath else item.stagingPath)
    && after.uploadPath == (if item.uploadPath == "" then before.uploadPath else item.uploadPath)
    && after.processedPath == (if item.processedPath == "" then before.processedPath else item.processedPath)
  }

  predicate KeepsPaths(before: Entry, after: Entry) {
    && after.stagingPath == before.stagingPath && after.uploadPath == before.uploadPath
    && after.processedPath == before.processedPath
  }

  predicate HasError(error: Option<string>) {
    error.Some? && error.value != ""
  }

  /** The error reported, or a text that stands for none. */
  predicate TakesError(after: Notes, error: Option<string>, none: string) {
    after.lastError == if HasError(error) then error else Some(none)
  }

  predicate KeepsFailure(before: Notes, after: Notes) {
    after.lastFailedAt == before.lastFailedAt && after.lastFailedJob == before.lastFailedJob
  }

  predicate KeepsInterruption(before: Notes, after: Notes) {
    after.lastInterruptedAt == before.lastInterruptedAt && after.lastInterruptedJob == before.lastInterruptedJob
  }

  /** An interruption brings the replaced entry back, or marks the entry as interrupted. */
  predicate ReportsInterruption(before: Entry, after: Entry, item: FileItem, jobId: string, error: Option<string>,
                                now: string) {
    var origin := if before.previous.Some? then before.previous.value else before;
    && KeepsOrigin(origin, after) && after.previous == origin.previous
    && NotesInterruption(origin.notes, after.notes, jobId, error, now)
    && if before.previous.Some? then after.status == origin.status && KeepsPaths(origin, after)
       else after.status == "interrupted" && TakesPaths(before, after, item)
  }

  /** An active entry stays active when its job fails, and only notes the failure. */
  predicate ReportsFailureOfActive(before: Entry, after: Entry, error: Option<string>, now: string) {
    && KeepsOrigin(before, after) && KeepsPaths(before, after)
    && after.status == before.status && after.previous == before.previous
    && TakesError(after.notes, error, "") && KeepsInterruption(before.notes, after.notes)
    && after.notes.lastFailedAt == Some(now) && after.notes.lastFailedJob == before.notes.lastFailedJob
  }

  /** A failure brings the replaced entry back, with a note of the job. */
  predicate ReportsFailureOfForced(before: Entry, after: Entry, jobId: string, error: Option<string>)
    requires before.previous.Some?
  {
    var origin := before.previous.value;
    && KeepsOrigin(origin, after) && KeepsPaths(origin, after)
    && after.status == origin.status && after.previous == origin.previous
    && TakesError(after.notes, error, "") && KeepsInterruption(origin.notes, after.notes)
    && after.notes.lastFailedJob == Some(jobId) && after.notes.lastFailedAt == origin.notes.lastFailedAt
  }

  /** Any other report sets the status, the paths and the error, and an entry that turns
      active forgets the one it replaced. */
  predicate ReportsStatus(before: Entry, after: Entry, item: FileItem, status: string, error: Option<string>) {
    && KeepsOrigin(before, after) && TakesPaths(before, after, item)
    && after.status == status
    && after.previous == (if status == "ingested" || status == "indexed" then None else before.previous)
    && after.notes.lastError == (if HasError(error) then error else before.notes.lastError)
    && KeepsFailure(before.notes, after.notes) && KeepsInterruption(before.notes, after.notes)
  }

  predicate Reports(before: Entry, after: Entry, item: FileItem, jobId: string, status: string,
                    error: Option<string>, now: string) {
    && after.updatedAt == now
    && if status == "interrupted" then ReportsInterruption(before, after, item, jobId, error, now)
       else if status == "failed" && (before.status == "ingested" || before.status == "indexed")
       then ReportsFailureOfActive(before, after, error, now)
       else if status == "failed" && before.previous.Some? then ReportsFailureOfForced(before, after, jobId, error)
       else ReportsStatus(before, after, item, status, error)
  }

  /** What one reported file does under a key: a job's own entry takes the report, anything
      else stays. */
  predicate ReportsAt(before: Option<Entry>, after: Option<Entry>, key: string, item: FileItem, jobId: string,
                      status: string, error: Option<string>, now: string) {
    if item.hash == key && before.Some? && before.value.jobId == jobId
    then after.Some? && Reports(before.value, after.value, item, jobId, status, error, now)
    else after == before
  }

  /** A report does to each of a job's entries what its files say, one after another. */
  ghost predicate Follows(states: seq<Option<Entry>>, key: string, jobId: string, files: seq<FileItem>,
                          status: string, error: Option<string>, now: string) {
    && |states| == |files| + 1
    && forall i :: 0 <= i < |files| ==>
         ReportsAt(states[i], states[i + 1], key, files[i], jobId, status, error, now)
  }

  lemma MarkedInterrupted(entry: Entry, item: FileItem, jobId: string, error: Option<string>, now: string)
    ensures var after := Marked(entry, item, jobId, "interrupted", error, now);
            after.updatedAt == now && ReportsInterruption(entry, after, item, jobId, error, now)
  {
  }

  lemma MarkedFailed(entry: Entry, item: FileItem, jobId: string, error: Option<string>, now: string)
    requires IsActive(entry) || entry.previous.Some?
    ensures var after := Marked(entry, item, jobId, "failed", error, now);
            && after.updatedAt == now
            && if IsActive(entry) then ReportsFailureOfActive(entry, after, error, now)
               else ReportsFailureOfForced(entry, after, jobId, error)
  {
  }

  lemma MarkedOtherwise(entry: Entry, item: FileItem, jobId: string, status: string, error: Option<string>,
                        now: string)
    requires status != "interrupted" && (status == "failed" ==> !IsActive(entry) && entry.previous.None?)
    ensures var after := Marked(entry, item, jobId, status, error, now);
            after.updatedAt == now && ReportsStatus(entry, after, item, status, error)
  {
  }

  /** A job's own entry takes the report. */
  lemma MarkedReports(entry: Entry, item: FileItem, jobId: string, status: string, error: Option<string>, now: string)
    ensures Reports(entry, Marked(entry, item, jobId, status, error, now), item, jobId, status, error, now)
  {
    hide Marked, ReportsInterruption, ReportsFailureOfActive, ReportsFailureOfForced, ReportsStatus;
    if status == "interrupted" {
      MarkedInterrupted(entry, item, jobId, error, now);
    } else if status == "failed" && (IsActive(entry) || entry.previous.Some?) {
      MarkedFailed(entry, item, jobId, error, now);
    } else {
      MarkedOtherwise(entry, item, jobId, status, error, now);
    }
  }

  lemma MarksNext(documents: Documents, jobId: string, item: FileItem, status: string, error: Option<string>,
                  now: string, key: string)
    ensures ReportsAt(At(documents, key), At(MarkedOne(documents, jobId, item, status, error, now), key),
                      key, item, jobId, status, error, now)
  {
    hide Marked, Reports;
    if key in documents { MarkedReports(documents[key], item, jobId, status, error, now); }
  }

  /** The states of a key's entry while a report goes through its files. */
  lemma {:induction false} MarksFollow(documents: Documents, jobId: string, files: seq<FileItem>, status: string,
                                       error: Option<string>, now: string, key: string)
    returns (states: seq<Option<Entry>>)
    ensures Follows(states, key, jobId, files, status, error, now)
    ensures states[0] == At(documents, key)
    ensures states[|files|] == At(AfterMarks(documents, jobId, files, status, error, now), key)
  {
    if files == [] {
      states := [At(documents, key)];
    } else {
      var front, last := files[..|files| - 1], files[|files| - 1];
      var before := AfterMarks(documents, jobId, front, status, error, now);
      states := MarksFollow(documents, jobId, front, status, error, now, key);
      MarksNext(before, jobId, last, status, error, now, key);
      hide MarkedOne, ReportsAt, At;
      states := states + [At(AfterMarks(documents, jobId, files, status, error, now), key)];
      assert files == front + [last];
    }
  }

  /** A file reported on alone leaves its entry as the report says, the rest of the table
      as it was. */
  lemma ReportsOne(documents: Documents, jobId: string, item: FileItem, status: string, error: Option<string>,
                   now: string, key: string)
    ensures ReportsAt(At(documents, key), At(AfterMarks(documents, jobId, [item], status, error, now), key),
                      key, item, jobId, status, error, now)
  {
    var states := MarksFollow(documents, jobId, [item], status, error, now, key);
    hide ReportsAt, AfterMarks;
    assert ReportsAt(states[0], states[1], key, [item][0], jobId, status, error, now);
  }
}
