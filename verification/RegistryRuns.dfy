/** What jobs do to each other's registry entries, and processes to each other's commits. */
module RegistryRuns {
  import opened Options
  import opened PdfRegistry

  // ---------------------------------------------------------------- who is beaten

  /** Another active document of the entry's path, later in row order if the entry is
      active itself. */
  ghost predicate Rivals(documents: Documents, order: seq<string>, key: string, other: string)
    requires key in documents
  {
    && other in documents && other != key && IsActive(documents[other])
    && documents[other].processedPath == documents[key].processedPath != ""
    && (IsActive(documents[key]) ==> ComesBefore(order, key, other))
  }

  ghost predicate ComesBefore(order: seq<string>, a: string, b: string) {
    exists i, j :: 0 <= i < j < |order| && order[i] == a && order[j] == b
  }

  predicate Claims(documents: Documents, key: string, path: string) {
    key in documents && IsActive(documents[key]) && documents[key].processedPath == path
  }

  /** The winner of a path stands at or after every claimant. */
  lemma {:induction false} WinnerIsLast(documents: Documents, order: seq<string>, path: string, i: nat) returns (j: nat)
    requires i < |order| && Claims(documents, order[i], path)
    ensures i <= j < |order| && Winner(documents, order, path) == Some(order[j])
  {
    if Claims(documents, order[|order| - 1], path) {
      j := |order| - 1;
    } else {
      assert order[..|order| - 1][i] == order[i];
      j := WinnerIsLast(documents, order[..|order| - 1], path, i);
    }
  }

  lemma PlacesDiffer(documents: Documents, order: seq<string>, i: nat, j: nat)
    requires Lists(order, documents) && i < j < |order|
    ensures order[i] != order[j]
  {
  }

  lemma RivalBeats(documents: Documents, order: seq<string>, key: string, other: string)
    requires Lists(order, documents) && key in documents && Rivals(documents, order, key, other)
    ensures IsBeaten(documents, order, key)
  {
    hide Winner;
    var path := documents[key].processedPath;
    assert other in order;
    if IsActive(documents[key]) {
      var i, j :| 0 <= i < j < |order| && order[i] == key && order[j] == other;
      var k := WinnerIsLast(documents, order, path, j);
      PlacesDiffer(documents, order, i, k);
    } else {
      var j :| 0 <= j < |order| && order[j] == other;
      var k := WinnerIsLast(documents, order, path, j);
      WinnerIsActive(documents, order, path);
    }
  }

  lemma BeatenHasRival(documents: Documents, order: seq<string>, key: string) returns (other: string)
    requires Lists(order, documents) && key in documents && IsBeaten(documents, order, key)
    ensures Rivals(documents, order, key, other)
  {
    var path := documents[key].processedPath;
    WinnerIsActive(documents, order, path);
    other := Winner(documents, order, path).value;
    if IsActive(documents[key]) {
      assert key in order;
      var i :| 0 <= i < |order| && order[i] == key;
      var j := WinnerIsLast(documents, order, path, i);
      assert order[j] == other;
    }
  }

  /** An entry is superseded exactly when another active document has its path, and comes
      later in row order if the entry is active too. */
  lemma BeatenExactlyByRivals(documents: Documents, order: seq<string>, key: string)
    requires Lists(order, documents) && key in documents
    ensures IsBeaten(documents, order, key) <==> exists other :: Rivals(documents, order, key, other)
  {
    hide IsBeaten, Rivals, Lists;
    if IsBeaten(documents, order, key) {
      var other := BeatenHasRival(documents, order, key);
    }
    if other :| Rivals(documents, order, key, other) { RivalBeats(documents, order, key, other); }
  }

  // ---------------------------------------------------------------- other jobs' entries

  lemma {:induction false} MarksLeaveOthers(documents: Documents, jobId: string, files: seq<FileItem>, status: string,
                                            error: Option<string>, now: string, key: string)
    requires key in documents && documents[key].jobId != jobId
    ensures var after := AfterMarks(documents, jobId, files, status, error, now);
            key in after && after[key] == documents[key]
  {
    hide Marked;
    if files != [] { MarksLeaveOthers(documents, jobId, files[..|files| - 1], status, error, now, key); }
  }

  /** A job's report touches another job's entry exactly when another active document
      has its path, and then only marks it superseded. */
  lemma OthersOnlySuperseded(rows: Documents, order: seq<string>, jobId: string, files: seq<FileItem>, status: string,
                             error: Option<string>, now: string, later: string, key: string)
    requires Lists(order, rows) && key in rows && rows[key].jobId != jobId
    ensures var marked := AfterMarks(rows, jobId, files, status, error, now);
            var after := AfterMark(rows, order, jobId, files, status, error, now, later);
            && key in marked && key in after
            && after[key] == if IsBeaten(marked, order, key)
                             then rows[key].(status := "superseded", updatedAt := later) else rows[key]
  {
    hide AfterMarks, IsBeaten;
    MarksLeaveOthers(rows, jobId, files, status, error, now, key);
  }

  /** Two entries that differ at most in the notes and the time of the last update. */
  predicate AlikeButNotes(a: Entry, b: Entry) {
    a == b.(updatedAt := a.updatedAt, notes := a.notes)
  }

  /** Interrupting sources annotates exactly the named entries, of any job. */
  lemma {:induction false} InterruptAnnotatesNamed(documents: Documents, jobId: string, hashes: seq<string>,
                                                   error: Option<string>, now: string, key: string)
    requires key in documents
    ensures var after := AfterInterrupt(documents, jobId, hashes, error, now);
            && key in after && AlikeButNotes(after[key], documents[key])
            && after[key] == if key != "" && key in hashes then Interrupted(documents[key], jobId, error, now)
                             else documents[key]
  {
    hide Or;
    if hashes != [] {
      assert hashes == hashes[..|hashes| - 1] + [hashes[|hashes| - 1]];
      InterruptAnnotatesNamed(documents, jobId, hashes[..|hashes| - 1], error, now, key);
    }
  }

  ghost predicate NamesFile(files: seq<FileItem>, hash: string) {
    exists i :: 0 <= i < |files| && files[i].hash == hash
  }

  /** Registering replaces exactly the entries of the files named, whatever job they are of. */
  lemma {:induction false} RegisterReplacesNamed(documents: Documents, jobId: string, files: seq<FileItem>,
                                                 forced: set<string>, options: map<string, string>, now: string,
                                                 key: string)
    requires key in documents && documents[key].jobId != jobId
    ensures var after := AfterRegister(documents, jobId, files, forced, options, now);
            && key in after
            && (after[key] == documents[key] <==> !NamesFile(files, key))
            && (NamesFile(files, key) ==> after[key].jobId == jobId && after[key].status == "queued")
  {
    if files != [] {
      var front, last := files[..|files| - 1], files[|files| - 1];
      RegisterReplacesNamed(documents, jobId, front, forced, options, now, key);
      NamesLast(files, key);
    }
  }

  lemma NamesLast(files: seq<FileItem>, hash: string)
    requires files != []
    ensures NamesFile(files, hash) <==> NamesFile(files[..|files| - 1], hash) || files[|files| - 1].hash == hash
  {
    var front := files[..|files| - 1];
    if i :| 0 <= i < |files| && files[i].hash == hash { assert i < |front| ==> front[i].hash == hash; }
    if i :| 0 <= i < |front| && front[i].hash == hash { assert files[i].hash == hash; }
  }

  /** Nothing, or nothing but the mark of being superseded, has happened to an entry. */
  predicate OnlySuperseded(before: Entry, after: Entry) {
    after == before || after == before.(status := "superseded", updatedAt := after.updatedAt)
  }

  /** The entry carries the notes of this interruption already. */
  predicate IsAnnotated(entry: Entry, jobId: string, error: Option<string>, now: string) {
    && Interrupted(entry, jobId, error, now).notes == entry.notes
    && (entry.updatedAt == now || entry.status == "superseded")
  }

  /** When an operation of one job leaves another job's entry alone but for superseding:
      reports always do, registering unless it names the file, interrupting unless it
      names the source, deleting unless it is that entry. */
  ghost predicate LeavesAlone(operation: Operation, entry: Entry, key: string) {
    match operation
    case Register(_, files, _, _, _) => !NamesFile(files, key)
    case Mark(_, _, _, _, _, _, _) => true
    case Interrupt(jobId, hashes, error, now) => key == "" || key !in hashes || IsAnnotated(entry, jobId, error, now)
    case Delete(hash) => hash == "" || hash != key
  }

  /** A job touches another job's entry only by superseding it, exactly under LeavesAlone. */
  lemma OnlySupersededExactlyWhen(operation: Operation, rows: Documents, key: string)
    requires key in rows && (operation.Mark? ==> Lists(operation.order, rows))
    requires !operation.Delete? ==> rows[key].jobId != operation.jobId
    ensures key in After(operation, rows) && OnlySuperseded(rows[key], After(operation, rows)[key]) <==>
            LeavesAlone(operation, rows[key], key)
  {
    hide AfterRegister, AfterMark, AfterInterrupt, Lists, NamesFile, Or;
    match operation {
      case Register(jobId, files, forced, options, now) =>
        RegisterReplacesNamed(rows, jobId, files, forced, options, now, key);
      case Mark(order, jobId, files, status, error, now, later) =>
        OthersOnlySuperseded(rows, order, jobId, files, status, error, now, later, key);
      case Interrupt(jobId, hashes, error, now) =>
        InterruptAnnotatesNamed(rows, jobId, hashes, error, now, key);
      case Delete(hash) =>
    }
  }

  // ---------------------------------------------------------------- forced uploads

  lemma MarksOne(documents: Documents, item: FileItem, jobId: string, status: string, error: Option<string>,
                 now: string)
    ensures AfterMarks(documents, jobId, [item], status, error, now) ==
            MarkedOne(documents, jobId, item, status, error, now)
  {
    hide MarkedOne;
    assert [item][..0] == [];
    assert AfterMarks(documents, jobId, [], status, error, now) == documents;
  }

  /** An entry that a failure or an interruption turns back into the one it replaced. */
  predicate Restorable(rows: Documents, hash: string, jobId: string, status: string) {
    && hash in rows && rows[hash].jobId == jobId && rows[hash].previous.Some?
    && (status == "interrupted" || (status == "failed" && !IsActive(rows[hash])))
  }

  /** A report names a file once, or again only after the file has gone back to another job. */
  ghost predicate Reported(files: seq<FileItem>, hash: string, previous: Entry, jobId: string) {
    NamesFile(files, hash) && (previous.jobId != jobId || NamedOnce(files, hash))
  }

  ghost predicate NamedOnce(files: seq<FileItem>, hash: string) {
    forall i, j :: 0 <= i < j < |files| ==> files[i].hash != hash || files[j].hash != hash
  }

  lemma {:induction false} MarksLeaveUnnamed(rows: Documents, jobId: string, files: seq<FileItem>, status: string,
                                             error: Option<string>, now: string, key: string)
    requires key in rows && !NamesFile(files, key)
    ensures var marked := AfterMarks(rows, jobId, files, status, error, now);
            key in marked && marked[key] == rows[key]
  {
    hide Marked;
    if files != [] {
      NamesLast(files, key);
      MarksLeaveUnnamed(rows, jobId, files[..|files| - 1], status, error, now, key);
    }
  }

  /** Whatever else a report lists, a restorable entry in it is restored. */
  lemma {:induction false} RestoresPrevious(rows: Documents, jobId: string, files: seq<FileItem>, status: string,
                                            error: Option<string>, now: string, key: string)
    requires Restorable(rows, key, jobId, status) && Reported(files, key, rows[key].previous.value, jobId)
    ensures var marked := AfterMarks(rows, jobId, files, status, error, now);
            key in marked && AlikeButNotes(marked[key], rows[key].previous.value)
  {
    var front, last := files[..|files| - 1], files[|files| - 1];
    NamesLast(files, key);
    if NamesFile(front, key) {
      if last.hash == key { assert !NamedOnce(files, key) by { NamedTwice(files, key); } }
      RestoresPrevious(rows, jobId, front, status, error, now, key);
    } else {
      MarksLeaveUnnamed(rows, jobId, front, status, error, now, key);
    }
  }

  lemma NamedTwice(files: seq<FileItem>, hash: string)
    requires files != [] && NamesFile(files[..|files| - 1], hash) && files[|files| - 1].hash == hash
    ensures !NamedOnce(files, hash)
  {
    var i :| 0 <= i < |files| - 1 && files[..|files| - 1][i].hash == hash;
    assert files[i].hash == hash;
  }

  /** A forced upload whose job fails or is interrupted comes back as the entry it
      replaced, with notes, exactly when that entry has no rival among the documents as
      the report has marked them, or had been superseded before. Any entry, of this job or
      another, is superseded exactly when it has a rival there, and else as marked. */
  lemma ForcedFailureRestores(rows: Documents, order: seq<string>, files: seq<FileItem>, hash: string, jobId: string,
                              status: string, error: Option<string>, now: string, later: string, key: string)
    requires Lists(order, rows) && key in rows
    requires Restorable(rows, hash, jobId, status) && Reported(files, hash, rows[hash].previous.value, jobId)
    ensures var replaced := rows[hash].previous.value;
            var marked := AfterMarks(rows, jobId, files, status, error, now);
            var after := AfterMark(rows, order, jobId, files, status, error, now, later);
            && key in marked && key in after && hash in after
            && (AlikeButNotes(after[hash], replaced) <==>
                  replaced.status == "superseded" || !exists other :: Rivals(marked, order, hash, other))
            && after[key] == if exists other :: Rivals(marked, order, key, other)
                             then marked[key].(status := "superseded", updatedAt := later) else marked[key]
  {
    hide AfterMarks, Rivals, IsBeaten, Lists, Reported;
    RestoresPrevious(rows, jobId, files, status, error, now, hash);
    MarksKeepKeys(rows, jobId, files, status, error, now);
    var marked := AfterMarks(rows, jobId, files, status, error, now);
    ListsSame(order, rows, marked);
    BeatenExactlyByRivals(marked, order, hash);
    BeatenExactlyByRivals(marked, order, key);
  }

  lemma ReportedAlone(item: FileItem, previous: Entry, jobId: string)
    ensures Reported([item], item.hash, previous, jobId)
    ensures forall key :: NamesFile([item], key) <==> key == item.hash
  {
    assert [item][0].hash == item.hash;
  }

  /** In a report of one file every other entry is superseded exactly when it has a rival,
      and else unchanged. */
  lemma ForcedFailureOfOne(rows: Documents, order: seq<string>, item: FileItem, jobId: string, status: string,
                           error: Option<string>, now: string, later: string, key: string)
    requires Lists(order, rows) && Restorable(rows, item.hash, jobId, status) && key in rows && key != item.hash
    ensures var marked := AfterMarks(rows, jobId, [item], status, error, now);
            var after := AfterMark(rows, order, jobId, [item], status, error, now, later);
            && key in marked && key in after
            && after[key] == if exists other :: Rivals(marked, order, key, other)
                             then rows[key].(status := "superseded", updatedAt := later) else rows[key]
  {
    ReportedAlone(item, rows[item.hash].previous.value, jobId);
    hide *;
    ForcedFailureRestores(rows, order, [item], item.hash, jobId, status, error, now, later, key);
    MarksLeaveUnnamed(rows, jobId, [item], status, error, now, key);
  }

  /** An ingested document and one of another job queued under its path: forcing the first
      again and failing supersedes the second. */
  lemma ForcedFailureSupersedesAnother(a: Entry, b: Entry, item: FileItem, jobId: string, now: string)
    requires a.hash != b.hash && item.hash == a.hash && a.status == "ingested" && b.status == "queued"
    requires a.processedPath == b.processedPath != "" && b.jobId != jobId
    ensures var rows := map[a.hash := a, b.hash := b];
            var queued := AfterRegister(rows, jobId, [item], {a.hash}, map[], now);
            var after := AfterMark(queued, [a.hash, b.hash], jobId, [item], "failed", None, now, now);
            b.hash in after && after[b.hash].status == "superseded"
  {
    var rows := map[a.hash := a, b.hash := b];
    RegistersOne(rows, item, jobId, {a.hash}, now);
    var queued := AfterRegister(rows, jobId, [item], {a.hash}, map[], now);
    var order := [a.hash, b.hash];
    assert Lists(order, queued) by { TwoListed(a.hash, b.hash, queued); }
    ReportedAlone(item, a, jobId);
    RestoresPrevious(queued, jobId, [item], "failed", None, now, a.hash);
    MarksLeaveOthers(queued, jobId, [item], "failed", None, now, b.hash);
    var marked := AfterMarks(queued, jobId, [item], "failed", None, now);
    assert Rivals(marked, order, b.hash, a.hash);
    ForcedFailureOfOne(queued, order, item, jobId, "failed", None, now, now, b.hash);
  }

  lemma RegistersOne(rows: Documents, item: FileItem, jobId: string, forced: set<string>, now: string)
    requires item.hash in rows && item.hash in forced
    ensures AfterRegister(rows, jobId, [item], forced, map[], now) ==
            rows[item.hash := Queued(item, jobId, map[], now, Some(rows[item.hash]))]
  {
    hide Queued;
    assert [item][..0] == [];
    assert AfterRegister(rows, jobId, [], forced, map[], now) == rows;
  }

  lemma TwoListed(a: string, b: string, documents: Documents)
    requires a != b && documents.Keys == {a, b}
    ensures Lists([a, b], documents)
  {
    forall key ensures key in documents <==> key in [a, b] { assert key in documents <==> key in documents.Keys; }
  }

  lemma ForcedFailureMeetsRival(rows: Documents, order: seq<string>, item: FileItem, jobId: string, now: string,
                                other: string)
    requires Lists(order, rows) && Restorable(rows, item.hash, jobId, "failed")
    requires rows[item.hash].previous.value.status == "ingested"
    requires other in rows && other != item.hash && IsActive(rows[other]) && ComesBefore(order, item.hash, other)
    requires rows[other].processedPath == rows[item.hash].previous.value.processedPath != ""
    ensures var after := AfterMark(rows, order, jobId, [item], "failed", None, now, now);
            item.hash in after && after[item.hash].status == "superseded"
  {
    ReportedAlone(item, rows[item.hash].previous.value, jobId);
    RestoresPrevious(rows, jobId, [item], "failed", None, now, item.hash);
    MarksLeaveUnnamed(rows, jobId, [item], "failed", None, now, other);
    MarksKeepKeys(rows, jobId, [item], "failed", None, now);
    var marked := AfterMarks(rows, jobId, [item], "failed", None, now);
    ListsSame(order, rows, marked);
    hide AfterMarks, Lists, ComesBefore;
    assert Rivals(marked, order, item.hash, other);
    RivalBeats(marked, order, item.hash, other);
  }

  lemma IngestsOne(rows: Documents, a: string, item: FileItem, jobId: string, now: string)
    requires rows.Keys == {a, item.hash} && a != item.hash && rows[a].jobId != jobId && !IsActive(rows[a])
    requires rows[a].processedPath == "" && rows[item.hash].jobId == jobId && item.processedPath != ""
    ensures var after := AfterMark(rows, [a, item.hash], jobId, [item], "ingested", None, now, now);
            && after.Keys == rows.Keys && after[a] == rows[a]
            && IsActive(after[item.hash]) && after[item.hash].processedPath == item.processedPath
  {
    var order, b := [a, item.hash], item.hash;
    TwoListed(a, b, rows);
    MarksOne(rows, item, jobId, "ingested", None, now);
    var marked := AfterMarks(rows, jobId, [item], "ingested", None, now);
    TwoListed(a, b, marked);
    OthersOnlySuperseded(rows, order, jobId, [item], "ingested", None, now, now, a);
    hide Winner;
    assert !IsBeaten(marked, order, b) by {
      if IsBeaten(marked, order, b) { var other := BeatenHasRival(marked, order, b); }
    }
  }

  /** A document is forced again; before that upload fails, another document is ingested
      under its path. The failure restores the first and supersedes it in the same call. */
  lemma ForcedFailureSupersedesItself(a: Entry, b: Entry, item: FileItem, jobId: string, itemB: FileItem, now: string)
    requires a.hash != b.hash && item.hash == a.hash && itemB.hash == b.hash && b.jobId != jobId
    requires a.status == "ingested" && a.processedPath == itemB.processedPath != "" && item.processedPath == ""
    ensures var rows := map[a.hash := a, b.hash := b];
            var order := [a.hash, b.hash];
            var queued := AfterRegister(rows, jobId, [item], {a.hash}, map[], now);
            var taken := AfterMark(queued, order, b.jobId, [itemB], "ingested", None, now, now);
            var after := AfterMark(taken, order, jobId, [item], "failed", None, now, now);
            a.hash in after && after[a.hash].status == "superseded"
  {
    var rows, order := map[a.hash := a, b.hash := b], [a.hash, b.hash];
    RegistersOne(rows, item, jobId, {a.hash}, now);
    var queued := AfterRegister(rows, jobId, [item], {a.hash}, map[], now);
    IngestsOne(queued, a.hash, itemB, b.jobId, now);
    var taken := AfterMark(queued, order, b.jobId, [itemB], "ingested", None, now, now);
    TwoListed(a.hash, b.hash, taken);
    assert ComesBefore(order, a.hash, b.hash) by { assert order[0] == a.hash && order[1] == b.hash; }
    hide AfterMark, AfterRegister, Lists, ComesBefore;
    ForcedFailureMeetsRival(taken, order, item, jobId, now, b.hash);
  }

  // ---------------------------------------------------------------- overlapping processes

  /** What a process commits and what it left alone make two active documents of a path:
      a is changed by the commit and active after it, b is not changed and active now. */
  ghost predicate Clash(now: Documents, before: Documents, state: Documents, a: string, b: string) {
    && a in state && !Same(before, state, a) && b in now && Same(before, state, b)
    && IsActive(state[a]) && IsActive(now[b]) && state[a].processedPath == now[b].processedPath != ""
  }

  ghost predicate NoClash(now: Documents, before: Documents, state: Documents) {
    forall a, b :: !Clash(now, before, state, a, b)
  }

  lemma CommittedEntry(now: Documents, before: Documents, state: Documents, key: string)
    requires key in Committed(now, before, state)
    ensures var source := if Same(before, state, key) then now else state;
            key in source && Committed(now, before, state)[key] == source[key]
  {
    hide Committed;
    CommittedAt(now, before, state, key);
  }

  lemma ClashBreaks(now: Documents, before: Documents, state: Documents, a: string, b: string)
    requires Clash(now, before, state, a, b)
    ensures !OneActive(Committed(now, before, state))
  {
    hide Committed;
    CommittedAt(now, before, state, a);
    CommittedAt(now, before, state, b);
    assert BothActive(Committed(now, before, state), a, b) && a != b;
  }

  /** A commit onto a table that may have moved on leaves at most one active document a
      path exactly when nothing it changed clashes with anything it left alone. */
  lemma CommitKeepsOneActiveExactlyWhen(now: Documents, before: Documents, state: Documents)
    requires OneActive(now) && OneActive(state)
    ensures OneActive(Committed(now, before, state)) <==> NoClash(now, before, state)
  {
    hide Committed, Same;
    var after := Committed(now, before, state);
    if NoClash(now, before, state) {
      forall a, b | a in after && b in after && BothActive(after, a, b) ensures a == b {
        CommittedEntry(now, before, state, a);
        CommittedEntry(now, before, state, b);
        assert !Clash(now, before, state, a, b) && !Clash(now, before, state, b, a);
        assert a in now && b in now && now[a] == after[a] && now[b] == after[b] ==> BothActive(now, a, b);
        assert a in state && b in state && state[a] == after[a] && state[b] == after[b] ==> BothActive(state, a, b);
      }
    } else {
      var a, b :| Clash(now, before, state, a, b);
      ClashBreaks(now, before, state, a, b);
    }
  }

  /** An operation a process has computed from the table it read and not yet committed. */
  datatype Pending = Pending(before: Documents, state: Documents)

  datatype Store = Store(rows: Documents, pending: map<nat, Pending>)

  /** The two halves of an operation, each atomic. */
  datatype Half = Read(process: nat, operation: Operation) | Commit(process: nat)

  function Next(half: Half, store: Store): Store {
    match half
    case Read(process, operation) =>
      store.(pending := store.pending[process := Pending(store.rows, After(operation, store.rows))])
    case Commit(process) =>
      if process in store.pending then
        store.(rows := Committed(store.rows, store.pending[process].before, store.pending[process].state))
      else store
  }

  /** Any interleaving of reads and commits, from an empty registry. */
  function Execute(halves: seq<Half>): Store {
    if halves == [] then Store(map[], map[]) else Next(halves[|halves| - 1], Execute(halves[..|halves| - 1]))
  }

  /** Every report was computed from the rows in some order of the table it read. */
  ghost predicate ReadsInOrder(halves: seq<Half>) {
    halves == [] ||
    var front, last := halves[..|halves| - 1], halves[|halves| - 1];
    ReadsInOrder(front) && ReadInOrder(last, Execute(front))
  }

  ghost predicate ReadInOrder(half: Half, store: Store) {
    half.Read? && half.operation.Mark? ==> Lists(half.operation.order, store.rows)
  }

  /** The step commits something that clashes. */
  ghost predicate Clashes(half: Half, store: Store) {
    && half.Commit? && half.process in store.pending
    && !NoClash(store.rows, store.pending[half.process].before, store.pending[half.process].state)
  }

  ghost predicate NeverClashes(halves: seq<Half>) {
    halves == [] ||
    var front, last := halves[..|halves| - 1], halves[|halves| - 1];
    NeverClashes(front) && !Clashes(last, Execute(front))
  }

  /** At no moment of the run have two active documents one path. */
  ghost predicate AlwaysOneActive(halves: seq<Half>) {
    OneActive(Execute(halves).rows) && (halves == [] || AlwaysOneActive(halves[..|halves| - 1]))
  }

  ghost predicate PendingOneActive(store: Store) {
    forall process :: process in store.pending ==> OneActive(store.pending[process].state)
  }

  lemma NextKeeps(half: Half, store: Store)
    requires OneActive(store.rows) && PendingOneActive(store) && ReadInOrder(half, store)
    ensures PendingOneActive(Next(half, store))
    ensures OneActive(Next(half, store).rows) <==> !Clashes(half, store)
  {
    hide OneActive, After, Committed, NoClash, Lists;
    match half {
      case Read(process, operation) => AfterKeepsOneActive(operation, store.rows);
      case Commit(process) =>
        if process in store.pending {
          CommitKeepsOneActiveExactlyWhen(store.rows, store.pending[process].before, store.pending[process].state);
        }
    }
  }

  lemma NothingExecuted()
    ensures OneActive(Execute([]).rows) && PendingOneActive(Execute([]))
  {
  }

  /** However the reads and commits of the processes interleave, no moment has two active
      documents of one path exactly when no commit clashes. */
  lemma {:induction false} OneActiveExactlyWithoutClash(halves: seq<Half>)
    requires ReadsInOrder(halves)
    ensures AlwaysOneActive(halves) <==> NeverClashes(halves)
    ensures AlwaysOneActive(halves) ==> PendingOneActive(Execute(halves))
  {
    hide OneActive, PendingOneActive, Next, ReadInOrder, Clashes;
    if halves == [] {
      NothingExecuted();
    } else {
      var front, last := halves[..|halves| - 1], halves[|halves| - 1];
      OneActiveExactlyWithoutClash(front);
      if AlwaysOneActive(front) { NextKeeps(last, Execute(front)); }
    }
  }

  /** Marking a job's one document as ingested under a new path, when no other document
      has a path, changes that document alone. */
  lemma IngestAlone(rows: Documents, order: seq<string>, item: FileItem, jobId: string)
    requires item.hash in rows && rows[item.hash].jobId == jobId && rows[item.hash].previous.None?
    requires item.processedPath != ""
    requires forall key :: key in rows ==> rows[key].processedPath == ""
    ensures var after := AfterMark(rows, order, jobId, [item], "ingested", None, "", "");
            after == rows[item.hash := Marked(rows[item.hash], item, jobId, "ingested", None, "")]
  {
    assert [item][..0] == [];
    assert AfterMarks(rows, jobId, [], "ingested", None, "") == rows;
    var marked := rows[item.hash := Marked(rows[item.hash], item, jobId, "ingested", None, "")];
    assert AfterMarks(rows, jobId, [item], "ingested", None, "") == marked;
    forall key | key in marked ensures !IsBeaten(marked, order, key) {
      if Winner(marked, order, item.processedPath).Some? { WinnerIsActive(marked, order, item.processedPath); }
    }
  }

  /** A commit onto the very table it was computed from clashes with nothing. */
  lemma AloneNeverClashes(rows: Documents, state: Documents)
    requires OneActive(state)
    ensures NoClash(rows, rows, state)
  {
    forall a, b ensures !Clash(rows, rows, state, a, b) {
      assert a in state && b in state && BothActive(state, a, b) ==> a == b;
    }
  }

  /** Commits of different single entries from one snapshot clash if both turn active
      under one path. */
  lemma SingleCommitsClash(rows: Documents, a: string, entryA: Entry, b: string, entryB: Entry)
    requires a in rows && b in rows && a != b && rows[b] != entryB
    requires IsActive(entryA) && IsActive(entryB) && entryA.processedPath == entryB.processedPath != ""
    ensures !OneActive(Committed(Committed(rows, rows, rows[a := entryA]), rows, rows[b := entryB]))
  {
    hide Committed, OneActive, IsActive;
    CommitFresh(rows, rows[a := entryA]);
    assert Clash(rows[a := entryA], rows, rows[b := entryB], b, a);
    ClashBreaks(rows[a := entryA], rows, rows[b := entryB], b, a);
  }

  lemma IngestedEntry(entry: Entry, item: FileItem, jobId: string)
    requires item.processedPath != ""
    ensures var done := Marked(entry, item, jobId, "ingested", None, "");
            IsActive(done) && done.processedPath == item.processedPath
  {
  }

  lemma NoPathsOneActive(rows: Documents)
    requires forall key :: key in rows ==> rows[key].processedPath == ""
    ensures OneActive(rows)
  {
  }

  /** Two processes that both read the table before either writes, each ingesting its own
      document under one new path, leave two active documents of that path. */
  lemma OverlapBreaksOneActive(rows: Documents, order: seq<string>, itemA: FileItem, jobA: string,
                               itemB: FileItem, jobB: string)
    requires itemA.hash in rows && itemB.hash in rows && itemA.hash != itemB.hash
    requires rows[itemA.hash].jobId == jobA && rows[itemB.hash].jobId == jobB
    requires rows[itemA.hash].previous.None? && rows[itemB.hash].previous.None?
    requires itemA.processedPath == itemB.processedPath != ""
    requires forall key :: key in rows ==> rows[key].processedPath == ""
    ensures OneActive(rows)
    ensures var first := AfterMark(rows, order, jobA, [itemA], "ingested", None, "", "");
            var second := AfterMark(rows, order, jobB, [itemB], "ingested", None, "", "");
            !OneActive(Committed(Committed(rows, rows, first), rows, second))
  {
    hide *;
    NoPathsOneActive(rows);
    IngestAlone(rows, order, itemA, jobA);
    IngestAlone(rows, order, itemB, jobB);
    IngestedEntry(rows[itemA.hash], itemA, jobA);
    IngestedEntry(rows[itemB.hash], itemB, jobB);
    SingleCommitsClash(rows, itemA.hash, Marked(rows[itemA.hash], itemA, jobA, "ingested", None, ""),
                       itemB.hash, Marked(rows[itemB.hash], itemB, jobB, "ingested", None, ""));
  }
}
