/** What a worker's saves and removals leave in the manifest, id by id. */
module AssetEdits {
  import opened Options
  import opened AssetStore
  import opened AssetRuns

  // ---------------------------------------------------------------- one id

  predicate Drops(edit: Edit, source: string) {
    edit.Drop? && edit.source == source != ""
  }

  predicate Puts(edit: Edit, id: string) {
    edit.Put? && edit.image.id == id
  }

  /** How many edits there are up to the last removal of a source. */
  function LastDrop(edits: seq<Edit>, source: string): (n: nat)
    ensures n <= |edits|
  {
    if edits == [] then 0
    else if Drops(edits[|edits| - 1], source) then |edits|
    else LastDrop(edits[..|edits| - 1], source)
  }

  /** What was saved under an id, in order. */
  function Saves(edits: seq<Edit>, id: string): seq<Entry> {
    if edits == [] then []
    else
      Saves(edits[..|edits| - 1], id)
      + if Puts(edits[|edits| - 1], id) then [edits[|edits| - 1].image] else []
  }

  /** The first creation time that is not empty. */
  function FirstTime(entries: seq<Entry>): string {
    if entries == [] then ""
    else if FirstTime(entries[..|entries| - 1]) != "" then FirstTime(entries[..|entries| - 1])
    else entries[|entries| - 1].createdAt
  }

  function At(assets: Manifest, id: string): Option<Entry> {
    if id in assets then Some(assets[id]) else None
  }

  /** What an id has been saved with since its source was last removed, what was there
      before first. */
  function Since(edits: seq<Edit>, id: string, source: string, before: Option<Entry>): seq<Entry> {
    var dropped := LastDrop(edits, source);
    (if dropped == 0 && before.Some? then [before.value] else []) + Saves(edits[dropped..], id)
  }

  /** The last save, with the first creation time. */
  function Last(entries: seq<Entry>): Option<Entry> {
    if entries == [] then None else Some(entries[|entries| - 1].(createdAt := FirstTime(entries)))
  }

  /** What is under an id after some edits. */
  function Left(edits: seq<Edit>, id: string, source: string, before: Option<Entry>): Option<Entry> {
    Last(Since(edits, id, source, before))
  }

  /** The saves of an id are of one source. */
  ghost predicate OfSource(edits: seq<Edit>, id: string, source: string) {
    forall i :: 0 <= i < |edits| && Puts(edits[i], id) ==> edits[i].image.source == source
  }

  lemma SavesPut(edits: seq<Edit>, edit: Edit, id: string)
    ensures Saves(edits + [edit], id) == Saves(edits, id) + if Puts(edit, id) then [edit.image] else []
  {
    assert (edits + [edit])[..|edits + [edit]| - 1] == edits;
  }

  lemma FirstTimePut(entries: seq<Entry>, entry: Entry)
    ensures FirstTime(entries + [entry]) == if FirstTime(entries) != "" then FirstTime(entries) else entry.createdAt
  {
    assert (entries + [entry])[..|entries + [entry]| - 1] == entries;
  }

  lemma {:induction false} SavesSource(edits: seq<Edit>, id: string, source: string)
    requires OfSource(edits, id, source)
    ensures forall i :: 0 <= i < |Saves(edits, id)| ==>
              Saves(edits, id)[i].source == source && Saves(edits, id)[i].id == id
  {
    if edits != [] { SavesSource(edits[..|edits| - 1], id, source); }
  }

  lemma LastDropPut(edits: seq<Edit>, edit: Edit, source: string)
    ensures LastDrop(edits + [edit], source) == if Drops(edit, source) then |edits| + 1 else LastDrop(edits, source)
  {
    assert (edits + [edit])[..|edits + [edit]| - 1] == edits;
  }

  lemma SavesAfter(first: seq<Entry>, tail: seq<Edit>, edit: Edit, id: string)
    ensures first + Saves(tail + [edit], id) ==
            if Puts(edit, id) then first + Saves(tail, id) + [edit.image] else first + Saves(tail, id)
  {
    SavesPut(tail, edit, id);
    hide Saves;
    if Puts(edit, id) {
      assert first + (Saves(tail, id) + [edit.image]) == first + Saves(tail, id) + [edit.image];
    } else {
      assert Saves(tail, id) + [] == Saves(tail, id);
    }
  }

  lemma SinceStep(edits: seq<Edit>, edit: Edit, id: string, source: string, before: Option<Entry>)
    ensures var since, more := Since(edits, id, source, before), Since(edits + [edit], id, source, before);
            more == if Drops(edit, source) then [] else if Puts(edit, id) then since + [edit.image] else since
  {
    var whole, dropped := edits + [edit], LastDrop(edits, source);
    LastDropPut(edits, edit, source);
    hide Saves, LastDrop, Drops, Puts;
    if Drops(edit, source) {
      assert whole[|whole|..] == [];
      NoSaves(id);
    } else {
      assert whole[dropped..] == edits[dropped..] + [edit];
      SavesAfter(if dropped == 0 && before.Some? then [before.value] else [], edits[dropped..], edit, id);
    }
  }

  lemma NoSaves(id: string)
    ensures Saves([], id) == []
  {
  }

  lemma LastPut(entries: seq<Entry>, entry: Entry)
    ensures var last := Last(entries);
            Last(entries + [entry]) ==
            Some(entry.(createdAt := if last.Some? && last.value.createdAt != "" then last.value.createdAt
                                     else entry.createdAt))
  {
    FirstTimePut(entries, entry);
    hide FirstTime;
    if entries == [] { NoTime(); }
  }

  lemma NoTime()
    ensures FirstTime([]) == ""
  {
  }

  /** One more edit, on what is left under an id. */
  lemma LeftStep(edits: seq<Edit>, edit: Edit, id: string, source: string, before: Option<Entry>)
    ensures var left, more := Left(edits, id, source, before), Left(edits + [edit], id, source, before);
            && (Drops(edit, source) ==> more == None)
            && (Puts(edit, id) ==>
                  more == Some(edit.image.(createdAt := if left.Some? && left.value.createdAt != ""
                                                        then left.value.createdAt else edit.image.createdAt)))
            && (!Drops(edit, source) && !Puts(edit, id) ==> more == left)
  {
    hide Since, FirstTime;
    SinceStep(edits, edit, id, source, before);
    if Puts(edit, id) { LastPut(Since(edits, id, source, before), edit.image); }
  }

  lemma NothingLeftOut(id: string, source: string, before: Option<Entry>)
    ensures Left([], id, source, before) == before
  {
    assert Since([], id, source, before) == if before.Some? then [before.value] else [];
    if before.Some? {
      FirstTimePut([], before.value);
      assert [] + [before.value] == [before.value];
    }
  }

  lemma OneEdit(edit: Edit, assets: Manifest)
    ensures match edit
            case Put(image) => SavedInto(assets, image, ApplyOne(edit, assets))
            case Drop(source) =>
              if source == "" then ApplyOne(edit, assets) == assets
              else RemovedFrom(assets, source, ApplyOne(edit, assets))
  {
  }

  /** Whatever the edits, what is under an id is what its own saves, and the removals of
      its source, leave of what was there. */
  lemma {:induction false} EditsLeave(edits: seq<Edit>, assets: Manifest, id: string, source: string)
    requires OfSource(edits, id, source) && (id in assets ==> assets[id].source == source)
    ensures At(Apply(edits, assets), id) == Left(edits, id, source, At(assets, id))
    ensures id in Apply(edits, assets) ==> Apply(edits, assets)[id].source == source
  {
    hide Left, ApplyOne;
    if edits == [] {
      NothingLeftOut(id, source, At(assets, id));
    } else {
      var front, last := edits[..|edits| - 1], edits[|edits| - 1];
      assert edits == front + [last];
      EditsLeave(front, assets, id, source);
      LeftStep(front, last, id, source, At(assets, id));
      OneEdit(last, Apply(front, assets));
    }
  }

  // ---------------------------------------------------------------- runs

  /** The edits are of worker w's own documents. */
  ghost predicate EditsOwn(homes: Homes, edits: seq<Edit>, w: int) {
    forall i :: 0 <= i < |edits| ==> EditOwn(homes, edits[i], w)
  }

  predicate EditOwn(homes: Homes, edit: Edit, w: int) {
    edit.Put? ==> edit.image.source == homes.sourceOf(edit.image.id) && homes.workerOf(edit.image.source) == w
  }

  ghost predicate OpsOwn(homes: Homes, ops: seq<Op>, w: int) {
    forall i :: 0 <= i < |ops| ==> OwnOp(homes, ops[i], w)
  }

  lemma OpsOwnParts(homes: Homes, a: seq<Op>, b: seq<Op>, w: int)
    requires OpsOwn(homes, a + b, w)
    ensures OpsOwn(homes, a, w) && OpsOwn(homes, b, w)
  {
    hide OwnOp;
    forall i | 0 <= i < |a| ensures OwnOp(homes, a[i], w) { assert (a + b)[i] == a[i]; }
    forall i | 0 <= i < |b| ensures OwnOp(homes, b[i], w) { assert (a + b)[|a| + i] == b[i]; }
  }

  lemma StepsOwn(homes: Homes, edit: Edit, locked: bool, w: int)
    requires OpsOwn(homes, Steps(edit, locked), w)
    ensures EditOwn(homes, edit, w)
  {
    if edit.Put? { assert OwnOp(homes, Steps(edit, locked)[0], w); }
  }

  lemma {:induction false} HistoryOwn(homes: Homes, items: seq<Item>, w: int)
    requires OpsOwn(homes, History(items), w)
    ensures EditsOwn(homes, Book(items).written, w) && EditsOwn(homes, Book(items).held, w)
    ensures EditsOwn(homes, Accepted(items), w)
  {
    hide EditOwn, OpsOwn, Steps;
    if items != [] {
      var front, last := items[..|items| - 1], items[|items| - 1];
      OpsOwnParts(homes, History(front), StepsOf(last), w);
      HistoryOwn(homes, front, w);
      if last.Do? { StepsOwn(homes, last.edit, last.locked, w); }
    }
  }

  lemma ReachedOwn(homes: Homes, acts: seq<Act>, n: nat, w: nat, items: seq<Item>)
    requires Acts(homes, acts, n) && Reached(items, OnlyOf(acts, w))
    ensures EditsOwn(homes, Book(items).written, w) && EditsOwn(homes, Accepted(items), w)
  {
    hide OnlyOf, History, Book, Accepted, OwnOp, Acts;
    OnlyOfOwn(homes, acts, n, w);
    assert OpsOwn(homes, OnlyOf(acts, w), w);
    if OnlyOf(acts, w) == History(items) {
      HistoryOwn(homes, items, w);
    } else {
      var image :| OnlyOf(acts, w) == History(items) + [Save(image)];
      OpsOwnParts(homes, History(items), [Save(image)], w);
      HistoryOwn(homes, items, w);
    }
  }

  lemma AtMine(homes: Homes, assets: Manifest, id: string)
    ensures At(Mine(homes, assets, HomeOf(homes, id)), id) == At(assets, id)
  {
  }

  /** At every moment of every interleaving what stands under an id is what the written
      edits of its worker leave there, whatever anyone else has done. */
  lemma EveryEntry(homes: Homes, acts: seq<Act>, sys: System, w: nat, items: seq<Item>, id: string)
    requires Ready(homes, sys) && Acts(homes, acts, |sys.locals|) && w < |sys.locals| && HomeOf(homes, id) == w
    requires sys.locals[w] == IDLE && Reached(items, OnlyOf(acts, w))
    ensures At(Run(acts, sys).disk, id) == Left(Book(items).written, id, homes.sourceOf(id), At(sys.disk, id))
  {
    var written, source := Book(items).written, homes.sourceOf(id);
    assert Sound(homes, sys.disk);
    hide Ready, Acts, Run, OnlyOf, Reached, Book, Apply, Left, Mine;
    WrittenSoFar(homes, acts, sys, w, items);
    ReachedOwn(homes, acts, |sys.locals|, w, items);
    AtMine(homes, sys.disk, id);
    AtMine(homes, Run(acts, sys).disk, id);
    assert OfSource(written, id, source) by {
      forall i | 0 <= i < |written| && Puts(written[i], id) ensures written[i].image.source == source {
        assert EditOwn(homes, written[i], w);
      }
    }
    assert id in Mine(homes, sys.disk, w) ==> At(sys.disk, id).Some? && id in sys.disk;
    EditsLeave(written, Mine(homes, sys.disk, w), id, source);
  }

  /** Once a worker keeps no batch, what stands under each of its ids is what all its
      accepted edits leave there. */
  lemma EveryEntryAccepted(homes: Homes, acts: seq<Act>, sys: System, w: nat, items: seq<Item>, id: string)
    requires Ready(homes, sys) && Acts(homes, acts, |sys.locals|) && w < |sys.locals| && HomeOf(homes, id) == w
    requires sys.locals[w] == IDLE && Reached(items, OnlyOf(acts, w))
    requires NothingDiscarded(items) && !Book(items).kept
    ensures At(Run(acts, sys).disk, id) == Left(Accepted(items), id, homes.sourceOf(id), At(sys.disk, id))
  {
    hide *;
    EveryEntry(homes, acts, sys, w, items, id);
    NoEditLost(items);
    assert Book(items).written + [] == Book(items).written;
  }

  lemma {:induction false} LastDropIs(edits: seq<Edit>, source: string, k: nat)
    requires k < |edits| && Drops(edits[k], source)
    ensures LastDrop(edits, source) > k
  {
    if k < |edits| - 1 { LastDropIs(edits[..|edits| - 1], source, k); }
  }

  lemma {:induction false} NoneSaved(edits: seq<Edit>, id: string)
    requires forall i :: 0 <= i < |edits| ==> !Puts(edits[i], id)
    ensures Saves(edits, id) == []
  {
    if edits != [] { NoneSaved(edits[..|edits| - 1], id); }
  }

  lemma {:induction false} LastSaved(edits: seq<Edit>, id: string, k: nat)
    requires k < |edits| && Puts(edits[k], id)
    requires forall i :: k < i < |edits| ==> !Puts(edits[i], id)
    ensures Saves(edits, id) != [] && Saves(edits, id)[|Saves(edits, id)| - 1] == edits[k].image
  {
    if k < |edits| - 1 { LastSaved(edits[..|edits| - 1], id, k); }
  }

  lemma {:induction false} LastDropBefore(edits: seq<Edit>, source: string, k: nat)
    requires k < |edits| && forall i :: k <= i < |edits| ==> !Drops(edits[i], source)
    ensures LastDrop(edits, source) <= k
  {
    var front := edits[..|edits| - 1];
    if k < |front| { LastDropBefore(front, source, k); }
  }

  lemma ReadyIsSound(homes: Homes, sys: System)
    requires Ready(homes, sys)
    ensures Sound(homes, sys.disk)
  {
  }

  /** Nothing is left under the ids of a source that has been removed and not saved since. */
  lemma RemovedLeft(homes: Homes, edits: seq<Edit>, id: string, k: nat, w: int, before: Option<Entry>)
    requires EditsOwn(homes, edits, w) && k < |edits| && Drops(edits[k], homes.sourceOf(id))
    requires forall i :: k < i < |edits| && edits[i].Put? ==> edits[i].image.source != homes.sourceOf(id)
    ensures Left(edits, id, homes.sourceOf(id), before) == None
  {
    var source := homes.sourceOf(id);
    var dropped := LastDrop(edits, source);
    LastDropIs(edits, source, k);
    hide Saves, LastDrop, Drops;
    var later := edits[dropped..];
    forall i | 0 <= i < |later| ensures !Puts(later[i], id) {
      assert later[i] == edits[dropped + i] && EditOwn(homes, edits[dropped + i], w);
    }
    NoneSaved(later, id);
  }

  /** A removal with no save of the source after it holds: once no batch is kept no entry
      of the source is in the manifest, in any interleaving. */
  lemma RemovedStaysRemoved(homes: Homes, acts: seq<Act>, sys: System, w: nat, items: seq<Item>, source: string, k: nat)
    requires Ready(homes, sys) && Acts(homes, acts, |sys.locals|) && w < |sys.locals| && homes.workerOf(source) == w
    requires sys.locals[w] == IDLE && Reached(items, OnlyOf(acts, w))
    requires NothingDiscarded(items) && !Book(items).kept
    requires k < |Accepted(items)| && Drops(Accepted(items)[k], source)
    requires forall i :: k < i < |Accepted(items)| && Accepted(items)[i].Put? ==>
      Accepted(items)[i].image.source != source
    ensures forall id :: id in Run(acts, sys).disk ==> Run(acts, sys).disk[id].source != source
  {
    var edits, disk := Accepted(items), Run(acts, sys).disk;
    hide Ready, Acts, Run, OnlyOf, Reached, Book, Accepted, NothingDiscarded, Left, Drops, EditsOwn;
    RunReady(homes, acts, sys);
    ReadyIsSound(homes, Run(acts, sys));
    ReachedOwn(homes, acts, |sys.locals|, w, items);
    forall id | id in disk ensures disk[id].source != source {
      if homes.sourceOf(id) == source {
        EveryEntryAccepted(homes, acts, sys, w, items, id);
        RemovedLeft(homes, edits, id, k, w, At(sys.disk, id));
      }
    }
  }

  lemma SavedLeft(edits: seq<Edit>, k: nat, source: string, before: Option<Entry>)
    requires k < |edits| && edits[k].Put?
    requires forall i :: k < i < |edits| ==> !Puts(edits[i], edits[k].image.id) && !Drops(edits[i], source)
    ensures var image := edits[k].image;
            var left := Left(edits, image.id, source, before);
            left.Some? && left.value == image.(createdAt := left.value.createdAt)
  {
    var dropped, id := LastDrop(edits, source), edits[k].image.id;
    LastDropBefore(edits, source, k);
    hide Saves, LastDrop, FirstTime, Drops;
    var later := edits[dropped..];
    assert later[k - dropped] == edits[k];
    forall i | k - dropped < i < |later| ensures !Puts(later[i], id) { assert later[i] == edits[dropped + i]; }
    LastSaved(later, id, k - dropped);
  }

  /** What was saved last under an id stays, everything about it but an earlier creation
      time, unless its source is removed later: once no batch is kept it is in the
      manifest, in any interleaving. */
  lemma SavedStays(homes: Homes, acts: seq<Act>, sys: System, w: nat, items: seq<Item>, k: nat)
    requires Ready(homes, sys) && Acts(homes, acts, |sys.locals|) && w < |sys.locals|
    requires sys.locals[w] == IDLE && Reached(items, OnlyOf(acts, w))
    requires NothingDiscarded(items) && !Book(items).kept
    requires k < |Accepted(items)| && Accepted(items)[k].Put?
    requires forall i :: k < i < |Accepted(items)| ==>
      && !Puts(Accepted(items)[i], Accepted(items)[k].image.id)
      && !Drops(Accepted(items)[i], Accepted(items)[k].image.source)
    ensures var image, disk := Accepted(items)[k].image, Run(acts, sys).disk;
            image.id in disk && disk[image.id] == image.(createdAt := disk[image.id].createdAt)
  {
    var edits := Accepted(items);
    var image := edits[k].image;
    hide Ready, Acts, Run, OnlyOf, Reached, Book, Accepted, NothingDiscarded, Left, Puts, Drops;
    ReachedOwn(homes, acts, |sys.locals|, w, items);
    assert EditOwn(homes, edits[k], w);
    EveryEntryAccepted(homes, acts, sys, w, items, image.id);
    SavedLeft(edits, k, image.source, At(sys.disk, image.id));
  }
}
