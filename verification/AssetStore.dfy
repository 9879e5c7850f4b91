/** The image-asset manifest, shared by ingestion workers that edit it in batches. */
module AssetStore {
  import opened Options

  datatype Entry = Entry(
    id: string, source: string, name: string, page: nat, description: string, sha: string, createdAt: string)

  /** The assets of a manifest by id. */
  type Manifest = map<string, Entry>

  /** What one worker holds in memory: the fields of its store, and the entry of an
      unbatched save that is computed but not yet written. */
  datatype Local = Local(batch: Option<Manifest>, base: Option<Manifest>, depth: nat, pending: Option<Entry>)

  /** One atomic step of a worker. The flags say whether the manifest lock was obtained. */
  datatype Op =
    | Begin
    | Commit(locked: bool)
    | Abort
    | Save(image: Entry)
    | Write(locked: bool)
    | Remove(source: string, locked: bool)

  const IDLE := Local(None, None, 0, None)

  // ---------------------------------------------------------------- specification

  /** The entry stored for an image: an earlier creation time under the same id stays. */
  function Stamped(assets: Manifest, image: Entry): Entry {
    if image.id in assets && assets[image.id].createdAt != "" then
      image.(createdAt := assets[image.id].createdAt)
    else image
  }

  function Without(assets: Manifest, source: string): Manifest {
    map id | id in assets && assets[id].source != source :: assets[id]
  }

  /** What the batch did not remove. */
  function Surviving(batch: Manifest, base: Manifest, current: Manifest): Manifest {
    map id | id in current && (id in base ==> id in batch) :: current[id]
  }

  /** What the batch added or changed. */
  function Changes(batch: Manifest, base: Manifest): Manifest {
    map id | id in batch && (id in base ==> base[id] != batch[id]) :: batch[id]
  }

  /** The current manifest with the changes that lead from base to batch. */
  function Merge(batch: Manifest, base: Manifest, current: Manifest): Manifest {
    Surviving(batch, base, current) + Changes(batch, base)
  }

  predicate Changed(batch: Manifest, base: Manifest, id: string) {
    id in batch && (id in base ==> base[id] != batch[id])
  }

  lemma MergeAt(batch: Manifest, base: Manifest, current: Manifest, id: string)
    ensures var merged := Merge(batch, base, current);
            && (id in merged <==> Changed(batch, base, id) || (id in current && (id in base ==> id in batch)))
            && (id in merged ==> merged[id] == if Changed(batch, base, id) then batch[id] else current[id])
  {
  }

  function BaseOf(local: Local): Manifest {
    if local.base.Some? then local.base.value else map[]
  }

  /** The worker's memory after a step. */
  function StepLocal(op: Op, local: Local, disk: Manifest): Local {
    match op
    case Begin =>
      if local.batch.Some? then local.(depth := local.depth + 1)
      else Local(Some(disk), Some(disk), local.depth + 1, local.pending)
    case Commit(locked) =>
      if local.depth != 1 || local.batch.None? || locked then
        if local.depth == 0 then local
        else if local.depth > 1 then local.(depth := local.depth - 1)
        else local.(depth := 0, batch := None, base := if local.batch.Some? then None else local.base)
      else local.(depth := 0, base := Some(BaseOf(local)))
    case Abort => Local(None, None, 0, local.pending)
    case Save(image) =>
      if local.batch.Some? then
        local.(batch := Some(local.batch.value[image.id := Stamped(local.batch.value, image)]))
      else local.(pending := Some(Stamped(disk, image)))
    case Write(locked) => local.(pending := None)
    case Remove(source, locked) =>
      if source != "" && local.batch.Some? then local.(batch := Some(Without(local.batch.value, source))) else local
  }

  /** The shared manifest after a step. */
  function StepDisk(op: Op, local: Local, disk: Manifest): Manifest {
    match op
    case Commit(locked) =>
      if local.depth == 1 && local.batch.Some? && locked then Merge(local.batch.value, BaseOf(local), disk) else disk
    case Write(locked) =>
      if local.pending.Some? && locked then disk[local.pending.value.id := local.pending.value] else disk
    case Remove(source, locked) =>
      if source != "" && local.batch.None? && locked then Without(disk, source) else disk
    case _ => disk
  }

  // ---------------------------------------------------------------- what the steps mean

  /** The image is there under its id with everything it was saved with, an earlier
      creation time that is not empty excepted; nothing else has changed. */
  ghost predicate SavedInto(before: Manifest, image: Entry, after: Manifest) {
    && image.id in after
    && (forall id :: id != image.id ==> (id in after <==> id in before) && (id in before ==> after[id] == before[id]))
    && var entry := after[image.id];
       && entry.id == image.id && entry.source == image.source && entry.name == image.name && entry.page == image.page
       && entry.description == image.description && entry.sha == image.sha
       && entry.createdAt == if image.id in before && before[image.id].createdAt != "" then before[image.id].createdAt
                             else image.createdAt
  }

  /** Exactly the entries of the source are gone. */
  ghost predicate RemovedFrom(before: Manifest, source: string, after: Manifest) {
    forall id ::
      && (id in after <==> id in before && before[id].source != source)
      && (id in after ==> after[id] == before[id])
  }

  /** Wherever the batch has not changed its base the current manifest stays, and wherever
      it has the batch wins, removals included. */
  ghost predicate MergedThreeWays(batch: Manifest, base: Manifest, current: Manifest, merged: Manifest) {
    forall id ::
      if (id in batch <==> id in base) && (id in batch ==> batch[id] == base[id])
      then (id in merged <==> id in current) && (id in merged ==> merged[id] == current[id])
      else (id in merged <==> id in batch) && (id in merged ==> merged[id] == batch[id])
  }

  lemma MergesThreeWays(batch: Manifest, base: Manifest, current: Manifest)
    ensures MergedThreeWays(batch, base, current, Merge(batch, base, current))
  {
    hide Merge;
    forall id
      ensures (id in batch <==> id in base) && (id in batch ==> batch[id] == base[id]) ==>
                (id in Merge(batch, base, current) <==> id in current)
                && (id in current ==> Merge(batch, base, current)[id] == current[id])
      ensures !((id in batch <==> id in base) && (id in batch ==> batch[id] == base[id])) ==>
                (id in Merge(batch, base, current) <==> id in batch)
                && (id in batch ==> Merge(batch, base, current)[id] == batch[id])
    {
      MergeAt(batch, base, current, id);
    }
  }

  // ---------------------------------------------------------------- the program

  method ThreeWay(batch: Manifest, base: Manifest, current: Manifest) returns (merged: Manifest)
    ensures merged == Merge(batch, base, current)
  {
    var removed := set id | id in base && id !in batch;
    var changed := map id | id in batch && (id !in base || base[id] != batch[id]) :: batch[id];
    assert changed == Changes(batch, base);
    var kept := map id | id in current && id !in removed :: current[id];
    assert kept == Surviving(batch, base, current);
    hide Changes, Surviving;
    merged := kept + changed;
  }

  /** The manifest file, rewritten whole. */
  class ManifestFile {
    var assets: Manifest

    constructor (assets: Manifest)
      ensures this.assets == assets
    {
      this.assets := assets;
    }
  }

  class ImageAssetStore {
    const file: ManifestFile
    var batchManifest: Option<Manifest>
    var batchBase: Option<Manifest>
    var batchDepth: nat

    constructor (file: ManifestFile)
      ensures this.file == file && Memory(None) == IDLE
    {
      this.file := file;
      batchManifest, batchBase, batchDepth := None, None, 0;
    }

    ghost function Memory(pending: Option<Entry>): Local
      reads this
    {
      Local(batchManifest, batchBase, batchDepth, pending)
    }

    method BeginBatch()
      modifies this
      ensures Memory(None) == StepLocal(Begin, old(Memory(None)), file.assets)
      ensures batchDepth == old(batchDepth) + 1
      ensures old(batchManifest).Some? ==> batchManifest == old(batchManifest) && batchBase == old(batchBase)
      ensures old(batchManifest).None? ==> batchManifest == batchBase == Some(file.assets)
    {
      batchDepth := batchDepth + 1;
      if batchManifest.None? {
        batchManifest := Some(file.assets);
        batchBase := Some(file.assets);
      }
    }

    /** Flushes the outermost batch; a lock that cannot be had keeps it for a retry. */
    method CommitBatch(locked: bool) returns (raised: bool)
      modifies this, file
      ensures Memory(None) == StepLocal(Commit(locked), old(Memory(None)), old(file.assets))
      ensures file.assets == StepDisk(Commit(locked), old(Memory(None)), old(file.assets))
      ensures raised <==> old(batchDepth) == 1 && old(batchManifest).Some? && !locked
      ensures old(batchDepth) == 1 && old(batchManifest).Some? && old(batchBase).Some? && locked ==>
                batchManifest.None? && batchBase.None?
                && MergedThreeWays(old(batchManifest).value, old(batchBase).value, old(file.assets), file.assets)
      ensures raised ==> batchManifest == old(batchManifest) && batchDepth == 0
      ensures old(batchDepth) != 1 || raised ==> file.assets == old(file.assets)
    {
      raised := false;
      if batchDepth <= 0 { return; }
      batchDepth := batchDepth - 1;
      if batchDepth != 0 || batchManifest.None? { return; }
      var batch := batchManifest.value;
      var base := if batchBase.Some? then batchBase.value else map[];
      batchManifest, batchBase := None, None;
      hide Merge;
      if locked {
        MergesThreeWays(batch, base, file.assets);
        var merged := ThreeWay(batch, base, file.assets);
        file.assets := merged;
      } else {
        batchManifest, batchBase := Some(batch), Some(base);
        raised := true;
      }
    }

    method AbortBatch()
      modifies this
      ensures Memory(None) == StepLocal(Abort, old(Memory(None)), file.assets)
      ensures batchManifest.None? && batchBase.None? && batchDepth == 0
    {
      batchManifest, batchBase, batchDepth := None, None, 0;
    }

    /** A save: into the batch if one is open, else straight into the file. */
    method SaveImage(image: Entry, locked: bool) returns (raised: bool)
      modifies this, file
      ensures var saved := StepLocal(Save(image), old(Memory(None)), old(file.assets));
              && Memory(None) == StepLocal(Write(locked), saved, old(file.assets))
              && file.assets == StepDisk(Write(locked), saved, old(file.assets))
      ensures raised <==> old(batchManifest).None? && !locked
      ensures old(batchManifest).Some? ==>
                batchManifest.Some? && SavedInto(old(batchManifest).value, image, batchManifest.value)
                && file.assets == old(file.assets)
      ensures old(batchManifest).None? && locked ==> SavedInto(old(file.assets), image, file.assets)
      ensures raised ==> file.assets == old(file.assets)
    {
      raised := false;
      var assets := if batchManifest.Some? then batchManifest.value else file.assets;
      var entry := image;
      if image.id in assets && assets[image.id].createdAt != "" {
        entry := image.(createdAt := assets[image.id].createdAt);
      }
      if batchManifest.Some? {
        batchManifest := Some(assets[image.id := entry]);
      } else if locked {
        file.assets := file.assets[entry.id := entry];
      } else {
        raised := true;
      }
    }

    /** Drops every asset of a source document and says how many there were. */
    method RemoveSourceAssets(source: string, locked: bool) returns (raised: bool, removed: nat)
      modifies this, file
      ensures Memory(None) == StepLocal(Remove(source, locked), old(Memory(None)), old(file.assets))
      ensures file.assets == StepDisk(Remove(source, locked), old(Memory(None)), old(file.assets))
      ensures raised <==> source != "" && old(batchManifest).None? && !locked
      ensures removed ==
              if raised || source == "" then 0
              else Count(if old(batchManifest).Some? then old(batchManifest).value else old(file.assets), source)
      ensures source != "" && old(batchManifest).Some? ==>
                batchManifest.Some? && RemovedFrom(old(batchManifest).value, source, batchManifest.value)
                && file.assets == old(file.assets)
      ensures source != "" && old(batchManifest).None? && locked ==> RemovedFrom(old(file.assets), source, file.assets)
      ensures raised || source == "" ==> file.assets == old(file.assets) && batchManifest == old(batchManifest)
    {
      raised, removed := false, 0;
      if source == "" { return; }
      if batchManifest.Some? {
        var kept;
        kept, removed := DropSource(batchManifest.value, source);
        batchManifest := Some(kept);
      } else if locked {
        var kept;
        kept, removed := DropSource(file.assets, source);
        NothingDropped(file.assets, source);
        if removed > 0 { file.assets := kept; }
      } else {
        raised := true;
      }
    }
  }

  /** How many assets a source has. */
  function Count(assets: Manifest, source: string): nat {
    |set id | id in assets && assets[id].source == source|
  }

  lemma NothingDropped(assets: Manifest, source: string)
    ensures Count(assets, source) == 0 ==> Without(assets, source) == assets
  {
    if Count(assets, source) == 0 {
      var own := set id | id in assets && assets[id].source == source;
      assert own == {};
      forall id | id in assets ensures assets[id].source != source {
        assert id !in own;
      }
    }
  }

  method DropSource(assets: Manifest, source: string) returns (kept: Manifest, removed: nat)
    ensures kept == Without(assets, source) && removed == Count(assets, source)
  {
    kept, removed := map[], 0;
    var left := assets.Keys;
    ghost var dropped: set<string> := {};
    while left != {}
      invariant left <= assets.Keys
      invariant forall id :: id in dropped <==> id in assets && id !in left && assets[id].source == source
      invariant forall id :: id in kept <==> id in assets && id !in left && assets[id].source != source
      invariant forall id :: id in kept ==> kept[id] == assets[id]
      invariant removed == |dropped|
      decreases |left|
    {
      var id :| id in left;
      if assets[id].source == source {
        removed := removed + 1;
        dropped := dropped + {id};
      } else {
        kept := kept[id := assets[id]];
      }
      left := left - {id};
    }
    assert dropped == set id | id in assets && assets[id].source == source;
  }
}
