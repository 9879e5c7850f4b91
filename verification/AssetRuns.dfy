/** Runs of many workers over one manifest: every interleaving is equivalent to one
    worker after another. */
module AssetRuns {
  import opened Options
  import opened AssetStore

  /** Who handles what: the worker of each source document, the source each asset id
      was made from. */
  datatype Homes = Homes(workerOf: string -> int, sourceOf: string -> string)

  function HomeOf(homes: Homes, id: string): int {
    homes.workerOf(homes.sourceOf(id))
  }

  /** Entries are filed under the source their id names. */
  ghost predicate Sound(homes: Homes, assets: Manifest) {
    forall id :: id in assets ==> assets[id].source == homes.sourceOf(id)
  }

  /** A step about worker w's own documents. */
  predicate OwnOp(homes: Homes, op: Op, w: int) {
    match op
    case Save(image) => image.source == homes.sourceOf(image.id) && homes.workerOf(image.source) == w
    case Remove(source, _) => homes.workerOf(source) == w
    case _ => true
  }

  // ---------------------------------------------------------------- one worker's view

  /** The part of a manifest that belongs to worker w. */
  function Mine(homes: Homes, assets: Manifest, w: int): Manifest {
    map id | id in assets && HomeOf(homes, id) == w :: assets[id]
  }

  function MineIfAny(homes: Homes, assets: Option<Manifest>, w: int): Option<Manifest> {
    if assets.Some? then Some(Mine(homes, assets.value, w)) else None
  }

  function View(homes: Homes, local: Local, w: int): Local {
    Local(MineIfAny(homes, local.batch, w), MineIfAny(homes, local.base, w), local.depth, local.pending)
  }

  /** A batch differs from its base only in its own worker's assets. */
  ghost predicate ForeignUntouched(homes: Homes, batch: Manifest, base: Manifest, w: int) {
    forall id :: HomeOf(homes, id) != w ==> (id in batch <==> id in base) && (id in batch ==> batch[id] == base[id])
  }

  ghost predicate Clean(homes: Homes, local: Local, w: int) {
    && (local.batch.Some? ==>
          Sound(homes, local.batch.value) && ForeignUntouched(homes, local.batch.value, BaseOf(local), w))
    && (local.pending.Some? ==>
          local.pending.value.source == homes.sourceOf(local.pending.value.id)
            && HomeOf(homes, local.pending.value.id) == w)
  }

  lemma MergeMine(homes: Homes, batch: Manifest, base: Manifest, current: Manifest, w: int)
    ensures Mine(homes, Merge(batch, base, current), w) ==
            Merge(Mine(homes, batch, w), Mine(homes, base, w), Mine(homes, current, w))
  {
    hide Merge;
    var whole, part :=
      Merge(batch, base, current), Merge(Mine(homes, batch, w), Mine(homes, base, w), Mine(homes, current, w));
    forall id
      ensures id in part <==> id in whole && HomeOf(homes, id) == w
      ensures id in part ==> part[id] == whole[id]
    {
      MergeAt(batch, base, current, id);
      MergeAt(Mine(homes, batch, w), Mine(homes, base, w), Mine(homes, current, w), id);
    }
  }

  lemma MergeForeign(homes: Homes, batch: Manifest, base: Manifest, current: Manifest, w: int, v: int)
    requires ForeignUntouched(homes, batch, base, v) && w != v
    ensures Mine(homes, Merge(batch, base, current), w) == Mine(homes, current, w)
  {
    forall id | HomeOf(homes, id) == w
      ensures id in Merge(batch, base, current) <==> id in current
      ensures id in current ==> Merge(batch, base, current)[id] == current[id]
    {
      assert id in batch <==> id in base;
    }
  }

  lemma MergeSound(homes: Homes, batch: Manifest, base: Manifest, current: Manifest)
    requires Sound(homes, batch) && Sound(homes, current)
    ensures Sound(homes, Merge(batch, base, current))
  {
  }

  lemma WithoutMine(homes: Homes, assets: Manifest, source: string, w: int)
    ensures Mine(homes, Without(assets, source), w) == Without(Mine(homes, assets, w), source)
  {
  }

  lemma WithoutForeign(homes: Homes, assets: Manifest, source: string, w: int)
    requires Sound(homes, assets) && homes.workerOf(source) != w
    ensures Mine(homes, Without(assets, source), w) == Mine(homes, assets, w) && Sound(homes, Without(assets, source))
  {
  }

  lemma WithoutSound(homes: Homes, assets: Manifest, source: string)
    requires Sound(homes, assets)
    ensures Sound(homes, Without(assets, source))
  {
  }

  lemma PutMine(homes: Homes, assets: Manifest, image: Entry, w: int)
    requires HomeOf(homes, image.id) == w
    ensures Mine(homes, assets[image.id := image], w) == Mine(homes, assets, w)[image.id := image]
    ensures Stamped(assets, image) == Stamped(Mine(homes, assets, w), image)
  {
  }

  lemma PutForeign(homes: Homes, assets: Manifest, image: Entry, w: int)
    requires HomeOf(homes, image.id) != w
    ensures Mine(homes, assets[image.id := image], w) == Mine(homes, assets, w)
  {
  }

  /** A worker's own step acts on its own part as if there were nothing else. */
  lemma OwnStep(homes: Homes, op: Op, local: Local, disk: Manifest, w: int)
    requires OwnOp(homes, op, w) && Clean(homes, local, w)
    ensures View(homes, StepLocal(op, local, disk), w) == StepLocal(op, View(homes, local, w), Mine(homes, disk, w))
    ensures Mine(homes, StepDisk(op, local, disk), w) == StepDisk(op, View(homes, local, w), Mine(homes, disk, w))
  {
    hide Mine, Merge, Without, Stamped, Sound, ForeignUntouched;
    match op {
      case Begin =>
      case Commit(locked) =>
        if local.batch.Some? { MergeMine(homes, local.batch.value, BaseOf(local), disk, w); }
        NoneMine(homes, w);
      case Abort =>
      case Save(image) =>
        if local.batch.Some? {
          StampedHome(homes, local.batch.value, image, w);
          PutMine(homes, local.batch.value, image, w);
          PutMine(homes, local.batch.value, Stamped(local.batch.value, image), w);
        } else {
          PutMine(homes, disk, image, w);
        }
      case Write(locked) =>
        if local.pending.Some? { PutMine(homes, disk, local.pending.value, w); }
      case Remove(source, locked) =>
        if local.batch.Some? { WithoutMine(homes, local.batch.value, source, w); }
        WithoutMine(homes, disk, source, w);
    }
  }

  lemma NoneMine(homes: Homes, w: int)
    ensures Mine(homes, map[], w) == map[]
  {
  }

  lemma StampedHome(homes: Homes, assets: Manifest, image: Entry, w: int)
    ensures Stamped(assets, image).id == image.id && Stamped(assets, image).source == image.source
  {
  }

  /** Another worker's step leaves this one's part alone. */
  lemma ForeignStep(homes: Homes, op: Op, local: Local, disk: Manifest, v: int, w: int)
    requires OwnOp(homes, op, v) && Clean(homes, local, v) && Sound(homes, disk) && v != w
    ensures Mine(homes, StepDisk(op, local, disk), w) == Mine(homes, disk, w)
  {
    hide Mine, Merge, Without, Stamped, Sound, ForeignUntouched;
    match op {
      case Begin =>
      case Commit(locked) =>
        if local.batch.Some? { MergeForeign(homes, local.batch.value, BaseOf(local), disk, w, v); }
      case Abort =>
      case Save(image) =>
      case Write(locked) =>
        if local.pending.Some? { PutForeign(homes, disk, local.pending.value, w); }
      case Remove(source, locked) =>
        WithoutForeign(homes, disk, source, w);
    }
  }

  lemma PutKeeps(homes: Homes, batch: Manifest, base: Manifest, image: Entry, w: int)
    requires Sound(homes, batch) && image.source == homes.sourceOf(image.id)
    ensures Sound(homes, batch[image.id := image])
    ensures ForeignUntouched(homes, batch, base, w) && HomeOf(homes, image.id) == w ==>
            ForeignUntouched(homes, batch[image.id := image], base, w)
  {
  }

  lemma WithoutKeeps(homes: Homes, batch: Manifest, base: Manifest, source: string, w: int)
    requires Sound(homes, batch) && ForeignUntouched(homes, batch, base, w) && homes.workerOf(source) == w
    ensures ForeignUntouched(homes, Without(batch, source), base, w)
  {
  }

  lemma SameUntouched(homes: Homes, assets: Manifest, w: int)
    ensures ForeignUntouched(homes, assets, assets, w)
  {
  }

  lemma StaysClean(homes: Homes, op: Op, local: Local, disk: Manifest, w: int)
    requires OwnOp(homes, op, w) && Clean(homes, local, w) && Sound(homes, disk)
    ensures Clean(homes, StepLocal(op, local, disk), w) && Sound(homes, StepDisk(op, local, disk))
  {
    hide Merge, Without, Stamped, Sound, ForeignUntouched;
    match op {
      case Begin => SameUntouched(homes, disk, w);
      case Commit(locked) =>
        if local.batch.Some? { MergeSound(homes, local.batch.value, BaseOf(local), disk); }
      case Abort =>
      case Save(image) =>
        if local.batch.Some? {
          StampedHome(homes, local.batch.value, image, w);
          PutKeeps(homes, local.batch.value, BaseOf(local), Stamped(local.batch.value, image), w);
        } else {
          StampedHome(homes, disk, image, w);
        }
      case Write(locked) =>
        if local.pending.Some? { PutKeeps(homes, disk, disk, local.pending.value, w); }
      case Remove(source, locked) =>
        if local.batch.Some? {
          WithoutSound(homes, local.batch.value, source);
          WithoutKeeps(homes, local.batch.value, BaseOf(local), source, w);
        }
        WithoutSound(homes, disk, source);
    }
  }

  // ---------------------------------------------------------------- runs

  datatype Act = Act(worker: nat, op: Op)

  datatype System = System(disk: Manifest, locals: seq<Local>)

  ghost predicate Acts(homes: Homes, acts: seq<Act>, n: nat) {
    forall i :: 0 <= i < |acts| ==> ActOk(homes, acts[i], n)
  }

  predicate ActOk(homes: Homes, act: Act, n: nat) {
    act.worker < n && OwnOp(homes, act.op, act.worker)
  }

  function After(act: Act, sys: System): System
    requires act.worker < |sys.locals|
  {
    var local := sys.locals[act.worker];
    System(StepDisk(act.op, local, sys.disk), sys.locals[act.worker := StepLocal(act.op, local, sys.disk)])
  }

  /** A run: the workers' steps one at a time, in any order. */
  function Run(acts: seq<Act>, sys: System): System {
    if acts == [] then sys
    else
      var before := Run(acts[..|acts| - 1], sys);
      if acts[|acts| - 1].worker < |before.locals| then After(acts[|acts| - 1], before) else before
  }

  /** The steps of one worker, in their order. */
  function OnlyOf(acts: seq<Act>, w: int): seq<Op> {
    if acts == [] then []
    else OnlyOf(acts[..|acts| - 1], w) + if acts[|acts| - 1].worker == w then [acts[|acts| - 1].op] else []
  }

  datatype State = State(local: Local, disk: Manifest)

  function Step(op: Op, state: State): State {
    State(StepLocal(op, state.local, state.disk), StepDisk(op, state.local, state.disk))
  }

  /** A worker running by itself. */
  function Solo(ops: seq<Op>, state: State): State {
    if ops == [] then state else Step(ops[|ops| - 1], Solo(ops[..|ops| - 1], state))
  }

  ghost predicate Ready(homes: Homes, sys: System) {
    Sound(homes, sys.disk) && forall w :: 0 <= w < |sys.locals| ==> Clean(homes, sys.locals[w], w)
  }

  lemma StaysReady(homes: Homes, act: Act, sys: System)
    requires Ready(homes, sys) && ActOk(homes, act, |sys.locals|)
    ensures Ready(homes, After(act, sys)) && |After(act, sys).locals| == |sys.locals|
  {
    hide Clean, Sound, StepLocal, StepDisk, OwnOp;
    StaysClean(homes, act.op, sys.locals[act.worker], sys.disk, act.worker);
  }

  lemma {:induction false} RunReady(homes: Homes, acts: seq<Act>, sys: System)
    requires Ready(homes, sys) && Acts(homes, acts, |sys.locals|)
    ensures Ready(homes, Run(acts, sys)) && |Run(acts, sys).locals| == |sys.locals|
  {
    hide Ready, After, ActOk;
    if acts != [] {
      RunReady(homes, acts[..|acts| - 1], sys);
      assert ActOk(homes, acts[|acts| - 1], |sys.locals|);
      StaysReady(homes, acts[|acts| - 1], Run(acts[..|acts| - 1], sys));
    }
  }

  /** What worker w sees of the system: its memory and its part of the manifest. */
  function Seen(homes: Homes, sys: System, w: nat): State
    requires w < |sys.locals|
  {
    State(View(homes, sys.locals[w], w), Mine(homes, sys.disk, w))
  }

  lemma SeenAfter(homes: Homes, act: Act, sys: System, w: nat)
    requires Ready(homes, sys) && ActOk(homes, act, |sys.locals|) && w < |sys.locals|
    ensures Seen(homes, After(act, sys), w) ==
            if act.worker == w then Step(act.op, Seen(homes, sys, w)) else Seen(homes, sys, w)
  {
    hide Clean, Sound, StepLocal, StepDisk, View, Mine, OwnOp;
    if act.worker == w {
      OwnStep(homes, act.op, sys.locals[w], sys.disk, w);
    } else {
      ForeignStep(homes, act.op, sys.locals[act.worker], sys.disk, act.worker, w);
    }
  }

  /** Whatever the others do in between, a worker's memory and its part of the shared
      manifest are those of its own steps run by themselves. */
  lemma {:induction false} Independent(homes: Homes, acts: seq<Act>, sys: System, w: nat)
    requires Ready(homes, sys) && Acts(homes, acts, |sys.locals|) && w < |sys.locals|
    ensures |Run(acts, sys).locals| == |sys.locals|
    ensures Seen(homes, Run(acts, sys), w) == Solo(OnlyOf(acts, w), Seen(homes, sys, w))
  {
    hide Ready, After, ActOk, Seen, Step;
    if acts != [] {
      var front, last := acts[..|acts| - 1], acts[|acts| - 1];
      Independent(homes, front, sys, w);
      RunReady(homes, acts, sys);
      RunReady(homes, front, sys);
      ActIs(homes, acts, |sys.locals|, |acts| - 1);
      SeenAfter(homes, last, Run(front, sys), w);
      if last.worker == w {
        assert (OnlyOf(front, w) + [last.op])[..|OnlyOf(front, w) + [last.op]| - 1] == OnlyOf(front, w);
      } else {
        assert OnlyOf(front, w) + [] == OnlyOf(front, w);
      }
    }
  }

  lemma ActIs(homes: Homes, acts: seq<Act>, n: nat, i: nat)
    requires Acts(homes, acts, n) && i < |acts|
    ensures ActOk(homes, acts[i], n) && acts[i].worker < n
  {
  }

  lemma {:induction false} NobodysUnchanged(homes: Homes, acts: seq<Act>, sys: System, w: int)
    requires Ready(homes, sys) && Acts(homes, acts, |sys.locals|) && !(0 <= w < |sys.locals|)
    ensures Mine(homes, Run(acts, sys).disk, w) == Mine(homes, sys.disk, w)
  {
    hide Ready, ActOk, Mine, StepLocal, StepDisk;
    if acts != [] {
      var front, last := acts[..|acts| - 1], acts[|acts| - 1];
      NobodysUnchanged(homes, front, sys, w);
      RunReady(homes, front, sys);
      ActIs(homes, acts, |sys.locals|, |acts| - 1);
      NobodysStep(homes, last, Run(front, sys), w);
    }
  }

  lemma NobodysStep(homes: Homes, act: Act, sys: System, w: int)
    requires Ready(homes, sys) && ActOk(homes, act, |sys.locals|) && !(0 <= w < |sys.locals|)
    ensures Mine(homes, After(act, sys).disk, w) == Mine(homes, sys.disk, w)
  {
    hide Clean, Sound, StepLocal, StepDisk, Mine, OwnOp;
    ForeignStep(homes, act.op, sys.locals[act.worker], sys.disk, act.worker, w);
  }

  lemma PartsMakeWhole(homes: Homes, a: Manifest, b: Manifest)
    requires forall w: int :: Mine(homes, a, w) == Mine(homes, b, w)
    ensures a == b
  {
    forall id
      ensures id in a <==> id in b
      ensures id in a && id in b ==> a[id] == b[id]
    {
      var w := HomeOf(homes, id);
      assert Mine(homes, a, w) == Mine(homes, b, w);
      assert id in a <==> id in Mine(homes, a, w);
      assert id in b <==> id in Mine(homes, b, w);
    }
  }

  /** Two runs in which every worker takes the same steps leave the same manifest,
      however they are interleaved. */
  lemma InterleavingIrrelevant(homes: Homes, acts: seq<Act>, other: seq<Act>, sys: System)
    requires Ready(homes, sys) && Acts(homes, acts, |sys.locals|) && Acts(homes, other, |sys.locals|)
    requires forall w: nat :: w < |sys.locals| ==> OnlyOf(acts, w) == OnlyOf(other, w)
    ensures Run(acts, sys).disk == Run(other, sys).disk
  {
    hide Ready, Acts, Mine, Run, OnlyOf, Solo, View;
    forall w: int ensures Mine(homes, Run(acts, sys).disk, w) == Mine(homes, Run(other, sys).disk, w) {
      if 0 <= w < |sys.locals| {
        Independent(homes, acts, sys, w);
        Independent(homes, other, sys, w);
      } else {
        NobodysUnchanged(homes, acts, sys, w);
        NobodysUnchanged(homes, other, sys, w);
      }
    }
    PartsMakeWhole(homes, Run(acts, sys).disk, Run(other, sys).disk);
  }

  // ---------------------------------------------------------------- one after another

  function ActsOf(ops: seq<Op>, w: nat): seq<Act> {
    if ops == [] then [] else ActsOf(ops[..|ops| - 1], w) + [Act(w, ops[|ops| - 1])]
  }

  /** The same steps, the first n workers each finishing before the next starts. */
  function Serial(acts: seq<Act>, n: nat): seq<Act> {
    if n == 0 then [] else Serial(acts, n - 1) + ActsOf(OnlyOf(acts, n - 1), n - 1)
  }

  lemma {:induction false} OnlyOfJoin(a: seq<Act>, b: seq<Act>, w: int)
    ensures OnlyOf(a + b, w) == OnlyOf(a, w) + OnlyOf(b, w)
    decreases |b|
  {
    if b == [] {
      assert a + b == a;
    } else {
      assert (a + b)[..|a + b| - 1] == a + b[..|b| - 1];
      OnlyOfJoin(a, b[..|b| - 1], w);
    }
  }

  lemma {:induction false} OnlyOfActsOf(ops: seq<Op>, v: nat, w: int)
    ensures OnlyOf(ActsOf(ops, v), w) == if v == w then ops else []
  {
    if ops != [] {
      OnlyOfActsOf(ops[..|ops| - 1], v, w);
      var before, last := ActsOf(ops[..|ops| - 1], v), Act(v, ops[|ops| - 1]);
      assert (before + [last])[..|before + [last]| - 1] == before;
    }
  }

  lemma {:induction false} OnlyOfSerial(acts: seq<Act>, n: nat, w: int)
    requires w >= 0
    ensures OnlyOf(Serial(acts, n), w) == if w < n then OnlyOf(acts, w) else []
  {
    hide OnlyOf, ActsOf;
    if n > 0 {
      OnlyOfSerial(acts, n - 1, w);
      OnlyOfJoin(Serial(acts, n - 1), ActsOf(OnlyOf(acts, n - 1), n - 1), w);
      OnlyOfActsOf(OnlyOf(acts, n - 1), n - 1, w);
    } else {
      NoActs(w);
    }
  }

  lemma NoActs(w: int)
    ensures OnlyOf([], w) == []
  {
  }

  lemma {:induction false} OnlyOfOwn(homes: Homes, acts: seq<Act>, n: nat, w: nat)
    requires Acts(homes, acts, n)
    ensures forall i :: 0 <= i < |OnlyOf(acts, w)| ==> OwnOp(homes, OnlyOf(acts, w)[i], w)
  {
    hide OwnOp;
    if acts != [] {
      OnlyOfOwn(homes, acts[..|acts| - 1], n, w);
      ActIs(homes, acts, n, |acts| - 1);
    }
  }

  lemma {:induction false} ActsOfOk(homes: Homes, ops: seq<Op>, w: nat, n: nat)
    requires w < n && forall i :: 0 <= i < |ops| ==> OwnOp(homes, ops[i], w)
    ensures Acts(homes, ActsOf(ops, w), n)
  {
    hide OwnOp;
    if ops != [] { ActsOfOk(homes, ops[..|ops| - 1], w, n); }
  }

  lemma {:induction false} SerialOk(homes: Homes, acts: seq<Act>, k: nat, n: nat)
    requires Acts(homes, acts, n) && k <= n
    ensures Acts(homes, Serial(acts, k), n)
  {
    hide OwnOp, ActOk, OnlyOf, ActsOf;
    if k > 0 {
      SerialOk(homes, acts, k - 1, n);
      OnlyOfOwn(homes, acts, n, k - 1);
      ActsOfOk(homes, OnlyOf(acts, k - 1), k - 1, n);
    }
  }

  /** Any interleaving leaves the manifest that running the workers one after another leaves. */
  lemma Serializable(homes: Homes, acts: seq<Act>, sys: System)
    requires Ready(homes, sys) && Acts(homes, acts, |sys.locals|)
    ensures Run(acts, sys).disk == Run(Serial(acts, |sys.locals|), sys).disk
  {
    hide Ready, Acts, Run, OnlyOf, Serial;
    SerialOk(homes, acts, |sys.locals|, |sys.locals|);
    forall w: nat | w < |sys.locals| ensures OnlyOf(acts, w) == OnlyOf(Serial(acts, |sys.locals|), w) {
      OnlyOfSerial(acts, |sys.locals|, w);
    }
    InterleavingIrrelevant(homes, acts, Serial(acts, |sys.locals|), sys);
  }

  // ---------------------------------------------------------------- batches

  /** Saves and removals, and their effect on a manifest one by one. */
  datatype Edit = Put(image: Entry) | Drop(source: string)

  function ApplyOne(edit: Edit, assets: Manifest): Manifest {
    match edit
    case Put(image) => assets[image.id := Stamped(assets, image)]
    case Drop(source) => if source == "" then assets else Without(assets, source)
  }

  function Apply(edits: seq<Edit>, assets: Manifest): Manifest {
    if edits == [] then assets else ApplyOne(edits[|edits| - 1], Apply(edits[..|edits| - 1], assets))
  }

  /** The steps of an edit; the flag says whether the lock can be had. */
  function Steps(edit: Edit, locked: bool): seq<Op> {
    match edit
    case Put(image) => [Save(image), Write(locked)]
    case Drop(source) => [Remove(source, locked)]
  }

  function Program(edits: seq<Edit>): seq<Op> {
    if edits == [] then [] else Program(edits[..|edits| - 1]) + Steps(edits[|edits| - 1], true)
  }

  lemma {:induction false} SoloJoin(a: seq<Op>, b: seq<Op>, state: State)
    ensures Solo(a + b, state) == Solo(b, Solo(a, state))
    decreases |b|
  {
    hide Step;
    if b == [] {
      assert a + b == a;
    } else {
      assert (a + b)[..|a + b| - 1] == a + b[..|b| - 1];
      SoloJoin(a, b[..|b| - 1], state);
    }
  }

  lemma SoloOne(op: Op, state: State)
    ensures Solo([op], state) == Step(op, state)
  {
    hide Step;
    assert [op][..|[op]| - 1] == [];
  }

  lemma SoloTwo(a: Op, b: Op, state: State)
    ensures Solo([a, b], state) == Step(b, Step(a, state))
  {
    hide Step;
    assert [a, b][..|[a, b]| - 1] == [a];
    SoloOne(a, state);
  }

  /** An edit in a batch, whether or not the lock could be had. */
  lemma EditInBatch(edit: Edit, locked: bool, state: State)
    requires state.local.batch.Some? && state.local.pending.None?
    ensures Solo(Steps(edit, locked), state) ==
            state.(local := state.local.(batch := Some(ApplyOne(edit, state.local.batch.value))))
  {
    hide Without, Stamped;
    match edit {
      case Put(image) => SoloTwo(Save(image), Write(locked), state);
      case Drop(source) => SoloOne(Remove(source, locked), state);
    }
  }

  /** An edit outside batches, which needs the lock. */
  lemma EditOutside(edit: Edit, locked: bool, state: State)
    requires state.local.batch.None? && state.local.pending.None?
    ensures Solo(Steps(edit, locked), state) ==
            if locked then state.(disk := ApplyOne(edit, state.disk)) else state
  {
    hide Without;
    match edit {
      case Put(image) => SoloTwo(Save(image), Write(locked), state);
      case Drop(source) => SoloOne(Remove(source, locked), state);
    }
  }

  /** Without a batch the edits reach the file one by one. */
  lemma {:induction false} Unbatched(edits: seq<Edit>, state: State)
    requires state.local.batch.None? && state.local.pending.None?
    ensures Solo(Program(edits), state) == state.(disk := Apply(edits, state.disk))
  {
    hide Solo, Steps, ApplyOne;
    if edits != [] {
      var front, last := edits[..|edits| - 1], edits[|edits| - 1];
      Unbatched(front, state);
      SoloJoin(Program(front), Steps(last, true), state);
      EditOutside(last, true, Solo(Program(front), state));
    } else {
      SoloNone(state);
    }
  }

  lemma SoloNone(state: State)
    ensures Solo([], state) == state
  {
  }

  /** In a batch the same edits reach only the batch. */
  lemma {:induction false} Batched(edits: seq<Edit>, state: State)
    requires state.local.batch.Some? && state.local.pending.None?
    ensures Solo(Program(edits), state) ==
            state.(local := state.local.(batch := Some(Apply(edits, state.local.batch.value))))
  {
    hide Solo, Steps, ApplyOne;
    if edits != [] {
      var front, last := edits[..|edits| - 1], edits[|edits| - 1];
      Batched(front, state);
      SoloJoin(Program(front), Steps(last, true), state);
      EditInBatch(last, true, Solo(Program(front), state));
    } else {
      SoloNone(state);
    }
  }

  /** Flushing onto the manifest the batch started from leaves the batch itself. */
  lemma FlushOntoBase(batch: Manifest, base: Manifest)
    ensures Merge(batch, base, base) == batch
  {
    hide Merge;
    forall id
      ensures id in Merge(batch, base, base) <==> id in batch
      ensures id in batch ==> Merge(batch, base, base)[id] == batch[id]
    {
      MergeAt(batch, base, base, id);
    }
  }

  /** A failed commit followed by a new begin leaves everything as it was. */
  lemma RetryKeepsAll(state: State)
    requires state.local.depth > 0 && state.local.batch.Some? && state.local.base.Some?
    ensures Solo([Commit(false), Begin], state) == state
  {
    SoloTwo(Commit(false), Begin, state);
  }

  /** A batch opened inside another only adds its edits to it. */
  lemma NestedBatch(edits: seq<Edit>, state: State, locked: bool)
    requires state.local.batch.Some? && state.local.depth > 0 && state.local.pending.None?
    ensures Solo([Begin] + Program(edits) + [Commit(locked)], state) == Solo(Program(edits), state)
  {
    SoloOne(Begin, state);
    var begun := Step(Begin, state);
    Batched(edits, begun);
    Batched(edits, state);
    SoloOne(Commit(locked), Solo(Program(edits), begun));
    assert Step(Commit(locked), Solo(Program(edits), begun)) == Solo(Program(edits), state);
    hide *;
    SoloJoin([Begin], Program(edits), state);
    SoloJoin([Begin] + Program(edits), [Commit(locked)], state);
  }

  // ---------------------------------------------------------------- histories

  /** What a worker may do, in any order: open and close batches, nested or not, edit, and
      discard. The flags say whether the lock was obtained where it was needed. */
  datatype Item = Open | Close(locked: bool) | Do(edit: Edit, locked: bool) | Discard

  function StepsOf(item: Item): seq<Op> {
    match item
    case Open => [Begin]
    case Close(locked) => [Commit(locked)]
    case Do(edit, locked) => Steps(edit, locked)
    case Discard => [Abort]
  }

  function History(items: seq<Item>): seq<Op> {
    if items == [] then [] else History(items[..|items| - 1]) + StepsOf(items[|items| - 1])
  }

  /** What a worker's edits have come to: how deep its batches are nested, whether a batch
      is kept, the edits that reached the file and those the batch still holds. */
  datatype Ledger = Ledger(depth: nat, kept: bool, written: seq<Edit>, held: seq<Edit>)

  function Post(ledger: Ledger, item: Item): Ledger {
    match item
    case Open => ledger.(depth := ledger.depth + 1, kept := true)
    case Close(locked) =>
      if ledger.depth == 1 && locked then Ledger(0, false, ledger.written + ledger.held, [])
      else ledger.(depth := if ledger.depth == 0 then 0 else ledger.depth - 1)
    case Do(edit, locked) =>
      if ledger.kept then ledger.(held := ledger.held + [edit])
      else if locked then ledger.(written := ledger.written + [edit])
      else ledger
    case Discard => Ledger(0, false, ledger.written, [])
  }

  function Book(items: seq<Item>): Ledger {
    if items == [] then Ledger(0, false, [], []) else Post(Book(items[..|items| - 1]), items[|items| - 1])
  }

  /** The worker and the file, started from disk, are where the ledger says. */
  ghost predicate Follows(ledger: Ledger, state: State, disk: Manifest) {
    && state.local.depth == ledger.depth && state.local.pending.None?
    && state.disk == Apply(ledger.written, disk)
    && (ledger.depth > 0 ==> ledger.kept)
    && (if ledger.kept
        then state.local.base == Some(state.disk) && state.local.batch == Some(Apply(ledger.held, state.disk))
        else state.local.base.None? && state.local.batch.None? && ledger.held == [])
  }

  lemma {:induction false} ApplyJoin(a: seq<Edit>, b: seq<Edit>, assets: Manifest)
    ensures Apply(a + b, assets) == Apply(b, Apply(a, assets))
    decreases |b|
  {
    hide ApplyOne;
    if b == [] {
      assert a + b == a;
    } else {
      assert (a + b)[..|a + b| - 1] == a + b[..|b| - 1];
      ApplyJoin(a, b[..|b| - 1], assets);
    }
  }

  lemma ApplyPut(edits: seq<Edit>, edit: Edit, assets: Manifest)
    ensures Apply(edits + [edit], assets) == ApplyOne(edit, Apply(edits, assets))
  {
    hide ApplyOne;
    assert (edits + [edit])[..|edits + [edit]| - 1] == edits;
  }

  lemma ApplyNothing(assets: Manifest)
    ensures Apply([], assets) == assets
  {
  }

  /** Closing the outermost batch writes what it holds, and a refused flush keeps it. */
  lemma CloseFollows(ledger: Ledger, locked: bool, state: State, disk: Manifest)
    requires Follows(ledger, state, disk)
    ensures Follows(Post(ledger, Close(locked)), Step(Commit(locked), state), disk)
  {
    hide Apply, Merge;
    if ledger.kept { FlushOntoBase(Apply(ledger.held, state.disk), state.disk); }
    ApplyJoin(ledger.written, ledger.held, disk);
  }

  lemma OpenFollows(ledger: Ledger, state: State, disk: Manifest)
    requires Follows(ledger, state, disk)
    ensures Follows(Post(ledger, Open), Step(Begin, state), disk)
  {
    hide Apply;
    ApplyNothing(state.disk);
  }

  lemma EditFollows(ledger: Ledger, edit: Edit, locked: bool, state: State, disk: Manifest)
    requires Follows(ledger, state, disk)
    ensures Follows(Post(ledger, Do(edit, locked)), Solo(StepsOf(Do(edit, locked)), state), disk)
  {
    hide Apply, ApplyOne, Solo, Steps;
    ApplyPut(ledger.held, edit, state.disk);
    ApplyPut(ledger.written, edit, disk);
    if ledger.kept { EditInBatch(edit, locked, state); } else { EditOutside(edit, locked, state); }
  }

  lemma PostFollows(ledger: Ledger, item: Item, state: State, disk: Manifest)
    requires Follows(ledger, state, disk)
    ensures Follows(Post(ledger, item), Solo(StepsOf(item), state), disk)
  {
    match item {
      case Open =>
        OpenFollows(ledger, state, disk);
        SoloOne(Begin, state);
      case Close(locked) =>
        CloseFollows(ledger, locked, state, disk);
        SoloOne(Commit(locked), state);
      case Do(edit, locked) => EditFollows(ledger, edit, locked, state, disk);
      case Discard =>
        hide Apply;
        SoloOne(Abort, state);
    }
  }

  /** Whatever a worker does by itself, the file holds exactly the edits its ledger calls
      written, and an open batch those and the held ones. */
  lemma {:induction false} HistoryFollows(items: seq<Item>, disk: Manifest)
    ensures Follows(Book(items), Solo(History(items), State(IDLE, disk)), disk)
  {
    if items == [] {
      ApplyNothing(disk);
    } else {
      var front, last := items[..|items| - 1], items[|items| - 1];
      HistoryFollows(front, disk);
      hide Follows, Post, StepsOf, Solo;
      PostFollows(Book(front), last, Solo(History(front), State(IDLE, disk)), disk);
      SoloJoin(History(front), StepsOf(last), State(IDLE, disk));
    }
  }

  /** The edits that took effect: those made in a batch, and those that got the lock. */
  function Accepted(items: seq<Item>): seq<Edit> {
    if items == [] then []
    else
      var front, last := items[..|items| - 1], items[|items| - 1];
      Accepted(front) + if last.Do? && (last.locked || Book(front).kept) then [last.edit] else []
  }

  ghost predicate NothingDiscarded(items: seq<Item>) {
    forall i :: 0 <= i < |items| ==> !items[i].Discard?
  }

  /** No accepted edit is lost, whatever fails in between: each is written or still held. */
  lemma {:induction false} NoEditLost(items: seq<Item>)
    requires NothingDiscarded(items)
    ensures Book(items).written + Book(items).held == Accepted(items)
    ensures !Book(items).kept ==> Book(items).depth == 0 && Book(items).held == []
  {
    if items != [] {
      var front, last := items[..|items| - 1], items[|items| - 1];
      NoEditLost(front);
      var before := Book(front);
      assert !last.Discard?;
      if last.Do? {
        assert before.written + (before.held + [last.edit]) == before.written + before.held + [last.edit];
        assert before.held == [] ==> before.written + [last.edit] + [] == before.written + before.held + [last.edit];
      } else {
        assert before.written + before.held + [] == before.written + before.held;
      }
    }
  }

  /** Once no batch is kept, a worker's history is its accepted edits applied one by one,
      as if there had been no batches: nested ones, flushes that failed, edits made before
      and after a failure and retries all come to the same. */
  lemma BatchIsEdits(items: seq<Item>, disk: Manifest)
    requires NothingDiscarded(items) && !Book(items).kept
    ensures Solo(History(items), State(IDLE, disk)) == State(IDLE, Apply(Accepted(items), disk))
  {
    HistoryFollows(items, disk);
    NoEditLost(items);
    hide Solo, Apply, Book, Accepted;
    assert Book(items).written + [] == Book(items).written;
  }

  /** Batching changes nothing about what a history leaves. */
  lemma BatchLikeUnbatched(items: seq<Item>, disk: Manifest)
    requires NothingDiscarded(items) && !Book(items).kept
    ensures Solo(History(items), State(IDLE, disk)) == Solo(Program(Accepted(items)), State(IDLE, disk))
  {
    hide Solo, History, Program, Apply, Accepted, Book, NothingDiscarded;
    BatchIsEdits(items, disk);
    Unbatched(Accepted(items), State(IDLE, disk));
  }

  lemma ViewIdle(homes: Homes, w: int)
    ensures View(homes, IDLE, w) == IDLE
  {
  }

  /** The steps of the items, and maybe the first half of one more unbatched or batched save. */
  ghost predicate Reached(items: seq<Item>, ops: seq<Op>) {
    ops == History(items) || exists image :: ops == History(items) + [Save(image)]
  }

  lemma SoloReached(items: seq<Item>, ops: seq<Op>, disk: Manifest)
    requires Reached(items, ops)
    ensures Solo(ops, State(IDLE, disk)).disk == Apply(Book(items).written, disk)
  {
    hide Solo, History, Apply, Book;
    HistoryFollows(items, disk);
    if ops != History(items) {
      var image :| ops == History(items) + [Save(image)];
      SoloJoin(History(items), [Save(image)], State(IDLE, disk));
      SoloOne(Save(image), Solo(History(items), State(IDLE, disk)));
    }
  }

  /** Whichever of its steps a worker has taken, they are those of the first of its items,
      and maybe the first half of a save. */
  lemma {:induction false} StepsReached(items: seq<Item>, n: nat) returns (sofar: seq<Item>)
    requires n <= |History(items)|
    ensures sofar <= items && Reached(sofar, History(items)[..n])
  {
    if n == |History(items)| {
      assert History(items)[..n] == History(items);
      return items;
    }
    var front, last := items[..|items| - 1], items[|items| - 1];
    if n <= |History(front)| {
      sofar := StepsReached(front, n);
      assert History(items)[..n] == History(front)[..n];
    } else {
      assert last.Do? && last.edit.Put?;
      assert History(items)[..n] == History(front) + [Save(last.edit.image)];
      sofar := front;
    }
  }

  /** In every interleaving, also halfway through a save, a worker's part of the manifest is
      exactly its written edits applied to what that part was. */
  lemma WrittenSoFar(homes: Homes, acts: seq<Act>, sys: System, w: nat, items: seq<Item>)
    requires Ready(homes, sys) && Acts(homes, acts, |sys.locals|) && w < |sys.locals|
    requires sys.locals[w] == IDLE && Reached(items, OnlyOf(acts, w))
    ensures Mine(homes, Run(acts, sys).disk, w) == Apply(Book(items).written, Mine(homes, sys.disk, w))
  {
    hide Ready, Acts, Run, OnlyOf, Solo, View, Mine, Reached, Apply, Book;
    Independent(homes, acts, sys, w);
    ViewIdle(homes, w);
    SoloReached(items, OnlyOf(acts, w), Mine(homes, sys.disk, w));
  }

  /** Once a worker keeps no batch, its part of the manifest is all its accepted edits
      applied, whatever it and the others did in between. */
  lemma CommittedBatches(homes: Homes, acts: seq<Act>, sys: System, w: nat, items: seq<Item>)
    requires Ready(homes, sys) && Acts(homes, acts, |sys.locals|) && w < |sys.locals|
    requires sys.locals[w] == IDLE && Reached(items, OnlyOf(acts, w))
    requires NothingDiscarded(items) && !Book(items).kept
    ensures Mine(homes, Run(acts, sys).disk, w) == Apply(Accepted(items), Mine(homes, sys.disk, w))
  {
    hide Ready, Acts, Run, OnlyOf, Mine, Reached, Apply, Book, Accepted, NothingDiscarded;
    WrittenSoFar(homes, acts, sys, w, items);
    NoEditLost(items);
    assert Book(items).written + [] == Book(items).written;
  }

  // ---------------------------------------------------------------- one after another

  /** The written edits of the histories, one history after another. */
  function ApplyWritten(histories: seq<seq<Item>>, assets: Manifest): Manifest {
    if histories == [] then assets
    else Apply(Book(histories[|histories| - 1]).written, ApplyWritten(histories[..|histories| - 1], assets))
  }

  /** The accepted edits of the histories, one history after another. */
  function ApplyAccepted(histories: seq<seq<Item>>, assets: Manifest): Manifest {
    if histories == [] then assets
    else Apply(Accepted(histories[|histories| - 1]), ApplyAccepted(histories[..|histories| - 1], assets))
  }

  lemma {:induction false} RunJoin(a: seq<Act>, b: seq<Act>, sys: System)
    ensures Run(a + b, sys) == Run(b, Run(a, sys))
    decreases |b|
  {
    hide After;
    if b == [] {
      assert a + b == a;
    } else {
      assert (a + b)[..|a + b| - 1] == a + b[..|b| - 1];
      RunJoin(a, b[..|b| - 1], sys);
    }
  }

  /** A worker's steps in a row are its solo run. */
  lemma {:induction false} RunInARow(ops: seq<Op>, w: nat, sys: System)
    requires w < |sys.locals|
    ensures var end := Solo(ops, State(sys.locals[w], sys.disk));
            Run(ActsOf(ops, w), sys) == System(end.disk, sys.locals[w := end.local])
  {
    hide StepLocal, StepDisk;
    if ops != [] {
      var front, last := ops[..|ops| - 1], Act(w, ops[|ops| - 1]);
      RunInARow(front, w, sys);
      assert (ActsOf(front, w) + [last])[..|ActsOf(front, w) + [last]| - 1] == ActsOf(front, w);
    }
  }

  /** Every worker starts idle and takes the steps of its history, the last save perhaps by
      half. */
  ghost predicate HistoryEach(acts: seq<Act>, sys: System, histories: seq<seq<Item>>) {
    |histories| == |sys.locals| && forall w: nat :: w < |sys.locals| ==> HistoryOf(acts, sys, histories, w)
  }

  ghost predicate HistoryOf(acts: seq<Act>, sys: System, histories: seq<seq<Item>>, w: nat)
    requires w < |sys.locals| && |histories| == |sys.locals|
  {
    sys.locals[w] == IDLE && Reached(histories[w], OnlyOf(acts, w))
  }

  lemma {:induction false} SerialHistories(acts: seq<Act>, sys: System, histories: seq<seq<Item>>, k: nat)
    requires HistoryEach(acts, sys, histories) && k <= |histories|
    ensures var after := Run(Serial(acts, k), sys);
            && after.disk == ApplyWritten(histories[..k], sys.disk) && |after.locals| == |sys.locals|
            && forall w: nat :: k <= w < |sys.locals| ==> after.locals[w] == sys.locals[w]
  {
    hide Run, OnlyOf, ActsOf, Solo, Apply, Reached, Book;
    if k == 0 {
      RunNothing(sys);
    } else {
      SerialHistories(acts, sys, histories, k - 1);
      assert HistoryOf(acts, sys, histories, k - 1);
      var before := Run(Serial(acts, k - 1), sys);
      RunJoin(Serial(acts, k - 1), ActsOf(OnlyOf(acts, k - 1), k - 1), sys);
      RunInARow(OnlyOf(acts, k - 1), k - 1, before);
      SoloReached(histories[k - 1], OnlyOf(acts, k - 1), before.disk);
      assert histories[..k][..k - 1] == histories[..k - 1];
    }
  }

  lemma RunNothing(sys: System)
    ensures Run([], sys) == sys
  {
  }

  /** The manifest is what the workers' written edits make of it, applied whole, one worker
      after another. */
  lemma WrittenOneAfterAnother(homes: Homes, acts: seq<Act>, sys: System, histories: seq<seq<Item>>)
    requires Ready(homes, sys) && Acts(homes, acts, |sys.locals|) && HistoryEach(acts, sys, histories)
    ensures Run(acts, sys).disk == ApplyWritten(histories, sys.disk)
  {
    hide Ready, Acts, Run, Serial, HistoryOf, ApplyWritten;
    Serializable(homes, acts, sys);
    SerialHistories(acts, sys, histories, |histories|);
    assert histories[..|histories|] == histories;
  }

  lemma {:induction false} SoFar(acts: seq<Act>, sys: System, histories: seq<seq<Item>>, m: nat, k: nat)
      returns (sofar: seq<seq<Item>>)
    requires HistoryEach(acts, sys, histories) && m <= |acts| && k <= |histories|
    ensures |sofar| == k
    ensures forall w: nat :: w < k ==> sofar[w] <= histories[w] && Reached(sofar[w], OnlyOf(acts[..m], w))
  {
    if k == 0 { return []; }
    assert HistoryOf(acts, sys, histories, k - 1);
    hide *;
    var before := SoFar(acts, sys, histories, m, k - 1);
    var items := FirstItems(acts, histories[k - 1], m, k - 1);
    sofar := before + [items];
    assert forall w: nat :: w < k - 1 ==> sofar[w] == before[w];
  }

  lemma FirstItems(acts: seq<Act>, items: seq<Item>, m: nat, w: nat) returns (sofar: seq<Item>)
    requires m <= |acts| && Reached(items, OnlyOf(acts, w))
    ensures sofar <= items && Reached(sofar, OnlyOf(acts[..m], w))
  {
    hide OnlyOf, History;
    var first, all := OnlyOf(acts[..m], w), OnlyOf(acts, w);
    assert acts == acts[..m] + acts[m..];
    OnlyOfJoin(acts[..m], acts[m..], w);
    assert all == first + OnlyOf(acts[m..], w) && History(items) <= all && |all| <= |History(items)| + 1;
    if |first| <= |History(items)| {
      sofar := StepsReached(items, |first|);
      assert first == all[..|first|] == History(items)[..|first|];
    } else {
      assert first == all;
      sofar := items;
    }
  }

  /** At every moment of every interleaving, halfway through saves included, the manifest is
      what the edits written by then make of it, applied whole, one worker after another. */
  lemma AtEveryMoment(homes: Homes, acts: seq<Act>, sys: System, histories: seq<seq<Item>>, m: nat)
      returns (sofar: seq<seq<Item>>)
    requires Ready(homes, sys) && Acts(homes, acts, |sys.locals|) && HistoryEach(acts, sys, histories)
    requires m <= |acts|
    ensures |sofar| == |histories| && HistoryEach(acts[..m], sys, sofar)
    ensures forall w: nat :: w < |histories| ==> sofar[w] <= histories[w]
    ensures Run(acts[..m], sys).disk == ApplyWritten(sofar, sys.disk)
  {
    hide Ready, OnlyOf, Run, Reached, ActOk, ApplyWritten;
    sofar := SoFar(acts, sys, histories, m, |histories|);
    forall w: nat | w < |sys.locals| ensures HistoryOf(acts[..m], sys, sofar, w) {
      assert HistoryOf(acts, sys, histories, w);
    }
    assert Acts(homes, acts[..m], |sys.locals|);
    hide *;
    WrittenOneAfterAnother(homes, acts[..m], sys, sofar);
  }

  /** No batch is kept at the end of a history, and none was discarded. */
  ghost predicate AllCommitted(histories: seq<seq<Item>>) {
    forall w :: 0 <= w < |histories| ==> NothingDiscarded(histories[w]) && !Book(histories[w]).kept
  }

  lemma {:induction false} AllWritten(histories: seq<seq<Item>>, assets: Manifest)
    requires AllCommitted(histories)
    ensures ApplyWritten(histories, assets) == ApplyAccepted(histories, assets)
  {
    hide Book, Accepted, Apply, NothingDiscarded;
    if histories != [] {
      var front, last := histories[..|histories| - 1], histories[|histories| - 1];
      forall w | 0 <= w < |front| ensures NothingDiscarded(front[w]) && !Book(front[w]).kept {
        assert front[w] == histories[w];
      }
      AllWritten(front, assets);
      NoEditLost(last);
      assert Book(last).written + [] == Book(last).written;
    }
  }

  /** Once every worker's last flush has succeeded, however their steps were interleaved,
      however batches were nested and however often flushes failed, before or between
      edits, the manifest is the workers' accepted edits applied one worker after another. */
  lemma BatchesOneAfterAnother(homes: Homes, acts: seq<Act>, sys: System, histories: seq<seq<Item>>)
    requires Ready(homes, sys) && Acts(homes, acts, |sys.locals|) && HistoryEach(acts, sys, histories)
    requires AllCommitted(histories)
    ensures Run(acts, sys).disk == ApplyAccepted(histories, sys.disk)
  {
    hide Ready, Acts, Run, HistoryEach, AllCommitted, ApplyWritten, ApplyAccepted;
    WrittenOneAfterAnother(homes, acts, sys, histories);
    AllWritten(histories, sys.disk);
  }
}
