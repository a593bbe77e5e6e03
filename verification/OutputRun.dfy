/** An output set driven from empty through any run of blocks, rewinds, commits, rollbacks, compactions and restarts. */
module OutputRuns {
  import opened Mmr
  import opened Chunks
  import opened SizeIndex
  import opened VariableFiles
  import opened BackendState
  import opened Backends
  import opened Merkle
  import opened History
  import opened OutputSets
  import opened ForkState
  import opened Navigation
  import CompactFiles
  import Ranks

  datatype Step =
    | Apply(body: Body)
    | Rewind(height: nat)
    | Commit
    | Rollback
    | Compact(height: nat)
    | Restart(sizeFileLost: bool)

  /** Whether blocks have been applied, or only rewound, since the last commit. */
  datatype Phase = Settled | Rewinding | Applying

  /** What is left of an output set when its files are forgotten. */
  datatype Ledger = Ledger(blocks: seq<Block>, saved: seq<Block>, horizon: nat, phase: Phase)

  const EMPTY := Ledger([], [], 0, Settled)

  /**
   A block that spends anything else than unspent outputs undoes all since the last commit, and so does
   a restart. A rewind or a compaction that is not possible is passed over.
   */
  ghost function Next(l: Ledger, step: Step): Ledger {
    match step
    case Apply(body) =>
      if Spendable(UnspentAt(l.blocks, |l.blocks|), body.inputs)
      then l.(blocks := l.blocks + [NextBlock(l.blocks, body)], phase := Applying)
      else l.(blocks := l.saved, phase := Settled)
    case Rewind(height) =>
      if l.phase != Applying && l.horizon <= height <= |l.blocks|
      then l.(blocks := l.blocks[..height], phase := Rewinding) else l
    case Commit => l.(saved := l.blocks, phase := Settled)
    case Rollback | Restart(_) => l.(blocks := l.saved, phase := Settled)
    case Compact(height) =>
      if l.phase == Settled && l.horizon <= height <= |l.blocks| then l.(horizon := height) else l
  }

  ghost function After(script: seq<Step>): Ledger {
    if script == [] then EMPTY else Next(After(script[..|script| - 1]), script[|script| - 1])
  }

  ghost function BytesIn(script: seq<Step>): nat {
    if script == [] then 0
    else
      var step := script[|script| - 1];
      BytesIn(script[..|script| - 1]) + if step.Apply? then |Concat(step.body.outputs)| else 0
  }

  /** The ledger holds no more bytes than the script has brought. */
  lemma {:induction false} BytesHeld(script: seq<Step>)
    ensures var l := After(script);
            && |Concat(OutputsAt(l.blocks, |l.blocks|))| <= BytesIn(script)
            && |Concat(OutputsAt(l.saved, |l.saved|))| <= BytesIn(script)
  {
    hide Concat, Spendable, UnspentAt, NextBlock;
    if script == [] {
      NoBytes();
    } else {
      var n := |script| - 1;
      BytesHeld(script[..n]);
      var l := After(script[..n]);
      match script[n]
      case Apply(body) => BytesAdded(l.blocks, body);
      case Rewind(height) =>
        if height <= |l.blocks| {
          PrefixAgrees(l.blocks, height, height);
          BytesGrow(l.blocks, height, |l.blocks|);
        }
      case _ =>
    }
  }

  lemma BytesAdded(blocks: seq<Block>, body: Body)
    ensures var all := blocks + [NextBlock(blocks, body)];
            |Concat(OutputsAt(all, |all|))| == |Concat(OutputsAt(blocks, |blocks|))| + |Concat(body.outputs)|
  {
    hide Concat;
    var all, n := blocks + [NextBlock(blocks, body)], |blocks|;
    assert all[..n] == blocks;
    PrefixAgrees(all, n, n);
    ConcatAppend(OutputsAt(all, n), body.outputs);
  }

  lemma {:induction false} BytesSoFar(script: seq<Step>, i: nat)
    requires i <= |script|
    ensures BytesIn(script[..i]) <= BytesIn(script)
    decreases |script|
  {
    hide Concat;
    if i < |script| {
      BytesSoFar(script[..|script| - 1], i);
      assert script[..|script| - 1][..i] == script[..i];
    } else {
      assert script[..i] == script;
    }
  }

  /** The output set is in the state the ledger tells. */
  ghost predicate Refines(utxo: OutputSet, l: Ledger)
    reads utxo, utxo.pmmr, utxo.pmmr.backend, utxo.pmmr.backend.hashFile, utxo.pmmr.backend.dataFile
    reads utxo.pmmr.backend.dataFile.sizeFile, utxo.pmmr.backend.pruneList, utxo.pmmr.backend.leafSet
  {
    && utxo.Valid() && utxo.blocks == l.blocks && utxo.savedBlocks == l.saved && utxo.horizon == l.horizon
    && (l.phase != Applying ==> utxo.Rewindable())
    && (l.phase == Settled ==> utxo.pmmr.backend.Synced() && l.blocks == l.saved)
    && Forked(l) && utxo.pmmr.backend.pruneList.leaves == DeadAt(l.blocks, l.horizon)
  }

  /** What is saved and what is there agree up to the horizon. */
  ghost predicate Forked(l: Ledger) {
    l.horizon <= |l.blocks| && l.horizon <= |l.saved| && l.blocks[..l.horizon] == l.saved[..l.horizon]
  }

  /** Whatever comes after a block, what was spent by then stays the same. */
  lemma DeadSame(a: seq<Block>, b: seq<Block>, k: nat)
    requires k <= |a| && k <= |b| && a[..k] == b[..k]
    ensures DeadAt(a, k) == DeadAt(b, k)
  {
    PrefixAgrees(a, k, k);
    PrefixAgrees(b, k, k);
  }

  /** No step but a compaction changes what was spent by the horizon. */
  lemma StepKeepsDead(l: Ledger, step: Step)
    requires Forked(l) && !step.Compact?
    ensures Forked(Next(l, step)) && Next(l, step).horizon == l.horizon
    ensures DeadAt(Next(l, step).blocks, l.horizon) == DeadAt(l.blocks, l.horizon)
  {
    hide DeadAt, Spendable, UnspentAt, NextBlock;
    DeadSame(l.blocks, Next(l, step).blocks, l.horizon);
  }

  /** The files hold the outputs of the blocks but for those spent by the horizon, and the hashes likewise. */
  lemma FilesOf(utxo: OutputSet, l: Ledger)
    requires Refines(utxo, l)
    ensures var b, dead := utxo.pmmr.backend, DeadAt(l.blocks, l.horizon);
            var size, outputs := SizeAt(l.blocks, |l.blocks|), OutputsAt(l.blocks, |l.blocks|);
            && size == |b.now.hashes| && LeafCount(size) == |outputs|
            && b.dataFile.working == CompactFiles.Stored(Ranks.Leaves, dead, size, outputs)
            && b.hashFile.working == CompactFiles.Stored(Ranks.Nodes, dead, size, b.now.hashes)
  {
    hide LeafCount, OutputsAt, UnspentAt, Linked, SafeFrom, DeadAt, Hashed;
  }

  /** Every element of a block has a size of its own and fits in the file. */
  ghost predicate Fits(reader: seq<byte> -> nat, step: Step) {
    step.Apply? ==> forall e :: e in step.body.outputs ==> Delimits(reader, e) && |e| < MAX_SIZE
  }

  function Parts(utxo: OutputSet): set<object> {
    {utxo, utxo.pmmr, utxo.pmmr.backend, utxo.pmmr.backend.hashFile, utxo.pmmr.backend.dataFile,
     utxo.pmmr.backend.dataFile.sizeFile, utxo.pmmr.backend.pruneList, utxo.pmmr.backend.leafSet}
  }

  /** Applies a block, and undoes everything since the last commit if that fails. */
  method ApplyOrRollback(utxo: OutputSet, body: Body) returns (ok: bool)
    requires utxo.Valid()
    requires forall e :: e in body.outputs ==> Delimits(utxo.pmmr.backend.dataFile.reader, e) && |e| < MAX_SIZE
    requires |Concat(OutputsAt(utxo.blocks, |utxo.blocks|))| + |Concat(body.outputs)| < MAX_OFFSET
    modifies Parts(utxo)
    ensures utxo.Valid() && utxo.savedBlocks == old(utxo.savedBlocks) && utxo.horizon == old(utxo.horizon)
    ensures utxo.pmmr.backend.pruneList.leaves == old(utxo.pmmr.backend.pruneList.leaves)
    ensures ok <==> Spendable(UnspentAt(old(utxo.blocks), |old(utxo.blocks)|), body.inputs)
    ensures ok ==> utxo.blocks == old(utxo.blocks) + [NextBlock(old(utxo.blocks), body)]
    ensures !ok ==> utxo.Rewindable() && utxo.pmmr.backend.Synced() && utxo.blocks == utxo.savedBlocks
  {
    hide OutputSet.Valid, OutputSet.SavedHolds, OutputSet.Rewindable, PMMRBackend.Synced, PMMRBackend.Valid;
    hide Spendable, UnspentAt, OutputsAt, Concat, Delimits, Positions, Linked, NextBlock;
    ghost var before := utxo.blocks;
    FileBytes(utxo);
    StateIsLinked(utxo);
    OldInputs(utxo, body.inputs);
    ok := forall x | x in body.inputs :: x <= utxo.pmmr.lastPos;
    if ok {
      ok := utxo.ApplyBlock(body.outputs, body.inputs);
    }
    if ok {
      StateIsLinked(utxo);
      AppliedIsNext(before, Block(utxo.pmmr.lastPos, body.outputs, Positions(body.inputs)), body);
    } else {
      utxo.Rollback();
    }
  }

  /** What lies behind the end of the range is not unspent. */
  lemma OldInputs(utxo: OutputSet, inputs: seq<Pos>)
    requires utxo.Valid()
    ensures Spendable(UnspentAt(utxo.blocks, |utxo.blocks|), inputs) ==>
              forall x :: x in inputs ==> x <= utxo.pmmr.lastPos
  {
    hide UnspentAt, PMMRBackend.Valid, Hashed, SafeFrom, OutputsAt, Linked;
    UnspentBelow(utxo.blocks, |utxo.blocks|);
  }

  lemma DeadAre(leaves: set<Pos>, blocks: seq<Block>, k: nat)
    requires k <= |blocks|
    requires forall x: Pos :: x in leaves <==> IsLeaf(x) && x <= SizeAt(blocks, k) && x !in UnspentAt(blocks, k)
    ensures leaves == DeadAt(blocks, k)
  {
  }

  lemma Unfolded(utxo: OutputSet, l: Ledger)
    requires Refines(utxo, l)
    ensures utxo.Valid() && utxo.SavedHolds()
  {
    hide OutputSet.SavedHolds;
  }

  /** Performs one step; `phase` and `horizon` tell which rewinds and compactions are possible. */
  method Perform(utxo: OutputSet, step: Step, phase: Phase, horizon: nat, ghost l: Ledger)
    returns (nextPhase: Phase, nextHorizon: nat)
    requires Refines(utxo, l) && phase == l.phase && horizon == l.horizon && !step.Restart?
    requires Fits(utxo.pmmr.backend.dataFile.reader, step)
    requires step.Apply? ==> |Concat(OutputsAt(l.blocks, |l.blocks|))| + |Concat(step.body.outputs)| < MAX_OFFSET
    modifies Parts(utxo)
    ensures Refines(utxo, Next(l, step)) && nextPhase == Next(l, step).phase && nextHorizon == Next(l, step).horizon
  {
    hide OutputSet.Valid, OutputSet.SavedHolds, OutputSet.Rewindable, PMMRBackend.Synced, PMMRBackend.Valid;
    hide Spendable, UnspentAt, OutputsAt, Concat, Delimits, Positions, Linked, NextBlock;
    hide DeadAt;
    Unfolded(utxo, l);
    if !step.Compact? { StepKeepsDead(l, step); }
    nextPhase, nextHorizon := phase, horizon;
    match step
    case Apply(body) =>
      var ok := ApplyOrRollback(utxo, body);
      nextPhase := if ok then Applying else Settled;
    case Rewind(height) =>
      if phase != Applying && horizon <= height <= |utxo.blocks| {
        utxo.RewindTo(height);
        nextPhase := Rewinding;
      }
    case Commit =>
      var _ := utxo.Commit();
      nextPhase := Settled;
    case Rollback =>
      utxo.Rollback();
      nextPhase := Settled;
    case Compact(height) =>
      if phase == Settled && horizon <= height <= |utxo.blocks| {
        utxo.Compact(height);
        DeadAre(utxo.pmmr.backend.pruneList.leaves, l.blocks, height);
        nextHorizon := height;
      }
  }

  /** Everything that is not on disk is lost, and the size file too if it is. */
  method Restarted(closed: OutputSet, lost: bool, ghost l: Ledger) returns (utxo: OutputSet)
    requires Refines(closed, l)
    ensures fresh(Parts(utxo)) && Refines(utxo, Next(l, Restart(lost)))
    ensures Next(l, Restart(lost)).phase == Settled && Next(l, Restart(lost)).horizon == l.horizon
    ensures utxo.pmmr.backend.dataFile.reader == closed.pmmr.backend.dataFile.reader
            && utxo.pmmr.hasher == closed.pmmr.hasher
  {
    hide OutputSet.Valid, OutputSet.SavedHolds, OutputSet.Rewindable, PMMRBackend.Synced, PMMRBackend.Valid;
    hide DeadAt;
    Unfolded(closed, l);
    StepKeepsDead(l, Restart(lost));
    WithoutSizeFile(closed);
    utxo := new OutputSet.Reopen(closed, if lost then [] else closed.pmmr.backend.dataFile.sizeFile.disk);
  }

  /** A size file is missed exactly if there is anything it would index. */
  lemma WithoutSizeFile(utxo: OutputSet)
    requires utxo.SavedHolds()
    ensures var file := utxo.pmmr.backend.dataFile; file.sizeFile.disk == [] || SumOfSizes([]) != |file.disk|
  {
    hide Hashed, Linked, UnspentAt, SafeFrom, OutputsAt, FilesHold;
    var file := utxo.pmmr.backend.dataFile;
    StreamHead(file.reader, file.committed);
  }

  /**
   Whatever is done to an output set from its creation on, its files and its bitmaps keep telling
   what the ledger tells: the blocks applied and not undone, and what the last commit saved.
   */
  method Run(reader: seq<byte> -> nat, hashing: Hasher, script: seq<Step>) returns (utxo: OutputSet)
    requires reader([]) == 0 && Produces(hashing, HASH_LEN)
    requires forall step :: step in script ==> Fits(reader, step)
    requires BytesIn(script) < MAX_OFFSET
    ensures fresh(Parts(utxo)) && Refines(utxo, After(script))
    ensures var l, b := After(script), utxo.pmmr.backend;
            && l.horizon <= |l.blocks| && b.pruneList.leaves == DeadAt(l.blocks, l.horizon)
            && LeafCount(SizeAt(l.blocks, |l.blocks|)) == |OutputsAt(l.blocks, |l.blocks|)|
            && b.dataFile.working ==
               CompactFiles.Stored(Ranks.Leaves, DeadAt(l.blocks, l.horizon), SizeAt(l.blocks, |l.blocks|),
                                   OutputsAt(l.blocks, |l.blocks|))
    ensures utxo.pmmr.backend.dataFile.reader == reader && utxo.pmmr.hasher == hashing
  {
    hide OutputSet.Valid, OutputSet.SavedHolds, OutputSet.Rewindable, PMMRBackend.Synced, PMMRBackend.Valid;
    hide Fits, Produces, OutputsAt, Concat, Next, DeadAt, LeafCount;
    NoneDead();
    utxo := new OutputSet.Empty(reader, hashing);
    var phase, horizon := Settled, 0;
    for i := 0 to |script|
      invariant fresh(Parts(utxo)) && Refines(utxo, After(script[..i]))
      invariant phase == After(script[..i]).phase && horizon == After(script[..i]).horizon
      invariant utxo.pmmr.backend.dataFile.reader == reader && utxo.pmmr.hasher == hashing
    {
      assert script[i] in script;
      assert script[..i + 1][..i] == script[..i];
      BytesHeld(script[..i]);
      BytesSoFar(script, i + 1);
      ghost var l := After(script[..i]);
      if script[i].Restart? {
        utxo := Restarted(utxo, script[i].sizeFileLost, l);
        phase := Settled;
      } else {
        phase, horizon := Perform(utxo, script[i], phase, horizon, l);
      }
    }
    assert script[..|script|] == script;
    FilesOf(utxo, After(script));
  }

  lemma NoneDead()
    ensures DeadAt([], 0) == {}
  {
  }
}
