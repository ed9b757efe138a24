/**
  Interleavings without any proviso: what survives all of them, exactly which commits keep the chains
  honest, and the two races that break a chain.
 */
module Races {
  import opened Basics
  import opened Crypto
  import opened Records
  import opened Layout
  import opened Validity
  import opened StoredChain
  import opened Verdicts
  import opened Storage
  import opened Outcomes
  import opened Steps
  import opened Runs
  import opened Sessions

  // ---------- What survives every interleaving ----------

  /** The database is the layout of some list: index n, and exactly the blocks 1 to n. */
  ghost predicate StoredDb(db: Db) {
    WellStored(StateOf(db)) && db == Store(StateOf(db))
  }

  ghost predicate StoredFiles(files: Files) {
    forall path :: path in files ==> StoredDb(files[path])
  }

  lemma HonestIsStored(c: Primitives, files: Files)
    requires HonestFiles(c, files)
    ensures StoredFiles(files)
  {
    hide HonestDb, StoredDb;
    forall path | path in files ensures StoredDb(files[path]) {
      HonestParts(c, files[path]);
      StoredMeaning(files[path]);
    }
  }

  lemma StoredMeaning(db: Db)
    ensures StoredDb(db) <==> WellStored(StateOf(db)) && db == Store(StateOf(db))
  {
  }

  /** Any block at all, appended to a stored list, leaves a stored list with that block at the end. */
  lemma StoredAppend(db: Db, b: Block)
    requires StoredDb(db) && AppendDb(db, b).Some?
    requires StateOf(db).Live? ==> StateOf(db).header.index < MAX_UINT64
    ensures StateOf(db).Live? && StoredDb(AppendDb(db, b).value)
    ensures StateOf(AppendDb(db, b).value) == Grown(StateOf(db), b)
  {
    hide StateOf, Store, AppendDb, WellStored;
    var st := StateOf(db);
    if st.Headerless? {
      NothingToAppendTo(b);
      assert false;
    }
    AppendIsSnoc(st.header, st.blocks, b);
    StateRoundTrip(Grown(st, b));
  }

  lemma NothingToAppendTo(b: Block)
    ensures AppendDb(Store(Headerless), b).None?
  {
  }

  /** What a commit does to stored files, whatever has happened since its block was made. */
  lemma CommitEffect(c: Primitives, faithful: bool, before: Files, after: Files, at: Client, ok: bool, n: nat)
    requires StoredFiles(before) && Room(before, n + 1) && at.HasBlock?
    requires Session(c, faithful, before, after, at, Idle, Commit(ok))
    ensures StoredFiles(after) && Room(after, n)
    ensures after == before ||
            (&& at.path in before && StateOf(before[at.path]).Live? && AppendDb(before[at.path], at.block).Some?
             && StateOf(before[at.path]).header.index as nat + n + 1 < MAX_UINT64 as nat
             && after == before[at.path := AppendDb(before[at.path], at.block).value]
             && StateOf(after[at.path]) == Grown(StateOf(before[at.path]), at.block))
  {
    hide StoredDb, StateOf, AppendDb;
    if at.path in before && AppendDb(before[at.path], at.block).Some? {
      StoredAppend(before[at.path], at.block);
    }
  }

  /** Every session leaves stored files, with no condition on who disturbed whom. */
  lemma SessionKeepsStored(c: Primitives, faithful: bool, before: Files, after: Files, at: Client, next: Client,
                           a: Action, n: nat)
    requires StoredFiles(before) && Room(before, n + 1)
    requires Session(c, faithful, before, after, at, next, a)
    ensures StoredFiles(after) && Room(after, n)
  {
    hide StoredDb, StateOf, AppendDb, ReadHeader, NextBlock, VerifyWith, NewDb, NewChain;
    match a
    case Commit(ok) => CommitEffect(c, faithful, before, after, at, ok, n);
    case Create(path, data, key, ok) =>
      EmptyDbIsHonest(c);
      HonestParts(c, map[]);
      StoredMeaning(map[]);
      if NewDb(c, data, key).Some? {
        var db := NewDb(c, data, key).value;
        CreateRefines(c, data, key);
        HonestParts(c, db);
        StoredMeaning(db);
        NewChainIndex(c, StateOf(db), data, key);
      }
    case _ => RoomShrinks(before, n + 1, n);
  }

  /**
    In every interleaving, races included, each database keeps the layout of a list: index n and
    exactly the blocks 1 to n.
   */
  lemma {:induction false} InterleavingsStayStored(c: Primitives, faithful: bool, trace: seq<System>,
                                                   steps: seq<(nat, Action)>, k: nat)
    requires Interleaving(c, faithful, trace, steps) && k <= |steps|
    requires StoredFiles(trace[0].files) && Room(trace[0].files, |steps|)
    ensures StoredFiles(trace[k].files) && Room(trace[k].files, |steps| - k)
  {
    hide StoredFiles, Room, Session;
    if k > 0 {
      InterleavingsStayStored(c, faithful, trace, steps, k - 1);
      var s, s', j := trace[k - 1], trace[k], steps[k - 1].0;
      assert ClientStep(c, faithful, s, s', j, steps[k - 1].1);
      SessionKeepsStored(c, faithful, s.files, s'.files, ClientAt(s, j), ClientAt(s', j), steps[k - 1].1, |steps| - k);
    }
  }

  // ---------- Which commits are safe ----------

  /** A block that was made on its own previous hash, whatever chain and key that was for. */
  predicate WellMade(c: Primitives, b: Block) {
    b.hash == c.hash(Hashed(b.prevHash, b))
  }

  predicate Made(c: Primitives, at: Client) {
    at.HasBlock? ==> WellMade(c, at.block)
  }

  /** The guard of a commit: the block follows the present tip and is signed with the present key. */
  predicate Follows(c: Primitives, st: ChainState, b: Block)
    requires st.Live?
  {
    && b.prevHash == TipOf(c, st)
    && c.verify(c.hash(BodyPreimage(b.prevHash, b.nonce, b.data)), st.header.publicKey, b.signature)
  }

  /** If the step is a commit that takes effect, its block passes the guard. */
  ghost predicate Guarded(c: Primitives, s: System, s': System, k: nat, a: Action) {
    var at := ClientAt(s, k);
    a.Commit? && s'.files != s.files && at.HasBlock? && at.path in s.files && StateOf(s.files[at.path]).Live? ==>
      Follows(c, StateOf(s.files[at.path]), at.block)
  }

  /**
    What the verifier says after a commit of any well-made block. On the present tip it says yes
    exactly when the signature is by the present key; on any other tip a yes computes a collision.
   */
  lemma CommitExact(c: Primitives, st: ChainState, b: Block)
    requires Honest(c, st) && st.Live? && st.header.index < MAX_UINT64 - 1
    requires WellMade(c, b) && AppendDb(Store(st), b).Some?
    ensures b.prevHash == TipOf(c, st) ==> (Accepts(c, AppendDb(Store(st), b).value) <==> Follows(c, st, b))
    ensures b.prevHash != TipOf(c, st) && Accepts(c, AppendDb(Store(st), b).value) ==>
              Collides(c, Hashed(b.prevHash, b), Hashed(TipOf(c, st), b))
  {
    CommitVerdict(c, st, b);
    var tip := TipOf(c, st);
    if b.prevHash != tip && Hashed(b.prevHash, b) == Hashed(tip, b) {
      BlockPreimageInjective(b.prevHash, b.nonce, b.data, b.signature, tip, b.nonce, b.data, b.signature);
    }
    hide Honest, Store, AppendDb, Accepts, Genesis, Tip;
  }

  lemma CommitVerdict(c: Primitives, st: ChainState, b: Block)
    requires Honest(c, st) && st.Live? && st.header.index < MAX_UINT64 - 1
    requires AppendDb(Store(st), b).Some?
    ensures Accepts(c, AppendDb(Store(st), b).value) <==> BlockOk(c, st.header.publicKey, TipOf(c, st), b)
    ensures StateOf(AppendDb(Store(st), b).value) == Grown(st, b)
  {
    hide Store, AppendDb, Genesis, BlockOk, ReadHeader, StoredBlocks, PackHeader, PackBlock, StateOf;
    var h, bs := st.header, st.blocks;
    AppendIsSnoc(h, bs, b);
    var grown := Grown(st, b);
    StateRoundTrip(grown);
    HeaderReadsBack(grown.header, grown.blocks);
    StoredBlocksIsList(grown.header, grown.blocks);
    SameGenesis(c, h, h.index + 1);
    assert (bs + [b])[..|bs|] == bs;
  }

  /** The chain is honest after a commit of a well-made block if and only if the guard held before. */
  lemma CommitHonestExactly(c: Primitives, st: ChainState, b: Block)
    requires Honest(c, st) && st.Live? && st.header.index < MAX_UINT64
    requires WellMade(c, b) && AppendDb(Store(st), b).Some?
    ensures HonestDb(c, AppendDb(Store(st), b).value) <==> Follows(c, st, b)
  {
    if Follows(c, st, b) {
      hide Store, AppendDb, StateOf, Honest, HonestDb, Genesis, Tip, BodyPreimage, BlockPreimage;
      HonestGrowth(c, st, b);
    } else if HonestDb(c, AppendDb(Store(st), b).value) {
      hide Store, AppendDb, StateOf, Genesis, WellStored, BodyPreimage, BlockPreimage;
      AppendIsSnoc(st.header, st.blocks, b);
      StateRoundTrip(Grown(st, b));
      SameGenesis(c, st.header, st.header.index + 1);
      LastOfHonest(c, st, b);
      assert false;
    }
  }

  lemma LastOfHonest(c: Primitives, st: ChainState, b: Block)
    requires st.Live? && st.header.index < MAX_UINT64 && Honest(c, Grown(st, b))
    ensures Follows(c, st, b)
  {
    hide WellStored, BodyPreimage, BlockPreimage;
    SameGenesis(c, st.header, st.header.index + 1);
    hide Genesis;
    var genesis, bs := Genesis(c, st.header), st.blocks + [b];
    assert bs[..|st.blocks|] == st.blocks && bs[|st.blocks|] == b;
    assert b.prevHash == Before(genesis, bs, |st.blocks|);
  }

  // ---------- The guard over whole interleavings ----------

  lemma SessionMakes(c: Primitives, faithful: bool, before: Files, after: Files, at: Client, next: Client, a: Action)
    requires Session(c, faithful, before, after, at, next, a)
    ensures Made(c, next)
  {
    hide ReadHeader, ReadPrev, AppendDb, VerifyWith, NewDb, BodyPreimage, BlockPreimage;
  }

  /** From honest files one step leads to honest files if and only if it is guarded. */
  lemma StepHonestExactly(c: Primitives, faithful: bool, s: System, s': System, k: nat, a: Action, n: nat)
    requires HonestFiles(c, s.files) && Room(s.files, n + 1) && Made(c, ClientAt(s, k))
    requires ClientStep(c, faithful, s, s', k, a)
    ensures HonestFiles(c, s'.files) <==> Guarded(c, s, s', k, a)
  {
    var at, next := ClientAt(s, k), ClientAt(s', k);
    if a.Commit? {
      CommitStepExactly(c, faithful, s.files, s'.files, at, a.ok, n);
    } else if a.Create? {
      hide HonestFiles, Room, CreateOutcome, ListStep;
      CreateStepRefines(c, faithful, s.files, s'.files, Created(a.path, a.data, a.key, a.ok), n);
    } else if a.Remove? {
      hide HonestFiles, Room, RemoveOutcome, ListStep;
      OtherStepRefines(c, faithful, s.files, s'.files, Removed(a.path, a.ok), n);
    } else {
      hide HonestFiles, Room, ReadHeader, NextBlock, VerifyWith;
    }
  }

  lemma CommitStepExactly(c: Primitives, faithful: bool, before: Files, after: Files, at: Client, ok: bool, n: nat)
    requires HonestFiles(c, before) && Room(before, n + 1) && at.HasBlock? && WellMade(c, at.block)
    requires Session(c, faithful, before, after, at, Idle, Commit(ok))
    ensures after == before ||
            (&& at.path in before && StateOf(before[at.path]).Live?
             && (HonestFiles(c, after) <==> Follows(c, StateOf(before[at.path]), at.block)))
  {
    HonestIsStored(c, before);
    hide StoredFiles, Room, Session;
    CommitEffect(c, faithful, before, after, at, ok, n);
    hide HonestDb, StateOf, AppendDb, Follows, WellMade;
    if after != before {
      var db := before[at.path];
      HonestParts(c, db);
      hide Store, Honest;
      CommitHonestExactly(c, StateOf(db), at.block);
    }
  }

  /** A commit that takes effect unguarded leaves a chain that the verifier rejects, or that shows a collision. */
  lemma UnguardedCommitRejected(c: Primitives, faithful: bool, s: System, s': System, k: nat, a: Action, n: nat)
    requires HonestFiles(c, s.files) && Room(s.files, n + 1) && Made(c, ClientAt(s, k))
    requires ClientStep(c, faithful, s, s', k, a) && !Guarded(c, s, s', k, a)
    ensures var at := ClientAt(s, k);
            && at.HasBlock? && at.path in s.files && StateOf(s.files[at.path]).Live? && at.path in s'.files
            && var tip := TipOf(c, StateOf(s.files[at.path]));
               Accepts(c, s'.files[at.path]) ==>
                 tip != at.block.prevHash && Collides(c, Hashed(at.block.prevHash, at.block), Hashed(tip, at.block))
  {
    var at := ClientAt(s, k);
    HonestIsStored(c, s.files);
    hide StoredFiles, Room;
    CommitEffect(c, faithful, s.files, s'.files, at, a.ok, n);
    hide Session, HonestDb, StateOf, AppendDb, WellMade, Follows, Accepts, Hashed, TipOf;
    var db := s.files[at.path];
    HonestParts(c, db);
    hide Store, Honest;
    CommitExact(c, StateOf(db), at.block);
  }

  ghost predicate AllMade(c: Primitives, s: System) {
    forall k :: k in s.clients ==> Made(c, s.clients[k])
  }

  lemma {:induction false} InterleavingsMake(c: Primitives, faithful: bool, trace: seq<System>,
                                             steps: seq<(nat, Action)>, k: nat)
    requires Interleaving(c, faithful, trace, steps) && k <= |steps| && AllMade(c, trace[0])
    ensures AllMade(c, trace[k])
    ensures forall j :: Made(c, ClientAt(trace[k], j))
  {
    hide Session;
    if k > 0 {
      InterleavingsMake(c, faithful, trace, steps, k - 1);
      var s, s', j := trace[k - 1], trace[k], steps[k - 1].0;
      assert ClientStep(c, faithful, s, s', j, steps[k - 1].1);
      SessionMakes(c, faithful, s.files, s'.files, ClientAt(s, j), ClientAt(s', j), steps[k - 1].1);
      hide Made;
    }
    IdleIsMade(c);
  }

  lemma IdleIsMade(c: Primitives)
    ensures Made(c, Idle)
  {
  }

  ghost predicate GuardedUpTo(c: Primitives, trace: seq<System>, steps: seq<(nat, Action)>, k: nat)
    requires |trace| == |steps| + 1 && k <= |steps|
  {
    forall i :: 0 <= i < k ==> Guarded(c, trace[i], trace[i + 1], steps[i].0, steps[i].1)
  }

  ghost predicate HonestUpTo(c: Primitives, trace: seq<System>, k: nat)
    requires k < |trace|
  {
    forall i :: 0 <= i <= k ==> HonestFiles(c, trace[i].files)
  }

  /**
    The exact condition, over every interleaving of any clients: all chains are honest at every point
    if and only if every commit that takes effect passes the guard.
   */
  lemma {:induction false} InterleavingExact(c: Primitives, faithful: bool, trace: seq<System>,
                                             steps: seq<(nat, Action)>, k: nat)
    requires Interleaving(c, faithful, trace, steps) && k <= |steps|
    requires HonestFiles(c, trace[0].files) && Room(trace[0].files, |steps|) && AllMade(c, trace[0])
    ensures HonestUpTo(c, trace, k) <==> GuardedUpTo(c, trace, steps, k)
  {
    hide HonestFiles, Room, Guarded, AllMade, Interleaving, HonestUpTo, GuardedUpTo;
    OneLonger(c, faithful, trace, steps);
    if k == 0 {
      NothingToGuard(c, trace, steps);
    } else {
      UpToNext(c, trace, steps, k);
      InterleavingExact(c, faithful, trace, steps, k - 1);
      if HonestFiles(c, trace[k - 1].files) {
        NextHonestExactly(c, faithful, trace, steps, k - 1);
      }
    }
  }

  lemma OneLonger(c: Primitives, faithful: bool, trace: seq<System>, steps: seq<(nat, Action)>)
    requires Interleaving(c, faithful, trace, steps)
    ensures |trace| == |steps| + 1
  {
  }

  lemma NothingToGuard(c: Primitives, trace: seq<System>, steps: seq<(nat, Action)>)
    requires |trace| == |steps| + 1
    ensures GuardedUpTo(c, trace, steps, 0)
    ensures HonestUpTo(c, trace, 0) <==> HonestFiles(c, trace[0].files)
  {
    hide HonestFiles;
  }

  lemma NextHonestExactly(c: Primitives, faithful: bool, trace: seq<System>, steps: seq<(nat, Action)>, k: nat)
    requires Interleaving(c, faithful, trace, steps) && k < |steps|
    requires HonestFiles(c, trace[0].files) && Room(trace[0].files, |steps|) && AllMade(c, trace[0])
    requires HonestFiles(c, trace[k].files)
    ensures HonestFiles(c, trace[k + 1].files) <==> Guarded(c, trace[k], trace[k + 1], steps[k].0, steps[k].1)
  {
    assert ClientStep(c, faithful, trace[k], trace[k + 1], steps[k].0, steps[k].1);
    hide HonestFiles, StoredFiles, Room, ClientStep, Guarded, Made, AllMade, Interleaving;
    InterleavingsMake(c, faithful, trace, steps, k);
    HonestIsStored(c, trace[0].files);
    InterleavingsStayStored(c, faithful, trace, steps, k);
    StepHonestExactly(c, faithful, trace[k], trace[k + 1], steps[k].0, steps[k].1, |steps| - k - 1);
  }

  lemma UpToNext(c: Primitives, trace: seq<System>, steps: seq<(nat, Action)>, k: nat)
    requires |trace| == |steps| + 1 && 0 < k <= |steps|
    ensures HonestUpTo(c, trace, k) <==> HonestUpTo(c, trace, k - 1) && HonestFiles(c, trace[k].files)
    ensures HonestUpTo(c, trace, k - 1) ==> HonestFiles(c, trace[k - 1].files)
    ensures GuardedUpTo(c, trace, steps, k) <==>
            GuardedUpTo(c, trace, steps, k - 1) && Guarded(c, trace[k - 1], trace[k], steps[k - 1].0, steps[k - 1].1)
  {
    hide HonestFiles, Guarded;
  }

  /**
    While every commit is guarded every chain is accepted; after the first that is not, one is rejected or
    shows a collision.
   */
  lemma InterleavingVerdicts(c: Primitives, faithful: bool, trace: seq<System>, steps: seq<(nat, Action)>, k: nat)
    requires Interleaving(c, faithful, trace, steps) && k <= |steps|
    requires HonestFiles(c, trace[0].files) && Room(trace[0].files, |steps|) && AllMade(c, trace[0])
    requires GuardedUpTo(c, trace, steps, k)
    ensures forall path :: path in trace[k].files ==> trace[k].files[path] == map[] || Accepts(c, trace[k].files[path])
    ensures k < |steps| && !Guarded(c, trace[k], trace[k + 1], steps[k].0, steps[k].1) ==>
              var at := ClientAt(trace[k], steps[k].0);
              && at.HasBlock? && at.path in trace[k].files && StateOf(trace[k].files[at.path]).Live?
              && at.path in trace[k + 1].files
              && (Accepts(c, trace[k + 1].files[at.path]) ==>
                    Collides(c, Hashed(at.block.prevHash, at.block),
                             Hashed(TipOf(c, StateOf(trace[k].files[at.path])), at.block)))
  {
    InterleavingExact(c, faithful, trace, steps, k);
    InterleavingsMake(c, faithful, trace, steps, k);
    HonestIsStored(c, trace[0].files);
    InterleavingsStayStored(c, faithful, trace, steps, k);
    assert HonestFiles(c, trace[k].files);
    assert k < |steps| ==> ClientStep(c, faithful, trace[k], trace[k + 1], steps[k].0, steps[k].1);
    hide HonestFiles, StoredFiles, Room, ClientStep, Guarded, Made, AllMade, Interleaving, Accepts, Hashed, TipOf,
      StateOf, HonestUpTo, GuardedUpTo;
    HonestFilesAccepted(c, trace[k].files, |steps| - k);
    if k < |steps| && !Guarded(c, trace[k], trace[k + 1], steps[k].0, steps[k].1) {
      UnguardedCommitRejected(c, faithful, trace[k], trace[k + 1], steps[k].0, steps[k].1, |steps| - k - 1);
    }
  }

  lemma HonestFilesAccepted(c: Primitives, files: Files, n: nat)
    requires HonestFiles(c, files) && Room(files, n)
    ensures forall path :: path in files ==> files[path] == map[] || Accepts(c, files[path])
  {
    hide HonestDb, StateOf, Accepts;
    forall path | path in files ensures files[path] == map[] || Accepts(c, files[path]) {
      HonestVerdict(c, files[path]);
    }
  }

  /** The proviso of `Sessions` is one way to meet the guard: respectful interleavings are guarded throughout. */
  lemma RespectfulIsGuarded(c: Primitives, faithful: bool, trace: seq<System>, steps: seq<(nat, Action)>)
    requires c.Lawful() && Interleaving(c, faithful, trace, steps) && Respectful(trace, steps)
    requires Inv(c, trace[0]) && Room(trace[0].files, |steps|)
    ensures GuardedUpTo(c, trace, steps, |steps|)
  {
    hide Inv, Room, Interleaving, Guarded, Accepts;
    forall i | 0 <= i < |steps| ensures Guarded(c, trace[i], trace[i + 1], steps[i].0, steps[i].1) {
      InterleavingsStayHonest(c, faithful, trace, steps, i);
      FittingIsGuarded(c, trace[i], trace[i + 1], steps[i].0, steps[i].1);
    }
  }

  lemma FittingIsGuarded(c: Primitives, s: System, s': System, k: nat, a: Action)
    requires Inv(c, s)
    ensures Guarded(c, s, s', k, a)
  {
    hide HonestFiles, StateOf, BodyPreimage, BlockPreimage, TipOf;
  }

  // ---------- Two appends that race ----------

  /** Two clients that read the same tip and then both commit. */
  function RaceSteps(path: string, data: Bytes, nonce: Option<Nonce>, data': Bytes, nonce': Option<Nonce>)
    : seq<(nat, Action)>
  {
    [(1, BeginAppend(path, data)), (2, BeginAppend(path, data')),
     (1, MakeBlock(nonce)), (2, MakeBlock(nonce')),
     (1, Commit(true)), (2, Commit(true))]
  }

  /** The colliding inputs if the verifier still accepts the chain after a race of b and b'. */
  function RaceCollision(c: Primitives, st: ChainState, b: Block, b': Block): Comparison
    requires st.Live?
  {
    if b.hash != TipOf(c, st) then Collision(Hashed(b'.prevHash, b'), Hashed(b.hash, b'))
    else Compare(c, st.header, st.blocks, st.header, st.blocks + [b])
  }

  /** The two blocks of a race on an honest chain, and the room they need. */
  ghost predicate RaceReady(c: Primitives, st: ChainState, b: Block, b': Block) {
    && Honest(c, st) && st.Live? && st.header.index < MAX_UINT64 - 2
    && BlockOk(c, st.header.publicKey, TipOf(c, st), b) && b.prevHash == TipOf(c, st)
    && BlockOk(c, st.header.publicKey, TipOf(c, st), b') && b'.prevHash == TipOf(c, st)
    && AppendDb(Store(st), b).Some? && AppendDb(Store(Grown(st, b)), b').Some?
  }

  /** After a race the chain holds both blocks and the verifier rejects it, or the chain shows a collision. */
  lemma RaceVerdict(c: Primitives, st: ChainState, b: Block, b': Block)
    requires RaceReady(c, st, b, b')
    ensures AppendDb(Store(st), b).value == Store(Grown(st, b))
    ensures StateOf(AppendDb(Store(Grown(st, b)), b').value) == Grown(Grown(st, b), b')
    ensures Accepts(c, AppendDb(Store(Grown(st, b)), b').value) ==>
              && RaceCollision(c, st, b, b').Collision?
              && Collides(c, RaceCollision(c, st, b, b').x, RaceCollision(c, st, b, b').y)
  {
    assert WellMade(c, b');
    hide Store, AppendDb, Genesis, BlockOk, Accepts, StateOf, Hashed, Compare, HonestDb, WellStored, Linked,
      ValidBlocks, WellMade, Follows;
    var grown := Grown(st, b);
    HonestGrowth(c, st, b);
    CommitVerdict(c, grown, b');
    CommitExact(c, grown, b');
    SameGenesis(c, st.header, grown.header.index);
    if b.hash == TipOf(c, st) {
      TipCommitment(c, st.header, st.blocks, st.header, st.blocks + [b]);
    }
  }

  /** Such a race is an interleaving of two appends, in which the first commit breaks the proviso. */
  lemma RaceIsPossible(c: Primitives, path: string, db0: Db, db1: Db, db2: Db, h: Header,
                       data: Bytes, nonce: Option<Nonce>, b: Block, data': Bytes, nonce': Option<Nonce>, b': Block)
    returns (trace: seq<System>)
    requires ReadHeader(db0) == Some(h)
    requires NextBlock(c, db0, h, data, nonce) == Some(b) && NextBlock(c, db0, h, data', nonce') == Some(b')
    requires AppendDb(db0, b) == Some(db1) && AppendDb(db1, b') == Some(db2)
    ensures |trace| == 7 && Interleaving(c, true, trace, RaceSteps(path, data, nonce, data', nonce'))
    ensures trace[0] == System(map[path := db0], map[])
    ensures trace[6].files == map[path := db2]
    ensures !Undisturbed(trace[4], 1, Commit(true))
  {
    hide ReadHeader, NextBlock, AppendDb, ClientStep, Session, Interleaving, Spares;
    var f0, f1, f2 := map[path := db0], map[path := db1], map[path := db2];
    RaceSessions(c, path, db0, db1, db2, h, data, nonce, b, data', nonce', b');
    var s0 := System(f0, map[]);
    var s1 := Moved(c, s0, f0, 1, HasHeader(path, data, h), BeginAppend(path, data));
    var s2 := Moved(c, s1, f0, 2, HasHeader(path, data', h), BeginAppend(path, data'));
    var s3 := Moved(c, s2, f0, 1, HasBlock(path, b), MakeBlock(nonce));
    var s4 := Moved(c, s3, f0, 2, HasBlock(path, b'), MakeBlock(nonce'));
    var s5 := Moved(c, s4, f1, 1, Idle, Commit(true));
    var s6 := Moved(c, s5, f2, 2, Idle, Commit(true));
    trace := [s0, s1, s2, s3, s4, s5, s6];
    SixSteps(c, trace, RaceSteps(path, data, nonce, data', nonce'));
    RaceBreaksProviso(s4, path, b, b');
  }

  lemma RaceSessions(c: Primitives, path: string, db0: Db, db1: Db, db2: Db, h: Header,
                     data: Bytes, nonce: Option<Nonce>, b: Block, data': Bytes, nonce': Option<Nonce>, b': Block)
    requires ReadHeader(db0) == Some(h)
    requires NextBlock(c, db0, h, data, nonce) == Some(b) && NextBlock(c, db0, h, data', nonce') == Some(b')
    requires AppendDb(db0, b) == Some(db1) && AppendDb(db1, b') == Some(db2)
    ensures Session(c, true, map[path := db0], map[path := db0], Idle, HasHeader(path, data, h),
                    BeginAppend(path, data))
    ensures Session(c, true, map[path := db0], map[path := db0], Idle, HasHeader(path, data', h),
                    BeginAppend(path, data'))
    ensures Session(c, true, map[path := db0], map[path := db0], HasHeader(path, data, h), HasBlock(path, b),
                    MakeBlock(nonce))
    ensures Session(c, true, map[path := db0], map[path := db0], HasHeader(path, data', h), HasBlock(path, b'),
                    MakeBlock(nonce'))
    ensures Session(c, true, map[path := db0], map[path := db1], HasBlock(path, b), Idle, Commit(true))
    ensures Session(c, true, map[path := db1], map[path := db2], HasBlock(path, b'), Idle, Commit(true))
  {
    hide ReadHeader, NextBlock, AppendDb, VerifyWith, NewDb;
    assert map[path := db0][path := db1] == map[path := db1] && map[path := db1][path := db2] == map[path := db2];
  }

  lemma RaceBreaksProviso(s: System, path: string, b: Block, b': Block)
    requires ClientAt(s, 1) == HasBlock(path, b) && ClientAt(s, 2) == HasBlock(path, b')
    ensures !Undisturbed(s, 1, Commit(true))
  {
    assert !Spares(ClientAt(s, 1), Commit(true), s.clients[2]);
  }

  lemma Moved(c: Primitives, s: System, after: Files, k: nat, next: Client, a: Action) returns (s': System)
    requires Session(c, true, s.files, after, ClientAt(s, k), next, a)
    ensures s' == System(after, s.clients[k := next]) && ClientStep(c, true, s, s', k, a)
  {
    s' := System(after, s.clients[k := next]);
  }

  lemma SixSteps(c: Primitives, trace: seq<System>, steps: seq<(nat, Action)>)
    requires |trace| == 7 && |steps| == 6
    requires ClientStep(c, true, trace[0], trace[1], steps[0].0, steps[0].1)
    requires ClientStep(c, true, trace[1], trace[2], steps[1].0, steps[1].1)
    requires ClientStep(c, true, trace[2], trace[3], steps[2].0, steps[2].1)
    requires ClientStep(c, true, trace[3], trace[4], steps[3].0, steps[3].1)
    requires ClientStep(c, true, trace[4], trace[5], steps[4].0, steps[4].1)
    requires ClientStep(c, true, trace[5], trace[6], steps[5].0, steps[5].1)
    ensures Interleaving(c, true, trace, steps)
  {
    hide ClientStep;
    forall i | 0 <= i < 6 ensures ClientStep(c, true, trace[i], trace[i + 1], steps[i].0, steps[i].1) {
      if i == 0 {} else if i == 1 {} else if i == 2 {} else if i == 3 {} else if i == 4 {} else {}
    }
  }

  /** From any honest chain with room, two racing appends end in a chain that is rejected, or that shows a collision. */
  lemma RaceBreaksChain(c: Primitives, st: ChainState, path: string, data: Bytes, nonce: Option<Nonce>, data': Bytes,
                        nonce': Option<Nonce>, b: Block, b': Block)
    returns (trace: seq<System>)
    requires c.Lawful() && Honest(c, st) && st.Live? && st.header.index < MAX_UINT64 - 2
    requires NextInList(c, st, data, nonce) == Some(b) && NextInList(c, st, data', nonce') == Some(b')
    requires AppendDb(Store(st), b).Some? && AppendDb(Store(Grown(st, b)), b').Some?
    ensures |trace| == 7 && Interleaving(c, true, trace, RaceSteps(path, data, nonce, data', nonce'))
    ensures trace[0] == System(map[path := Store(st)], map[])
    ensures path in trace[6].files && StateOf(trace[6].files[path]) == Grown(Grown(st, b), b')
    ensures Accepts(c, trace[6].files[path]) ==>
              && RaceCollision(c, st, b, b').Collision?
              && Collides(c, RaceCollision(c, st, b, b').x, RaceCollision(c, st, b, b').y)
  {
    hide Store, AppendDb, Genesis, Accepts, StateOf, Hashed, BodyPreimage, BlockPreimage, Interleaving, ReadHeader,
      ReadPrev, WellStored, ValidChain, Linked, Grown, RaceCollision, Tip;
    HeaderReadsBack(st.header, st.blocks);
    PrevIsTip(c, st.header, st.blocks);
    assert RaceReady(c, st, b, b') by {
      hide Honest;
      BuiltOnTip(c, st, data, nonce, b);
      BuiltOnTip(c, st, data', nonce', b');
    }
    RaceVerdict(c, st, b, b');
    var db1 := AppendDb(Store(st), b).value;
    trace := RaceIsPossible(c, path, Store(st), db1, AppendDb(db1, b').value, st.header, data, nonce, b, data', nonce',
                            b');
  }

  lemma BuiltOnTip(c: Primitives, st: ChainState, data: Bytes, nonce: Option<Nonce>, b: Block)
    requires c.Lawful() && st.Live? && c.publicKey(st.header.privateKey) == Some(st.header.publicKey)
    requires NextInList(c, st, data, nonce) == Some(b)
    ensures BlockOk(c, st.header.publicKey, TipOf(c, st), b) && b.prevHash == TipOf(c, st)
  {
  }

  // ---------- An append that races with a removal ----------

  /** A client makes its block; another removes the chain and creates it again; the first one commits. */
  function RecreateSteps(path: string, data: Bytes, nonce: Option<Nonce>, data': Bytes, key': Option<PrivateKey>)
    : seq<(nat, Action)>
  {
    [(1, BeginAppend(path, data)), (1, MakeBlock(nonce)),
     (2, Remove(path, true)), (2, Create(path, data', key', true)),
     (1, Commit(true))]
  }

  /** The colliding inputs if the verifier still accepts the new chain with the old chain's block. */
  function RecreateCollision(c: Primitives, st: ChainState, h': Header, b: Block): Comparison
    requires st.Live?
  {
    if b.prevHash != Genesis(c, h') then Collision(Hashed(b.prevHash, b), Hashed(Genesis(c, h'), b))
    else Compare(c, st.header, st.blocks, h', [])
  }

  /** The new chain, with the old chain's block committed to it, is rejected or shows a collision. */
  lemma RecreateVerdict(c: Primitives, st: ChainState, anew: ChainState, b: Block)
    requires Honest(c, st) && st.Live? && b.prevHash == TipOf(c, st) && WellMade(c, b)
    requires Honest(c, anew) && anew.Live? && anew.blocks == [] && anew.header.index == 0
    requires !SameChain(st.header, st.blocks, anew.header, [])
    requires AppendDb(Store(anew), b).Some?
    ensures StateOf(AppendDb(Store(anew), b).value) == Grown(anew, b)
    ensures Accepts(c, AppendDb(Store(anew), b).value) ==>
              var e := RecreateCollision(c, st, anew.header, b); e.Collision? && Collides(c, e.x, e.y)
  {
    hide Store, AppendDb, StateOf, Genesis, Accepts, Hashed, Compare, WellStored, Linked, ValidBlocks, Follows,
      WellMade, SameChain;
    CommitVerdict(c, anew, b);
    CommitExact(c, anew, b);
    if b.prevHash == Genesis(c, anew.header) {
      TipCommitment(c, st.header, st.blocks, anew.header, []);
    }
  }

  lemma RecreateSessions(c: Primitives, path: string, db0: Db, db1: Db, db2: Db, h: Header,
                         data: Bytes, nonce: Option<Nonce>, b: Block, data': Bytes, key': Option<PrivateKey>)
    requires ReadHeader(db0) == Some(h) && NextBlock(c, db0, h, data, nonce) == Some(b)
    requires NewDb(c, data', key') == Some(db1) && AppendDb(db1, b) == Some(db2)
    ensures Session(c, true, map[path := db0], map[path := db0], Idle, HasHeader(path, data, h),
                    BeginAppend(path, data))
    ensures Session(c, true, map[path := db0], map[path := db0], HasHeader(path, data, h), HasBlock(path, b),
                    MakeBlock(nonce))
    ensures Session(c, true, map[path := db0], map[], Idle, Idle, Remove(path, true))
    ensures Session(c, true, map[], map[path := db1], Idle, Idle, Create(path, data', key', true))
    ensures Session(c, true, map[path := db1], map[path := db2], HasBlock(path, b), Idle, Commit(true))
  {
    hide ReadHeader, NextBlock, AppendDb, VerifyWith, NewDb;
    assert map[path := db0] - {path} == map[];
    assert map[path := db1][path := db2] == map[path := db2];
  }

  lemma RecreateIsPossible(c: Primitives, path: string, db0: Db, db1: Db, db2: Db, h: Header,
                           data: Bytes, nonce: Option<Nonce>, b: Block, data': Bytes, key': Option<PrivateKey>)
    returns (trace: seq<System>)
    requires ReadHeader(db0) == Some(h) && NextBlock(c, db0, h, data, nonce) == Some(b)
    requires NewDb(c, data', key') == Some(db1) && AppendDb(db1, b) == Some(db2)
    ensures |trace| == 6 && Interleaving(c, true, trace, RecreateSteps(path, data, nonce, data', key'))
    ensures trace[0] == System(map[path := db0], map[])
    ensures trace[5].files == map[path := db2]
  {
    hide ReadHeader, NextBlock, AppendDb, NewDb, ClientStep, Session, Interleaving;
    RecreateSessions(c, path, db0, db1, db2, h, data, nonce, b, data', key');
    var s0 := System(map[path := db0], map[]);
    var s1 := Moved(c, s0, s0.files, 1, HasHeader(path, data, h), BeginAppend(path, data));
    var s2 := Moved(c, s1, s0.files, 1, HasBlock(path, b), MakeBlock(nonce));
    var s3 := Moved(c, s2, map[], 2, Idle, Remove(path, true));
    var s4 := Moved(c, s3, map[path := db1], 2, Idle, Create(path, data', key', true));
    var s5 := Moved(c, s4, map[path := db2], 1, Idle, Commit(true));
    trace := [s0, s1, s2, s3, s4, s5];
    FiveSteps(c, trace, RecreateSteps(path, data, nonce, data', key'));
  }

  lemma FiveSteps(c: Primitives, trace: seq<System>, steps: seq<(nat, Action)>)
    requires |trace| == 6 && |steps| == 5
    requires ClientStep(c, true, trace[0], trace[1], steps[0].0, steps[0].1)
    requires ClientStep(c, true, trace[1], trace[2], steps[1].0, steps[1].1)
    requires ClientStep(c, true, trace[2], trace[3], steps[2].0, steps[2].1)
    requires ClientStep(c, true, trace[3], trace[4], steps[3].0, steps[3].1)
    requires ClientStep(c, true, trace[4], trace[5], steps[4].0, steps[4].1)
    ensures Interleaving(c, true, trace, steps)
  {
    hide ClientStep;
    forall i | 0 <= i < 5 ensures ClientStep(c, true, trace[i], trace[i + 1], steps[i].0, steps[i].1) {
      if i == 0 {} else if i == 1 {} else if i == 2 {} else if i == 3 {} else {}
    }
  }

  function NewHeader(c: Primitives, data: Bytes, key: PrivateKey): Header
    requires c.publicKey(key).Some?
  {
    Header(DB_VERSION, 0, data, key, c.publicKey(key).value)
  }

  /**
    From any honest chain, an append that another client interrupts by removing the chain and creating
    it anew ends in a chain that is rejected or shows a collision, unless the very same empty chain
    came back.
   */
  lemma RecreateBreaksChain(c: Primitives, st: ChainState, path: string, data: Bytes, nonce: Option<Nonce>, b: Block,
                            data': Bytes, key': PrivateKey)
    returns (trace: seq<System>)
    requires Honest(c, st) && st.Live? && NextInList(c, st, data, nonce) == Some(b)
    requires NewDb(c, data', Some(key')).Some? && AppendDb(NewDb(c, data', Some(key')).value, b).Some?
    requires !SameChain(st.header, st.blocks, NewHeader(c, data', key'), [])
    ensures |trace| == 6 && Interleaving(c, true, trace, RecreateSteps(path, data, nonce, data', Some(key')))
    ensures trace[0] == System(map[path := Store(st)], map[])
    ensures path in trace[5].files && StateOf(trace[5].files[path]) == Grown(Live(NewHeader(c, data', key'), []), b)
    ensures Accepts(c, trace[5].files[path]) ==>
              var e := RecreateCollision(c, st, NewHeader(c, data', key'), b); e.Collision? && Collides(c, e.x, e.y)
  {
    var db := NewDb(c, data', Some(key')).value;
    var anew := Live(NewHeader(c, data', key'), []);
    CreatedIsHonest(c, data', key', c.publicKey(key').value);
    HonestParts(c, db);
    HeaderReadsBack(st.header, st.blocks);
    MadeOnTip(c, st, data, nonce, b);
    hide Store, AppendDb, NewDb, StateOf, Accepts, Honest, HonestDb, WellStored, ReadHeader, NextBlock, NextInList,
      SameChain, RecreateCollision, WellMade, Grown, Interleaving, PackHeader, PackBlock;
    RecreateVerdict(c, st, anew, b);
    trace := RecreateIsPossible(c, path, Store(st), db, AppendDb(db, b).value, st.header, data, nonce, b, data',
                                Some(key'));
  }

  /** The block of a client that was not disturbed: on the tip, and made on it. */
  lemma MadeOnTip(c: Primitives, st: ChainState, data: Bytes, nonce: Option<Nonce>, b: Block)
    requires Honest(c, st) && st.Live? && NextInList(c, st, data, nonce) == Some(b)
    ensures NextBlock(c, Store(st), st.header, data, nonce) == Some(b)
    ensures b.prevHash == TipOf(c, st) && WellMade(c, b)
  {
    hide Store, Genesis, Tip, BodyPreimage, BlockPreimage, ReadPrev, ValidChain, Linked, WellStored;
    PrevIsTip(c, st.header, st.blocks);
  }
}
