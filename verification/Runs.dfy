/**
  Whole runs of `Manager` calls, any of which may fail at any point: the files refine a map from
  paths to lists of blocks, every chain always verifies, and history is only ever extended.
 */
module Runs {
  import opened Basics
  import opened Crypto
  import opened Records
  import opened Names
  import opened Layout
  import opened Validity
  import opened StoredChain
  import opened Verdicts
  import opened Storage
  import opened Steps

  // ---------- The abstract machine ----------

  /** The chains that exist, as lists of blocks. */
  type View = map<string, ChainState>

  function ViewOf(files: Files): View {
    map path | path in files :: StateOf(files[path])
  }

  /** The only block that can be added to a chain with these inputs. */
  function NextInList(c: Primitives, st: ChainState, data: Bytes, nonce: Option<Nonce>): Option<Block> {
    if st.Live? && nonce.Some?
    then BuildBlock(c, st.header, Tip(Genesis(c, st.header), st.blocks), nonce.value, data)
    else None
  }

  ghost predicate NewChain(c: Primitives, st: ChainState, data: Bytes, key: Option<PrivateKey>) {
    && key.Some? && c.publicKey(key.value).Some?
    && st == Live(Header(DB_VERSION, 0, data, key.value, c.publicKey(key.value).value), [])
  }

  ghost predicate ListAppend(c: Primitives, before: View, after: View, path: string, data: Bytes,
                             nonce: Option<Nonce>) {
    && path in before && NextInList(c, before[path], data, nonce).Some?
    && before[path].header.index < MAX_UINT64
    && after == before[path := Grown(before[path], NextInList(c, before[path], data, nonce).value)]
  }

  /** One call on lists: what it does when it succeeds, and the little it may do when it fails. */
  ghost predicate ListStep(c: Primitives, faithful: bool, before: View, after: View, e: Event) {
    match e
    case Created(path, data, key, ok) =>
      var made := path !in before && path in after && NewChain(c, after[path], data, key)
          && after == before[path := after[path]];
      if ok then made
      else after == before || (path !in before && after == before[path := Headerless]) || (!faithful && made)
    case Added(path, data, nonce, block) =>
      if block.Some? then
        ListAppend(c, before, after, path, data, nonce) && block == NextInList(c, before[path], data, nonce)
      else after == before || (!faithful && ListAppend(c, before, after, path, data, nonce))
    case Removed(path, ok) =>
      if ok then after == before - {path} else after == before || (!faithful && after == before - {path})
    case ReadOnly => after == before
  }

  // ---------- Refinement, one step ----------

  ghost predicate HonestFiles(c: Primitives, files: Files) {
    forall path :: path in files ==> HonestDb(c, files[path])
  }

  /** Every chain can take n more blocks and still be below the last index. */
  ghost predicate Room(files: Files, n: nat) {
    && n < MAX_UINT64 as nat
    && forall path :: path in files && StateOf(files[path]).Live? ==>
        StateOf(files[path]).header.index as nat + n < MAX_UINT64 as nat
  }

  lemma EmptyDbIsHonest(c: Primitives)
    ensures HonestDb(c, map[]) && StateOf(map[]) == Headerless
  {
    StateRoundTrip(Headerless);
  }

  lemma CreateRefines(c: Primitives, data: Bytes, key: Option<PrivateKey>)
    requires NewDb(c, data, key).Some?
    ensures HonestDb(c, NewDb(c, data, key).value) && NewChain(c, StateOf(NewDb(c, data, key).value), data, key)
  {
    CreatedIsHonest(c, data, key.value, c.publicKey(key.value).value);
  }

  lemma AddRefines(c: Primitives, db: Db, data: Bytes, nonce: Option<Nonce>)
    requires c.Lawful() && HonestDb(c, db)
    requires StateOf(db).Live? ==> StateOf(db).header.index < MAX_UINT64
    requires AddBlockDb(c, db, data, nonce).Some?
    ensures StateOf(db).Live? && NextInList(c, StateOf(db), data, nonce) == Some(AddBlockDb(c, db, data, nonce).value.1)
    ensures HonestDb(c, AddBlockDb(c, db, data, nonce).value.0)
    ensures StateOf(AddBlockDb(c, db, data, nonce).value.0) ==
              Grown(StateOf(db), AddBlockDb(c, db, data, nonce).value.1)
  {
    hide StateOf, Store, AddBlockDb, Honest, HonestDb, NextInList;
    HonestParts(c, db);
    if StateOf(db).Headerless? {
      HeaderlessAddBlock(c, data, nonce);
      assert false;
    }
    StoredAddRefines(c, StateOf(db), data, nonce);
  }

  lemma StoredAddRefines(c: Primitives, st: ChainState, data: Bytes, nonce: Option<Nonce>)
    requires c.Lawful() && Honest(c, st) && st.Live? && st.header.index < MAX_UINT64
    requires AddBlockDb(c, Store(st), data, nonce).Some?
    ensures var (db', b) := AddBlockDb(c, Store(st), data, nonce).value;
            NextInList(c, st, data, nonce) == Some(b) && HonestDb(c, db') && StateOf(db') == Grown(st, b)
  {
    hide Store, StateOf, BuildBlock, AppendDb, ReadHeader, ReadPrev, Genesis, HonestDb, Grown, ValidChain, Linked;
    HonestAddBlock(c, st, data, nonce);
    HeaderReadsBack(st.header, st.blocks);
    PrevIsTip(c, st.header, st.blocks);
  }

  lemma HonestParts(c: Primitives, db: Db)
    requires HonestDb(c, db)
    ensures Honest(c, StateOf(db)) && WellStored(StateOf(db)) && db == Store(StateOf(db))
  {
  }

  /** Every call on honest files is a call on lists, and leaves honest files. */
  lemma StepRefines(c: Primitives, faithful: bool, before: Files, after: Files, e: Event, n: nat)
    requires c.Lawful() && HonestFiles(c, before) && Room(before, n + 1)
    requires Step(c, faithful, before, after, e)
    ensures HonestFiles(c, after) && Room(after, n)
    ensures ListStep(c, faithful, ViewOf(before), ViewOf(after), e)
  {
    hide HonestDb, StateOf, Step, ListStep, HonestFiles;
    if e.Created? {
      CreateStepRefines(c, faithful, before, after, e, n);
    } else if e.Added? {
      AddStepRefines(c, faithful, before, after, e, n);
    } else {
      OtherStepRefines(c, faithful, before, after, e, n);
    }
  }

  lemma CreateStepRefines(c: Primitives, faithful: bool, before: Files, after: Files, e: Event, n: nat)
    requires HonestFiles(c, before) && Room(before, n + 1)
    requires e.Created? && Step(c, faithful, before, after, e)
    ensures HonestFiles(c, after) && Room(after, n)
    ensures ListStep(c, faithful, ViewOf(before), ViewOf(after), e)
  {
    hide HonestDb, StateOf, NewDb, NewChain;
    EmptyDbIsHonest(c);
    if NewDb(c, e.data, e.key).Some? {
      CreateRefines(c, e.data, e.key);
      NewChainIndex(c, StateOf(NewDb(c, e.data, e.key).value), e.data, e.key);
    }
    ViewUpdate(before, after, e.path);
  }

  lemma AddStepRefines(c: Primitives, faithful: bool, before: Files, after: Files, e: Event, n: nat)
    requires c.Lawful() && HonestFiles(c, before) && Room(before, n + 1)
    requires e.Added? && Step(c, faithful, before, after, e)
    ensures HonestFiles(c, after) && Room(after, n)
    ensures ListStep(c, faithful, ViewOf(before), ViewOf(after), e)
  {
    hide HonestDb, StateOf, AddBlockDb, NextInList;
    if e.path in before && AddBlockDb(c, before[e.path], e.data, e.nonce).Some? {
      AddRefines(c, before[e.path], e.data, e.nonce);
    }
    ViewUpdate(before, after, e.path);
  }

  lemma OtherStepRefines(c: Primitives, faithful: bool, before: Files, after: Files, e: Event, n: nat)
    requires HonestFiles(c, before) && Room(before, n + 1)
    requires (e.Removed? || e.ReadOnly?) && Step(c, faithful, before, after, e)
    ensures HonestFiles(c, after) && Room(after, n)
    ensures ListStep(c, faithful, ViewOf(before), ViewOf(after), e)
  {
    hide HonestDb, StateOf;
    if e.Removed? {
      ViewUpdate(before, after, e.path);
    }
  }

  lemma NewChainIndex(c: Primitives, st: ChainState, data: Bytes, key: Option<PrivateKey>)
    requires NewChain(c, st, data, key)
    ensures st.Live? && st.header.index == 0
  {
  }

  lemma ViewUpdate(before: Files, after: Files, path: string)
    ensures path in after && after == before[path := after[path]] ==>
              ViewOf(after) == ViewOf(before)[path := StateOf(after[path])]
    ensures after == before - {path} ==> ViewOf(after) == ViewOf(before) - {path}
  {
    hide StateOf;
  }

  // ---------- Runs ----------

  ghost predicate Run(c: Primitives, faithful: bool, trace: seq<Files>, events: seq<Event>) {
    && |trace| == |events| + 1
    && forall i :: 0 <= i < |events| ==> Step(c, faithful, trace[i], trace[i + 1], events[i])
  }

  lemma {:induction false} RunStaysHonest(c: Primitives, faithful: bool, trace: seq<Files>, events: seq<Event>, k: nat)
    requires c.Lawful() && Run(c, faithful, trace, events) && k <= |events|
    requires HonestFiles(c, trace[0]) && Room(trace[0], |events|)
    ensures HonestFiles(c, trace[k]) && Room(trace[k], |events| - k)
  {
    hide HonestFiles, Room, Step, ListStep;
    if k > 0 {
      RunStaysHonest(c, faithful, trace, events, k - 1);
      StepRefines(c, faithful, trace[k - 1], trace[k], events[k - 1], |events| - k);
    }
  }

  /**
    From no files at all, after any calls with any failures, every database is either the empty one
    of a failed creation or a chain that the verifier accepts.
   */
  lemma RunsVerify(c: Primitives, faithful: bool, trace: seq<Files>, events: seq<Event>, k: nat, path: string)
    requires c.Lawful() && Run(c, faithful, trace, events) && k <= |events|
    requires trace[0] == map[] && |events| < MAX_UINT64 as nat
    requires path in trace[k]
    ensures HonestDb(c, trace[k][path])
    ensures trace[k][path] == map[] || Accepts(c, trace[k][path])
  {
    hide HonestDb, Accepts, Step, StateOf;
    RunStaysHonest(c, faithful, trace, events, k);
    HonestVerdict(c, trace[k][path]);
  }

  lemma HonestVerdict(c: Primitives, db: Db)
    requires HonestDb(c, db) && (StateOf(db).Live? ==> StateOf(db).header.index < MAX_UINT64)
    ensures StateOf(db).Headerless? ==> db == map[]
    ensures StateOf(db).Live? ==> Accepts(c, db) && StoredBlocks(db) == Some(StateOf(db).blocks)
  {
    hide Accepts, StateOf, BlocksDb;
    if StateOf(db).Live? {
      HonestAccepted(c, StateOf(db));
    }
  }

  /** Every run of calls is a run of the same calls on lists. */
  lemma RunRefines(c: Primitives, faithful: bool, trace: seq<Files>, events: seq<Event>, k: nat)
    requires c.Lawful() && Run(c, faithful, trace, events) && k < |events|
    requires HonestFiles(c, trace[0]) && Room(trace[0], |events|)
    ensures ListStep(c, faithful, ViewOf(trace[k]), ViewOf(trace[k + 1]), events[k])
  {
    hide HonestFiles, Room, Step, ListStep;
    RunStaysHonest(c, faithful, trace, events, k);
    StepRefines(c, faithful, trace[k], trace[k + 1], events[k], |events| - k - 1);
  }

  /** Whatever the disk did, an honest chain has exactly its blocks 1 to n, each pointing at the one before. */
  lemma HonestReadable(c: Primitives, db: Db, i: uint64)
    requires HonestDb(c, db) && StateOf(db).Live?
    ensures ReadHeader(db) == Some(StateOf(db).header)
    ensures FindBlock(db, i).Some? <==> 1 <= i <= ReadHeader(db).value.index
    ensures FindBlock(db, i).Some? ==>
              Some(FindBlock(db, i).value.prevHash) == ReadPrev(c, db, ReadHeader(db).value.(index := i - 1))
  {
    hide StateOf, Store, Genesis, ReadHeader, FindBlock, PackHeader, PackBlock, ValidChain;
    var st := StateOf(db);
    HeaderReadsBack(st.header, st.blocks);
    FindBlockIsElement(st.header, st.blocks, i);
    if 1 <= i <= st.header.index {
      assert st.blocks[i as nat - 1].prevHash == Before(Genesis(c, st.header), st.blocks, i as nat - 1);
      SameGenesis(c, st.header, i - 1);
      if i > 1 { FindBlockIsElement(st.header, st.blocks, i - 1); }
    }
  }

  // ---------- History ----------

  predicate IsRemovalOf(e: Event, path: string) {
    e.Removed? && e.path == path
  }

  /** How many of the steps from i to j changed the database at this path. */
  function Changes(trace: seq<Files>, path: string, i: nat, j: nat): nat
    requires i <= j < |trace| && forall k :: i <= k <= j ==> path in trace[k]
  {
    if i == j then 0 else Changes(trace, path, i, j - 1) + if trace[j - 1][path] == trace[j][path] then 0 else 1
  }

  ghost predicate Extends(older: ChainState, newer: ChainState, added: nat) {
    && older.Live? && newer.Live?
    && newer.header == older.header.(index := newer.header.index)
    && older.blocks <= newer.blocks && |newer.blocks| == |older.blocks| + added
    && newer.header.index as nat == older.header.index as nat + added
  }

  lemma StepExtends(c: Primitives, faithful: bool, before: Files, after: Files, e: Event, path: string)
    requires c.Lawful() && HonestFiles(c, before) && Room(before, 1)
    requires Step(c, faithful, before, after, e) && !IsRemovalOf(e, path)
    requires path in before && StateOf(before[path]).Live?
    ensures path in after
    ensures Extends(StateOf(before[path]), StateOf(after[path]), if before[path] == after[path] then 0 else 1)
  {
    hide HonestDb, StateOf, AddBlockDb, NewDb;
    if e.Added? && e.path == path && AddBlockDb(c, before[path], e.data, e.nonce).Some? {
      AddRefines(c, before[path], e.data, e.nonce);
    }
  }

  /**
    While a live chain is not removed, its earlier list is a prefix of every later one, its data and
    keys stay, and its index counts the steps that changed it.
   */
  lemma {:induction false} AppendOnly(c: Primitives, faithful: bool, trace: seq<Files>, events: seq<Event>,
                                      path: string, i: nat, j: nat)
    requires c.Lawful() && Run(c, faithful, trace, events) && i <= j <= |events|
    requires HonestFiles(c, trace[0]) && Room(trace[0], |events|)
    requires path in trace[i] && StateOf(trace[i][path]).Live?
    requires forall k :: i <= k < j ==> !IsRemovalOf(events[k], path)
    ensures forall k :: i <= k <= j ==> path in trace[k]
    ensures Extends(StateOf(trace[i][path]), StateOf(trace[j][path]), Changes(trace, path, i, j))
    ensures Changes(trace, path, i, j) <= j - i
  {
    hide HonestFiles, Room, Step, StateOf;
    if i < j {
      AppendOnly(c, faithful, trace, events, path, i, j - 1);
      RunStaysHonest(c, faithful, trace, events, j - 1);
      RoomShrinks(trace[j - 1], |events| - (j - 1), 1);
      StepExtends(c, faithful, trace[j - 1], trace[j], events[j - 1], path);
    }
  }

  lemma RoomShrinks(files: Files, n: nat, m: nat)
    requires Room(files, n) && m <= n
    ensures Room(files, m)
  {
  }

  // ---------- Isolation ----------

  ghost predicate SameAt(before: Files, after: Files, path: string) {
    (path in before <==> path in after) && (path in before ==> before[path] == after[path])
  }

  /** A call on one chain id leaves the database of every other id alone. */
  lemma OtherChainsUntouched(c: Primitives, faithful: bool, before: Files, after: Files, e: Event, dir: string,
                             id: uint64, other: uint64)
    requires Step(c, faithful, before, after, e)
    requires e.ReadOnly? || e.path == StoragePath(dir, id)
    requires other != id
    ensures SameAt(before, after, StoragePath(dir, other))
  {
    if StoragePath(dir, id) == StoragePath(dir, other) {
      StoragePathsDistinct(dir, id, other);
    }
    hide StoragePath, AddBlockDb, NewDb;
  }
}
