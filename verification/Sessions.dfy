/**
  Many clients on the same files, interleaved session by session. An append is three sessions: the
  header is read, then the tip, then the header again together with the write. A verification is two.
  A session that meets a locked database fails; otherwise it runs undisturbed.
 */
module Sessions {
  import opened Basics
  import opened Crypto
  import opened Records
  import opened Layout
  import opened Validity
  import opened StoredChain
  import opened Verdicts
  import opened Storage
  import opened Outcomes
  import opened Steps
  import opened Runs

  /** Where a client stands between two sessions of one call. */
  datatype Client =
    | Idle
    | HasHeader(path: string, data: Bytes, header: Header)
    | HasBlock(path: string, block: Block)
    | HasVerifyHeader(path: string, header: Header)

  datatype System = System(files: Files, clients: map<nat, Client>)

  datatype Action =
    | BeginAppend(path: string, data: Bytes)
    | MakeBlock(nonce: Option<Nonce>)
    | Commit(ok: bool)
    | Create(path: string, data: Bytes, key: Option<PrivateKey>, ok: bool)
    | Remove(path: string, ok: bool)
    | BeginVerify(path: string)
    | FinishVerify(readable: bool, verdict: bool)
    | GiveUp

  function ClientAt(s: System, k: nat): Client {
    if k in s.clients then s.clients[k] else Idle
  }

  /** The database at a path; one that is missing reads like an empty one. */
  function DbAt(files: Files, path: string): Db {
    if path in files then files[path] else map[]
  }

  /** What one session of a client in state `at` may do to the files, and where it leaves the client. */
  ghost predicate Session(c: Primitives, faithful: bool, before: Files, after: Files, at: Client, next: Client,
                          a: Action) {
    match a
    case BeginAppend(path, data) =>
      && at.Idle? && after == before && ReadHeader(DbAt(before, path)).Some?
      && next == HasHeader(path, data, ReadHeader(DbAt(before, path)).value)
    case MakeBlock(nonce) =>
      && at.HasHeader? && after == before
      && var b := NextBlock(c, DbAt(before, at.path), at.header, at.data, nonce);
         b.Some? && next == HasBlock(at.path, b.value)
    case Commit(ok) =>
      && at.HasBlock? && next == Idle
      && UpdateOutcome(faithful, before, after, at.path, Appended(before, at.path, at.block), ok)
    case Create(path, data, key, ok) =>
      && at.Idle? && next == Idle && CreateOutcome(faithful, before, after, path, NewDb(c, data, key), ok)
    case Remove(path, ok) =>
      && at.Idle? && next == Idle && RemoveOutcome(faithful, before, after, path, ok)
    case BeginVerify(path) =>
      && at.Idle? && after == before && ReadHeader(DbAt(before, path)).Some?
      && next == HasVerifyHeader(path, ReadHeader(DbAt(before, path)).value)
    case FinishVerify(readable, verdict) =>
      && at.HasVerifyHeader? && after == before && next == Idle
      && verdict == (readable && VerifyWith(c, at.header, DbAt(before, at.path)))
    case GiveUp => after == before && next == Idle
  }

  ghost predicate ClientStep(c: Primitives, faithful: bool, s: System, s': System, k: nat, a: Action) {
    && s'.clients == s.clients[k := ClientAt(s', k)]
    && Session(c, faithful, s.files, s'.files, ClientAt(s, k), ClientAt(s', k), a)
  }

  // ---------- The proviso ----------

  /** The action replaces or removes the whole database at the path. */
  predicate Replaces(a: Action, path: string) {
    (a.Create? || a.Remove?) && a.path == path
  }

  predicate Appends(at: Client, a: Action, path: string) {
    a.Commit? && at.HasBlock? && at.path == path
  }

  /** Another client, waiting in state `other`, is not disturbed by this action. */
  predicate Spares(at: Client, a: Action, other: Client) {
    match other
    case Idle => true
    case HasHeader(path, _, _) => !Replaces(a, path) && !Appends(at, a, path)
    case HasBlock(path, _) => !Replaces(a, path) && !Appends(at, a, path)
    case HasVerifyHeader(path, _) => !Replaces(a, path)
  }

  /**
    Between the sessions of one append nobody else appends to, creates or removes the chain; between
    those of one verification nobody creates or removes it, while appends may go on.
   */
  ghost predicate Undisturbed(s: System, k: nat, a: Action) {
    forall j :: j in s.clients && j != k ==> Spares(ClientAt(s, k), a, s.clients[j])
  }

  // ---------- The invariant ----------

  function TipOf(c: Primitives, st: ChainState): Hash
    requires st.Live?
  {
    Tip(Genesis(c, st.header), st.blocks)
  }

  /** What a waiting client has read still fits the chain. */
  ghost predicate Fits(c: Primitives, files: Files, at: Client) {
    at.Idle? ||
    (&& at.path in files && StateOf(files[at.path]).Live?
     && var st := StateOf(files[at.path]);
        match at
        case HasHeader(_, _, header) => header == st.header
        case HasBlock(_, b) => BlockOk(c, st.header.publicKey, TipOf(c, st), b) && b.prevHash == TipOf(c, st)
        case HasVerifyHeader(_, header) => header == st.header.(index := header.index))
  }

  ghost predicate Inv(c: Primitives, s: System) {
    && HonestFiles(c, s.files)
    && forall k :: k in s.clients ==> Fits(c, s.files, s.clients[k])
  }

  /** An honest database read as such. */
  lemma HonestReads(c: Primitives, db: Db)
    requires HonestDb(c, db)
    ensures ReadHeader(db) == if StateOf(db).Live? then Some(StateOf(db).header) else None
    ensures StateOf(db).Live? ==> ReadPrev(c, db, StateOf(db).header) == Some(TipOf(c, StateOf(db)))
  {
    hide StateOf, Store, ReadHeader, ReadPrev, Genesis, ValidChain;
    if StateOf(db).Live? {
      HeaderReadsBack(StateOf(db).header, StateOf(db).blocks);
      PrevIsTip(c, StateOf(db).header, StateOf(db).blocks);
    } else {
      assert db == Store(Headerless);
      NoHeader();
    }
  }

  lemma NoHeader()
    ensures ReadHeader(Store(Headerless)) == None
  {
  }

  /** A block made from what is stored follows the tip and is properly signed. */
  lemma HonestSigns(c: Primitives, db: Db, nonce: Option<Nonce>, data: Bytes)
    requires c.Lawful() && HonestDb(c, db) && StateOf(db).Live?
    requires NextBlock(c, db, StateOf(db).header, data, nonce).Some?
    ensures var b := NextBlock(c, db, StateOf(db).header, data, nonce).value;
            BlockOk(c, StateOf(db).header.publicKey, TipOf(c, StateOf(db)), b) && b.prevHash == TipOf(c, StateOf(db))
  {
    hide StateOf, Store, ReadPrev, Genesis, Tip, ValidChain, BodyPreimage, BlockPreimage;
    HonestReads(c, db);
  }

  /** The session of one client keeps that client coherent and the files honest. */
  lemma SessionKeepsOwn(c: Primitives, faithful: bool, before: Files, after: Files, at: Client, next: Client,
                        a: Action, n: nat)
    requires c.Lawful() && HonestFiles(c, before) && Room(before, n + 1) && Fits(c, before, at)
    requires Session(c, faithful, before, after, at, next, a)
    ensures HonestFiles(c, after) && Room(after, n) && Fits(c, after, next)
  {
    match a
    case BeginAppend(path, _) => ReadingKeeps(c, before, path);
    case BeginVerify(path) => ReadingKeeps(c, before, path);
    case MakeBlock(nonce) =>
      hide HonestDb, StateOf, NextBlock, Room;
      RoomShrinks(before, n + 1, n);
      HonestSigns(c, before[at.path], nonce, at.data);
    case Commit(ok) => CommitKeepsOwn(c, faithful, before, after, at, ok, n);
    case Create(path, data, key, ok) =>
      hide Session, HonestFiles, Room;
      StepRefines(c, faithful, before, after, Created(path, data, key, ok), n);
    case Remove(path, ok) =>
      hide Session, HonestFiles, Room;
      StepRefines(c, faithful, before, after, Removed(path, ok), n);
    case FinishVerify(_, _) => RoomShrinks(before, n + 1, n);
    case GiveUp => RoomShrinks(before, n + 1, n);
  }

  lemma ReadingKeeps(c: Primitives, files: Files, path: string)
    requires HonestFiles(c, files) && ReadHeader(DbAt(files, path)).Some?
    ensures path in files && StateOf(files[path]).Live? && ReadHeader(files[path]).value == StateOf(files[path]).header
  {
    hide HonestDb, StateOf;
    if path in files {
      hide ReadHeader;
      HonestReads(c, files[path]);
    }
  }

  lemma CommitKeepsOwn(c: Primitives, faithful: bool, before: Files, after: Files, at: Client, ok: bool, n: nat)
    requires HonestFiles(c, before) && Room(before, n + 1) && at.HasBlock? && Fits(c, before, at)
    requires Session(c, faithful, before, after, at, Idle, Commit(ok))
    ensures HonestFiles(c, after) && Room(after, n)
    ensures after == before ||
            (after == before[at.path := after[at.path]]
                && StateOf(after[at.path]) == Grown(StateOf(before[at.path]), at.block))
  {
    hide HonestDb, StateOf, AppendDb, BlockOk, Store, Honest;
    var db := before[at.path];
    HonestParts(c, db);
    if AppendDb(db, at.block).Some? {
      HonestGrowth(c, StateOf(db), at.block);
    }
  }

  /** A waiting client that the action spares still fits afterwards. */
  lemma SessionSparesOther(c: Primitives, faithful: bool, before: Files, after: Files, at: Client, next: Client,
                           a: Action, other: Client, n: nat)
    requires HonestFiles(c, before) && Room(before, n + 1) && Fits(c, before, at) && Fits(c, before, other)
    requires Session(c, faithful, before, after, at, next, a) && Spares(at, a, other)
    ensures Fits(c, after, other)
  {
    hide HonestDb, StateOf, AppendDb, BlockOk, NewDb, NextBlock, VerifyWith, ReadHeader, Genesis, Tip;
    if a.Commit? {
      CommitKeepsOwn(c, faithful, before, after, at, a.ok, n);
    }
  }

  /** One step that respects the proviso keeps the invariant. */
  lemma StepKeepsInv(c: Primitives, faithful: bool, s: System, s': System, k: nat, a: Action, n: nat)
    requires c.Lawful() && Inv(c, s) && Room(s.files, n + 1)
    requires ClientStep(c, faithful, s, s', k, a) && Undisturbed(s, k, a)
    ensures Inv(c, s') && Room(s'.files, n)
  {
    hide HonestFiles, Room, Fits, Session, Spares;
    IdleFits(c, s.files);
    SessionKeepsOwn(c, faithful, s.files, s'.files, ClientAt(s, k), ClientAt(s', k), a, n);
    forall j | j in s'.clients ensures Fits(c, s'.files, s'.clients[j]) {
      if j != k {
        SessionSparesOther(c, faithful, s.files, s'.files, ClientAt(s, k), ClientAt(s', k), a, s.clients[j], n);
      }
    }
  }

  lemma IdleFits(c: Primitives, files: Files)
    ensures Fits(c, files, Idle)
  {
  }

  // ---------- Interleavings ----------

  /** Any interleaving: at each step some client takes an action. */
  ghost predicate Interleaving(c: Primitives, faithful: bool, trace: seq<System>, steps: seq<(nat, Action)>) {
    && |trace| == |steps| + 1
    && forall i :: 0 <= i < |steps| ==> ClientStep(c, faithful, trace[i], trace[i + 1], steps[i].0, steps[i].1)
  }

  ghost predicate Respectful(trace: seq<System>, steps: seq<(nat, Action)>) {
    && |trace| == |steps| + 1
    && forall i :: 0 <= i < |steps| ==> Undisturbed(trace[i], steps[i].0, steps[i].1)
  }

  /** Every interleaving that respects the proviso keeps every chain honest, hence accepted, at every point. */
  lemma {:induction false} InterleavingsStayHonest(c: Primitives, faithful: bool, trace: seq<System>,
                                                   steps: seq<(nat, Action)>, k: nat)
    requires c.Lawful() && Interleaving(c, faithful, trace, steps) && Respectful(trace, steps) && k <= |steps|
    requires Inv(c, trace[0]) && Room(trace[0].files, |steps|)
    ensures Inv(c, trace[k]) && Room(trace[k].files, |steps| - k)
    ensures forall path :: path in trace[k].files ==> trace[k].files[path] == map[] || Accepts(c, trace[k].files[path])
  {
    hide HonestDb, StateOf, Accepts, Fits, ClientStep, Undisturbed;
    if k > 0 {
      hide Inv, Room;
      InterleavingsStayHonest(c, faithful, trace, steps, k - 1);
      StepKeepsInv(c, faithful, trace[k - 1], trace[k], steps[k - 1].0, steps[k - 1].1, |steps| - k);
    }
    InvAccepts(c, trace[k], |steps| - k);
  }

  lemma InvAccepts(c: Primitives, s: System, n: nat)
    requires Inv(c, s) && Room(s.files, n)
    ensures forall path :: path in s.files ==> s.files[path] == map[] || Accepts(c, s.files[path])
  {
    hide HonestDb, StateOf, Accepts, Fits;
    forall path | path in s.files ensures s.files[path] == map[] || Accepts(c, s.files[path]) {
      HonestVerdict(c, s.files[path]);
    }
  }

  /** A verification that reads says yes, however many appends landed between its two sessions. */
  lemma VerificationSucceeds(c: Primitives, faithful: bool, trace: seq<System>, steps: seq<(nat, Action)>, k: nat)
    requires c.Lawful() && Interleaving(c, faithful, trace, steps) && Respectful(trace, steps) && k < |steps|
    requires Inv(c, trace[0]) && Room(trace[0].files, |steps|)
    requires steps[k].1.FinishVerify? && steps[k].1.readable
    ensures steps[k].1.verdict
  {
    hide HonestDb, StateOf, Inv, Room, VerifyWith, Accepts;
    InterleavingsStayHonest(c, faithful, trace, steps, k);
    assert ClientStep(c, faithful, trace[k], trace[k + 1], steps[k].0, steps[k].1);
    StaleHeaderVerifies(c, trace[k], steps[k].0, |steps| - k);
  }

  lemma StaleHeaderVerifies(c: Primitives, s: System, k: nat, n: nat)
    requires Inv(c, s) && Room(s.files, n) && ClientAt(s, k).HasVerifyHeader?
    ensures VerifyWith(c, ClientAt(s, k).header, DbAt(s.files, ClientAt(s, k).path))
  {
    hide HonestDb, StateOf, StoredBlocks, ValidBlocks, Genesis, ReadHeader;
    var at := ClientAt(s, k);
    var st := StateOf(s.files[at.path]);
    HonestVerdict(c, s.files[at.path]);
    HonestReads(c, s.files[at.path]);
    SameGenesis(c, st.header, at.header.index);
  }
}
