/** Sequences of requests: what refusals and reads leave alone, what success means, how large payloads get. */
module RequestRuns {
  import opened Basics
  import opened Crypto
  import opened Records
  import opened Names
  import opened Layout
  import opened Validity
  import opened StoredChain
  import opened Verdicts
  import opened Meaning
  import opened Storage
  import opened Steps
  import opened Runs
  import opened Sessions
  import opened Requests

  predicate Mutating(job: Job) {
    job.CreateJob? || job.RemoveJob? || job.AddJob?
  }

  /** NOT_AUTHORIZED is the answer exactly to a message that parses and fails the gate. */
  lemma AuthGate(c: Primitives, dir: string, password: Bytes, faithful: bool, before: Files, after: Files,
                 msg: Option<Request>, key: Option<PrivateKey>, nonce: Option<Nonce>, resp: Response)
    requires Handled(c, dir, faithful, before, after, JobOf(c, password, msg), key, nonce, resp)
    ensures resp.status.NotAuthorized? <==>
            msg.Some? && password != [] &&
            (msg.value.authData.None? || msg.value.authData.value != c.hash(PASSWORD_SALT + password))
  {
    hide Step, Found;
  }

  /** Refusals and reads leave the files alone; so does, on a faithful disk, every failed append and removal. */
  lemma RefusalsAndReadsChangeNothing(c: Primitives, dir: string, faithful: bool, before: Files, after: Files,
                                      job: Job, key: Option<PrivateKey>, nonce: Option<Nonce>, resp: Response)
    requires Handled(c, dir, faithful, before, after, job, key, nonce, resp)
    ensures resp.status.NotAuthorized? || resp.status.DataError? || resp.status.NotSupported? ==> after == before
    ensures !Mutating(job) ==> after == before
    ensures faithful && !job.CreateJob? && !resp.status.Success? ==> after == before
  {
    hide Found, AddBlockDb, NewDb, StoragePath;
  }

  /** On honest files, success of a mutating request is the list operation it asks for. */
  lemma SuccessIsDone(c: Primitives, dir: string, faithful: bool, before: Files, after: Files,
                      job: Job, key: Option<PrivateKey>, nonce: Option<Nonce>, resp: Response)
    requires c.Lawful() && HonestFiles(c, before) && Room(before, 1)
    requires Handled(c, dir, faithful, before, after, job, key, nonce, resp)
    requires Mutating(job) && resp.status.Success?
    ensures var path := StoragePath(dir, job.chainId);
            match job
            case CreateJob(_, data) =>
              path !in before && path in after && NewChain(c, StateOf(after[path]), data, key)
            case RemoveJob(_) => path !in after
            case AddJob(_, data) =>
              && path in before && path in after && StateOf(before[path]).Live?
              && StateOf(before[path]).header.index < MAX_UINT64
              && resp.payload.OneBlock? && resp.payload.block.data == data
              && StateOf(after[path]) == Grown(StateOf(before[path]), resp.payload.block)
            case _ => false
  {
    hide Found, AddBlockDb, NewDb, StoragePath, StateOf, HonestDb, NewChain;
    var path := StoragePath(dir, job.chainId);
    if job.CreateJob? {
      CreateRefines(c, job.data, key);
    } else if job.AddJob? {
      AddRefines(c, before[path], job.data, nonce);
      AddedData(c, before[path], job.data, nonce);
    }
  }

  lemma AddedData(c: Primitives, db: Db, data: Bytes, nonce: Option<Nonce>)
    requires AddBlockDb(c, db, data, nonce).Some?
    ensures AddBlockDb(c, db, data, nonce).value.1.data == data
  {
    hide AppendDb, ReadHeader, ReadPrev, BodyPreimage, BlockPreimage;
  }

  // ---------- Runs of requests ----------

  datatype Exchange = Exchange(msg: Option<Request>, key: Option<PrivateKey>, nonce: Option<Nonce>, resp: Response)

  ghost predicate RequestRun(c: Primitives, dir: string, password: Bytes, faithful: bool, trace: seq<Files>,
                             log: seq<Exchange>) {
    && |trace| == |log| + 1
    && forall i :: 0 <= i < |log| ==>
         Handled(c, dir, faithful, trace[i], trace[i + 1], JobOf(c, password, log[i].msg), log[i].key, log[i].nonce,
                 log[i].resp)
  }

  function Events(c: Primitives, dir: string, password: Bytes, log: seq<Exchange>): seq<Event> {
    seq(|log|, i requires 0 <= i < |log| =>
      EventOf(dir, JobOf(c, password, log[i].msg), log[i].key, log[i].nonce, log[i].resp))
  }

  /** A run of requests is a run of manager calls, so everything that holds of those holds here. */
  lemma RequestRunIsRun(c: Primitives, dir: string, password: Bytes, faithful: bool, trace: seq<Files>,
                        log: seq<Exchange>)
    requires RequestRun(c, dir, password, faithful, trace, log)
    ensures Run(c, faithful, trace, Events(c, dir, password, log))
  {
    hide Step, Answers, JobOf, EventOf;
  }

  // ---------- Payload sizes ----------

  ghost predicate SmallChain(st: ChainState) {
    st.Live? ==> |st.header.data| <= MAX_DATA_LENGTH && forall b :: b in st.blocks ==> |b.data| <= MAX_DATA_LENGTH
  }

  ghost predicate SmallFiles(files: Files) {
    forall path :: path in files ==> SmallChain(StateOf(files[path]))
  }

  ghost predicate SmallEvent(e: Event) {
    (e.Created? || e.Added?) ==> |e.data| <= MAX_DATA_LENGTH
  }

  lemma SmallRequests(c: Primitives, dir: string, password: Bytes, msg: Option<Request>, key: Option<PrivateKey>,
                      nonce: Option<Nonce>, resp: Response)
    ensures SmallEvent(EventOf(dir, JobOf(c, password, msg), key, nonce, resp))
  {
    hide StoragePath, Authorized;
  }

  lemma StepStaysSmall(c: Primitives, faithful: bool, before: Files, after: Files, e: Event)
    requires c.Lawful() && HonestFiles(c, before) && Room(before, 1) && SmallFiles(before)
    requires Step(c, faithful, before, after, e) && SmallEvent(e)
    ensures SmallFiles(after)
  {
    hide StateOf, HonestDb, AddBlockDb, NewDb;
    match e
    case Created(path, data, key, _) =>
      EmptyDbIsHonest(c);
      if NewDb(c, data, key).Some? { CreateRefines(c, data, key); }
    case Added(path, data, nonce, _) =>
      if path in before && AddBlockDb(c, before[path], data, nonce).Some? {
        AddRefines(c, before[path], data, nonce);
        AddedData(c, before[path], data, nonce);
      }
    case _ =>
  }

  /** From no files at all, no request sequence stores a payload above the limit. */
  lemma {:induction false} RequestsStaySmall(c: Primitives, dir: string, password: Bytes, faithful: bool,
                                             trace: seq<Files>, log: seq<Exchange>, k: nat)
    requires c.Lawful() && RequestRun(c, dir, password, faithful, trace, log) && k <= |log|
    requires trace[0] == map[] && |log| < MAX_UINT64 as nat
    ensures SmallFiles(trace[k])
  {
    hide Step, Answers, JobOf, EventOf, HonestFiles, Room, SmallFiles, SmallEvent;
    if k == 0 {
      NoFilesAreSmall();
    } else {
      RequestsStaySmall(c, dir, password, faithful, trace, log, k - 1);
      RequestRunIsRun(c, dir, password, faithful, trace, log);
      NoFilesAreHonest(c, |log|);
      RunStaysHonest(c, faithful, trace, Events(c, dir, password, log), k - 1);
      RoomShrinks(trace[k - 1], |log| - (k - 1), 1);
      var x := log[k - 1];
      SmallRequests(c, dir, password, x.msg, x.key, x.nonce, x.resp);
      StepStaysSmall(c, faithful, trace[k - 1], trace[k],
                     EventOf(dir, JobOf(c, password, x.msg), x.key, x.nonce, x.resp));
    }
  }

  lemma NoFilesAreSmall()
    ensures SmallFiles(map[])
  {
  }

  lemma NoFilesAreHonest(c: Primitives, n: nat)
    requires n < MAX_UINT64 as nat
    ensures HonestFiles(c, map[]) && Room(map[], n)
  {
  }

  /**
    Below the size limit an append on an honest chain of small payloads fails only for want of a nonce or of a
    signature over the tip, the nonce and the data.
   */
  lemma SmallAppendSucceeds(c: Primitives, db: Db, data: Bytes, nonce: Option<Nonce>)
    requires HonestDb(c, db) && SmallChain(StateOf(db)) && |data| <= MAX_DATA_LENGTH
    requires StateOf(db).Live? ==> StateOf(db).header.index < MAX_UINT64
    ensures AddBlockDb(c, db, data, nonce).Some? <==>
            StateOf(db).Live? && nonce.Some? &&
            var st := StateOf(db);
            c.sign(c.hash(Tip(Genesis(c, st.header), st.blocks) + nonce.value + data), st.header.privateKey).Some?
  {
    hide Store, StateOf, AppendDb, ReadHeader, ReadPrev, Genesis, Honest, PackHeader, PackBlock, BuildBlock, Tip;
    HonestReads(c, db);
    HonestParts(c, db);
    var st := StateOf(db);
    if st.Live? && nonce.Some? {
      BuildBlockExactly(c, st.header, Tip(Genesis(c, st.header), st.blocks), nonce.value, data);
      if NextInList(c, st, data, nonce).Some? {
        var b := NextInList(c, st, data, nonce).value;
        AppendIsSnoc(st.header, st.blocks, b);
        SmallRecordsPack(st.header.(index := st.header.index + 1), b);
      }
    }
  }

  /** In every run, the walks that a request may ask for come to an end. */
  lemma HonestWalkEnds(c: Primitives, db: Db)
    requires HonestDb(c, db)
    ensures WalkEnds(db)
  {
    hide Store, StateOf, WalkEnds, ReadHeader;
    HonestParts(c, db);
    if StateOf(db).Live? {
      StoredBlocksIsList(StateOf(db).header, StateOf(db).blocks);
    } else {
      HeaderlessWalkEnds();
    }
  }

  lemma HeaderlessWalkEnds()
    ensures WalkEnds(Store(Headerless))
  {
  }

  // ---------- Room for requests in files of any origin ----------

  /** Every header that can be read leaves room for n more appends below the last index. */
  ghost predicate IndexRoom(files: Files, n: nat) {
    && n < MAX_UINT64 as nat
    && forall path :: path in files && ReadCheckedHeader(files[path]).Some? ==>
         ReadCheckedHeader(files[path]).value.index as nat + n < MAX_UINT64 as nat
  }

  lemma NewDbIndex(c: Primitives, data: Bytes, key: Option<PrivateKey>)
    requires NewDb(c, data, key).Some?
    ensures ReadCheckedHeader(NewDb(c, data, key).value).Some?
    ensures ReadCheckedHeader(NewDb(c, data, key).value).value.index == 0
  {
    HeaderRoundTrip(Header(DB_VERSION, 0, data, key.value, c.publicKey(key.value).value));
    hide HeaderBytes, UnpackHeader;
  }

  lemma AddBlockIndex(c: Primitives, db: Db, data: Bytes, nonce: Option<Nonce>)
    requires AddBlockDb(c, db, data, nonce).Some?
    requires ReadCheckedHeader(db).Some? ==> ReadCheckedHeader(db).value.index < MAX_UINT64
    ensures var db' := AddBlockDb(c, db, data, nonce).value.0;
            && ReadCheckedHeader(db).Some? && ReadCheckedHeader(db').Some?
            && ReadCheckedHeader(db').value.index == ReadCheckedHeader(db).value.index + 1
  {
    var b := AddBlockDb(c, db, data, nonce).value.1;
    assert AppendDb(db, b).Some? && ReadCheckedHeader(db).Some?;
    hide ReadHeader, NextBlock, BlockName, PackHeader, PackBlock, ReadBlockAt;
    AppendReadsBack(db, b);
  }

  /** Each call takes at most one index, whoever wrote the files before. */
  lemma StepKeepsIndexRoom(c: Primitives, faithful: bool, before: Files, after: Files, e: Event, n: nat)
    requires IndexRoom(before, n + 1) && Step(c, faithful, before, after, e)
    ensures IndexRoom(after, n)
  {
    NoHeaderInEmpty();
    hide ReadCheckedHeader, AddBlockDb, NewDb;
    match e
    case Created(path, data, key, _) =>
      if NewDb(c, data, key).Some? { NewDbIndex(c, data, key); }
    case Added(path, data, nonce, _) =>
      if path in before && AddBlockDb(c, before[path], data, nonce).Some? {
        AddBlockIndex(c, before[path], data, nonce);
      }
    case _ =>
  }

  lemma NoHeaderInEmpty()
    ensures ReadCheckedHeader(map[]).None?
  {
  }

  lemma IndexRoomWalkEnds(files: Files, n: nat, path: string)
    requires IndexRoom(files, n) && path in files
    ensures WalkEnds(files[path])
  {
    hide ReadCheckedHeader;
  }
}
