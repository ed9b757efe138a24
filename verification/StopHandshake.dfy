/**
  The threads of `Server`: one worker that polls, serves and tests the stop flag, while anybody may call `stop` at
  any moment. A request is served session by session, so a stop may fall between two sessions.
 */
module StopHandshake {
  import opened Basics
  import opened Crypto
  import opened Records
  import opened Names
  import opened Layout
  import opened Validity
  import opened StoredChain
  import opened Verdicts
  import opened Storage
  import opened Outcomes
  import opened Steps
  import opened Runs
  import opened Sessions
  import opened Requests
  import opened RequestRuns

  datatype Phase =
    | NotStarted
    | Testing
    | Polling
    | Serving(msg: Option<Request>, finished: bool)
    | Done

  /** The flag is set while the server may run; `history` and `log` record the requests and their answers. */
  datatype State = State(
    flag: bool,
    phase: Phase,
    client: Client,
    files: Files,
    history: seq<Files>,
    log: seq<Exchange>)

  /** The moves of the worker, and the stop that anybody may call. */
  datatype Move =
    | Start(bound: bool)
    | Test
    | PollTimeout
    | PollError
    | Receive(msg: Option<Request>)
    /** A session of a request that creates, removes, appends or verifies. */
    | Work(action: Action)
    /** The session of a request that reads, with what it found if it found anything. */
    | Look(found: Option<Payload>)
    /** The answer to a request that needs no session. */
    | Answer
    | Reply(sent: bool)
    | Stop

  /** The configuration of a server: its crypto, storage directory, password, and whether its disk is faithful. */
  datatype Config = Config(crypto: Primitives, dir: string, password: Bytes, faithful: bool)

  function JobFor(g: Config, msg: Option<Request>): Job {
    JobOf(g.crypto, g.password, msg)
  }

  /** The sessions that serving a job may run; it may give up at any of them. */
  ghost predicate Serves(dir: string, job: Job, a: Action) {
    match job
    case CreateJob(id, data) => a.GiveUp? || (a.Create? && a.path == StoragePath(dir, id) && a.data == data)
    case RemoveJob(id) => a.GiveUp? || (a.Remove? && a.path == StoragePath(dir, id))
    case AddJob(id, data) =>
      a.GiveUp? || a.MakeBlock? || a.Commit? || (a.BeginAppend? && a.path == StoragePath(dir, id) && a.data == data)
    case VerifyJob(id) => a.GiveUp? || a.FinishVerify? || (a.BeginVerify? && a.path == StoragePath(dir, id))
    case _ => false
  }

  function StatusOnly(ok: bool): Response {
    Response(if ok then Success else Error, Nothing)
  }

  /** The exchange that a finishing session completes, with the random inputs it used. */
  function ExchangeDone(msg: Option<Request>, at: Client, a: Action): Exchange {
    match a
    case Create(_, _, key, ok) => Exchange(msg, key, None, StatusOnly(ok))
    case Remove(_, ok) => Exchange(msg, None, None, StatusOnly(ok))
    case Commit(ok) =>
      if !at.HasBlock? then Exchange(msg, None, None, StatusOnly(false))
      else Exchange(msg, None, Some(at.block.nonce),
                    if ok then Response(Success, OneBlock(at.block)) else StatusOnly(false))
    case FinishVerify(_, verdict) => Exchange(msg, None, None, StatusOnly(verdict))
    case _ => Exchange(msg, None, None, StatusOnly(false))
  }

  ghost predicate Finishes(s: State, s': State, x: Exchange) {
    s'.history == s.history + [s'.files] && s'.log == s.log + [x]
  }

  ghost predicate WorkStep(g: Config, s: State, s': State, a: Action) {
    && s.phase.Serving? && !s.phase.finished
    && Serves(g.dir, JobFor(g, s.phase.msg), a)
    && Session(g.crypto, g.faithful, s.files, s'.files, s.client, s'.client, a)
    && s'.flag == s.flag && s'.phase == Serving(s.phase.msg, s'.client.Idle?)
    && if s'.client.Idle? then Finishes(s, s', ExchangeDone(s.phase.msg, s.client, a))
       else s'.history == s.history && s'.log == s.log
  }

  predicate Reads(job: Job) {
    job.BlockJob? || job.BlocksJob? || job.HeaderJob? || job.KeysJob? || job.InfoJob?
  }

  ghost predicate LookStep(g: Config, s: State, s': State, found: Option<Payload>) {
    && s.phase.Serving? && !s.phase.finished && Reads(JobFor(g, s.phase.msg))
    && (found.Some? ==> Found(g.crypto, g.dir, s.files, JobFor(g, s.phase.msg), found.value))
    && s' == s.(phase := Serving(s.phase.msg, true), history := s'.history, log := s'.log)
    && Finishes(s, s', Exchange(s.phase.msg, None, None,
                                if found.Some? then Response(Success, found.value) else StatusOnly(false)))
  }

  ghost predicate AnswerStep(g: Config, s: State, s': State) {
    && s.phase.Serving? && !s.phase.finished
    && s' == s.(phase := Serving(s.phase.msg, true), history := s'.history, log := s'.log)
    && match JobFor(g, s.phase.msg)
       case Refuse(status) => Finishes(s, s', Exchange(s.phase.msg, None, None, Response(status, Nothing)))
       case Ping => Finishes(s, s', Exchange(s.phase.msg, None, None, StatusOnly(true)))
       case _ => false
  }

  ghost predicate ServerStep(g: Config, s: State, s': State, m: Move) {
    match m
    case Start(bound) => s.phase.NotStarted? && s' == s.(phase := if bound then Testing else Done)
    case Test => s.phase.Testing? && s' == s.(phase := if s.flag then Polling else Done, flag := true)
    case PollTimeout => s.phase.Polling? && s' == s.(phase := Testing)
    case PollError => s.phase.Polling? && s' == s.(phase := Done)
    case Receive(msg) => s.phase.Polling? && s' == s.(phase := Serving(msg, false))
    case Work(a) => WorkStep(g, s, s', a)
    case Look(found) => LookStep(g, s, s', found)
    case Answer => AnswerStep(g, s, s')
    case Reply(sent) => s.phase.Serving? && s.phase.finished && s' == s.(phase := if sent then Testing else Done)
    case Stop => s' == s.(flag := false)
  }

  /** The constructor sets the flag; nothing has been served. */
  function Fresh(files: Files): State {
    State(true, NotStarted, Idle, files, [files], [])
  }

  ghost predicate ServerRun(g: Config, trace: seq<State>, moves: seq<Move>) {
    && |trace| == |moves| + 1
    && trace[0] == Fresh(trace[0].files)
    && forall i :: 0 <= i < |moves| ==> ServerStep(g, trace[i], trace[i + 1], moves[i])
  }

  // ---------- One worker is a sequential handler ----------

  /** What the worker holds between two sessions is what it would read now, for the request it serves. */
  ghost predicate Current(g: Config, s: State) {
    s.client.Idle? ||
    (&& s.phase.Serving? && !s.phase.finished
     && var job := JobFor(g, s.phase.msg);
        var db := DbAt(s.files, s.client.path);
        && ReadHeader(db).Some?
        && match s.client
           case HasHeader(path, data, h) =>
             job.AddJob? && path == StoragePath(g.dir, job.chainId) && data == job.data && ReadHeader(db) == Some(h)
           case HasBlock(path, b) =>
             && job.AddJob? && path == StoragePath(g.dir, job.chainId) && b.data == job.data
             && NextBlock(g.crypto, db, ReadHeader(db).value, b.data, Some(b.nonce)) == Some(b)
           case HasVerifyHeader(path, h) =>
             job.VerifyJob? && path == StoragePath(g.dir, job.chainId) && ReadHeader(db) == Some(h))
  }

  /** The log so far is a run of requests, from the first files to the present ones. */
  ghost predicate Serial(g: Config, s: State) {
    RequestRun(g.crypto, g.dir, g.password, g.faithful, s.history, s.log) && s.history[|s.log|] == s.files
  }

  lemma MadeBlockFields(c: Primitives, db: Db, h: Header, data: Bytes, nonce: Option<Nonce>)
    requires NextBlock(c, db, h, data, nonce).Some?
    ensures var b := NextBlock(c, db, h, data, nonce).value; b.data == data && nonce == Some(b.nonce)
  {
    hide ReadPrev, BodyPreimage, BlockPreimage;
  }

  /** A commit by the only worker completes one `addBlock`: the three sessions together are one call. */
  lemma CommitIsAddBlock(c: Primitives, faithful: bool, before: Files, after: Files, path: string, h: Header, b: Block,
                         ok: bool)
    requires ReadHeader(DbAt(before, path)) == Some(h)
    requires NextBlock(c, DbAt(before, path), h, b.data, Some(b.nonce)) == Some(b)
    requires Session(c, faithful, before, after, HasBlock(path, b), Idle, Commit(ok))
    ensures Step(c, faithful, before, after, Added(path, b.data, Some(b.nonce), if ok then Some(b) else None))
  {
    hide ReadHeader, NextBlock, AppendDb, VerifyWith, NewDb;
  }

  /** Seen from the files, giving up is a call that failed. */
  lemma GivingUpIsHandled(g: Config, files: Files, job: Job)
    requires !job.Refuse? && !job.Ping?
    ensures Handled(g.crypto, g.dir, g.faithful, files, files, job, None, None, StatusOnly(false))
  {
    hide ReadHeader, ReadPrev, AppendDb, StoragePath, Found;
  }

  ghost predicate HandledAs(g: Config, before: Files, after: Files, x: Exchange) {
    Handled(g.crypto, g.dir, g.faithful, before, after, JobFor(g, x.msg), x.key, x.nonce, x.resp)
  }

  /** A session that finishes a request completes exactly one handling of it, answer included. */
  lemma WorkIsHandled(g: Config, s: State, s': State, a: Action)
    requires Current(g, s) && WorkStep(g, s, s', a) && s'.client.Idle?
    ensures HandledAs(g, s.files, s'.files, ExchangeDone(s.phase.msg, s.client, a))
  {
    hide ReadHeader, NextBlock, AddBlockDb, AppendDb, StoredBlocks, NewDb, StoragePath, JobOf, ValidBlocks, Genesis;
    if a.GiveUp? {
      hide Current;
      GivingUpIsHandled(g, s.files, JobFor(g, s.phase.msg));
    } else if a.Commit? {
      var at := s.client;
      CommitIsAddBlock(g.crypto, g.faithful, s.files, s'.files, at.path, ReadHeader(DbAt(s.files, at.path)).value,
                       at.block, a.ok);
    } else if a.FinishVerify? {
      NothingRead();
    }
  }

  lemma NothingRead()
    ensures ReadHeader(map[]).None?
  {
  }

  lemma WorkKeepsCurrent(g: Config, s: State, s': State, a: Action)
    requires Current(g, s) && WorkStep(g, s, s', a)
    ensures Current(g, s')
    ensures !s'.client.Idle? ==> s'.files == s.files
  {
    hide ReadHeader, NextBlock, AppendDb, VerifyWith, NewDb, StoragePath, JobOf;
    if a.MakeBlock? {
      MadeBlockFields(g.crypto, DbAt(s.files, s.client.path), s.client.header, s.client.data, a.nonce);
    }
  }

  lemma LookIsHandled(g: Config, s: State, s': State, found: Option<Payload>)
    requires LookStep(g, s, s', found)
    ensures HandledAs(g, s.files, s'.files, s'.log[|s.log|])
  {
    hide JobOf, Found;
  }

  lemma AnswerIsHandled(g: Config, s: State, s': State)
    requires AnswerStep(g, s, s')
    ensures HandledAs(g, s.files, s'.files, s'.log[|s.log|])
  {
    hide JobOf, Found;
  }

  lemma SerialGrows(g: Config, s: State, s': State, x: Exchange)
    requires Serial(g, s) && HandledAs(g, s.files, s'.files, x) && Finishes(s, s', x)
    ensures Serial(g, s') && s'.history[0] == s.history[0]
  {
    hide Handled, JobOf;
  }

  lemma StepKeepsSerial(g: Config, s: State, s': State, m: Move)
    requires Serial(g, s) && Current(g, s) && ServerStep(g, s, s', m)
    ensures Serial(g, s') && Current(g, s') && s'.history[0] == s.history[0]
  {
    hide RequestRun, HandledAs, Session, Serves, ReadHeader, NextBlock, StoragePath, JobOf, Found, ExchangeDone;
    match m
    case Work(a) =>
      WorkKeepsCurrent(g, s, s', a);
      hide Current;
      if s'.client.Idle? {
        WorkIsHandled(g, s, s', a);
        SerialGrows(g, s, s', ExchangeDone(s.phase.msg, s.client, a));
      }
    case Look(found) =>
      LookIsHandled(g, s, s', found);
      SerialGrows(g, s, s', s'.log[|s.log|]);
    case Answer =>
      AnswerIsHandled(g, s, s');
      SerialGrows(g, s, s', s'.log[|s.log|]);
    case _ =>
  }

  lemma FreshIsSerial(g: Config, files: Files)
    ensures Serial(g, Fresh(files)) && Current(g, Fresh(files))
  {
  }

  /** The messages that were received, in order. */
  function Received(moves: seq<Move>): seq<Option<Request>> {
    if moves == [] then []
    else
      var last := moves[|moves| - 1];
      Received(moves[..|moves| - 1]) + if last.Receive? then [last.msg] else []
  }

  function Messages(log: seq<Exchange>): seq<Option<Request>> {
    seq(|log|, i requires 0 <= i < |log| => log[i].msg)
  }

  /** The message that is being served. */
  function Pending(s: State): seq<Option<Request>> {
    if s.phase.Serving? && !s.phase.finished then [s.phase.msg] else []
  }

  lemma StepKeepsOrder(g: Config, s: State, s': State, m: Move)
    requires ServerStep(g, s, s', m)
    ensures Messages(s'.log) + Pending(s') ==
            Messages(s.log) + Pending(s) + if m.Receive? then [m.msg] else []
  {
    hide Session, Serves, JobOf, Found;
    if |s'.log| > |s.log| {
      assert Messages(s'.log) == Messages(s.log) + [s.phase.msg];
    }
  }

  /**
    Whatever stops and sessions interleave, the files and the answers are those of a sequential run of
    the handler on the messages that were received, in the order in which they came.
   */
  lemma {:induction false} ServerIsSequential(g: Config, trace: seq<State>, moves: seq<Move>, k: nat)
    requires ServerRun(g, trace, moves) && k <= |moves|
    ensures Serial(g, trace[k]) && Current(g, trace[k])
    ensures |trace[k].history| > 0 && trace[k].history[0] == trace[0].files
    ensures Messages(trace[k].log) + Pending(trace[k]) == Received(moves[..k])
  {
    hide Current, ServerStep, RequestRun, Messages, Pending;
    if k == 0 {
      FreshIsSerial(g, trace[0].files);
      NothingYet(trace[0].files);
    } else {
      ServerIsSequential(g, trace, moves, k - 1);
      StepKeepsSerial(g, trace[k - 1], trace[k], moves[k - 1]);
      StepKeepsOrder(g, trace[k - 1], trace[k], moves[k - 1]);
      SerialHasHistory(g, trace[k]);
      assert moves[..k][..k - 1] == moves[..k - 1];
    }
  }

  lemma NothingYet(files: Files)
    ensures Messages(Fresh(files).log) == [] && Pending(Fresh(files)) == []
  {
  }

  lemma SerialHasHistory(g: Config, s: State)
    requires Serial(g, s)
    ensures |s.history| > 0
  {
  }

  /** Under the server, whatever stops fall between the sessions, every chain is honest and accepted at every point. */
  lemma ServerKeepsChains(g: Config, trace: seq<State>, moves: seq<Move>, k: nat, path: string)
    requires g.crypto.Lawful() && ServerRun(g, trace, moves) && k <= |moves|
    requires HonestFiles(g.crypto, trace[0].files) && Room(trace[0].files, |trace[k].log|)
    requires path in trace[k].files
    ensures HonestDb(g.crypto, trace[k].files[path])
    ensures trace[k].files[path] == map[] || Accepts(g.crypto, trace[k].files[path])
  {
    hide HonestDb, Accepts, StateOf, Handled, JobOf, Step, Current, ServerStep;
    ServerIsSequential(g, trace, moves, k);
    var s := trace[k];
    RequestRunIsRun(g.crypto, g.dir, g.password, g.faithful, s.history, s.log);
    RunStaysHonest(g.crypto, g.faithful, s.history, Events(g.crypto, g.dir, g.password, s.log), |s.log|);
    HonestVerdict(g.crypto, s.files[path]);
  }

  // ---------- The worker meets the proviso ----------

  /** The worker as the only client of the interleaving model. */
  function AsSystem(s: State): System {
    System(s.files, map[0 := s.client])
  }

  /** The states of a server run at which a session ended, seen as an interleaving. */
  function SessionTrace(trace: seq<State>, moves: seq<Move>): (r: seq<System>)
    requires |trace| == |moves| + 1
    ensures |r| == |SessionSteps(moves)| + 1
  {
    if moves == [] then [AsSystem(trace[0])]
    else
      var n := |moves|;
      var front := SessionTrace(trace[..n], moves[..n - 1]);
      if moves[n - 1].Work? then front + [AsSystem(trace[n])] else front
  }

  function SessionSteps(moves: seq<Move>): seq<(nat, Action)> {
    if moves == [] then []
    else
      var last := moves[|moves| - 1];
      SessionSteps(moves[..|moves| - 1]) + if last.Work? then [(0, last.action)] else []
  }

  lemma WorkIsClientStep(g: Config, s: State, s': State, a: Action)
    requires WorkStep(g, s, s', a)
    ensures ClientStep(g.crypto, g.faithful, AsSystem(s), AsSystem(s'), 0, a)
    ensures Undisturbed(AsSystem(s), 0, a)
  {
    hide Session;
  }

  lemma OtherMovesKeepSystem(g: Config, s: State, s': State, m: Move)
    requires ServerStep(g, s, s', m) && !m.Work?
    ensures AsSystem(s') == AsSystem(s)
  {
    hide JobOf, Found;
  }

  lemma InterleavingGrows(c: Primitives, faithful: bool, trace: seq<System>, steps: seq<(nat, Action)>, s': System,
                          k: nat, a: Action)
    requires Interleaving(c, faithful, trace, steps) && Respectful(trace, steps)
    requires ClientStep(c, faithful, trace[|steps|], s', k, a) && Undisturbed(trace[|steps|], k, a)
    ensures Interleaving(c, faithful, trace + [s'], steps + [(k, a)])
    ensures Respectful(trace + [s'], steps + [(k, a)])
  {
    hide ClientStep, Undisturbed;
  }

  /** The sessions of every server run are an interleaving that respects the proviso. */
  lemma {:induction false} ServerIsRespectful(g: Config, trace: seq<State>, moves: seq<Move>)
    requires ServerRun(g, trace, moves)
    ensures Interleaving(g.crypto, g.faithful, SessionTrace(trace, moves), SessionSteps(moves))
    ensures Respectful(SessionTrace(trace, moves), SessionSteps(moves))
    ensures SessionTrace(trace, moves)[|SessionSteps(moves)|] == AsSystem(trace[|moves|])
    decreases |moves|
  {
    hide ServerStep, Interleaving, Respectful;
    if moves == [] {
      assert trace == [trace[0]];
      NoSessionsYet(g, trace[0]);
    } else {
      hide SessionTrace, SessionSteps;
      LastSession(trace, moves);
      var n := |moves|;
      ServerIsRespectful(g, trace[..n], moves[..n - 1]);
      var m := moves[n - 1];
      assert ServerStep(g, trace[n - 1], trace[n], m);
      if m.Work? {
        WorkOf(g, trace[n - 1], trace[n], m);
        WorkIsClientStep(g, trace[n - 1], trace[n], m.action);
        InterleavingGrows(g.crypto, g.faithful, SessionTrace(trace[..n], moves[..n - 1]), SessionSteps(moves[..n - 1]),
                          AsSystem(trace[n]), 0, m.action);
      } else {
        OtherMovesKeepSystem(g, trace[n - 1], trace[n], m);
      }
    }
  }

  lemma LastSession(trace: seq<State>, moves: seq<Move>)
    requires |trace| == |moves| + 1 && moves != []
    ensures var n, m := |moves|, moves[|moves| - 1];
            var front, steps := SessionTrace(trace[..n], moves[..n - 1]), SessionSteps(moves[..n - 1]);
            if m.Work? then
              SessionTrace(trace, moves) == front + [AsSystem(trace[n])]
                  && SessionSteps(moves) == steps + [(0, m.action)]
            else SessionTrace(trace, moves) == front && SessionSteps(moves) == steps
  {
  }

  lemma NoSessionsYet(g: Config, s: State)
    ensures Interleaving(g.crypto, g.faithful, SessionTrace([s], []), SessionSteps([]))
    ensures Respectful(SessionTrace([s], []), SessionSteps([]))
  {
  }

  lemma WorkOf(g: Config, s: State, s': State, m: Move)
    requires ServerStep(g, s, s', m) && m.Work?
    ensures WorkStep(g, s, s', m.action)
  {
  }

  // ---------- The stop handshake ----------

  /** How many moves the worker has left once the flag is cleared. */
  function MovesLeft(s: State): nat {
    match s.phase
    case Done => 0
    case Testing => 1
    case NotStarted => 2
    case Polling => 6
    case Serving(_, finished) =>
      if finished then 2
      else match s.client case Idle => 5 case HasBlock(_, _) => 3 case _ => 4
  }

  /** How many requests the worker can still take up or finish once the flag is cleared. */
  function RequestsLeft(s: State): nat {
    if s.phase.Polling? || (s.phase.Serving? && !s.phase.finished) then 1 else 0
  }

  /**
    With the flag cleared, each move of the worker brings it closer to the end, and nothing sets the flag again
    before that.
   */
  lemma StoppingStep(g: Config, s: State, s': State, m: Move)
    requires ServerStep(g, s, s', m) && !s.flag && Current(g, s)
    ensures s'.phase.Done? || !s'.flag
    ensures if m.Stop? then MovesLeft(s') == MovesLeft(s) else MovesLeft(s') < MovesLeft(s)
    ensures |s'.log| + RequestsLeft(s') <= |s.log| + RequestsLeft(s)
  {
    hide UpdateOutcome, CreateOutcome, RemoveOutcome, VerifyWith, ReadHeader, NextBlock, StoragePath, JobOf, Found;
  }

  /** Once the worker is done, only stops happen, and they change nothing but the flag. */
  lemma DoneStep(g: Config, s: State, s': State, m: Move)
    requires ServerStep(g, s, s', m) && s.phase.Done?
    ensures m.Stop? && s'.phase.Done? && s'.log == s.log
  {
  }

  function WorkerMoves(moves: seq<Move>): nat {
    if moves == [] then 0 else WorkerMoves(moves[..|moves| - 1]) + if moves[|moves| - 1].Stop? then 0 else 1
  }

  /**
    A stop is never lost: until the worker is done the flag stays cleared, the worker makes at most
    as many moves as it had left, and at most one more request is served.
   */
  lemma {:induction false} StopIsHonoured(g: Config, trace: seq<State>, moves: seq<Move>, i: nat, j: nat)
    requires ServerRun(g, trace, moves) && i < j <= |moves| && moves[i].Stop?
    ensures trace[j].phase.Done? || !trace[j].flag
    ensures WorkerMoves(moves[i + 1..j]) + MovesLeft(trace[j]) <= MovesLeft(trace[i]) <= 6
    ensures |trace[j].log| + RequestsLeft(trace[j]) <= |trace[i].log| + RequestsLeft(trace[i])
  {
    hide Current, Serial, ServerStep, MovesLeft, RequestsLeft;
    if j == i + 1 {
      StopClears(g, trace[i], trace[j]);
      assert moves[i + 1..j] == [];
    } else {
      StopIsHonoured(g, trace, moves, i, j - 1);
      ServerIsSequential(g, trace, moves, j - 1);
      MoveAfterStop(g, trace[j - 1], trace[j], moves[j - 1]);
      assert moves[i + 1..j][..j - i - 2] == moves[i + 1..j - 1];
    }
  }

  lemma StopClears(g: Config, s: State, s': State)
    requires ServerStep(g, s, s', Stop)
    ensures !s'.flag && MovesLeft(s') == MovesLeft(s) <= 6 && RequestsLeft(s') == RequestsLeft(s) && s'.log == s.log
  {
  }

  lemma MoveAfterStop(g: Config, s: State, s': State, m: Move)
    requires ServerStep(g, s, s', m) && (s.phase.Done? || !s.flag) && Current(g, s)
    ensures s'.phase.Done? || !s'.flag
    ensures MovesLeft(s') + (if m.Stop? then 0 else 1) <= MovesLeft(s)
    ensures |s'.log| + RequestsLeft(s') <= |s.log| + RequestsLeft(s)
  {
    if s.phase.Done? {
      DoneStep(g, s, s', m);
    } else {
      hide ServerStep, Current;
      StoppingStep(g, s, s', m);
    }
  }

  // ---------- What keeps the worker up ----------

  /** The moves after which a worker may end: a stop, a failed start or poll, a reply that could not be made. */
  predicate MayEnd(m: Move) {
    m.Stop? || m == Start(false) || m.PollError? || m == Reply(false)
  }

  lemma QuietStep(g: Config, s: State, s': State, m: Move)
    requires ServerStep(g, s, s', m) && !MayEnd(m) && s.flag && !s.phase.Done?
    ensures s'.flag && !s'.phase.Done?
  {
    hide Session, Serves, JobOf, Found;
  }

  /** Without such a move the worker is never done, and its flag stays set. */
  lemma {:induction false} WorkerStaysUp(g: Config, trace: seq<State>, moves: seq<Move>, k: nat)
    requires ServerRun(g, trace, moves) && k <= |moves|
    requires forall i :: 0 <= i < k ==> !MayEnd(moves[i])
    ensures trace[k].flag && !trace[k].phase.Done?
  {
    hide ServerStep;
    if k > 0 {
      WorkerStaysUp(g, trace, moves, k - 1);
      assert ServerStep(g, trace[k - 1], trace[k], moves[k - 1]);
      QuietStep(g, trace[k - 1], trace[k], moves[k - 1]);
    }
  }

  /** Some moves in a row, from one state to another. */
  ghost predicate Leads(g: Config, s: State, moves: seq<Move>, s': State)
    decreases |moves|
  {
    if moves == [] then s' == s
    else exists mid :: ServerStep(g, s, mid, moves[0]) && Leads(g, mid, moves[1..], s')
  }

  lemma LeadsOne(g: Config, s: State, m: Move, s': State)
    requires ServerStep(g, s, s', m)
    ensures Leads(g, s, [m], s')
  {
    assert [m][1..] == [];
    assert Leads(g, s', [m][1..], s');
  }

  lemma LeadsMore(g: Config, s: State, m: Move, mid: State, moves: seq<Move>, s': State)
    requires ServerStep(g, s, mid, m) && Leads(g, mid, moves, s')
    ensures Leads(g, s, [m] + moves, s')
  {
    assert ([m] + moves)[1..] == moves;
  }

  lemma LeadsThree(g: Config, s: State, s1: State, s2: State, s3: State, m1: Move, m2: Move, m3: Move)
    requires ServerStep(g, s, s1, m1) && ServerStep(g, s1, s2, m2) && ServerStep(g, s2, s3, m3)
    ensures Leads(g, s, [m1, m2, m3], s3)
  {
    hide ServerStep, Leads;
    LeadsOne(g, s2, m3, s3);
    LeadsMore(g, s1, m2, s2, [m3], s3);
    LeadsMore(g, s, m1, s1, [m2] + [m3], s3);
    assert [m1] + ([m2] + [m3]) == [m1, m2, m3];
  }

  /** A worker that could start, that has replied, or that waited in vain, takes the next message unless stopped. */
  lemma NextMessageIsTaken(g: Config, s: State, msg: Option<Request>)
    requires s.flag
    ensures s.phase.NotStarted? ==> Leads(g, s, [Start(true), Test, Receive(msg)], s.(phase := Serving(msg, false)))
    ensures s.phase.Serving? && s.phase.finished ==>
              Leads(g, s, [Reply(true), Test, Receive(msg)], s.(phase := Serving(msg, false)))
    ensures s.phase.Polling? ==> Leads(g, s, [PollTimeout, Test, Receive(msg)], s.(phase := Serving(msg, false)))
  {
    var s1, s2, s3 := s.(phase := Testing), s.(phase := Polling), s.(phase := Serving(msg, false));
    assert ServerStep(g, s1, s2, Test) && ServerStep(g, s2, s3, Receive(msg));
    hide Leads;
    if s.phase.NotStarted? {
      LeadsThree(g, s, s1, s2, s3, Start(true), Test, Receive(msg));
    } else if s.phase.Serving? && s.phase.finished {
      LeadsThree(g, s, s1, s2, s3, Reply(true), Test, Receive(msg));
    } else if s.phase.Polling? {
      LeadsThree(g, s, s1, s2, s3, PollTimeout, Test, Receive(msg));
    }
  }

  /** Pings and refusals are answered at once. */
  lemma AnswerCanSucceed(g: Config, s: State, status: Status)
    requires JustReceived(s)
    requires JobFor(g, s.phase.msg) == if status.Success? then Ping else Refuse(status)
    ensures Leads(g, s, [Answer], Finished(s, s.files, Exchange(s.phase.msg, None, None, Response(status, Nothing))))
  {
    hide JobOf;
    LeadsOne(g, s, Answer, Finished(s, s.files, Exchange(s.phase.msg, None, None, Response(status, Nothing))));
  }

  /** The state with a request finished: its files, and its exchange in the log. */
  function Finished(s: State, after: Files, x: Exchange): State
    requires s.phase.Serving?
  {
    s.(phase := Serving(s.phase.msg, true), client := Idle, files := after,
       history := s.history + [after], log := s.log + [x])
  }

  /** A request has just been received. */
  predicate JustReceived(s: State) {
    s.phase.Serving? && !s.phase.finished && s.client.Idle?
  }

  lemma ReadCanSucceed(g: Config, s: State, payload: Payload)
    requires JustReceived(s) && Reads(JobFor(g, s.phase.msg))
    requires Found(g.crypto, g.dir, s.files, JobFor(g, s.phase.msg), payload)
    ensures Leads(g, s, [Look(Some(payload))],
                  Finished(s, s.files, Exchange(s.phase.msg, None, None, Response(Success, payload))))
  {
    hide JobOf, Found;
    LeadsOne(g, s, Look(Some(payload)),
             Finished(s, s.files, Exchange(s.phase.msg, None, None, Response(Success, payload))));
  }

  lemma CreateCanSucceed(g: Config, s: State, id: uint64, data: Bytes, key: Option<PrivateKey>)
    requires JustReceived(s) && JobFor(g, s.phase.msg) == CreateJob(id, data)
    requires StoragePath(g.dir, id) !in s.files && NewDb(g.crypto, data, key).Some?
    ensures Leads(g, s, [Work(Create(StoragePath(g.dir, id), data, key, true))],
                  Finished(s, s.files[StoragePath(g.dir, id) := NewDb(g.crypto, data, key).value],
                           Exchange(s.phase.msg, key, None, StatusOnly(true))))
  {
    hide JobOf, StoragePath, NewDb;
    var path := StoragePath(g.dir, id);
    LeadsOne(g, s, Work(Create(path, data, key, true)),
             Finished(s, s.files[path := NewDb(g.crypto, data, key).value],
                      Exchange(s.phase.msg, key, None, StatusOnly(true))));
  }

  lemma RemoveCanSucceed(g: Config, s: State, id: uint64)
    requires JustReceived(s) && JobFor(g, s.phase.msg) == RemoveJob(id)
    ensures Leads(g, s, [Work(Remove(StoragePath(g.dir, id), true))],
                  Finished(s, s.files - {StoragePath(g.dir, id)}, Exchange(s.phase.msg, None, None, StatusOnly(true))))
  {
    hide JobOf, StoragePath;
    var path := StoragePath(g.dir, id);
    LeadsOne(g, s, Work(Remove(path, true)),
             Finished(s, s.files - {path}, Exchange(s.phase.msg, None, None, StatusOnly(true))));
  }

  /** The worker's three sessions can complete every append that one call can. */
  lemma AddCanSucceed(g: Config, s: State, id: uint64, data: Bytes, nonce: Option<Nonce>, db': Db, b: Block)
    requires JustReceived(s) && JobFor(g, s.phase.msg) == AddJob(id, data)
    requires StoragePath(g.dir, id) in s.files
    requires AddBlockDb(g.crypto, s.files[StoragePath(g.dir, id)], data, nonce) == Some((db', b))
    ensures Leads(g, s, [Work(BeginAppend(StoragePath(g.dir, id), data)), Work(MakeBlock(nonce)), Work(Commit(true))],
                  Finished(s, s.files[StoragePath(g.dir, id) := db'],
                           Exchange(s.phase.msg, None, nonce, Response(Success, OneBlock(b)))))
  {
    hide JobOf, StoragePath, ReadHeader, NextBlock, AppendDb;
    var path := StoragePath(g.dir, id);
    var db := s.files[path];
    var h := ReadHeader(db).value;
    MadeBlockFields(g.crypto, db, h, data, nonce);
    var s1 := s.(client := HasHeader(path, data, h));
    var s2 := s.(client := HasBlock(path, b));
    var s3 := Finished(s, s.files[path := db'], Exchange(s.phase.msg, None, nonce, Response(Success, OneBlock(b))));
    assert ServerStep(g, s, s1, Work(BeginAppend(path, data)));
    assert ServerStep(g, s1, s2, Work(MakeBlock(nonce)));
    assert ServerStep(g, s2, s3, Work(Commit(true)));
    LeadsThree(g, s, s1, s2, s3, Work(BeginAppend(path, data)), Work(MakeBlock(nonce)), Work(Commit(true)));
  }

  /** The worker's two sessions can complete the verification of every accepted chain. */
  lemma VerifyCanSucceed(g: Config, s: State, id: uint64)
    requires JustReceived(s) && JobFor(g, s.phase.msg) == VerifyJob(id)
    requires StoragePath(g.dir, id) in s.files && Accepts(g.crypto, s.files[StoragePath(g.dir, id)])
    ensures Leads(g, s, [Work(BeginVerify(StoragePath(g.dir, id))), Work(FinishVerify(true, true))],
                  Finished(s, s.files, Exchange(s.phase.msg, None, None, StatusOnly(true))))
  {
    hide JobOf, StoragePath, ReadHeader, StoredBlocks, ValidBlocks, Genesis;
    var path := StoragePath(g.dir, id);
    var h := ReadHeader(s.files[path]).value;
    var s1 := s.(client := HasVerifyHeader(path, h));
    var s2 := Finished(s, s.files, Exchange(s.phase.msg, None, None, StatusOnly(true)));
    assert ServerStep(g, s, s1, Work(BeginVerify(path)));
    assert ServerStep(g, s1, s2, Work(FinishVerify(true, true)));
    hide ServerStep, Leads;
    LeadsOne(g, s1, Work(FinishVerify(true, true)), s2);
    LeadsMore(g, s, Work(BeginVerify(path)), s1, [Work(FinishVerify(true, true))], s2);
    assert [Work(BeginVerify(path))] + [Work(FinishVerify(true, true))] ==
           [Work(BeginVerify(path)), Work(FinishVerify(true, true))];
  }
}
