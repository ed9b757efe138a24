/**
  `Server`: the loop of the worker thread as it runs against one history of polls and stops. The
  history may be of any length; the loop is cut off where it ends.
 */
module Servers {
  import opened Basics
  import opened Crypto
  import opened Storage
  import opened Layout
  import opened Requests
  import opened RequestRuns
  import opened Handlers

  /** `std::atomic_flag`. */
  class AtomicFlag {
    var isSet: bool

    constructor ()
      ensures !isSet
    {
      isSet := false;
    }

    method TestAndSet() returns (was: bool)
      modifies this
      ensures isSet && was == old(isSet)
    {
      was := isSet;
      isSet := true;
    }

    method Clear()
      modifies this
      ensures !isSet
    {
      isSet := false;
    }
  }

  /** How one poll ends; a message comes with the random inputs of its handling and the fate of its reply. */
  datatype Poll =
    | Timeout
    | Broken
    | Arrived(msg: Option<Request>, key: Option<PrivateKey>, nonce: Option<Nonce>, replied: bool)

  /** One turn of the loop: a stop may come before the flag is tested, or at any later point of the turn. */
  datatype Turn = Turn(stopBefore: bool, poll: Poll, stopAfter: bool)

  /** The messages that are handled from turn i on, when the loop comes to it with this flag. */
  function Taken(isSet: bool, turns: seq<Turn>, i: nat): seq<Poll>
    requires i <= |turns|
    decreases |turns| - i
  {
    if i == |turns| || turns[i].stopBefore || !isSet then []
    else
      match turns[i].poll
      case Timeout => Taken(!turns[i].stopAfter, turns, i + 1)
      case Broken => []
      case Arrived(_, _, _, replied) =>
        [turns[i].poll] + if replied then Taken(!turns[i].stopAfter, turns, i + 1) else []
  }

  /** After a stop before turn k nothing more is handled; after one within turn k, nothing beyond that turn. */
  lemma {:induction false} StopBounds(isSet: bool, turns: seq<Turn>, i: nat, k: nat)
    requires i <= k < |turns|
    ensures turns[k].stopBefore ==> |Taken(isSet, turns, i)| <= k - i
    ensures turns[k].stopAfter ==> |Taken(isSet, turns, i)| <= k - i + 1
    decreases k - i
  {
    if i < k {
      StopBounds(!turns[i].stopAfter, turns, i + 1, k);
    }
  }

  /** A turn that gives the loop no reason to end. */
  predicate Quiet(t: Turn) {
    !t.stopBefore && !t.stopAfter && !t.poll.Broken? && (t.poll.Arrived? ==> t.poll.replied)
  }

  /** The messages that arrive in the turns from i up to j. */
  function Arrivals(turns: seq<Turn>, i: nat, j: nat): seq<Poll>
    requires i <= j <= |turns|
  {
    if i == j then []
    else Arrivals(turns, i, j - 1) + if turns[j - 1].poll.Arrived? then [turns[j - 1].poll] else []
  }

  lemma {:induction false} ArrivalsFromFront(turns: seq<Turn>, i: nat, j: nat)
    requires i < j <= |turns|
    ensures Arrivals(turns, i, j) ==
              (if turns[i].poll.Arrived? then [turns[i].poll] else []) + Arrivals(turns, i + 1, j)
  {
    if i + 1 < j {
      ArrivalsFromFront(turns, i, j - 1);
    }
  }

  lemma QuietTurn(turns: seq<Turn>, i: nat)
    requires i < |turns| && Quiet(turns[i])
    ensures Taken(true, turns, i) ==
              (if turns[i].poll.Arrived? then [turns[i].poll] else []) + Taken(true, turns, i + 1)
  {
  }

  /** While the turns are quiet, every message that arrives is handled, and the loop goes on. */
  lemma {:induction false} QuietTurnsTakeAll(turns: seq<Turn>, i: nat, j: nat)
    requires i <= j <= |turns| && forall k :: i <= k < j ==> Quiet(turns[k])
    ensures Taken(true, turns, i) == Arrivals(turns, i, j) + Taken(true, turns, j)
    decreases j - i
  {
    hide Taken, Quiet;
    if i < j {
      QuietTurnsTakeAll(turns, i + 1, j);
      QuietTurn(turns, i);
      hide Arrivals;
      ArrivalsFromFront(turns, i, j);
    }
  }

  /**
    The messages handled are exactly those that arrive before the first turn that is not quiet, and in that turn the
    one that arrives, unless a stop came before it.
   */
  lemma TakenExactly(turns: seq<Turn>, j: nat)
    requires j <= |turns| && forall k :: 0 <= k < j ==> Quiet(turns[k])
    requires j < |turns| ==> !Quiet(turns[j])
    ensures Taken(true, turns, 0) ==
            Arrivals(turns, 0, j)
            + if j < |turns| && !turns[j].stopBefore && turns[j].poll.Arrived? then [turns[j].poll] else []
    ensures Taken(false, turns, 0) == []
  {
    QuietTurnsTakeAll(turns, 0, j);
    if j < |turns| {
      ClearedTakesNothing(turns, j + 1);
    }
  }

  lemma ClearedTakesNothing(turns: seq<Turn>, i: nat)
    requires i <= |turns|
    ensures Taken(false, turns, i) == []
  {
  }

  lemma TakenNext(taken: seq<Poll>, isSet: bool, turns: seq<Turn>, i: nat)
    requires i < |turns| && isSet && !turns[i].stopBefore && turns[i].poll.Arrived?
    ensures taken + Taken(isSet, turns, i) ==
            (taken + [turns[i].poll]) + if turns[i].poll.replied then Taken(!turns[i].stopAfter, turns, i + 1) else []
  {
  }

  class Server {
    const handler: Handler
    const isStopped: AtomicFlag

    constructor (handler: Handler)
      ensures this.handler == handler && fresh(isStopped) && isStopped.isSet
    {
      this.handler := handler;
      var flag := new AtomicFlag();
      isStopped := flag;
      new;
      var _ := isStopped.TestAndSet();
    }

    method Stop()
      modifies isStopped
      ensures !isStopped.isSet
    {
      isStopped.Clear();
    }

    /** The exchanges so far are a run of requests up to the present files, which have room for n more. */
    ghost predicate Progress(log: seq<Exchange>, trace: seq<Files>, n: nat)
      reads handler.manager.disk
    {
      && RequestRun(handler.manager.crypto, handler.manager.storageDir, handler.password,
                    handler.manager.disk.faithful, trace, log)
      && trace[|log|] == handler.manager.disk.files
      && IndexRoom(handler.manager.disk.files, n)
    }

    lemma NothingHandled(files: Files)
      ensures RequestRun(handler.manager.crypto, handler.manager.storageDir, handler.password,
                         handler.manager.disk.faithful, [files], [])
      ensures Prompt([], [files]) && LogOf([], [])
    {
    }

    /** Every request that could succeed on the files it met did succeed. */
    ghost predicate Prompt(log: seq<Exchange>, trace: seq<Files>) {
      && |trace| == |log| + 1
      && forall i :: 0 <= i < |log| ==>
           DueOn(handler.manager.crypto, handler.manager.storageDir, handler.password, trace[i], log[i])
    }

    /**
      The messages that were taken were handled one after the other, each on the files the one before left; when no
      handle is open and no call fails for reasons of its own, each succeeds that can.
     */
    method Process(bound: bool, turns: seq<Turn>) returns (log: seq<Exchange>, ghost trace: seq<Files>)
      requires IndexRoom(handler.manager.disk.files, |turns|)
      modifies isStopped, handler.manager.disk
      ensures RequestRun(handler.manager.crypto, handler.manager.storageDir, handler.password,
                         handler.manager.disk.faithful, trace, log)
      ensures trace[0] == old(handler.manager.disk.files) && trace[|log|] == handler.manager.disk.files
      ensures LogOf(log, if bound then Taken(old(isStopped.isSet), turns, 0) else [])
      ensures handler.manager.disk.locks == old(handler.manager.disk.locks)
      ensures old(handler.Obeys()) ==> Prompt(log, trace)
    {
      hide IndexRoom, RequestRun, LogOf, Prompt;
      log, trace := [], [handler.manager.disk.files];
      NothingHandled(trace[0]);
      if !bound {
        return;
      }
      ghost var taken := [];
      var i := 0;
      while i < |turns|
        invariant i <= |turns| && |trace| > 0 && trace[0] == old(handler.manager.disk.files)
        invariant Progress(log, trace, |turns| - i)
        invariant handler.manager.disk.locks == old(handler.manager.disk.locks)
        invariant LogOf(log, taken)
        invariant old(handler.Obeys()) ==> handler.Obeys() && Prompt(log, trace)
        invariant taken + Taken(isStopped.isSet, turns, i) == Taken(old(isStopped.isSet), turns, 0)
      {
        hide Progress;
        if turns[i].stopBefore {
          Stop();
        }
        var running := isStopped.TestAndSet();
        if !running {
          break;
        }
        if turns[i].poll.Broken? {
          break;
        }
        if turns[i].poll.Arrived? {
          ghost var before := log;
          log, trace := Serve(log, trace, turns[i].poll.msg, turns[i].poll.key, turns[i].poll.nonce, |turns| - i - 1);
          TakenNext(taken, true, turns, i);
          LogGrows(before, log, taken, turns[i].poll);
          taken := taken + [turns[i].poll];
          if !turns[i].poll.replied {
            break;
          }
        } else {
          ProgressShrinks(log, trace, |turns| - i, |turns| - i - 1);
        }
        if turns[i].stopAfter {
          Stop();
        }
        i := i + 1;
      }
      assert taken + [] == taken;
    }

    method Serve(before: seq<Exchange>, ghost past: seq<Files>, msg: Option<Request>, key: Option<PrivateKey>,
                 nonce: Option<Nonce>, ghost n: nat)
      returns (log: seq<Exchange>, ghost trace: seq<Files>)
      requires Progress(before, past, n + 1)
      modifies handler.manager.disk
      ensures Progress(log, trace, n) && handler.manager.disk.locks == old(handler.manager.disk.locks)
      ensures |trace| > 0 && |past| > 0 && trace[0] == past[0]
      ensures |log| == |before| + 1 && log[..|before|] == before
      ensures log[|before|].msg == msg && log[|before|].key == key && log[|before|].nonce == nonce
      ensures old(handler.Obeys()) ==> handler.Obeys() && (Prompt(before, past) ==> Prompt(log, trace))
    {
      hide IndexRoom, Handled, JobOf, Possible;
      WalksEndFor(handler, msg, n + 1);
      var resp := handler.HandleMessage(msg, key, nonce);
      var x := Exchange(msg, key, nonce, resp);
      RunGrows(handler, past, before, handler.manager.disk.files, x);
      HandledKeeps(handler, past[|before|], handler.manager.disk.files, x, n);
      log, trace := before + [x], past + [handler.manager.disk.files];
    }

    lemma ProgressShrinks(log: seq<Exchange>, trace: seq<Files>, n: nat, m: nat)
      requires Progress(log, trace, n) && m <= n
      ensures Progress(log, trace, m)
    {
      hide RequestRun;
    }
  }

  /** If the exchange could succeed on these files, it did. */
  ghost predicate DueOn(c: Primitives, dir: string, password: Bytes, files: Files, x: Exchange) {
    Possible(c, dir, files, JobOf(c, password, x.msg), x.key, x.nonce) ==> x.resp.status.Success?
  }

  /** The log is about these messages, in this order. */
  ghost predicate LogOf(log: seq<Exchange>, taken: seq<Poll>) {
    && |log| == |taken|
    && forall i :: 0 <= i < |log| ==>
         taken[i].Arrived? && taken[i].msg == log[i].msg && taken[i].key == log[i].key && taken[i].nonce == log[i].nonce
  }

  lemma LogGrows(before: seq<Exchange>, log: seq<Exchange>, taken: seq<Poll>, p: Poll)
    requires LogOf(before, taken) && |log| == |before| + 1 && log[..|before|] == before && p.Arrived?
    requires log[|before|].msg == p.msg && log[|before|].key == p.key && log[|before|].nonce == p.nonce
    ensures LogOf(log, taken + [p])
  {
    forall i | 0 <= i < |before| ensures log[i] == before[i] {
      assert log[..|before|][i] == before[i];
    }
  }

  lemma WalksEndFor(handler: Handler, msg: Option<Request>, n: nat)
    requires IndexRoom(handler.manager.disk.files, n)
    ensures msg.Some? ==> handler.WalkEndsFor(msg.value.getBlocks) && handler.WalkEndsFor(msg.value.verifyChain)
  {
    hide WalkEnds, IndexRoom;
    forall path | path in handler.manager.disk.files ensures WalkEnds(handler.manager.disk.files[path]) {
      IndexRoomWalkEnds(handler.manager.disk.files, n, path);
    }
  }

  lemma RunGrows(handler: Handler, trace: seq<Files>, log: seq<Exchange>, after: Files, x: Exchange)
    requires RequestRun(handler.manager.crypto, handler.manager.storageDir, handler.password,
                        handler.manager.disk.faithful, trace, log)
    requires Handled(handler.manager.crypto, handler.manager.storageDir, handler.manager.disk.faithful, trace[|log|],
                     after,
                     JobOf(handler.manager.crypto, handler.password, x.msg), x.key, x.nonce, x.resp)
    ensures RequestRun(handler.manager.crypto, handler.manager.storageDir, handler.password,
                       handler.manager.disk.faithful, trace + [after], log + [x])
  {
    hide Handled, JobOf;
  }

  lemma HandledKeeps(handler: Handler, before: Files, after: Files, x: Exchange, n: nat)
    requires IndexRoom(before, n + 1)
    requires Handled(handler.manager.crypto, handler.manager.storageDir, handler.manager.disk.faithful, before, after,
                     JobOf(handler.manager.crypto, handler.password, x.msg), x.key, x.nonce, x.resp)
    ensures IndexRoom(after, n)
  {
    hide IndexRoom, JobOf, Answers, EventOf;
    var job := JobOf(handler.manager.crypto, handler.password, x.msg);
    StepKeepsIndexRoom(handler.manager.crypto, handler.manager.disk.faithful, before, after,
                       EventOf(handler.manager.storageDir, job, x.key, x.nonce, x.resp), n);
  }
}
