/**
The pipelined Redis client `hrb::redis::Connection` (src/server/net/Redis.cc).

A completion routine is identified by the index of the command it was issued with.
`Conn` is the value of one connection object together with its observable history; the
functions below are the effect of each member function on that value, and class
`Connection` is the object itself, whose loops are proved to have exactly that effect.

hiredis is taken as given: one socket read hands over the replies that became complete
(in any chunking) and then reports either "not ready" or a parse error.
 */
module RedisConnection {

  datatype Reply =
    | NoReply                            // a default constructed Reply{}
    | Status(text: string)
    | Failure(text: string)
    | Nil
    | Integer(value: int)
    | Bulk(text: string)
    | Array(elements: seq<Reply>)

  datatype ErrorCode = Success | Protocol | Io | TransactionAborted | Network(code: nat)

  datatype Command = Multi | Exec | Discard | Other(text: string)

  datatype Delivery = Delivery(command: nat, reply: Reply, ec: ErrorCode)

  const QUEUED := Status("QUEUED")

  predicate Aborts(reply: Reply) {
    reply == Nil || reply == Status("OK")
  }

  /**
  callbacks, queued: m_callbacks and m_queued_callbacks; readers: socket reads outstanding.
  issued, wire, log: every command written, every reply consumed, every callback run.
  application: the commands that the k-th callback to run issues from inside itself.
   */
  datatype Conn = Conn(
    callbacks: seq<nat>, queued: seq<nat>, open: bool, readers: nat,
    issued: seq<Command>, wire: seq<Reply>, log: seq<Delivery>,
    application: seq<seq<Command>>)

  function Fresh(application: seq<seq<Command>>): Conn {
    Conn([], [], true, 0, [], [], [], application)
  }

  // do_write(): the completion is queued before the command leaves, and a reader is started
  // only for the first pending completion.
  function Write(s: Conn, cmd: Command): Conn {
    s.(callbacks := s.callbacks + [|s.issued|],
       issued := s.issued + [cmd],
       readers := if |s.callbacks| == 0 then s.readers + 1 else s.readers)
  }

  function WriteAll(s: Conn, cmds: seq<Command>): Conn
    decreases |cmds|
  {
    if cmds == [] then s else WriteAll(Write(s, cmds[0]), cmds[1..])
  }

  function FollowUps(s: Conn): seq<Command> {
    if |s.log| < |s.application| then s.application[|s.log|] else []
  }

  // Running one callback: it sees its result and may issue further commands.
  function Invoke(s: Conn, id: nat, reply: Reply, ec: ErrorCode): Conn {
    WriteAll(s.(log := s.log + [Delivery(id, reply, ec)]), FollowUps(s))
  }

  function Results(reply: Reply, n: nat): (r: seq<(Reply, ErrorCode)>)
    requires Aborts(reply) || (reply.Array? && |reply.elements| == n)
    ensures |r| == n
  {
    if Aborts(reply) then seq(n, _ => (reply, TransactionAborted))
    else seq(n, i requires 0 <= i < n => (reply.elements[i], Success))
  }

  function InvokeEach(s: Conn, ids: seq<nat>, results: seq<(Reply, ErrorCode)>): Conn
    requires |ids| == |results|
    decreases |ids|
  {
    if ids == [] then s
    else InvokeEach(Invoke(s, ids[0], results[0].0, results[0].1), ids[1..], results[1..])
  }

  // The reply that ends a run of k > 0 queued commands must match it; anything else is the
  // assert(false) of on_exec_transaction().
  predicate Fits(k: nat, reply: Reply) {
    k == 0 || reply == QUEUED || Aborts(reply) || (reply.Array? && |reply.elements| == k)
  }

  function ExecTransaction(s: Conn, reply: Reply): Conn
    requires s.callbacks != [] && s.queued != [] && reply != QUEUED && Fits(|s.queued|, reply)
  {
    var s' := InvokeEach(s, s.queued, Results(reply, |s.queued|));
    InvokeEachKeeps(s, s.queued, Results(reply, |s.queued|));
    Invoke(s', s'.callbacks[0], reply, Success).(queued := [])
  }

  // One turn of the loop in on_read().
  function HandleReply(s: Conn, reply: Reply): Conn
    requires s.callbacks != [] && Fits(|s.queued|, reply)
  {
    var s' :=
      if reply == QUEUED then s.(queued := s.queued + [s.callbacks[0]])
      else if s.queued != [] then ExecTransaction(s, reply)
      else Invoke(s, s.callbacks[0], reply, Success);
    HandleReplyKeepsFront(s, reply);
    s'.(callbacks := s'.callbacks[1..], wire := s'.wire + [reply])
  }

  predicate AllFit(k: nat, replies: seq<Reply>)
    decreases |replies|
  {
    replies == [] ||
    (Fits(k, replies[0]) && AllFit(if replies[0] == QUEUED then k + 1 else 0, replies[1..]))
  }

  // The whole loop: it stops at the last reply or when no completion is pending.
  // The second component is what the reader still holds.
  function HandleReplies(s: Conn, replies: seq<Reply>): (Conn, seq<Reply>)
    requires AllFit(|s.queued|, replies)
    decreases |replies|
  {
    if replies == [] || s.callbacks == [] then (s, replies)
    else
      QueueAfterReply(s, replies[0]);
      HandleReplies(HandleReply(s, replies[0]), replies[1..])
  }

  function Remaining(s: Conn): nat {
    if |s.log| < |s.application| then |s.application| - |s.log| else 0
  }

  // After unreadable data everybody who waits is told so, including whoever starts to wait meanwhile.
  function FailPending(s: Conn): Conn
    decreases Remaining(s), |s.callbacks|
  {
    if s.callbacks == [] then s
    else
      var s' := Invoke(s, s.callbacks[0], NoReply, Protocol);
      WriteAllKeeps(s.(log := s.log + [Delivery(s.callbacks[0], NoReply, Protocol)]), FollowUps(s));
      FailPending(s'.(callbacks := s'.callbacks[1..]))
  }

  function Failures(ids: seq<nat>, ec: ErrorCode): (r: seq<Delivery>)
    ensures |r| == |ids|
  {
    seq(|ids|, i requires 0 <= i < |ids| => Delivery(ids[i], NoReply, if ec == Success then Io else ec))
  }

  // disconnect(): the callbacks it runs must not use the connection.
  function Disconnect(s: Conn, ec: ErrorCode): Conn {
    s.(log := s.log + Failures(s.queued, ec) + Failures(s.callbacks, ec),
       queued := [], callbacks := [], open := false)
  }

  // How a read ends once its replies are handled.
  function Ending(s: Conn, broken: bool): Conn {
    if broken then Disconnect(FailPending(s), Protocol)
    else if s.callbacks != [] then s.(readers := s.readers + 1)
    else s
  }

  function OnRead(s: Conn, replies: seq<Reply>, parseError: bool): Conn
    requires s.readers > 0 && AllFit(|s.queued|, replies)
  {
    var (s', left) := HandleReplies(s.(readers := s.readers - 1), replies);
    Ending(s', parseError || left != [])
  }

  function OnReadError(s: Conn, ec: ErrorCode): Conn
    requires s.readers > 0
  {
    Disconnect(s.(readers := s.readers - 1), ec)
  }

  // ------------------------------------------------------------------
  // Shape facts that make the functions above well defined
  // ------------------------------------------------------------------

  // What issuing commands while some completion is pending leaves alone.
  ghost predicate Extends(s: Conn, t: Conn) {
    && s.callbacks <= t.callbacks
    && s.issued <= t.issued
    && |t.callbacks| - |s.callbacks| == |t.issued| - |s.issued|
    && (forall i :: |s.callbacks| <= i < |t.callbacks| ==> t.callbacks[i] == |s.issued| + i - |s.callbacks|)
    && t.queued == s.queued && t.open == s.open && t.wire == s.wire
    && t.application == s.application
    && (s.callbacks != [] ==> t.readers == s.readers)
  }

  lemma {:induction false} WriteAllKeeps(s: Conn, cmds: seq<Command>)
    ensures Extends(s, WriteAll(s, cmds))
    ensures WriteAll(s, cmds).log == s.log
    decreases |cmds|
  {
    if cmds != [] {
      WriteAllKeeps(Write(s, cmds[0]), cmds[1..]);
    }
  }

  lemma InvokeKeeps(s: Conn, id: nat, reply: Reply, ec: ErrorCode)
    ensures Extends(s, Invoke(s, id, reply, ec))
    ensures Invoke(s, id, reply, ec).log == s.log + [Delivery(id, reply, ec)]
  {
    WriteAllKeeps(s.(log := s.log + [Delivery(id, reply, ec)]), FollowUps(s));
  }

  function Deliveries(ids: seq<nat>, results: seq<(Reply, ErrorCode)>): (r: seq<Delivery>)
    requires |ids| == |results|
    ensures |r| == |ids|
  {
    seq(|ids|, i requires 0 <= i < |ids| => Delivery(ids[i], results[i].0, results[i].1))
  }

  lemma {:induction false} InvokeEachKeeps(s: Conn, ids: seq<nat>, results: seq<(Reply, ErrorCode)>)
    requires |ids| == |results|
    ensures Extends(s, InvokeEach(s, ids, results))
    ensures InvokeEach(s, ids, results).log == s.log + Deliveries(ids, results)
    decreases |ids|
  {
    if ids != [] {
      var s' := Invoke(s, ids[0], results[0].0, results[0].1);
      InvokeKeeps(s, ids[0], results[0].0, results[0].1);
      InvokeEachKeeps(s', ids[1..], results[1..]);
      assert Deliveries(ids, results) == [Delivery(ids[0], results[0].0, results[0].1)] + Deliveries(ids[1..], results[1..]);
    }
  }

  lemma ExecKeeps(s: Conn, reply: Reply)
    requires s.callbacks != [] && s.queued != [] && reply != QUEUED && Fits(|s.queued|, reply)
    ensures Extends(s, ExecTransaction(s, reply).(queued := s.queued))
    ensures ExecTransaction(s, reply).queued == []
    ensures ExecTransaction(s, reply).log
         == s.log + Deliveries(s.queued, Results(reply, |s.queued|)) + [Delivery(s.callbacks[0], reply, Success)]
  {
    var results := Results(reply, |s.queued|);
    InvokeEachKeeps(s, s.queued, results);
    var s' := InvokeEach(s, s.queued, results);
    InvokeKeeps(s', s'.callbacks[0], reply, Success);
  }

  lemma HandleReplyKeepsFront(s: Conn, reply: Reply)
    requires s.callbacks != [] && Fits(|s.queued|, reply)
    ensures reply != QUEUED && s.queued == [] ==> Invoke(s, s.callbacks[0], reply, Success).callbacks != []
    ensures reply != QUEUED && s.queued != [] ==> ExecTransaction(s, reply).callbacks != []
  {
    if reply != QUEUED {
      if s.queued != [] { ExecKeeps(s, reply); } else { InvokeKeeps(s, s.callbacks[0], reply, Success); }
    }
  }

  lemma QueueAfterReply(s: Conn, reply: Reply)
    requires s.callbacks != [] && Fits(|s.queued|, reply)
    ensures |HandleReply(s, reply).queued| == if reply == QUEUED then |s.queued| + 1 else 0
  {
    if reply != QUEUED {
      if s.queued != [] { ExecKeeps(s, reply); } else { InvokeKeeps(s, s.callbacks[0], reply, Success); }
    }
  }

  // ------------------------------------------------------------------
  // The object
  // ------------------------------------------------------------------

  class Connection {
    var callbacks: seq<nat>
    var queued: seq<nat>
    var open: bool
    var readers: nat
    var issued: seq<Command>
    var wire: seq<Reply>
    var log: seq<Delivery>
    const application: seq<seq<Command>>

    ghost function State(): Conn
      reads this
    {
      Conn(callbacks, queued, open, readers, issued, wire, log, application)
    }

    constructor (application: seq<seq<Command>>)
      ensures State() == Fresh(application)
    {
      this.application := application;
      callbacks, queued, open, readers := [], [], true, 0;
      issued, wire, log := [], [], [];
    }

    method DoRead()
      modifies this
      ensures State() == old(State()).(readers := old(readers) + 1)
    {
      readers := readers + 1;
    }

    method DoWrite(cmd: Command)
      modifies this
      ensures State() == Write(old(State()), cmd)
    {
      callbacks := callbacks + [|issued|];
      if |callbacks| == 1 {
        DoRead();
      }
      issued := issued + [cmd];
    }

    method Run(id: nat, reply: Reply, ec: ErrorCode)
      modifies this
      ensures State() == Invoke(old(State()), id, reply, ec)
    {
      var cmds := if |log| < |application| then application[|log|] else [];
      log := log + [Delivery(id, reply, ec)];
      ghost var start := State();
      assert start == old(State()).(log := old(log) + [Delivery(id, reply, ec)]);
      var i := 0;
      while i < |cmds|
        invariant 0 <= i <= |cmds|
        invariant WriteAll(State(), cmds[i..]) == WriteAll(start, cmds)
      {
        assert cmds[i..][1..] == cmds[i + 1..];
        DoWrite(cmds[i]);
        i := i + 1;
      }
    }

    method OnExecTransaction(reply: Reply)
      requires callbacks != [] && queued != [] && reply != QUEUED && Fits(|queued|, reply)
      modifies this
      ensures State() == ExecTransaction(old(State()), reply)
    {
      ghost var start := State();
      ghost var results := Results(reply, |queued|);
      ghost var ids := queued;
      var i := 0;
      while i < |queued|
        invariant 0 <= i <= |ids| && queued == ids && callbacks != []
        invariant InvokeEach(State(), ids[i..], results[i..]) == InvokeEach(start, ids, results)
      {
        ghost var s := State();
        assert ids[i..][1..] == ids[i + 1..] && results[i..][1..] == results[i + 1..];
        InvokeKeeps(s, ids[i], results[i].0, results[i].1);
        if reply == Nil || reply == Status("OK") {
          Run(queued[i], reply, TransactionAborted);
        } else {
          Run(queued[i], reply.elements[i], Success);
        }
        i := i + 1;
      }
      Run(callbacks[0], reply, Success);
      queued := [];
    }

    method HandleOne(reply: Reply)
      requires callbacks != [] && Fits(|queued|, reply)
      modifies this
      ensures State() == HandleReply(old(State()), reply)
    {
      HandleReplyKeepsFront(State(), reply);
      if reply == QUEUED {
        queued := queued + [callbacks[0]];
      } else if queued != [] {
        OnExecTransaction(reply);
      } else {
        Run(callbacks[0], reply, Success);
      }
      callbacks := callbacks[1..];
      wire := wire + [reply];
    }

    // Both loops of disconnect() run the callbacks of one queue with an error.
    method FailEach(ids: seq<nat>, ec: ErrorCode)
      modifies this`log
      ensures log == old(log) + Failures(ids, ec)
    {
      var i := 0;
      while i < |ids|
        invariant 0 <= i <= |ids|
        invariant log == old(log) + Failures(ids, ec)[..i]
      {
        log := log + [Delivery(ids[i], NoReply, if ec == Success then Io else ec)];
        i := i + 1;
      }
    }

    method DisconnectWith(ec: ErrorCode)
      modifies this
      ensures State() == Disconnect(old(State()), ec)
    {
      FailEach(queued, ec);
      queued := [];
      FailEach(callbacks, ec);
      callbacks := [];
      open := false;
    }

    // The loop that consumes replies; returns how many were consumed.
    method ConsumeReplies(replies: seq<Reply>) returns (n: nat)
      requires AllFit(|queued|, replies)
      modifies this
      ensures n <= |replies|
      ensures HandleReplies(old(State()), replies) == (State(), replies[n..])
    {
      ghost var start := State();
      n := 0;
      while callbacks != [] && n < |replies|
        invariant 0 <= n <= |replies|
        invariant AllFit(|queued|, replies[n..])
        invariant HandleReplies(State(), replies[n..]) == HandleReplies(start, replies)
        decreases |replies| - n
      {
        assert replies[n..][1..] == replies[n + 1..];
        QueueAfterReply(State(), replies[n]);
        HandleOne(replies[n]);
        n := n + 1;
      }
    }

    // The loop that reports a parse error to whoever is pending.
    method ReportParseError()
      modifies this
      ensures State() == FailPending(old(State()))
    {
      while callbacks != []
        invariant FailPending(State()) == FailPending(old(State()))
        decreases Remaining(State()), |callbacks|
      {
        InvokeKeeps(State(), callbacks[0], NoReply, Protocol);
        Run(callbacks[0], NoReply, Protocol);
        callbacks := callbacks[1..];
      }
    }

    method ReadDone(replies: seq<Reply>, parseError: bool)
      requires readers > 0 && AllFit(|queued|, replies)
      modifies this
      ensures State() == OnRead(old(State()), replies, parseError)
    {
      readers := readers - 1;
      var n := ConsumeReplies(replies);
      EndRead(parseError || n < |replies|);
    }

    method EndRead(broken: bool)
      modifies this
      ensures State() == Ending(old(State()), broken)
    {
      if broken {
        ReportParseError();
        DisconnectWith(Protocol);
      } else if callbacks != [] {
        DoRead();
      }
    }

    method ReadFailed(ec: ErrorCode)
      requires readers > 0
      modifies this
      ensures State() == OnReadError(old(State()), ec)
    {
      readers := readers - 1;
      DisconnectWith(ec);
    }
  }
}
