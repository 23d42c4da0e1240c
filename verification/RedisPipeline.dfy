/**
What every run of a Redis connection guarantees: each callback runs exactly once, with the
result of its own command, in issue order unless one precise event happens, and a read is
outstanding exactly while somebody waits for a reply.
 */
module RedisPipeline {
  import opened RedisConnection

  // ------------------------------------------------------------------
  // Runs
  // ------------------------------------------------------------------

  datatype Event =
    | Issue(cmd: Command)
    | Replies(replies: seq<Reply>, parseError: bool)
    | ReadError(code: nat)
    | WriteError

  predicate Enabled(s: Conn, e: Event) {
    match e
    case Issue(_) => true
    case Replies(replies, _) => s.open && s.readers > 0 && AllFit(|s.queued|, replies)
    case ReadError(_) => s.readers > 0
    case WriteError => true
  }

  function Step(s: Conn, e: Event): Conn
    requires Enabled(s, e)
  {
    match e
    case Issue(cmd) => Write(s, cmd)
    case Replies(replies, parseError) => OnRead(s, replies, parseError)
    case ReadError(code) => OnReadError(s, Network(code))
    case WriteError => Disconnect(s, Protocol)
  }

  predicate ValidRun(s: Conn, events: seq<Event>)
    decreases |events|
  {
    events == [] || (Enabled(s, events[0]) && ValidRun(Step(s, events[0]), events[1..]))
  }

  function Run(s: Conn, events: seq<Event>): Conn
    requires ValidRun(s, events)
    decreases |events|
  {
    if events == [] then s else Run(Step(s, events[0]), events[1..])
  }

  // ------------------------------------------------------------------
  // The result that belongs to a command, read off the reply stream alone
  // ------------------------------------------------------------------

  // Reply i belongs to the maximal run of QUEUED replies s..j that reply j ends.
  ghost predicate Span(wire: seq<Reply>, s: nat, i: nat, j: nat) {
    && s <= i <= j < |wire|
    && (s == 0 || wire[s - 1] != QUEUED)
    && (forall m :: s <= m < j ==> wire[m] == QUEUED)
    && wire[j] != QUEUED
  }

  ghost predicate ResultOf(wire: seq<Reply>, s: nat, j: nat, d: Delivery) {
    && Span(wire, s, d.command, j)
    && if d.command == j then d.reply == wire[j] && d.ec == Success
       else if Aborts(wire[j]) then d.reply == wire[j] && d.ec == TransactionAborted
       else
         && wire[j].Array? && |wire[j].elements| == j - s
         && d.reply == wire[j].elements[d.command - s] && d.ec == Success
  }

  ghost predicate Explained(wire: seq<Reply>, d: Delivery) {
    exists s: nat, j: nat :: ResultOf(wire, s, j, d)
  }

  ghost predicate Reported(wire: seq<Reply>, d: Delivery) {
    if d.ec == Success || d.ec == TransactionAborted then Explained(wire, d) else d.reply == NoReply
  }

  ghost predicate AllReported(wire: seq<Reply>, log: seq<Delivery>) {
    forall i :: 0 <= i < |log| ==> Reported(wire, log[i])
  }

  // ------------------------------------------------------------------
  // The invariant
  // ------------------------------------------------------------------

  ghost function Ids(log: seq<Delivery>): (r: seq<nat>)
    ensures |r| == |log|
  {
    seq(|log|, i requires 0 <= i < |log| => log[i].command)
  }

  ghost function Upto(n: nat): (r: seq<nat>)
    ensures |r| == n && forall i :: 0 <= i < n ==> r[i] == i
  {
    seq(n, i => i)
  }

  ghost function Between(a: nat, b: nat): (r: seq<nat>)
    requires a <= b
    ensures |r| == b - a && forall i :: 0 <= i < b - a ==> r[i] == a + i
  {
    seq(b - a, i => a + i)
  }

  // delivered ++ queued in a transaction ++ pending
  ghost function Tracked(s: Conn): seq<nat> {
    Ids(s.log) + s.queued + s.callbacks
  }

  ghost predicate InOrder(s: Conn) {
    Tracked(s) == Upto(|s.issued|)
  }

  ghost predicate Once(s: Conn) {
    multiset(Tracked(s)) == multiset(Upto(|s.issued|))
  }

  // A connection that never failed: replies and completions are in step.
  ghost predicate Steady(s: Conn) {
    && InOrder(s)
    && |s.wire| == |s.log| + |s.queued|
    && (forall m :: |s.log| <= m < |s.wire| ==> s.wire[m] == QUEUED)
    && (s.log != [] ==> s.wire[|s.log| - 1] != QUEUED)
  }

  ghost predicate Inv(s: Conn) {
    && Once(s)
    && AllReported(s.wire, s.log)
    && (s.open ==> Steady(s) && s.readers == if s.callbacks == [] then 0 else 1)
    && (!s.open ==> s.queued == [] && (s.callbacks != [] ==> s.readers > 0))
  }

  // The one event that breaks the order: a parse error between a QUEUED reply and the
  // EXEC that is still pending.
  ghost predicate Garbles(s: Conn, e: Event)
    requires Enabled(s, e)
  {
    e.Replies? &&
    var s' := HandleReplies(s.(readers := s.readers - 1), e.replies).0;
    e.parseError && s'.queued != [] && s'.callbacks != []
  }

  ghost predicate Undisturbed(s: Conn, events: seq<Event>)
    requires ValidRun(s, events)
    decreases |events|
  {
    events == [] || (!Garbles(s, events[0]) && Undisturbed(Step(s, events[0]), events[1..]))
  }

  // ------------------------------------------------------------------
  // Preservation, one reply at a time
  // ------------------------------------------------------------------

  lemma IdsConcat(a: seq<Delivery>, b: seq<Delivery>)
    ensures Ids(a + b) == Ids(a) + Ids(b)
  {}

  lemma ReportedLater(wire: seq<Reply>, more: seq<Reply>, log: seq<Delivery>)
    requires AllReported(wire, log)
    ensures AllReported(wire + more, log)
  {
    forall i | 0 <= i < |log| ensures Reported(wire + more, log[i]) {
      var d := log[i];
      assert Reported(wire, d);
      if d.ec == Success || d.ec == TransactionAborted {
        var s: nat, j: nat :| ResultOf(wire, s, j, d);
        assert ResultOf(wire + more, s, j, d);
      }
    }
  }

  // Commands issued from inside callbacks only add fresh numbers at the far end.
  lemma ExtendsTracked(s: Conn, t: Conn)
    requires Extends(s, t)
    ensures t.callbacks == s.callbacks + Between(|s.issued|, |t.issued|)
    ensures Upto(|t.issued|) == Upto(|s.issued|) + Between(|s.issued|, |t.issued|)
  {}

  // Whatever a reply that is not QUEUED sets off, the outcome has this shape.
  lemma ReplyShape(s: Conn, reply: Reply)
    requires s.callbacks != [] && Fits(|s.queued|, reply) && reply != QUEUED
    ensures var t := HandleReply(s, reply);
            && t.queued == [] && t.open == s.open && t.readers == s.readers && t.wire == s.wire + [reply]
            && |s.issued| <= |t.issued| && s.log <= t.log
            && t.callbacks == (s.callbacks + Between(|s.issued|, |t.issued|))[1..]
            && Ids(t.log) == Ids(s.log) + s.queued + [s.callbacks[0]]
  {
    var front := s.callbacks[0];
    if s.queued == [] {
      InvokeKeeps(s, front, reply, Success);
      ExtendsTracked(s, Invoke(s, front, reply, Success));
      IdsConcat(s.log, [Delivery(front, reply, Success)]);
    } else {
      var u := ExecTransaction(s, reply);
      ExecKeeps(s, reply);
      ExtendsTracked(s, u.(queued := s.queued));
      var results := Deliveries(s.queued, Results(reply, |s.queued|));
      IdsConcat(s.log, results);
      IdsConcat(s.log + results, [Delivery(front, reply, Success)]);
      assert Ids(results) == s.queued;
    }
  }

  lemma ShiftFront(delivered: seq<nat>, queued: seq<nat>, callbacks: seq<nat>, more: seq<nat>)
    requires callbacks != []
    ensures delivered + queued + [callbacks[0]] + [] + (callbacks + more)[1..] == delivered + queued + callbacks + more
    ensures delivered + (queued + [callbacks[0]]) + callbacks[1..] == delivered + queued + callbacks
  {}

  lemma UptoSplit(a: nat, b: nat)
    requires a <= b
    ensures Upto(b) == Upto(a) + Between(a, b)
  {}

  lemma ReplyKeepsSteady(s: Conn, reply: Reply)
    requires Steady(s) && s.callbacks != [] && Fits(|s.queued|, reply)
    ensures var t := HandleReply(s, reply);
            Steady(t) && t.open == s.open && t.readers == s.readers && s.log <= t.log
  {
    var t := HandleReply(s, reply);
    if reply == QUEUED {
      ShiftFront(Ids(s.log), s.queued, s.callbacks, []);
    } else {
      ReplyShape(s, reply);
      ShiftFront(Ids(s.log), s.queued, s.callbacks, Between(|s.issued|, |t.issued|));
      UptoSplit(|s.issued|, |t.issued|);
      assert |t.log| == |Ids(t.log)|;
    }
  }

  // Positions: the k-th queued completion is command |log| + k, the front one is |wire|.
  lemma Positions(s: Conn)
    requires Steady(s)
    ensures forall k :: 0 <= k < |s.queued| ==> s.queued[k] == |s.log| + k
    ensures s.callbacks != [] ==> s.callbacks[0] == |s.wire|
  {
    var all := Tracked(s);
    forall k | 0 <= k < |s.queued| ensures s.queued[k] == |s.log| + k {
      assert all[|s.log| + k] == s.queued[k];
    }
    if s.callbacks != [] {
      assert all[|s.log| + |s.queued|] == s.callbacks[0];
    }
  }

  lemma DirectReports(s: Conn, reply: Reply)
    requires Steady(s) && s.callbacks != [] && s.queued == [] && reply != QUEUED
    ensures var t := HandleReply(s, reply);
            |t.log| == |s.log| + 1 && Reported(s.wire + [reply], t.log[|s.log|])
  {
    Positions(s);
    InvokeKeeps(s, s.callbacks[0], reply, Success);
    var t := HandleReply(s, reply);
    assert Span(s.wire + [reply], |s.log|, |s.wire|, |s.wire|);
    assert ResultOf(s.wire + [reply], |s.log|, |s.wire|, t.log[|s.log|]);
  }

  lemma ExecReports(s: Conn, reply: Reply, i: nat)
    requires Steady(s) && s.callbacks != [] && s.queued != [] && reply != QUEUED && Fits(|s.queued|, reply)
    requires |s.log| <= i < |HandleReply(s, reply).log|
    ensures Reported(s.wire + [reply], HandleReply(s, reply).log[i])
  {
    var a, b := |s.log|, |s.wire|;
    Positions(s);
    ExecKeeps(s, reply);
    var d := HandleReply(s, reply).log[i];
    var results := Results(reply, |s.queued|);
    if i < b {
      assert d == Delivery(s.queued[i - a], results[i - a].0, results[i - a].1);
    } else {
      assert d == Delivery(s.callbacks[0], reply, Success);
    }
    assert Span(s.wire + [reply], a, i, b);
    assert ResultOf(s.wire + [reply], a, b, d);
  }

  lemma ReplyKeepsReports(s: Conn, reply: Reply)
    requires Steady(s) && AllReported(s.wire, s.log) && s.callbacks != [] && Fits(|s.queued|, reply)
    ensures var t := HandleReply(s, reply); AllReported(t.wire, t.log)
  {
    var t := HandleReply(s, reply);
    ReportedLater(s.wire, [reply], s.log);
    if reply == QUEUED {
      assert t.log == s.log;
    } else {
      ReplyShape(s, reply);
      forall i | |s.log| <= i < |t.log| ensures Reported(t.wire, t.log[i]) {
        if s.queued == [] { DirectReports(s, reply); } else { ExecReports(s, reply, i); }
      }
    }
  }

  lemma {:induction false} RepliesKeep(s: Conn, replies: seq<Reply>)
    requires Steady(s) && AllReported(s.wire, s.log) && AllFit(|s.queued|, replies)
    ensures var t := HandleReplies(s, replies).0;
            Steady(t) && AllReported(t.wire, t.log) && t.open == s.open && t.readers == s.readers && s.log <= t.log
    decreases |replies|
  {
    if replies != [] && s.callbacks != [] {
      ReplyKeepsSteady(s, replies[0]);
      ReplyKeepsReports(s, replies[0]);
      QueueAfterReply(s, replies[0]);
      RepliesKeep(HandleReply(s, replies[0]), replies[1..]);
    }
  }

  // Replies are left over only when nobody waits any more.
  lemma {:induction false} SurplusMeansIdle(s: Conn, replies: seq<Reply>)
    requires AllFit(|s.queued|, replies)
    ensures var (t, left) := HandleReplies(s, replies); left != [] ==> t.callbacks == []
    decreases |replies|
  {
    if replies != [] && s.callbacks != [] {
      QueueAfterReply(s, replies[0]);
      SurplusMeansIdle(HandleReply(s, replies[0]), replies[1..]);
    }
  }

  // ------------------------------------------------------------------
  // Preservation, the failure paths
  // ------------------------------------------------------------------

  lemma JoinRuns(delivered: seq<nat>, callbacks: seq<nat>, a: nat, b: nat, c: nat)
    requires callbacks != [] && a <= b <= c
    ensures delivered + [callbacks[0]] + (callbacks + Between(a, b))[1..] + Between(b, c)
         == delivered + callbacks + Between(a, c)
  {}

  // One turn of the loop that reports a parse error.
  function FailFront(s: Conn): Conn
    requires s.callbacks != []
  {
    var u := Invoke(s, s.callbacks[0], NoReply, Protocol);
    InvokeKeeps(s, s.callbacks[0], NoReply, Protocol);
    u.(callbacks := u.callbacks[1..])
  }

  lemma FailFrontShape(s: Conn)
    requires s.callbacks != []
    ensures var t := FailFront(s);
            && t.queued == s.queued && t.wire == s.wire && t.open == s.open && t.application == s.application
            && t.log == s.log + [Delivery(s.callbacks[0], NoReply, Protocol)]
            && |s.issued| <= |t.issued| && t.callbacks == (s.callbacks + Between(|s.issued|, |t.issued|))[1..]
            && Ids(t.log) == Ids(s.log) + [s.callbacks[0]]
  {
    InvokeKeeps(s, s.callbacks[0], NoReply, Protocol);
    ExtendsTracked(s, Invoke(s, s.callbacks[0], NoReply, Protocol));
    IdsConcat(s.log, [Delivery(s.callbacks[0], NoReply, Protocol)]);
  }

  lemma {:induction false} FailPendingKeeps(s: Conn)
    ensures var t := FailPending(s);
            && t.callbacks == [] && t.queued == s.queued && t.wire == s.wire && s.log <= t.log
            && |s.issued| <= |t.issued|
            && Ids(t.log) == Ids(s.log) + s.callbacks + Between(|s.issued|, |t.issued|)
            && forall i :: |s.log| <= i < |t.log| ==> t.log[i].reply == NoReply && t.log[i].ec == Protocol
    decreases Remaining(s), |s.callbacks|
  {
    if s.callbacks != [] {
      FailFrontShape(s);
      var next := FailFront(s);
      FailPendingKeeps(next);
      JoinRuns(Ids(s.log), s.callbacks, |s.issued|, |next.issued|, |FailPending(s).issued|);
    }
  }

  lemma DisconnectKeeps(s: Conn, ec: ErrorCode)
    requires ec != TransactionAborted
    ensures var t := Disconnect(s, ec);
            && Ids(t.log) == Ids(s.log) + s.queued + s.callbacks
            && Tracked(t) == Tracked(s)
            && (AllReported(s.wire, s.log) ==> AllReported(t.wire, t.log))
  {}

  // A failed read flushes pending completions before queued ones.
  lemma BrokenReadIds(s: Conn)
    ensures var t := Disconnect(FailPending(s), Protocol);
            && t.queued == [] && t.callbacks == [] && t.wire == s.wire && s.log <= t.log && |s.issued| <= |t.issued|
            && Ids(t.log) == Ids(s.log) + s.callbacks + Between(|s.issued|, |t.issued|) + s.queued
            && (AllReported(s.wire, s.log) ==> AllReported(t.wire, t.log))
  {
    FailPendingKeeps(s);
    DisconnectKeeps(FailPending(s), Protocol);
  }

  lemma BrokenReadOnce(s: Conn)
    requires InOrder(s)
    ensures Once(Disconnect(FailPending(s), Protocol))
  {
    BrokenReadIds(s);
    var t := Disconnect(FailPending(s), Protocol);
    UptoSplit(|s.issued|, |t.issued|);
    var newest := Between(|s.issued|, |t.issued|);
    assert Tracked(t) == Ids(t.log);
    assert multiset(Ids(s.log) + s.callbacks + newest + s.queued) == multiset(Tracked(s)) + multiset(newest);
  }

  lemma NoReorder(delivered: seq<nat>, queued: seq<nat>, callbacks: seq<nat>, more: seq<nat>)
    requires queued == [] || (callbacks == [] && more == [])
    ensures delivered + callbacks + more + queued + [] + [] == delivered + queued + callbacks + more
  {}

  lemma BrokenReadOrder(s: Conn)
    requires InOrder(s) && (s.queued == [] || s.callbacks == [])
    ensures InOrder(Disconnect(FailPending(s), Protocol))
  {
    BrokenReadIds(s);
    var t := Disconnect(FailPending(s), Protocol);
    UptoSplit(|s.issued|, |t.issued|);
    NoReorder(Ids(s.log), s.queued, s.callbacks, Between(|s.issued|, |t.issued|));
  }

  lemma BrokenReadDisorder(s: Conn)
    requires InOrder(s) && s.queued != [] && s.callbacks != []
    ensures !RanInOrder(Disconnect(FailPending(s), Protocol))
  {
    BrokenReadIds(s);
    var t := Disconnect(FailPending(s), Protocol);
    var a := |s.log|;
    var b := a + |s.callbacks| + |t.issued| - |s.issued|;
    assert Tracked(s)[a] == s.queued[0] && Tracked(s)[a + |s.queued|] == s.callbacks[0];
    assert Ids(t.log)[a] == s.callbacks[0] && Ids(t.log)[b] == s.queued[0];
    assert t.log[a].command > t.log[b].command;
  }

  ghost predicate RanInOrder(s: Conn) {
    forall i, j :: 0 <= i < j < |s.log| ==> s.log[i].command < s.log[j].command
  }

  lemma InOrderMeansSorted(s: Conn)
    requires InOrder(s)
    ensures RanInOrder(s)
  {
    forall i, j | 0 <= i < j < |s.log| ensures s.log[i].command < s.log[j].command {
      assert Tracked(s)[i] == s.log[i].command && Tracked(s)[j] == s.log[j].command;
    }
  }

  // ------------------------------------------------------------------
  // Preservation, one event at a time
  // ------------------------------------------------------------------

  lemma WriteStep(s: Conn, cmd: Command)
    requires Inv(s)
    ensures Inv(Write(s, cmd))
    ensures InOrder(s) ==> InOrder(Write(s, cmd))
  {
    var t := Write(s, cmd);
    assert Tracked(t) == Tracked(s) + [|s.issued|];
    assert Upto(|t.issued|) == Upto(|s.issued|) + [|s.issued|];
  }

  lemma BrokenReadStep(s: Conn)
    requires Steady(s) && AllReported(s.wire, s.log)
    ensures var t := Disconnect(FailPending(s), Protocol);
            && Inv(t) && s.log <= t.log
            && if s.queued != [] && s.callbacks != [] then !RanInOrder(t) else InOrder(t)
  {
    BrokenReadIds(s);
    BrokenReadOnce(s);
    if s.queued != [] && s.callbacks != [] { BrokenReadDisorder(s); } else { BrokenReadOrder(s); }
  }

  lemma QuietReadStep(s: Conn)
    requires Steady(s) && AllReported(s.wire, s.log) && s.open && s.readers == 0
    ensures var t := if s.callbacks != [] then s.(readers := s.readers + 1) else s; Inv(t) && InOrder(t)
  {}

  lemma EndingStep(s: Conn, broken: bool)
    requires Steady(s) && AllReported(s.wire, s.log) && s.open && s.readers == 0
    ensures var t := Ending(s, broken);
            && Inv(t) && s.log <= t.log
            && if broken && s.queued != [] && s.callbacks != [] then !RanInOrder(t) else InOrder(t)
  {
    if broken { BrokenReadStep(s); } else { QuietReadStep(s); }
  }

  lemma ReadStep(s: Conn, replies: seq<Reply>, parseError: bool)
    requires Inv(s) && Enabled(s, Replies(replies, parseError))
    ensures var t := OnRead(s, replies, parseError);
            && Inv(t) && s.log <= t.log
            && if Garbles(s, Replies(replies, parseError)) then !RanInOrder(t) else InOrder(t)
  {
    var u := s.(readers := s.readers - 1);
    SteadyWithout(s);
    RepliesKeep(u, replies);
    SurplusMeansIdle(u, replies);
    var (v, left) := HandleReplies(u, replies);
    EndingStep(v, parseError || left != []);
  }

  lemma SteadyWithout(s: Conn)
    requires Steady(s) && s.readers > 0
    ensures Steady(s.(readers := s.readers - 1))
  {}

  lemma {:induction false} DisconnectStep(s: Conn, ec: ErrorCode)
    requires Once(s) && AllReported(s.wire, s.log) && ec != TransactionAborted
    ensures Inv(Disconnect(s, ec)) && s.log <= Disconnect(s, ec).log
    ensures InOrder(s) ==> InOrder(Disconnect(s, ec))
  {
    DisconnectKeeps(s, ec);
  }

  lemma {:induction false} StepKeepsInv(s: Conn, e: Event)
    requires Inv(s) && Enabled(s, e)
    ensures Inv(Step(s, e))
    ensures s.log <= Step(s, e).log
    ensures InOrder(s) && !Garbles(s, e) ==> InOrder(Step(s, e))
    ensures Garbles(s, e) ==> !RanInOrder(Step(s, e))
  {
    match e
    case Issue(cmd) => WriteStep(s, cmd);
    case Replies(replies, parseError) => ReadStep(s, replies, parseError);
    case ReadError(code) =>
      var u := s.(readers := s.readers - 1);
      assert Tracked(u) == Tracked(s);
      DisconnectStep(u, Network(code));
    case WriteError => DisconnectStep(s, Protocol);
  }

  lemma {:induction false} RunKeepsInv(s: Conn, events: seq<Event>)
    requires Inv(s) && ValidRun(s, events)
    ensures Inv(Run(s, events)) && s.log <= Run(s, events).log
    decreases |events|
  {
    if events != [] {
      StepKeepsInv(s, events[0]);
      RunKeepsInv(Step(s, events[0]), events[1..]);
    }
  }

  lemma {:induction false} RunKeepsOrder(s: Conn, events: seq<Event>)
    requires Inv(s) && InOrder(s) && ValidRun(s, events)
    ensures if Undisturbed(s, events) then InOrder(Run(s, events)) else !RanInOrder(Run(s, events))
    decreases |events|
  {
    if events != [] {
      StepKeepsInv(s, events[0]);
      var s' := Step(s, events[0]);
      if Garbles(s, events[0]) {
        RunKeepsInv(s', events[1..]);
        StaysDisordered(s', Run(s', events[1..]));
      } else {
        RunKeepsOrder(s', events[1..]);
      }
    }
  }

  lemma StaysDisordered(s: Conn, t: Conn)
    requires s.log <= t.log && !RanInOrder(s)
    ensures !RanInOrder(t)
  {}

  // ------------------------------------------------------------------
  // The theorems
  // ------------------------------------------------------------------

  // In every state of every run each issued command is in exactly one place: delivered
  // once, waiting inside a transaction, or pending; nothing else is ever delivered.
  lemma ExactlyOnce(application: seq<seq<Command>>, events: seq<Event>)
    requires ValidRun(Fresh(application), events)
    ensures var s := Run(Fresh(application), events);
            && (forall i: nat :: i < |s.issued| ==> InOnePlace(s, i))
            && (forall i :: 0 <= i < |s.log| ==> s.log[i].command < |s.issued|)
  {
    FreshInv(application);
    RunKeepsInv(Fresh(application), events);
    var s := Run(Fresh(application), events);
    forall i: nat | i < |s.issued| ensures InOnePlace(s, i) {
      OnePlace(s, i);
    }
    forall i | 0 <= i < |s.log| ensures s.log[i].command < |s.issued| {
      NothingInvented(s, i);
    }
  }

  ghost predicate InOnePlace(s: Conn, i: nat) {
    multiset(Ids(s.log))[i] + multiset(s.queued)[i] + multiset(s.callbacks)[i] == 1
  }

  lemma OnePlace(s: Conn, i: nat)
    requires Once(s) && i < |s.issued|
    ensures InOnePlace(s, i)
  {
    UptoOnce(|s.issued|, i);
    assert multiset(Tracked(s)) == multiset(Ids(s.log)) + multiset(s.queued) + multiset(s.callbacks);
  }

  lemma NothingInvented(s: Conn, i: nat)
    requires Once(s) && i < |s.log|
    ensures s.log[i].command < |s.issued|
  {
    assert Tracked(s)[i] == s.log[i].command;
    assert s.log[i].command in multiset(Tracked(s));
    UptoOnce(|s.issued|, s.log[i].command);
  }

  // Every callback saw the result of its own command, or a transport error with no reply.
  lemma OwnResult(application: seq<seq<Command>>, events: seq<Event>)
    requires ValidRun(Fresh(application), events)
    ensures var s := Run(Fresh(application), events); AllReported(s.wire, s.log)
  {
    FreshInv(application);
    RunKeepsInv(Fresh(application), events);
  }

  // Issue order holds exactly in the runs without a parse error inside a transaction whose
  // end is still pending.
  lemma OrderIff(application: seq<seq<Command>>, events: seq<Event>)
    requires ValidRun(Fresh(application), events)
    ensures RanInOrder(Run(Fresh(application), events)) <==> Undisturbed(Fresh(application), events)
  {
    FreshInv(application);
    RunKeepsOrder(Fresh(application), events);
    if Undisturbed(Fresh(application), events) {
      InOrderMeansSorted(Run(Fresh(application), events));
    }
  }

  // While connected exactly one read is outstanding iff a completion is pending, so the
  // assertion at the top of on_read() can only fail after a disconnect.
  lemma OneReader(application: seq<seq<Command>>, events: seq<Event>)
    requires ValidRun(Fresh(application), events)
    ensures var s := Run(Fresh(application), events);
            && (s.open ==> s.readers == if s.callbacks == [] then 0 else 1)
            && (s.callbacks != [] ==> s.readers > 0)
  {
    FreshInv(application);
    RunKeepsInv(Fresh(application), events);
  }

  // Everything new in the log is this error, without a reply.
  ghost predicate Tells(before: seq<Delivery>, after: seq<Delivery>, ec: ErrorCode) {
    before <= after && forall i :: |before| <= i < |after| ==> after[i].ec == ec && after[i].reply == NoReply
  }

  // No command is ever lost: losing the connection now settles every issued command once.
  lemma NothingLost(application: seq<seq<Command>>, events: seq<Event>, ec: ErrorCode)
    requires ValidRun(Fresh(application), events) && ec != TransactionAborted
    ensures var t := Disconnect(Run(Fresh(application), events), ec);
            && t.callbacks == [] && t.queued == [] && multiset(Ids(t.log)) == multiset(Upto(|t.issued|))
            && Tells(Run(Fresh(application), events).log, t.log, if ec == Success then Io else ec)
  {
    FreshInv(application);
    RunKeepsInv(Fresh(application), events);
    var s := Run(Fresh(application), events);
    DisconnectKeeps(s, ec);
    DisconnectTells(s, ec);
    assert Ids(Disconnect(s, ec).log) == Tracked(s);
  }

  lemma DisconnectTells(s: Conn, ec: ErrorCode)
    ensures Tells(s.log, Disconnect(s, ec).log, if ec == Success then Io else ec)
  {}

  // A write error that hits while somebody waits leaves the read behind.
  predicate Strands(s: Conn, e: Event) { e.WriteError? && s.callbacks != [] }

  // A read that completes while nobody waits: the assertion at the top of on_read() fails.
  predicate FailsAssertion(s: Conn, e: Event) { (e.Replies? || e.ReadError?) && s.callbacks == [] }

  function Stranded(s: Conn, events: seq<Event>): nat
    requires ValidRun(s, events)
    decreases |events|
  {
    if events == [] then 0 else (if Strands(s, events[0]) then 1 else 0) + Stranded(Step(s, events[0]), events[1..])
  }

  function FailedAssertions(s: Conn, events: seq<Event>): nat
    requires ValidRun(s, events)
    decreases |events|
  {
    if events == [] then 0 else (if FailsAssertion(s, events[0]) then 1 else 0) + FailedAssertions(Step(s, events[0]), events[1..])
  }

  // Outstanding reads that nobody waits for.
  function Strays(s: Conn): int { s.readers - if s.callbacks == [] then 0 else 1 }

  lemma {:induction false} FailPendingKeepsReaders(s: Conn)
    ensures FailPending(s).readers == s.readers
    decreases Remaining(s), |s.callbacks|
  {
    if s.callbacks != [] {
      InvokeKeeps(s, s.callbacks[0], NoReply, Protocol);
      FailFrontShape(s);
      FailPendingKeepsReaders(FailFront(s));
    }
  }

  lemma ReadKeepsStrays(s: Conn, replies: seq<Reply>, parseError: bool)
    requires Inv(s) && Enabled(s, Replies(replies, parseError))
    ensures Strays(OnRead(s, replies, parseError)) == Strays(s)
  {
    var u := s.(readers := s.readers - 1);
    SteadyWithout(s);
    RepliesKeep(u, replies);
    FailPendingKeepsReaders(HandleReplies(u, replies).0);
  }

  lemma StepCountsStrays(s: Conn, e: Event)
    requires Inv(s) && Enabled(s, e)
    ensures Strays(Step(s, e)) == Strays(s) + (if Strands(s, e) then 1 else 0) - (if FailsAssertion(s, e) then 1 else 0)
  {
    if e.Replies? {
      ReadKeepsStrays(s, e.replies, e.parseError);
    }
  }

  lemma {:induction false} RunCountsStrays(s: Conn, events: seq<Event>)
    requires Inv(s) && ValidRun(s, events)
    ensures Strays(Run(s, events)) == Strays(s) + Stranded(s, events) - FailedAssertions(s, events)
    decreases |events|
  {
    if events != [] {
      StepKeepsInv(s, events[0]);
      StepCountsStrays(s, events[0]);
      RunCountsStrays(Step(s, events[0]), events[1..]);
    }
  }

  /**
  The exact account of the assertion at the top of on_read(): every write error that hits a
  waiting completion strands one read, and at any time the reads stranded so far are those that
  failed the assertion plus those still outstanding that nobody waits for. So without such a write
  error it never fails, and with one it has failed or a read is outstanding for nobody.
   */
  lemma StrandedReads(application: seq<seq<Command>>, events: seq<Event>)
    requires ValidRun(Fresh(application), events)
    ensures var s := Run(Fresh(application), events);
            && Stranded(Fresh(application), events) == FailedAssertions(Fresh(application), events) + Strays(s)
            && Strays(s) >= 0
            && (FailedAssertions(Fresh(application), events) > 0 || Strays(s) > 0 <==> Stranded(Fresh(application), events) > 0)
  {
    FreshInv(application);
    RunCountsStrays(Fresh(application), events);
    OneReader(application, events);
  }

  // The shortest run that fails it: the write error comes first, the cancelled read second.
  lemma WriteErrorFailsAssertion(cmd: Command, code: nat)
    ensures var events := [Issue(cmd), WriteError, ReadError(code)];
            && ValidRun(Fresh([]), events) && FailedAssertions(Fresh([]), events) == 1
  {
    var s := Write(Fresh([]), cmd);
    var t := Disconnect(s, Protocol);
    FirstStep(t, ReadError(code), []);
    FirstStep(s, WriteError, [ReadError(code)]);
    FirstStep(Fresh([]), Issue(cmd), [WriteError, ReadError(code)]);
  }

  // A disordered run: unreadable data arrives between a QUEUED reply and the pending EXEC.
  lemma DisorderHappens(text: string)
    ensures var events := [Issue(Multi), Issue(Other(text)), Issue(Exec), Replies([Status("OK"), QUEUED], true)];
            ValidRun(Fresh([]), events) && !Undisturbed(Fresh([]), events) && !RanInOrder(Run(Fresh([]), events))
  {
    var e1, e2, e3, e4 := Issue(Multi), Issue(Other(text)), Issue(Exec), Replies([Status("OK"), QUEUED], true);
    var s1 := Write(Fresh([]), Multi);
    var s2 := Write(s1, Other(text));
    var s3 := Write(s2, Exec);
    assert s3.callbacks == [0, 1, 2] && s3.readers == 1;
    TwoReplies(s3.(readers := 0));
    assert Garbles(s3, e4);
    FirstStep(s3, e4, []);
    FirstStep(s2, e3, [e4]);
    FirstStep(s1, e2, [e3, e4]);
    FirstStep(Fresh([]), e1, [e2, e3, e4]);
    OrderIff([], [e1, e2, e3, e4]);
  }

  lemma FirstStep(s: Conn, e: Event, rest: seq<Event>)
    requires Enabled(s, e) && ValidRun(Step(s, e), rest)
    ensures ValidRun(s, [e] + rest)
    ensures Undisturbed(s, [e] + rest) <==> !Garbles(s, e) && Undisturbed(Step(s, e), rest)
    ensures FailedAssertions(s, [e] + rest) == (if FailsAssertion(s, e) then 1 else 0) + FailedAssertions(Step(s, e), rest)
  {
    assert ([e] + rest)[1..] == rest;
  }

  lemma TwoReplies(s: Conn)
    requires s.callbacks == [0, 1, 2] && s.queued == [] && s.log == [] && s.application == []
    ensures AllFit(0, [Status("OK"), QUEUED])
    ensures var t := HandleReplies(s, [Status("OK"), QUEUED]).0; t.queued == [1] && t.callbacks == [2]
  {
    assert [Status("OK"), QUEUED][1..] == [QUEUED] && [QUEUED][1..] == [];
    assert AllFit(0, [QUEUED]) && Status("OK") != QUEUED;
    var u := HandleReply(s, Status("OK"));
    assert u.callbacks == [1, 2] && u.queued == [];
    var v := HandleReply(u, QUEUED);
    assert v.queued == [1] && v.callbacks == [2];
    assert HandleReplies(v, []) == (v, []);
    assert HandleReplies(u, [QUEUED]) == HandleReplies(v, []);
  }

  lemma FreshInv(application: seq<seq<Command>>)
    ensures Inv(Fresh(application)) && InOrder(Fresh(application))
  {}

  lemma {:induction false} UptoOnce(n: nat, i: nat)
    ensures multiset(Upto(n))[i] == if i < n then 1 else 0
  {
    if n > 0 {
      UptoOnce(n - 1, i);
      assert Upto(n) == Upto(n - 1) + [n - 1];
    }
  }

  // ------------------------------------------------------------------
  // A well behaved server
  // ------------------------------------------------------------------

  datatype Transaction = Outside | Inside(queued: nat)

  predicate Answers(tx: Transaction, cmd: Command, reply: Reply) {
    match tx
    case Outside => reply != Status("QUEUED") && (cmd == Multi ==> reply == Status("OK"))
    case Inside(k) =>
      if cmd == Exec then reply == Nil || (reply.Array? && |reply.elements| == k)
      else if cmd == Discard then reply == Status("OK")
      else reply == Status("QUEUED")
  }

  function After(tx: Transaction, cmd: Command): Transaction {
    if tx.Outside? then (if cmd == Multi then Inside(0) else Outside)
    else if cmd == Exec || cmd == Discard then Outside
    else Inside(tx.queued + 1)
  }

  // The transaction state before command i.
  function Before(cmds: seq<Command>, i: nat): Transaction
    requires i <= |cmds|
  {
    if i == 0 then Outside else After(Before(cmds, i - 1), cmds[i - 1])
  }

  ghost predicate AnswersAt(cmds: seq<Command>, wire: seq<Reply>, i: nat)
    requires i < |wire| <= |cmds|
  {
    Answers(Before(cmds, i), cmds[i], wire[i])
  }

  ghost predicate Serves(cmds: seq<Command>, wire: seq<Reply>) {
    |wire| <= |cmds| && forall i: nat :: i < |wire| ==> AnswersAt(cmds, wire, i)
  }

  ghost predicate OpensAt(cmds: seq<Command>, s: nat, i: nat)
    requires i <= |cmds|
  {
    && s <= i && Before(cmds, i) == Inside(i - s) && s > 0 && cmds[s - 1] == Multi
    && forall m :: s <= m < i ==> cmds[m] != Exec && cmds[m] != Discard
  }

  lemma {:induction false} InsideSinceMulti(cmds: seq<Command>, i: nat)
    requires i <= |cmds| && Before(cmds, i).Inside?
    ensures Before(cmds, i).queued < i
    ensures OpensAt(cmds, i - Before(cmds, i).queued, i)
  {
    if Before(cmds, i - 1).Inside? {
      InsideSinceMulti(cmds, i - 1);
    }
  }

  // Such a server never triggers the assert(false) of on_exec_transaction().
  lemma {:induction false} ServerFits(cmds: seq<Command>, wire: seq<Reply>, i: nat)
    requires Serves(cmds, wire) && i <= |wire|
    ensures AllFit(match Before(cmds, i) case Inside(k) => k case Outside => 0, wire[i..])
    decreases |wire| - i
  {
    if i < |wire| {
      assert AnswersAt(cmds, wire, i);
      ServerFits(cmds, wire, i + 1);
      assert wire[i..][1..] == wire[i + 1..];
      assert Before(cmds, i + 1) == After(Before(cmds, i), cmds[i]);
    }
  }

  // Against such a server the span used by ResultOf is the caller's own transaction: it
  // opens right after a MULTI and reply j is the answer to its EXEC or DISCARD.
  lemma SpanIsTransaction(cmds: seq<Command>, wire: seq<Reply>, s: nat, i: nat, j: nat)
    requires Serves(cmds, wire) && Span(wire, s, i, j) && i < j
    ensures OpensAt(cmds, s, j)
    ensures cmds[j] == Exec || cmds[j] == Discard
    ensures cmds[j] == Discard ==> Aborts(wire[j])
  {
    assert wire[j - 1] == QUEUED;
    assert AnswersAt(cmds, wire, j);
    assert AnswersAt(cmds, wire, j - 1);
    assert Before(cmds, j) == After(Before(cmds, j - 1), cmds[j - 1]);
    InsideSinceMulti(cmds, j);
    SpanStart(cmds, wire, s, j, j - Before(cmds, j).queued);
  }

  lemma SpanStart(cmds: seq<Command>, wire: seq<Reply>, s: nat, j: nat, o: nat)
    requires Serves(cmds, wire) && Span(wire, s, j, j) && s < j && OpensAt(cmds, o, j)
    ensures s == o
  {
    if s < o {
      assert wire[o - 1] == QUEUED;
      assert AnswersAt(cmds, wire, o - 1);
      OpensOutside(cmds, o, j);
    } else if o < s {
      assert AnswersAt(cmds, wire, s - 1);
      InsideThroughout(cmds, o, s - 1, j);
    }
  }

  // What the callback of a command must see, in terms of the commands themselves: its own
  // reply outside a transaction; inside one, its own element of the answer to the EXEC that
  // closes the transaction, or the abort error with the answer that cancelled it.
  ghost predicate OwnReply(cmds: seq<Command>, wire: seq<Reply>, d: Delivery)
    requires |wire| <= |cmds|
  {
    || (d.command < |wire| && d.ec == Success && d.reply == wire[d.command] && wire[d.command] != QUEUED)
    || exists o: nat, j: nat ::
         && o <= d.command < j < |wire| && OpensAt(cmds, o, j)
         && if d.ec == Success
            then cmds[j] == Exec && wire[j].Array? && |wire[j].elements| == j - o && d.reply == wire[j].elements[d.command - o]
            else d.ec == TransactionAborted && (cmds[j] == Discard || wire[j] == Nil) && d.reply == wire[j]
  }

  lemma OwnReplyFromServer(application: seq<seq<Command>>, events: seq<Event>, k: nat)
    requires ValidRun(Fresh(application), events)
    requires var s := Run(Fresh(application), events);
             Serves(s.issued, s.wire) && k < |s.log| && (s.log[k].ec == Success || s.log[k].ec == TransactionAborted)
    ensures var s := Run(Fresh(application), events); OwnReply(s.issued, s.wire, s.log[k])
  {
    OwnResult(application, events);
    var t := Run(Fresh(application), events);
    var d := t.log[k];
    assert Reported(t.wire, d);
    var o: nat, j: nat :| ResultOf(t.wire, o, j, d);
    if d.command < j {
      SpanIsTransaction(t.issued, t.wire, o, d.command, j);
      assert AnswersAt(t.issued, t.wire, j);
    }
  }

  // Between the MULTI and command j every command is inside the same transaction.
  lemma {:induction false} InsideThroughout(cmds: seq<Command>, o: nat, m: nat, j: nat)
    requires j <= |cmds| && OpensAt(cmds, o, j) && o <= m <= j
    ensures Before(cmds, m) == Inside(m - o)
    decreases j - m
  {
    if m < j {
      InsideThroughout(cmds, o, m + 1, j);
      assert Before(cmds, m + 1) == After(Before(cmds, m), cmds[m]);
    }
  }

  lemma OpensOutside(cmds: seq<Command>, o: nat, j: nat)
    requires j <= |cmds| && OpensAt(cmds, o, j)
    ensures Before(cmds, o - 1) == Outside
  {
    InsideThroughout(cmds, o, o, j);
    assert Before(cmds, o) == After(Before(cmds, o - 1), cmds[o - 1]);
  }
}
