/**
Which errors the callbacks of a Redis connection are told, and which commands it writes
(src/server/net/Redis.cc), over all runs.
 */
module RedisTraffic {
  import opened RedisConnection
  import opened RedisPipeline

  // ------------------------------------------------------------------
  // Errors
  // ------------------------------------------------------------------

  ghost predicate Failed(d: Delivery) { d.ec != Success && d.ec != TransactionAborted }

  ghost predicate NoFailures(before: seq<Delivery>, after: seq<Delivery>) {
    before <= after && forall i :: |before| <= i < |after| ==> !Failed(after[i])
  }

  lemma ReplySucceeds(s: Conn, reply: Reply)
    requires s.callbacks != [] && Fits(|s.queued|, reply)
    ensures NoFailures(s.log, HandleReply(s, reply).log)
  {
    if reply != QUEUED {
      if s.queued == [] {
        InvokeKeeps(s, s.callbacks[0], reply, Success);
      } else {
        ExecKeeps(s, reply);
      }
    }
  }

  lemma NoFailuresJoin(a: seq<Delivery>, b: seq<Delivery>, c: seq<Delivery>)
    requires NoFailures(a, b) && NoFailures(b, c)
    ensures NoFailures(a, c)
  {
    forall i | |a| <= i < |c| ensures !Failed(c[i]) {
      if i < |b| {
        assert c[i] == b[i];
      }
    }
  }

  lemma FirstReply(wire: seq<Reply>, replies: seq<Reply>)
    requires replies != []
    ensures wire + replies == wire + [replies[0]] + replies[1..]
  {}

  // Replies that are handled are told as replies, and none is skipped.
  lemma {:induction false} RepliesSucceed(s: Conn, replies: seq<Reply>)
    requires AllFit(|s.queued|, replies)
    ensures var (t, left) := HandleReplies(s, replies); NoFailures(s.log, t.log) && t.wire + left == s.wire + replies
    decreases |replies|
  {
    if replies != [] && s.callbacks != [] {
      var u := HandleReply(s, replies[0]);
      ReplySucceeds(s, replies[0]);
      QueueAfterReply(s, replies[0]);
      WireGrows(s, replies[0]);
      RepliesSucceed(u, replies[1..]);
      NoFailuresJoin(s.log, u.log, HandleReplies(u, replies[1..]).0.log);
      FirstReply(s.wire, replies);
    }
  }

  lemma WireGrows(s: Conn, reply: Reply)
    requires s.callbacks != [] && Fits(|s.queued|, reply)
    ensures HandleReply(s, reply).wire == s.wire + [reply]
  {
    if reply != QUEUED {
      ReplyShape(s, reply);
    }
  }

  lemma BrokenReadTells(s: Conn)
    ensures var t := Disconnect(FailPending(s), Protocol); Tells(s.log, t.log, Protocol) && t.wire == s.wire
  {
    FailPendingKeeps(s);
  }

  /**
  From every reachable state: a failed read or write tells everybody who waits its own error and
  closes the connection. A read keeps the connection open exactly if its data could be parsed and
  every reply had somebody waiting for it; then all its replies are handled and none is reported
  as an error. Otherwise the errors it reports are protocol errors.
   */
  lemma ErrorsAreTold(application: seq<seq<Command>>, events: seq<Event>, e: Event)
    requires ValidRun(Fresh(application), events) && Enabled(Run(Fresh(application), events), e)
    ensures var s := Run(Fresh(application), events);
            var t := Step(s, e);
            match e
            case Issue(_) => t.log == s.log && t.open == s.open
            case ReadError(code) => Tells(s.log, t.log, Network(code)) && !t.open && t.queued == [] && t.callbacks == []
            case WriteError => Tells(s.log, t.log, Protocol) && !t.open && t.queued == [] && t.callbacks == []
            case Replies(replies, parseError) =>
              && s.log <= t.log && t.wire <= s.wire + replies
              && (t.open <==> !parseError && t.wire == s.wire + replies)
              && (t.open ==> NoFailures(s.log, t.log))
              && (!t.open ==> t.queued == [] && t.callbacks == [])
              && forall i :: |s.log| <= i < |t.log| && Failed(t.log[i]) ==> t.log[i].ec == Protocol && t.log[i].reply == NoReply
  {
    var s := Run(Fresh(application), events);
    if e.Replies? {
      FreshInv(application);
      RunKeepsInv(Fresh(application), events);
      ReadTells(s, e.replies, e.parseError);
    }
  }

  lemma ReadTells(s: Conn, replies: seq<Reply>, parseError: bool)
    requires Inv(s) && Enabled(s, Replies(replies, parseError))
    ensures var t := OnRead(s, replies, parseError);
            && s.log <= t.log && t.wire <= s.wire + replies
            && (t.open <==> !parseError && t.wire == s.wire + replies)
            && (t.open ==> NoFailures(s.log, t.log))
            && (!t.open ==> t.queued == [] && t.callbacks == [])
            && forall i :: |s.log| <= i < |t.log| && Failed(t.log[i]) ==> t.log[i].ec == Protocol && t.log[i].reply == NoReply
  {
    var u := s.(readers := s.readers - 1);
    SteadyWithout(s);
    RepliesKeep(u, replies);
    RepliesSucceed(u, replies);
    var (v, left) := HandleReplies(u, replies);
    BrokenReadTells(v);
    assert left != [] <==> v.wire != s.wire + replies by {
      assert |v.wire| + |left| == |s.wire| + |replies|;
      if left == [] { assert v.wire + left == v.wire; }
    }
  }

  // ------------------------------------------------------------------
  // Commands
  // ------------------------------------------------------------------

  // What the callbacks number a to b - 1 issue from inside themselves.
  function Spoken(application: seq<seq<Command>>, a: nat, b: nat): seq<Command>
    decreases b - a
  {
    if a >= b then [] else (if a < |application| then application[a] else []) + Spoken(application, a + 1, b)
  }

  lemma {:induction false} SpokenJoins(application: seq<seq<Command>>, a: nat, b: nat, c: nat)
    requires a <= b <= c
    ensures Spoken(application, a, c) == Spoken(application, a, b) + Spoken(application, b, c)
    decreases b - a
  {
    if a < b {
      SpokenJoins(application, a + 1, b, c);
    }
  }

  // All that happened between s and t was that callbacks ran and issued their commands.
  ghost predicate Spoke(s: Conn, t: Conn) {
    && t.application == s.application && |s.log| <= |t.log|
    && t.issued == s.issued + Spoken(s.application, |s.log|, |t.log|)
  }

  lemma SpokeJoins(s: Conn, t: Conn, u: Conn)
    requires Spoke(s, t) && Spoke(t, u)
    ensures Spoke(s, u)
  {
    SpokenJoins(s.application, |s.log|, |t.log|, |u.log|);
  }

  lemma {:induction false} WriteAllIssues(s: Conn, cmds: seq<Command>)
    ensures WriteAll(s, cmds).issued == s.issued + cmds
    decreases |cmds|
  {
    if cmds != [] {
      WriteAllIssues(Write(s, cmds[0]), cmds[1..]);
    }
  }

  lemma InvokeSpeaks(s: Conn, id: nat, reply: Reply, ec: ErrorCode)
    ensures Spoke(s, Invoke(s, id, reply, ec))
  {
    var u := s.(log := s.log + [Delivery(id, reply, ec)]);
    InvokeKeeps(s, id, reply, ec);
    WriteAllIssues(u, FollowUps(s));
    assert Spoken(s.application, |s.log| + 1, |s.log| + 1) == [];
    assert Spoken(s.application, |s.log|, |s.log| + 1) == FollowUps(s) + [];
  }

  lemma {:induction false} InvokeEachSpeaks(s: Conn, ids: seq<nat>, results: seq<(Reply, ErrorCode)>)
    requires |ids| == |results|
    ensures Spoke(s, InvokeEach(s, ids, results))
    decreases |ids|
  {
    if ids != [] {
      var t := Invoke(s, ids[0], results[0].0, results[0].1);
      InvokeSpeaks(s, ids[0], results[0].0, results[0].1);
      InvokeEachSpeaks(t, ids[1..], results[1..]);
      SpokeJoins(s, t, InvokeEach(t, ids[1..], results[1..]));
    }
  }

  lemma ReplySpeaks(s: Conn, reply: Reply)
    requires s.callbacks != [] && Fits(|s.queued|, reply)
    ensures Spoke(s, HandleReply(s, reply))
  {
    if reply != QUEUED {
      if s.queued == [] {
        InvokeSpeaks(s, s.callbacks[0], reply, Success);
      } else {
        var results := Results(reply, |s.queued|);
        var t := InvokeEach(s, s.queued, results);
        InvokeEachKeeps(s, s.queued, results);
        InvokeEachSpeaks(s, s.queued, results);
        InvokeSpeaks(t, t.callbacks[0], reply, Success);
        SpokeJoins(s, t, Invoke(t, t.callbacks[0], reply, Success));
      }
    }
  }

  lemma {:induction false} RepliesSpeak(s: Conn, replies: seq<Reply>)
    requires AllFit(|s.queued|, replies)
    ensures Spoke(s, HandleReplies(s, replies).0)
    decreases |replies|
  {
    if replies != [] && s.callbacks != [] {
      var u := HandleReply(s, replies[0]);
      ReplySpeaks(s, replies[0]);
      QueueAfterReply(s, replies[0]);
      RepliesSpeak(u, replies[1..]);
      SpokeJoins(s, u, HandleReplies(u, replies[1..]).0);
    }
  }

  lemma {:induction false} FailPendingSpeaks(s: Conn)
    ensures Spoke(s, FailPending(s))
    decreases Remaining(s), |s.callbacks|
  {
    if s.callbacks != [] {
      var u := FailFront(s);
      InvokeSpeaks(s, s.callbacks[0], NoReply, Protocol);
      FailFrontShape(s);
      FailPendingSpeaks(u);
      SpokeJoins(s, u, FailPending(u));
    }
  }

  // How many callbacks have run before the connection, if it does, closes on those in a transaction.
  function Voiced(s: Conn, e: Event): nat
    requires Enabled(s, e) && e.Replies?
  {
    var v := HandleReplies(s.(readers := s.readers - 1), e.replies).0;
    if Step(s, e).open then |v.log| else |FailPending(v).log|
  }

  // The commands that an event puts on the wire: the one that is issued, or those that the
  // callbacks it runs issue, in the order in which they run.
  function Said(s: Conn, e: Event): seq<Command>
    requires Enabled(s, e)
  {
    match e
    case Issue(cmd) => [cmd]
    case Replies(_, _) => Spoken(s.application, |s.log|, Voiced(s, e))
    case _ => []
  }

  function AllSaid(s: Conn, events: seq<Event>): seq<Command>
    requires ValidRun(s, events)
    decreases |events|
  {
    if events == [] then [] else Said(s, events[0]) + AllSaid(Step(s, events[0]), events[1..])
  }

  lemma ReadSays(s: Conn, e: Event)
    requires Inv(s) && Enabled(s, e) && e.Replies?
    ensures Step(s, e).issued == s.issued + Spoken(s.application, |s.log|, Voiced(s, e))
  {
    var u := s.(readers := s.readers - 1);
    SteadyWithout(s);
    RepliesKeep(u, e.replies);
    RepliesSpeak(u, e.replies);
    var (v, left) := HandleReplies(u, e.replies);
    FailPendingSpeaks(v);
    SpokeJoins(u, v, FailPending(v));
    assert Step(s, e) == Ending(v, e.parseError || left != []);
  }

  lemma StepSays(s: Conn, e: Event)
    requires Inv(s) && Enabled(s, e)
    ensures Step(s, e).issued == s.issued + Said(s, e)
  {
    if e.Replies? {
      ReadSays(s, e);
    }
  }

  lemma SaidJoins(before: seq<Command>, now: seq<Command>, later: seq<Command>)
    ensures (before + now) + later == before + (now + later)
  {}

  lemma {:induction false} RunSays(s: Conn, events: seq<Event>)
    requires Inv(s) && ValidRun(s, events)
    ensures Run(s, events).issued == s.issued + AllSaid(s, events)
    decreases |events|
  {
    if events != [] {
      var t := Step(s, events[0]);
      StepKeepsInv(s, events[0]);
      StepSays(s, events[0]);
      RunSays(t, events[1..]);
      SaidJoins(s.issued, Said(s, events[0]), AllSaid(t, events[1..]));
    }
  }

  // Over every run the commands written are those that were issued, from outside and from inside
  // callbacks, in that order.
  lemma WritesWhatIsIssued(application: seq<seq<Command>>, events: seq<Event>)
    requires ValidRun(Fresh(application), events)
    ensures Run(Fresh(application), events).issued == AllSaid(Fresh(application), events)
  {
    FreshInv(application);
    RunSays(Fresh(application), events);
    assert Fresh(application).issued == [];
  }

  // From every reachable state: unless a read closes the connection, every callback it runs gets
  // its commands written.
  lemma EveryCallbackIsHeard(application: seq<seq<Command>>, events: seq<Event>, e: Event)
    requires ValidRun(Fresh(application), events) && e.Replies? && Enabled(Run(Fresh(application), events), e)
    ensures var s := Run(Fresh(application), events);
            var t := Step(s, e);
            && |s.log| <= Voiced(s, e) <= |t.log|
            && (t.open ==> t.issued == s.issued + Spoken(application, |s.log|, |t.log|))
  {
    FreshInv(application);
    RunKeepsInv(Fresh(application), events);
    RunKeepsApplication(Fresh(application), events);
    var s := Run(Fresh(application), events);
    VoicedInLog(s, e);
    ReadSays(s, e);
  }

  lemma {:induction false} RunKeepsApplication(s: Conn, events: seq<Event>)
    requires Inv(s) && ValidRun(s, events)
    ensures Run(s, events).application == s.application
    decreases |events|
  {
    if events != [] {
      StepKeepsInv(s, events[0]);
      StepKeepsApplication(s, events[0]);
      RunKeepsApplication(Step(s, events[0]), events[1..]);
    }
  }

  lemma StepKeepsApplication(s: Conn, e: Event)
    requires Enabled(s, e)
    ensures Step(s, e).application == s.application
  {
    if e.Replies? {
      var u := s.(readers := s.readers - 1);
      RepliesSpeak(u, e.replies);
      FailPendingSpeaks(HandleReplies(u, e.replies).0);
    }
  }

  lemma VoicedInLog(s: Conn, e: Event)
    requires Inv(s) && e.Replies? && Enabled(s, e)
    ensures |s.log| <= Voiced(s, e) <= |Step(s, e).log| && (Step(s, e).open ==> Voiced(s, e) == |Step(s, e).log|)
  {
    var u := s.(readers := s.readers - 1);
    SteadyWithout(s);
    RepliesKeep(u, e.replies);
    FailPendingKeeps(HandleReplies(u, e.replies).0);
  }
}
