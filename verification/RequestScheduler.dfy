/**
The client's request scheduler (src/client/http/RequestScheduler.cc) together with the counting
callback of a collection download (src/common/util/AggregatedCallBack.hh).
 */
module RequestScheduler {
  import opened Common

  type Request = nat

  /**
  pending, outstanding: m_pending and m_outstanding. started, added, finished: what happened so
  far. calls, fired: how often the counting callback was called and how often it fired.
   */
  datatype State = State(
    limit: nat, pending: seq<Request>, outstanding: set<Request>,
    started: seq<Request>, added: seq<Request>, finished: nat,
    expected: nat, calls: nat, fired: nat)

  function Initial(limit: nat, expected: nat): State {
    State(limit, [], {}, [], [], 0, expected, 0, 0)
  }

  function TryStart(s: State): State
    decreases |s.pending|
  {
    if |s.outstanding| < s.limit && s.pending != [] then
      TryStart(s.(pending := s.pending[1..], started := s.started + [s.pending[0]], outstanding := s.outstanding + {s.pending[0]}))
    else s
  }

  function Add(s: State, r: Request): State {
    TryStart(s.(pending := s.pending + [r], added := s.added + [r]))
  }

  // A finished download reports to the counting callback.
  function Finish(s: State, r: Request): State {
    var t := TryStart(s.(outstanding := s.outstanding - {r}, finished := s.finished + 1));
    t.(calls := t.calls + 1, fired := if t.calls + 1 == t.expected then t.fired + 1 else t.fired)
  }

  datatype Event = AddEvent(r: Request) | FinishEvent(r: Request)

  predicate Enabled(s: State, e: Event) {
    match e
    case AddEvent(r) => r !in s.added
    case FinishEvent(r) => r in s.outstanding
  }

  function Step(s: State, e: Event): State {
    match e
    case AddEvent(r) => Add(s, r)
    case FinishEvent(r) => Finish(s, r)
  }

  predicate ValidRun(s: State, events: seq<Event>)
    decreases |events|
  {
    events == [] || (Enabled(s, events[0]) && ValidRun(Step(s, events[0]), events[1..]))
  }

  function Run(s: State, events: seq<Event>): State
    decreases |events|
  {
    if events == [] then s else Run(Step(s, events[0]), events[1..])
  }

  function Min(a: nat, b: nat): nat { if a < b then a else b }

  // First come, first started; nothing is lost, duplicated or started twice.
  ghost predicate Queued(s: State) {
    && s.started + s.pending == s.added && Distinct(s.added)
    && (forall r :: r in s.outstanding ==> r in s.started)
    && |s.started| == |s.outstanding| + s.finished
  }

  ghost predicate Counted(s: State) {
    s.calls == s.finished && s.fired == if 1 <= s.expected <= s.calls then 1 else 0
  }

  // The scheduler is as busy as its limit and its queue allow.
  ghost predicate Busy(s: State) {
    |s.outstanding| <= s.limit && (|s.outstanding| == s.limit || s.pending == [])
  }

  lemma {:induction false} TryStartKeeps(s: State)
    requires Queued(s) && |s.outstanding| <= s.limit
    ensures var t := TryStart(s);
            && Queued(t) && Busy(t) && s.started <= t.started
            && t.limit == s.limit && t.added == s.added && t.finished == s.finished
            && t.expected == s.expected && t.calls == s.calls && t.fired == s.fired
    decreases |s.pending|
  {
    if |s.outstanding| < s.limit && s.pending != [] {
      var r := s.pending[0];
      var t := s.(pending := s.pending[1..], started := s.started + [r], outstanding := s.outstanding + {r});
      assert r !in s.started by {
        assert s.added[|s.started|] == r;
        assert forall i :: 0 <= i < |s.started| ==> s.added[i] == s.started[i];
      }
      assert t.started + t.pending == s.started + s.pending;
      TryStartKeeps(t);
    }
  }

  ghost predicate Inv(s: State) {
    Queued(s) && Busy(s) && Counted(s)
  }

  lemma AddKeeps(s: State, r: Request)
    requires Inv(s) && r !in s.added
    ensures Inv(Add(s, r)) && s.started <= Add(s, r).started && Add(s, r).limit == s.limit && Add(s, r).expected == s.expected
  {
    var t := s.(pending := s.pending + [r], added := s.added + [r]);
    assert t.started + t.pending == t.added;
    TryStartKeeps(t);
  }

  lemma FinishKeeps(s: State, r: Request)
    requires Inv(s) && r in s.outstanding
    ensures Inv(Finish(s, r)) && s.started <= Finish(s, r).started
    ensures Finish(s, r).limit == s.limit && Finish(s, r).expected == s.expected
  {
    TryStartKeeps(s.(outstanding := s.outstanding - {r}, finished := s.finished + 1));
  }

  lemma StepKeeps(s: State, e: Event)
    requires Inv(s) && Enabled(s, e)
    ensures Inv(Step(s, e)) && s.started <= Step(s, e).started
    ensures Step(s, e).limit == s.limit && Step(s, e).expected == s.expected
  {
    match e
    case AddEvent(r) => AddKeeps(s, r);
    case FinishEvent(r) => FinishKeeps(s, r);
  }

  lemma {:induction false} RunKeeps(s: State, events: seq<Event>)
    requires Inv(s) && ValidRun(s, events)
    ensures Inv(Run(s, events)) && s.started <= Run(s, events).started
    ensures Run(s, events).limit == s.limit && Run(s, events).expected == s.expected
    decreases |events|
  {
    if events != [] {
      StepKeeps(s, events[0]);
      RunKeeps(Step(s, events[0]), events[1..]);
    }
  }

  // After every call of every run: FIFO order, and exactly min(added, finished + limit) started.
  lemma FifoAndBusy(limit: nat, expected: nat, events: seq<Event>)
    requires ValidRun(Initial(limit, expected), events)
    ensures var s := Run(Initial(limit, expected), events);
            && s.started <= s.added && s.started + s.pending == s.added
            && |s.started| == Min(|s.added|, s.finished + limit)
  {
    RunKeeps(Initial(limit, expected), events);
    var s := Run(Initial(limit, expected), events);
    assert |s.started| + |s.pending| == |s.added|;
  }

  // A download of n blobs completes exactly once, at the last finish; with n == 0 it never does.
  lemma FiresOnceAtTheEnd(limit: nat, n: nat, events: seq<Event>)
    requires ValidRun(Initial(limit, n), events) && |Run(Initial(limit, n), events).added| <= n
    ensures var s := Run(Initial(limit, n), events);
            s.finished <= n && s.fired == if n >= 1 && s.finished == n then 1 else 0
  {
    RunKeeps(Initial(limit, n), events);
    var s := Run(Initial(limit, n), events);
    assert |s.started| + |s.pending| == |s.added|;
  }

  class AggregatedCallback {
    const expected: nat
    var count: nat
    var fired: nat

    constructor (expected: nat)
      ensures this.expected == expected && count == 0 && fired == 0
    {
      this.expected, count, fired := expected, 0, 0;
    }

    method Call()
      modifies this
      ensures count == old(count) + 1
      ensures fired == if old(count) + 1 == expected then old(fired) + 1 else old(fired)
    {
      count := count + 1;
      if count == expected {
        fired := fired + 1;
      }
    }
  }

  class Scheduler {
    const limit: nat
    var pending: seq<Request>
    var outstanding: set<Request>
    var started: seq<Request>
    ghost var added: seq<Request>
    ghost var finished: nat
    const callback: AggregatedCallback

    ghost function Value(): State
      reads this, callback
    {
      State(limit, pending, outstanding, started, added, finished, callback.expected, callback.count, callback.fired)
    }

    constructor (limit: nat, expected: nat)
      ensures Value() == Initial(limit, expected) && fresh(callback)
    {
      this.limit := limit;
      pending, outstanding, started := [], {}, [];
      added, finished := [], 0;
      callback := new AggregatedCallback(expected);
    }

    method AddRequest(r: Request)
      modifies this
      ensures Value() == Add(old(Value()), r)
    {
      pending := pending + [r];
      added := added + [r];
      TryStartAll();
    }

    method TryStartAll()
      modifies this
      ensures Value() == TryStart(old(Value()))
    {
      while |outstanding| < limit && pending != []
        invariant TryStart(Value()) == TryStart(old(Value()))
        decreases |pending|
      {
        var r := pending[0];
        pending := pending[1..];
        started := started + [r];
        outstanding := outstanding + {r};
      }
    }

    method FinishRequest(r: Request)
      modifies this, callback
      ensures Value() == Finish(old(Value()), r)
    {
      outstanding := outstanding - {r};
      finished := finished + 1;
      TryStartAll();
      callback.Call();
    }
  }
}
