/**
Login sessions (src/server/crypto/Authentication.cc).

Verifying a session takes two separate Redis commands: read the session and its time to live,
then, if it is about to expire, renew it. Other requests run in between. Random session IDs are
taken to be fresh.
 */
module Session {
  import opened Common

  type Cookie = string

  // A session key: '_' (current) or '#' (already renewed) followed by the user name.
  datatype Record = Record(value: string, expiry: int)

  // A renewal that was decided but has not reached Redis yet.
  datatype Renewal = Renewal(from: Cookie, user: string, to: Cookie, length: nat)

  // What is known about a cookie once it was issued: its user, the login it descends from, the
  // cookie that replaced it, and when that happened.
  datatype Info = Info(user: string, root: Cookie, successor: Option<Cookie>, renewedAt: int)

  // The Redis clock and session keys, the renewals on their way, and the history.
  datatype State = State(now: int, keys: map<Cookie, Record>, pending: set<Renewal>, issued: map<Cookie, Info>)

  const GRACE := 30

  function Initial(now: int): State { State(now, map[], {}, map[]) }

  predicate Live(s: State, c: Cookie) { c in s.keys && s.now < s.keys[c].expiry }

  // GET: nothing for a missing or expired key.
  function Get(s: State, c: Cookie): string { if Live(s, c) then s.keys[c].value else "" }

  function Ttl(s: State, c: Cookie): int { if Live(s, c) then s.keys[c].expiry - s.now else -2 }

  predicate Current(s: State, c: Cookie) { Live(s, c) && s.keys[c].value != "" && s.keys[c].value[0] == '_' }

  ghost predicate Unused(s: State, c: Cookie) {
    c !in s.issued && c !in s.keys && forall r :: r in s.pending ==> r.to != c
  }

  // ------------------------------------------------------------------
  // Steps
  // ------------------------------------------------------------------

  function Create(s: State, c: Cookie, user: string, length: nat): State {
    s.(keys := s.keys[c := Record("_" + user, s.now + length)], issued := s.issued[c := Info(user, c, None, 0)])
  }

  datatype Verdict = Rejected | Accepted(user: string) | Renewing(renewal: Renewal)

  function Check(s: State, c: Cookie, length: nat, candidate: Cookie): Verdict {
    if |Get(s, c)| <= 1 || Ttl(s, c) < 0 then Rejected
    else if Ttl(s, c) < length / 2 then Renewing(Renewal(c, Get(s, c)[1..], candidate, length))
    else Accepted(Get(s, c)[1..])
  }

  function Verify(s: State, c: Cookie, length: nat, candidate: Cookie): State {
    match Check(s, c, length, candidate)
    case Renewing(r) => s.(pending := s.pending + {r})
    case _ => s
  }

  // The script. It fails on a missing key and answers 0 for a renewed one; both change nothing.
  function Renew(s: State, r: Renewal): State {
    var s' := s.(pending := s.pending - {r});
    if !Current(s, r.from) then s'
    else s'.(keys := s.keys[r.from := Record("#" + r.user, s.now + GRACE)][r.to := Record("_" + r.user, s.now + r.length)],
             issued := Succeed(s.issued, r.from, r.to, s.now))
  }

  function Succeed(issued: map<Cookie, Info>, from: Cookie, to: Cookie, now: int): map<Cookie, Info> {
    if from !in issued then issued
    else issued[from := issued[from].(successor := Some(to), renewedAt := now)][to := Info(issued[from].user, issued[from].root, None, 0)]
  }

  // The identity that the request continues with.
  function Outcome(s: State, r: Renewal): (Cookie, string) {
    (if Current(s, r.from) then r.to else r.from, r.user)
  }

  function Destroy(s: State, c: Cookie): State { s.(keys := s.keys - {c}) }

  datatype Event =
    | Login(c: Cookie, user: string, length: nat)
    | VerifyEvent(c: Cookie, length: nat, candidate: Cookie)
    | RenewEvent(renewal: Renewal)
    | Logout(c: Cookie)
    | Tick(seconds: nat)

  ghost predicate Enabled(s: State, e: Event) {
    match e
    case Login(c, _, _) => Unused(s, c)
    case VerifyEvent(_, _, candidate) => Unused(s, candidate)
    case RenewEvent(r) => r in s.pending
    case _ => true
  }

  function Step(s: State, e: Event): State {
    match e
    case Login(c, user, length) => Create(s, c, user, length)
    case VerifyEvent(c, length, candidate) => Verify(s, c, length, candidate)
    case RenewEvent(r) => Renew(s, r)
    case Logout(c) => Destroy(s, c)
    case Tick(n) => s.(now := s.now + n)
  }

  ghost predicate ValidRun(s: State, events: seq<Event>)
    decreases |events|
  {
    events == [] || (Enabled(s, events[0]) && ValidRun(Step(s, events[0]), events[1..]))
  }

  function Run(s: State, events: seq<Event>): State
    decreases |events|
  {
    if events == [] then s else Run(Step(s, events[0]), events[1..])
  }

  // ------------------------------------------------------------------
  // The invariant
  // ------------------------------------------------------------------

  ghost predicate KeysOk(s: State) {
    forall c :: c in s.keys ==>
      && c in s.issued
      && s.keys[c].value == (if s.issued[c].successor.Some? then "#" else "_") + s.issued[c].user
      && (s.issued[c].successor.Some? ==> s.keys[c].expiry == s.issued[c].renewedAt + GRACE)
  }

  ghost predicate PendingOk(s: State) {
    && (forall r :: r in s.pending ==> r.from in s.issued && r.user == s.issued[r.from].user && r.to !in s.issued && r.length > 0)
    && (forall r, q :: r in s.pending && q in s.pending && r.to == q.to ==> r == q)
  }

  // A successor belongs to the same user and the same login.
  ghost predicate Follows(now: int, issued: map<Cookie, Info>, c: Cookie)
    requires c in issued
  {
    issued[c].successor.Some? ==>
      && issued[c].renewedAt <= now && issued[c].successor.value in issued
      && issued[issued[c].successor.value].user == issued[c].user
      && issued[issued[c].successor.value].root == issued[c].root
  }

  ghost predicate SuccessorsOk(now: int, issued: map<Cookie, Info>) {
    forall c {:trigger Follows(now, issued, c)} :: c in issued ==> Follows(now, issued, c)
  }

  ghost predicate RootKnown(issued: map<Cookie, Info>, c: Cookie)
    requires c in issued
  {
    issued[c].root in issued && issued[issued[c].root].user == issued[c].user
  }

  ghost predicate RootsOk(issued: map<Cookie, Info>) {
    forall c {:trigger RootKnown(issued, c)} :: c in issued ==> RootKnown(issued, c)
  }

  // Of all cookies that descend from one login only the last has no successor.
  ghost predicate SameTail(issued: map<Cookie, Info>, c: Cookie, d: Cookie)
    requires c in issued && d in issued
  {
    issued[c].root == issued[d].root && issued[c].successor.None? && issued[d].successor.None? ==> c == d
  }

  ghost predicate OneTail(issued: map<Cookie, Info>) {
    forall c, d {:trigger SameTail(issued, c, d)} :: c in issued && d in issued ==> SameTail(issued, c, d)
  }

  ghost predicate Inv(s: State) {
    KeysOk(s) && PendingOk(s) && SuccessorsOk(s.now, s.issued) && RootsOk(s.issued) && OneTail(s.issued)
  }

  // What history never takes back.
  ghost predicate Remembers(s: State, t: State) {
    && s.now <= t.now
    && forall c :: c in s.issued ==>
         && c in t.issued && t.issued[c].user == s.issued[c].user && t.issued[c].root == s.issued[c].root
         && (s.issued[c].successor.Some? ==> t.issued[c] == s.issued[c])
  }

  lemma CreateKeepsHistory(issued: map<Cookie, Info>, c: Cookie, user: string, now: int)
    requires SuccessorsOk(now, issued) && RootsOk(issued) && OneTail(issued) && c !in issued
    ensures var t := issued[c := Info(user, c, None, 0)]; SuccessorsOk(now, t) && RootsOk(t) && OneTail(t)
  {
    var t := issued[c := Info(user, c, None, 0)];
    forall d | d in t ensures Follows(now, t, d) && RootKnown(t, d) {
      if d != c {
        assert Follows(now, issued, d) && RootKnown(issued, d);
      }
    }
    forall d, e | d in t && e in t ensures SameTail(t, d, e) {
      if d != c {
        assert RootKnown(issued, d);
      }
      if e != c {
        assert RootKnown(issued, e);
      }
      if d != c && e != c {
        assert SameTail(issued, d, e);
      }
    }
  }

  lemma CreateKeeps(s: State, c: Cookie, user: string, length: nat)
    requires Inv(s) && Unused(s, c)
    ensures Inv(Create(s, c, user, length)) && Remembers(s, Create(s, c, user, length))
  {
    CreateKeepsHistory(s.issued, c, user, s.now);
  }

  lemma VerifyKeeps(s: State, c: Cookie, length: nat, candidate: Cookie)
    requires Inv(s) && Unused(s, candidate)
    ensures Inv(Verify(s, c, length, candidate)) && Remembers(s, Verify(s, c, length, candidate))
  {}

  lemma CheckIsRight(s: State, c: Cookie, length: nat, candidate: Cookie)
    requires KeysOk(s)
    ensures match Check(s, c, length, candidate)
            case Accepted(u) => Live(s, c) && c in s.issued && u == s.issued[c].user
            case Renewing(r) => Live(s, c) && c in s.issued && r == Renewal(c, s.issued[c].user, candidate, length)
            case Rejected => Live(s, c) ==> c in s.issued && s.issued[c].user == ""
  {}

  lemma CurrentMeans(s: State, c: Cookie)
    requires KeysOk(s)
    ensures Current(s, c) <==> Live(s, c) && c in s.issued && s.issued[c].successor.None?
  {}

  lemma SucceedKeeps(issued: map<Cookie, Info>, from: Cookie, to: Cookie, now: int)
    requires SuccessorsOk(now, issued) && RootsOk(issued) && OneTail(issued)
    requires from in issued && issued[from].successor.None? && to !in issued
    ensures var t := Succeed(issued, from, to, now); SuccessorsOk(now, t) && RootsOk(t) && OneTail(t)
  {
    var t := Succeed(issued, from, to, now);
    forall c | c in t ensures Follows(now, t, c) && RootKnown(t, c) {
      assert RootKnown(issued, if c == to then from else c);
      if c != to && c != from {
        assert Follows(now, issued, c);
      }
    }
    forall c, d | c in t && d in t ensures SameTail(t, c, d) {
      if c != to && c != from {
        assert SameTail(issued, c, from);
      }
      if d != to && d != from {
        assert SameTail(issued, d, from);
      }
      if c != to && c != from && d != to && d != from {
        assert SameTail(issued, c, d);
      }
    }
  }

  lemma RenewKeeps(s: State, r: Renewal)
    requires Inv(s) && r in s.pending
    ensures Inv(Renew(s, r)) && Remembers(s, Renew(s, r))
  {
    CurrentMeans(s, r.from);
    if Current(s, r.from) {
      SucceedKeeps(s.issued, r.from, r.to, s.now);
    }
  }

  lemma StepKeeps(s: State, e: Event)
    requires Inv(s) && Enabled(s, e)
    ensures Inv(Step(s, e)) && Remembers(s, Step(s, e))
  {
    match e
    case Login(c, user, length) => CreateKeeps(s, c, user, length);
    case VerifyEvent(c, length, candidate) => VerifyKeeps(s, c, length, candidate);
    case RenewEvent(r) => RenewKeeps(s, r);
    case Logout(_) =>
    case Tick(n) =>
      forall c | c in s.issued ensures Follows(s.now + n, s.issued, c) {
        assert Follows(s.now, s.issued, c);
      }
  }

  lemma {:induction false} RunKeeps(s: State, events: seq<Event>)
    requires Inv(s) && ValidRun(s, events)
    ensures Inv(Run(s, events)) && Remembers(s, Run(s, events))
    decreases |events|
  {
    if events != [] {
      StepKeeps(s, events[0]);
      RunKeeps(Step(s, events[0]), events[1..]);
    }
  }

  // ------------------------------------------------------------------
  // The theorems
  // ------------------------------------------------------------------

  // Whatever happens before (`past`) and after (`future`): a cookie keeps its user and its one
  // successor forever, and the successor belongs to the same user and login.
  lemma CookieKeepsUserAndSuccessor(now: int, past: seq<Event>, future: seq<Event>, c: Cookie)
    requires ValidRun(Initial(now), past) && ValidRun(Run(Initial(now), past), future)
    requires c in Run(Initial(now), past).issued
    ensures var s := Run(Initial(now), past);
            var t := Run(s, future);
            && c in t.issued && t.issued[c].user == s.issued[c].user && t.issued[c].root == s.issued[c].root
            && (s.issued[c].successor.Some? ==> t.issued[c].successor == s.issued[c].successor)
            && (t.issued[c].successor.Some? ==>
                 var d := t.issued[c].successor.value;
                 d in t.issued && t.issued[d].user == s.issued[c].user && t.issued[d].root == s.issued[c].root)
  {
    RunKeeps(Initial(now), past);
    RunKeeps(Run(Initial(now), past), future);
    var t := Run(Run(Initial(now), past), future);
    assert Follows(t.now, t.issued, c);
  }

  // The user that a verification reports is the one who logged in.
  lemma VerifiedUserIsRight(now: int, events: seq<Event>, c: Cookie, length: nat, candidate: Cookie)
    requires ValidRun(Initial(now), events)
    ensures var s := Run(Initial(now), events);
            match Check(s, c, length, candidate)
            case Accepted(u) => Live(s, c) && c in s.issued && u == s.issued[c].user
            case Renewing(r) => Live(s, c) && c in s.issued && r == Renewal(c, s.issued[c].user, candidate, length)
            case Rejected => Live(s, c) ==> c in s.issued && s.issued[c].user == ""
  {
    RunKeeps(Initial(now), events);
    CheckIsRight(Run(Initial(now), events), c, length, candidate);
  }

  // One login, however often renewed and by however many racing requests, has at most one
  // current session.
  lemma OneCurrentPerLogin(now: int, events: seq<Event>, c: Cookie, d: Cookie)
    requires ValidRun(Initial(now), events)
    requires var s := Run(Initial(now), events);
             Current(s, c) && Current(s, d) && c in s.issued && d in s.issued && s.issued[c].root == s.issued[d].root
    ensures c == d
  {
    RunKeeps(Initial(now), events);
    var s := Run(Initial(now), events);
    CurrentMeans(s, c);
    CurrentMeans(s, d);
    assert SameTail(s.issued, c, d);
  }

  // A renewed cookie dies at most 30 seconds after its renewal, and until then it is only
  // accepted as itself: it is never renewed again.
  lemma RenewedCookieExpires(now: int, events: seq<Event>, c: Cookie)
    requires ValidRun(Initial(now), events)
    requires var s := Run(Initial(now), events); c in s.issued && s.issued[c].successor.Some?
    ensures var s := Run(Initial(now), events);
            && s.issued[c].renewedAt <= s.now
            && (Live(s, c) ==> s.now < s.issued[c].renewedAt + 30)
            && (forall r :: r in s.pending && r.from == c ==>
                 Renew(s, r) == s.(pending := s.pending - {r}) && Outcome(s, r) == (c, s.issued[c].user))
  {
    RunKeeps(Initial(now), events);
    var s := Run(Initial(now), events);
    CurrentMeans(s, c);
    assert Follows(s.now, s.issued, c);
  }

  // Of several requests that all decided to renew the same cookie exactly the first succeeds and
  // gets a cookie that works for the same user; the others go on with the old cookie, which
  // still works for its user.
  lemma RaceHasOneWinner(now: int, events: seq<Event>, r: Renewal, q: Renewal)
    requires ValidRun(Initial(now), events)
    requires var s := Run(Initial(now), events);
             r in s.pending && q in s.pending && r != q && r.from == q.from && Current(s, r.from)
    ensures var s := Run(Initial(now), events);
            var t := Renew(s, r);
            && Outcome(s, r) == (r.to, q.user) && Current(t, r.to) && Get(t, r.to) == "_" + q.user
            && Ttl(t, r.to) == r.length && Ttl(t, r.from) == 30
            && Outcome(t, q) == (q.from, q.user) && Renew(t, q) == t.(pending := t.pending - {q})
            && Live(t, q.from) && Get(t, q.from) == "#" + q.user
            && q.to !in t.keys
  {
    RunKeeps(Initial(now), events);
    Race(Run(Initial(now), events), r, q);
  }

  lemma Race(s: State, r: Renewal, q: Renewal)
    requires Inv(s) && r in s.pending && q in s.pending && r != q && r.from == q.from && Current(s, r.from)
    ensures var t := Renew(s, r);
            && Outcome(s, r) == (r.to, q.user) && Current(t, r.to) && Get(t, r.to) == "_" + q.user
            && Ttl(t, r.to) == r.length && Ttl(t, r.from) == 30
            && Outcome(t, q) == (q.from, q.user) && Renew(t, q) == t.(pending := t.pending - {q})
            && Live(t, q.from) && Get(t, q.from) == "#" + q.user
            && q.to !in t.keys
  {}

  // ------------------------------------------------------------------
  // How long a cookie lasts
  // ------------------------------------------------------------------

  predicate LogsOut(events: seq<Event>, c: Cookie) {
    exists i :: 0 <= i < |events| && events[i] == Logout(c)
  }

  // A session key changes only when it is renewed or removed.
  lemma StepKeepsKey(s: State, e: Event, c: Cookie)
    requires Inv(s) && Enabled(s, e) && c in s.keys && e != Logout(c)
    requires Step(s, e).issued[c].successor == s.issued[c].successor
    ensures c in Step(s, e).keys && Step(s, e).keys[c] == s.keys[c]
  {
    if e.RenewEvent? {
      CurrentMeans(s, e.renewal.from);
    }
  }

  lemma {:induction false} RunKeepsKey(s: State, events: seq<Event>, c: Cookie)
    requires Inv(s) && ValidRun(s, events) && c in s.keys && !LogsOut(events, c)
    requires c in Run(s, events).issued && Run(s, events).issued[c].successor == s.issued[c].successor
    ensures c in Run(s, events).keys && Run(s, events).keys[c] == s.keys[c]
    decreases |events|
  {
    if events != [] {
      var t := Step(s, events[0]);
      StepKeeps(s, events[0]);
      RunKeeps(t, events[1..]);
      assert t.issued[c].successor == s.issued[c].successor;
      StepKeepsKey(s, events[0], c);
      assert forall i :: 0 <= i < |events[1..]| ==> events[1..][i] == events[i + 1];
      RunKeepsKey(t, events[1..], c);
    }
  }

  // Once removed, a cookie never comes back.
  lemma {:induction false} RunKeepsRemoved(s: State, events: seq<Event>, c: Cookie)
    requires Inv(s) && ValidRun(s, events) && c in s.issued && c !in s.keys
    ensures c !in Run(s, events).keys
    decreases |events|
  {
    if events != [] {
      StepKeeps(s, events[0]);
      if events[0].RenewEvent? {
        CurrentMeans(s, events[0].renewal.from);
      }
      RunKeepsRemoved(Step(s, events[0]), events[1..], c);
    }
  }

  /**
  A login lasts exactly as long as asked for, in every continuation in which its cookie is neither
  renewed nor logged out. Verifying it with the same length accepts the user in the first half of
  that time, renews the session in the second half, and rejects it afterwards.
   */
  lemma LoginLasts(now: int, past: seq<Event>, c: Cookie, user: string, length: nat, future: seq<Event>, candidate: Cookie)
    requires ValidRun(Initial(now), past) && Unused(Run(Initial(now), past), c)
    requires var s := Step(Run(Initial(now), past), Login(c, user, length));
             ValidRun(s, future) && !LogsOut(future, c) && c in Run(s, future).issued && Run(s, future).issued[c].successor.None?
    ensures var s := Run(Initial(now), past);
            var t := Run(Step(s, Login(c, user, length)), future);
            && (Live(t, c) <==> t.now < s.now + length)
            && (user != "" ==> VerdictByAge(Check(t, c, length, candidate), c, user, length, candidate, t.now - s.now))
  {
    var s0 := Run(Initial(now), past);
    var s := Step(s0, Login(c, user, length));
    RunKeeps(Initial(now), past);
    StepKeeps(s0, Login(c, user, length));
    RunKeepsKey(s, future, c);
    VerdictOf(Run(s, future), c, "_" + user, s0.now + length, length, candidate);
  }

  // What a verification must say about a session of some age, when asked for the length it was
  // made with. Division rounds down.
  ghost predicate VerdictByAge(v: Verdict, c: Cookie, user: string, length: nat, candidate: Cookie, age: int) {
    if age >= length then v == Rejected
    else if age > length - length / 2 then v == Renewing(Renewal(c, user, candidate, length))
    else v == Accepted(user)
  }

  lemma VerdictOf(t: State, c: Cookie, value: string, expiry: int, length: nat, candidate: Cookie)
    requires c in t.keys && t.keys[c] == Record(value, expiry) && |value| >= 1
    ensures |value| > 1 ==> VerdictByAge(Check(t, c, length, candidate), c, value[1..], length, candidate, t.now - (expiry - length))
  {}

  /**
  A renewal gives the new cookie a full length of its own, and leaves the old one 30 seconds, in
  every continuation in which the cookie in question is not renewed (again) and not logged out.
   */
  lemma RenewalLasts(now: int, past: seq<Event>, r: Renewal, future: seq<Event>)
    requires ValidRun(Initial(now), past) && r in Run(Initial(now), past).pending && Current(Run(Initial(now), past), r.from)
    requires ValidRun(Step(Run(Initial(now), past), RenewEvent(r)), future)
    ensures var s := Run(Initial(now), past);
            var t := Run(Step(s, RenewEvent(r)), future);
            && r.to in t.issued
            && (!LogsOut(future, r.to) && t.issued[r.to].successor.None? ==> (Live(t, r.to) <==> t.now < s.now + r.length))
            && (!LogsOut(future, r.from) ==> (Live(t, r.from) <==> t.now < s.now + 30))
  {
    var s0 := Run(Initial(now), past);
    var s := Step(s0, RenewEvent(r));
    RunKeeps(Initial(now), past);
    StepKeeps(s0, RenewEvent(r));
    RunKeeps(s, future);
    var t := Run(s, future);
    assert r.from in s.issued && r.to in s.issued && r.from != r.to;
    if !LogsOut(future, r.to) && t.issued[r.to].successor.None? {
      RunKeepsKey(s, future, r.to);
    }
    if !LogsOut(future, r.from) {
      RunKeepsKey(s, future, r.from);
    }
  }

  // A cookie that was logged out is dead for good.
  lemma LoggedOutStaysDead(now: int, past: seq<Event>, c: Cookie, future: seq<Event>)
    requires ValidRun(Initial(now), past) && c in Run(Initial(now), past).issued
    requires ValidRun(Step(Run(Initial(now), past), Logout(c)), future)
    ensures !Live(Run(Step(Run(Initial(now), past), Logout(c)), future), c)
  {
    var s := Run(Initial(now), past);
    RunKeeps(Initial(now), past);
    StepKeeps(s, Logout(c));
    RunKeepsRemoved(Step(s, Logout(c)), future, c);
  }

  // ------------------------------------------------------------------
  // What logging out achieves
  // ------------------------------------------------------------------

  predicate OfLogin(s: State, root: Cookie, c: Cookie) { c in s.issued && s.issued[c].root == root }

  // No cookie of the login can be renewed any more.
  ghost predicate NoneCurrent(s: State, root: Cookie) {
    forall c :: OfLogin(s, root, c) ==> !Current(s, c)
  }

  ghost predicate NoneLive(s: State, root: Cookie) {
    forall c :: OfLogin(s, root, c) ==> !Live(s, c)
  }

  ghost predicate EndsBy(s: State, root: Cookie, deadline: int) {
    && root in s.issued && NoneCurrent(s, root)
    && forall c :: OfLogin(s, root, c) && Live(s, c) ==> s.keys[c].expiry <= deadline
  }

  lemma StepKeepsEnd(s: State, e: Event, root: Cookie, deadline: int)
    requires Inv(s) && Enabled(s, e) && EndsBy(s, root, deadline)
    ensures EndsBy(Step(s, e), root, deadline)
  {
    var t := Step(s, e);
    forall c | OfLogin(t, root, c)
      ensures !Current(t, c) && (Live(t, c) ==> t.keys[c].expiry <= deadline)
    {
      if e.RenewEvent? && Current(s, e.renewal.from) {
        assert e.renewal.from in s.issued && !OfLogin(s, root, e.renewal.from);
      }
      assert OfLogin(s, root, c);
    }
  }

  lemma {:induction false} RunKeepsEnd(s: State, events: seq<Event>, root: Cookie, deadline: int)
    requires Inv(s) && ValidRun(s, events) && EndsBy(s, root, deadline)
    ensures EndsBy(Run(s, events), root, deadline)
    decreases |events|
  {
    if events != [] {
      StepKeeps(s, events[0]);
      StepKeepsEnd(s, events[0], root, deadline);
      RunKeepsEnd(Step(s, events[0]), events[1..], root, deadline);
    }
  }

  lemma NoneCurrentEnds(s: State, root: Cookie)
    requires Inv(s) && root in s.issued && NoneCurrent(s, root)
    ensures EndsBy(s, root, s.now + GRACE)
  {
    forall c | OfLogin(s, root, c) && Live(s, c) ensures s.keys[c].expiry <= s.now + GRACE {
      CurrentMeans(s, c);
      assert Follows(s.now, s.issued, c);
    }
  }

  // In every continuation no cookie of the login is live from 30 seconds on.
  ghost predicate OverInGrace(s: State, root: Cookie) {
    forall future :: ValidRun(s, future) && Run(s, future).now >= s.now + 30 ==> NoneLive(Run(s, future), root)
  }

  // A current cookie can be kept alive by using it.
  function KeepAlive(s: State, d: Cookie, next: Cookie): seq<Event>
    requires d in s.issued
  {
    var length := 2 * GRACE + 2 + if Live(s, d) then 2 * (s.keys[d].expiry - s.now) else 0;
    [VerifyEvent(d, length, next), RenewEvent(Renewal(d, s.issued[d].user, next, length)), Tick(GRACE)]
  }

  lemma CurrentCanGoOn(s: State, root: Cookie, d: Cookie, x: Cookie)
    requires Inv(s) && OfLogin(s, root, d) && Current(s, d) && s.issued[d].user != "" && Unused(s, x)
    ensures var future := KeepAlive(s, d, x);
            var t := Run(s, future);
            ValidRun(s, future) && t.now == s.now + GRACE && OfLogin(t, root, x) && Live(t, x)
  {
    var future := KeepAlive(s, d, x);
    var r := future[1].renewal;
    CheckIsRight(s, d, r.length, x);
    var s1 := s.(pending := s.pending + {r});
    var s2 := Renew(s1, r);
    FirstStep(s2, future[2], []);
    FirstStep(s1, future[1], [future[2]]);
    FirstStep(s, future[0], [future[1], future[2]]);
  }

  lemma FirstStep(s: State, e: Event, rest: seq<Event>)
    requires Enabled(s, e) && ValidRun(Step(s, e), rest)
    ensures ValidRun(s, [e] + rest) && Run(s, [e] + rest) == Run(Step(s, e), rest)
  {
    assert ([e] + rest)[1..] == rest;
  }

  /**
  Logging out ends the login, at the latest when the grace period of renewed cookies is over,
  exactly if no other cookie of the login is current. `x` is any cookie not used so far.
   */
  lemma LogoutEndsLoginIff(now: int, past: seq<Event>, c: Cookie, x: Cookie)
    requires ValidRun(Initial(now), past)
    requires var s := Run(Initial(now), past); c in s.issued && Unused(s, x) && s.issued[c].user != ""
    ensures var s := Run(Initial(now), past);
            var root := s.issued[c].root;
            OverInGrace(Destroy(s, c), root) <==> (forall d :: OfLogin(s, root, d) && d != c ==> !Current(s, d))
  {
    var s := Run(Initial(now), past);
    var root, s' := s.issued[c].root, Destroy(s, c);
    RunKeeps(Initial(now), past);
    StepKeeps(s, Logout(c));
    assert RootKnown(s.issued, c);
    if forall d :: OfLogin(s, root, d) && d != c ==> !Current(s, d) {
      forall d | OfLogin(s', root, d) ensures !Current(s', d) {
        assert OfLogin(s, root, d);
      }
      OverWhenNoneCurrent(s', root);
    } else {
      var d :| OfLogin(s, root, d) && d != c && Current(s, d);
      assert RootKnown(s.issued, d);
      CurrentCanGoOn(s', root, d, x);
      var future := KeepAlive(s', d, x);
      assert !NoneLive(Run(s', future), root);
    }
  }

  lemma OverWhenNoneCurrent(s: State, root: Cookie)
    requires Inv(s) && root in s.issued && NoneCurrent(s, root)
    ensures OverInGrace(s, root)
  {
    NoneCurrentEnds(s, root);
    forall future | ValidRun(s, future) && Run(s, future).now >= s.now + GRACE ensures NoneLive(Run(s, future), root) {
      RunKeepsEnd(s, future, root, s.now + GRACE);
    }
  }

  // Logging out with the newest cookie of a login always ends it, whoever the user is.
  lemma LogoutOfNewestEndsLogin(now: int, past: seq<Event>, c: Cookie)
    requires ValidRun(Initial(now), past)
    requires var s := Run(Initial(now), past); c in s.issued && s.issued[c].successor.None?
    ensures var s := Run(Initial(now), past); OverInGrace(Destroy(s, c), s.issued[c].root)
  {
    var s := Run(Initial(now), past);
    var s' := Destroy(s, c);
    RunKeeps(Initial(now), past);
    StepKeeps(s, Logout(c));
    assert RootKnown(s.issued, c);
    forall d | OfLogin(s', s.issued[c].root, d) ensures !Current(s', d) {
      CurrentMeans(s', d);
      assert SameTail(s.issued, c, d);
    }
    OverWhenNoneCurrent(s', s.issued[c].root);
  }

  // Logging out with a renewed cookie does not: its successor goes on.
  lemma RenewedLogoutSparesSuccessor(now: int, user: string, c: Cookie, d: Cookie)
    requires c != d && user != ""
    ensures var r := Renewal(c, user, d, 100);
            var past := [Login(c, user, 100), Tick(60), VerifyEvent(c, 100, d), RenewEvent(r)];
            var s := Run(Initial(now), past);
            && ValidRun(Initial(now), past) && OfLogin(s, c, c) && OfLogin(s, c, d)
            && Current(Destroy(s, c), d) && Get(Destroy(s, c), d) == "_" + user
  {
    var r := Renewal(c, user, d, 100);
    var past := [Login(c, user, 100), Tick(60), VerifyEvent(c, 100, d), RenewEvent(r)];
    var s1 := Create(Initial(now), c, user, 100);
    var s2 := s1.(now := now + 60);
    var s3 := s2.(pending := {r});
    OldSessionIsRenewed(s2, c, user, d);
    SuccessorGoesOn(s3, r);
    FirstStep(s3, past[3], []);
    FirstStep(s2, past[2], [past[3]]);
    FirstStep(s1, past[1], [past[2], past[3]]);
    FirstStep(Initial(now), past[0], [past[1], past[2], past[3]]);
  }

  lemma OldSessionIsRenewed(s: State, c: Cookie, user: string, d: Cookie)
    requires c in s.keys && s.keys[c] == Record("_" + user, s.now + 40) && user != ""
    ensures Check(s, c, 100, d) == Renewing(Renewal(c, user, d, 100))
  {
    assert ("_" + user)[1..] == user;
  }

  lemma SuccessorGoesOn(s: State, r: Renewal)
    requires Current(s, r.from) && r.from in s.issued && r.from != r.to && r.length > 0
    ensures var t := Renew(s, r);
            && OfLogin(t, s.issued[r.from].root, r.from) && OfLogin(t, s.issued[r.from].root, r.to)
            && Current(Destroy(t, r.from), r.to) && Get(Destroy(t, r.from), r.to) == "_" + r.user
  {
    assert Destroy(Renew(s, r), r.from).keys[r.to].value[0] == '_';
  }

  // ------------------------------------------------------------------
  // The session keys in Redis
  // ------------------------------------------------------------------

  class SessionStore {
    var now: int
    var keys: map<Cookie, Record>
    ghost var pending: set<Renewal>
    ghost var issued: map<Cookie, Info>

    ghost function Value(): State
      reads this
    {
      State(now, keys, pending, issued)
    }

    constructor (start: int)
      ensures Value() == Initial(start)
    {
      now, keys, pending, issued := start, map[], {}, map[];
    }

    // GET and TTL in one script.
    method GetWithTtl(c: Cookie) returns (value: string, ttl: int)
      ensures value == Get(Value(), c) && ttl == Ttl(Value(), c)
    {
      value, ttl := "", -2;
      if c in keys && now < keys[c].expiry {
        value, ttl := keys[c].value, keys[c].expiry - now;
      }
    }

    // SET key value EX seconds
    method SetEx(c: Cookie, value: string, seconds: nat)
      modifies this`keys
      ensures keys == old(keys)[c := Record(value, now + seconds)]
    {
      keys := keys[c := Record(value, now + seconds)];
    }

    method CreateSession(c: Cookie, name: string, length: nat)
      modifies this
      ensures Value() == Create(old(Value()), c, name, length)
    {
      SetEx(c, "_" + name, length);
      issued := issued[c := Info(name, c, None, 0)];
    }

    method VerifySession(c: Cookie, length: nat, candidate: Cookie) returns (verdict: Verdict)
      modifies this`pending
      ensures verdict == Check(old(Value()), c, length, candidate)
      ensures Value() == Verify(old(Value()), c, length, candidate)
    {
      var value, ttl := GetWithTtl(c);
      if |value| <= 1 || ttl < 0 {
        verdict := Rejected;
      } else if ttl < length / 2 {
        verdict := Renewing(Renewal(c, value[1..], candidate, length));
        pending := pending + {verdict.renewal};
      } else {
        verdict := Accepted(value[1..]);
      }
    }

    method RenewSession(r: Renewal) returns (cookie: Cookie)
      modifies this
      ensures Value() == Renew(old(Value()), r)
      ensures cookie == Outcome(old(Value()), r).0
    {
      var value, ttl := GetWithTtl(r.from);
      cookie := r.from;
      pending := pending - {r};
      if value != "" && value[0] == '_' {
        SetEx(r.from, "#" + r.user, GRACE);
        SetEx(r.to, "_" + r.user, r.length);
        cookie := r.to;
        issued := Succeed(issued, r.from, r.to, now);
      }
    }

    method DestroySession(c: Cookie)
      modifies this
      ensures Value() == Destroy(old(Value()), c)
    {
      keys := keys - {c};
    }
  }
}
