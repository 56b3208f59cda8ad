/**
 The claim protocol: callers ask a single-writer server to move a status and take
 a positive reply as exclusive permission to start work. Requests and replies may
 be lost. Which further faults may happen is a parameter, so that what an answer
 means can be tied to the faults that spoil it.
 */
module Claims {

  /** The server's transition table. */
  type Table<!T> = (T, T) -> bool

  ghost predicate Irreflexive<T(!new)>(can: Table<T>) {
    forall s :: !can(s, s)
  }

  /**
   A call sends again after a timeout; a call returns without a reply; the save
   fails after the status has moved; the save is refused before it has.
   */
  datatype Fault = Retrying | GivingUp | FailingSave | RefusingSave

  /** A status change the server made; `attempt` is present when a claim caused it. */
  datatype Cause = ByAttempt(attempt: nat) | ByServer
  datatype Change<T> = Change(cause: Cause, from: T, to: T)

  /** One claim call: waiting for the reply to its latest attempt, or returned. */
  datatype Call<T> = Waiting(target: T, attempt: nat) | Returned(target: T, claimed: bool)

  /** `owner` maps every attempt ever sent to its call; `requests` and `replies` are in flight. */
  datatype State<T> = State(
    status: T,
    log: seq<Change<T>>,
    calls: map<nat, Call<T>>,
    owner: map<nat, nat>,
    requests: map<nat, T>,
    replies: map<nat, bool>)

  ghost predicate Init<T>(s: State<T>) {
    s.log == [] && s.calls == map[] && s.owner == map[] && s.requests == map[] && s.replies == map[]
  }

  // ----- steps

  ghost predicate Send<T>(s: State<T>, s': State<T>, c: nat, a: nat, target: T) {
    && c !in s.calls && a !in s.owner
    && s' == s.(calls := s.calls[c := Waiting(target, a)], owner := s.owner[a := c],
                requests := s.requests[a := target])
  }

  /** A timed-out call sends again under a fresh attempt; the old one may still arrive. */
  ghost predicate Resend<T>(s: State<T>, s': State<T>, c: nat, a: nat) {
    && c in s.calls && s.calls[c].Waiting? && a !in s.owner
    && s' == s.(calls := s.calls[c := Waiting(s.calls[c].target, a)], owner := s.owner[a := c],
                requests := s.requests[a := s.calls[c].target])
  }

  /** The server handles a request the table allows; a failed save turns the reply negative. */
  ghost predicate Accept<T(!new)>(can: Table<T>, s: State<T>, s': State<T>, a: nat, saved: bool) {
    && a in s.requests && can(s.status, s.requests[a])
    && s' == s.(status := s.requests[a], log := s.log + [Change(ByAttempt(a), s.status, s.requests[a])],
                requests := s.requests - {a}, replies := s.replies[a := saved])
  }

  ghost predicate Reject<T(!new)>(can: Table<T>, s: State<T>, s': State<T>, a: nat) {
    && a in s.requests && !can(s.status, s.requests[a])
    && s' == s.(requests := s.requests - {a}, replies := s.replies[a := false])
  }

  /** The table allows the request, but the save is turned down before anything has changed. */
  ghost predicate Refuse<T(!new)>(can: Table<T>, s: State<T>, s': State<T>, a: nat) {
    && a in s.requests && can(s.status, s.requests[a])
    && s' == s.(requests := s.requests - {a}, replies := s.replies[a := false])
  }

  /** Any other handler moves the status elsewhere, by the table or not. */
  ghost predicate Elsewhere<T>(s: State<T>, s': State<T>, to: T) {
    to != s.status && s' == s.(status := to, log := s.log + [Change(ByServer, s.status, to)])
  }

  ghost predicate LoseRequest<T>(s: State<T>, s': State<T>, a: nat) {
    a in s.requests && s' == s.(requests := s.requests - {a})
  }

  ghost predicate LoseReply<T>(s: State<T>, s': State<T>, a: nat) {
    a in s.replies && s' == s.(replies := s.replies - {a})
  }

  /** The call returns what the reply to its latest attempt says. */
  ghost predicate Receive<T>(s: State<T>, s': State<T>, c: nat) {
    && c in s.calls && s.calls[c].Waiting? && s.calls[c].attempt in s.replies
    && s' == s.(calls := s.calls[c := Returned(s.calls[c].target, s.replies[s.calls[c].attempt])])
  }

  ghost predicate GiveUp<T>(s: State<T>, s': State<T>, c: nat) {
    c in s.calls && s.calls[c].Waiting? && s' == s.(calls := s.calls[c := Returned(s.calls[c].target, false)])
  }

  /** When callers may act: a new call at any time, a waiting one by sending again, giving up or taking its reply. */
  lemma CallerMay<T(!new)>(s: State<T>, c: nat, a: nat, target: T)
    ensures (exists s' :: Send(s, s', c, a, target)) <==> c !in s.calls && a !in s.owner
    ensures (exists s' :: Resend(s, s', c, a)) <==> c in s.calls && s.calls[c].Waiting? && a !in s.owner
    ensures (exists s' :: GiveUp(s, s', c)) <==> c in s.calls && s.calls[c].Waiting?
    ensures (exists s' :: Receive(s, s', c)) <==>
      c in s.calls && s.calls[c].Waiting? && s.calls[c].attempt in s.replies
  {
    if c !in s.calls && a !in s.owner {
      assert Send(s, s.(calls := s.calls[c := Waiting(target, a)], owner := s.owner[a := c],
                        requests := s.requests[a := target]), c, a, target);
    }
    if c in s.calls && s.calls[c].Waiting? {
      assert GiveUp(s, s.(calls := s.calls[c := Returned(s.calls[c].target, false)]), c);
      if a !in s.owner {
        assert Resend(s, s.(calls := s.calls[c := Waiting(s.calls[c].target, a)], owner := s.owner[a := c],
                            requests := s.requests[a := s.calls[c].target]), c, a);
      }
      if s.calls[c].attempt in s.replies {
        assert Receive(s, s.(calls := s.calls[c := Returned(s.calls[c].target, s.replies[s.calls[c].attempt])]), c);
      }
    }
  }

  /** When the server may act: on any request, as the table says, and of its own accord. */
  lemma ServerMay<T(!new)>(can: Table<T>, s: State<T>, a: nat, saved: bool, to: T)
    ensures (exists s' :: Accept(can, s, s', a, saved)) <==> a in s.requests && can(s.status, s.requests[a])
    ensures (exists s' :: Refuse(can, s, s', a)) <==> a in s.requests && can(s.status, s.requests[a])
    ensures (exists s' :: Reject(can, s, s', a)) <==> a in s.requests && !can(s.status, s.requests[a])
    ensures (exists s' :: Elsewhere(s, s', to)) <==> to != s.status
  {
    if a in s.requests {
      var denied := s.(requests := s.requests - {a}, replies := s.replies[a := false]);
      if can(s.status, s.requests[a]) {
        assert Refuse(can, s, denied, a);
        assert Accept(can, s, s.(status := s.requests[a],
                                 log := s.log + [Change(ByAttempt(a), s.status, s.requests[a])],
                                 requests := s.requests - {a}, replies := s.replies[a := saved]), a, saved);
      } else {
        assert Reject(can, s, denied, a);
      }
    }
    if to != s.status {
      assert Elsewhere(s, s.(status := to, log := s.log + [Change(ByServer, s.status, to)]), to);
    }
  }

  ghost predicate CallerStep<T(!new)>(allowed: set<Fault>, s: State<T>, s': State<T>, c: nat) {
    || (exists a, target :: Send(s, s', c, a, target))
    || (Retrying in allowed && exists a :: Resend(s, s', c, a))
    || Receive(s, s', c) || (GivingUp in allowed && GiveUp(s, s', c))
  }

  ghost predicate WireStep<T(!new)>(can: Table<T>, allowed: set<Fault>, s: State<T>, s': State<T>, a: nat) {
    || Accept(can, s, s', a, true) || Reject(can, s, s', a)
    || (FailingSave in allowed && Accept(can, s, s', a, false)) || (RefusingSave in allowed && Refuse(can, s, s', a))
    || LoseRequest(s, s', a) || LoseReply(s, s', a)
  }

  ghost predicate Step<T(!new)>(can: Table<T>, allowed: set<Fault>, s: State<T>, s': State<T>) {
    || (exists c :: CallerStep(allowed, s, s', c))
    || (exists a :: WireStep(can, allowed, s, s', a))
    || (exists to :: Elsewhere(s, s', to))
  }

  ghost predicate IsRun<T(!new)>(can: Table<T>, allowed: set<Fault>, run: seq<State<T>>) {
    |run| > 0 && Init(run[0]) && forall i, j :: 0 <= i && i + 1 == j < |run| ==> Step(can, allowed, run[i], run[j])
  }

  // ----- the invariant

  ghost predicate Logged<T>(s: State<T>, a: nat, target: T) {
    exists i :: 0 <= i < |s.log| && s.log[i].cause == ByAttempt(a) && s.log[i].to == target
  }

  /** The log is a chain of real changes ending in the current status. */
  ghost predicate ChainOk<T(!new)>(s: State<T>) {
    && (forall i :: 0 <= i < |s.log| ==> s.log[i].from != s.log[i].to)
    && (forall i :: 0 < i < |s.log| ==> s.log[i - 1].to == s.log[i].from)
    && (s.log != [] ==> s.log[|s.log| - 1].to == s.status)
  }

  /** No attempt is accepted twice, and what is still in flight has not been handled. */
  ghost predicate AttemptsOk<T(!new)>(s: State<T>) {
    && (forall i :: 0 <= i < |s.log| && s.log[i].cause.ByAttempt? ==>
          s.log[i].cause.attempt in s.owner && s.log[i].cause.attempt !in s.requests)
    && (forall i, j :: 0 <= i < j < |s.log| && s.log[i].cause.ByAttempt? ==> s.log[i].cause != s.log[j].cause)
    && (forall a :: a in s.requests ==>
          a in s.owner && s.owner[a] in s.calls && s.calls[s.owner[a]].target == s.requests[a])
  }

  ghost predicate Justified<T(!new)>(s: State<T>, c: nat, target: T) {
    exists a :: a in s.owner && s.owner[a] == c && Logged(s, a, target)
  }

  /** A positive reply, in flight or received, answers an accepted attempt. */
  ghost predicate RepliesOk<T(!new)>(s: State<T>) {
    && (forall a :: a in s.replies ==> a in s.owner && s.owner[a] in s.calls && a !in s.requests)
    && (forall a :: a in s.replies && s.replies[a] ==> Logged(s, a, s.calls[s.owner[a]].target))
    && (forall c :: c in s.calls && s.calls[c].Waiting? ==>
          s.calls[c].attempt in s.owner && s.owner[s.calls[c].attempt] == c)
    && (forall c :: c in s.calls && s.calls[c].Returned? && s.calls[c].claimed ==> Justified(s, c, s.calls[c].target))
  }

  ghost predicate Inv<T(!new)>(s: State<T>) {
    ChainOk(s) && AttemptsOk(s) && RepliesOk(s)
  }

  // ----- every step keeps it

  lemma LoggedStays<T(!new)>(s: State<T>, s': State<T>, a: nat, target: T)
    requires Logged(s, a, target) && |s'.log| >= |s.log| && s'.log[..|s.log|] == s.log
    ensures Logged(s', a, target)
  {
    var i :| 0 <= i < |s.log| && s.log[i].cause == ByAttempt(a) && s.log[i].to == target;
    assert s'.log[i] == s.log[i];
  }

  /** A longer log and more attempts justify whatever was justified before. */
  lemma EvidenceStays<T(!new)>(s: State<T>, s': State<T>)
    requires |s'.log| >= |s.log| && s'.log[..|s.log|] == s.log
    requires forall a :: a in s.owner ==> a in s'.owner && s'.owner[a] == s.owner[a]
    ensures forall a, t :: Logged(s, a, t) ==> Logged(s', a, t)
    ensures forall c, t :: Justified(s, c, t) ==> Justified(s', c, t)
  {
    forall a, t | Logged(s, a, t) ensures Logged(s', a, t) {
      LoggedStays(s, s', a, t);
    }
    forall c, t | Justified(s, c, t) ensures Justified(s', c, t) {
      var b :| b in s.owner && s.owner[b] == c && Logged(s, b, t);
      assert Logged(s', b, t);
    }
  }

  /** What sending and resending share: a fresh attempt for a new or waiting call. */
  ghost predicate Attempts<T>(s: State<T>, s': State<T>, c: nat, a: nat, target: T) {
    && a !in s.owner && (c in s.calls ==> s.calls[c].Waiting? && s.calls[c].target == target)
    && s' == s.(calls := s.calls[c := Waiting(target, a)], owner := s.owner[a := c],
                requests := s.requests[a := target])
  }

  lemma AttemptKeepsRequests<T(!new)>(s: State<T>, s': State<T>, c: nat, a: nat, target: T)
    requires AttemptsOk(s) && Attempts(s, s', c, a, target)
    ensures AttemptsOk(s')
  {
    forall b | b in s'.requests
      ensures b in s'.owner && s'.owner[b] in s'.calls && s'.calls[s'.owner[b]].target == s'.requests[b]
    {
    }
  }

  lemma AttemptKeepsReplies<T(!new)>(s: State<T>, s': State<T>, c: nat, a: nat, target: T)
    requires RepliesOk(s) && Attempts(s, s', c, a, target)
    ensures RepliesOk(s')
  {
    EvidenceStays(s, s');
  }

  lemma AttemptKeeps<T(!new)>(s: State<T>, s': State<T>, c: nat, a: nat, target: T)
    requires Inv(s) && Attempts(s, s', c, a, target)
    ensures Inv(s')
  {
    AttemptKeepsRequests(s, s', c, a, target);
    AttemptKeepsReplies(s, s', c, a, target);
  }

  lemma ReturnKeepsReplies<T(!new)>(s: State<T>, s': State<T>, c: nat)
    requires RepliesOk(s) && (Receive(s, s', c) || GiveUp(s, s', c))
    ensures RepliesOk(s')
  {
    EvidenceStays(s, s');
    if s'.calls[c].claimed {
      var a := s.calls[c].attempt;
      assert Logged(s', a, s'.calls[c].target);
      assert Justified(s', c, s'.calls[c].target);
    }
  }

  lemma ReturnKeeps<T(!new)>(s: State<T>, s': State<T>, c: nat)
    requires Inv(s) && (Receive(s, s', c) || GiveUp(s, s', c))
    ensures Inv(s')
  {
    ReturnKeepsReplies(s, s', c);
  }

  lemma ChangeKeepsChain<T(!new)>(s: State<T>, s': State<T>, change: Change<T>)
    requires ChainOk(s) && s'.log == s.log + [change] && s'.status == change.to
    requires change.from == s.status && change.from != change.to
    ensures ChainOk(s')
  {
    forall i | 0 < i < |s'.log| ensures s'.log[i - 1].to == s'.log[i].from {
      if i < |s.log| {
        assert s.log[i - 1].to == s.log[i].from;
      }
    }
  }

  lemma AcceptKeeps<T(!new)>(can: Table<T>, s: State<T>, s': State<T>, a: nat, saved: bool)
    requires Irreflexive(can) && Inv(s) && Accept(can, s, s', a, saved)
    ensures Inv(s')
  {
    ChangeKeepsChain(s, s', Change(ByAttempt(a), s.status, s.requests[a]));
    assert s'.log[..|s.log|] == s.log;
    EvidenceStays(s, s');
    assert s'.log[|s.log|].cause == ByAttempt(a);
    assert Logged(s', a, s.requests[a]);
    AcceptOnce(s, s', a);
  }

  lemma AcceptOnce<T(!new)>(s: State<T>, s': State<T>, a: nat)
    requires AttemptsOk(s) && a in s.requests
    requires s'.log == s.log + [Change(ByAttempt(a), s.status, s.requests[a])]
    requires s'.requests == s.requests - {a} && s'.owner == s.owner && s'.calls == s.calls
    ensures AttemptsOk(s')
  {
  }

  lemma ServerKeeps<T(!new)>(s: State<T>, s': State<T>, to: T)
    requires Inv(s) && Elsewhere(s, s', to)
    ensures Inv(s')
  {
    ChangeKeepsChain(s, s', Change(ByServer, s.status, to));
    assert s'.log[..|s.log|] == s.log;
    EvidenceStays(s, s');
  }

  lemma QuietKeepsReplies<T(!new)>(s: State<T>, s': State<T>, a: nat)
    requires RepliesOk(s) && s'.log == s.log && s'.calls == s.calls && s'.owner == s.owner
    requires forall b :: b in s'.requests ==> b in s.requests
    requires forall b :: b in s'.replies ==>
      b in s.replies || (b == a && a in s.owner && s.owner[a] in s.calls && a !in s'.requests)
    requires forall b :: b in s'.replies && s'.replies[b] ==> b in s.replies && s.replies[b]
    ensures RepliesOk(s')
  {
    EvidenceStays(s, s');
  }

  lemma QuietKeeps<T(!new)>(can: Table<T>, s: State<T>, s': State<T>, a: nat)
    requires Inv(s) && (Reject(can, s, s', a) || Refuse(can, s, s', a) || LoseRequest(s, s', a) || LoseReply(s, s', a))
    ensures Inv(s')
  {
    QuietKeepsReplies(s, s', a);
  }

  lemma StepKeeps<T(!new)>(can: Table<T>, allowed: set<Fault>, s: State<T>, s': State<T>)
    requires Irreflexive(can) && Inv(s) && Step(can, allowed, s, s')
    ensures Inv(s')
  {
    if c :| CallerStep(allowed, s, s', c) {
      if a, target :| Send(s, s', c, a, target) {
        AttemptKeeps(s, s', c, a, target);
      } else if a :| Resend(s, s', c, a) {
        AttemptKeeps(s, s', c, a, s.calls[c].target);
      } else {
        ReturnKeeps(s, s', c);
      }
    } else if to :| Elsewhere(s, s', to) {
      ServerKeeps(s, s', to);
    } else {
      var a :| WireStep(can, allowed, s, s', a);
      if saved :| Accept(can, s, s', a, saved) {
        AcceptKeeps(can, s, s', a, saved);
      } else {
        QuietKeeps(can, s, s', a);
      }
    }
  }

  lemma {:induction false} RunKeeps<T(!new)>(can: Table<T>, allowed: set<Fault>, run: seq<State<T>>, k: nat)
    requires Irreflexive(can) && IsRun(can, allowed, run) && k < |run|
    ensures Inv(run[k])
    decreases k
  {
    if k > 0 {
      var j := k - 1;
      RunKeeps(can, allowed, run, j);
      StepKeeps(can, allowed, run[j], run[k]);
    }
  }

  // ----- what claims guarantee

  /** The index of an accepted change that call `c` caused. */
  ghost predicate OwnChange<T>(s: State<T>, c: nat, i: nat) {
    && i < |s.log| && s.log[i].cause.ByAttempt?
    && s.log[i].cause.attempt in s.owner && s.owner[s.log[i].cause.attempt] == c
  }

  /** Every call that returned true has an accepted change of its own into its target. */
  lemma TrueMeansAccepted<T(!new)>(can: Table<T>, allowed: set<Fault>, run: seq<State<T>>, k: nat, c: nat)
    returns (i: nat)
    requires Irreflexive(can) && IsRun(can, allowed, run) && k < |run|
    requires c in run[k].calls && run[k].calls[c].Returned? && run[k].calls[c].claimed
    ensures OwnChange(run[k], c, i) && run[k].log[i].to == run[k].calls[c].target
  {
    RunKeeps(can, allowed, run, k);
    var s := run[k];
    var a :| a in s.owner && s.owner[a] == c && Logged(s, a, s.calls[c].target);
    i :| 0 <= i < |s.log| && s.log[i].cause == ByAttempt(a) && s.log[i].to == s.calls[c].target;
  }

  /** Between two changes into one status lies a change out of it. */
  lemma LeavesBetween<T(!new)>(can: Table<T>, allowed: set<Fault>, run: seq<State<T>>, k: nat, i: nat, j: nat)
    requires Irreflexive(can) && IsRun(can, allowed, run) && k < |run|
    requires i < j < |run[k].log| && run[k].log[i].to == run[k].log[j].to
    ensures i + 1 < j && run[k].log[i + 1].from == run[k].log[i].to && run[k].log[i + 1].to != run[k].log[i].to
  {
    RunKeeps(can, allowed, run, k);
    assert run[k].log[i].to == run[k].log[i + 1].from;
  }

  /**
   Exclusive permission: two different calls that both returned true for one
   target were granted by two different changes, with a change out of the target
   in between. Lost, late and repeated messages do not weaken this.
   */
  lemma ClaimsExclusive<T(!new)>(can: Table<T>, allowed: set<Fault>, run: seq<State<T>>, k: nat, c: nat, d: nat)
    returns (i: nat, j: nat, out: nat)
    requires Irreflexive(can) && IsRun(can, allowed, run) && k < |run| && c != d
    requires c in run[k].calls && run[k].calls[c].Returned? && run[k].calls[c].claimed
    requires d in run[k].calls && run[k].calls[d].Returned? && run[k].calls[d].claimed
    requires run[k].calls[c].target == run[k].calls[d].target
    ensures OwnChange(run[k], c, i) && OwnChange(run[k], d, j)
    ensures run[k].log[i].to == run[k].calls[c].target == run[k].log[j].to
    ensures (i < out < j || j < out < i) && run[k].log[out].from == run[k].calls[c].target != run[k].log[out].to
  {
    i := TrueMeansAccepted(can, allowed, run, k, c);
    j := TrueMeansAccepted(can, allowed, run, k, d);
    if i < j {
      LeavesBetween(can, allowed, run, k, i, j);
      out := i + 1;
    } else {
      LeavesBetween(can, allowed, run, k, j, i);
      out := j + 1;
    }
  }

  // ----- tables in which no claim follows a claim

  /** No claim can succeed on a status that a claim has just set. */
  ghost predicate OneClaimAtATime<T(!new)>(can: Table<T>) {
    forall x, y, z :: can(x, y) ==> !can(y, z)
  }

  ghost predicate Lawful<T(!new)>(can: Table<T>, s: State<T>) {
    forall i :: 0 <= i < |s.log| && s.log[i].cause.ByAttempt? ==> can(s.log[i].from, s.log[i].to)
  }

  lemma {:induction false} RunLawful<T(!new)>(can: Table<T>, allowed: set<Fault>, run: seq<State<T>>, k: nat)
    requires IsRun(can, allowed, run) && k < |run|
    ensures Lawful(can, run[k])
    decreases k
  {
    if k > 0 {
      var j := k - 1;
      RunLawful(can, allowed, run, j);
      StepLawful(can, allowed, run[j], run[k]);
    }
  }

  lemma StepLawful<T(!new)>(can: Table<T>, allowed: set<Fault>, s: State<T>, s': State<T>)
    requires Lawful(can, s) && Step(can, allowed, s, s')
    ensures Lawful(can, s')
  {
    if c :| CallerStep(allowed, s, s', c) {
    } else if to :| Elsewhere(s, s', to) {
    } else {
      var a :| WireStep(can, allowed, s, s', a);
    }
  }

  /** Then any two accepted claims, whatever their targets, have a server change between them. */
  lemma ClaimsAlternate<T(!new)>(can: Table<T>, allowed: set<Fault>, run: seq<State<T>>, k: nat, i: nat, j: nat)
    requires Irreflexive(can) && OneClaimAtATime(can) && IsRun(can, allowed, run) && k < |run|
    requires i < j < |run[k].log| && run[k].log[i].cause.ByAttempt? && run[k].log[j].cause.ByAttempt?
    ensures i + 1 < j && run[k].log[i + 1].cause == ByServer
  {
    RunKeeps(can, allowed, run, k);
    RunLawful(can, allowed, run, k);
    assert run[k].log[i].to == run[k].log[i + 1].from;
  }
}
