/**
 What the two answers of a claim call are worth. A positive one is backed by an
 accepted transition whatever happens (`Claims`). Here: which faults keep a call
 that was accepted from being told so, and what a negative answer rests on.
 */
module ClaimAnswers {
  import opened Claims

  // ----- answers that tell whether the claim was accepted

  ghost predicate Handled<T>(s: State<T>, a: nat) {
    exists i :: 0 <= i < |s.log| && s.log[i].cause == ByAttempt(a)
  }

  ghost predicate Holds<T>(s: State<T>, c: nat) {
    exists i: nat :: OwnChange(s, c, i)
  }

  ghost predicate OneAttemptEach<T(!new)>(s: State<T>) {
    && (forall c :: c in s.calls ==> exists a :: OnlyAttempt(s, c, a))
    && (forall a :: a in s.owner ==> s.owner[a] in s.calls)
    && AttemptsOwned(s)
  }

  /** Every logged attempt belongs to a call. */
  ghost predicate AttemptsOwned<T(!new)>(s: State<T>) {
    forall i :: 0 <= i < |s.log| && s.log[i].cause.ByAttempt? ==> s.log[i].cause.attempt in s.owner
  }

  /** Replies say whether the attempt was accepted; unhandled requests belong to waiting calls. */
  ghost predicate WireTruth<T(!new)>(s: State<T>) {
    && (forall a :: a in s.requests ==> a in s.owner && !Handled(s, a) && a !in s.replies)
    && (forall a :: a in s.requests && s.owner[a] in s.calls ==> s.calls[s.owner[a]].Waiting?)
    && (forall a :: a in s.replies ==> a in s.owner && (s.replies[a] <==> Handled(s, a)))
  }

  ghost predicate AnswersTrue<T(!new)>(s: State<T>) {
    forall c :: c in s.calls && s.calls[c].Returned? ==> (s.calls[c].claimed <==> Holds(s, c))
  }

  /** Each call has one attempt, replies tell the truth, and so do the calls that returned. */
  ghost predicate Truthful<T(!new)>(s: State<T>) {
    OneAttemptEach(s) && WireTruth(s) && AnswersTrue(s)
  }

  ghost predicate OnlyAttempt<T>(s: State<T>, c: nat, a: nat) {
    && a in s.owner && s.owner[a] == c && (forall b :: b in s.owner && s.owner[b] == c ==> b == a)
    && (c in s.calls && s.calls[c].Waiting? ==> s.calls[c].attempt == a)
  }

  lemma HoldsByOnlyAttempt<T(!new)>(s: State<T>, c: nat, a: nat)
    requires OnlyAttempt(s, c, a)
    ensures Holds(s, c) <==> Handled(s, a)
  {
    if i: nat :| OwnChange(s, c, i) {
      assert s.log[i].cause == ByAttempt(a);
    }
    if Handled(s, a) {
      var i: nat :| i < |s.log| && s.log[i].cause == ByAttempt(a);
      assert OwnChange(s, c, i);
    }
  }

  lemma HandledGrows<T(!new)>(s: State<T>, s': State<T>, change: Change<T>, a: nat)
    requires s'.log == s.log + [change]
    ensures Handled(s', a) <==> Handled(s, a) || change.cause == ByAttempt(a)
  {
    if change.cause == ByAttempt(a) {
      assert s'.log[|s.log|].cause == ByAttempt(a);
    }
    if Handled(s, a) {
      var i :| 0 <= i < |s.log| && s.log[i].cause == ByAttempt(a);
      assert s'.log[i].cause == ByAttempt(a);
    }
  }

  /** The attempt of a call that is already there stays its only one. */
  lemma SendKeepsAttempt<T(!new)>(s: State<T>, s': State<T>, c: nat, a: nat, target: T, d: nat)
    requires OneAttemptEach(s) && Send(s, s', c, a, target) && d in s.calls
    ensures exists b :: OnlyAttempt(s', d, b)
    ensures Holds(s', d) <==> Holds(s, d)
  {
    var b :| OnlyAttempt(s, d, b);
    assert OnlyAttempt(s', d, b);
    HoldsByOnlyAttempt(s, d, b);
    HoldsByOnlyAttempt(s', d, b);
    assert Handled(s', b) <==> Handled(s, b);
  }

  lemma SendWire<T(!new)>(s: State<T>, s': State<T>, c: nat, a: nat, target: T)
    requires AttemptsOwned(s) && WireTruth(s) && Send(s, s', c, a, target)
    ensures WireTruth(s')
  {
    forall b ensures Handled(s', b) <==> Handled(s, b) {
    }
    assert !Handled(s, a);
  }

  lemma SendAttempts<T(!new)>(s: State<T>, s': State<T>, c: nat, a: nat, target: T)
    requires OneAttemptEach(s) && Send(s, s', c, a, target)
    ensures OneAttemptEach(s')
  {
    assert OnlyAttempt(s', c, a);
    forall d | d in s'.calls ensures exists b :: OnlyAttempt(s', d, b) {
      if d != c {
        SendKeepsAttempt(s, s', c, a, target, d);
      }
    }
  }

  lemma SendAnswers<T(!new)>(s: State<T>, s': State<T>, c: nat, a: nat, target: T)
    requires OneAttemptEach(s) && AnswersTrue(s) && Send(s, s', c, a, target)
    ensures AnswersTrue(s')
  {
    forall d | d in s'.calls && s'.calls[d].Returned? ensures s'.calls[d].claimed <==> Holds(s', d) {
      SendKeepsAttempt(s, s', c, a, target, d);
    }
  }

  lemma TruthfulSend<T(!new)>(s: State<T>, s': State<T>, c: nat, a: nat, target: T)
    requires Truthful(s) && Send(s, s', c, a, target)
    ensures Truthful(s')
  {
    SendWire(s, s', c, a, target);
    SendAttempts(s, s', c, a, target);
    SendAnswers(s, s', c, a, target);
  }

  lemma ReceiveWire<T(!new)>(s: State<T>, s': State<T>, c: nat)
    requires OneAttemptEach(s) && WireTruth(s) && Receive(s, s', c)
    ensures WireTruth(s')
  {
    var only :| OnlyAttempt(s, c, only);
    forall b | b in s'.requests ensures s'.calls[s'.owner[b]].Waiting? {
      assert b != only;
    }
    forall b ensures Handled(s', b) <==> Handled(s, b) {
    }
  }

  lemma ReceiveAnswer<T(!new)>(s: State<T>, s': State<T>, c: nat, d: nat)
    requires Truthful(s) && Receive(s, s', c) && d in s'.calls
    ensures exists b :: OnlyAttempt(s', d, b)
    ensures s'.calls[d].Returned? ==> (s'.calls[d].claimed <==> Holds(s', d))
  {
    var b :| OnlyAttempt(s, d, b);
    assert OnlyAttempt(s', d, b);
    HoldsByOnlyAttempt(s, d, b);
    HoldsByOnlyAttempt(s', d, b);
    assert Handled(s', b) <==> Handled(s, b);
  }

  lemma TruthfulReceive<T(!new)>(s: State<T>, s': State<T>, c: nat)
    requires Truthful(s) && Receive(s, s', c)
    ensures Truthful(s')
  {
    ReceiveWire(s, s', c);
    forall d | d in s'.calls
      ensures (exists b :: OnlyAttempt(s', d, b)) && (s'.calls[d].Returned? ==> (s'.calls[d].claimed <==> Holds(s', d)))
    {
      ReceiveAnswer(s, s', c, d);
    }
  }

  /** Calls stand by what they returned while their own attempt is neither pending nor newly accepted. */
  lemma AnswersCarry<T(!new)>(s: State<T>, s': State<T>)
    requires Truthful(s) && s'.calls == s.calls && s'.owner == s.owner
    requires forall b :: b in s.owner && s.calls[s.owner[b]].Returned? ==> (Handled(s', b) <==> Handled(s, b))
    ensures forall d :: d in s'.calls ==> exists b :: OnlyAttempt(s', d, b)
    ensures AnswersTrue(s')
  {
    forall d | d in s'.calls ensures exists b :: OnlyAttempt(s', d, b) {
      var b :| OnlyAttempt(s, d, b);
      assert OnlyAttempt(s', d, b);
    }
    forall d | d in s'.calls && s'.calls[d].Returned? ensures s'.calls[d].claimed <==> Holds(s', d) {
      var b :| OnlyAttempt(s, d, b);
      assert OnlyAttempt(s', d, b);
      HoldsByOnlyAttempt(s, d, b);
      HoldsByOnlyAttempt(s', d, b);
    }
  }

  lemma TruthfulElsewhere<T(!new)>(s: State<T>, s': State<T>, to: T)
    requires Truthful(s) && Elsewhere(s, s', to)
    ensures Truthful(s')
  {
    forall b ensures Handled(s', b) <==> Handled(s, b) {
      HandledGrows(s, s', Change(ByServer, s.status, to), b);
    }
    AnswersCarry(s, s');
  }

  lemma AcceptHandles<T(!new)>(can: Table<T>, s: State<T>, s': State<T>, a: nat)
    requires Accept(can, s, s', a, true)
    ensures forall b :: Handled(s', b) <==> Handled(s, b) || b == a
  {
    forall b ensures Handled(s', b) <==> Handled(s, b) || b == a {
      HandledGrows(s, s', Change(ByAttempt(a), s.status, s.requests[a]), b);
    }
  }

  lemma AcceptWire<T(!new)>(can: Table<T>, s: State<T>, s': State<T>, a: nat)
    requires WireTruth(s) && Accept(can, s, s', a, true)
    ensures WireTruth(s')
  {
    AcceptHandles(can, s, s', a);
  }

  lemma TruthfulAccept<T(!new)>(can: Table<T>, s: State<T>, s': State<T>, a: nat)
    requires Truthful(s) && Accept(can, s, s', a, true)
    ensures Truthful(s')
  {
    AcceptWire(can, s, s', a);
    AcceptAnswers(can, s, s', a);
  }

  lemma AcceptAnswers<T(!new)>(can: Table<T>, s: State<T>, s': State<T>, a: nat)
    requires Truthful(s) && Accept(can, s, s', a, true)
    ensures OneAttemptEach(s') && AnswersTrue(s')
  {
    AcceptHandles(can, s, s', a);
    AcceptOwned(can, s, s', a);
    assert s.calls[s.owner[a]].Waiting?;
    AnswersCarry(s, s');
  }

  lemma AcceptOwned<T(!new)>(can: Table<T>, s: State<T>, s': State<T>, a: nat)
    requires AttemptsOwned(s) && a in s.owner && Accept(can, s, s', a, true)
    ensures AttemptsOwned(s')
  {
  }

  /** An unanswered request gets a negative reply or vanishes, or a reply vanishes. */
  ghost predicate Quiet<T>(s: State<T>, s': State<T>, a: nat) {
    && s'.log == s.log && s'.calls == s.calls && s'.owner == s.owner
    && (|| (a in s.requests && s'.requests == s.requests - {a} && s'.replies == s.replies[a := false])
        || (s'.requests == s.requests - {a} && s'.replies == s.replies)
        || (s'.requests == s.requests && s'.replies == s.replies - {a}))
  }

  lemma QuietWire<T(!new)>(s: State<T>, s': State<T>, a: nat)
    requires WireTruth(s) && Quiet(s, s', a)
    ensures WireTruth(s') && forall b :: Handled(s', b) <==> Handled(s, b)
  {
    forall b ensures Handled(s', b) <==> Handled(s, b) {
    }
  }

  lemma TruthfulQuiet<T(!new)>(s: State<T>, s': State<T>, a: nat)
    requires Truthful(s) && Quiet(s, s', a)
    ensures Truthful(s')
  {
    QuietWire(s, s', a);
    AnswersCarry(s, s');
  }

  lemma TruthfulWire<T(!new)>(can: Table<T>, allowed: set<Fault>, s: State<T>, s': State<T>, a: nat)
    requires Truthful(s) && WireStep(can, allowed, s, s', a) && FailingSave !in allowed
    ensures Truthful(s')
  {
    if Accept(can, s, s', a, true) {
      TruthfulAccept(can, s, s', a);
    } else {
      TruthfulQuiet(s, s', a);
    }
  }

  lemma StepTruthful<T(!new)>(can: Table<T>, allowed: set<Fault>, s: State<T>, s': State<T>)
    requires Truthful(s) && Step(can, allowed, s, s') && allowed <= {RefusingSave}
    ensures Truthful(s')
  {
    if c :| CallerStep(allowed, s, s', c) {
      if a, target :| Send(s, s', c, a, target) {
        TruthfulSend(s, s', c, a, target);
      } else {
        TruthfulReceive(s, s', c);
      }
    } else if to :| Elsewhere(s, s', to) {
      TruthfulElsewhere(s, s', to);
    } else {
      var a :| WireStep(can, allowed, s, s', a);
      TruthfulWire(can, allowed, s, s', a);
    }
  }

  /**
   As long as no call retries, no call returns early and no save fails half-way, a
   returned call says true if and only if the server accepted it.
   */
  lemma {:induction false} PlainAnswersExact<T(!new)>(can: Table<T>, allowed: set<Fault>, run: seq<State<T>>, k: nat)
    requires IsRun(can, allowed, run) && k < |run| && allowed <= {RefusingSave}
    ensures Truthful(run[k])
    decreases k
  {
    if k > 0 {
      var j := k - 1;
      PlainAnswersExact(can, allowed, run, j);
      StepTruthful(can, allowed, run[j], run[k]);
    }
  }

  // ----- runs with a single caller

  /** The status is `t`, and not because of call `c`'s own latest claim. */
  ghost predicate OwnedByOther<T>(s: State<T>, c: nat, t: T) {
    s.status == t && !(s.log != [] && OwnChange(s, c, |s.log| - 1))
  }

  /** Only call 0 ever claims `y`, and nobody else ever holds it. */
  ghost predicate LoneRun<T(!new)>(can: Table<T>, allowed: set<Fault>, run: seq<State<T>>, x: T, y: T) {
    && IsRun(can, allowed, run)
    && forall i :: 0 <= i < |run| ==> run[i].status in {x, y} && !OwnedByOther(run[i], 0, y)
  }

  ghost predicate ToldFalse<T>(s: State<T>, y: T) {
    s.calls == map[0 := Returned(y, false)]
  }

  lemma Extend<T(!new)>(can: Table<T>, allowed: set<Fault>, run: seq<State<T>>, s: State<T>, x: T, y: T)
    returns (longer: seq<State<T>>)
    requires LoneRun(can, allowed, run, x, y) && Step(can, allowed, run[|run| - 1], s)
    requires s.status in {x, y} && !OwnedByOther(s, 0, y)
    ensures LoneRun(can, allowed, longer, x, y) && longer[|longer| - 1] == s
  {
    longer := run + [s];
    forall i, j | 0 <= i && i + 1 == j < |longer| ensures Step(can, allowed, longer[i], longer[j]) {
      if j < |run| {
        assert Step(can, allowed, run[i], run[j]);
      }
    }
  }

  /** A call asks for `y` while the status is `x`. */
  function Asking<T(==)>(x: T, y: T): State<T> {
    State(x, [], map[0 := Waiting(y, 0)], map[0 := 0], map[0 := y], map[])
  }

  lemma AskingRun<T(!new)>(can: Table<T>, allowed: set<Fault>, x: T, y: T) returns (run: seq<State<T>>)
    requires x != y
    ensures LoneRun(can, allowed, run, x, y) && run[|run| - 1] == Asking(x, y)
  {
    var start := State(x, [], map[], map[], map[], map[]);
    assert Send(start, Asking(x, y), 0, 0, y) && CallerStep(allowed, start, Asking(x, y), 0);
    run := Extend(can, allowed, [start], Asking(x, y), x, y);
  }

  /** The server accepted the call's first attempt; `reply` is on its way. */
  function Taken<T(==)>(x: T, y: T, reply: bool): State<T> {
    State(y, [Change(ByAttempt(0), x, y)], map[0 := Waiting(y, 0)], map[0 := 0], map[], map[0 := reply])
  }

  lemma TakenRun<T(!new)>(can: Table<T>, allowed: set<Fault>, x: T, y: T, saved: bool) returns (run: seq<State<T>>)
    requires x != y && can(x, y) && (!saved ==> FailingSave in allowed)
    ensures LoneRun(can, allowed, run, x, y) && run[|run| - 1] == Taken(x, y, saved)
  {
    var s, s' := Asking(x, y), Taken(x, y, saved);
    run := AskingRun(can, allowed, x, y);
    assert Accept(can, s, s', 0, saved) && WireStep(can, allowed, s, s', 0);
    assert OwnChange(s', 0, 0);
    run := Extend(can, allowed, run, s', x, y);
  }

  /** Without any fault a lone caller gets what the table allows it, and is told so. */
  lemma LoneClaimSucceeds<T(!new)>(can: Table<T>, allowed: set<Fault>, x: T, y: T) returns (run: seq<State<T>>)
    requires x != y && can(x, y)
    ensures LoneRun(can, allowed, run, x, y) && run[|run| - 1].status == y
    ensures run[|run| - 1].calls == map[0 := Returned(y, true)]
  {
    var taken := Taken(x, y, true);
    var over := taken.(calls := map[0 := Returned(y, true)]);
    run := TakenRun(can, allowed, x, y, true);
    assert OwnChange(over, 0, 0);
    assert Receive(taken, over, 0) && CallerStep(allowed, taken, over, 0);
    run := Extend(can, allowed, run, over, x, y);
  }

  /** The attempt is answered no without effect, and the call returns. */
  lemma NoReturned<T(!new)>(can: Table<T>, allowed: set<Fault>, x: T, y: T) returns (run: seq<State<T>>)
    requires x != y && (!can(x, y) || RefusingSave in allowed)
    ensures LoneRun(can, allowed, run, x, y) && ToldFalse(run[|run| - 1], y)
  {
    var s := Asking(x, y);
    var denied := s.(requests := map[], replies := map[0 := false]);
    var over := denied.(calls := map[0 := Returned(y, false)]);
    run := AskingRun(can, allowed, x, y);
    assert Reject(can, s, denied, 0) || Refuse(can, s, denied, 0);
    assert WireStep(can, allowed, s, denied, 0);
    run := Extend(can, allowed, run, denied, x, y);
    assert Receive(denied, over, 0) && CallerStep(allowed, denied, over, 0);
    run := Extend(can, allowed, run, over, x, y);
  }

  /** Call 0 was told no although its first attempt holds the status. */
  ghost predicate FalseThoughAccepted<T>(s: State<T>, y: T) {
    ToldFalse(s, y) && s.status == y && OwnChange(s, 0, 0)
  }

  /** Fault one: the reply is lost, and the retry finds the status already moved. */
  lemma RetryTellsFalse<T(!new)>(can: Table<T>, allowed: set<Fault>, x: T, y: T) returns (run: seq<State<T>>)
    requires x != y && can(x, y) && !can(y, y) && Retrying in allowed
    ensures LoneRun(can, allowed, run, x, y) && FalseThoughAccepted(run[|run| - 1], y)
  {
    var taken := Taken(x, y, true);
    var lost := taken.(replies := map[]);
    var again := lost.(calls := map[0 := Waiting(y, 1)], owner := map[0 := 0, 1 := 0], requests := map[1 := y]);
    run := TakenRun(can, allowed, x, y, true);
    assert LoseReply(taken, lost, 0) && WireStep(can, allowed, taken, lost, 0);
    assert OwnChange(lost, 0, 0) && OwnChange(again, 0, 0);
    run := Extend(can, allowed, run, lost, x, y);
    assert Resend(lost, again, 0, 1) && CallerStep(allowed, lost, again, 0);
    run := Extend(can, allowed, run, again, x, y);
    run := RetryDenied(can, allowed, run, x, y);
  }

  lemma RetryDenied<T(!new)>(can: Table<T>, allowed: set<Fault>, run: seq<State<T>>, x: T, y: T)
    returns (longer: seq<State<T>>)
    requires LoneRun(can, allowed, run, x, y) && !can(y, y)
    requires var s := run[|run| - 1];
      && s.status == y && OwnChange(s, 0, 0) && |s.log| == 1 && s.replies == map[]
      && s.calls == map[0 := Waiting(y, 1)] && s.requests == map[1 := y]
    ensures LoneRun(can, allowed, longer, x, y) && FalseThoughAccepted(longer[|longer| - 1], y)
  {
    var again := run[|run| - 1];
    var denied := again.(requests := map[], replies := map[1 := false]);
    var over := denied.(calls := map[0 := Returned(y, false)]);
    assert OwnChange(denied, 0, 0) && OwnChange(over, 0, 0);
    assert Reject(can, again, denied, 1) && WireStep(can, allowed, again, denied, 1);
    longer := Extend(can, allowed, run, denied, x, y);
    assert Receive(denied, over, 0) && CallerStep(allowed, denied, over, 0);
    longer := Extend(can, allowed, longer, over, x, y);
  }

  /** Faults two and three: the call gives up on the reply, or the save fails after the status has moved. */
  lemma AcceptedTellsFalse<T(!new)>(can: Table<T>, allowed: set<Fault>, x: T, y: T) returns (run: seq<State<T>>)
    requires x != y && can(x, y) && (GivingUp in allowed || FailingSave in allowed)
    ensures LoneRun(can, allowed, run, x, y) && FalseThoughAccepted(run[|run| - 1], y)
  {
    var taken := Taken(x, y, GivingUp in allowed);
    var over := taken.(calls := map[0 := Returned(y, false)]);
    run := TakenRun(can, allowed, x, y, GivingUp in allowed);
    assert (GivingUp in allowed && GiveUp(taken, over, 0)) || Receive(taken, over, 0);
    assert CallerStep(allowed, taken, over, 0);
    assert OwnChange(over, 0, 0);
    run := Extend(can, allowed, run, over, x, y);
  }

  lemma AcceptedButToldFalse<T(!new)>(can: Table<T>, allowed: set<Fault>, x: T, y: T) returns (run: seq<State<T>>)
    requires x != y && can(x, y) && !can(y, y) && !(allowed <= {RefusingSave})
    ensures LoneRun(can, allowed, run, x, y) && FalseThoughAccepted(run[|run| - 1], y)
  {
    if Retrying in allowed {
      run := RetryTellsFalse(can, allowed, x, y);
    } else {
      var f :| f in allowed && f != RefusingSave;
      assert f == GivingUp || f == FailingSave;
      run := AcceptedTellsFalse(can, allowed, x, y);
    }
  }

  // ----- when answers are exact

  ghost predicate AnswersExact<T(!new)>(can: Table<T>, allowed: set<Fault>) {
    forall run :: IsRun(can, allowed, run) ==> AnswersTrue(run[|run| - 1])
  }

  /**
   On every table that allows some transition and no status twice in a row: true
   means accepted and false means not accepted, in every run, exactly when calls
   never retry, never give up, and no save fails half-way.
   */
  lemma AnswersExactIff<T(!new)>(can: Table<T>, allowed: set<Fault>, x: T, y: T)
    requires Irreflexive(can) && can(x, y)
    ensures AnswersExact(can, allowed) <==> allowed <= {RefusingSave}
  {
    if allowed <= {RefusingSave} {
      forall run | IsRun(can, allowed, run) ensures AnswersTrue(run[|run| - 1]) {
        PlainAnswersExact(can, allowed, run, |run| - 1);
      }
    } else {
      var run := AcceptedButToldFalse(can, allowed, x, y);
      var s := run[|run| - 1];
      assert Holds(s, 0) && 0 in s.calls;
      assert !AnswersTrue(s);
    }
  }

  // ----- what a negative answer rests on

  /** The step answers an attempt of call `c` for `t` in the negative, or lets the call give up. */
  ghost predicate Denied<T(!new)>(can: Table<T>, allowed: set<Fault>, s: State<T>, s': State<T>, c: nat, t: T) {
    || (GivingUp in allowed && GiveUp(s, s', c) && s.calls[c].target == t)
    || exists a ::
      a in s.owner && s.owner[a] == c && a in s.requests && s.requests[a] == t && AnswersNo(can, allowed, s, s', a)
  }

  ghost predicate AnswersNo<T(!new)>(can: Table<T>, allowed: set<Fault>, s: State<T>, s': State<T>, a: nat) {
    || Reject(can, s, s', a)
    || (RefusingSave in allowed && Refuse(can, s, s', a))
    || (FailingSave in allowed && Accept(can, s, s', a, false))
  }

  ghost predicate WasDenied<T(!new)>(can: Table<T>, allowed: set<Fault>, run: seq<State<T>>, k: nat, c: nat, t: T)
    requires k < |run|
  {
    exists j: nat, next: nat :: j + 1 == next <= k && Denied(can, allowed, run[j], run[next], c, t)
  }

  /** Every negative reply and every negative return up to state `k` has a cause. */
  ghost predicate NegativesCaused<T(!new)>(can: Table<T>, allowed: set<Fault>, run: seq<State<T>>, k: nat)
    requires k < |run|
  {
    var s := run[k];
    && (forall a :: a in s.replies && !s.replies[a] && a in s.owner && s.owner[a] in s.calls ==>
          WasDenied(can, allowed, run, k, s.owner[a], s.calls[s.owner[a]].target))
    && (forall c :: c in s.calls && s.calls[c].Returned? && !s.calls[c].claimed ==>
          WasDenied(can, allowed, run, k, c, s.calls[c].target))
  }

  lemma DeniedStays<T(!new)>(can: Table<T>, allowed: set<Fault>, run: seq<State<T>>, j: nat, k: nat, c: nat, t: T)
    requires j <= k < |run| && WasDenied(can, allowed, run, j, c, t)
    ensures WasDenied(can, allowed, run, k, c, t)
  {
  }

  /** Calls keep their targets and attempts their calls. */
  lemma TargetsKept<T(!new)>(can: Table<T>, allowed: set<Fault>, s: State<T>, s': State<T>)
    requires Step(can, allowed, s, s')
    ensures forall c :: c in s.calls ==> c in s'.calls && s'.calls[c].target == s.calls[c].target
    ensures forall a :: a in s.owner ==> a in s'.owner && s'.owner[a] == s.owner[a]
  {
    if c :| CallerStep(allowed, s, s', c) {
    } else if to :| Elsewhere(s, s', to) {
    } else {
      var a :| WireStep(can, allowed, s, s', a);
    }
  }

  /** A negative reply was there before, or the step gave it. */
  lemma NewReply<T(!new)>(can: Table<T>, allowed: set<Fault>, s: State<T>, s': State<T>, a: nat)
    requires Step(can, allowed, s, s') && a in s'.replies && !s'.replies[a]
    ensures (a in s.replies && !s.replies[a]) || (a in s.requests && AnswersNo(can, allowed, s, s', a))
  {
    if c :| CallerStep(allowed, s, s', c) {
    } else if to :| Elsewhere(s, s', to) {
    } else {
      var b :| WireStep(can, allowed, s, s', b);
      WireReply(can, allowed, s, s', b, a);
    }
  }

  lemma WireReply<T(!new)>(can: Table<T>, allowed: set<Fault>, s: State<T>, s': State<T>, b: nat, a: nat)
    requires WireStep(can, allowed, s, s', b) && a in s'.replies && !s'.replies[a]
    ensures (a in s.replies && !s.replies[a]) || (a in s.requests && AnswersNo(can, allowed, s, s', a))
  {
    if b != a || LoseRequest(s, s', b) || LoseReply(s, s', b) {
      assert a in s.replies && s'.replies[a] == s.replies[a];
    }
  }

  /** A negative return was there before, or repeats a negative reply, or is a call giving up. */
  lemma NewReturn<T(!new)>(can: Table<T>, allowed: set<Fault>, s: State<T>, s': State<T>, c: nat)
    requires Step(can, allowed, s, s') && c in s'.calls && s'.calls[c].Returned? && !s'.calls[c].claimed
    ensures c in s.calls
    ensures || (s.calls[c].Returned? && !s.calls[c].claimed)
            || (s.calls[c].Waiting? && s.calls[c].attempt in s.replies && !s.replies[s.calls[c].attempt])
            || (GivingUp in allowed && GiveUp(s, s', c))
  {
    if d :| CallerStep(allowed, s, s', d) {
      assert d != c ==> c in s.calls && s'.calls[c] == s.calls[c];
    } else if to :| Elsewhere(s, s', to) {
    } else {
      var a :| WireStep(can, allowed, s, s', a);
    }
  }

  lemma ReplyCaused<T(!new)>(can: Table<T>, allowed: set<Fault>, run: seq<State<T>>, j: nat, k: nat, a: nat)
    requires k == j + 1 < |run| && Inv(run[j]) && NegativesCaused(can, allowed, run, j)
    requires Step(can, allowed, run[j], run[k])
    requires var s := run[k]; a in s.replies && !s.replies[a] && a in s.owner && s.owner[a] in s.calls
    ensures WasDenied(can, allowed, run, k, run[k].owner[a], run[k].calls[run[k].owner[a]].target)
  {
    var s, s' := run[j], run[k];
    TargetsKept(can, allowed, s, s');
    NewReply(can, allowed, s, s', a);
    var c := s'.owner[a];
    if a in s.replies && !s.replies[a] {
      DeniedStays(can, allowed, run, j, k, c, s.calls[c].target);
    } else {
      assert Denied(can, allowed, s, s', c, s.requests[a]);
    }
  }

  lemma ReturnCaused<T(!new)>(can: Table<T>, allowed: set<Fault>, run: seq<State<T>>, j: nat, k: nat, c: nat)
    requires k == j + 1 < |run| && Inv(run[j]) && NegativesCaused(can, allowed, run, j)
    requires Step(can, allowed, run[j], run[k])
    requires var s := run[k]; c in s.calls && s.calls[c].Returned? && !s.calls[c].claimed
    ensures WasDenied(can, allowed, run, k, c, run[k].calls[c].target)
  {
    var s, s' := run[j], run[k];
    NewReturn(can, allowed, s, s', c);
    TargetsKept(can, allowed, s, s');
    if GivingUp in allowed && GiveUp(s, s', c) {
      assert Denied(can, allowed, s, s', c, s.calls[c].target);
    } else {
      DeniedStays(can, allowed, run, j, k, c, s.calls[c].target);
    }
  }

  lemma {:induction false} AllCaused<T(!new)>(can: Table<T>, allowed: set<Fault>, run: seq<State<T>>, k: nat)
    requires Irreflexive(can) && IsRun(can, allowed, run) && k < |run|
    ensures NegativesCaused(can, allowed, run, k)
    decreases k
  {
    if k > 0 {
      var j := k - 1;
      AllCaused(can, allowed, run, j);
      RunKeeps(can, allowed, run, j);
      var s := run[k];
      forall a | a in s.replies && !s.replies[a] && a in s.owner && s.owner[a] in s.calls
        ensures WasDenied(can, allowed, run, k, s.owner[a], s.calls[s.owner[a]].target)
      {
        ReplyCaused(can, allowed, run, j, k, a);
      }
      forall c | c in s.calls && s.calls[c].Returned? && !s.calls[c].claimed
        ensures WasDenied(can, allowed, run, k, c, s.calls[c].target)
      {
        ReturnCaused(can, allowed, run, j, k, c);
      }
    }
  }

  /** Without faults only the table denies, while the call waits, at a status the call did not set. */
  lemma DeniedByTable<T(!new)>(can: Table<T>, s: State<T>, s': State<T>, c: nat, t: T)
    requires Inv(s) && Truthful(s) && Denied(can, {}, s, s', c, t)
    ensures !can(s.status, t) && c in s.calls && s.calls[c].Waiting?
    ensures !(s.log != [] && OwnChange(s, c, |s.log| - 1))
  {
    var a :| a in s.owner && s.owner[a] == c && a in s.requests && s.requests[a] == t && AnswersNo(can, {}, s, s', a);
    var only :| OnlyAttempt(s, c, only);
  }

  /**
   Without faults, a call that returned false was rejected by the table while it
   waited, at a status it did not hold itself.
   */
  lemma FalseMeansRejected<T(!new)>(can: Table<T>, run: seq<State<T>>, k: nat, c: nat) returns (j: nat, next: nat)
    requires Irreflexive(can) && IsRun(can, {}, run) && k < |run|
    requires c in run[k].calls && run[k].calls[c].Returned? && !run[k].calls[c].claimed
    ensures j + 1 == next <= k && Denied(can, {}, run[j], run[next], c, run[k].calls[c].target)
    ensures c in run[j].calls && run[j].calls[c].Waiting?
    ensures !can(run[j].status, run[k].calls[c].target)
    ensures !(run[j].log != [] && OwnChange(run[j], c, |run[j].log| - 1))
  {
    var t := run[k].calls[c].target;
    AllCaused(can, {}, run, k);
    var i: nat, after: nat :| i + 1 == after <= k && Denied(can, {}, run[i], run[after], c, t);
    j, next := i, after;
    RunKeeps(can, {}, run, j);
    PlainAnswersExact(can, {}, run, j);
    DeniedByTable(can, run[j], run[next], c, t);
  }
}
