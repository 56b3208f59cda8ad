/**
 Research records under concurrent writers. A lifecycle transition reads the
 record, checks its status against the caller's expected predecessors and writes
 only if the revision it read is still current, retrying otherwise. Reads and
 writes of any number of writers interleave freely.
 */
module Research {
  import opened CycleSearch

  type Id = string
  newtype byte = x: int | 0 <= x < 256

  const MAX_ANSWER_BYTES := 4 * 1024

  datatype Status = Pending | InProgress | Answered | Timeout | Error | Unrecognised(text: string)

  predicate Terminal(s: Status) {
    s == Answered || s == Timeout || s == Error
  }

  datatype Citation = Citation(url: string, file: string)

  datatype Record = Record(
    id: Id,
    askingLoopId: string,
    askingCallId: string,
    question: string,
    status: Status,
    answer: seq<byte>,
    citations: seq<Citation>,
    error: string)

  // ----- validation

  predicate CitationValid(c: Citation) {
    (c.url != "") != (c.file != "")
  }

  /** What a record must satisfy before it may reach the bucket. */
  ghost predicate IsValid(r: Record) {
    && r.id != "" && r.askingLoopId != "" && r.askingCallId != "" && r.question != ""
    && !r.status.Unrecognised?
    && (r.status == Answered ==>
        && 0 < |r.answer| <= MAX_ANSWER_BYTES && r.citations != []
        && forall c :: c in r.citations ==> CitationValid(c))
    && (r.status == Timeout || r.status == Error ==> r.error != "")
  }

  datatype Defect =
    | MissingField | UnknownStatus | BadAnswer | MissingCitations | BadCitation(index: nat) | MissingReason

  /** `Research.Validate`; a citation defect names the first offending entry. */
  method Validate(r: Record) returns (v: Verdict<Defect>)
    ensures v.Accepted? <==> IsValid(r)
    ensures v.Rejected? && v.error.BadCitation? ==>
      && v.error.index < |r.citations| && !CitationValid(r.citations[v.error.index])
      && forall k :: 0 <= k < v.error.index ==> CitationValid(r.citations[k])
    ensures v.Rejected? && v.error.MissingField? ==> "" in [r.id, r.askingLoopId, r.askingCallId, r.question]
    ensures v.Rejected? && v.error.UnknownStatus? ==> r.status.Unrecognised?
    ensures v.Rejected? && v.error.BadAnswer? ==> r.status == Answered && (r.answer == [] || |r.answer| > 4096)
    ensures v.Rejected? && v.error.MissingCitations? ==> r.status == Answered && r.citations == []
    ensures v.Rejected? && v.error.BadCitation? ==> r.status == Answered
    ensures v.Rejected? && v.error.MissingReason? ==> r.status in {Timeout, Error} && r.error == ""
  {
    if r.id == "" || r.askingLoopId == "" || r.askingCallId == "" || r.question == "" {
      return Rejected(MissingField);
    }
    if r.status.Unrecognised? {
      return Rejected(UnknownStatus);
    }
    if r.status == Answered {
      if r.answer == [] || |r.answer| > MAX_ANSWER_BYTES {
        return Rejected(BadAnswer);
      }
      if r.citations == [] {
        return Rejected(MissingCitations);
      }
      for k := 0 to |r.citations|
        invariant forall m :: 0 <= m < k ==> CitationValid(r.citations[m])
      {
        if !CitationValid(r.citations[k]) {
          return Rejected(BadCitation(k));
        }
      }
    }
    if (r.status == Timeout || r.status == Error) && r.error == "" {
      return Rejected(MissingReason);
    }
    return Accepted;
  }

  /** The four kinds of record that may be stored; nothing else is valid. */
  lemma ValidExact(r: Record)
    ensures IsValid(r) <==> (
      && r.id != "" && r.askingLoopId != "" && r.askingCallId != "" && r.question != ""
      && (|| r.status == Pending
          || r.status == InProgress
          || (r.status == Answered && 1 <= |r.answer| <= 4096 && |r.citations| > 0 && OneSourceEach(r.citations))
          || (r.status in {Timeout, Error} && |r.error| > 0)))
  {
  }

  /** Every citation names a URL or a file, and not both. */
  ghost predicate OneSourceEach(citations: seq<Citation>) {
    forall c :: c in citations ==> (c.url == "" && c.file != "") || (c.url != "" && c.file == "")
  }

  // ----- the bucket and its writers

  datatype Entry = Entry(record: Record, revision: nat)

  datatype Seen = Missing | Found(entry: Entry)

  /** A transition in flight: about to read, or holding what it read. */
  datatype Phase = Reading | Deciding(seen: Seen)

  datatype Writer = Writer(desired: Record, expectedFrom: set<Status>, phase: Phase)

  /** `history` lists the statuses each record has been stored with. */
  datatype State = State(
    bucket: map<Id, Entry>,
    revision: nat,
    writers: map<nat, Writer>,
    history: map<Id, seq<Status>>)

  /** The predecessor sets callers pass: dispatch expects pending, terminal results expect `terminalFrom`. */
  ghost predicate Disciplined(terminalFrom: set<Status>, target: Status, expectedFrom: set<Status>) {
    if target == InProgress then expectedFrom == {Pending}
    else Terminal(target) && expectedFrom == terminalFrom
  }

  /** `Put` of a new pending record. */
  ghost predicate Create(s: State, s': State, r: Record) {
    && IsValid(r) && r.status == Pending && r.id !in s.bucket
    && s' == s.(bucket := s.bucket[r.id := Entry(r, s.revision + 1)], revision := s.revision + 1,
                history := s.history[r.id := [Pending]])
  }

  /** `TransitionStatus` validates the desired record and starts its retry loop. */
  ghost predicate Begin(terminalFrom: set<Status>, s: State, s': State, w: nat, desired: Record,
                        expectedFrom: set<Status>) {
    && w !in s.writers && IsValid(desired) && Disciplined(terminalFrom, desired.status, expectedFrom)
    && s' == s.(writers := s.writers[w := Writer(desired, expectedFrom, Reading)])
  }

  ghost predicate Read(s: State, s': State, w: nat) {
    && w in s.writers && s.writers[w].phase.Reading?
    && var id := s.writers[w].desired.id;
       var seen := if id in s.bucket then Found(s.bucket[id]) else Missing;
       s' == s.(writers := s.writers[w := s.writers[w].(phase := Deciding(seen))])
  }

  /** A missing record or an unexpected status: the writer gives up without writing. */
  ghost predicate Refuse(s: State, s': State, w: nat) {
    && w in s.writers && s.writers[w].phase.Deciding?
    && (s.writers[w].phase.seen.Missing? || s.writers[w].phase.seen.entry.record.status !in s.writers[w].expectedFrom)
    && s' == s.(writers := s.writers - {w})
  }

  /** The writer read an expected status. */
  ghost predicate MayWrite(s: State, w: nat) {
    && w in s.writers && s.writers[w].phase.Deciding? && s.writers[w].phase.seen.Found?
    && s.writers[w].phase.seen.entry.record.status in s.writers[w].expectedFrom
  }

  ghost predicate Current(s: State, w: nat)
    requires MayWrite(s, w)
  {
    var id := s.writers[w].desired.id;
    id in s.bucket && s.bucket[id].revision == s.writers[w].phase.seen.entry.revision
  }

  /** The revision read is still current: the write goes through. */
  ghost predicate Commit(s: State, s': State, w: nat) {
    && MayWrite(s, w) && Current(s, w)
    && var r := s.writers[w].desired;
       && r.id in s.history
       && s' == State(s.bucket[r.id := Entry(r, s.revision + 1)], s.revision + 1, s.writers - {w},
                      s.history[r.id := s.history[r.id] + [r.status]])
  }

  /** The revision moved on: read again. */
  ghost predicate Retry(s: State, s': State, w: nat) {
    && MayWrite(s, w) && !Current(s, w)
    && s' == s.(writers := s.writers[w := s.writers[w].(phase := Reading)])
  }

  /** A writer may stop at any point: retries exhausted, context cancelled, crash. */
  ghost predicate Abandon(s: State, s': State, w: nat) {
    w in s.writers && s' == s.(writers := s.writers - {w})
  }

  ghost predicate WriterStep(s: State, s': State, w: nat) {
    Read(s, s', w) || Refuse(s, s', w) || Commit(s, s', w) || Retry(s, s', w) || Abandon(s, s', w)
  }

  ghost predicate Step(terminalFrom: set<Status>, s: State, s': State) {
    || (exists r :: Create(s, s', r))
    || (exists w, desired, expectedFrom :: Begin(terminalFrom, s, s', w, desired, expectedFrom))
    || (exists w :: WriterStep(s, s', w))
  }

  const EMPTY := State(map[], 0, map[], map[])

  ghost predicate IsRun(terminalFrom: set<Status>, run: seq<State>) {
    |run| > 0 && run[0] == EMPTY && forall i, j :: 0 <= i && i + 1 == j < |run| ==> Step(terminalFrom, run[i], run[j])
  }

  /**
   A writer that has read decides one way only: it refuses a missing record or an
   unexpected status, and otherwise writes if the revision it read is stored still
   and reads again if not.
   */
  lemma DecidesOneWay(s: State, w: nat)
    requires w in s.writers && s.writers[w].phase.Deciding? && forall id :: id in s.bucket ==> id in s.history
    ensures var wr := s.writers[w];
      var expected := wr.phase.seen.Found? && wr.phase.seen.entry.record.status in wr.expectedFrom;
      var still := expected && wr.desired.id in s.bucket &&
        s.bucket[wr.desired.id].revision == wr.phase.seen.entry.revision;
      && ((exists s' :: Refuse(s, s', w)) <==> !expected)
      && ((exists s' :: Commit(s, s', w)) <==> still)
      && ((exists s' :: Retry(s, s', w)) <==> expected && !still)
  {
    var wr := s.writers[w];
    if MayWrite(s, w) {
      if Current(s, w) {
        var r := wr.desired;
        assert Commit(s, State(s.bucket[r.id := Entry(r, s.revision + 1)], s.revision + 1, s.writers - {w},
                               s.history[r.id := s.history[r.id] + [r.status]]), w);
      } else {
        assert Retry(s, s.(writers := s.writers[w := wr.(phase := Reading)]), w);
      }
    } else {
      assert Refuse(s, s.(writers := s.writers - {w}), w);
    }
  }

  /** A write stores what the writer wanted, under a new revision, and touches no other record. */
  lemma CommitStores(s: State, s': State, w: nat, id: Id)
    requires Commit(s, s', w)
    ensures var r := s.writers[w].desired;
      && r.id in s'.bucket && s'.bucket[r.id].record == r && s'.bucket[r.id].revision > s.revision
      && (id != r.id ==> (id in s'.bucket <==> id in s.bucket) && (id in s.bucket ==> s'.bucket[id] == s.bucket[id]))
  {
  }

  // ----- the lifecycle every run follows

  /** Pending, perhaps in progress, perhaps one terminal status, in that order and at most once each. */
  ghost predicate Lifecycle(terminalFrom: set<Status>, h: seq<Status>) {
    || h == [Pending]
    || h == [Pending, InProgress]
    || (|h| == 3 && h[..2] == [Pending, InProgress] && Terminal(h[2]) && InProgress in terminalFrom)
    || (|h| == 2 && h[0] == Pending && Terminal(h[1]) && Pending in terminalFrom)
  }

  /** Stored records are valid and agree with their history. */
  ghost predicate StoredAt(terminalFrom: set<Status>, s: State, id: Id)
    requires id in s.bucket
  {
    var e := s.bucket[id];
    && IsValid(e.record) && e.record.id == id && e.revision <= s.revision
    && id in s.history && Lifecycle(terminalFrom, s.history[id])
    && s.history[id][|s.history[id]| - 1] == e.record.status
  }

  /** What a writer holds was stored, and is still what is stored unless the revision moved on. */
  ghost predicate HoldsAt(terminalFrom: set<Status>, s: State, w: nat)
    requires w in s.writers
  {
    var wr := s.writers[w];
    && IsValid(wr.desired) && Disciplined(terminalFrom, wr.desired.status, wr.expectedFrom)
    && (wr.phase.Deciding? && wr.phase.seen.Found? ==>
        && wr.phase.seen.entry.revision <= s.revision
        && (wr.desired.id in s.bucket && s.bucket[wr.desired.id].revision == wr.phase.seen.entry.revision
            ==> s.bucket[wr.desired.id] == wr.phase.seen.entry))
  }

  ghost predicate Inv(terminalFrom: set<Status>, s: State) {
    && terminalFrom <= {Pending, InProgress}
    && (forall id :: id in s.bucket ==> StoredAt(terminalFrom, s, id))
    && (forall w :: w in s.writers ==> HoldsAt(terminalFrom, s, w))
  }

  lemma CreateKeeps(terminalFrom: set<Status>, s: State, s': State, r: Record)
    requires Inv(terminalFrom, s) && Create(s, s', r)
    ensures Inv(terminalFrom, s')
  {
    forall id | id in s'.bucket ensures StoredAt(terminalFrom, s', id) {
      if id != r.id {
        assert StoredAt(terminalFrom, s, id);
      }
    }
    forall w | w in s'.writers ensures HoldsAt(terminalFrom, s', w) {
      assert HoldsAt(terminalFrom, s, w);
    }
  }

  /** Only a live status is ever replaced, and only by a successor. */
  lemma CommitExtends(terminalFrom: set<Status>, s: State, w: nat)
    requires Inv(terminalFrom, s) && MayWrite(s, w) && Current(s, w)
    ensures var r := s.writers[w].desired;
      && r.id in s.bucket && r.id in s.history && !Terminal(s.bucket[r.id].record.status)
      && Lifecycle(terminalFrom, s.history[r.id] + [r.status])
  {
    var r := s.writers[w].desired;
    assert HoldsAt(terminalFrom, s, w) && StoredAt(terminalFrom, s, r.id);
  }

  lemma CommitKeeps(terminalFrom: set<Status>, s: State, s': State, w: nat)
    requires Inv(terminalFrom, s) && Commit(s, s', w)
    ensures Inv(terminalFrom, s')
  {
    var r := s.writers[w].desired;
    CommitExtends(terminalFrom, s, w);
    assert HoldsAt(terminalFrom, s, w);
    forall id | id in s'.bucket ensures StoredAt(terminalFrom, s', id) {
      if id != r.id {
        assert StoredAt(terminalFrom, s, id);
      }
    }
    forall v | v in s'.writers ensures HoldsAt(terminalFrom, s', v) {
      assert HoldsAt(terminalFrom, s, v);
    }
  }

  /** Reading, refusing, retrying and giving up leave the bucket alone. */
  lemma QuietKeeps(terminalFrom: set<Status>, s: State, s': State, w: nat)
    requires Inv(terminalFrom, s) && (Read(s, s', w) || Refuse(s, s', w) || Retry(s, s', w) || Abandon(s, s', w))
    ensures Inv(terminalFrom, s') && s'.bucket == s.bucket && s'.history == s.history
  {
    forall id | id in s'.bucket ensures StoredAt(terminalFrom, s', id) {
      assert StoredAt(terminalFrom, s, id);
    }
    forall v | v in s'.writers ensures HoldsAt(terminalFrom, s', v) {
      assert HoldsAt(terminalFrom, s, v);
      if s'.writers[v].phase.Deciding? && s'.writers[v].desired.id in s.bucket {
        assert StoredAt(terminalFrom, s, s'.writers[v].desired.id);
      }
    }
  }

  lemma BeginKeeps(terminalFrom: set<Status>, s: State, s': State, w: nat, desired: Record, expectedFrom: set<Status>)
    requires Inv(terminalFrom, s) && Begin(terminalFrom, s, s', w, desired, expectedFrom)
    ensures Inv(terminalFrom, s')
  {
    forall id | id in s'.bucket ensures StoredAt(terminalFrom, s', id) {
      assert StoredAt(terminalFrom, s, id);
    }
    forall v | v in s'.writers ensures HoldsAt(terminalFrom, s', v) {
      assert v != w ==> HoldsAt(terminalFrom, s, v);
    }
  }

  lemma StepKeeps(terminalFrom: set<Status>, s: State, s': State)
    requires Inv(terminalFrom, s) && Step(terminalFrom, s, s')
    ensures Inv(terminalFrom, s')
  {
    if r :| Create(s, s', r) {
      CreateKeeps(terminalFrom, s, s', r);
    } else if w, desired, expectedFrom :| Begin(terminalFrom, s, s', w, desired, expectedFrom) {
      BeginKeeps(terminalFrom, s, s', w, desired, expectedFrom);
    } else {
      var w :| WriterStep(s, s', w);
      if Commit(s, s', w) {
        CommitKeeps(terminalFrom, s, s', w);
      } else {
        QuietKeeps(terminalFrom, s, s', w);
      }
    }
  }

  lemma {:induction false} RunKeeps(terminalFrom: set<Status>, run: seq<State>, k: nat)
    requires terminalFrom <= {Pending, InProgress} && IsRun(terminalFrom, run) && k < |run|
    ensures Inv(terminalFrom, run[k])
    decreases k
  {
    if k > 0 {
      var j := k - 1;
      RunKeeps(terminalFrom, run, j);
      StepKeeps(terminalFrom, run[j], run[k]);
    }
  }

  /** In every run every stored record is valid and its status history is a lifecycle path. */
  lemma HistoriesAreLifecycles(terminalFrom: set<Status>, run: seq<State>, k: nat, id: Id)
    requires terminalFrom <= {Pending, InProgress} && IsRun(terminalFrom, run) && k < |run| && id in run[k].bucket
    ensures IsValid(run[k].bucket[id].record)
    ensures id in run[k].history && Lifecycle(terminalFrom, run[k].history[id])
    ensures run[k].history[id][|run[k].history[id]| - 1] == run[k].bucket[id].record.status
  {
    RunKeeps(terminalFrom, run, k);
    assert StoredAt(terminalFrom, run[k], id);
  }

  /** A step never touches a record in a terminal status. */
  lemma TerminalUntouched(terminalFrom: set<Status>, s: State, s': State, id: Id)
    requires Inv(terminalFrom, s) && Step(terminalFrom, s, s')
    requires id in s.bucket && Terminal(s.bucket[id].record.status)
    ensures id in s'.bucket && s'.bucket[id] == s.bucket[id]
  {
    if w :| Commit(s, s', w) {
      CommitExtends(terminalFrom, s, w);
    }
  }

  /** Once terminal, a record stays as it is to the end of the run. */
  lemma {:induction false} TerminalForever(terminalFrom: set<Status>, run: seq<State>, j: nat, k: nat, id: Id)
    requires terminalFrom <= {Pending, InProgress} && IsRun(terminalFrom, run) && j <= k < |run|
    requires id in run[j].bucket && Terminal(run[j].bucket[id].record.status)
    ensures id in run[k].bucket && run[k].bucket[id] == run[j].bucket[id]
    decreases k
  {
    if j < k {
      var before := k - 1;
      TerminalForever(terminalFrom, run, j, before, id);
      RunKeeps(terminalFrom, run, before);
      TerminalUntouched(terminalFrom, run[before], run[k], id);
    }
  }

  // ----- the documented path

  /** Pending, then in progress, then terminal: no terminal status straight from pending. */
  ghost predicate Documented(h: seq<Status>) {
    |h| >= 2 ==> h[0] == Pending && h[1] == InProgress
  }

  ghost predicate ReachesHistory(terminalFrom: set<Status>, run: seq<State>, id: Id, h: seq<Status>) {
    && IsRun(terminalFrom, run) && id in run[|run| - 1].bucket
    && id in run[|run| - 1].history && run[|run| - 1].history[id] == h
  }

  ghost predicate AlwaysDocumented(terminalFrom: set<Status>) {
    forall run, id, h :: ReachesHistory(terminalFrom, run, id, h) ==> Documented(h)
  }

  const ASKED := Record("q", "loop", "call", "why", Pending, [], [], "")
  const GIVEN := ASKED.(status := Answered, answer := [1], citations := [Citation("u", "")])

  /** An answer that overtakes the dispatch: pending straight to answered. */
  lemma OvertakingRun(terminalFrom: set<Status>) returns (run: seq<State>)
    requires Pending in terminalFrom
    ensures ReachesHistory(terminalFrom, run, "q", [Pending, Answered])
  {
    var e0, e1 := Entry(ASKED, 1), Entry(GIVEN, 2);
    var reading := Writer(GIVEN, terminalFrom, Reading);
    var holding := reading.(phase := Deciding(Found(e0)));
    var s0 := EMPTY;
    var s1 := State(map["q" := e0], 1, map[], map["q" := [Pending]]);
    var s2 := s1.(writers := map[0 := reading]);
    var s3 := s1.(writers := map[0 := holding]);
    var s4 := State(map["q" := e1], 2, map[], map["q" := [Pending, Answered]]);
    assert Create(s0, s1, ASKED);
    assert Begin(terminalFrom, s1, s2, 0, GIVEN, terminalFrom);
    assert Read(s2, s3, 0) && WriterStep(s2, s3, 0);
    assert [Pending] + [Answered] == [Pending, Answered];
    assert s3.writers - {0} == map[];
    assert Commit(s3, s4, 0) && WriterStep(s3, s4, 0);
    run := [s0, s1, s2, s3, s4];
  }

  /**
   The documented path holds in every run exactly when no caller of a terminal
   transition accepts pending as predecessor. The callers that answer and fail
   records do accept it, so their runs may skip in_progress.
   */
  lemma DocumentedIffNotFromPending(terminalFrom: set<Status>)
    requires terminalFrom <= {Pending, InProgress}
    ensures AlwaysDocumented(terminalFrom) <==> Pending !in terminalFrom
  {
    if Pending in terminalFrom {
      var run := OvertakingRun(terminalFrom);
      assert !Documented([Pending, Answered]);
    } else {
      forall run, id, h | ReachesHistory(terminalFrom, run, id, h) ensures Documented(h) {
        HistoriesAreLifecycles(terminalFrom, run, |run| - 1, id);
      }
    }
  }
}
