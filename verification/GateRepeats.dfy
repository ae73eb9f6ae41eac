/** What the gate keeps for repeat suppression: per branch, what suppression answered at the scope's last visit there. */
module GateRepeats {
  import opened Options
  import opened Findings
  import opened GateReport
  import opened Gate
  import opened EdgeMemory
  import opened ScopeRuns
  import opened GateRuns

  /** What suppression makes of one visit: its new memory, the report it leaves, and how many findings it defers. */
  datatype Answered = Answered(memory: RepeatState, report: Report, deferred: nat)

  /** The last of the first `n` visits on a branch. */
  function LastOn(epoch: seq<Visit>, n: nat, branch: string): (last: Option<nat>)
    requires n <= |epoch|
    ensures last.Some? ==> last.value < n && epoch[last.value].branch == branch
    ensures forall i | 0 <= i < n && (last.Some? ==> last.value < i) :: epoch[i].branch != branch
  {
    if n == 0 then None else if epoch[n - 1].branch == branch then Some(n - 1) else LastOn(epoch, n - 1, branch)
  }

  /** Reported before visit `n`, and found by every visit from then on. */
  ghost predicate StillOpen(epoch: seq<Visit>, answers: seq<Answered>, n: nat, k: Key)
    requires n <= |epoch| && n <= |answers|
  {
    exists i :: OpenSince(epoch, answers, i, n, k)
  }

  ghost predicate OpenSince(epoch: seq<Visit>, answers: seq<Answered>, i: nat, n: nat, k: Key)
    requires n <= |epoch| && n <= |answers|
  {
    i < n && k in Identities(answers[i].report) && forall j | i <= j < n :: k in Found(epoch[j])
  }

  ghost function Open(epoch: seq<Visit>, answers: seq<Answered>, n: nat): set<Key>
    requires n < |epoch| && n <= |answers|
  {
    set k | k in Found(epoch[n]) && StillOpen(epoch, answers, n, k)
  }

  /** The answer of the last visit on the same branch, or none. */
  function Handed(epoch: seq<Visit>, answers: seq<Answered>, n: nat): RepeatState
    requires n < |epoch| && n <= |answers|
  {
    match LastOn(epoch, n, epoch[n].branch)
    case None => NO_REPEATS
    case Some(i) => answers[i].memory
  }

  /** Visit `n` is answered by suppression from its answer of the last visit on that branch, the report without what is
      still open, the limit and the time. */
  ghost predicate AnsweredAt(epoch: seq<Visit>, answers: seq<Answered>, n: nat, suppress: Suppress)
    requires n < |epoch| && n < |answers|
  {
    var v := epoch[n];
    (answers[n].memory, answers[n].report, answers[n].deferred) ==
    suppress(Handed(epoch, answers, n), UnseenReport(v.report, Open(epoch, answers, n)), v.limit, v.now)
  }

  ghost predicate AllAnswered(epoch: seq<Visit>, answers: seq<Answered>, suppress: Suppress) {
    |answers| == |epoch| && forall n | 0 <= n < |epoch| :: AnsweredAt(epoch, answers, n, suppress)
  }

  // ---------------------------------------------------------------- one epoch

  lemma {:induction false} LastOnPrefix(epoch: seq<Visit>, v: Visit, n: nat, branch: string)
    requires n <= |epoch|
    ensures LastOn(epoch + [v], n, branch) == LastOn(epoch, n, branch)
  {
    if n > 0 {
      LastOnPrefix(epoch, v, n - 1, branch);
    }
  }

  lemma OpenPrefix(epoch: seq<Visit>, v: Visit, answers: seq<Answered>, a: Answered, n: nat, k: Key)
    requires n <= |epoch| == |answers|
    ensures StillOpen(epoch + [v], answers + [a], n, k) == StillOpen(epoch, answers, n, k)
  {
    assert forall i | 0 <= i < n :: (epoch + [v])[i] == epoch[i] && (answers + [a])[i] == answers[i];
    forall i: nat ensures OpenSince(epoch + [v], answers + [a], i, n, k) == OpenSince(epoch, answers, i, n, k) {
    }
  }

  lemma AnsweredPrefix(epoch: seq<Visit>, v: Visit, answers: seq<Answered>, a: Answered, n: nat, suppress: Suppress)
    requires n < |epoch| == |answers| && AnsweredAt(epoch, answers, n, suppress)
    ensures AnsweredAt(epoch + [v], answers + [a], n, suppress)
  {
    LastOnPrefix(epoch, v, n, epoch[n].branch);
    forall k ensures StillOpen(epoch + [v], answers + [a], n, k) == StillOpen(epoch, answers, n, k) {
      OpenPrefix(epoch, v, answers, a, n, k);
    }
    assert Open(epoch + [v], answers + [a], n) == Open(epoch, answers, n);
  }

  /** What the scope's memory and replies say about the answers given so far. */
  ghost predicate Kept(epoch: seq<Visit>, answers: seq<Answered>, repeats: map<string, RepeatState>) {
    && |answers| == |epoch|
    && forall b :: if LastOn(epoch, |epoch|, b).Some? then b in repeats && repeats[b] == answers[LastOn(epoch, |epoch|, b).value].memory
                   else b !in repeats
  }

  ghost predicate Reported(epoch: seq<Visit>, answers: seq<Answered>, stops: seq<Stop>) {
    && |answers| == |epoch| == |stops|
    && forall i | 0 <= i < |epoch| :: stops[i] == Stop(Found(epoch[i]), Identities(answers[i].report))
  }

  lemma BlockedIsOpen(epoch: seq<Visit>, answers: seq<Answered>, stops: seq<Stop>, k: Key)
    requires Reported(epoch, answers, stops) && ReportsUnblocked(stops)
    ensures k in Blocked(stops, |stops|) <==> StillOpen(epoch, answers, |epoch|, k)
  {
    var n := |stops|;
    BlockedExactly(stops, k, n);
    forall i: nat ensures ReportedSince(stops, k, i, n) <==> OpenSince(epoch, answers, i, n, k) {
      SinceThen(epoch, answers, stops, i, n, k);
    }
    if EverReportedSince(stops, k, n) {
      var i: nat :| ReportedSince(stops, k, i, n);
      assert OpenSince(epoch, answers, i, n, k);
    }
    if StillOpen(epoch, answers, n, k) {
      var i: nat :| OpenSince(epoch, answers, i, n, k);
      assert ReportedSince(stops, k, i, n);
    }
  }

  lemma SinceThen(epoch: seq<Visit>, answers: seq<Answered>, stops: seq<Stop>, i: nat, n: nat, k: Key)
    requires Reported(epoch, answers, stops) && n == |stops|
    ensures ReportedSince(stops, k, i, n) <==> OpenSince(epoch, answers, i, n, k)
  {
    if i < n {
      assert stops[i] == Stop(Found(epoch[i]), Identities(answers[i].report));
    }
    if ReportedSince(stops, k, i, n) {
      forall j | i <= j < n ensures k in Found(epoch[j]) {
        assert k in stops[j].current;
      }
    }
  }

  lemma OpenIsUnseen(epoch: seq<Visit>, v: Visit, answers: seq<Answered>, a: Answered, stops: seq<Stop>)
    requires Reported(epoch, answers, stops) && ReportsUnblocked(stops)
    ensures UnseenReport(v.report, Open(epoch + [v], answers + [a], |epoch|)) == UnseenReport(v.report, Blocked(stops, |stops|))
  {
    forall k ensures StillOpen(epoch + [v], answers + [a], |epoch|, k) <==> k in Blocked(stops, |stops|) {
      OpenPrefix(epoch, v, answers, a, |epoch|, k);
      BlockedIsOpen(epoch, answers, stops, k);
    }
    assert Open(epoch + [v], answers + [a], |epoch|) == Blocked(stops, |stops|) * Identities(v.report);
    UnseenOfCurrent(v.report, Blocked(stops, |stops|));
  }

  lemma HandedIsKept(epoch: seq<Visit>, v: Visit, answers: seq<Answered>, a: Answered, repeats: map<string, RepeatState>)
    requires Kept(epoch, answers, repeats)
    ensures Handed(epoch + [v], answers + [a], |epoch|) == if v.branch in repeats then repeats[v.branch] else NO_REPEATS
    ensures Kept(epoch + [v], answers + [a], repeats[v.branch := a.memory])
  {
    forall b ensures LastOn(epoch + [v], |epoch|, b) == LastOn(epoch, |epoch|, b) {
      LastOnPrefix(epoch, v, |epoch|, b);
    }
  }

  /** One triage, on the answers. */
  lemma TriageAnswers(m: Memory, epoch: seq<Visit>, v: Visit, answers: seq<Answered>, stops: seq<Stop>, suppress: Suppress)
    returns (a: Answered)
    requires Reported(epoch, answers, stops) && ReportsUnblocked(stops)
    requires Kept(epoch, answers, m.repeats) && m.blocked == Blocked(stops, |stops|)
    ensures var (m', reply) := Triaged(m, v, suppress);
            && AnsweredAt(epoch + [v], answers + [a], |epoch|, suppress) && Kept(epoch + [v], answers + [a], m'.repeats)
            && reply.report == a.report && reply.deferred == a.deferred
  {
    var (memory, report, deferred) :=
      suppress(if v.branch in m.repeats then m.repeats[v.branch] else NO_REPEATS, UnseenReport(v.report, m.blocked), v.limit, v.now);
    a := Answered(memory, report, deferred);
    HandedIsKept(epoch, v, answers, a, m.repeats);
    OpenIsUnseen(epoch, v, answers, a, stops);
  }

  lemma AllAnsweredSnoc(epoch: seq<Visit>, v: Visit, answers: seq<Answered>, a: Answered, suppress: Suppress)
    requires AllAnswered(epoch, answers, suppress) && AnsweredAt(epoch + [v], answers + [a], |epoch|, suppress)
    ensures AllAnswered(epoch + [v], answers + [a], suppress)
  {
    forall n | 0 <= n < |epoch| ensures AnsweredAt(epoch + [v], answers + [a], n, suppress) {
      AnsweredPrefix(epoch, v, answers, a, n, suppress);
    }
  }

  /** The answers so far fit what the scope holds and has reported. */
  ghost predicate Fit(epoch: seq<Visit>, answers: seq<Answered>, suppress: Suppress) {
    && AllAnswered(epoch, answers, suppress) && Kept(epoch, answers, Solo(epoch, TriageWith(suppress)).repeats)
    && Reported(epoch, answers, Stops(epoch, suppress))
  }

  lemma FitNext(before: seq<Visit>, v: Visit, answers: seq<Answered>, suppress: Suppress) returns (a: Answered)
    requires OnlyDrops(suppress) && Fit(before, answers, suppress)
    ensures Fit(before + [v], answers + [a], suppress)
    ensures var reply := SoloReply(before + [v], suppress); reply.report == a.report && reply.deferred == a.deferred
  {
    var m := Solo(before, TriageWith(suppress)).(updated := v.now);
    TriageIsEdgeMemory(before, suppress);
    a := TriageAnswers(m, before, v, answers, Stops(before, suppress), suppress);
    SoloSnoc(before, v, TriageWith(suppress));
    AllAnsweredSnoc(before, v, answers, a, suppress);
    ReportedSnoc(before, v, answers, a, suppress);
  }

  lemma ReportedSnoc(before: seq<Visit>, v: Visit, answers: seq<Answered>, a: Answered, suppress: Suppress)
    requires Reported(before, answers, Stops(before, suppress)) && SoloReply(before + [v], suppress).report == a.report
    ensures Reported(before + [v], answers + [a], Stops(before + [v], suppress))
  {
    assert (before + [v])[..|before|] == before;
  }

  lemma {:induction false} EpochAnswers(epoch: seq<Visit>, suppress: Suppress) returns (answers: seq<Answered>)
    requires OnlyDrops(suppress)
    ensures Fit(epoch, answers, suppress)
    ensures epoch != [] ==> var reply, last := SoloReply(epoch, suppress), answers[|epoch| - 1];
                            reply.report == last.report && reply.deferred == last.deferred
  {
    if epoch == [] {
      answers := [];
    } else {
      var before, v := epoch[..|epoch| - 1], epoch[|epoch| - 1];
      assert epoch == before + [v];
      var most := EpochAnswers(before, suppress);
      var a := FitNext(before, v, most, suppress);
      answers := most + [a];
    }
  }

  // ---------------------------------------------------------------- all scopes

  /** Over all scopes and expiries, a visit's report and what it defers are suppression's answer to what it answered at
      the scope's last visit on that branch since the scope restarted, to the report without what is still open, the
      visit's limit and its time. */
  lemma GateSuppressesRepeats(visits: seq<Visit>, n: nat, suppress: Suppress) returns (answers: seq<Answered>)
    requires n < |visits| && ClockNeverGoesBack(visits) && OnlyDrops(suppress)
    ensures AllAnswered(Remembered(visits, n), answers, suppress)
    ensures var reply := Answer(visits, n, TriageWith(suppress));
            reply.report == answers[|answers| - 1].report && reply.deferred == answers[|answers| - 1].deferred
  {
    ScopeIsolation(visits, n, TriageWith(suppress));
    answers := EpochAnswers(Remembered(visits, n), suppress);
  }
}
