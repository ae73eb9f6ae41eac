/** The laws of one branch's ledger, carried over to every interleaving of every process. */
module ConcurrentLedger {
  import opened Findings
  import opened Aging
  import opened LedgerRuns
  import opened Baselines
  import opened BranchRuns
  import opened Protocol
  import opened Serializability

  /** Start from an empty store and let any processes scan and recapture any branches in any interleaving:
      whenever no commit is in progress, what is on disk for a branch is the aging of the scans committed for
      it since it was last absent, and its ledger balances over exactly those scans. */
  lemma EveryInterleavingBalances(states: seq<State>, steps: seq<Step>, n: nat, b: Branch, absent: nat, home: Key -> Pillar)
    requires IsRun(states, steps) && n < |states| && states[n].lock.None? && states[n].start == map[]
    requires Homed(OwnScans(states[n].writes, b), home)
    requires LastAbsent(states[n].writes, b, absent)
    ensures var own := OwnScans(states[n].writes[absent..], b);
            && b in ViewOf(states[n].disk)
            && ViewOf(states[n].disk)[b].data == After(NO_DATA, own)
            && TotalResolved(own) == TotalReintroduced(own) + |ViewOf(states[n].disk)[b].data.history| + TotalExpired(own)
  {
    var writes := states[n].writes;
    Serializable(states, steps, n);
    BranchesDoNotInterfere(writes, b, absent);
    OwnScansSuffix(writes, b, absent);
    LedgerBalances(OwnScans(writes[absent..], b), home);
  }

  lemma {:induction false} OwnScansSuffix(writes: seq<Write>, b: Branch, from: nat)
    requires from <= |writes|
    ensures forall s | s in OwnScans(writes[from..], b) :: s in OwnScans(writes, b)
  {
    if from < |writes| {
      var n := |writes| - 1;
      assert writes[from..][..n - from] == writes[..n][from..];
      OwnScansSuffix(writes[..n], b, from);
    }
  }
}
