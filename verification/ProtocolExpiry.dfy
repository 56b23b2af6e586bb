/** Expiry under arbitrary interleaving: the clock never goes back, so a rejection is final. */
module ProtocolExpiry {
  import opened Wrappers
  import opened Requests
  import opened RequestDb
  import opened FriendRows
  import opened Protocol
  import opened ProtocolInvariant
  import opened ProtocolSteps
  import opened ProtocolConsent
  import opened ProtocolHash

  ghost predicate TimesOk(s: State) {
    && (forall e | e in s.log && Timed(e) :: e.at <= s.now)
    && (forall i, j | 0 <= i < j < |s.log| && Timed(s.log[i]) && Timed(s.log[j]) :: s.log[i].at <= s.log[j].at)
  }

  lemma TimesStep(c: Config, s: State, l: Label)
    requires TimesOk(s) && Next(c, s, l).Some?
    ensures TimesOk(Next(c, s, l).value)
  {
    var t := Next(c, s, l).value;
    StepShape(c, s, l);
    TimesAppend(c, s, l, t);
  }

  lemma TimesAppend(c: Config, s: State, l: Label, t: State)
    requires TimesOk(s) && Shape(c, s, l, t)
    ensures TimesOk(t)
  {
    assert t.log == s.log ||
           (t.log == s.log + [t.log[|s.log|]] && (Timed(t.log[|s.log|]) ==> t.log[|s.log|].at == t.now));
  }

  lemma {:induction false} TimesPlay(c: Config, s: State, labels: seq<Label>)
    requires TimesOk(s) && Play(c, s, labels).Some?
    ensures TimesOk(Play(c, s, labels).value)
    decreases |labels|
  {
    if labels != [] {
      TimesStep(c, s, labels[0]);
      TimesPlay(c, Next(c, s, labels[0]).value, labels[1..]);
    }
  }

  lemma RejectedWasHashed(c: Config, log: seq<Event>, i: nat)
    requires JustifiedLog(c, log) && i < |log| && log[i].Rejected?
    ensures WasHashed(log, log[i].slot, log[i].request) && log[i].request.expire < log[i].at
  {
    assert Justified(c, log[..i], log[i]);
    var status :| Read(log[i].pid, log[i].slot, status, log[i].request) in log[..i];
    ReadWasHashed(c, log, Read(log[i].pid, log[i].slot, status, log[i].request));
  }

  lemma PassedWasHashed(c: Config, log: seq<Event>, j: nat)
    requires JustifiedLog(c, log) && j < |log| && log[j].Passed?
    ensures WasHashed(log, log[j].slot, log[j].request) && log[j].at <= log[j].request.expire
  {
    assert Justified(c, log[..j], log[j]);
    ReadWasHashed(c, log, Read(log[j].pid, log[j].slot, log[j].status, log[j].request));
  }

  lemma AdmittedWasHashed(c: Config, log: seq<Event>, j: nat)
    requires JustifiedLog(c, log) && j < |log| && log[j].Admitted?
    ensures WasHashed(log, RequestSlot(log[j].request), log[j].request) && log[j].at <= log[j].request.expire
  {
    assert Justified(c, log[..j], log[j]);
    assert log[..|log|] == log;
    assert log[j] in log;
    var q, _, _, hashed, _, _, _ := TraceBack(c, log, |log|, log[j].pid, log[j].request);
    assert log[hashed] in log;
  }

  lemma ReachableTimes(c: Config, s: State)
    requires Reachable(c, s)
    ensures TimesOk(s)
  {
    var labels :| Play(c, Init(c), labels) == Some(s);
    TimesPlay(c, Init(c), labels);
  }

  /** Once a call rejects a request as expired, no later call passes it on and no later accept admits it. */
  lemma ExpiryIsFinal(c: Config, s: State, i: nat, j: nat)
    requires Reachable(c, s) && HashedOnce(s.log) && i < j < |s.log| && s.log[i].Rejected?
    ensures s.log[j].Passed? ==> s.log[j].slot != s.log[i].slot
    ensures s.log[j].Admitted? ==> RequestSlot(s.log[j].request) != s.log[i].slot
  {
    ReachableLog(c, s);
    ReachableTimes(c, s);
    RejectedWasHashed(c, s.log, i);
    if s.log[j].Passed? && s.log[j].slot == s.log[i].slot {
      PassedWasHashed(c, s.log, j);
      HashedOnceSame(s.log, s.log[i].slot, s.log[i].request, s.log[j].request);
      assert false;
    }
    if s.log[j].Admitted? && RequestSlot(s.log[j].request) == s.log[i].slot {
      AdmittedWasHashed(c, s.log, j);
      HashedOnceSame(s.log, s.log[i].slot, s.log[i].request, s.log[j].request);
      assert false;
    }
  }

  /** So an accept that commits a rejected request had been admitted before the rejection. */
  lemma CommitAdmittedBeforeRejection(c: Config, s: State, i: nat, k: nat) returns (admitted: nat)
    requires Reachable(c, s) && HashedOnce(s.log) && i < |s.log| && k < |s.log|
    requires s.log[i].Rejected? && s.log[k].Committed? && RequestSlot(s.log[k].request) == s.log[i].slot
    ensures admitted < i && admitted < k
    ensures s.log[admitted].Admitted? && s.log[admitted].pid == s.log[k].pid
  {
    ReachableLog(c, s);
    assert Justified(c, s.log[..k], s.log[k]);
    var q, _, _, _, _, _, d := TraceBack(c, s.log, k, s.log[k].pid, s.log[k].request);
    admitted := d;
    if i < d { ExpiryIsFinal(c, s, i, d); }
  }
}
