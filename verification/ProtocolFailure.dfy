/** What an accept that has failed takes with it: an exact condition on the state. */
module ProtocolFailure {
  import opened Wrappers
  import opened Requests
  import opened RequestDb
  import opened FriendRows
  import opened Protocol
  import opened ProtocolInvariant
  import opened ProtocolSteps
  import opened ProtocolConsent
  import opened ProtocolHash
  import opened ProtocolKeys
  import opened ProtocolSerial

  /** A removal asked for by p found the request stored, and took it away. */
  ghost predicate Took(log: seq<Event>, p: Pid, request: Request) {
    exists k :: 0 <= k < |log| && log[k] == Removed(p, RequestSlot(request))
                && LastStored(log[..k], RequestSlot(request)) == Some(request)
  }

  lemma TookAppend(log: seq<Event>, e: Event, p: Pid, request: Request)
    ensures Took(log + [e], p, request) <==>
            || Took(log, p, request)
            || (e == Removed(p, RequestSlot(request)) && LastStored(log, RequestSlot(request)) == Some(request))
  {
    var longer, slot := log + [e], RequestSlot(request);
    assert longer[..|log|] == log;
    if Took(log, p, request) {
      var k :| 0 <= k < |log| && log[k] == Removed(p, slot) && LastStored(log[..k], slot) == Some(request);
      assert longer[..k] == log[..k] && longer[k] == log[k];
    }
    if k :| 0 <= k < |longer| && longer[k] == Removed(p, slot) && LastStored(longer[..k], slot) == Some(request) {
      if k < |log| {
        assert longer[..k] == log[..k] && log[k] == longer[k];
      }
    }
  }

  predicate Quit(p: Proc) {
    p.AccAbort? || p.Failed?
  }

  /** The removal is sent, can be executed, and the request is there. */
  ghost predicate AboutToTake(s: State, p: Pid, request: Request) {
    && p in s.mail && s.mail[p].Pending? && s.db.HashFree(request.recive)
    && s.db.Hget(RequestSlot(request)) == Some(Stored(request))
  }

  ghost predicate Takes(c: Config, s: State, labels: seq<Label>, p: Pid, request: Request) {
    var t := Play(c, s, labels);
    t.Some? && HashedOnce(t.value.log) && Took(t.value.log, p, request)
  }

  /** A process is admitted for one request only, so a removal it asks for is of that request. */
  lemma OneAdmission(c: Config, log: seq<Event>, p: Pid, r1: Request, r2: Request)
    requires JustifiedLog(c, log) && RanksRise(log) && WasAdmitted(log, p, r1) && WasAdmitted(log, p, r2)
    ensures r1 == r2
  {
    var at1 :| Admitted(p, r1, at1) in log;
    var at2 :| Admitted(p, r2, at2) in log;
    assert log[..|log|] == log;
    var i := Earlier(c, log, |log|, Admitted(p, r1, at1));
    var j := Earlier(c, log, |log|, Admitted(p, r2, at2));
    SameRankSameEvent(log, i, j);
  }

  lemma RemovesItsOwn(c: Config, s: State, p: Pid, request: Request)
    requires Inv(c, s) && WasAdmitted(s.log, p, request) && p in s.mail && s.mail[p].Pending?
    ensures s.mail[p].slot == RequestSlot(request)
  {
    assert MailOk(s.log, p, s.mail[p]);
    var other :| WasAdmitted(s.log, p, other) && s.mail[p].slot == RequestSlot(other);
    OneAdmission(c, s.log, p, request, other);
  }

  lemma AdmittedHashed(c: Config, log: seq<Event>, p: Pid, request: Request)
    requires JustifiedLog(c, log) && WasAdmitted(log, p, request)
    ensures WasHashed(log, RequestSlot(request), request)
  {
    assert log[..|log|] == log;
    var q, _, _, hashed, _, _, _ := TraceBack(c, log, |log|, p, request);
    assert log[hashed] in log;
  }

  /** It has failed, has taken nothing, and is not about to. */
  ghost predicate Spent(s: State, p: Pid, request: Request) {
    && p in s.procs && Quit(s.procs[p]) && WasAdmitted(s.log, p, request)
    && !Took(s.log, p, request) && !AboutToTake(s, p, request)
  }

  lemma QuitRuns(c: Config, s: State, l: Label)
    requires l.Run? && Next(c, s, l).Some? && l.pid in s.procs && Quit(s.procs[l.pid])
    ensures Quit(Next(c, s, l).value.procs[l.pid]) && Next(c, s, l).value.mail == s.mail
  {
    assert Act(c, s, l.pid, l.digest) == ActAccept(c, s, l.pid);
  }

  lemma QuitWaits(c: Config, s: State, l: Label, p: Pid)
    requires p in s.procs && Quit(s.procs[p]) && Next(c, s, l).Some? && !(l.Run? && l.pid == p)
    ensures var t := Next(c, s, l).value;
            && p in t.procs && t.procs[p] == s.procs[p]
            && (p in t.mail && t.mail[p].Pending? ==> p in s.mail && s.mail[p] == t.mail[p])
  {
  }

  /** A process that has failed sends nothing any more. */
  lemma QuitStays(c: Config, s: State, l: Label, p: Pid)
    requires p in s.procs && Quit(s.procs[p]) && Next(c, s, l).Some?
    ensures var t := Next(c, s, l).value;
            && p in t.procs && Quit(t.procs[p])
            && (p in t.mail && t.mail[p].Pending? ==> p in s.mail && s.mail[p] == t.mail[p])
  {
    if l.Run? && l.pid == p { QuitRuns(c, s, l); } else { QuitWaits(c, s, l, p); }
  }

  /** What was stored once and is not there does not come back. */
  lemma NotLiveAgain(c: Config, s: State, l: Label, t: State, slot: Slot, request: Request)
    requires WasHashed(s.log, slot, request) && Shape(c, s, l, t) && HashedOnce(t.log) && Live(t, slot, request)
    ensures Live(s, slot, request)
  {
    if Doing(s, l).AddHset? {
      FirstHashed(s.log, Hashed(l.pid, SlotOf(Doing(s, l).request, c.worker, l.digest), Doing(s, l).request));
    }
  }

  /** Only the handler of a removal says so. */
  lemma RemovedSaid(c: Config, s: State, l: Label, t: State, p: Pid, slot: Slot)
    requires Shape(c, s, l, t) && t.log == s.log + [Removed(p, slot)]
    ensures l.HandleRemove? && l.pid == p && p in s.mail && s.mail[p] == Pending(slot)
  {
    assert t.log[|s.log|] == Removed(p, slot);
  }

  lemma StillTookNothing(c: Config, s: State, l: Label, t: State, p: Pid, request: Request)
    requires Inv(c, s) && StoresLast(s) && Spent(s, p, request)
    requires Shape(c, s, l, t) && Next(c, s, l) == Some(t)
    ensures !Took(t.log, p, request)
  {
    if t.log != s.log {
      var e := t.log[|s.log|];
      assert t.log == s.log + [e];
      TookAppend(s.log, e, p, request);
      if e == Removed(p, RequestSlot(request)) {
        RemovedSaid(c, s, l, t, p, RequestSlot(request));
        StepFits(c, s, l);
        assert !Live(s, RequestSlot(request), request);
      }
    }
  }

  lemma SpentStep(c: Config, s: State, l: Label, p: Pid, request: Request)
    requires Inv(c, s) && StoresLast(s) && Spent(s, p, request)
    requires Next(c, s, l).Some? && HashedOnce(Next(c, s, l).value.log)
    ensures Spent(Next(c, s, l).value, p, request)
  {
    var t := Next(c, s, l).value;
    StepShape(c, s, l);
    StillTookNothing(c, s, l, t, p, request);
    QuitStays(c, s, l, p);
    AdmittedStays(c, s, l, p, request);
    if AboutToTake(t, p, request) {
      IndexStays(c, s, l, t, request.recive);
      AdmittedHashed(c, s.log, p, request);
      NotLiveAgain(c, s, l, t, RequestSlot(request), request);
      assert false;
    }
  }

  lemma AdmittedStays(c: Config, s: State, l: Label, p: Pid, request: Request)
    requires WasAdmitted(s.log, p, request) && Next(c, s, l).Some?
    ensures WasAdmitted(Next(c, s, l).value.log, p, request)
  {
    LogGrows(c, s, l);
    var at :| Admitted(p, request, at) in s.log;
    assert Admitted(p, request, at) in Next(c, s, l).value.log;
  }

  lemma {:induction false} SpentPlay(c: Config, s: State, labels: seq<Label>, p: Pid, request: Request)
    requires Reachable(c, s) && Spent(s, p, request)
    requires Play(c, s, labels).Some? && HashedOnce(Play(c, s, labels).value.log)
    ensures Spent(Play(c, s, labels).value, p, request)
    decreases |labels|
  {
    if labels != [] {
      var t := Next(c, s, labels[0]).value;
      PlayGrows(c, t, labels[1..]);
      HashedOncePrefix(t.log, Play(c, t, labels[1..]).value.log);
      ReachableInv(c, s);
      ReachableLast(c, s);
      SpentStep(c, s, labels[0], p, request);
      ReachableStep(c, s, labels[0]);
      SpentPlay(c, t, labels[1..], p, request);
    }
  }

  lemma TakesNow(c: Config, s: State, p: Pid, request: Request)
    requires Inv(c, s) && StoresLast(s) && HashedOnce(s.log) && WasAdmitted(s.log, p, request)
    requires AboutToTake(s, p, request)
    ensures Takes(c, s, [HandleRemove(p)], p, request)
  {
    var slot := RequestSlot(request);
    RemovesItsOwn(c, s, p, request);
    RemovalHandled(c, s, p);
    PlayCons(c, s, HandleRemove(p), []);
    assert [HandleRemove(p)] == [HandleRemove(p)] + [];
    assert Live(s, slot, request);
    TookAppend(s.log, Removed(p, slot), p, request);
  }

  /** An accept that was admitted and has failed takes its request away, the request being there to be taken, exactly if
      it has done so already, or its removal is sent and not yet executed, the key takes a hash, and the request is
      stored. In particular it takes nothing if it failed before it sent the removal, or if the removal of another
      accept was executed first. */
  lemma FailedAcceptTakesIff(c: Config, s: State, p: Pid, request: Request)
    requires Reachable(c, s) && HashedOnce(s.log)
    requires p in s.procs && Quit(s.procs[p]) && WasAdmitted(s.log, p, request)
    ensures (exists labels :: Takes(c, s, labels, p, request))
       <==> || Took(s.log, p, request)
            || (p in s.mail && s.mail[p].Pending? && s.db.HashFree(request.recive)
                && s.db.Hget(RequestSlot(request)) == Some(Stored(request)))
  {
    ReachableInv(c, s);
    ReachableLast(c, s);
    if Took(s.log, p, request) {
      assert Takes(c, s, [], p, request);
    } else if AboutToTake(s, p, request) {
      TakesNow(c, s, p, request);
    } else {
      forall labels ensures !Takes(c, s, labels, p, request) {
        if Takes(c, s, labels, p, request) {
          SpentPlay(c, s, labels, p, request);
          assert false;
        }
      }
    }
  }
}
