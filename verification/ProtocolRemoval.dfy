/** What can still come of a request once its removal has been executed: exact conditions on the state. */
module ProtocolRemoval {
  import opened Wrappers
  import opened Requests
  import opened RequestDb
  import opened FriendRows
  import opened Protocol
  import opened ProtocolInvariant
  import opened ProtocolSteps
  import opened ProtocolConsent
  import opened ProtocolHash
  import opened ProtocolKeys
  import opened ProtocolSerial

  // A number in the place of a removed request

  ghost predicate AtNx(s: State, slot: Slot) {
    exists q :: q in s.procs && s.procs[q].AddNx? && s.procs[q].slot == slot
  }

  ghost predicate PutBack(c: Config, s: State, labels: seq<Label>, slot: Slot) {
    var t := Play(c, s, labels);
    t.Some? && HashedOnce(t.value.log) && slot in t.value.db.hash
  }

  /** Nothing is left in the field, and nobody is there to write it. */
  ghost predicate Vacant(s: State, slot: Slot) {
    slot !in s.db.hash && WasRemoved(s.log, slot) && !(s.db.HashFree(slot.tid) && AtNx(s, slot))
  }

  /** Only an `hset` brings a process to its `hsetnx`. */
  lemma NewAddNx(c: Config, s: State, l: Label, q: Pid)
    requires Next(c, s, l).Some?
    requires q in Next(c, s, l).value.procs && Next(c, s, l).value.procs[q].AddNx?
    ensures || (q in s.procs && s.procs[q] == Next(c, s, l).value.procs[q])
            || (Doing(s, l).AddHset? && q == l.pid)
  {
  }

  /** A field that was removed is not stored again. */
  lemma NotStoredAgain(c: Config, s: State, l: Label, t: State, slot: Slot)
    requires JustifiedLog(c, s.log) && Shape(c, s, l, t) && HashedOnce(t.log) && WasRemoved(s.log, slot)
    requires Doing(s, l).AddHset?
    ensures SlotOf(Doing(s, l).request, c.worker, l.digest) != slot
  {
    var e := Hashed(l.pid, SlotOf(Doing(s, l).request, c.worker, l.digest), Doing(s, l).request);
    var request := RemovedWasHashed(c, s.log, slot);
    FirstHashed(s.log, e);
  }

  lemma RemovedStays(c: Config, s: State, l: Label, t: State, slot: Slot)
    requires WasRemoved(s.log, slot) && Shape(c, s, l, t)
    ensures WasRemoved(t.log, slot)
  {
    var q :| Removed(q, slot) in s.log;
    assert Removed(q, slot) in t.log;
  }

  lemma VacantStep(c: Config, s: State, l: Label, slot: Slot)
    requires JustifiedLog(c, s.log) && Vacant(s, slot) && Next(c, s, l).Some? && HashedOnce(Next(c, s, l).value.log)
    ensures Vacant(Next(c, s, l).value, slot)
  {
    var t := Next(c, s, l).value;
    StepShape(c, s, l);
    StepFits(c, s, l);
    RemovedStays(c, s, l, t, slot);
    if Doing(s, l).AddHset? { NotStoredAgain(c, s, l, t, slot); }
    assert slot !in t.db.hash;
    if t.db.HashFree(slot.tid) && AtNx(t, slot) {
      var q :| q in t.procs && t.procs[q].AddNx? && t.procs[q].slot == slot;
      NewAddNx(c, s, l, q);
      IndexStays(c, s, l, t, slot.tid);
      assert false;
    }
  }

  lemma {:induction false} VacantPlay(c: Config, s: State, labels: seq<Label>, slot: Slot)
    requires Inv(c, s) && Vacant(s, slot) && Play(c, s, labels).Some? && HashedOnce(Play(c, s, labels).value.log)
    ensures Vacant(Play(c, s, labels).value, slot)
    decreases |labels|
  {
    if labels != [] {
      var t := Next(c, s, labels[0]).value;
      PlayGrows(c, t, labels[1..]);
      HashedOncePrefix(t.log, Play(c, t, labels[1..]).value.log);
      VacantStep(c, s, labels[0], slot);
      StepInv(c, s, labels[0]);
      VacantPlay(c, t, labels[1..], slot);
    }
  }

  /** Once a request is removed and its field empty, a number can still come to stand there exactly if an `addRequest`
      is yet to execute its `hsetnx` on that field (and the key still takes a hash). */
  lemma NumberPutBackIff(c: Config, s: State, slot: Slot)
    requires Reachable(c, s) && HashedOnce(s.log) && WasRemoved(s.log, slot) && slot !in s.db.hash
    ensures (exists labels :: PutBack(c, s, labels, slot))
       <==> s.db.HashFree(slot.tid) && exists q :: q in s.procs && s.procs[q].AddNx? && s.procs[q].slot == slot
  {
    ReachableInv(c, s);
    if s.db.HashFree(slot.tid) && AtNx(s, slot) {
      var q :| q in s.procs && s.procs[q].AddNx? && s.procs[q].slot == slot;
      AddNxes(c, s, q, ANY);
      PlayCons(c, s, Run(q, ANY), []);
      assert [Run(q, ANY)] == [Run(q, ANY)] + [];
      assert PutBack(c, s, [Run(q, ANY)], slot);
    } else {
      forall labels ensures !PutBack(c, s, labels, slot) {
        if PutBack(c, s, labels, slot) {
          VacantPlay(c, s, labels, slot);
          assert false;
        }
      }
    }
  }

  // A further commit of a removed request

  /** Process q has read the request and nothing it has yet to do must fail: its expiry checks are behind it or in time,
      and its removal is executed or the key still takes a hash. */
  ghost predicate MayCommit(s: State, q: Pid, request: Request) {
    q in s.procs &&
    match s.procs[q]
    case CallCheck(slot, status, r) =>
      r == request && status == Accept && s.now <= r.expire && s.db.HashFree(r.recive)
    case CallSend(slot, status, r) =>
      r == request && status == Accept && s.now <= r.expire && s.db.HashFree(r.recive)
    case AccCheck(r) => r == request && s.now <= r.expire && s.db.HashFree(r.recive)
    case AccFirst(r) => r == request && s.db.HashFree(r.recive)
    case AccSecond(r, _) => r == request && s.db.HashFree(r.recive)
    case AccRemove(r, _) => r == request && s.db.HashFree(r.recive)
    case AccWait(r, _) => r == request && (s.db.HashFree(r.recive) || (q in s.mail && s.mail[q].Replied?))
    case AccCommit(r, _) => r == request
    case _ => false
  }

  ghost predicate CommitsAgain(c: Config, s: State, labels: seq<Label>, request: Request) {
    var t := Play(c, s, labels);
    && t.Some? && HashedOnce(t.value.log)
    && exists k :: |s.log| <= k < |t.value.log| && t.value.log[k].Committed? && t.value.log[k].request == request
  }

  // No new process comes to hold the request

  lemma OthersStand(c: Config, s: State, l: Label, q: Pid)
    requires Next(c, s, l).Some? && (l.Tick? || l.pid != q)
    ensures var t := Next(c, s, l).value;
            && s.now <= t.now && (q in t.procs <==> q in s.procs) && (q in s.procs ==> t.procs[q] == s.procs[q])
            && (q in t.mail <==> q in s.mail) && (q in s.mail ==> t.mail[q] == s.mail[q])
  {
  }

  /** A step of another process leaves q able or not. */
  lemma OthersKeepMayCommit(c: Config, s: State, l: Label, q: Pid, request: Request)
    requires Next(c, s, l).Some? && MayCommit(Next(c, s, l).value, q, request)
    requires s.db.HashFree(request.recive) || !Next(c, s, l).value.db.HashFree(request.recive)
    requires l.Tick? || l.pid != q
    ensures MayCommit(s, q, request)
  {
    OthersStand(c, s, l, q);
  }

  lemma RemovalKeepsMayCommit(c: Config, s: State, q: Pid, request: Request)
    requires Next(c, s, HandleRemove(q)).Some? && MayCommit(Next(c, s, HandleRemove(q)).value, q, request)
    requires ProcsOk(c, s)
    ensures MayCommit(s, q, request)
  {
    assert ProcOk(c, s.log, s.mail, q, s.procs[q]);
  }

  lemma CallKeepsMayCommit(c: Config, s: State, q: Pid, request: Request)
    requires q in s.procs && ActCall(c, s, q).Some?
    requires MayCommit(Apply(s, q, ActCall(c, s, q).value), q, request)
    ensures MayCommit(s, q, request) || (s.procs[q].CallRead? && Live(s, s.procs[q].slot, request))
  {
  }

  lemma AcceptKeepsMayCommit(c: Config, s: State, q: Pid, request: Request)
    requires q in s.procs && ActAccept(c, s, q).Some?
    requires MayCommit(Apply(s, q, ActAccept(c, s, q).value), q, request)
    ensures MayCommit(s, q, request)
  {
  }

  predicate Holding(p: Proc) {
    || p.CallCheck? || p.CallSend? || p.AccCheck? || p.AccFirst? || p.AccSecond? || p.AccRemove? || p.AccWait?
    || p.AccCommit?
  }

  /** The other services never hold a request to accept. */
  lemma OthersHoldNothing(c: Config, s: State, q: Pid, digest: Digest)
    requires q in s.procs
    ensures ActAdd(c, s, q, digest).Some? ==> !Holding(ActAdd(c, s, q, digest).value.to)
    ensures ActList(c, s, q).Some? ==> !Holding(ActList(c, s, q).value.to)
    ensures ActRows(c, s, q).Some? ==> !Holding(ActRows(c, s, q).value.to)
  {
  }

  lemma AbleHolds(s: State, q: Pid, request: Request)
    requires MayCommit(s, q, request)
    ensures Holding(s.procs[q])
  {
  }

  lemma NeitherStartNorFailure(c: Config, s: State, l: Label, request: Request)
    requires Next(c, s, l).Some? && !l.Tick? && !l.HandleRemove? && !l.Run?
    ensures !MayCommit(Next(c, s, l).value, l.pid, request)
  {
  }

  /** A process that is able after its own step was able before, unless it has just read the request. */
  lemma OwnStepKeepsMayCommit(c: Config, s: State, l: Label, q: Pid, request: Request)
    requires Next(c, s, l).Some? && MayCommit(Next(c, s, l).value, q, request)
    requires !l.Tick? && !l.HandleRemove? && l.pid == q
    ensures MayCommit(s, q, request) || (q in s.procs && s.procs[q].CallRead? && Live(s, s.procs[q].slot, request))
  {
    if l.Run? {
      RunSplits(c, s, l);
      OthersHoldNothing(c, s, q, l.digest);
      AbleHolds(Next(c, s, l).value, q, request);
      if Act(c, s, q, l.digest) == ActCall(c, s, q) { CallKeepsMayCommit(c, s, q, request); }
      else { AcceptKeepsMayCommit(c, s, q, request); }
    } else {
      NeitherStartNorFailure(c, s, l, request);
    }
  }

  lemma NoNewMayCommit(c: Config, s: State, l: Label, q: Pid, request: Request)
    requires Reachable(c, s) && HashedOnce(s.log) && WasRemoved(s.log, RequestSlot(request)) && Next(c, s, l).Some?
    requires MayCommit(Next(c, s, l).value, q, request)
    ensures MayCommit(s, q, request)
  {
    var t := Next(c, s, l).value;
    ReachableInv(c, s);
    StepShape(c, s, l);
    if t.db.HashFree(request.recive) { IndexStays(c, s, l, t, request.recive); }
    if l.Tick? || l.pid != q {
      OthersKeepMayCommit(c, s, l, q, request);
    } else if l.HandleRemove? {
      RemovalKeepsMayCommit(c, s, q, request);
    } else {
      OwnStepKeepsMayCommit(c, s, l, q, request);
      if !MayCommit(s, q, request) {
        NoneLive(c, s, s.procs[q].slot, request);
        assert false;
      }
    }
  }

  lemma LiveSlot(c: Config, s: State, slot: Slot, request: Request)
    requires Inv(c, s) && Live(s, slot, request)
    ensures slot == RequestSlot(request)
  {
    assert FieldOk(c, s.log, slot, s.db.hash[slot]);
  }

  lemma NoneLive(c: Config, s: State, slot: Slot, request: Request)
    requires Reachable(c, s) && HashedOnce(s.log) && WasRemoved(s.log, RequestSlot(request))
    ensures !Live(s, slot, request)
  {
    ReachableInv(c, s);
    if Live(s, slot, request) {
      LiveSlot(c, s, slot, request);
      StoredUntilRemoved(c, s);
      assert false;
    }
  }

  lemma {:induction false} NobodyCommits(c: Config, s: State, labels: seq<Label>, request: Request, k: nat)
    requires Reachable(c, s) && HashedOnce(s.log) && WasRemoved(s.log, RequestSlot(request))
    requires forall q :: !MayCommit(s, q, request)
    requires Play(c, s, labels).Some? && HashedOnce(Play(c, s, labels).value.log)
    requires |s.log| <= k < |Play(c, s, labels).value.log|
    ensures var e := Play(c, s, labels).value.log[k]; !(e.Committed? && e.request == request)
    decreases |labels|
  {
    if labels != [] {
      var l, t, last := labels[0], Next(c, s, labels[0]).value, Play(c, s, labels).value;
      PlayGrows(c, t, labels[1..]);
      HashedOncePrefix(t.log, last.log);
      StepShape(c, s, l);
      RemovedStays(c, s, l, t, RequestSlot(request));
      if k < |t.log| {
        assert last.log[k] == t.log[k] && t.log == s.log + [t.log[k]];
        if t.log[k].Committed? && t.log[k].request == request {
          assert MayCommit(s, l.pid, request);
          assert false;
        }
      } else {
        forall q ensures !MayCommit(t, q, request) {
          if MayCommit(t, q, request) { NoNewMayCommit(c, s, l, q, request); }
        }
        ReachableStep(c, s, l);
        NobodyCommits(c, t, labels[1..], request, k);
      }
    }
  }

  // A process that holds the request gets to its commit

  /** The steps that are left, the removal included. */
  ghost function Remaining(s: State, q: Pid): nat {
    if q !in s.procs then 0 else
      match s.procs[q]
      case CallCheck(_, _, _) => 8
      case CallSend(_, _, _) => 7
      case AccCheck(_) => 6
      case AccFirst(_) => 5
      case AccSecond(_, _) => 4
      case AccRemove(_, _) => 3
      case AccWait(_, _) => if q in s.mail && s.mail[q].Replied? then 1 else 2
      case _ => 0
  }

  lemma HeldIsFromAdd(c: Config, s: State, q: Pid)
    requires Inv(c, s) && q in s.procs && (s.procs[q].CallCheck? || s.procs[q].CallSend?)
    ensures FromAdd(c, s.procs[q].request)
  {
    var p := s.procs[q];
    assert ProcOk(c, s.log, s.mail, q, p);
    if p.CallSend? {
      var at :| Passed(q, p.slot, p.status, p.request, at) in s.log;
      assert s.log[..|s.log|] == s.log;
      var k := Earlier(c, s.log, |s.log|, Passed(q, p.slot, p.status, p.request, at));
    }
    ReadWasHashed(c, s.log, Read(q, p.slot, p.status, p.request));
    HashedFromAdd(c, s.log, p.slot, p.request);
  }

  /** The label of the next step on the way. */
  ghost function Onward(s: State, q: Pid): Label {
    if q in s.procs && s.procs[q].AccWait? && q in s.mail && s.mail[q].Pending? then HandleRemove(q) else Run(q, ANY)
  }

  /** One step nearer to the commit, with no `hset`. */
  ghost predicate Nearer(s: State, t: State, q: Pid, request: Request) {
    && MayCommit(t, q, request) && Remaining(t, q) < Remaining(s, q)
    && (t.log == s.log
        || (|t.log| == |s.log| + 1 && t.log == s.log + [t.log[|s.log|]] && !t.log[|s.log|].Hashed?))
  }

  lemma CallOnward(c: Config, s: State, q: Pid, request: Request)
    requires Inv(c, s) && MayCommit(s, q, request) && (s.procs[q].CallCheck? || s.procs[q].CallSend?)
    ensures Next(c, s, Onward(s, q)).Some? && Nearer(s, Next(c, s, Onward(s, q)).value, q, request)
    ensures var p := Next(c, s, Onward(s, q)).value.procs[q]; p.CallSend? || p.AccCheck?
  {
    HeldIsFromAdd(c, s, q);
    if s.procs[q].CallCheck? { CheckPasses(c, s, q, ANY); } else { SendArrives(c, s, q, ANY); }
  }

  lemma SavesOnward(c: Config, s: State, q: Pid, request: Request)
    requires MayCommit(s, q, request)
    requires s.procs[q].AccCheck? || s.procs[q].AccFirst? || s.procs[q].AccSecond? || s.procs[q].AccRemove?
    ensures Next(c, s, Onward(s, q)).Some? && Nearer(s, Next(c, s, Onward(s, q)).value, q, request)
    ensures var p := Next(c, s, Onward(s, q)).value.procs[q];
            p.AccFirst? || p.AccSecond? || p.AccRemove? || s.procs[q].AccRemove?
  {
    var p := s.procs[q];
    if p.AccCheck? { CheckAdmits(c, s, q, ANY); }
    else if p.AccFirst? { FirstSaves(c, s, q, ANY); }
    else if p.AccSecond? { SecondSaves(c, s, q, ANY); }
    else { RemovalSent(c, s, q, ANY); }
  }

  lemma WaitOnward(c: Config, s: State, q: Pid, request: Request)
    requires ProcsOk(c, s) && MayCommit(s, q, request) && s.procs[q].AccWait?
    ensures Next(c, s, Onward(s, q)).Some? && Nearer(s, Next(c, s, Onward(s, q)).value, q, request)
  {
    assert ProcOk(c, s.log, s.mail, q, s.procs[q]);
    if s.mail[q].Pending? { RemovalHandled(c, s, q); } else { AnswerHeard(c, s, q, ANY); }
  }

  lemma {:induction false} GetsToCommit(c: Config, s: State, q: Pid, request: Request) returns (labels: seq<Label>)
    requires Inv(c, s) && HashedOnce(s.log) && MayCommit(s, q, request)
    ensures CommitsAgain(c, s, labels, request)
    decreases Remaining(s, q)
  {
    var l := Onward(s, q);
    if s.procs[q].AccCommit? {
      CommitTakesEffect(c, s, q, ANY);
      PlayCons(c, s, l, []);
      labels := [l] + [];
      var t := Next(c, s, l).value;
      NoMoreStored(s.log, t.log[|s.log|]);
      assert t.log[|s.log|] == Committed(q, request);
    } else {
      if s.procs[q].CallCheck? || s.procs[q].CallSend? { CallOnward(c, s, q, request); }
      else if s.procs[q].AccWait? { WaitOnward(c, s, q, request); }
      else { SavesOnward(c, s, q, request); }
      var t := Next(c, s, l).value;
      if t.log != s.log { NoMoreStored(s.log, t.log[|s.log|]); }
      StepInv(c, s, l);
      var rest := GetsToCommit(c, t, q, request);
      PlayCons(c, s, l, rest);
      labels := [l] + rest;
    }
  }

  lemma NoMoreStored(log: seq<Event>, e: Event)
    requires HashedOnce(log) && !e.Hashed?
    ensures HashedOnce(log + [e])
  {
  }

  /** Once the removal of a request has been executed, as it has before any commit, the request can be committed (again)
      exactly if some process that read it is still on its way, checked in time or with its checks behind it. */
  lemma FurtherCommitIff(c: Config, s: State, request: Request)
    requires Reachable(c, s) && HashedOnce(s.log) && WasRemoved(s.log, RequestSlot(request))
    ensures (exists labels :: CommitsAgain(c, s, labels, request)) <==> exists q :: MayCommit(s, q, request)
  {
    if q :| MayCommit(s, q, request) {
      ReachableInv(c, s);
      var labels := GetsToCommit(c, s, q, request);
    } else {
      forall labels ensures !CommitsAgain(c, s, labels, request) {
        if CommitsAgain(c, s, labels, request) {
          var t := Play(c, s, labels).value;
          var k :| |s.log| <= k < |t.log| && t.log[k].Committed? && t.log[k].request == request;
          NobodyCommits(c, s, labels, request, k);
          assert false;
        }
      }
    }
  }

  // Another removal of a number

  /** Process q can still have the field cleared: its removal is sent, or it has read the request and may come to send
      one. */
  ghost predicate MayRemove(s: State, q: Pid, request: Request) {
    || (q in s.mail && s.mail[q] == Pending(RequestSlot(request)))
    || (MayCommit(s, q, request) && !s.procs[q].AccWait? && !s.procs[q].AccCommit?)
  }

  /** A number stands where the request was. */
  ghost predicate Numbered(s: State, request: Request) {
    var slot := RequestSlot(request);
    slot in s.db.hash && s.db.hash[slot].Bare? && WasHashed(s.log, slot, request)
  }

  ghost predicate Changes(c: Config, s: State, labels: seq<Label>, slot: Slot) {
    var t := Play(c, s, labels);
    t.Some? && HashedOnce(t.value.log) && t.value.db.Hget(slot) != s.db.Hget(slot)
  }

  /** Only an accept that sends its removal gets mail. */
  lemma NewPending(c: Config, s: State, l: Label, q: Pid)
    requires Next(c, s, l).Some? && q in Next(c, s, l).value.mail && Next(c, s, l).value.mail[q].Pending?
    ensures var t := Next(c, s, l).value;
            || (q in s.mail && s.mail[q] == t.mail[q])
            || (q in s.procs && s.procs[q].AccRemove? && t.mail[q].slot == RequestSlot(s.procs[q].request))
  {
  }

  lemma WaitMovesOn(c: Config, s: State, l: Label, q: Pid)
    requires Next(c, s, l).Some? && q in s.procs && (s.procs[q].AccWait? || s.procs[q].AccCommit?)
    ensures var t := Next(c, s, l).value;
            q in t.procs && (t.procs[q].AccWait? || t.procs[q].AccCommit? || t.procs[q].AccAbort? || t.procs[q].Done?)
  {
  }

  /** An accept about to send the removal of that field holds that request. */
  lemma SenderHolds(c: Config, s: State, q: Pid, request: Request)
    requires Inv(c, s) && HashedOnce(s.log) && WasHashed(s.log, RequestSlot(request), request)
    requires q in s.procs && s.procs[q].AccRemove? && RequestSlot(s.procs[q].request) == RequestSlot(request)
    ensures s.procs[q].request == request
  {
    var held := s.procs[q].request;
    assert ProcOk(c, s.log, s.mail, q, s.procs[q]);
    assert s.log[..|s.log|] == s.log;
    var _, _, _, hashed, _, _, _ := TraceBack(c, s.log, |s.log|, q, held);
    assert s.log[hashed] in s.log;
    HashedOnceSame(s.log, RequestSlot(request), request, held);
  }

  lemma NumberedWasRemoved(c: Config, s: State, request: Request)
    requires Reachable(c, s) && Numbered(s, request)
    ensures WasRemoved(s.log, RequestSlot(request))
  {
    HashFollowsLog(c, s);
  }

  lemma SenderMayRemove(c: Config, s: State, q: Pid, request: Request)
    requires Reachable(c, s) && HashedOnce(s.log) && Numbered(s, request)
    requires q in s.procs && s.procs[q].AccRemove? && RequestSlot(s.procs[q].request) == RequestSlot(request)
    ensures MayRemove(s, q, request)
  {
    ReachableInv(c, s);
    SenderHolds(c, s, q, request);
    ReachableOneType(c, s);
  }

  lemma NoNewSender(c: Config, s: State, l: Label, q: Pid, request: Request)
    requires Reachable(c, s) && HashedOnce(s.log) && WasRemoved(s.log, RequestSlot(request)) && Next(c, s, l).Some?
    requires var t := Next(c, s, l).value;
             MayCommit(t, q, request) && !t.procs[q].AccWait? && !t.procs[q].AccCommit?
    ensures MayRemove(s, q, request)
  {
    NoNewMayCommit(c, s, l, q, request);
    if s.procs[q].AccWait? || s.procs[q].AccCommit? { WaitMovesOn(c, s, l, q); }
  }

  lemma NoNewMayRemove(c: Config, s: State, l: Label, t: State, q: Pid, request: Request)
    requires Reachable(c, s) && HashedOnce(s.log) && Numbered(s, request) && Next(c, s, l) == Some(t)
    requires MayRemove(t, q, request)
    ensures MayRemove(s, q, request)
  {
    if q in t.mail && t.mail[q] == Pending(RequestSlot(request)) {
      NewPending(c, s, l, q);
      if !(q in s.mail && s.mail[q] == t.mail[q]) { SenderMayRemove(c, s, q, request); }
    } else {
      NumberedWasRemoved(c, s, request);
      NoNewSender(c, s, l, q, request);
    }
  }

  lemma NumberKept(c: Config, s: State, l: Label, request: Request)
    requires Reachable(c, s) && Numbered(s, request) && (forall q :: !MayRemove(s, q, request))
    requires Next(c, s, l).Some? && HashedOnce(Next(c, s, l).value.log)
    ensures var t := Next(c, s, l).value;
            t.db.Hget(RequestSlot(request)) == s.db.Hget(RequestSlot(request)) && Numbered(t, request)
  {
    var t := Next(c, s, l).value;
    ReachableLog(c, s);
    StepShape(c, s, l);
    NumberedWasRemoved(c, s, request);
    if l.HandleRemove? {
      assert !MayRemove(s, l.pid, request);
    } else if Doing(s, l).AddHset? {
      NotStoredAgain(c, s, l, t, RequestSlot(request));
    }
    HashedStays(c, s, l, RequestSlot(request), request);
  }

  lemma HashedStays(c: Config, s: State, l: Label, slot: Slot, request: Request)
    requires WasHashed(s.log, slot, request) && Next(c, s, l).Some?
    ensures WasHashed(Next(c, s, l).value.log, slot, request)
  {
    LogGrows(c, s, l);
    var q :| Hashed(q, slot, request) in s.log;
    assert Hashed(q, slot, request) in Next(c, s, l).value.log;
  }

  lemma {:induction false} NumberStays(c: Config, s: State, labels: seq<Label>, request: Request)
    requires Reachable(c, s) && Numbered(s, request) && (forall q :: !MayRemove(s, q, request))
    requires Play(c, s, labels).Some? && HashedOnce(Play(c, s, labels).value.log)
    ensures Play(c, s, labels).value.db.Hget(RequestSlot(request)) == s.db.Hget(RequestSlot(request))
    decreases |labels|
  {
    if labels != [] {
      var l, t, last := labels[0], Next(c, s, labels[0]).value, Play(c, s, labels).value;
      PlayGrows(c, t, labels[1..]);
      HashedOncePrefix(t.log, last.log);
      LogGrows(c, s, l);
      HashedOncePrefix(s.log, t.log);
      NumberKept(c, s, l, request);
      forall q ensures !MayRemove(t, q, request) {
        if MayRemove(t, q, request) { NoNewMayRemove(c, s, l, t, q, request); }
      }
      ReachableStep(c, s, l);
      NumberStays(c, t, labels[1..], request);
    }
  }

  ghost predicate Clears(c: Config, s: State, labels: seq<Label>, slot: Slot) {
    var t := Play(c, s, labels);
    t.Some? && HashedOnce(t.value.log) && slot !in t.value.db.hash
  }

  lemma PendingClears(c: Config, s: State, q: Pid, request: Request)
    requires HashedOnce(s.log) && s.db.HashFree(request.recive)
    requires q in s.mail && s.mail[q] == Pending(RequestSlot(request))
    ensures Clears(c, s, [HandleRemove(q)], RequestSlot(request))
  {
    RemovalHandled(c, s, q);
    PlayCons(c, s, HandleRemove(q), []);
    assert [HandleRemove(q)] == [HandleRemove(q)] + [];
    NoMoreStored(s.log, Removed(q, RequestSlot(request)));
  }

  lemma {:induction false} GetsToRemoval(c: Config, s: State, q: Pid, request: Request) returns (labels: seq<Label>)
    requires Inv(c, s) && HashedOnce(s.log) && MayCommit(s, q, request)
    requires !s.procs[q].AccWait? && !s.procs[q].AccCommit?
    ensures Clears(c, s, labels, RequestSlot(request))
    decreases Remaining(s, q)
  {
    var l := Run(q, ANY);
    if s.procs[q].AccRemove? {
      RemovalSent(c, s, q, ANY);
      PendingClears(c, Next(c, s, l).value, q, request);
      labels := [l] + [HandleRemove(q)];
      PlayCons(c, s, l, [HandleRemove(q)]);
    } else {
      if s.procs[q].CallCheck? || s.procs[q].CallSend? { CallOnward(c, s, q, request); }
      else { SavesOnward(c, s, q, request); }
      var t := Next(c, s, l).value;
      if t.log != s.log { NoMoreStored(s.log, t.log[|s.log|]); }
      StepInv(c, s, l);
      var rest := GetsToRemoval(c, t, q, request);
      PlayCons(c, s, l, rest);
      labels := [l] + rest;
    }
  }

  /** A number that stands where a request was stays there for good, unless another removal of that request is sent and
      not yet executed, or a process that read the request can still come to send one; then it can go. */
  lemma NumberTakenIff(c: Config, s: State, request: Request)
    requires Reachable(c, s) && HashedOnce(s.log) && WasHashed(s.log, RequestSlot(request), request)
    requires RequestSlot(request) in s.db.hash && s.db.hash[RequestSlot(request)].Bare?
    ensures (exists labels :: Changes(c, s, labels, RequestSlot(request))) <==> exists q :: MayRemove(s, q, request)
  {
    if q :| MayRemove(s, q, request) {
      ReachableInv(c, s);
      ReachableOneType(c, s);
      var labels: seq<Label>;
      if q in s.mail && s.mail[q] == Pending(RequestSlot(request)) {
        PendingClears(c, s, q, request);
        labels := [HandleRemove(q)];
      } else {
        labels := GetsToRemoval(c, s, q, request);
      }
      assert Changes(c, s, labels, RequestSlot(request));
    } else {
      forall labels ensures !Changes(c, s, labels, RequestSlot(request)) {
        if Changes(c, s, labels, RequestSlot(request)) {
          NumberStays(c, s, labels, request);
          assert false;
        }
      }
    }
  }
}
