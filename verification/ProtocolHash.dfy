/** The request hash under arbitrary interleaving: a request is there from its `hset` to its removal, and no longer. */
module ProtocolHash {
  import opened Wrappers
  import opened Requests
  import opened RequestDb
  import opened FriendRows
  import opened Protocol
  import opened ProtocolInvariant
  import opened ProtocolSteps
  import opened ProtocolConsent

  /** No field is `hset` twice. */
  ghost predicate HashedOnce(log: seq<Event>) {
    forall i, j | 0 <= i < j < |log| && log[i].Hashed? && log[j].Hashed? :: log[i].slot != log[j].slot
  }

  lemma HashedOnceSame(log: seq<Event>, slot: Slot, r1: Request, r2: Request)
    requires HashedOnce(log) && WasHashed(log, slot, r1) && WasHashed(log, slot, r2)
    ensures r1 == r2
  {
  }

  /** What was removed had been stored. */
  lemma RemovedWasHashed(c: Config, log: seq<Event>, slot: Slot) returns (request: Request)
    requires JustifiedLog(c, log) && WasRemoved(log, slot)
    ensures WasHashed(log, slot, request)
  {
    var p :| Removed(p, slot) in log;
    assert log[..|log|] == log;
    var k := Earlier(c, log, |log|, Removed(p, slot));
    request :| WasAdmitted(log[..k], p, request) && slot == RequestSlot(request);
    var q, _, _, hashed, _, _, _ := TraceBack(c, log, k, p, request);
    assert log[hashed] == Hashed(q, slot, request);
  }

  // The hash and the log

  ghost predicate Live(s: State, slot: Slot, request: Request) {
    s.db.Hget(slot) == Some(Stored(request))
  }

  /** The request that the latest `hset` or removal of a field left there. */
  function LastStored(log: seq<Event>, slot: Slot): Option<Request> {
    if log == [] then None else
      var e := log[|log| - 1];
      if e.Hashed? && e.slot == slot then Some(e.request)
      else if e.Removed? && e.slot == slot then None
      else LastStored(log[..|log| - 1], slot)
  }

  ghost predicate StoresLast(s: State) {
    forall slot, request :: Live(s, slot, request) <==> LastStored(s.log, slot) == Some(request)
  }

  ghost predicate ReadsLast(log: seq<Event>) {
    forall k | 0 <= k < |log| && log[k].Read? :: LastStored(log[..k], log[k].slot) == Some(log[k].request)
  }

  lemma LastAppend(log: seq<Event>, e: Event, slot: Slot)
    ensures LastStored(log + [e], slot) ==
            if e.Hashed? && e.slot == slot then Some(e.request)
            else if e.Removed? && e.slot == slot then None
            else LastStored(log, slot)
  {
    assert (log + [e])[..|log|] == log;
  }

  lemma LastStep(c: Config, s: State, l: Label, t: State)
    requires StoresLast(s) && Shape(c, s, l, t)
    ensures StoresLast(t)
  {
    forall slot, request ensures Live(t, slot, request) <==> LastStored(t.log, slot) == Some(request) {
      assert Live(s, slot, request) <==> LastStored(s.log, slot) == Some(request);
      if t.log != s.log {
        LastAppend(s.log, t.log[|s.log|], slot);
      }
    }
  }

  lemma ReadsLastAppend(log: seq<Event>, e: Event)
    requires ReadsLast(log) && (e.Read? ==> LastStored(log, e.slot) == Some(e.request))
    ensures ReadsLast(log + [e])
  {
    var longer := log + [e];
    forall k | 0 <= k < |longer| && longer[k].Read?
      ensures LastStored(longer[..k], longer[k].slot) == Some(longer[k].request) {
      assert longer[..k] == log[..k];
      if k == |log| { assert log[..k] == log; }
    }
  }

  lemma ReadsLastStep(c: Config, s: State, l: Label, t: State)
    requires StoresLast(s) && ReadsLast(s.log) && Shape(c, s, l, t)
    ensures ReadsLast(t.log)
  {
    if t.log != s.log {
      var e := t.log[|s.log|];
      assert t.log == s.log + [e];
      if e.Read? {
        assert Live(s, e.slot, e.request);
      }
      ReadsLastAppend(s.log, e);
    }
  }

  lemma {:induction false} LastPlay(c: Config, s: State, labels: seq<Label>)
    requires StoresLast(s) && ReadsLast(s.log) && Play(c, s, labels).Some?
    ensures var t := Play(c, s, labels).value; StoresLast(t) && ReadsLast(t.log)
    decreases |labels|
  {
    if labels != [] {
      var t := Next(c, s, labels[0]).value;
      StepShape(c, s, labels[0]);
      LastStep(c, s, labels[0], t);
      ReadsLastStep(c, s, labels[0], t);
      LastPlay(c, t, labels[1..]);
    }
  }

  lemma ReachableLast(c: Config, s: State)
    requires Reachable(c, s)
    ensures StoresLast(s) && ReadsLast(s.log)
  {
    var labels :| Play(c, Init(c), labels) == Some(s);
    LastPlay(c, Init(c), labels);
  }

  /** A field stored and no longer holding a request has been removed. */
  lemma {:induction false} GoneWasRemoved(log: seq<Event>, slot: Slot, request: Request)
    requires WasHashed(log, slot, request) && LastStored(log, slot) == None
    ensures WasRemoved(log, slot)
  {
    var n := |log| - 1;
    var q :| Hashed(q, slot, request) in log;
    assert log == log[..n] + [log[n]];
    if !(log[n].Removed? && log[n].slot == slot) {
      assert Hashed(q, slot, request) in log[..n];
      GoneWasRemoved(log[..n], slot, request);
      var p :| Removed(p, slot) in log[..n];
      assert Removed(p, slot) in log;
    }
  }

  /** A field that holds a request after a removal was stored again in between. */
  lemma {:induction false} StoredAgain(log: seq<Event>, slot: Slot, i: nat) returns (k: nat)
    requires i < |log| && log[i].Removed? && log[i].slot == slot && LastStored(log, slot).Some?
    ensures i < k < |log| && log[k].Hashed? && log[k].slot == slot
  {
    k := |log| - 1;
    if !(log[k].Hashed? && log[k].slot == slot) {
      k := StoredAgain(log[..k], slot, i);
    }
  }

  /** In every reachable state the hash holds a request exactly when the latest `hset` or removal of its field was its
      `hset`; a bare number stands only in a field that was removed; and every read returns what was stored last. */
  lemma HashFollowsLog(c: Config, s: State)
    requires Reachable(c, s)
    ensures forall slot, request ::
      s.db.Hget(slot) == Some(Stored(request)) <==> LastStored(s.log, slot) == Some(request)
    ensures forall slot | slot in s.db.hash && s.db.hash[slot].Bare? :: WasRemoved(s.log, slot)
    ensures forall k | 0 <= k < |s.log| && s.log[k].Read? ::
      LastStored(s.log[..k], s.log[k].slot) == Some(s.log[k].request)
  {
    ReachableInv(c, s);
    ReachableLast(c, s);
    forall slot, request
      ensures s.db.Hget(slot) == Some(Stored(request)) <==> LastStored(s.log, slot) == Some(request) {
      assert Live(s, slot, request) <==> LastStored(s.log, slot) == Some(request);
    }
    forall slot | slot in s.db.hash && s.db.hash[slot].Bare? ensures WasRemoved(s.log, slot) {
      BareWasRemoved(c, s, slot);
    }
  }

  lemma BareWasRemoved(c: Config, s: State, slot: Slot)
    requires FieldsOk(c, s.log, s.db) && StoresLast(s) && slot in s.db.hash && s.db.hash[slot].Bare?
    ensures WasRemoved(s.log, slot)
  {
    assert FieldOk(c, s.log, slot, s.db.hash[slot]);
    var request :| WasHashed(s.log, slot, request);
    assert forall r :: !Live(s, slot, r);
    GoneWasRemoved(s.log, slot, request);
  }

  /** A removed request is read again only if its field was stored again after the removal. */
  lemma ReadAgainWasStoredAgain(c: Config, s: State, i: nat, j: nat) returns (k: nat)
    requires Reachable(c, s) && i < j < |s.log|
    requires s.log[i].Removed? && s.log[j].Read? && s.log[i].slot == s.log[j].slot
    ensures i < k < j && s.log[k].Hashed? && s.log[k].slot == s.log[i].slot
  {
    ReachableLast(c, s);
    k := StoredAgain(s.log[..j], s.log[i].slot, i);
  }

  /** What a call finds: the request stored last, and nothing once that is removed, even where `hsetnx` has left a
      number. It finds out if the key of the hash is free. */
  lemma CallFindsLast(c: Config, s: State, pid: Pid, digest: Digest)
    requires Reachable(c, s) && pid in s.procs && s.procs[pid].CallRead?
    ensures var slot, status := s.procs[pid].slot, s.procs[pid].status;
            var next := Next(c, s, Run(pid, digest));
            && (next.Some? <==> s.db.HashFree(slot.tid))
            && (next.Some? ==> next.value.procs[pid] == match LastStored(s.log, slot)
                                                        case Some(request) => CallCheck(slot, status, request)
                                                        case None => Failed(NotFound))
  {
    HashFollowsLog(c, s);
    var slot := s.procs[pid].slot;
    assert forall request :: s.db.Hget(slot) == Some(Stored(request)) <==> LastStored(s.log, slot) == Some(request);
  }

  // When no field is stored twice

  lemma PrefixEvents(log: seq<Event>, slot: Slot)
    requires log != []
    ensures var n := |log| - 1;
            && (WasRemoved(log, slot) <==> WasRemoved(log[..n], slot) || (log[n].Removed? && log[n].slot == slot))
            && forall r :: WasHashed(log, slot, r) <==>
                 WasHashed(log[..n], slot, r) || (log[n].Hashed? && log[n].slot == slot && log[n].request == r)
  {
    var n := |log| - 1;
    assert log == log[..n] + [log[n]];
    assert log[n] in log;
    assert log[n].Removed? ==> log[n] == Removed(log[n].pid, log[n].slot);
    assert log[n].Hashed? ==> log[n] == Hashed(log[n].pid, log[n].slot, log[n].request);
  }

  lemma FirstHashed(log: seq<Event>, e: Event)
    requires e.Hashed? && HashedOnce(log + [e])
    ensures forall r :: !WasHashed(log, e.slot, r)
  {
    forall i | 0 <= i < |log| && log[i].Hashed? ensures log[i].slot != e.slot {
      assert (log + [e])[i] == log[i] && (log + [e])[|log|] == e;
    }
  }

  lemma {:induction false} LastOnce(c: Config, log: seq<Event>, slot: Slot, request: Request)
    requires JustifiedLog(c, log) && HashedOnce(log)
    ensures LastStored(log, slot) == Some(request) <==> WasHashed(log, slot, request) && !WasRemoved(log, slot)
  {
    if log != [] {
      var n := |log| - 1;
      PrefixEvents(log, slot);
      if log[n].Hashed? && log[n].slot == slot {
        assert log == log[..n] + [log[n]];
        FirstHashed(log[..n], log[n]);
        PrefixJustified(c, log, n);
        if WasRemoved(log[..n], slot) {
          var r := RemovedWasHashed(c, log[..n], slot);
          assert false;
        }
      } else if !(log[n].Removed? && log[n].slot == slot) {
        PrefixJustified(c, log, n);
        LastOnce(c, log[..n], slot, request);
      }
    }
  }

  lemma LogGrows(c: Config, s: State, l: Label)
    requires Next(c, s, l).Some?
    ensures s.log <= Next(c, s, l).value.log
  {
  }

  lemma {:induction false} PlayGrows(c: Config, s: State, labels: seq<Label>)
    requires Play(c, s, labels).Some?
    ensures s.log <= Play(c, s, labels).value.log
    decreases |labels|
  {
    if labels != [] {
      LogGrows(c, s, labels[0]);
      PlayGrows(c, Next(c, s, labels[0]).value, labels[1..]);
    }
  }

  lemma HashedOncePrefix(log: seq<Event>, longer: seq<Event>)
    requires HashedOnce(longer) && log <= longer
    ensures HashedOnce(log)
  {
  }

  /** If no field is stored twice, the hash holds a request exactly when it was stored and not yet removed; a
      bare number stands only where a removed request stood; and a removed request is never read again. */
  lemma StoredUntilRemoved(c: Config, s: State)
    requires Reachable(c, s) && HashedOnce(s.log)
    ensures forall slot, request ::
      s.db.Hget(slot) == Some(Stored(request)) <==> WasHashed(s.log, slot, request) && !WasRemoved(s.log, slot)
    ensures forall slot | slot in s.db.hash && s.db.hash[slot].Bare? :: WasRemoved(s.log, slot)
    ensures forall i, j | 0 <= i < |s.log| && 0 <= j < |s.log| && s.log[i].Removed? && s.log[j].Read?
                          && s.log[i].slot == s.log[j].slot :: j < i
  {
    ReachableLog(c, s);
    HashFollowsLog(c, s);
    forall slot, request ensures s.db.Hget(slot) == Some(Stored(request))
                            <==> WasHashed(s.log, slot, request) && !WasRemoved(s.log, slot) {
      LastOnce(c, s.log, slot, request);
    }
    forall i, j | 0 <= i < |s.log| && 0 <= j < |s.log| && s.log[i].Removed? && s.log[j].Read?
                  && s.log[i].slot == s.log[j].slot ensures j < i {
      if i < j {
        var k := ReadAgainWasStoredAgain(c, s, i, j);
        RemovedAfterHashed(c, s, i, k);
        assert false;
      }
    }
  }

  /** If no field is stored twice, a field is not stored after its removal. */
  lemma RemovedAfterHashed(c: Config, s: State, i: nat, k: nat)
    requires Reachable(c, s) && HashedOnce(s.log) && i < |s.log| && k < |s.log|
    requires s.log[i].Removed? && s.log[k].Hashed? && s.log[i].slot == s.log[k].slot
    ensures k < i
  {
    ReachableLog(c, s);
    var past := s.log[..i];
    assert Justified(c, past, s.log[i]);
    var request :| WasAdmitted(past, s.log[i].pid, request) && s.log[i].slot == RequestSlot(request);
    var _, _, _, hashed, _, _, _ := TraceBack(c, s.log, i, s.log[i].pid, request);
    assert hashed == k;
  }

  /** So a call that reads after the removal fails with not-found, even where `hsetnx` left a number behind. */
  lemma RemovedIsFinal(c: Config, s: State, pid: Pid, digest: Digest)
    requires Reachable(c, s) && HashedOnce(s.log)
    requires pid in s.procs && s.procs[pid].CallRead? && WasRemoved(s.log, s.procs[pid].slot)
    requires Next(c, s, Run(pid, digest)).Some?
    ensures Next(c, s, Run(pid, digest)).value.procs[pid] == Failed(NotFound)
  {
    ReachableLog(c, s);
    CallFindsLast(c, s, pid, digest);
    var slot := s.procs[pid].slot;
    if LastStored(s.log, slot).Some? {
      LastOnce(c, s.log, slot, LastStored(s.log, slot).value);
      assert false;
    }
  }

  /** Two committed accepts of one request can only come from calls that overlap: each read the request before
      either had it removed, hence before either committed. */
  lemma DoubleCommitOverlaps(c: Config, s: State, i: nat, j: nat) returns (ri: nat, rj: nat)
    requires Reachable(c, s) && HashedOnce(s.log)
    requires i < j < |s.log| && s.log[i].Committed? && s.log[j].Committed?
    requires RequestSlot(s.log[i].request) == RequestSlot(s.log[j].request)
    ensures s.log[i].pid != s.log[j].pid && s.log[i].request == s.log[j].request
    ensures ri < i && rj < i
    ensures s.log[ri] == Read(s.log[i].pid, RequestSlot(s.log[i].request), Accept, s.log[i].request)
    ensures s.log[rj] == Read(s.log[j].pid, RequestSlot(s.log[j].request), Accept, s.log[j].request)
    ensures forall k | 0 <= k < |s.log| && s.log[k].Removed? && s.log[k].slot == RequestSlot(s.log[i].request) ::
              ri < k && rj < k
    ensures Removed(s.log[i].pid, RequestSlot(s.log[i].request)) in s.log[..i]
    ensures Removed(s.log[j].pid, RequestSlot(s.log[j].request)) in s.log[..j]
  {
    StoredUntilRemoved(c, s);
    ReachableLog(c, s);
    var q1, a1, c1, h1, r1, p1, d1, x1 := Consent(c, s, i);
    var q2, a2, c2, h2, r2, p2, d2, x2 := Consent(c, s, j);
    ri, rj := r1, r2;
    if s.log[i].pid == s.log[j].pid {
      SameRankSameEvent(s.log, i, j);
      assert false;
    }
    assert s.log[h1] in s.log && s.log[h2] in s.log;
    HashedOnceSame(s.log, RequestSlot(s.log[i].request), s.log[i].request, s.log[j].request);
  }

  // Ids

  /** A stored request is one that was created before. */
  lemma HashedWasCreated(c: Config, log: seq<Event>, i: nat) returns (k: nat)
    requires JustifiedLog(c, log) && i < |log| && log[i].Hashed?
    ensures k < i && log[k] == Created(log[i].pid, log[i].request) && log[i].slot == RequestSlot(log[i].request)
  {
    assert Justified(c, log[..i], log[i]);
    k :| 0 <= k < i && log[..i][k] == Created(log[i].pid, log[i].request);
  }

  lemma DistinctIdsHashedOnce(c: Config, s: State)
    requires Reachable(c, s)
    requires forall i, j | 0 <= i < j < |s.log| && s.log[i].Created? && s.log[j].Created?
                           && s.log[i].request.recive == s.log[j].request.recive ::
               s.log[i].request.rid != s.log[j].request.rid
    ensures HashedOnce(s.log)
  {
    ReachableLog(c, s);
    forall i, j | 0 <= i < j < |s.log| && s.log[i].Hashed? && s.log[j].Hashed? ensures s.log[i].slot != s.log[j].slot {
      if s.log[i].slot == s.log[j].slot {
        var k := HashedWasCreated(c, s.log, i);
        var m := HashedWasCreated(c, s.log, j);
        if k == m {
          SameRankSameEvent(s.log, i, j);
        }
        assert false;
      }
    }
  }

  /** It is enough that no pair of users gets the same id twice: ids of different senders to one receiver differ
      whatever the hash, dashes or not. */
  lemma PairwiseIdsSuffice(c: Config, s: State)
    requires Reachable(c, s)
    requires forall i, j | 0 <= i < j < |s.log| && s.log[i].Created? && s.log[j].Created?
                           && s.log[i].request.sender == s.log[j].request.sender
                           && s.log[i].request.recive == s.log[j].request.recive ::
               s.log[i].request.rid != s.log[j].request.rid
    ensures HashedOnce(s.log)
  {
    ReachableLog(c, s);
    forall i, j | 0 <= i < j < |s.log| && s.log[i].Created? && s.log[j].Created?
                  && s.log[i].request.recive == s.log[j].request.recive
      ensures s.log[i].request.rid != s.log[j].request.rid {
      var ri, rj := s.log[i].request, s.log[j].request;
      assert Justified(c, s.log[..i], s.log[i]) && Justified(c, s.log[..j], s.log[j]);
      var di: Digest :| ri.rid == CreateRid(ri.sender, ri.recive, c.worker, di);
      var dj: Digest :| rj.rid == CreateRid(rj.sender, rj.recive, c.worker, dj);
      OneReceiverIds(ri.sender, rj.sender, ri.recive, c.worker, di, dj);
    }
    DistinctIdsHashedOnce(c, s);
  }
}
