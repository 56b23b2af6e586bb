/** Where a committed friendship comes from, and that a process has one outcome. */
module ProtocolConsent {
  import opened Wrappers
  import opened Requests
  import opened RequestDb
  import opened FriendRows
  import opened Protocol
  import opened ProtocolInvariant

  // Going back through the log

  /** An event of the first n is at some place below n, justified by what is below that place. */
  lemma Earlier(c: Config, log: seq<Event>, n: nat, e: Event) returns (k: nat)
    requires JustifiedLog(c, log) && n <= |log| && e in log[..n]
    ensures k < n && log[k] == e && Justified(c, log[..k], e)
  {
    k :| 0 <= k < n && log[..n][k] == e;
    assert Justified(c, log[..k], log[k]);
  }

  /** From an admitted accept back to the `add` that asked for it, in order. */
  lemma TraceBack(c: Config, log: seq<Event>, n: nat, pid: Pid, request: Request)
    returns (q: Pid, asked: nat, created: nat, hashed: nat, read: nat, passed: nat, admitted: nat)
    requires JustifiedLog(c, log) && n <= |log| && WasAdmitted(log[..n], pid, request)
    ensures asked < created < hashed < read < passed < admitted < n
    ensures log[asked] == Asked(q, request.sender, request.recive)
    ensures log[created] == Created(q, request) && FromAdd(c, request)
    ensures log[hashed] == Hashed(q, RequestSlot(request), request)
    ensures log[read] == Read(pid, RequestSlot(request), Accept, request)
    ensures log[passed].Passed? && log[passed].pid == pid && log[passed].request == request
         && log[passed].at <= request.expire
    ensures log[admitted].Admitted? && log[admitted].pid == pid && log[admitted].request == request
         && log[admitted].at <= request.expire
    ensures request.sender in c.ids && request.recive in c.ids
  {
    var slot := RequestSlot(request);
    var at1 :| Admitted(pid, request, at1) in log[..n];
    admitted := Earlier(c, log, n, Admitted(pid, request, at1));
    var at0 :| Passed(pid, slot, Accept, request, at0) in log[..admitted];
    passed := Earlier(c, log, admitted, Passed(pid, slot, Accept, request, at0));
    read := Earlier(c, log, passed, Read(pid, slot, Accept, request));
    q :| Hashed(q, slot, request) in log[..read];
    hashed := Earlier(c, log, read, Hashed(q, slot, request));
    created := Earlier(c, log, hashed, Created(q, request));
    asked := Earlier(c, log, created, Asked(q, request.sender, request.recive));
  }

  /** A process observes each kind of event at most once. */
  lemma SameRankSameEvent(log: seq<Event>, i: nat, j: nat)
    requires RanksRise(log) && i < |log| && j < |log| && log[i].pid == log[j].pid
    requires !log[i].Removed? && !log[j].Removed? && EventRank(log[i]) == EventRank(log[j])
    ensures i == j
  {
    assert i < j ==> Rises(log[i], log[j]);
    assert j < i ==> Rises(log[j], log[i]);
  }

  /** Every committed friendship was asked for by one end and accepted by the other: one `add` by the sender made
      the request and stored it in the receiver's hash; a call by the receiver with status accept read it there;
      it was unexpired when that call and, later, the accept checked it; and it was removed before the commit. */
  lemma Consent(c: Config, s: State, committed: nat)
    returns (q: Pid, asked: nat, created: nat, hashed: nat, read: nat, passed: nat, admitted: nat, removed: nat)
    requires Reachable(c, s) && committed < |s.log| && s.log[committed].Committed?
    ensures asked < created < hashed < read < passed < admitted < removed < committed
    ensures var pid, request := s.log[committed].pid, s.log[committed].request;
            var slot := Slot(request.recive, request.rid);
            && s.log[asked] == Asked(q, request.sender, request.recive)
            && s.log[created] == Created(q, request)
            && s.log[hashed] == Hashed(q, slot, request)
            && s.log[read] == Read(pid, slot, Accept, request)
            && s.log[passed].Passed? && s.log[passed].pid == pid && s.log[passed].at <= request.expire
            && s.log[admitted].Admitted? && s.log[admitted].pid == pid && s.log[admitted].at <= request.expire
            && s.log[removed] == Removed(pid, slot)
            && request.sender in c.ids && request.recive in c.ids
  {
    ReachableLog(c, s);
    var log, pid, request := s.log, s.log[committed].pid, s.log[committed].request;
    assert Justified(c, log[..committed], log[committed]);
    q, asked, created, hashed, read, passed, admitted := TraceBack(c, log, committed, pid, request);
    removed := Earlier(c, log, committed, Removed(pid, RequestSlot(request)));
    RemovedAfterAdmitted(c, log, removed, admitted);
  }

  /** The accept that asked for a removal is the only one of its process. */
  lemma RemovedAfterAdmitted(c: Config, log: seq<Event>, removed: nat, admitted: nat)
    requires JustifiedLog(c, log) && RanksRise(log) && removed < |log| && admitted < |log|
    requires log[removed].Removed? && log[admitted].Admitted? && log[removed].pid == log[admitted].pid
    ensures admitted < removed && log[removed].slot == RequestSlot(log[admitted].request)
  {
    var pid := log[removed].pid;
    assert Justified(c, log[..removed], log[removed]);
    var other :| WasAdmitted(log[..removed], pid, other) && log[removed].slot == RequestSlot(other);
    var at1 :| Admitted(pid, other, at1) in log[..removed];
    var k := Earlier(c, log, removed, Admitted(pid, other, at1));
    SameRankSameEvent(log, k, admitted);
  }

  lemma ReadWasHashed(c: Config, log: seq<Event>, read: Event)
    requires JustifiedLog(c, log) && read.Read? && read in log
    ensures WasHashed(log, read.slot, read.request) && read.slot == RequestSlot(read.request)
  {
    assert log[..|log|] == log;
    var k := Earlier(c, log, |log|, read);
    var q :| Hashed(q, read.slot, read.request) in log[..k];
    assert Hashed(q, read.slot, read.request) in log;
  }

  lemma HashedFromAdd(c: Config, log: seq<Event>, slot: Slot, request: Request)
    requires JustifiedLog(c, log) && WasHashed(log, slot, request)
    ensures FromAdd(c, request) && slot == RequestSlot(request)
  {
    assert log[..|log|] == log;
    var q :| Hashed(q, slot, request) in log;
    var k := Earlier(c, log, |log|, Hashed(q, slot, request));
    var m := Earlier(c, log, k, Created(q, request));
  }

  lemma PrefixJustified(c: Config, log: seq<Event>, k: nat)
    requires JustifiedLog(c, log) && k <= |log|
    ensures JustifiedLog(c, log[..k])
  {
    forall i | 0 <= i < k ensures Justified(c, log[..k][..i], log[..k][i]) {
      assert log[..k][..i] == log[..i];
    }
  }

  /** An accept commits at most once, and one that aborted never does. */
  lemma OneOutcome(c: Config, s: State, i: nat, j: nat)
    requires Reachable(c, s) && i < |s.log| && j < |s.log| && s.log[i].pid == s.log[j].pid
    requires s.log[i].Committed? && (s.log[j].Committed? || s.log[j].Aborted?)
    ensures i == j
  {
    ReachableLog(c, s);
    SameRankSameEvent(s.log, i, j);
  }

  /** What an accept removes is the entry its call read, and its call read no other. */
  lemma AcceptTouchesItsOwn(c: Config, s: State, removed: nat) returns (read: nat)
    requires Reachable(c, s) && removed < |s.log| && s.log[removed].Removed?
    ensures read < removed && s.log[read].Read? && s.log[read].status == Accept
    ensures s.log[read].pid == s.log[removed].pid && s.log[read].slot == s.log[removed].slot
    ensures forall i | 0 <= i < |s.log| && s.log[i].Read? && s.log[i].pid == s.log[removed].pid :: i == read
  {
    ReachableLog(c, s);
    var pid, slot := s.log[removed].pid, s.log[removed].slot;
    var past := s.log[..removed];
    assert Justified(c, past, s.log[removed]);
    var request :| WasAdmitted(past, pid, request) && slot == RequestSlot(request);
    var _, _, _, _, k, _, _ := TraceBack(c, s.log, removed, pid, request);
    read := k;
    forall i | 0 <= i < |s.log| && s.log[i].Read? && s.log[i].pid == pid ensures i == read {
      SameRankSameEvent(s.log, i, read);
    }
  }
}
