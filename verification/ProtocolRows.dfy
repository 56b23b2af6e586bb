/** The friend relation is that of the committed accepts, and symmetric at every step. */
module ProtocolRows {
  import opened Wrappers
  import opened Requests
  import opened RequestDb
  import opened FriendRows
  import opened Protocol
  import opened ProtocolInvariant
  import opened ProtocolSteps
  import opened ProtocolConsent

  function CommitPairs(log: seq<Event>): multiset<Pair> {
    if log == [] then multiset{} else
      var e := log[|log| - 1];
      CommitPairs(log[..|log| - 1]) + if e.Committed? then BothPairs(e.request.sender, e.request.recive) else multiset{}
  }

  function Commits(log: seq<Event>): (n: nat)
    ensures |CommitPairs(log)| == 2 * n
  {
    if log == [] then 0 else Commits(log[..|log| - 1]) + if log[|log| - 1].Committed? then 1 else 0
  }

  lemma {:induction false} CommitPairsSymmetric(log: seq<Event>)
    ensures Symmetric(CommitPairs(log))
  {
    if log != [] {
      CommitPairsSymmetric(log[..|log| - 1]);
      var before := CommitPairs(log[..|log| - 1]);
      forall a, b ensures CommitPairs(log)[(a, b)] == CommitPairs(log)[(b, a)] {
        assert before[(a, b)] == before[(b, a)];
      }
    }
  }

  /** Both ends of a committed friendship are registered users. */
  lemma {:induction false} CommittersRegistered(c: Config, log: seq<Event>, a: string, b: string)
    requires JustifiedLog(c, log) && (a, b) in CommitPairs(log)
    ensures a in c.ids && b in c.ids
  {
    var n := |log| - 1;
    PrefixJustified(c, log, n);
    if (a, b) in CommitPairs(log[..n]) {
      CommittersRegistered(c, log[..n], a, b);
    } else {
      assert Justified(c, log[..n], log[n]);
      var _, _, _, _, _, _, _ := TraceBack(c, log, n, log[n].pid, log[n].request);
    }
  }

  /** The pairs a step commits. */
  function Committing(p: Proc): multiset<Pair> {
    if p.AccCommit? then BothPairs(p.request.sender, p.request.recive) else multiset{}
  }

  lemma CommitTold(c: Config, s: State, l: Label, t: State)
    requires Shape(c, s, l, t)
    ensures CommitPairs(t.log) == CommitPairs(s.log) + Committing(Doing(s, l))
  {
  }

  // Rows come from commits, whatever the document ids

  lemma RowsWithinStep(c: Config, s: State, l: Label, t: State)
    requires ProcsOk(c, s) && Pairs(s.rows) <= CommitPairs(s.log) && Shape(c, s, l, t)
    ensures Pairs(t.rows) <= CommitPairs(t.log)
  {
    var p := Doing(s, l);
    CommitTold(c, s, l, t);
    if p.AccCommit? {
      assert ProcOk(c, s.log, s.mail, l.pid, p);
      BothRowsPairs(s.rows, p.request.sender, p.request.recive);
    } else if p.TagWrite? {
      SetTagKeepsPairs(s.rows, p.source, p.target, p.tag);
    } else if p.DropDelete? {
      DeleteOnePairs(s.rows, p.source, p.id);
    }
  }

  lemma {:induction false} RowsWithinPlay(c: Config, s: State, labels: seq<Label>)
    requires Inv(c, s) && Pairs(s.rows) <= CommitPairs(s.log) && Play(c, s, labels).Some?
    ensures var t := Play(c, s, labels).value; Pairs(t.rows) <= CommitPairs(t.log)
    decreases |labels|
  {
    if labels != [] {
      var t := Next(c, s, labels[0]).value;
      StepShape(c, s, labels[0]);
      RowsWithinStep(c, s, labels[0], t);
      StepInv(c, s, labels[0]);
      RowsWithinPlay(c, t, labels[1..]);
    }
  }

  lemma {:induction false} PairWasCommitted(log: seq<Event>, a: string, b: string) returns (k: nat)
    requires (a, b) in CommitPairs(log)
    ensures k < |log| && log[k].Committed?
    ensures (log[k].request.sender, log[k].request.recive) in {(a, b), (b, a)}
  {
    k := |log| - 1;
    if (a, b) in CommitPairs(log[..k]) {
      k := PairWasCommitted(log[..k], a, b);
    }
  }

  /** Every row of every reachable state traces back, whatever the document ids are: a and b are friends only if one of
      them asked the other by an `add`, the request was stored under the other's id, a call by the other with status
      accept read it, both expiry checks passed in time, and it was removed before the rows were committed. */
  lemma RowTracesBack(c: Config, s: State, a: string, b: string)
    returns (q: Pid, asked: nat, created: nat, hashed: nat, read: nat, passed: nat, admitted: nat, removed: nat,
             committed: nat)
    requires Reachable(c, s) && HasFriend(s.rows, a, b)
    ensures asked < created < hashed < read < passed < admitted < removed < committed < |s.log|
    ensures s.log[committed].Committed?
    ensures var pid, request := s.log[committed].pid, s.log[committed].request;
            var slot := Slot(request.recive, request.rid);
            && (request.sender, request.recive) in {(a, b), (b, a)}
            && s.log[asked] == Asked(q, request.sender, request.recive)
            && s.log[created] == Created(q, request)
            && s.log[hashed] == Hashed(q, slot, request)
            && s.log[read] == Read(pid, slot, Accept, request)
            && s.log[passed].Passed? && s.log[passed].pid == pid && s.log[passed].at <= request.expire
            && s.log[admitted].Admitted? && s.log[admitted].pid == pid && s.log[admitted].at <= request.expire
            && s.log[removed] == Removed(pid, slot)
    ensures a in c.ids && b in c.ids
  {
    var labels :| Play(c, Init(c), labels) == Some(s);
    InitInv(c);
    RowsWithinPlay(c, Init(c), labels);
    assert (a, b) in Pairs(s.rows);
    committed := PairWasCommitted(s.log, a, b);
    q, asked, created, hashed, read, passed, admitted, removed := Consent(c, s, committed);
  }

  /** Document ids are never user ids. */
  ghost predicate IdsApart(c: Config) {
    forall t, u | t in c.ids && u in c.ids :: c.ids[t] != u
  }

  ghost predicate RowsAreCommits(s: State) {
    Pairs(s.rows) == CommitPairs(s.log)
  }

  /** A `remove` never finds the row it looks for. */
  lemma DropFindsNothing(c: Config, s: State, pid: Pid)
    requires IdsApart(c) && JustifiedLog(c, s.log) && RowsAreCommits(s)
    requires pid in s.procs && s.procs[pid].DropDelete? && ProcOk(c, s.log, s.mail, pid, s.procs[pid])
    ensures DeleteOne(s.rows, s.procs[pid].source, s.procs[pid].id) == s.rows
  {
    var p := s.procs[pid];
    if HasFriend(s.rows, p.source, p.id) {
      CommittersRegistered(c, s.log, p.source, p.id);
      assert false;
    }
    DeleteOnePairs(s.rows, p.source, p.id);
  }

  lemma RowsMove(c: Config, s: State, l: Label, t: State)
    requires IdsApart(c) && JustifiedLog(c, s.log) && ProcsOk(c, s) && RowsAreCommits(s) && Shape(c, s, l, t)
    ensures Pairs(t.rows) == Pairs(s.rows) + Committing(Doing(s, l))
  {
    var p := Doing(s, l);
    if p.AccCommit? {
      assert ProcOk(c, s.log, s.mail, l.pid, p);
      BothRowsPairs(s.rows, p.request.sender, p.request.recive);
    } else if p.TagWrite? {
      SetTagKeepsPairs(s.rows, p.source, p.target, p.tag);
    } else if p.DropDelete? {
      assert ProcOk(c, s.log, s.mail, l.pid, p);
      DropFindsNothing(c, s, l.pid);
    }
  }

  lemma RowsStep(c: Config, s: State, l: Label)
    requires IdsApart(c) && Inv(c, s) && RowsAreCommits(s) && Next(c, s, l).Some?
    ensures RowsAreCommits(Next(c, s, l).value)
    ensures Pairs(s.rows) <= Pairs(Next(c, s, l).value.rows)
  {
    var t := Next(c, s, l).value;
    StepShape(c, s, l);
    RowsMove(c, s, l, t);
    CommitTold(c, s, l, t);
  }

  lemma {:induction false} RowsPlay(c: Config, s: State, labels: seq<Label>)
    requires IdsApart(c) && Inv(c, s) && RowsAreCommits(s) && Play(c, s, labels).Some?
    ensures var t := Play(c, s, labels).value; RowsAreCommits(t) && Pairs(s.rows) <= Pairs(t.rows)
    decreases |labels|
  {
    if labels != [] {
      RowsStep(c, s, labels[0]);
      StepInv(c, s, labels[0]);
      RowsPlay(c, Next(c, s, labels[0]).value, labels[1..]);
    }
  }

  /** In every reachable state, amid any accepts, failures, tag changes and removals: the rows are those of the
      committed accepts, two for each; the relation is symmetric, and `hasFriend` with it. */
  lemma AtomicSymmetry(c: Config, s: State)
    requires IdsApart(c) && Reachable(c, s)
    ensures Pairs(s.rows) == CommitPairs(s.log)
    ensures |s.rows| == 2 * Commits(s.log)
    ensures Symmetric(Pairs(s.rows))
    ensures forall a, b :: HasFriend(s.rows, a, b) == HasFriend(s.rows, b, a)
  {
    var labels :| Play(c, Init(c), labels) == Some(s);
    InitInv(c);
    RowsPlay(c, Init(c), labels);
    CommitPairsSymmetric(s.log);
    forall a, b ensures HasFriend(s.rows, a, b) == HasFriend(s.rows, b, a) {
      assert Pairs(s.rows)[(a, b)] == Pairs(s.rows)[(b, a)];
    }
  }

  /** `remove` looks for a document id where rows hold user ids: no run ever ends a friendship. */
  lemma FriendshipsNeverEnd(c: Config, s: State, labels: seq<Label>)
    requires IdsApart(c) && Reachable(c, s) && Play(c, s, labels).Some?
    ensures Pairs(s.rows) <= Pairs(Play(c, s, labels).value.rows)
  {
    ReachableInv(c, s);
    AtomicSymmetry(c, s);
    RowsPlay(c, s, labels);
  }
}
