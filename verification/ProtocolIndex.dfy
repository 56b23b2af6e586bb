/** The sorted index against the hash under arbitrary interleaving. */
module ProtocolIndex {
  import opened Wrappers
  import opened Requests
  import opened RequestDb
  import opened FriendRows
  import opened Protocol
  import opened ProtocolInvariant
  import opened ProtocolSteps
  import opened ProtocolConsent
  import opened ProtocolHash
  import opened SortedSet

  predicate Between(proc: Proc, slot: Slot) {
    (proc.AddNx? || proc.AddIndex?) && proc.slot == slot
  }

  ghost predicate Covered(s: State, slot: Slot) {
    s.db.Score(slot).Some? || exists q :: q in s.procs && Between(s.procs[q], slot)
  }

  ghost predicate IndexCovers(s: State) {
    forall slot | slot in s.db.hash :: Covered(s, slot)
  }

  lemma ScoresStay(c: Config, s: State, l: Label, t: State, slot: Slot)
    requires Shape(c, s, l, t)
    ensures s.db.Score(slot).Some? ==> t.db.Score(slot).Some?
  {
    if Doing(s, l).AddIndex? && !l.HandleRemove? {
      ZaddIndexScore(s.db, Doing(s, l).slot, Doing(s, l).bumped, slot);
    } else {
      assert t.db.index == s.db.index;
    }
  }

  lemma BetweenStays(c: Config, s: State, l: Label, t: State, slot: Slot, q: Pid)
    requires Shape(c, s, l, t) && q in s.procs && Between(s.procs[q], slot)
    ensures Covered(t, slot)
  {
    var p := Doing(s, l);
    if p.AddIndex? && l.pid == q {
      ZaddIndexScore(s.db, slot, p.bumped, slot);
    } else {
      assert q in t.procs && Between(t.procs[q], slot);
    }
  }

  lemma NewFieldBetween(c: Config, s: State, l: Label, t: State, slot: Slot)
    requires Shape(c, s, l, t) && slot in t.db.hash && slot !in s.db.hash
    ensures Covered(t, slot)
  {
  }

  lemma CoverStep(c: Config, s: State, l: Label)
    requires IndexCovers(s) && Next(c, s, l).Some?
    ensures IndexCovers(Next(c, s, l).value)
  {
    var t := Next(c, s, l).value;
    StepShape(c, s, l);
    forall slot | slot in t.db.hash ensures Covered(t, slot) {
      if slot !in s.db.hash {
        NewFieldBetween(c, s, l, t, slot);
      } else {
        assert Covered(s, slot);
        if s.db.Score(slot).Some? {
          ScoresStay(c, s, l, t, slot);
        } else {
          var q :| q in s.procs && Between(s.procs[q], slot);
          BetweenStays(c, s, l, t, slot, q);
        }
      }
    }
  }

  lemma {:induction false} CoverPlay(c: Config, s: State, labels: seq<Label>)
    requires IndexCovers(s) && Play(c, s, labels).Some?
    ensures IndexCovers(Play(c, s, labels).value)
    decreases |labels|
  {
    if labels != [] {
      CoverStep(c, s, labels[0]);
      CoverPlay(c, Next(c, s, labels[0]).value, labels[1..]);
    }
  }

  lemma {:induction false} IndexNeverShrinks(c: Config, s: State, labels: seq<Label>, slot: Slot)
    requires Play(c, s, labels).Some? && s.db.Score(slot).Some?
    ensures Play(c, s, labels).value.db.Score(slot).Some?
    decreases |labels|
  {
    if labels != [] {
      var t := Next(c, s, labels[0]).value;
      StepShape(c, s, labels[0]);
      ScoresStay(c, s, labels[0], t, slot);
      IndexNeverShrinks(c, t, labels[1..], slot);
    }
  }

  /** Every field of the hash is in the index or belongs to an `addRequest` between its `hset` and its `zadd`. */
  lemma IndexCoversStore(c: Config, s: State, slot: Slot)
    requires Reachable(c, s) && slot in s.db.hash
    ensures s.db.Score(slot).Some? || exists q :: q in s.procs && Between(s.procs[q], slot)
  {
    var labels :| Play(c, Init(c), labels) == Some(s);
    CoverPlay(c, Init(c), labels);
    assert Covered(s, slot);
  }

  ghost predicate IndexSorted(s: State) {
    forall tid :: Valid(s.db.Index(tid))
  }

  lemma SortedStep(c: Config, s: State, l: Label)
    requires IndexSorted(s) && Next(c, s, l).Some?
    ensures IndexSorted(Next(c, s, l).value)
  {
    var t := Next(c, s, l).value;
    StepShape(c, s, l);
    SortedShape(c, s, l, t);
  }

  lemma SortedShape(c: Config, s: State, l: Label, t: State)
    requires IndexSorted(s) && Shape(c, s, l, t)
    ensures IndexSorted(t)
  {
    var p := Doing(s, l);
    if p.AddIndex? && !l.HandleRemove? {
      ZaddValid(s.db.Index(p.slot.tid), p.bumped, p.slot.rid);
      forall tid ensures Valid(t.db.Index(tid)) {
        assert tid != p.slot.tid ==> t.db.Index(tid) == s.db.Index(tid);
      }
    } else {
      assert t.db.index == s.db.index;
      forall tid ensures Valid(t.db.Index(tid)) {
        assert t.db.Index(tid) == s.db.Index(tid);
      }
    }
  }

  lemma {:induction false} SortedPlay(c: Config, s: State, labels: seq<Label>)
    requires IndexSorted(s) && Play(c, s, labels).Some?
    ensures IndexSorted(Play(c, s, labels).value)
    decreases |labels|
  {
    if labels != [] {
      SortedStep(c, s, labels[0]);
      SortedPlay(c, Next(c, s, labels[0]).value, labels[1..]);
    }
  }

  lemma ReachableSorted(c: Config, s: State)
    requires Reachable(c, s)
    ensures IndexSorted(s)
  {
    var labels :| Play(c, Init(c), labels) == Some(s);
    SortedPlay(c, Init(c), labels);
  }

  /** So in every reachable state paging reaches every field of the hash but those whose `addRequest` has yet to execute
      its `zadd`. */
  lemma EveryFieldOnSomePage(c: Config, s: State, slot: Slot) returns (page: int)
    requires Reachable(c, s) && slot in s.db.hash && c.size >= 1
    ensures (page >= 1 && Some(s.db.hash[slot]) in Listing(s.db, slot.tid, Some(page), c.size))
            || exists q :: q in s.procs && Between(s.procs[q], slot)
  {
    IndexCoversStore(c, s, slot);
    page := 0;
    if s.db.Score(slot).Some? {
      ReachableSorted(c, s);
      page := EveryRequestOnSomePage(s.db, slot.tid, slot.rid, c.size);
    }
  }

  /** If no field is stored twice, a stored request with a score is scored at its expiry plus the configured one. */
  lemma ScoreIsShiftedExpiry(c: Config, s: State, slot: Slot)
    requires Reachable(c, s) && HashedOnce(s.log)
    requires slot in s.db.hash && s.db.hash[slot].Stored? && s.db.Score(slot).Some?
    ensures s.db.Score(slot).value == s.db.hash[slot].request.expire + c.expire
  {
    ReachableInv(c, s);
    assert FieldOk(c, s.log, slot, s.db.hash[slot]);
    assert ScoreOk(c, s.log, slot, s.db.Score(slot).value);
    var request :| WasHashed(s.log, slot, request) && s.db.Score(slot).value == request.expire + c.expire;
    HashedOnceSame(s.log, slot, request, s.db.hash[slot].request);
  }

  /** In any one reachable state, if no field is stored twice, the unpaged listing of the stores as they stand is
      faithful. */
  lemma ListingSnapshot(c: Config, s: State, tid: string, size: int)
    requires Reachable(c, s) && HashedOnce(s.log) && |s.db.Index(tid)| <= MAX_SAFE_INTEGER + 1
    ensures FaithfulListing(s.db, tid, Listing(s.db, tid, None, size))
  {
    ReachableSorted(c, s);
    forall rid | Slot(tid, rid) in s.db.hash && s.db.hash[Slot(tid, rid)].Stored? && s.db.Score(Slot(tid, rid)).Some?
      ensures s.db.Score(Slot(tid, rid)).value == s.db.hash[Slot(tid, rid)].request.expire + c.expire {
      ScoreIsShiftedExpiry(c, s, Slot(tid, rid));
    }
    ListingFaithful(s.db, tid, c.expire, size);
  }
}
