/**
  Runs the invariants do not rule out: a request accepted twice, a number left in the hash, a request lost, an id
  used again; and exactly when the friend relation can lose its symmetry.
 */
module ProtocolRuns {
  import opened Wrappers
  import opened Requests
  import opened RequestDb
  import opened FriendRows
  import opened Protocol
  import opened ProtocolInvariant
  import opened ProtocolConsent
  import opened ProtocolHash
  import opened ProtocolRows
  import opened ProtocolSerial
  import opened ProtocolRemoval

  lemma NoMoreHashed(log: seq<Event>, more: seq<Event>)
    requires HashedOnce(log) && forall e | e in more :: !e.Hashed?
    ensures HashedOnce(log + more)
  {
  }

  lemma RemovedLater(log: seq<Event>, more: seq<Event>, slot: Slot)
    requires WasRemoved(log, slot)
    ensures WasRemoved(log + more, slot)
  {
    var q :| Removed(q, slot) in log;
    assert Removed(q, slot) in log + more;
  }

  /** The first request of a run. */
  lemma FirstAsk(c: Config, a: string, b: string, msg: string) returns (s: State, request: Request)
    requires a in c.ids && c.expire >= 0
    ensures Reachable(c, s) && HashedOnce(s.log)
    ensures request == RequestOf(c, a, b, msg, c.start, ANY)
    ensures s.db.Hget(RequestSlot(request)) == Some(Stored(request))
    ensures Hashed(0, RequestSlot(request), request) in s.log
    ensures s.rows == [] && s.now == c.start && s.procs == map[0 := Done] && s.mail == map[] && s.db.KeysFree(b)
  {
    s := Init(c);
    InitReachable(c);
    request := RequestOf(c, a, b, msg, s.now, ANY);
    assert !HasFriend(s.rows, a, b);
    s := AddAlone(c, s, 0, a, b, msg, ANY);
  }

  /** At most one accept per request is a property of serial runs only: two calls that both read the request
      before either has it removed both commit, and the friendship is stored twice. */
  lemma TwoCommitsHappen(c: Config, a: string, b: string, msg: string) returns (s: State, request: Request)
    requires a in c.ids && b in c.ids && c.expire >= 0
    ensures Reachable(c, s) && HashedOnce(s.log)
    ensures Committed(1, request) in s.log && Committed(2, request) in s.log
    ensures s.rows == BothRows(a, b) + BothRows(a, b)
  {
    var s0, r := FirstAsk(c, a, b, msg);
    request := r;
    var slot := RequestSlot(request);
    var s1 := CallReads(c, s0, 1, slot, request);
    var s2 := CallReads(c, s1, 2, slot, request);
    var s3 := AcceptAlone(c, s2, 1, slot, request);
    HdelKeysFree(s2.db, slot, b);
    s := AcceptAlone(c, s3, 2, slot, request);
    NoMoreHashed(s0.log, [Read(1, slot, Accept, request)]);
    NoMoreHashed(s1.log, [Read(2, slot, Accept, request)]);
    AcceptHashesNothing(s2.log, s3.log, 1, slot, request, c.start);
    AcceptHashesNothing(s3.log, s.log, 2, slot, request, c.start);
  }

  lemma AcceptHashesNothing(log: seq<Event>, longer: seq<Event>, pid: Pid, slot: Slot, request: Request, now: int)
    requires HashedOnce(log)
    requires longer == log + [Passed(pid, slot, Accept, request, now), Admitted(pid, request, now),
                              Removed(pid, RequestSlot(request)), Committed(pid, request)]
    ensures HashedOnce(longer) && Committed(pid, request) in longer && Removed(pid, RequestSlot(request)) in longer
  {
  }

  /** The first request of a run, just stored. */
  lemma FirstHset(c: Config, a: string, b: string, msg: string) returns (s: State, request: Request)
    requires a in c.ids && c.expire >= 0
    ensures Reachable(c, s) && HashedOnce(s.log)
    ensures request.recive == b && request.mod == FRIEND && request.action == ADD
    ensures request.expire == c.start + c.expire
    ensures s.db.Hget(RequestSlot(request)) == Some(Stored(request)) && s.now == c.start
    ensures s.procs == map[0 := AddNx(RequestSlot(request), request.expire + c.expire)] && s.db.KeysFree(b)
    ensures s.mail == map[]
  {
    var i := Init(c);
    InitReachable(c);
    request := RequestOf(c, a, b, msg, i.now, ANY);
    assert !HasFriend(i.rows, a, b);
    s := AddUpToHset(c, i, 0, a, b, msg, ANY);
  }

  /** A request accepted between the `hset` and the `hsetnx` of its `addRequest`. */
  lemma AcceptedTooSoon(c: Config, a: string, b: string, msg: string) returns (s: State, slot: Slot)
    requires a in c.ids && b in c.ids && c.expire >= 0
    ensures Reachable(c, s) && HashedOnce(s.log) && WasRemoved(s.log, slot) && slot !in s.db.hash
    ensures s.procs == map[0 := AddNx(slot, c.start + 2 * c.expire), 1 := Done] && s.db.KeysFree(slot.tid)
    ensures s.mail == map[1 := Replied]
  {
    var s0, request := FirstHset(c, a, b, msg);
    slot := RequestSlot(request);
    var s1 := CallReads(c, s0, 1, slot, request);
    s := AcceptAlone(c, s1, 1, slot, request);
    HdelKeysFree(s1.db, slot, b);
    NoMoreHashed(s0.log, [Read(1, slot, Accept, request)]);
    AcceptHashesNothing(s1.log, s.log, 1, slot, request, c.start);
  }

  /** With all processes ended and no removal pending nothing moves a number. */
  lemma NumberStaysForGood(c: Config, s: State, slot: Slot)
    requires Reachable(c, s) && HashedOnce(s.log) && WasRemoved(s.log, slot)
    requires slot in s.db.hash && s.db.hash[slot].Bare?
    requires (forall p | p in s.procs :: s.procs[p] == Done) && forall p | p in s.mail :: s.mail[p] == Replied
    ensures forall labels | Play(c, s, labels).Some? && HashedOnce(Play(c, s, labels).value.log) ::
              Play(c, s, labels).value.db.Hget(slot) == s.db.Hget(slot)
  {
    ReachableLog(c, s);
    var request := RemovedWasHashed(c, s.log, slot);
    HashedFromAdd(c, s.log, slot, request);
    NumberTakenIff(c, s, request);
    forall labels | Play(c, s, labels).Some? && HashedOnce(Play(c, s, labels).value.log)
      ensures Play(c, s, labels).value.db.Hget(slot) == s.db.Hget(slot) {
      assert !Changes(c, s, labels, slot);
    }
  }

  /** A removal that slips in between `hset` and `hsetnx` leaves a number in the hash for good: all processes have
      ended, the request is gone, its id is listed with a number in its place, and so it stays in every continuation
      that stores no field twice. */
  lemma NumberLeftBehind(c: Config, a: string, b: string, msg: string) returns (s: State, slot: Slot)
    requires a in c.ids && b in c.ids && c.expire >= 0
    ensures Reachable(c, s) && HashedOnce(s.log) && WasRemoved(s.log, slot)
    ensures forall p | p in s.procs :: s.procs[p] == Done
    ensures slot in s.db.hash && s.db.hash[slot] == Bare(c.start + 2 * c.expire) && s.db.Score(slot).Some?
    ensures forall labels | Play(c, s, labels).Some? && HashedOnce(Play(c, s, labels).value.log) ::
              Play(c, s, labels).value.db.Hget(slot) == Some(Bare(c.start + 2 * c.expire))
  {
    var before, at := AcceptedTooSoon(c, a, b, msg);
    slot := at;
    s := AddEndsBare(c, before, 0, slot, c.start + 2 * c.expire);
    NoMoreHashed(before.log, [Indexed(0, slot, c.start + 2 * c.expire)]);
    RemovedLater(before.log, [Indexed(0, slot, c.start + 2 * c.expire)], slot);
    NumberStaysForGood(c, s, slot);
  }

  /** The removal is not undone when the accept fails after it: the request is lost and nobody is anyone's friend. */
  lemma RequestLost(c: Config, a: string, b: string, msg: string) returns (s: State, request: Request)
    requires a in c.ids && b in c.ids && c.expire >= 0
    ensures Reachable(c, s) && Aborted(1, request) in s.log && request.sender == a && request.recive == b
    ensures s.rows == [] && s.db.Hget(RequestSlot(request)) == None
    ensures request == RequestOf(c, a, b, msg, c.start, ANY) && s.now == c.start && s.procs.Keys == {0, 1}
    ensures s.db.KeysFree(b)
    ensures Hashed(0, RequestSlot(request), request) in s.log && Removed(1, RequestSlot(request)) in s.log
  {
    var s0, r := FirstAsk(c, a, b, msg);
    request := r;
    var slot := RequestSlot(request);
    var s1 := CallReads(c, s0, 1, slot, request);
    var s2 := AcceptUpToRemoval(c, s1, 1, slot, request);
    HdelKeysFree(s1.db, slot, b);
    s := AcceptAborts(c, s2, 1, request);
  }

  /** The hypothesis that no field is stored twice is needed: an id that is used again can be read after its removal. */
  lemma ReusedIdIsReadAgain(c: Config, a: string, b: string, msg: string) returns (s: State, slot: Slot)
    requires a in c.ids && b in c.ids && c.expire >= 0
    ensures Reachable(c, s) && !HashedOnce(s.log)
    ensures exists i, j :: 0 <= i < j < |s.log| && s.log[i] == Removed(1, slot)
                           && s.log[j].Read? && s.log[j].slot == slot
  {
    var s0, request := RequestLost(c, a, b, msg);
    slot := RequestSlot(request);
    var s1 := AddAlone(c, s0, 2, a, b, msg, ANY);
    s := CallReads(c, s1, 3, slot, request);
    var i :| 0 <= i < |s0.log| && s0.log[i] == Removed(1, slot);
    var h :| 0 <= h < |s0.log| && s0.log[h] == Hashed(0, slot, request);
    assert s.log[i] == Removed(1, slot) && s.log[h] == Hashed(0, slot, request);
    assert s1.log[|s0.log| + 2] == Hashed(2, slot, request);
    assert s.log[|s0.log| + 2].slot == s.log[h].slot;
    assert s.log[|s1.log|] == Read(3, slot, Accept, request);
  }

  // When symmetry holds

  lemma FriendsOfOne(a: string, b: string, x: string, y: string)
    ensures HasFriend(BothRows(a, b), x, y) <==> (x == a && y == b) || (x == b && y == a)
  {
    assert PairList(BothRows(a, b)) == [(a, b), (b, a)];
  }

  lemma FriendsAppend(r1: seq<Friend>, r2: seq<Friend>, x: string, y: string)
    ensures HasFriend(r1 + r2, x, y) <==> HasFriend(r1, x, y) || HasFriend(r2, x, y)
  {
    PairsAppend(r1, r2);
  }

  /** The rows of two friendships of x. */
  lemma TwoFriends(x: string, u: string, t: string)
    requires t != u && x != u
    ensures !HasFriend(BothRows(u, x), t, x)
    ensures var rows := BothRows(u, x) + BothRows(t, x);
            HasFriend(rows, x, t) && HasFriend(rows, x, u) && Symmetric(Pairs(rows))
  {
    FriendsOfOne(u, x, t, x);
    FriendsOfOne(u, x, x, u);
    FriendsOfOne(t, x, x, t);
    FriendsAppend(BothRows(u, x), BothRows(t, x), x, t);
    FriendsAppend(BothRows(u, x), BothRows(t, x), x, u);
    OneFriend(x, u);
    BothRowsPairs(BothRows(u, x), t, x);
  }

  lemma OneFriend(x: string, u: string)
    ensures Symmetric(Pairs(BothRows(u, x))) && HasFriend(BothRows(u, x), x, u)
  {
    BothRowsPairs([], u, x);
    assert [] + BothRows(u, x) == BothRows(u, x);
    FriendsOfOne(u, x, x, u);
  }

  lemma FirstFriend(c: Config, u: string, x: string) returns (s: State)
    requires u in c.ids && x in c.ids && c.expire >= 0
    ensures Reachable(c, s) && s.procs == map[0 := Done, 1 := Done] && s.rows == BothRows(u, x) && s.db.KeysFree(x)
  {
    InitReachable(c);
    assert !HasFriend([], u, x);
    s := Befriend(c, Init(c), 0, 1, u, x);
    assert [] + BothRows(u, x) == BothRows(u, x);
  }

  /** u has befriended x, and so has t if that is another. */
  lemma FirstFriends(c: Config, t: string, u: string, x: string) returns (s: State)
    requires t in c.ids && u in c.ids && x in c.ids && x != u && c.expire >= 0
    ensures Reachable(c, s) && 4 !in s.procs
    ensures s.rows == if t == u then BothRows(u, x) else BothRows(u, x) + BothRows(t, x)
  {
    s := FirstFriend(c, u, x);
    if t != u {
      TwoFriends(x, u, t);
      s := Befriend(c, s, 2, 3, t, x);
    }
  }

  /** If the document id of t is the user id u, a removal of t by another user x can be about to take u away, on one
      side only. */
  lemma OneSidedRemoval(c: Config, t: string, u: string, x: string) returns (s: State)
    requires t in c.ids && u in c.ids && x in c.ids && c.ids[t] == u && x != u && c.expire >= 0
    ensures Reachable(c, s) && Next(c, s, Run(4, ANY)).Some?
    ensures !Symmetric(Pairs(Next(c, s, Run(4, ANY)).value.rows))
    ensures !(Pairs(s.rows) <= Pairs(Next(c, s, Run(4, ANY)).value.rows))
  {
    var before := FirstFriends(c, t, u, x);
    OneFriend(x, u);
    if t != u { TwoFriends(x, u, t); }
    s := DropReady(c, before, 4, x, t);
    DropDeletes(c, s, 4, ANY);
    DeleteOnePairs(before.rows, x, u);
    DeleteKeepsSymmetryIff(before.rows, x, u);
    var after := DeleteOne(before.rows, x, u);
    assert Pairs(after)[(x, u)] < Pairs(before.rows)[(x, u)];
  }

  /** The relation is symmetric in every reachable state, and no step ever ends a friendship, exactly when no document
      id is a user id. (With fewer than two users every row is a loop.) */
  lemma AlwaysSymmetricIff(c: Config)
    requires c.expire >= 0 && exists t, u :: t in c.ids && u in c.ids && t != u
    ensures (forall s | Reachable(c, s) :: Symmetric(Pairs(s.rows))) <==> IdsApart(c)
    ensures (forall s, l | Reachable(c, s) && Next(c, s, l).Some? ::
               Pairs(s.rows) <= Pairs(Next(c, s, l).value.rows)) <==> IdsApart(c)
  {
    if IdsApart(c) {
      forall s | Reachable(c, s) ensures Symmetric(Pairs(s.rows)) {
        AtomicSymmetry(c, s);
      }
      forall s, l | Reachable(c, s) && Next(c, s, l).Some?
        ensures Pairs(s.rows) <= Pairs(Next(c, s, l).value.rows) {
        ReachableInv(c, s);
        AtomicSymmetry(c, s);
        RowsStep(c, s, l);
      }
    } else {
      var t, u :| t in c.ids && u in c.ids && c.ids[t] == u;
      var y, z :| y in c.ids && z in c.ids && y != z;
      var s := OneSidedRemoval(c, t, u, if y == u then z else y);
      ReachableStep(c, s, Run(4, ANY));
      assert !Symmetric(Pairs(Next(c, s, Run(4, ANY)).value.rows));
    }
  }
}
