/** A listing amid other steps: one `zrange`, then one `hget` per key, anything in between. */
module ProtocolListing {
  import opened Wrappers
  import opened SortedSet
  import opened Requests
  import opened RequestDb
  import opened FriendRows
  import opened Protocol
  import opened ProtocolInvariant
  import opened ProtocolSteps
  import opened ProtocolHash
  import opened ProtocolIndex
  import opened ProtocolSerial

  /** What was read for a key: a request once stored under that id, or else that request had been removed. */
  ghost predicate EntryOk(log: seq<Event>, slot: Slot, field: Option<Field>) {
    if IsRequest(field) then slot == RequestSlot(field.value.request) && WasHashed(log, slot, field.value.request)
    else WasRemoved(log, slot)
  }

  ghost predicate KeysOk(c: Config, log: seq<Event>, tid: string, keys: ZSet) {
    Valid(keys) && forall i | 0 <= i < |keys| :: ScoreOk(c, log, Slot(tid, keys[i].member), keys[i].score)
  }

  ghost predicate EntriesOk(log: seq<Event>, tid: string, keys: ZSet, got: seq<Option<Field>>) {
    |got| <= |keys| && forall i | 0 <= i < |got| :: EntryOk(log, Slot(tid, keys[i].member), got[i])
  }

  ghost predicate ListOk(c: Config, log: seq<Event>, p: Proc) {
    p.ListGet? ==> KeysOk(c, log, p.tid, p.keys) && EntriesOk(log, p.tid, p.keys, p.got)
  }

  ghost predicate ListsOk(c: Config, s: State) {
    forall p | p in s.procs :: ListOk(c, s.log, s.procs[p])
  }

  lemma ListOkLater(c: Config, log: seq<Event>, longer: seq<Event>, p: Proc)
    requires ListOk(c, log, p) && log <= longer
    ensures ListOk(c, longer, p)
  {
    if p.ListGet? {
      assert forall e | e in log :: e in longer;
      forall i | 0 <= i < |p.keys| ensures ScoreOk(c, longer, Slot(p.tid, p.keys[i].member), p.keys[i].score) {
        assert ScoreOk(c, log, Slot(p.tid, p.keys[i].member), p.keys[i].score);
      }
      forall i | 0 <= i < |p.got| ensures EntryOk(longer, Slot(p.tid, p.keys[i].member), p.got[i]) {
        assert EntryOk(log, Slot(p.tid, p.keys[i].member), p.got[i]);
      }
    }
  }

  /** A window of the index is ordered, without doubles, and scored as the index is. */
  lemma ListedKeysOk(c: Config, s: State, tid: string, page: Option<int>)
    requires Valid(s.db.Index(tid)) && ScoresOk(c, s.log, s.db)
    ensures KeysOk(c, s.log, tid, ListedKeys(s.db, tid, page, c.size))
  {
    var z, keys := s.db.Index(tid), ListedKeys(s.db, tid, page, c.size);
    forall i | 0 <= i < |keys| ensures ScoreOk(c, s.log, Slot(tid, keys[i].member), keys[i].score) {
      assert keys[i] in z;
      var j :| 0 <= j < |z| && z[j] == keys[i];
      ScoreAt(z, j);
      assert s.db.Score(Slot(tid, keys[i].member)) == Some(keys[i].score);
    }
  }

  /** What `hget` finds for a key of the index. */
  lemma GetOk(c: Config, s: State, slot: Slot, score: int)
    requires StoresLast(s) && FieldsOk(c, s.log, s.db) && ScoreOk(c, s.log, slot, score)
    ensures EntryOk(s.log, slot, s.db.Hget(slot))
  {
    if IsRequest(s.db.Hget(slot)) {
      assert FieldOk(c, s.log, slot, s.db.hash[slot]);
    } else {
      assert forall r :: !Live(s, slot, r);
      var request :| WasHashed(s.log, slot, request);
      GoneWasRemoved(s.log, slot, request);
    }
  }

  lemma ActListOk(c: Config, s: State, pid: Pid)
    requires pid in s.procs && ActList(c, s, pid).Some? && ListOk(c, s.log, s.procs[pid])
    requires IndexSorted(s) && StoresLast(s) && FieldsOk(c, s.log, s.db) && ScoresOk(c, s.log, s.db)
    ensures ListOk(c, s.log, ActList(c, s, pid).value.to)
  {
    match s.procs[pid] {
      case ListKeys(tid, page) => ListedKeysOk(c, s, tid, page);
      case ListGet(tid, keys, got) =>
        var slot := Slot(tid, keys[|got|].member);
        assert ScoreOk(c, s.log, slot, keys[|got|].score);
        GetOk(c, s, slot, keys[|got|].score);
      case _ =>
    }
  }

  /** A list process is where it was or has made its next step. */
  lemma ListMoves(c: Config, s: State, l: Label, q: Pid)
    requires Next(c, s, l).Some? && q in Next(c, s, l).value.procs && Next(c, s, l).value.procs[q].ListGet?
    ensures var t := Next(c, s, l).value;
            || (q in s.procs && t.procs[q] == s.procs[q])
            || (l.Run? && l.pid == q && q in s.procs && ActList(c, s, q).Some?
                && t.procs[q] == ActList(c, s, q).value.to)
  {
  }

  lemma ListsStep(c: Config, s: State, l: Label)
    requires Inv(c, s) && IndexSorted(s) && StoresLast(s) && ListsOk(c, s) && Next(c, s, l).Some?
    ensures ListsOk(c, Next(c, s, l).value)
  {
    var t := Next(c, s, l).value;
    LogGrows(c, s, l);
    forall q | q in t.procs ensures ListOk(c, t.log, t.procs[q]) {
      if t.procs[q].ListGet? {
        ListMoves(c, s, l, q);
        if t.procs[q] != s.procs[q] { ActListOk(c, s, q); }
        ListOkLater(c, s.log, t.log, t.procs[q]);
      }
    }
  }

  lemma {:induction false} ListsPlay(c: Config, s: State, labels: seq<Label>)
    requires Reachable(c, s) && ListsOk(c, s) && Play(c, s, labels).Some?
    ensures ListsOk(c, Play(c, s, labels).value)
    decreases |labels|
  {
    if labels != [] {
      ReachableInv(c, s);
      ReachableSorted(c, s);
      ReachableLast(c, s);
      ListsStep(c, s, labels[0]);
      ReachableStep(c, s, labels[0]);
      ListsPlay(c, Next(c, s, labels[0]).value, labels[1..]);
    }
  }

  lemma ReachableLists(c: Config, s: State)
    requires Reachable(c, s)
    ensures ListsOk(c, s)
  {
    var labels :| Play(c, Init(c), labels) == Some(s);
    InitReachable(c);
    ListsPlay(c, Init(c), labels);
  }

  /** What a listing has read so far, under any interleaving: at most one entry per key, no key twice; a request it
      shows is one of the user, stored under the id it is listed under; where it shows none, the request of that id had
      been removed. */
  lemma ListingEntries(c: Config, s: State, p: Pid)
    requires Reachable(c, s) && p in s.procs && s.procs[p].ListGet?
    ensures var tid, keys, got := s.procs[p].tid, s.procs[p].keys, s.procs[p].got;
            && |got| <= |keys| && DistinctMembers(keys)
            && forall i | 0 <= i < |got| ::
                 var slot := Slot(tid, keys[i].member);
                 if IsRequest(got[i])
                 then && got[i].value.request.recive == tid && got[i].value.request.rid == keys[i].member
                      && WasHashed(s.log, slot, got[i].value.request)
                 else WasRemoved(s.log, slot)
  {
    ReachableLists(c, s);
    assert ListOk(c, s.log, s.procs[p]);
    var tid, keys, got := s.procs[p].tid, s.procs[p].keys, s.procs[p].got;
    assert EntriesOk(s.log, tid, keys, got);
    forall i | 0 <= i < |got| ensures EntryOk(s.log, Slot(tid, keys[i].member), got[i]) {}
  }

  /** If no field is stored twice, the requests of a listing come in the order of (stored expiry, id), whatever happened
      while it was read. */
  lemma ListingOrdered(c: Config, s: State, p: Pid, i: nat, j: nat)
    requires Reachable(c, s) && HashedOnce(s.log) && p in s.procs && s.procs[p].ListGet?
    requires i < j < |s.procs[p].got| && IsRequest(s.procs[p].got[i]) && IsRequest(s.procs[p].got[j])
    ensures var x, y := s.procs[p].got[i].value.request, s.procs[p].got[j].value.request;
            x.expire <= y.expire && (x.expire == y.expire ==> LexLess(x.rid, y.rid))
  {
    ReachableLists(c, s);
    assert ListOk(c, s.log, s.procs[p]);
    ShownScore(c, s, s.procs[p], i);
    ShownScore(c, s, s.procs[p], j);
    Ascends(s.procs[p].keys, i, j);
  }

  lemma ShownScore(c: Config, s: State, p: Proc, i: nat)
    requires HashedOnce(s.log) && p.ListGet? && ListOk(c, s.log, p) && i < |p.got| && IsRequest(p.got[i])
    ensures var request := p.got[i].value.request;
            p.keys[i] == Entry(request.expire + c.expire, request.rid)
  {
    var slot := Slot(p.tid, p.keys[i].member);
    assert EntryOk(s.log, slot, p.got[i]) && ScoreOk(c, s.log, slot, p.keys[i].score);
    var scored :| WasHashed(s.log, slot, scored) && p.keys[i].score == scored.expire + c.expire;
    HashedOnceSame(s.log, slot, scored, p.got[i].value.request);
  }

  // What a listing cannot miss

  lemma IndexLonger(c: Config, s: State, l: Label, t: State, tid: string)
    requires IndexSorted(s) && Shape(c, s, l, t)
    ensures |s.db.Index(tid)| <= |t.db.Index(tid)|
  {
    var p := Doing(s, l);
    if p.AddIndex? && !l.HandleRemove? && p.slot.tid == tid {
      ZaddLength(s.db.Index(tid), p.bumped, p.slot.rid);
    }
  }

  lemma {:induction false} IndexLongerPlay(c: Config, s: State, labels: seq<Label>, tid: string)
    requires IndexSorted(s) && Play(c, s, labels).Some?
    ensures |s.db.Index(tid)| <= |Play(c, s, labels).value.db.Index(tid)|
    decreases |labels|
  {
    if labels != [] {
      StepShape(c, s, labels[0]);
      IndexLonger(c, s, labels[0], Next(c, s, labels[0]).value, tid);
      SortedStep(c, s, labels[0]);
      IndexLongerPlay(c, Next(c, s, labels[0]).value, labels[1..], tid);
    }
  }

  ghost predicate HasKey(keys: ZSet, rid: string) {
    exists i :: 0 <= i < |keys| && keys[i].member == rid
  }

  /** The process is about to read the whole index, where the id is, or has its key. */
  ghost predicate Carries(s: State, p: Pid, tid: string, rid: string) {
    && p in s.procs
    && (s.procs[p] == ListKeys(tid, None) ==> s.db.Score(Slot(tid, rid)).Some?)
    && (s.procs[p] == ListKeys(tid, None)
        || (s.procs[p].ListGet? && s.procs[p].tid == tid && HasKey(s.procs[p].keys, rid)))
  }

  lemma WholeIndexRead(s: State, tid: string, rid: string, size: int)
    requires s.db.Score(Slot(tid, rid)).Some? && |s.db.Index(tid)| <= MAX_SAFE_INTEGER + 1
    ensures HasKey(ListedKeys(s.db, tid, None, size), rid)
  {
    UnpagedIsWhole(s.db, tid, size);
    ScoreFound(s.db.Index(tid), rid);
    var i :| 0 <= i < |s.db.Index(tid)| && s.db.Index(tid)[i].member == rid;
    assert ListedKeys(s.db, tid, None, size)[i].member == rid;
  }

  /** A list process stays put or makes its next step. */
  lemma ListProcMoves(c: Config, s: State, l: Label, q: Pid)
    requires Next(c, s, l).Some? && q in s.procs && (s.procs[q].ListKeys? || s.procs[q].ListGet?)
    ensures var t := Next(c, s, l).value;
            && q in t.procs
            && (t.procs[q] == s.procs[q] || (ActList(c, s, q).Some? && t.procs[q] == ActList(c, s, q).value.to))
  {
  }

  lemma CarriesStep(c: Config, s: State, l: Label, p: Pid, tid: string, rid: string)
    requires Carries(s, p, tid, rid) && Next(c, s, l).Some? && |s.db.Index(tid)| <= MAX_SAFE_INTEGER + 1
    ensures Carries(Next(c, s, l).value, p, tid, rid)
  {
    var t := Next(c, s, l).value;
    StepShape(c, s, l);
    ScoresStay(c, s, l, t, Slot(tid, rid));
    ListProcMoves(c, s, l, p);
    if s.procs[p].ListKeys? && t.procs[p] != s.procs[p] {
      WholeIndexRead(s, tid, rid, c.size);
    }
  }

  lemma {:induction false} CarriesPlay(c: Config, s: State, labels: seq<Label>, p: Pid, tid: string, rid: string)
    requires IndexSorted(s) && Carries(s, p, tid, rid) && Play(c, s, labels).Some?
    requires |Play(c, s, labels).value.db.Index(tid)| <= MAX_SAFE_INTEGER + 1
    ensures Carries(Play(c, s, labels).value, p, tid, rid)
    decreases |labels|
  {
    if labels != [] {
      IndexLongerPlay(c, s, labels, tid);
      CarriesStep(c, s, labels[0], p, tid, rid);
      SortedStep(c, s, labels[0]);
      CarriesPlay(c, Next(c, s, labels[0]).value, labels[1..], p, tid, rid);
    }
  }

  /** An unpaged listing misses nothing that stayed: a request indexed before the listing reads the index, and stored
      when it has ended, is shown, at one place. */
  lemma ListingComplete(c: Config, s: State, labels: seq<Label>, p: Pid, tid: string, request: Request)
    returns (i: nat)
    requires Reachable(c, s) && p in s.procs && s.procs[p] == ListKeys(tid, None)
    requires request.recive == tid && s.db.Score(RequestSlot(request)).Some?
    requires Play(c, s, labels).Some?
    requires var t := Play(c, s, labels).value;
             && HashedOnce(t.log) && |t.db.Index(tid)| <= MAX_SAFE_INTEGER + 1
             && t.db.Hget(RequestSlot(request)) == Some(Stored(request))
             && p in t.procs && t.procs[p].ListGet? && |t.procs[p].got| == |t.procs[p].keys|
    ensures var got := Play(c, s, labels).value.procs[p].got;
            && i < |got| && got[i] == Some(Stored(request))
            && forall j | 0 <= j < |got| && got[j] == Some(Stored(request)) :: j == i
  {
    var t := Play(c, s, labels).value;
    ReachableSorted(c, s);
    CarriesPlay(c, s, labels, p, tid, request.rid);
    ReachablePlay(c, s, labels);
    var k :| 0 <= k < |t.procs[p].keys| && t.procs[p].keys[k].member == request.rid;
    i := k;
    ShownWhereKeyIs(c, t, p, request, i);
    ListingEntries(c, t, p);
  }

  lemma ShownWhereKeyIs(c: Config, t: State, p: Pid, request: Request, i: nat)
    requires Reachable(c, t) && HashedOnce(t.log) && t.db.Hget(RequestSlot(request)) == Some(Stored(request))
    requires p in t.procs && t.procs[p].ListGet? && t.procs[p].tid == request.recive
    requires i < |t.procs[p].got| && i < |t.procs[p].keys| && t.procs[p].keys[i].member == request.rid
    ensures t.procs[p].got[i] == Some(Stored(request))
  {
    ListingEntries(c, t, p);
    StoredUntilRemoved(c, t);
    assert IsRequest(t.procs[p].got[i]);
    HashedOnceSame(t.log, RequestSlot(request), t.procs[p].got[i].value.request, request);
  }

  // A listing that runs alone

  lemma KeysRead(c: Config, s: State, pid: Pid, digest: Digest)
    requires pid in s.procs && s.procs[pid].ListKeys?
    ensures var tid, page := s.procs[pid].tid, s.procs[pid].page;
            Next(c, s, Run(pid, digest)) ==
            if s.db.IndexFree(tid)
            then Some(s.(procs := s.procs[pid := ListGet(tid, ListedKeys(s.db, tid, page, c.size), [])]))
            else None
  {
    assert s.log + [] == s.log;
  }

  lemma FieldRead(c: Config, s: State, pid: Pid, digest: Digest)
    requires pid in s.procs && s.procs[pid].ListGet?
    ensures var tid, keys, got := s.procs[pid].tid, s.procs[pid].keys, s.procs[pid].got;
            Next(c, s, Run(pid, digest)) ==
            if |got| < |keys| && s.db.HashFree(tid)
            then Some(s.(procs := s.procs[pid := ListGet(tid, keys, got + [s.db.Hget(Slot(tid, keys[|got|].member))])]))
            else None
  {
    assert s.log + [] == s.log;
  }

  /** Each read of a listing finds the request stored last under its key, and none if that has been removed. */
  lemma FieldReadIsLast(c: Config, s: State, pid: Pid, digest: Digest, request: Request)
    requires Reachable(c, s) && pid in s.procs && s.procs[pid].ListGet? && |s.procs[pid].got| < |s.procs[pid].keys|
    requires Next(c, s, Run(pid, digest)).Some?
    ensures var got, key := s.procs[pid].got, s.procs[pid].keys[|s.procs[pid].got|].member;
            var after := Next(c, s, Run(pid, digest)).value.procs[pid];
            && after.ListGet? && |after.got| == |got| + 1
            && (after.got[|got|] == Some(Stored(request))
                <==> LastStored(s.log, Slot(s.procs[pid].tid, key)) == Some(request))
  {
    FieldRead(c, s, pid, digest);
    HashFollowsLog(c, s);
  }

  lemma {:induction false} FieldsRead(c: Config, s: State, pid: Pid) returns (t: State)
    requires Reachable(c, s) && pid in s.procs && s.procs[pid].ListGet? && s.db.HashFree(s.procs[pid].tid)
    requires var p := s.procs[pid];
             && |p.got| <= |p.keys|
             && forall i | 0 <= i < |p.got| :: p.got[i] == s.db.Hget(Slot(p.tid, p.keys[i].member))
    ensures Reachable(c, t)
    ensures var p := s.procs[pid];
            t == s.(procs := s.procs[pid := ListGet(p.tid, p.keys,
                   seq(|p.keys|, i requires 0 <= i < |p.keys| => s.db.Hget(Slot(p.tid, p.keys[i].member))))])
    decreases |s.procs[pid].keys| - |s.procs[pid].got|
  {
    var p := s.procs[pid];
    var all := seq(|p.keys|, i requires 0 <= i < |p.keys| => s.db.Hget(Slot(p.tid, p.keys[i].member)));
    if |p.got| == |p.keys| {
      assert p.got == all;
      t := s;
      assert s.procs == s.procs[pid := ListGet(p.tid, p.keys, all)];
    } else {
      FieldRead(c, s, pid, ANY);
      var next := Advance(c, s, Run(pid, ANY));
      t := FieldsRead(c, next, pid);
      assert next.procs[pid := ListGet(p.tid, p.keys, all)] == s.procs[pid := ListGet(p.tid, p.keys, all)];
    }
  }

  /** An uninterrupted `getAllRequest` returns the listing of the stores as they stand. */
  lemma ListingAlone(c: Config, s: State, pid: Pid, tid: string, page: Option<int>) returns (t: State)
    requires Reachable(c, s) && pid !in s.procs && tid in c.ids && s.db.KeysFree(tid)
    ensures Reachable(c, t)
    ensures t == s.(procs := s.procs[pid := ListGet(tid, ListedKeys(s.db, tid, page, c.size),
                                                    Listing(s.db, tid, page, c.size))])
  {
    t := Advance(c, s, StartList(pid, tid, page));
    assert s.log + [] == s.log;
    KeysRead(c, t, pid, ANY);
    t := Advance(c, t, Run(pid, ANY));
    t := FieldsRead(c, t, pid);
    var all := Listing(s.db, tid, page, c.size);
    assert t.procs == s.procs[pid := ListGet(tid, ListedKeys(s.db, tid, page, c.size), all)];
  }
}
