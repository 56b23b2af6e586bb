/** The request store under its real keys: the hash of one user and the index of another never share a key in use. */
module ProtocolKeys {
  import opened Wrappers
  import opened Requests
  import opened RequestDb
  import opened FriendRows
  import opened Protocol
  import opened ProtocolInvariant
  import opened ProtocolSteps
  import K = Keyspace

  /** `HashFree` and `IndexFree` say that no key in use holds another type. */
  lemma FreeMeansNoClash(db: Db, tid: string)
    ensures db.HashFree(tid) <==> forall u | db.Index(u) != [] :: K.KeyOf(K.Requests(tid)) != K.KeyOf(K.RequestIndex(u))
    ensures db.IndexFree(tid) <==>
            forall slot | slot in db.hash :: K.KeyOf(K.Requests(slot.tid)) != K.KeyOf(K.RequestIndex(tid))
  {
    forall t, u ensures K.KeyOf(K.Requests(t)) == K.KeyOf(K.RequestIndex(u)) <==> t == SPLIT + u {
      K.HashAndIndexClash(t, u);
    }
    assert db.HashFree(tid) <==> forall u | db.Index(u) != [] :: tid != SPLIT + u;
  }

  lemma StepFits(c: Config, s: State, l: Label)
    requires Next(c, s, l).Some?
    ensures Fits(s.db, Doing(s, l))
    ensures l.HandleRemove? ==> l.pid in s.mail && s.mail[l.pid].Pending? && s.db.HashFree(s.mail[l.pid].slot.tid)
  {
  }

  /** No key in use holds a hash and an index. */
  ghost predicate OneType(db: Db) {
    forall slot | slot in db.hash :: db.HashFree(slot.tid)
  }

  lemma OneTypeHset(db: Db, slot: Slot, field: Field)
    requires OneType(db) && db.HashFree(slot.tid)
    ensures OneType(db.Hset(slot, field))
  {
    assert db.Hset(slot, field).index == db.index;
    forall other | other in db.Hset(slot, field).hash ensures db.Hset(slot, field).HashFree(other.tid) {
      assert other == slot || other in db.hash;
      assert db.HashFree(other.tid);
    }
  }

  lemma OneTypeZadd(db: Db, slot: Slot, score: int)
    requires OneType(db) && db.IndexFree(slot.tid)
    ensures OneType(db.ZaddIndex(slot, score))
  {
    var after := db.ZaddIndex(slot, score);
    forall other | other in after.hash ensures after.HashFree(other.tid) {
      assert other in db.hash && db.HashFree(other.tid);
      forall u | u in after.index && after.index[u] != [] ensures other.tid != SPLIT + u {
        if u != slot.tid {
          assert u in db.index && db.index[u] == after.index[u];
        }
      }
    }
  }

  lemma OneTypeStep(c: Config, s: State, l: Label, t: State)
    requires OneType(s.db) && Shape(c, s, l, t) && Fits(s.db, Doing(s, l))
    requires Doing(s, l).AddHset? ==> Doing(s, l).request.rid != ""
    ensures OneType(t.db)
  {
    var p := Doing(s, l);
    if l.HandleRemove? {
      forall slot | slot in t.db.hash ensures t.db.HashFree(slot.tid) {
        assert slot in s.db.hash && s.db.HashFree(slot.tid);
      }
    } else if p.AddHset? {
      OneTypeHset(s.db, RequestSlot(p.request), Stored(p.request));
    } else if p.AddNx? {
      if p.slot !in s.db.hash { OneTypeHset(s.db, p.slot, Bare(p.bumped)); }
    } else if p.AddIndex? {
      OneTypeZadd(s.db, p.slot, p.bumped);
    }
  }

  lemma {:induction false} OneTypePlay(c: Config, s: State, labels: seq<Label>)
    requires Inv(c, s) && OneType(s.db) && Play(c, s, labels).Some?
    ensures OneType(Play(c, s, labels).value.db)
    decreases |labels|
  {
    if labels != [] {
      var l, t := labels[0], Next(c, s, labels[0]).value;
      StepShape(c, s, l);
      StepFits(c, s, l);
      if Doing(s, l).AddHset? {
        assert ProcOk(c, s.log, s.mail, l.pid, s.procs[l.pid]);
      }
      OneTypeStep(c, s, l, t);
      StepInv(c, s, l);
      OneTypePlay(c, t, labels[1..]);
    }
  }

  lemma ReachableOneType(c: Config, s: State)
    requires Reachable(c, s)
    ensures OneType(s.db)
  {
    var labels :| Play(c, Init(c), labels) == Some(s);
    InitInv(c);
    OneTypePlay(c, Init(c), labels);
  }

  /** In every reachable state, whatever the user ids: no key holds both a hash of requests and an index, so that one
      keyspace can hold the store. */
  lemma OneTypePerKey(c: Config, s: State, slot: Slot, u: string)
    requires Reachable(c, s) && slot in s.db.hash && s.db.Index(u) != []
    ensures K.KeyOf(K.Requests(slot.tid)) != K.KeyOf(K.RequestIndex(u))
  {
    ReachableOneType(c, s);
    assert s.db.HashFree(slot.tid);
    FreeMeansNoClash(s.db, slot.tid);
  }

  lemma IndexStays(c: Config, s: State, l: Label, t: State, tid: string)
    requires Shape(c, s, l, t) && t.db.HashFree(tid)
    ensures s.db.HashFree(tid)
  {
    forall u | u in s.db.index && s.db.index[u] != [] ensures tid != SPLIT + u {
      assert u in t.db.index && t.db.index[u] != [];
    }
  }
}
