/** The services run without interruption, step by step: what the machine then does is what their serial
    descriptions say. */
module ProtocolSerial {
  import opened Wrappers
  import opened Requests
  import opened RequestDb
  import opened FriendRows
  import opened Protocol

  const ANY: Digest := "00000000000000000000000000000000"

  lemma Advance(c: Config, s: State, l: Label) returns (t: State)
    requires Reachable(c, s) && Next(c, s, l).Some?
    ensures Reachable(c, t) && t == Next(c, s, l).value
  {
    ReachableStep(c, s, l);
    t := Next(c, s, l).value;
  }

  /** The request `add` makes. */
  function RequestOf(c: Config, source: string, target: string, msg: string, now: int, digest: Digest): Request {
    Request(ADD, source, FRIEND, now + c.expire, target, msg, CreateRid(source, target, c.worker, digest))
  }

  lemma RequestOfSlot(c: Config, source: string, target: string, msg: string, now: int, digest: Digest)
    ensures var request := RequestOf(c, source, target, msg, now, digest);
            request.rid != "" && SlotOf(request, c.worker, digest) == RequestSlot(request) == Slot(target, request.rid)
  {
    RidNotEmpty(source, target, c.worker, digest);
  }

  // The steps of `add`

  lemma AddStarts(c: Config, s: State, pid: Pid, source: string, target: string, msg: string)
    requires pid !in s.procs && source in c.ids
    ensures Next(c, s, StartAdd(pid, source, target, msg)) ==
            Some(s.(procs := s.procs[pid := AddCheck(source, target, msg)],
                    log := s.log + [Asked(pid, source, target)]))
  {
  }

  lemma AddChecks(c: Config, s: State, pid: Pid, digest: Digest)
    requires pid in s.procs && s.procs[pid].AddCheck?
    ensures var p := s.procs[pid];
            Next(c, s, Run(pid, digest)) ==
            Some(s.(procs := s.procs[pid := if HasFriend(s.rows, p.source, p.target) then Failed(AlreadyFriends)
                                            else AddCreate(p.source, p.target, p.msg)]))
  {
    assert s.log + [] == s.log;
  }

  lemma AddMakes(c: Config, s: State, pid: Pid, digest: Digest)
    requires pid in s.procs && s.procs[pid].AddCreate?
    ensures var request := RequestOf(c, s.procs[pid].source, s.procs[pid].target, s.procs[pid].msg, s.now, digest);
            Next(c, s, Run(pid, digest)) ==
            Some(s.(procs := s.procs[pid := AddHset(request)], log := s.log + [Created(pid, request)]))
  {
  }

  lemma AddHsets(c: Config, s: State, pid: Pid, digest: Digest)
    requires pid in s.procs && s.procs[pid].AddHset? && s.procs[pid].request.rid != ""
    ensures var request := s.procs[pid].request;
            var slot := RequestSlot(request);
            Next(c, s, Run(pid, digest)) ==
            if s.db.HashFree(request.recive)
            then Some(s.(db := s.db.Hset(slot, Stored(request)),
                         procs := s.procs[pid := AddNx(slot, request.expire + c.expire)],
                         log := s.log + [Hashed(pid, slot, request)]))
            else None
  {
  }

  lemma AddNxes(c: Config, s: State, pid: Pid, digest: Digest)
    requires pid in s.procs && s.procs[pid].AddNx?
    ensures var slot, bumped := s.procs[pid].slot, s.procs[pid].bumped;
            Next(c, s, Run(pid, digest)) ==
            if s.db.HashFree(slot.tid)
            then Some(s.(db := s.db.HsetNx(slot, Bare(bumped)), procs := s.procs[pid := AddIndex(slot, bumped)]))
            else None
  {
    assert s.log + [] == s.log;
  }

  lemma AddIndexes(c: Config, s: State, pid: Pid, digest: Digest)
    requires pid in s.procs && s.procs[pid].AddIndex?
    ensures var slot, bumped := s.procs[pid].slot, s.procs[pid].bumped;
            Next(c, s, Run(pid, digest)) ==
            if s.db.IndexFree(slot.tid)
            then Some(s.(db := s.db.ZaddIndex(slot, bumped), procs := s.procs[pid := Done],
                         log := s.log + [Indexed(pid, slot, bumped)]))
            else None
  {
  }

  // `add` as a whole

  /** `add` up to the request it makes. */
  function Making(c: Config, s: State, pid: Pid, source: string, target: string, msg: string, digest: Digest): State {
    var request := RequestOf(c, source, target, msg, s.now, digest);
    s.(procs := s.procs[pid := AddHset(request)],
       log := s.log + [Asked(pid, source, target), Created(pid, request)])
  }

  /** `add` up to and including the `hset`. */
  function Storing(c: Config, s: State, pid: Pid, source: string, target: string, msg: string, digest: Digest): State {
    var request := RequestOf(c, source, target, msg, s.now, digest);
    var slot := RequestSlot(request);
    State(s.db.Hset(slot, Stored(request)), s.rows, s.now,
          s.procs[pid := AddNx(slot, request.expire + c.expire)], s.mail,
          s.log + [Asked(pid, source, target), Created(pid, request), Hashed(pid, slot, request)])
  }

  /** `add` uninterrupted. */
  function Adding(c: Config, s: State, pid: Pid, source: string, target: string, msg: string, digest: Digest): State {
    var request := RequestOf(c, source, target, msg, s.now, digest);
    var slot := RequestSlot(request);
    State(Added(s.db, request, c.expire, c.worker, digest), s.rows, s.now, s.procs[pid := Done], s.mail,
          s.log + [Asked(pid, source, target), Created(pid, request), Hashed(pid, slot, request),
                   Indexed(pid, slot, request.expire + c.expire)])
  }

  lemma PlayCons(c: Config, s: State, l: Label, rest: seq<Label>)
    ensures Play(c, s, [l] + rest) == match Next(c, s, l) case None => None case Some(t) => Play(c, t, rest)
  {
    assert ([l] + rest)[1..] == rest;
  }

  lemma CheckedMakes(c: Config, s: State, pid: Pid, source: string, target: string, msg: string, digest: Digest)
    requires pid in s.procs && s.procs[pid] == AddCheck(source, target, msg) && !HasFriend(s.rows, source, target)
    ensures var run := Run(pid, digest);
            var request := RequestOf(c, source, target, msg, s.now, digest);
            var made := s.(procs := s.procs[pid := AddHset(request)], log := s.log + [Created(pid, request)]);
            forall rest :: Play(c, s, [run] + ([run] + rest)) == Play(c, made, rest)
  {
    var run := Run(pid, digest);
    var t := s.(procs := s.procs[pid := AddCreate(source, target, msg)]);
    AddChecks(c, s, pid, digest);
    AddMakes(c, t, pid, digest);
    var request := RequestOf(c, source, target, msg, s.now, digest);
    assert t.procs[pid := AddHset(request)] == s.procs[pid := AddHset(request)];
    forall rest ensures Play(c, s, [run] + ([run] + rest)) == Play(c, Next(c, t, run).value, rest) {
      PlayCons(c, s, run, [run] + rest);
      PlayCons(c, t, run, rest);
    }
  }

  lemma AddPlaysToMaking(c: Config, s: State, pid: Pid, source: string, target: string, msg: string, digest: Digest,
                         rest: seq<Label>)
    requires pid !in s.procs && source in c.ids && !HasFriend(s.rows, source, target)
    ensures Play(c, s, [StartAdd(pid, source, target, msg), Run(pid, digest), Run(pid, digest)] + rest) ==
            Play(c, Making(c, s, pid, source, target, msg, digest), rest)
  {
    var start, run := StartAdd(pid, source, target, msg), Run(pid, digest);
    var t := s.(procs := s.procs[pid := AddCheck(source, target, msg)], log := s.log + [Asked(pid, source, target)]);
    AddStarts(c, s, pid, source, target, msg);
    PlayCons(c, s, start, [run] + ([run] + rest));
    CheckedMakes(c, t, pid, source, target, msg, digest);
    assert [start, run, run] + rest == [start] + ([run] + ([run] + rest));
    var request := RequestOf(c, source, target, msg, s.now, digest);
    assert t.procs[pid := AddHset(request)] == s.procs[pid := AddHset(request)];
    assert t.log + [Created(pid, request)] == s.log + [Asked(pid, source, target), Created(pid, request)];
  }

  lemma MakingHsets(c: Config, s: State, pid: Pid, source: string, target: string, msg: string, digest: Digest)
    ensures Next(c, Making(c, s, pid, source, target, msg, digest), Run(pid, digest)) ==
            if s.db.HashFree(target) then Some(Storing(c, s, pid, source, target, msg, digest)) else None
  {
    var t, u := Making(c, s, pid, source, target, msg, digest), Storing(c, s, pid, source, target, msg, digest);
    RequestOfSlot(c, source, target, msg, s.now, digest);
    AddHsets(c, t, pid, digest);
    var request := RequestOf(c, source, target, msg, s.now, digest);
    assert t.procs[pid := u.procs[pid]] == u.procs;
    assert t.log + [Hashed(pid, RequestSlot(request), request)] == u.log;
  }

  /** After the `hset` the key of the hash is free for the `hsetnx`; the `zadd` needs its own. */
  lemma StoringFinishes(c: Config, s: State, pid: Pid, source: string, target: string, msg: string, digest: Digest)
    requires s.db.HashFree(target)
    ensures Play(c, Storing(c, s, pid, source, target, msg, digest), [Run(pid, digest), Run(pid, digest)]) ==
            if s.db.IndexFree(target) then Some(Adding(c, s, pid, source, target, msg, digest)) else None
  {
    var t, run := Storing(c, s, pid, source, target, msg, digest), Run(pid, digest);
    var request := RequestOf(c, source, target, msg, s.now, digest);
    RequestOfSlot(c, source, target, msg, s.now, digest);
    AddNxes(c, t, pid, digest);
    var t1 := Next(c, t, run).value;
    AddIndexes(c, t1, pid, digest);
    PlayCons(c, t, run, [run]);
    PlayCons(c, t1, run, []);
    assert [run, run] == [run] + [run] && [run] == [run] + [];
    IndexFreeLater(s.db, RequestSlot(request), Stored(request));
    assert t1.procs[pid := Done] == s.procs[pid := Done];
    assert t.log + [Indexed(pid, RequestSlot(request), request.expire + c.expire)]
        == Adding(c, s, pid, source, target, msg, digest).log;
  }

  lemma IndexFreeLater(db: Db, slot: Slot, field: Field)
    ensures db.Hset(slot, field).IndexFree(slot.tid) <==> db.IndexFree(slot.tid)
  {
    assert slot.tid != SPLIT + slot.tid;
    if db.Hset(slot, field).IndexFree(slot.tid) {
      forall other | other in db.hash ensures other.tid != SPLIT + slot.tid {
        assert other in db.Hset(slot, field).hash;
      }
    }
  }

  /** The process comes to stand there, and no store, row or mail changes. */
  ghost predicate Leads(c: Config, s: State, labels: seq<Label>, pid: Pid, to: Proc) {
    var t := Play(c, s, labels);
    && t.Some? && t.value.procs == s.procs[pid := to] && t.value.now == s.now
    && t.value.db == s.db && t.value.rows == s.rows && t.value.mail == s.mail
  }

  lemma CallUpToRead(c: Config, s: State, pid: Pid, slot: Slot, status: Status, digest: Digest, rest: seq<Label>)
    requires pid !in s.procs && slot.tid in c.ids && s.db.HashFree(slot.tid)
    ensures var labels := [StartCall(pid, slot.tid, slot.rid, status), Run(pid, digest)];
            match s.db.Hget(slot)
            case Some(Stored(request)) =>
              Play(c, s, labels + rest) ==
              Play(c, s.(procs := s.procs[pid := CallCheck(slot, status, request)],
                         log := s.log + [Read(pid, slot, status, request)]), rest)
            case _ =>
              Play(c, s, labels + rest) ==
              Play(c, s.(procs := s.procs[pid := Failed(NotFound)], log := s.log + [Missed(pid, slot)]), rest)
  {
    var start, run := StartCall(pid, slot.tid, slot.rid, status), Run(pid, digest);
    var t := s.(procs := s.procs[pid := CallRead(slot, status)]);
    CallStarts(c, s, pid, slot, status);
    FieldFound(c, t, pid, digest);
    assert [start, run] + rest == [start] + ([run] + rest);
    PlayCons(c, s, start, [run] + rest);
    PlayCons(c, t, run, rest);
    var next := Next(c, t, run).value.procs[pid];
    assert t.procs[pid := next] == s.procs[pid := next];
  }

  /** An uninterrupted `call` ends as its serial description says, with what is stored when it reads. */
  lemma CallAlone(c: Config, s: State, pid: Pid, slot: Slot, status: Status, digest: Digest)
    requires pid !in s.procs && slot.tid in c.ids && s.db.HashFree(slot.tid)
    ensures var start, run := StartCall(pid, slot.tid, slot.rid, status), Run(pid, digest);
            match Called(s.db, slot, s.now)
            case Err(NotFindRequest) => Leads(c, s, [start, run], pid, Failed(NotFound))
            case Err(RequestExpired) => Leads(c, s, [start, run] + [run], pid, Failed(TooLate))
            case Ok(request) =>
              Leads(c, s, [start, run] + [run, run], pid,
                    if HandlerOf(request, status).Some? then AccCheck(request) else Failed(NoHandler))
  {
    var start, run := StartCall(pid, slot.tid, slot.rid, status), Run(pid, digest);
    match s.db.Hget(slot)
    case Some(Stored(request)) =>
      var t := s.(procs := s.procs[pid := CallCheck(slot, status, request)],
                  log := s.log + [Read(pid, slot, status, request)]);
      CallUpToRead(c, s, pid, slot, status, digest, [run]);
      CallUpToRead(c, s, pid, slot, status, digest, [run, run]);
      CheckAlone(c, t, pid, digest);
      var to := if request.expire < s.now then Failed(TooLate)
                else if HandlerOf(request, status).Some? then AccCheck(request) else Failed(NoHandler);
      assert t.procs[pid := to] == s.procs[pid := to];
    case _ =>
      CallUpToRead(c, s, pid, slot, status, digest, []);
      assert [start, run] + [] == [start, run];
  }

  lemma CheckAlone(c: Config, s: State, pid: Pid, digest: Digest)
    requires pid in s.procs && s.procs[pid].CallCheck?
    ensures var p, run := s.procs[pid], Run(pid, digest);
            if p.request.expire < s.now then Leads(c, s, [run], pid, Failed(TooLate))
            else Leads(c, s, [run, run], pid, if HandlerOf(p.request, p.status).Some? then AccCheck(p.request)
                                              else Failed(NoHandler))
  {
    var run := Run(pid, digest);
    CheckPasses(c, s, pid, digest);
    var t := Next(c, s, run).value;
    assert [run] == [run] + [] && [run, run] == [run] + [run];
    PlayCons(c, s, run, []);
    PlayCons(c, s, run, [run]);
    if t.procs[pid].CallSend? {
      SendArrives(c, t, pid, digest);
      PlayCons(c, t, run, []);
    }
  }

  lemma TimePasses(c: Config, s: State, now: int)
    ensures Next(c, s, Tick(now)) == if now < s.now then None else Some(s.(now := now))
  {
  }

  /** A stored request that nobody removes expires: whenever the clock is past its expiry, a call rejects it, and up to
      then a call does not. */
  lemma CallAtTime(c: Config, s: State, now: int, pid: Pid, slot: Slot, status: Status, request: Request,
                   digest: Digest)
    requires pid !in s.procs && slot.tid in c.ids && s.db.HashFree(slot.tid)
    requires s.db.Hget(slot) == Some(Stored(request)) && s.now <= now
    ensures var labels := [Tick(now), StartCall(pid, slot.tid, slot.rid, status), Run(pid, digest), Run(pid, digest)];
            var t := Play(c, s, labels);
            t.Some? && pid in t.value.procs && t.value.now == now && t.value.db == s.db
            && t.value.procs[pid] == if request.expire < now then Failed(TooLate) else CallSend(slot, status, request)
  {
    var start, run, ticked := StartCall(pid, slot.tid, slot.rid, status), Run(pid, digest), s.(now := now);
    TimePasses(c, s, now);
    PlayCons(c, s, Tick(now), [start, run] + [run]);
    assert [Tick(now), start, run, run] == [Tick(now)] + ([start, run] + [run]);
    CallUpToRead(c, ticked, pid, slot, status, digest, [run]);
    var read := ticked.(procs := s.procs[pid := CallCheck(slot, status, request)],
                        log := s.log + [Read(pid, slot, status, request)]);
    CheckPasses(c, read, pid, digest);
    PlayCons(c, read, run, []);
    assert [run] == [run] + [];
  }

  lemma AddRefused(c: Config, s: State, pid: Pid, source: string, target: string, msg: string, digest: Digest)
    requires pid !in s.procs && source in c.ids && HasFriend(s.rows, source, target)
    ensures Leads(c, s, [StartAdd(pid, source, target, msg), Run(pid, digest)], pid, Failed(AlreadyFriends))
  {
    var start, run := StartAdd(pid, source, target, msg), Run(pid, digest);
    AddStarts(c, s, pid, source, target, msg);
    var t := Next(c, s, start).value;
    AddChecks(c, t, pid, digest);
    assert [start, run] == [start] + [run] && [run] == [run] + [];
    PlayCons(c, s, start, [run]);
    PlayCons(c, t, run, []);
  }

  /** An uninterrupted `add` between friends is refused and changes nothing; any other runs to its end exactly when the
      two keys of the receiver hold no value of another type. */
  lemma AddAloneIff(c: Config, s: State, pid: Pid, source: string, target: string, msg: string, digest: Digest)
    requires pid !in s.procs && source in c.ids
    ensures var start, run := StartAdd(pid, source, target, msg), Run(pid, digest);
            if HasFriend(s.rows, source, target) then Leads(c, s, [start, run], pid, Failed(AlreadyFriends))
            else Play(c, s, [start, run, run, run, run, run]) ==
                 if s.db.KeysFree(target) then Some(Adding(c, s, pid, source, target, msg, digest)) else None
  {
    if HasFriend(s.rows, source, target) { AddRefused(c, s, pid, source, target, msg, digest); }
    else { AddAmongStrangers(c, s, pid, source, target, msg, digest); }
  }

  lemma AddAmongStrangers(c: Config, s: State, pid: Pid, source: string, target: string, msg: string, digest: Digest)
    requires pid !in s.procs && source in c.ids && !HasFriend(s.rows, source, target)
    ensures var run := Run(pid, digest);
            Play(c, s, [StartAdd(pid, source, target, msg), run, run, run, run, run]) ==
            if s.db.KeysFree(target) then Some(Adding(c, s, pid, source, target, msg, digest)) else None
  {
    var start, run := StartAdd(pid, source, target, msg), Run(pid, digest);
    var made := Making(c, s, pid, source, target, msg, digest);
    assert [start, run, run, run, run, run] == [start, run, run] + [run, run, run];
    AddPlaysToMaking(c, s, pid, source, target, msg, digest, [run, run, run]);
    assert [run, run, run] == [run] + [run, run];
    PlayCons(c, made, run, [run, run]);
    MakingHsets(c, s, pid, source, target, msg, digest);
    if s.db.HashFree(target) {
      StoringFinishes(c, s, pid, source, target, msg, digest);
    }
  }

  lemma {:induction false} ReachablePlay(c: Config, s: State, labels: seq<Label>)
    requires Reachable(c, s) && Play(c, s, labels).Some?
    ensures Reachable(c, Play(c, s, labels).value)
    decreases |labels|
  {
    if labels != [] {
      ReachableStep(c, s, labels[0]);
      ReachablePlay(c, Next(c, s, labels[0]).value, labels[1..]);
    }
  }

  /** So an uninterrupted `add` does to the store what its serial description says. */
  lemma AddAlone(c: Config, s: State, pid: Pid, source: string, target: string, msg: string, digest: Digest)
    returns (t: State)
    requires Reachable(c, s) && pid !in s.procs && source in c.ids && !HasFriend(s.rows, source, target)
    requires s.db.KeysFree(target)
    ensures Reachable(c, t) && t == Adding(c, s, pid, source, target, msg, digest)
    ensures var request := RequestOf(c, source, target, msg, s.now, digest);
            && t.db == Added(s.db, request, c.expire, c.worker, digest)
            && t.db.Hget(RequestSlot(request)) == Some(Stored(request))
    ensures t.db.KeysFree(target)
  {
    t := Adding(c, s, pid, source, target, msg, digest);
    var run := Run(pid, digest);
    AddAloneIff(c, s, pid, source, target, msg, digest);
    ReachablePlay(c, s, [StartAdd(pid, source, target, msg), run, run, run, run, run]);
    AddedKeysFree(c, s.db, RequestOf(c, source, target, msg, s.now, digest), digest);
    RequestOfSlot(c, source, target, msg, s.now, digest);
    AddedHolds(c, s.db, RequestOf(c, source, target, msg, s.now, digest), digest);
  }

  lemma AddedHolds(c: Config, db: Db, request: Request, digest: Digest)
    ensures Added(db, request, c.expire, c.worker, digest).Hget(SlotOf(request, c.worker, digest))
         == Some(Stored(request))
  {
  }

  lemma AddedKeysFree(c: Config, db: Db, request: Request, digest: Digest)
    requires db.KeysFree(request.recive)
    ensures Added(db, request, c.expire, c.worker, digest).KeysFree(request.recive)
  {
    var slot := SlotOf(request, c.worker, digest);
    HsetKeysFree(db, slot, Stored(request));
    ZaddKeysFree(db.Hset(slot, Stored(request)), slot, request.expire + c.expire);
  }

  lemma AddUpToHset(c: Config, s: State, pid: Pid, source: string, target: string, msg: string, digest: Digest)
    returns (t: State)
    requires Reachable(c, s) && pid !in s.procs && source in c.ids && !HasFriend(s.rows, source, target)
    requires s.db.KeysFree(target)
    ensures Reachable(c, t) && t == Storing(c, s, pid, source, target, msg, digest) && t.db.KeysFree(target)
  {
    t := Storing(c, s, pid, source, target, msg, digest);
    var start, run := StartAdd(pid, source, target, msg), Run(pid, digest);
    AddPlaysToMaking(c, s, pid, source, target, msg, digest, [run]);
    MakingHsets(c, s, pid, source, target, msg, digest);
    PlayCons(c, Making(c, s, pid, source, target, msg, digest), run, []);
    assert [run] == [run] + [];
    ReachablePlay(c, s, [start, run, run] + [run]);
    var request := RequestOf(c, source, target, msg, s.now, digest);
    HsetKeysFree(s.db, RequestSlot(request), Stored(request));
  }

  /** A call that has read a request. */
  lemma CallReads(c: Config, s: State, pid: Pid, slot: Slot, request: Request) returns (t: State)
    requires Reachable(c, s) && pid !in s.procs && slot.tid in c.ids && s.db.Hget(slot) == Some(Stored(request))
    requires s.db.HashFree(slot.tid)
    ensures Reachable(c, t)
    ensures t == s.(procs := s.procs[pid := CallCheck(slot, Accept, request)],
                    log := s.log + [Read(pid, slot, Accept, request)])
  {
    CallStarts(c, s, pid, slot, Accept);
    t := Advance(c, s, StartCall(pid, slot.tid, slot.rid, Accept));
    FieldFound(c, t, pid, ANY);
    t := Advance(c, t, Run(pid, ANY));
    assert t.procs == s.procs[pid := CallCheck(slot, Accept, request)];
    assert t.log == s.log + [Read(pid, slot, Accept, request)];
  }

  // The steps of `call` and `accept`

  lemma CallStarts(c: Config, s: State, pid: Pid, slot: Slot, status: Status)
    requires pid !in s.procs && slot.tid in c.ids
    ensures Next(c, s, StartCall(pid, slot.tid, slot.rid, status)) ==
            Some(s.(procs := s.procs[pid := CallRead(slot, status)]))
  {
    assert s.log + [] == s.log;
  }

  lemma FieldFound(c: Config, s: State, pid: Pid, digest: Digest)
    requires pid in s.procs && s.procs[pid].CallRead?
    ensures var slot, status := s.procs[pid].slot, s.procs[pid].status;
            Next(c, s, Run(pid, digest)) ==
            if !s.db.HashFree(slot.tid) then None else
              match s.db.Hget(slot)
              case Some(Stored(request)) =>
                Some(s.(procs := s.procs[pid := CallCheck(slot, status, request)],
                        log := s.log + [Read(pid, slot, status, request)]))
              case _ => Some(s.(procs := s.procs[pid := Failed(NotFound)], log := s.log + [Missed(pid, slot)]))
  {
  }

  lemma CheckPasses(c: Config, s: State, pid: Pid, digest: Digest)
    requires pid in s.procs && s.procs[pid].CallCheck?
    ensures var p := s.procs[pid];
            Next(c, s, Run(pid, digest)) ==
            if p.request.expire < s.now
            then Some(s.(procs := s.procs[pid := Failed(TooLate)],
                         log := s.log + [Rejected(pid, p.slot, p.request, s.now)]))
            else Some(s.(procs := s.procs[pid := CallSend(p.slot, p.status, p.request)],
                         log := s.log + [Passed(pid, p.slot, p.status, p.request, s.now)]))
  {
  }

  lemma SendArrives(c: Config, s: State, pid: Pid, digest: Digest)
    requires pid in s.procs && s.procs[pid].CallSend?
    ensures var p := s.procs[pid];
            Next(c, s, Run(pid, digest)) ==
            Some(s.(procs := s.procs[pid := if p.request.mod == FRIEND && p.request.action == ADD && p.status == Accept
                                            then AccCheck(p.request) else Failed(NoHandler)]))
  {
    assert s.log + [] == s.log;
  }

  lemma CheckAdmits(c: Config, s: State, pid: Pid, digest: Digest)
    requires pid in s.procs && s.procs[pid].AccCheck?
    ensures var request := s.procs[pid].request;
            Next(c, s, Run(pid, digest)) ==
            if request.expire < s.now
            then Some(s.(procs := s.procs[pid := Failed(TooLate)], log := s.log + [Lapsed(pid, request, s.now)]))
            else Some(s.(procs := s.procs[pid := AccFirst(request)],
                         log := s.log + [Admitted(pid, request, s.now)]))
  {
  }

  lemma FirstSaves(c: Config, s: State, pid: Pid, digest: Digest)
    requires pid in s.procs && s.procs[pid].AccFirst?
    ensures var request := s.procs[pid].request;
            Next(c, s, Run(pid, digest)) ==
            Some(s.(procs := s.procs[pid := AccSecond(request, [Friend(request.sender, request.recive, "")])]))
  {
    assert s.log + [] == s.log;
  }

  lemma SecondSaves(c: Config, s: State, pid: Pid, digest: Digest)
    requires pid in s.procs && s.procs[pid].AccSecond?
    ensures var request, buffer := s.procs[pid].request, s.procs[pid].buffer;
            Next(c, s, Run(pid, digest)) ==
            Some(s.(procs := s.procs[pid := AccRemove(request, buffer + [Friend(request.recive, request.sender, "")])]))
  {
    assert s.log + [] == s.log;
  }

  lemma RemovalSent(c: Config, s: State, pid: Pid, digest: Digest)
    requires pid in s.procs && s.procs[pid].AccRemove?
    ensures var request, buffer := s.procs[pid].request, s.procs[pid].buffer;
            Next(c, s, Run(pid, digest)) ==
            Some(s.(procs := s.procs[pid := AccWait(request, buffer)],
                    mail := s.mail[pid := Pending(RequestSlot(request))]))
  {
    assert s.log + [] == s.log;
  }

  lemma RemovalHandled(c: Config, s: State, pid: Pid)
    requires pid in s.mail && s.mail[pid].Pending? && s.db.HashFree(s.mail[pid].slot.tid)
    ensures Next(c, s, HandleRemove(pid)) ==
            Some(s.(db := s.db.Hdel(s.mail[pid].slot), mail := s.mail[pid := Replied],
                    log := s.log + [Removed(pid, s.mail[pid].slot)]))
  {
  }

  lemma AnswerHeard(c: Config, s: State, pid: Pid, digest: Digest)
    requires pid in s.procs && s.procs[pid].AccWait? && pid in s.mail && s.mail[pid].Replied?
    ensures Next(c, s, Run(pid, digest)) ==
            Some(s.(procs := s.procs[pid := AccCommit(s.procs[pid].request, s.procs[pid].buffer)]))
  {
    assert s.log + [] == s.log;
  }

  lemma CommitTakesEffect(c: Config, s: State, pid: Pid, digest: Digest)
    requires pid in s.procs && s.procs[pid].AccCommit?
    ensures Next(c, s, Run(pid, digest)) ==
            Some(s.(rows := s.rows + s.procs[pid].buffer, procs := s.procs[pid := Done],
                    log := s.log + [Committed(pid, s.procs[pid].request)]))
  {
  }

  // `accept` as a whole

  /** From the read to the open transaction. */
  lemma AcceptAdmits(c: Config, s: State, pid: Pid, slot: Slot, request: Request) returns (t: State)
    requires Reachable(c, s) && pid in s.procs && s.procs[pid] == CallCheck(slot, Accept, request)
    requires s.now <= request.expire && request.mod == FRIEND && request.action == ADD
    ensures Reachable(c, t)
    ensures t == s.(procs := s.procs[pid := AccFirst(request)],
                    log := s.log + [Passed(pid, slot, Accept, request, s.now), Admitted(pid, request, s.now)])
  {
    CheckPasses(c, s, pid, ANY);
    t := Advance(c, s, Run(pid, ANY));
    SendArrives(c, t, pid, ANY);
    t := Advance(c, t, Run(pid, ANY));
    CheckAdmits(c, t, pid, ANY);
    t := Advance(c, t, Run(pid, ANY));
    assert t.procs == s.procs[pid := AccFirst(request)];
  }

  /** Both saves. */
  lemma AcceptSaves(c: Config, s: State, pid: Pid, request: Request) returns (t: State)
    requires Reachable(c, s) && pid in s.procs && s.procs[pid] == AccFirst(request)
    ensures Reachable(c, t)
    ensures t == s.(procs := s.procs[pid := AccRemove(request, BothRows(request.sender, request.recive))])
  {
    FirstSaves(c, s, pid, ANY);
    t := Advance(c, s, Run(pid, ANY));
    SecondSaves(c, t, pid, ANY);
    t := Advance(c, t, Run(pid, ANY));
    var both := BothRows(request.sender, request.recive);
    assert [both[0]] + [both[1]] == both;
    assert t.procs == s.procs[pid := AccRemove(request, both)];
  }

  /** The removal is asked for and executed; the accept has yet to see the answer. */
  lemma AcceptRemoves(c: Config, s: State, pid: Pid, request: Request, buffer: seq<Friend>) returns (t: State)
    requires Reachable(c, s) && pid in s.procs && s.procs[pid] == AccRemove(request, buffer)
    requires s.db.HashFree(request.recive)
    ensures Reachable(c, t)
    ensures t == State(s.db.Hdel(RequestSlot(request)), s.rows, s.now, s.procs[pid := AccWait(request, buffer)],
                       s.mail[pid := Replied], s.log + [Removed(pid, RequestSlot(request))])
  {
    RemovalSent(c, s, pid, ANY);
    t := Advance(c, s, Run(pid, ANY));
    RemovalHandled(c, t, pid);
    t := Advance(c, t, HandleRemove(pid));
    assert t.mail == s.mail[pid := Replied];
  }

  /** From the read to the removal. */
  lemma AcceptUpToRemoval(c: Config, s: State, pid: Pid, slot: Slot, request: Request) returns (t: State)
    requires Reachable(c, s) && pid in s.procs && s.procs[pid] == CallCheck(slot, Accept, request)
    requires s.now <= request.expire && request.mod == FRIEND && request.action == ADD
    requires s.db.HashFree(request.recive)
    ensures Reachable(c, t)
    ensures t == State(s.db.Hdel(RequestSlot(request)), s.rows, s.now,
                       s.procs[pid := AccWait(request, BothRows(request.sender, request.recive))],
                       s.mail[pid := Replied],
                       s.log + [Passed(pid, slot, Accept, request, s.now), Admitted(pid, request, s.now),
                                Removed(pid, RequestSlot(request))])
  {
    t := AcceptAdmits(c, s, pid, slot, request);
    t := AcceptSaves(c, t, pid, request);
    t := AcceptRemoves(c, t, pid, request, BothRows(request.sender, request.recive));
    assert t.procs == s.procs[pid := AccWait(request, BothRows(request.sender, request.recive))];
  }

  /** From the answer to the end. */
  lemma AcceptCommits(c: Config, s: State, pid: Pid, request: Request, buffer: seq<Friend>) returns (t: State)
    requires Reachable(c, s) && pid in s.procs && s.procs[pid] == AccWait(request, buffer)
    requires pid in s.mail && s.mail[pid] == Replied
    ensures Reachable(c, t)
    ensures t == s.(rows := s.rows + buffer, procs := s.procs[pid := Done], log := s.log + [Committed(pid, request)])
  {
    AnswerHeard(c, s, pid, ANY);
    t := Advance(c, s, Run(pid, ANY));
    CommitTakesEffect(c, t, pid, ANY);
    t := Advance(c, t, Run(pid, ANY));
    assert t.procs == s.procs[pid := Done];
  }

  /** An accept that meets no failure commits. */
  lemma AcceptAlone(c: Config, s: State, pid: Pid, slot: Slot, request: Request) returns (t: State)
    requires Reachable(c, s) && pid in s.procs && s.procs[pid] == CallCheck(slot, Accept, request)
    requires s.now <= request.expire && request.mod == FRIEND && request.action == ADD
    requires s.db.HashFree(request.recive)
    ensures Reachable(c, t)
    ensures t == State(s.db.Hdel(RequestSlot(request)), s.rows + BothRows(request.sender, request.recive), s.now,
                       s.procs[pid := Done], s.mail[pid := Replied],
                       s.log + [Passed(pid, slot, Accept, request, s.now), Admitted(pid, request, s.now),
                                Removed(pid, RequestSlot(request)), Committed(pid, request)])
  {
    t := AcceptUpToRemoval(c, s, pid, slot, request);
    t := AcceptCommits(c, t, pid, request, BothRows(request.sender, request.recive));
    assert t.procs == s.procs[pid := Done];
  }

  /** What remains of an `addRequest` whose field was removed after the `hset`. */
  lemma AddEndsBare(c: Config, s: State, pid: Pid, slot: Slot, bumped: int) returns (t: State)
    requires Reachable(c, s) && pid in s.procs && s.procs[pid] == AddNx(slot, bumped) && slot !in s.db.hash
    requires s.db.KeysFree(slot.tid)
    ensures Reachable(c, t)
    ensures t == State(s.db.Hset(slot, Bare(bumped)).ZaddIndex(slot, bumped), s.rows, s.now, s.procs[pid := Done],
                       s.mail, s.log + [Indexed(pid, slot, bumped)])
    ensures t.db.Score(slot) == Some(bumped)
  {
    AddNxes(c, s, pid, ANY);
    t := Advance(c, s, Run(pid, ANY));
    AddIndexes(c, t, pid, ANY);
    IndexFreeLater(s.db, slot, Bare(bumped));
    t := Advance(c, t, Run(pid, ANY));
    assert t.procs == s.procs[pid := Done];
    ZaddIndexScore(s.db.Hset(slot, Bare(bumped)), slot, bumped, slot);
  }

  /** The transaction is open. */
  predicate InTransaction(p: Proc) {
    p.AccFirst? || p.AccSecond? || p.AccRemove? || p.AccWait? || p.AccCommit?
  }

  /** An accept can fail at every step of its transaction, and nothing else can fail. */
  lemma TransactionFails(c: Config, s: State, pid: Pid)
    requires pid in s.procs
    ensures Next(c, s, Fail(pid)) ==
            if InTransaction(s.procs[pid]) then Some(s.(procs := s.procs[pid := AccAbort(s.procs[pid].request)]))
            else None
  {
    assert s.log + [] == s.log;
  }

  lemma AbortSaid(c: Config, s: State, pid: Pid, digest: Digest)
    requires pid in s.procs && s.procs[pid].AccAbort?
    ensures Next(c, s, Run(pid, digest)) ==
            Some(s.(procs := s.procs[pid := Failed(UnknownError)],
                    log := s.log + [Aborted(pid, s.procs[pid].request)]))
  {
  }

  /** An accept that fails in its transaction, wherever it stands: it aborts and changes no store. A removal that was
      executed before stands, and one that was sent stays sent. */
  lemma AcceptAborts(c: Config, s: State, pid: Pid, request: Request) returns (t: State)
    requires Reachable(c, s) && pid in s.procs && InTransaction(s.procs[pid]) && s.procs[pid].request == request
    ensures Reachable(c, t)
    ensures t == s.(procs := s.procs[pid := Failed(UnknownError)], log := s.log + [Aborted(pid, request)])
  {
    TransactionFails(c, s, pid);
    t := Advance(c, s, Fail(pid));
    AbortSaid(c, t, pid, ANY);
    t := Advance(c, t, Run(pid, ANY));
    assert t.procs == s.procs[pid := Failed(UnknownError)];
  }

  /** An uninterrupted call and accept of a stored request. */
  lemma AnswerAlone(c: Config, s: State, pid: Pid, request: Request) returns (t: State)
    requires Reachable(c, s) && pid !in s.procs && request.recive in c.ids
    requires s.db.Hget(RequestSlot(request)) == Some(Stored(request)) && s.db.KeysFree(request.recive)
    requires s.now <= request.expire && request.mod == FRIEND && request.action == ADD
    ensures Reachable(c, t)
    ensures t.rows == s.rows + BothRows(request.sender, request.recive) && t.procs == s.procs[pid := Done]
    ensures t.db == s.db.Hdel(RequestSlot(request)) && t.db.KeysFree(request.recive)
  {
    var called := CallReads(c, s, pid, RequestSlot(request), request);
    t := AcceptAlone(c, called, pid, RequestSlot(request), request);
    assert t.procs == s.procs[pid := Done];
    HdelKeysFree(s.db, RequestSlot(request), request.recive);
  }

  /** One user asks and the other accepts. */
  lemma Befriend(c: Config, s: State, p: Pid, q: Pid, a: string, b: string) returns (t: State)
    requires Reachable(c, s) && p !in s.procs && q !in s.procs && p != q
    requires a in c.ids && b in c.ids && c.expire >= 0 && !HasFriend(s.rows, a, b) && s.db.KeysFree(b)
    ensures Reachable(c, t)
    ensures t.rows == s.rows + BothRows(a, b) && t.procs == s.procs[p := Done][q := Done] && t.db.KeysFree(b)
  {
    var asked := AddAlone(c, s, p, a, b, "", ANY);
    t := AnswerAlone(c, asked, q, RequestOf(c, a, b, "", s.now, ANY));
  }

  lemma TagStarts(c: Config, s: State, pid: Pid, source: string, target: string, tag: string)
    requires pid !in s.procs && source in c.ids
    ensures Next(c, s, StartTag(pid, source, target, tag)) ==
            Some(s.(procs := s.procs[pid := TagCheck(source, target, tag)]))
  {
    assert s.log + [] == s.log;
  }

  lemma TagFindsFriend(c: Config, s: State, pid: Pid, digest: Digest)
    requires pid in s.procs && s.procs[pid].TagCheck?
    ensures var p := s.procs[pid];
            Next(c, s, Run(pid, digest)) ==
            Some(s.(procs := s.procs[pid := if HasFriend(s.rows, p.source, p.target)
                                            then TagWrite(p.source, p.target, p.tag) else Failed(NotFriends)]))
  {
    assert s.log + [] == s.log;
  }

  lemma TagChecks(c: Config, s: State, pid: Pid, source: string, target: string, tag: string) returns (t: State)
    requires Reachable(c, s) && pid !in s.procs && source in c.ids && HasFriend(s.rows, source, target)
    ensures Reachable(c, t) && t == s.(procs := s.procs[pid := TagWrite(source, target, tag)])
  {
    TagStarts(c, s, pid, source, target, tag);
    t := Advance(c, s, StartTag(pid, source, target, tag));
    TagFindsFriend(c, t, pid, ANY);
    t := Advance(c, t, Run(pid, ANY));
    assert t.procs == s.procs[pid := TagWrite(source, target, tag)];
  }

  /** A tag change that runs alone. */
  lemma TagAlone(c: Config, s: State, pid: Pid, source: string, target: string, tag: string) returns (t: State)
    requires Reachable(c, s) && pid !in s.procs && source in c.ids && HasFriend(s.rows, source, target)
    ensures Reachable(c, t) && t.db == s.db && Pairs(t.rows) == Pairs(s.rows)
    ensures multiset(t.rows) == multiset(s.rows) - multiset{s.rows[Find(s.rows, source, target)]}
                                                 + multiset{Friend(source, target, tag)}
  {
    var checked := TagChecks(c, s, pid, source, target, tag);
    t := Advance(c, checked, Run(pid, ANY));
    assert t.rows == SetTag(s.rows, source, target, tag);
    SetTagPairs(s.rows, source, target, tag);
  }

  lemma DropStarts(c: Config, s: State, pid: Pid, source: string, target: string) returns (t: State)
    requires Reachable(c, s) && pid !in s.procs && source in c.ids
    ensures Reachable(c, t) && t == s.(procs := s.procs[pid := DropCheck(source, target)])
  {
    t := Advance(c, s, StartDrop(pid, source, target));
    assert s.log + [] == s.log;
  }

  lemma DropFindsFriend(c: Config, s: State, pid: Pid, digest: Digest)
    requires pid in s.procs && s.procs[pid].DropCheck?
    ensures var p := s.procs[pid];
            Next(c, s, Run(pid, digest)) ==
            Some(s.(procs := s.procs[pid := if HasFriend(s.rows, p.source, p.target)
                                            then DropLookup(p.source, p.target) else Failed(NotFriends)]))
  {
    assert s.log + [] == s.log;
  }

  lemma DropFindsId(c: Config, s: State, pid: Pid, digest: Digest)
    requires pid in s.procs && s.procs[pid].DropLookup?
    ensures var p := s.procs[pid];
            Next(c, s, Run(pid, digest)) ==
            Some(s.(procs := s.procs[pid := if p.target in c.ids then DropDelete(p.source, p.target, c.ids[p.target])
                                            else Failed(NoSuchUser)]))
  {
    assert s.log + [] == s.log;
  }

  /** A `remove` up to the deletion. */
  lemma DropLooksUp(c: Config, s: State, pid: Pid, source: string, target: string) returns (t: State)
    requires Reachable(c, s) && pid in s.procs && s.procs[pid] == DropCheck(source, target) && target in c.ids
    requires HasFriend(s.rows, source, target)
    ensures Reachable(c, t) && t == s.(procs := s.procs[pid := DropDelete(source, target, c.ids[target])])
  {
    DropFindsFriend(c, s, pid, ANY);
    t := Advance(c, s, Run(pid, ANY));
    DropFindsId(c, t, pid, ANY);
    t := Advance(c, t, Run(pid, ANY));
    assert t.procs == s.procs[pid := DropDelete(source, target, c.ids[target])];
  }

  lemma DropDeletes(c: Config, s: State, pid: Pid, digest: Digest)
    requires pid in s.procs && s.procs[pid].DropDelete?
    ensures Next(c, s, Run(pid, digest)) ==
            Some(s.(rows := DeleteOne(s.rows, s.procs[pid].source, s.procs[pid].id), procs := s.procs[pid := Done]))
  {
    assert s.log + [] == s.log;
  }

  /** A `remove` about to delete. */
  lemma DropReady(c: Config, s: State, pid: Pid, source: string, target: string) returns (t: State)
    requires Reachable(c, s) && pid !in s.procs && source in c.ids && target in c.ids
    requires HasFriend(s.rows, source, target)
    ensures Reachable(c, t) && t == s.(procs := s.procs[pid := DropDelete(source, target, c.ids[target])])
  {
    t := DropStarts(c, s, pid, source, target);
    t := DropLooksUp(c, t, pid, source, target);
    assert t.procs == s.procs[pid := DropDelete(source, target, c.ids[target])];
  }
}
