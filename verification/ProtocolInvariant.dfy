/**
  The inductive invariant of the protocol: every observed event, every process, every hash field, every score
  and every pending removal is accounted for by earlier events; and a process passes its stages once.
 */
module ProtocolInvariant {
  import opened Wrappers
  import opened Requests
  import opened RequestDb
  import opened FriendRows
  import opened Protocol

  // What the past may say

  ghost predicate WasHashed(past: seq<Event>, slot: Slot, request: Request) {
    exists q :: Hashed(q, slot, request) in past
  }

  ghost predicate WasPassed(past: seq<Event>, pid: Pid, request: Request) {
    exists at :: Passed(pid, RequestSlot(request), Accept, request, at) in past
  }

  ghost predicate WasAdmitted(past: seq<Event>, pid: Pid, request: Request) {
    exists at :: Admitted(pid, request, at) in past
  }

  ghost predicate WasRemoved(past: seq<Event>, slot: Slot) {
    exists q :: Removed(q, slot) in past
  }

  /** A request as `add` makes it: a friend request under an id built from its two ends. */
  ghost predicate FromAdd(c: Config, request: Request) {
    && request.mod == FRIEND && request.action == ADD && request.rid != ""
    && exists d: Digest :: request.rid == CreateRid(request.sender, request.recive, c.worker, d)
  }

  /** Why an event may happen after `past`. */
  ghost predicate Justified(c: Config, past: seq<Event>, e: Event) {
    match e
    case Asked(p, source, target) => source in c.ids
    case Created(p, request) => Asked(p, request.sender, request.recive) in past && FromAdd(c, request)
    case Hashed(p, slot, request) => Created(p, request) in past && slot == RequestSlot(request)
    case Indexed(p, slot, score) =>
      exists request :: Hashed(p, slot, request) in past && score == request.expire + c.expire
    case Read(p, slot, status, request) =>
      slot.tid in c.ids && slot == RequestSlot(request) && WasHashed(past, slot, request)
    case Missed(p, slot) => slot.tid in c.ids
    case Passed(p, slot, status, request, at) => Read(p, slot, status, request) in past && at <= request.expire
    case Rejected(p, slot, request, at) =>
      request.expire < at && exists status :: Read(p, slot, status, request) in past
    case Admitted(p, request, at) => WasPassed(past, p, request) && at <= request.expire
    case Lapsed(p, request, at) => WasPassed(past, p, request) && request.expire < at
    case Removed(p, slot) => exists request :: WasAdmitted(past, p, request) && slot == RequestSlot(request)
    case Committed(p, request) => WasAdmitted(past, p, request) && Removed(p, RequestSlot(request)) in past
    case Aborted(p, request) => WasAdmitted(past, p, request)
  }

  ghost predicate JustifiedLog(c: Config, log: seq<Event>) {
    forall k {:trigger log[..k]} | 0 <= k < |log| :: Justified(c, log[..k], log[k])
  }

  // What the stores and processes rest on

  ghost predicate FieldOk(c: Config, log: seq<Event>, slot: Slot, field: Field) {
    match field
    case Stored(request) => slot == RequestSlot(request) && WasHashed(log, slot, request)
    case Bare(n) => exists request :: WasHashed(log, slot, request) && n == request.expire + c.expire
  }

  ghost predicate ScoreOk(c: Config, log: seq<Event>, slot: Slot, score: int) {
    exists request :: WasHashed(log, slot, request) && score == request.expire + c.expire
  }

  ghost predicate MailOk(log: seq<Event>, pid: Pid, mail: Mail) {
    match mail
    case Pending(slot) => exists request :: WasAdmitted(log, pid, request) && slot == RequestSlot(request)
    case Replied => exists slot :: Removed(pid, slot) in log
  }

  ghost predicate AnswerOk(log: seq<Event>, mail: map<Pid, Mail>, pid: Pid, slot: Slot) {
    pid in mail && (mail[pid] == Pending(slot) || (mail[pid] == Replied && Removed(pid, slot) in log))
  }

  ghost predicate ProcOk(c: Config, log: seq<Event>, mail: map<Pid, Mail>, pid: Pid, proc: Proc) {
    match proc
    case AddCheck(source, target, msg) => Asked(pid, source, target) in log
    case AddCreate(source, target, msg) => Asked(pid, source, target) in log
    case AddHset(request) => Created(pid, request) in log && FromAdd(c, request)
    case AddNx(slot, bumped) =>
      exists request :: Hashed(pid, slot, request) in log && bumped == request.expire + c.expire
    case AddIndex(slot, bumped) =>
      exists request :: Hashed(pid, slot, request) in log && bumped == request.expire + c.expire
    case CallRead(slot, status) => slot.tid in c.ids
    case CallCheck(slot, status, request) => Read(pid, slot, status, request) in log && slot == RequestSlot(request)
    case CallSend(slot, status, request) =>
      slot == RequestSlot(request) && exists at :: Passed(pid, slot, status, request, at) in log
    case AccCheck(request) => WasPassed(log, pid, request)
    case AccFirst(request) => WasAdmitted(log, pid, request)
    case AccSecond(request, buffer) =>
      WasAdmitted(log, pid, request) && buffer == [Friend(request.sender, request.recive, "")]
    case AccRemove(request, buffer) =>
      WasAdmitted(log, pid, request) && buffer == BothRows(request.sender, request.recive)
    case AccWait(request, buffer) =>
      && WasAdmitted(log, pid, request) && buffer == BothRows(request.sender, request.recive)
      && AnswerOk(log, mail, pid, RequestSlot(request))
    case AccCommit(request, buffer) =>
      && WasAdmitted(log, pid, request) && buffer == BothRows(request.sender, request.recive)
      && Removed(pid, RequestSlot(request)) in log
    case AccAbort(request) => WasAdmitted(log, pid, request)
    case DropDelete(source, target, id) => target in c.ids && id == c.ids[target]
    case _ => true
  }

  ghost predicate ProcsOk(c: Config, s: State) {
    forall p | p in s.procs :: ProcOk(c, s.log, s.mail, p, s.procs[p])
  }

  ghost predicate FieldsOk(c: Config, log: seq<Event>, db: Db) {
    forall slot | slot in db.hash :: FieldOk(c, log, slot, db.hash[slot])
  }

  ghost predicate ScoresOk(c: Config, log: seq<Event>, db: Db) {
    forall slot | db.Score(slot).Some? :: ScoreOk(c, log, slot, db.Score(slot).value)
  }

  ghost predicate MailsOk(log: seq<Event>, mail: map<Pid, Mail>) {
    forall p | p in mail :: MailOk(log, p, mail[p])
  }

  // Stages

  /** How far a process has come; an event of rank n takes it from below n to n or beyond. */
  function Stage(proc: Proc): nat {
    match proc
    case AddCheck(_, _, _) => 1
    case AddCreate(_, _, _) => 1
    case AddHset(_) => 2
    case AddNx(_, _) => 3
    case AddIndex(_, _) => 3
    case CallRead(_, _) => 0
    case CallCheck(_, _, _) => 1
    case CallSend(_, _, _) => 2
    case AccCheck(_) => 2
    case Done => 5
    case Failed(_) => 5
    case ListKeys(_, _) => 0
    case ListGet(_, _, _) => 0
    case TagCheck(_, _, _) => 0
    case TagWrite(_, _, _) => 0
    case DropCheck(_, _) => 0
    case DropLookup(_, _) => 0
    case DropDelete(_, _, _) => 0
    case _ => 3
  }

  function EventRank(e: Event): nat {
    match e
    case Asked(_, _, _) => 1
    case Created(_, _) => 2
    case Hashed(_, _, _) => 3
    case Indexed(_, _, _) => 4
    case Read(_, _, _, _) => 1
    case Missed(_, _) => 1
    case Passed(_, _, _, _, _) => 2
    case Rejected(_, _, _, _) => 2
    case Admitted(_, _, _) => 3
    case Lapsed(_, _, _) => 3
    case Committed(_, _) => 4
    case Aborted(_, _) => 4
    case Removed(_, _) => 0
  }

  ghost predicate RanksOk(s: State) {
    forall e | e in s.log && !e.Removed? :: e.pid in s.procs && EventRank(e) <= Stage(s.procs[e.pid])
  }

  predicate Rises(e: Event, later: Event) {
    e.pid == later.pid && !e.Removed? && !later.Removed? ==> EventRank(e) < EventRank(later)
  }

  /** The events of one process, its removal aside, come in rising rank: none of them twice. */
  ghost predicate RanksRise(log: seq<Event>) {
    forall i, j {:trigger Rises(log[i], log[j])} | 0 <= i < j < |log| :: Rises(log[i], log[j])
  }

  ghost predicate Inv(c: Config, s: State) {
    && JustifiedLog(c, s.log)
    && ProcsOk(c, s)
    && FieldsOk(c, s.log, s.db)
    && ScoresOk(c, s.log, s.db)
    && MailsOk(s.log, s.mail)
    && RanksOk(s)
    && RanksRise(s.log)
  }

  lemma InitInv(c: Config)
    ensures Inv(c, Init(c))
  {
  }

  lemma JustifiedAppend(c: Config, log: seq<Event>, e: Event)
    requires JustifiedLog(c, log) && Justified(c, log, e)
    ensures JustifiedLog(c, log + [e])
  {
    var longer := log + [e];
    forall k | 0 <= k < |longer| ensures Justified(c, longer[..k], longer[k]) {
      assert longer[..k] == log[..k];
      if k == |log| { assert log[..k] == log; }
    }
  }

  ghost predicate Longer(log: seq<Event>, longer: seq<Event>) {
    forall e | e in log :: e in longer
  }

  ghost predicate StoresOk(c: Config, log: seq<Event>, db: Db, mail: map<Pid, Mail>) {
    FieldsOk(c, log, db) && ScoresOk(c, log, db) && MailsOk(log, mail)
  }

  // One step of one process

  /** What a step owes to its own process. */
  ghost predicate LocalOk(c: Config, s: State, pid: Pid, before: nat, e: Effect) {
    && |e.said| <= 1
    && (forall x | x in e.said ::
          && x.pid == pid && !x.Removed? && Justified(c, s.log, x)
          && before < EventRank(x) <= Stage(e.to))
    && before <= Stage(e.to)
    && ProcOk(c, s.log + e.said, e.mail, pid, e.to)
    && (forall q | q != pid :: (q in e.mail <==> q in s.mail) && (q in s.mail ==> e.mail[q] == s.mail[q]))
  }

  /** A longer log justifies the stores no less. */
  lemma StoresLater(c: Config, log: seq<Event>, said: seq<Event>, db: Db, mail: map<Pid, Mail>)
    requires StoresOk(c, log, db, mail)
    ensures StoresOk(c, log + said, db, mail)
  {
  }

  lemma AddCreateLocal(c: Config, s: State, pid: Pid, digest: Digest)
    requires pid in s.procs && s.procs[pid].AddCreate? && ProcOk(c, s.log, s.mail, pid, s.procs[pid])
    ensures LocalOk(c, s, pid, Stage(s.procs[pid]), ActAdd(c, s, pid, digest).value)
  {
    var e, p := ActAdd(c, s, pid, digest).value, s.procs[pid];
    RidNotEmpty(p.source, p.target, c.worker, digest);
    assert FromAdd(c, e.to.request);
    assert e.said == [Created(pid, e.to.request)];
  }

  lemma AddHsetLocal(c: Config, s: State, pid: Pid, digest: Digest)
    requires pid in s.procs && s.procs[pid].AddHset? && ProcOk(c, s.log, s.mail, pid, s.procs[pid])
    ensures LocalOk(c, s, pid, Stage(s.procs[pid]), ActAdd(c, s, pid, digest).value)
  {
    var e := ActAdd(c, s, pid, digest).value;
    assert Hashed(pid, RequestSlot(s.procs[pid].request), s.procs[pid].request) in s.log + e.said;
  }

  lemma ActAddLocal(c: Config, s: State, pid: Pid, digest: Digest)
    requires pid in s.procs && ActAdd(c, s, pid, digest).Some? && ProcOk(c, s.log, s.mail, pid, s.procs[pid])
    requires !s.procs[pid].AddCreate? && !s.procs[pid].AddHset?
    ensures LocalOk(c, s, pid, Stage(s.procs[pid]), ActAdd(c, s, pid, digest).value)
  {
    var e := ActAdd(c, s, pid, digest).value;
    if e.said == [] {
      assert s.log + e.said == s.log;
    }
  }

  lemma ActAddStores(c: Config, s: State, pid: Pid, digest: Digest)
    requires pid in s.procs && ActAdd(c, s, pid, digest).Some? && ProcOk(c, s.log, s.mail, pid, s.procs[pid])
    requires StoresOk(c, s.log, s.db, s.mail)
    ensures var e := ActAdd(c, s, pid, digest).value; StoresOk(c, s.log + e.said, e.db, e.mail)
  {
    var e := ActAdd(c, s, pid, digest).value;
    var log := s.log + e.said;
    StoresLater(c, s.log, e.said, s.db, s.mail);
    match s.procs[pid] {
      case AddHset(request) =>
        var slot := SlotOf(request, c.worker, digest);
        assert Hashed(pid, slot, request) in log;
        SetField(c, log, s.db, slot, Stored(request));
      case AddNx(slot, bumped) =>
        assert s.log == log;
        if slot !in s.db.hash { SetField(c, log, s.db, slot, Bare(bumped)); }
      case AddIndex(slot, bumped) =>
        forall other | e.db.Score(other).Some? ensures ScoreOk(c, log, other, e.db.Score(other).value) {
          ZaddIndexScore(s.db, slot, bumped, other);
        }
      case _ =>
    }
  }

  lemma SetField(c: Config, log: seq<Event>, db: Db, slot: Slot, field: Field)
    requires FieldsOk(c, log, db) && ScoresOk(c, log, db) && FieldOk(c, log, slot, field)
    ensures FieldsOk(c, log, db.Hset(slot, field)) && ScoresOk(c, log, db.Hset(slot, field))
  {
    assert forall other :: db.Hset(slot, field).Score(other) == db.Score(other);
  }

  lemma CallReadLocal(c: Config, s: State, pid: Pid)
    requires pid in s.procs && s.procs[pid].CallRead? && ProcOk(c, s.log, s.mail, pid, s.procs[pid])
    requires var slot := s.procs[pid].slot; slot in s.db.hash ==> FieldOk(c, s.log, slot, s.db.hash[slot])
    ensures LocalOk(c, s, pid, Stage(s.procs[pid]), ActCall(c, s, pid).value)
  {
  }

  lemma ActCallLocal(c: Config, s: State, pid: Pid)
    requires pid in s.procs && ActCall(c, s, pid).Some? && ProcOk(c, s.log, s.mail, pid, s.procs[pid])
    requires !s.procs[pid].CallRead?
    ensures LocalOk(c, s, pid, Stage(s.procs[pid]), ActCall(c, s, pid).value)
  {
    var e := ActCall(c, s, pid).value;
    var p := s.procs[pid];
    if p.CallCheck? && !IsExpired(p.request, s.now) {
      assert Passed(pid, p.slot, p.status, p.request, s.now) in s.log + e.said;
    } else if p.CallSend? {
      assert s.log + e.said == s.log;
    }
  }

  lemma AccCheckLocal(c: Config, s: State, pid: Pid)
    requires pid in s.procs && s.procs[pid].AccCheck? && ProcOk(c, s.log, s.mail, pid, s.procs[pid])
    ensures LocalOk(c, s, pid, Stage(s.procs[pid]), ActAccept(c, s, pid).value)
  {
    var e := ActAccept(c, s, pid).value;
    var p := s.procs[pid];
    if !IsExpired(p.request, s.now) {
      assert Admitted(pid, p.request, s.now) in s.log + e.said;
    }
  }

  /** The steps of an accept that say nothing. */
  lemma AcceptQuietLocal(c: Config, s: State, pid: Pid)
    requires pid in s.procs && ActAccept(c, s, pid).Some? && ProcOk(c, s.log, s.mail, pid, s.procs[pid])
    requires ActAccept(c, s, pid).value.said == []
    ensures LocalOk(c, s, pid, Stage(s.procs[pid]), ActAccept(c, s, pid).value)
  {
    var e := ActAccept(c, s, pid).value;
    assert s.log + e.said == s.log;
  }

  lemma ActAcceptLocal(c: Config, s: State, pid: Pid)
    requires pid in s.procs && ActAccept(c, s, pid).Some? && ProcOk(c, s.log, s.mail, pid, s.procs[pid])
    ensures LocalOk(c, s, pid, Stage(s.procs[pid]), ActAccept(c, s, pid).value)
  {
    if s.procs[pid].AccCheck? {
      AccCheckLocal(c, s, pid);
    } else if ActAccept(c, s, pid).value.said == [] {
      AcceptQuietLocal(c, s, pid);
    }
  }

  lemma ActAcceptStores(c: Config, s: State, pid: Pid)
    requires pid in s.procs && ActAccept(c, s, pid).Some? && ProcOk(c, s.log, s.mail, pid, s.procs[pid])
    requires StoresOk(c, s.log, s.db, s.mail)
    ensures var e := ActAccept(c, s, pid).value; StoresOk(c, s.log + e.said, s.db, e.mail)
  {
  }

  lemma ActRowsLocal(c: Config, s: State, pid: Pid)
    requires pid in s.procs && ActRows(c, s, pid).Some? && ProcOk(c, s.log, s.mail, pid, s.procs[pid])
    ensures LocalOk(c, s, pid, Stage(s.procs[pid]), ActRows(c, s, pid).value)
  {
  }

  lemma ActListLocal(c: Config, s: State, pid: Pid)
    requires pid in s.procs && ActList(c, s, pid).Some?
    ensures LocalOk(c, s, pid, Stage(s.procs[pid]), ActList(c, s, pid).value)
  {
  }

  lemma ActFailLocal(c: Config, s: State, pid: Pid)
    requires pid in s.procs && ActFail(s, pid).Some? && ProcOk(c, s.log, s.mail, pid, s.procs[pid])
    ensures LocalOk(c, s, pid, Stage(s.procs[pid]), ActFail(s, pid).value)
  {
  }

  lemma ApplyProcs(c: Config, s: State, pid: Pid, before: nat, e: Effect)
    requires ProcsOk(c, s) && LocalOk(c, s, pid, before, e)
    ensures ProcsOk(c, Apply(s, pid, e))
  {
  }

  lemma ApplyRanks(c: Config, s: State, pid: Pid, e: Effect)
    requires RanksOk(s) && RanksRise(s.log)
    requires LocalOk(c, s, pid, if pid in s.procs then Stage(s.procs[pid]) else 0, e)
    ensures RanksOk(Apply(s, pid, e)) && RanksRise(Apply(s, pid, e).log)
  {
  }

  lemma ApplyInv(c: Config, s: State, pid: Pid, e: Effect)
    requires Inv(c, s)
    requires LocalOk(c, s, pid, if pid in s.procs then Stage(s.procs[pid]) else 0, e)
    requires StoresOk(c, s.log + e.said, e.db, e.mail)
    ensures Inv(c, Apply(s, pid, e))
  {
    if e.said == [] {
      assert s.log + e.said == s.log;
    } else {
      assert e.said == [e.said[0]];
      JustifiedAppend(c, s.log, e.said[0]);
    }
    ApplyProcs(c, s, pid, if pid in s.procs then Stage(s.procs[pid]) else 0, e);
    ApplyRanks(c, s, pid, e);
  }

  lemma AnswerLater(c: Config, s: State, pid: Pid, longer: seq<Event>)
    requires ProcsOk(c, s) && Longer(s.log, longer) && pid in s.mail && s.mail[pid].Pending?
    requires Removed(pid, s.mail[pid].slot) in longer
    ensures ProcsOk(c, s.(log := longer, mail := s.mail[pid := Replied]))
  {
  }

  lemma HandleRemoveStores(c: Config, s: State, pid: Pid, log: seq<Event>)
    requires StoresOk(c, log, s.db, s.mail) && pid in s.mail && s.mail[pid].Pending?
    requires Removed(pid, s.mail[pid].slot) in log
    ensures StoresOk(c, log, s.db.Hdel(s.mail[pid].slot), s.mail[pid := Replied])
  {
    var db := s.db.Hdel(s.mail[pid].slot);
    forall slot | slot in db.hash ensures FieldOk(c, log, slot, db.hash[slot]) {
      assert FieldOk(c, log, slot, s.db.hash[slot]);
    }
    assert forall slot :: db.Score(slot) == s.db.Score(slot);
  }

  lemma RemovedRanks(s: State, t: State, removed: Event)
    requires RanksOk(s) && RanksRise(s.log) && removed.Removed?
    requires t.log == s.log + [removed] && t.procs == s.procs
    ensures RanksOk(t) && RanksRise(t.log)
  {
  }

  lemma HandleRemoveInv(c: Config, s: State, pid: Pid)
    requires Inv(c, s) && Next(c, s, HandleRemove(pid)).Some?
    ensures Inv(c, Next(c, s, HandleRemove(pid)).value)
  {
    var t := Next(c, s, HandleRemove(pid)).value;
    var removed := Removed(pid, s.mail[pid].slot);
    assert MailOk(s.log, pid, s.mail[pid]);
    JustifiedAppend(c, s.log, removed);
    StoresLater(c, s.log, [removed], s.db, s.mail);
    HandleRemoveStores(c, s, pid, s.log + [removed]);
    AnswerLater(c, s, pid, s.log + [removed]);
    RemovedRanks(s, t, removed);
  }

  /** What process a step belongs to, and what it does, apart from the clock and the removal service. */
  function StepEffect(c: Config, s: State, l: Label): Option<Effect> {
    match l
    case StartAdd(pid, source, target, msg) =>
      Some(Moved(s, AddCheck(source, target, msg)).(said := [Asked(pid, source, target)]))
    case StartCall(pid, tid, rid, status) => Some(Moved(s, CallRead(Slot(tid, rid), status)))
    case StartList(pid, tid, page) => Some(Moved(s, ListKeys(tid, page)))
    case StartTag(pid, source, target, tag) => Some(Moved(s, TagCheck(source, target, tag)))
    case StartDrop(pid, source, target) => Some(Moved(s, DropCheck(source, target)))
    case Run(pid, digest) => if pid in s.procs then Act(c, s, pid, digest) else None
    case Fail(pid) => if pid in s.procs then ActFail(s, pid) else None
    case _ => None
  }

  lemma AddInv(c: Config, s: State, pid: Pid, digest: Digest)
    requires Inv(c, s) && pid in s.procs && ActAdd(c, s, pid, digest).Some?
    ensures Inv(c, Apply(s, pid, ActAdd(c, s, pid, digest).value))
  {
    assert ProcOk(c, s.log, s.mail, pid, s.procs[pid]);
    if s.procs[pid].AddCreate? { AddCreateLocal(c, s, pid, digest); }
    else if s.procs[pid].AddHset? { AddHsetLocal(c, s, pid, digest); }
    else { ActAddLocal(c, s, pid, digest); }
    ActAddStores(c, s, pid, digest);
    ApplyInv(c, s, pid, ActAdd(c, s, pid, digest).value);
  }

  lemma CallInv(c: Config, s: State, pid: Pid)
    requires Inv(c, s) && pid in s.procs && ActCall(c, s, pid).Some?
    ensures Inv(c, Apply(s, pid, ActCall(c, s, pid).value))
  {
    var e := ActCall(c, s, pid).value;
    assert ProcOk(c, s.log, s.mail, pid, s.procs[pid]);
    if s.procs[pid].CallRead? { CallReadLocal(c, s, pid); } else { ActCallLocal(c, s, pid); }
    StoresLater(c, s.log, e.said, s.db, s.mail);
    ApplyInv(c, s, pid, e);
  }

  lemma ListInv(c: Config, s: State, pid: Pid)
    requires Inv(c, s) && pid in s.procs && ActList(c, s, pid).Some?
    ensures Inv(c, Apply(s, pid, ActList(c, s, pid).value))
  {
    ActListLocal(c, s, pid);
    StoresLater(c, s.log, [], s.db, s.mail);
    ApplyInv(c, s, pid, ActList(c, s, pid).value);
  }

  lemma RowsInv(c: Config, s: State, pid: Pid)
    requires Inv(c, s) && pid in s.procs && ActRows(c, s, pid).Some?
    ensures Inv(c, Apply(s, pid, ActRows(c, s, pid).value))
  {
    assert ProcOk(c, s.log, s.mail, pid, s.procs[pid]);
    ActRowsLocal(c, s, pid);
    StoresLater(c, s.log, [], s.db, s.mail);
    ApplyInv(c, s, pid, ActRows(c, s, pid).value);
  }

  lemma AcceptInv(c: Config, s: State, pid: Pid)
    requires Inv(c, s) && pid in s.procs && ActAccept(c, s, pid).Some?
    ensures Inv(c, Apply(s, pid, ActAccept(c, s, pid).value))
  {
    assert ProcOk(c, s.log, s.mail, pid, s.procs[pid]);
    ActAcceptLocal(c, s, pid);
    ActAcceptStores(c, s, pid);
    ApplyInv(c, s, pid, ActAccept(c, s, pid).value);
  }

  lemma FailInv(c: Config, s: State, pid: Pid)
    requires Inv(c, s) && pid in s.procs && ActFail(s, pid).Some?
    ensures Inv(c, Apply(s, pid, ActFail(s, pid).value))
  {
    assert ProcOk(c, s.log, s.mail, pid, s.procs[pid]);
    ActFailLocal(c, s, pid);
    StoresLater(c, s.log, [], s.db, s.mail);
    ApplyInv(c, s, pid, ActFail(s, pid).value);
  }

  /** A successful step of a process is that of the service it runs. */
  lemma ActSplits(c: Config, s: State, pid: Pid, digest: Digest)
    requires pid in s.procs
    ensures var a := Act(c, s, pid, digest);
            || a == ActAdd(c, s, pid, digest) || a == ActCall(c, s, pid) || a == ActList(c, s, pid)
            || a == ActAccept(c, s, pid) || a == ActRows(c, s, pid)
  {
  }

  lemma RunInv(c: Config, s: State, pid: Pid, digest: Digest)
    requires Inv(c, s) && pid in s.procs && Act(c, s, pid, digest).Some?
    ensures Inv(c, Apply(s, pid, Act(c, s, pid, digest).value))
  {
    ActSplits(c, s, pid, digest);
    var a := Act(c, s, pid, digest);
    if a == ActAdd(c, s, pid, digest) { AddInv(c, s, pid, digest); }
    else if a == ActCall(c, s, pid) { CallInv(c, s, pid); }
    else if a == ActList(c, s, pid) { ListInv(c, s, pid); }
    else if a == ActAccept(c, s, pid) { AcceptInv(c, s, pid); }
    else { RowsInv(c, s, pid); }
  }

  lemma StartInv(c: Config, s: State, l: Label)
    requires Inv(c, s) && StepEffect(c, s, l).Some? && l.pid !in s.procs && Next(c, s, l).Some?
    ensures Inv(c, Apply(s, l.pid, StepEffect(c, s, l).value))
  {
    var e := StepEffect(c, s, l).value;
    StoresLater(c, s.log, e.said, s.db, s.mail);
    ApplyInv(c, s, l.pid, e);
  }

  lemma StepInv(c: Config, s: State, l: Label)
    requires Inv(c, s) && Next(c, s, l).Some?
    ensures Inv(c, Next(c, s, l).value)
  {
    if l.HandleRemove? {
      HandleRemoveInv(c, s, l.pid);
    } else if l.Run? {
      RunInv(c, s, l.pid, l.digest);
    } else if l.Fail? {
      FailInv(c, s, l.pid);
    } else if !l.Tick? {
      StartInv(c, s, l);
    }
  }

  lemma {:induction false} PlayInv(c: Config, s: State, labels: seq<Label>)
    requires Inv(c, s) && Play(c, s, labels).Some?
    ensures Inv(c, Play(c, s, labels).value)
    decreases |labels|
  {
    if labels != [] {
      StepInv(c, s, labels[0]);
      PlayInv(c, Next(c, s, labels[0]).value, labels[1..]);
    }
  }

  /** The invariant holds in every reachable state, whatever the interleaving and the failures. */
  lemma ReachableInv(c: Config, s: State)
    requires Reachable(c, s)
    ensures Inv(c, s)
  {
    var labels :| Play(c, Init(c), labels) == Some(s);
    InitInv(c);
    PlayInv(c, Init(c), labels);
  }

  lemma ReachableLog(c: Config, s: State)
    requires Reachable(c, s)
    ensures JustifiedLog(c, s.log) && RanksRise(s.log)
  {
    ReachableInv(c, s);
  }
}
