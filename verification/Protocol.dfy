/**
  The friend-request protocol as a step machine. Calls of the services are processes; one Redis or Mongo
  command, or one read of the clock, is one step; steps of different processes interleave in any order.
  Everything left open (who steps, which hash a request gets, whether a step of `accept` fails) is in the
  label, so a run is a sequence of labels.

  A process whose next command never succeeds is a process that never steps again; so is one whose command finds
  a value of another type under its key, until that value is gone. Only `accept` reacts to a failure, so only its
  steps have a failing form.
 */
module Protocol {
  import opened Wrappers
  import opened Requests
  import opened RequestDb
  import opened FriendRows
  import SortedSet

  /** The configured expiry and page size, the worker id, and the document id of each registered user. */
  datatype Config = Config(expire: int, size: int, worker: string, ids: map<string, string>, start: int)

  type Pid = nat

  datatype Failure = AlreadyFriends | NotFriends | NoSuchUser | NotFound | TooLate | NoHandler | UnknownError

  /** Where a process stands: the command it executes next, and its local variables. */
  datatype Proc =
    // FriendsService.add, continued by RequestService.addRequest
    | AddCheck(source: string, target: string, msg: string)
    | AddCreate(source: string, target: string, msg: string)
    | AddHset(request: Request)
    | AddNx(slot: Slot, bumped: int)
    | AddIndex(slot: Slot, bumped: int)
    // RequestService.call
    | CallRead(slot: Slot, status: Status)
    | CallCheck(slot: Slot, status: Status, request: Request)
    | CallSend(slot: Slot, status: Status, request: Request)
    // RequestService.getAllRequest: the keys it has read, and the fields under the first of them
    | ListKeys(tid: string, page: Option<int>)
    | ListGet(tid: string, keys: SortedSet.ZSet, got: seq<Option<Field>>)
    // FriendsService.accept: the payload, and the rows written in the open transaction
    | AccCheck(request: Request)
    | AccFirst(request: Request)
    | AccSecond(request: Request, buffer: seq<Friend>)
    | AccRemove(request: Request, buffer: seq<Friend>)
    | AccWait(request: Request, buffer: seq<Friend>)
    | AccCommit(request: Request, buffer: seq<Friend>)
    | AccAbort(request: Request)
    // FriendsService.updateTag
    | TagCheck(source: string, target: string, tag: string)
    | TagWrite(source: string, target: string, tag: string)
    // FriendsService.remove
    | DropCheck(source: string, target: string)
    | DropLookup(source: string, target: string)
    | DropDelete(source: string, target: string, id: string)
    | Done
    | Failed(why: Failure)

  /** The removal call an accept has sent: not yet handled, or handled and answered. */
  datatype Mail = Pending(slot: Slot) | Replied

  /** What an observer sees. */
  datatype Event =
    | Asked(pid: Pid, source: string, target: string)
    | Created(pid: Pid, request: Request)
    | Hashed(pid: Pid, slot: Slot, request: Request)
    | Indexed(pid: Pid, slot: Slot, score: int)
    | Read(pid: Pid, slot: Slot, status: Status, request: Request)
    | Missed(pid: Pid, slot: Slot)
    | Passed(pid: Pid, slot: Slot, status: Status, request: Request, at: int)
    | Rejected(pid: Pid, slot: Slot, request: Request, at: int)
    | Admitted(pid: Pid, request: Request, at: int)
    | Lapsed(pid: Pid, request: Request, at: int)
    | Removed(pid: Pid, slot: Slot)
    | Committed(pid: Pid, request: Request)
    | Aborted(pid: Pid, request: Request)

  datatype State = State(db: Db, rows: seq<Friend>, now: int, procs: map<Pid, Proc>, mail: map<Pid, Mail>,
                         log: seq<Event>)

  function Init(c: Config): State {
    State(EMPTY, [], c.start, map[], map[], [])
  }

  datatype Label =
    | Tick(now: int)
    | StartAdd(pid: Pid, source: string, target: string, msg: string)
    | StartCall(pid: Pid, tid: string, rid: string, status: Status)
    | StartList(pid: Pid, tid: string, page: Option<int>)
    | StartTag(pid: Pid, source: string, target: string, tag: string)
    | StartDrop(pid: Pid, source: string, target: string)
    | Run(pid: Pid, digest: Digest)
    | Fail(pid: Pid)
    | HandleRemove(pid: Pid)

  /** What a step changes: the stores, the process that steps, the mail, and what is observed. */
  datatype Effect = Effect(db: Db, rows: seq<Friend>, mail: map<Pid, Mail>, to: Proc, said: seq<Event>)

  function Moved(s: State, to: Proc): Effect {
    Effect(s.db, s.rows, s.mail, to, [])
  }

  function Said(s: State, to: Proc, event: Event): Effect {
    Effect(s.db, s.rows, s.mail, to, [event])
  }

  function RequestSlot(request: Request): Slot {
    Slot(request.recive, request.rid)
  }

  function ActAdd(c: Config, s: State, pid: Pid, digest: Digest): Option<Effect>
    requires pid in s.procs
  {
    match s.procs[pid]
    case AddCheck(source, target, msg) =>
      Some(Moved(s, if HasFriend(s.rows, source, target) then Failed(AlreadyFriends)
                    else AddCreate(source, target, msg)))
    case AddCreate(source, target, msg) =>
      var request := CreateRequest(ADD, source, FRIEND, c.expire, target, msg, true, s.now)
                     .(rid := CreateRid(source, target, c.worker, digest));
      Some(Said(s, AddHset(request), Created(pid, request)))
    case AddHset(request) =>
      var slot := SlotOf(request, c.worker, digest);
      Some(Said(s, AddNx(slot, request.expire + c.expire), Hashed(pid, slot, request))
           .(db := s.db.Hset(slot, Stored(request))))
    case AddNx(slot, bumped) =>
      Some(Moved(s, AddIndex(slot, bumped)).(db := s.db.HsetNx(slot, Bare(bumped))))
    case AddIndex(slot, bumped) =>
      Some(Said(s, Done, Indexed(pid, slot, bumped)).(db := s.db.ZaddIndex(slot, bumped)))
    case _ => None
  }

  function ActCall(c: Config, s: State, pid: Pid): Option<Effect>
    requires pid in s.procs
  {
    match s.procs[pid]
    case CallRead(slot, status) =>
      (match s.db.Hget(slot)
       case Some(Stored(request)) =>
         Some(Said(s, CallCheck(slot, status, request), Read(pid, slot, status, request)))
       case _ => Some(Said(s, Failed(NotFound), Missed(pid, slot))))
    case CallCheck(slot, status, request) =>
      Some(if IsExpired(request, s.now) then Said(s, Failed(TooLate), Rejected(pid, slot, request, s.now))
           else Said(s, CallSend(slot, status, request), Passed(pid, slot, status, request, s.now)))
    case CallSend(slot, status, request) =>
      Some(Moved(s, if HandlerOf(request, status).Some? then AccCheck(request) else Failed(NoHandler)))
    case _ => None
  }

  function ActList(c: Config, s: State, pid: Pid): Option<Effect>
    requires pid in s.procs
  {
    match s.procs[pid]
    case ListKeys(tid, page) => Some(Moved(s, ListGet(tid, ListedKeys(s.db, tid, page, c.size), [])))
    case ListGet(tid, keys, got) =>
      if |got| >= |keys| then None
      else Some(Moved(s, ListGet(tid, keys, got + [s.db.Hget(Slot(tid, keys[|got|].member))])))
    case _ => None
  }

  function ActAccept(c: Config, s: State, pid: Pid): Option<Effect>
    requires pid in s.procs
  {
    match s.procs[pid]
    case AccCheck(request) =>
      Some(if IsExpired(request, s.now) then Said(s, Failed(TooLate), Lapsed(pid, request, s.now))
           else Said(s, AccFirst(request), Admitted(pid, request, s.now)))
    case AccFirst(request) =>
      Some(Moved(s, AccSecond(request, [Friend(request.sender, request.recive, "")])))
    case AccSecond(request, buffer) =>
      Some(Moved(s, AccRemove(request, buffer + [Friend(request.recive, request.sender, "")])))
    case AccRemove(request, buffer) =>
      Some(Moved(s, AccWait(request, buffer)).(mail := s.mail[pid := Pending(RequestSlot(request))]))
    case AccWait(request, buffer) =>
      if pid in s.mail && s.mail[pid].Replied? then Some(Moved(s, AccCommit(request, buffer))) else None
    case AccCommit(request, buffer) =>
      Some(Said(s, Done, Committed(pid, request)).(rows := s.rows + buffer))
    case AccAbort(request) => Some(Said(s, Failed(UnknownError), Aborted(pid, request)))
    case _ => None
  }

  function ActRows(c: Config, s: State, pid: Pid): Option<Effect>
    requires pid in s.procs
  {
    match s.procs[pid]
    case TagCheck(source, target, tag) =>
      Some(Moved(s, if HasFriend(s.rows, source, target) then TagWrite(source, target, tag)
                    else Failed(NotFriends)))
    case TagWrite(source, target, tag) =>
      Some(Moved(s, Done).(rows := SetTag(s.rows, source, target, tag)))
    case DropCheck(source, target) =>
      Some(Moved(s, if HasFriend(s.rows, source, target) then DropLookup(source, target)
                    else Failed(NotFriends)))
    case DropLookup(source, target) =>
      Some(Moved(s, if target in c.ids then DropDelete(source, target, c.ids[target]) else Failed(NoSuchUser)))
    case DropDelete(source, target, id) =>
      Some(Moved(s, Done).(rows := DeleteOne(s.rows, source, id)))
    case _ => None
  }

  /** The key of the next command, if it is one on the request store, holds nothing of another type. */
  predicate Fits(db: Db, p: Proc) {
    match p
    case AddHset(request) => db.HashFree(request.recive)
    case AddNx(slot, _) => db.HashFree(slot.tid)
    case AddIndex(slot, _) => db.IndexFree(slot.tid)
    case CallRead(slot, _) => db.HashFree(slot.tid)
    case ListKeys(tid, _) => db.IndexFree(tid)
    case ListGet(tid, _, _) => db.HashFree(tid)
    case _ => true
  }

  /** The next command of process `pid` succeeds. */
  function Act(c: Config, s: State, pid: Pid, digest: Digest): Option<Effect>
    requires pid in s.procs
  {
    var p := s.procs[pid];
    if p.AddCheck? || p.AddCreate? || p.AddHset? || p.AddNx? || p.AddIndex? then ActAdd(c, s, pid, digest)
    else if p.CallRead? || p.CallCheck? || p.CallSend? then ActCall(c, s, pid)
    else if p.ListKeys? || p.ListGet? then ActList(c, s, pid)
    else if p.TagCheck? || p.TagWrite? || p.DropCheck? || p.DropLookup? || p.DropDelete? then ActRows(c, s, pid)
    else ActAccept(c, s, pid)
  }

  /** The next command of `accept` fails: a save, the removal call or its reply, or the commit. */
  function ActFail(s: State, pid: Pid): Option<Effect>
    requires pid in s.procs
  {
    var p := s.procs[pid];
    if p.AccFirst? || p.AccSecond? || p.AccRemove? || p.AccWait? || p.AccCommit?
    then Some(Moved(s, AccAbort(p.request))) else None
  }

  function Apply(s: State, pid: Pid, e: Effect): State {
    s.(db := e.db, rows := e.rows, mail := e.mail, procs := s.procs[pid := e.to], log := s.log + e.said)
  }

  /** A fresh process of a registered caller. */
  function Start(c: Config, s: State, pid: Pid, caller: string, proc: Proc, said: seq<Event>): Option<State> {
    if pid in s.procs || caller !in c.ids then None
    else Some(Apply(s, pid, Moved(s, proc).(said := said)))
  }

  function Next(c: Config, s: State, l: Label): Option<State> {
    match l
    case Tick(now) => if now < s.now then None else Some(s.(now := now))
    case StartAdd(pid, source, target, msg) =>
      Start(c, s, pid, source, AddCheck(source, target, msg), [Asked(pid, source, target)])
    case StartCall(pid, tid, rid, status) => Start(c, s, pid, tid, CallRead(Slot(tid, rid), status), [])
    case StartList(pid, tid, page) => Start(c, s, pid, tid, ListKeys(tid, page), [])
    case StartTag(pid, source, target, tag) => Start(c, s, pid, source, TagCheck(source, target, tag), [])
    case StartDrop(pid, source, target) => Start(c, s, pid, source, DropCheck(source, target), [])
    case Run(pid, digest) =>
      if pid !in s.procs || !Fits(s.db, s.procs[pid]) then None else
        (match Act(c, s, pid, digest)
         case None => None
         case Some(e) => Some(Apply(s, pid, e)))
    case Fail(pid) =>
      if pid !in s.procs then None else
        (match ActFail(s, pid)
         case None => None
         case Some(e) => Some(Apply(s, pid, e)))
    case HandleRemove(pid) =>
      // removeRequest, executed whether or not the accept that asked for it still waits
      if pid !in s.mail || !s.mail[pid].Pending? || !s.db.HashFree(s.mail[pid].slot.tid) then None else
        var slot := s.mail[pid].slot;
        Some(s.(db := s.db.Hdel(slot), mail := s.mail[pid := Replied], log := s.log + [Removed(pid, slot)]))
  }

  /** A run of labels from a state. */
  function Play(c: Config, s: State, labels: seq<Label>): Option<State>
    decreases |labels|
  {
    if labels == [] then Some(s) else
      match Next(c, s, labels[0])
      case None => None
      case Some(s') => Play(c, s', labels[1..])
  }

  ghost predicate Reachable(c: Config, s: State) {
    exists labels :: Play(c, Init(c), labels) == Some(s)
  }

  lemma {:induction false} PlayThen(c: Config, s: State, first: seq<Label>, last: Label)
    requires Play(c, s, first).Some?
    ensures Play(c, s, first + [last]) == Next(c, Play(c, s, first).value, last)
    decreases |first|
  {
    if first == [] {
      assert (first + [last])[1..] == [];
    } else {
      PlayThen(c, Next(c, s, first[0]).value, first[1..], last);
      assert (first + [last])[1..] == first[1..] + [last];
    }
  }

  lemma InitReachable(c: Config)
    ensures Reachable(c, Init(c))
  {
    assert Play(c, Init(c), []) == Some(Init(c));
  }

  lemma ReachableStep(c: Config, s: State, l: Label)
    requires Reachable(c, s) && Next(c, s, l).Some?
    ensures Reachable(c, Next(c, s, l).value)
  {
    var labels :| Play(c, Init(c), labels) == Some(s);
    PlayThen(c, Init(c), labels, l);
  }
}
