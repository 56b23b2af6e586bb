/** What one step does to the stores, the processes and the log. */
module ProtocolSteps {
  import opened Wrappers
  import opened Requests
  import opened RequestDb
  import opened FriendRows
  import opened Protocol
  import opened ProtocolInvariant

  /** The process a successful step belongs to; anything else counts as idle. */
  function Doing(s: State, l: Label): Proc {
    if l.Run? && l.pid in s.procs then s.procs[l.pid] else Done
  }

  predicate Timed(e: Event) {
    e.Passed? || e.Rejected? || e.Admitted? || e.Lapsed?
  }

  predicate Quiet(e: Event) {
    !e.Hashed? && !e.Read? && !e.Removed? && !e.Committed?
  }

  /** Nothing is said, or one event of no consequence for the stores, stamped with the time if it has one. */
  predicate SaysLittle(s: State, t: State) {
    || t.log == s.log
    || (|t.log| == |s.log| + 1 && var e := t.log[|s.log|];
        t.log == s.log + [e] && Quiet(e) && (Timed(e) ==> e.at == t.now))
  }

  /** Field by field, what a step from s to t under a label changes. */
  ghost predicate Shape(c: Config, s: State, l: Label, t: State) {
    var p := Doing(s, l);
    && s.now <= t.now
    && (forall q | q in s.procs :: q in t.procs && (p == Done || q != l.pid ==> Halted(s.procs[q], t.procs[q])))
    && if l.HandleRemove? then
         && l.pid in s.mail && s.mail[l.pid].Pending?
         && t.db == s.db.Hdel(s.mail[l.pid].slot) && t.rows == s.rows
         && t.log == s.log + [Removed(l.pid, s.mail[l.pid].slot)]
       else match p
         case AddHset(request) =>
           var slot := SlotOf(request, c.worker, l.digest);
           && t.db == s.db.Hset(slot, Stored(request)) && t.rows == s.rows
           && t.log == s.log + [Hashed(l.pid, slot, request)]
           && t.procs[l.pid] == AddNx(slot, request.expire + c.expire)
         case AddNx(slot, bumped) =>
           && t.db == s.db.HsetNx(slot, Bare(bumped)) && t.rows == s.rows && t.log == s.log
           && t.procs[l.pid] == AddIndex(slot, bumped)
         case AddIndex(slot, bumped) =>
           && t.db == s.db.ZaddIndex(slot, bumped) && t.rows == s.rows && SaysLittle(s, t)
         case CallRead(slot, status) =>
           && t.db == s.db && t.rows == s.rows
           && (match s.db.Hget(slot)
               case Some(Stored(request)) => t.log == s.log + [Read(l.pid, slot, status, request)]
               case _ => SaysLittle(s, t))
         case AccCommit(request, buffer) =>
           t.db == s.db && t.rows == s.rows + buffer && t.log == s.log + [Committed(l.pid, request)]
         case TagWrite(source, target, tag) =>
           t.db == s.db && t.rows == SetTag(s.rows, source, target, tag) && t.log == s.log
         case DropDelete(source, target, id) =>
           t.db == s.db && t.rows == DeleteOne(s.rows, source, id) && t.log == s.log
         case _ => t.db == s.db && t.rows == s.rows && SaysLittle(s, t)
  }

  /** A process that does not step is where it was, unless its accept has just failed. */
  predicate Halted(before: Proc, after: Proc) {
    after == before || (after.AccAbort? && !before.AddNx? && !before.AddIndex?)
  }

  lemma AddShape(c: Config, s: State, l: Label)
    requires l.Run? && l.pid in s.procs && ActAdd(c, s, l.pid, l.digest).Some?
    ensures Shape(c, s, l, Apply(s, l.pid, ActAdd(c, s, l.pid, l.digest).value))
  {
  }

  lemma CallShape(c: Config, s: State, l: Label)
    requires l.Run? && l.pid in s.procs && ActCall(c, s, l.pid).Some?
    ensures Shape(c, s, l, Apply(s, l.pid, ActCall(c, s, l.pid).value))
  {
  }

  lemma ListShape(c: Config, s: State, l: Label)
    requires l.Run? && l.pid in s.procs && ActList(c, s, l.pid).Some?
    ensures Shape(c, s, l, Apply(s, l.pid, ActList(c, s, l.pid).value))
  {
  }

  lemma AcceptShape(c: Config, s: State, l: Label)
    requires l.Run? && l.pid in s.procs && ActAccept(c, s, l.pid).Some?
    ensures Shape(c, s, l, Apply(s, l.pid, ActAccept(c, s, l.pid).value))
  {
  }

  lemma RowsShape(c: Config, s: State, l: Label)
    requires l.Run? && l.pid in s.procs && ActRows(c, s, l.pid).Some?
    ensures Shape(c, s, l, Apply(s, l.pid, ActRows(c, s, l.pid).value))
  {
  }

  lemma RunSplits(c: Config, s: State, l: Label)
    requires l.Run? && Next(c, s, l).Some?
    ensures l.pid in s.procs && Act(c, s, l.pid, l.digest).Some?
    ensures Next(c, s, l).value == Apply(s, l.pid, Act(c, s, l.pid, l.digest).value)
    ensures var a := Act(c, s, l.pid, l.digest);
            || a == ActAdd(c, s, l.pid, l.digest) || a == ActCall(c, s, l.pid) || a == ActList(c, s, l.pid)
            || a == ActAccept(c, s, l.pid) || a == ActRows(c, s, l.pid)
  {
    ActSplits(c, s, l.pid, l.digest);
  }

  lemma RunShape(c: Config, s: State, l: Label)
    requires l.Run? && Next(c, s, l).Some?
    ensures Shape(c, s, l, Next(c, s, l).value)
  {
    RunSplits(c, s, l);
    var a := Act(c, s, l.pid, l.digest);
    if a == ActAdd(c, s, l.pid, l.digest) { AddShape(c, s, l); }
    else if a == ActCall(c, s, l.pid) { CallShape(c, s, l); }
    else if a == ActList(c, s, l.pid) { ListShape(c, s, l); }
    else if a == ActAccept(c, s, l.pid) { AcceptShape(c, s, l); }
    else { RowsShape(c, s, l); }
  }

  lemma FailShape(c: Config, s: State, l: Label)
    requires l.Fail? && Next(c, s, l).Some?
    ensures Shape(c, s, l, Next(c, s, l).value)
  {
  }

  lemma RemoveShape(c: Config, s: State, l: Label)
    requires l.HandleRemove? && Next(c, s, l).Some?
    ensures Shape(c, s, l, Next(c, s, l).value)
  {
  }

  lemma StepShape(c: Config, s: State, l: Label)
    requires Next(c, s, l).Some?
    ensures Shape(c, s, l, Next(c, s, l).value)
  {
    if l.Run? { RunShape(c, s, l); }
    else if l.Fail? { FailShape(c, s, l); }
    else if l.HandleRemove? { RemoveShape(c, s, l); }
  }
}
