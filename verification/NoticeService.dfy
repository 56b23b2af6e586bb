/** The notice service: one destructive queue per user. */
module NoticeService {
  import opened Wrappers
  import opened SortedSet
  import opened Notices

  datatype SenderType = FRIEND | GROUP | SYSTEM

  datatype Notice = Notice(nid: string, sender: string, senderType: SenderType, meta: string)

  class NoticeService {
    const size: int
    var queues: map<string, seq<Notice>>

    function Queue(tid: string): seq<Notice>
      reads this
    {
      if tid in queues then queues[tid] else []
    }

    constructor (size: int)
      ensures this.size == size && queues == map[]
    {
      this.size := size;
      queues := map[];
    }

    /** What is returned is gone; together with what remains it is what was there. */
    method GetNotice(tid: string, page: int) returns (notices: seq<Notice>)
      modifies this
      ensures notices == Page(old(Queue(tid)), page, size)
      ensures Queue(tid) == After(old(Queue(tid)), page, size)
      ensures multiset(notices) + multiset(Queue(tid)) == multiset(old(Queue(tid)))
      ensures forall other | other != tid :: Queue(other) == old(Queue(other))
    {
      var start, end := (page - 1) * size, page * size;
      WindowSplits(Queue(tid), start, end);
      notices := Zrange(Queue(tid), start, end);
      queues := queues[tid := ZremRangeByRank(Queue(tid), start, end)];
    }

    /** `landing` is what Redis makes of a `zadd` without a score: None when it is refused, and the caller gets an
        error, otherwise the rank where a new member lands. */
    method SetNotice(tid: string, notice: Notice, landing: Option<nat>) returns (added: Option<int>)
      modifies this
      ensures Queue(tid) == Put(old(Queue(tid)), notice, landing)
      ensures added.None? <==> landing.None?
      ensures added.None? ==> Queue(tid) == old(Queue(tid))
      ensures added == Some(1) ==> exists r :: 0 <= r < |Queue(tid)| && Queue(tid)[r] == notice
                                               && old(Queue(tid)) == Queue(tid)[..r] + Queue(tid)[r + 1..]
      ensures added.Some? ==> added.value == (if notice in old(Queue(tid)) then 0 else 1)
                              && |Queue(tid)| == |old(Queue(tid))| + added.value
      ensures forall other | other != tid :: Queue(other) == old(Queue(other))
    {
      if landing.None? {
        return None;
      }
      added := Some(if notice in Queue(tid) then 0 else 1);
      ghost var q := Queue(tid);
      queues := queues[tid := Put(Queue(tid), notice, landing)];
      if added == Some(1) {
        PutKeepsOrder(q, notice, landing.value);
        ghost var r := if landing.value <= |q| then landing.value else |q|;
        assert q == Queue(tid)[..r] + Queue(tid)[r + 1..];
      }
    }
  }
}
