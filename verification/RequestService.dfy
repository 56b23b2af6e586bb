/** The request service: its hash and index, updated in place by one command at a time. */
module RequestService {
  import opened Wrappers
  import opened SortedSet
  import opened Requests
  import opened RequestDb

  class RequestService {
    const expire: int
    const size: int
    const worker: string
    var hash: map<Slot, Field>
    var index: map<string, ZSet>

    function State(): Db
      reads this
    {
      Db(hash, index)
    }

    ghost predicate Valid()
      reads this
    {
      Consistent(State(), expire)
    }

    constructor (expire: int, size: int, worker: string)
      ensures Valid() && State() == EMPTY
      ensures this.expire == expire && this.size == size && this.worker == worker
    {
      this.expire, this.size, this.worker := expire, size, worker;
      hash, index := map[], map[];
    }

    method AddRequest(request: Request, digest: Digest) returns (rid: string)
      requires Valid()
      modifies this
      ensures Valid()
      ensures State() == Added(old(State()), request, expire, worker, digest)
      ensures rid == if request.rid != "" then request.rid
                     else CreateRid(request.sender, request.recive, worker, digest)
    {
      var tid, serialised := request.recive, Stored(request);
      rid := FieldOf(request, worker, digest);
      var bumped := request.(expire := request.expire + expire);
      var slot := Slot(tid, rid);
      AddedShape(State(), request, expire, worker, digest);
      AddedConsistent(State(), request, expire, worker, digest);
      hash := hash[slot := serialised];
      hash := State().HsetNx(slot, Bare(bumped.expire)).hash;
      index := index[tid := Zadd(State().Index(tid), bumped.expire, rid)];
    }

    method RemoveRequest(tid: string, rid: string) returns (done: bool)
      requires Valid()
      modifies `hash
      ensures Valid() && done
      ensures State() == old(State()).Hdel(Slot(tid, rid))
      ensures Slot(tid, rid) !in hash
      ensures forall slot | slot != Slot(tid, rid) :: State().Hget(slot) == old(State().Hget(slot))
    {
      RemovedConsistent(State(), Slot(tid, rid), expire);
      hash := hash - {Slot(tid, rid)};
      done := true;
    }

    /** The listing; in a consistent store its requests come in the order of their expiry, whatever the page. */
    method GetAllRequest(tid: string, page: Option<int>) returns (requests: seq<Option<Field>>)
      ensures requests == Listing(State(), tid, page, size)
      ensures Valid() ==> forall i, j | 0 <= i < j < |requests| && IsRequest(requests[i]) && IsRequest(requests[j]) ::
                requests[i].value.request.expire <= requests[j].value.request.expire
    {
      if Valid() { ConsistentAscends(State(), expire, tid, page, size); }
      var keys := if page.None? || page.value == 0 then Zrange(State().Index(tid), 0, MAX_SAFE_INTEGER)
                  else Zrange(State().Index(tid), page.value - 1 * size, page.value * size);
      requests := [];
      for i := 0 to |keys|
        invariant |requests| == i
        invariant forall j | 0 <= j < i :: requests[j] == State().Hget(Slot(tid, keys[j].member))
      {
        requests := requests + [State().Hget(Slot(tid, keys[i].member))];
      }
    }

    method Call(tid: string, rid: string, status: Status, now: int)
      returns (r: Result<Option<Handler>, CallError>, payload: Option<Request>)
      ensures match State().Hget(Slot(tid, rid))
              case Some(Stored(request)) =>
                if request.expire < now then r == Err(RequestExpired) && payload == None
                else && payload == Some(request)
                     && r == Ok(if request.mod == FRIEND && request.action == ADD && status == Accept
                                then Some(FriendAddAccept) else None)
              case _ => r == Err(NotFindRequest) && payload == None
      ensures payload == match Called(State(), Slot(tid, rid), now)
                         case Ok(request) => Some(request)
                         case Err(_) => None
    {
      var field := State().Hget(Slot(tid, rid));
      if field.None? || field.value.Bare? {
        return Err(NotFindRequest), None;
      }
      var request := field.value.request;
      if IsExpired(request, now) {
        return Err(RequestExpired), None;
      }
      return Ok(HandlerOf(request, status)), Some(request);
    }
  }
}
