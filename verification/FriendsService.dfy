/** The friends service run serially, against the request service it calls. */
module FriendsService {
  import opened Wrappers
  import opened Requests
  import opened RequestDb
  import opened FriendRows
  import RS = RequestService

  datatype FriendError = AlreadyFriends | NotFriends | Expired | Unknown

  /** Where `accept` fails, if anywhere; a failed removal call may or may not have reached the request service. */
  datatype Fault = NoFault | FirstSave | SecondSave | RemoveUnsent | RemoveReplyLost | Commit

  /** What deleting the row with the document id does to the friendship with the target, and to symmetry. */
  lemma DeletedFriend(rows: seq<Friend>, source: string, target: string, id: string)
    requires Symmetric(Pairs(rows)) && HasFriend(rows, source, target)
    ensures var after := DeleteOne(rows, source, id);
            && Pairs(after) == Pairs(rows) - multiset{(source, id)}
            && (Pairs(after)[(source, target)] < Pairs(rows)[(source, target)] <==> id == target)
            && (Symmetric(Pairs(after)) <==> source == id || !HasFriend(rows, source, id))
  {
    DeleteOnePairs(rows, source, id);
    DeleteKeepsSymmetryIff(rows, source, id);
  }

  class FriendsService {
    const expire: int
    const requests: RS.RequestService
    /** The document id of each registered user. */
    const ids: map<string, string>
    var rows: seq<Friend>

    ghost predicate Valid()
      reads this, requests
    {
      requests.Valid() && requests.expire == expire && Symmetric(Pairs(rows))
    }

    constructor (requests: RS.RequestService, ids: map<string, string>)
      requires requests.Valid()
      ensures Valid() && this.requests == requests && this.ids == ids && rows == []
    {
      this.expire, this.requests, this.ids := requests.expire, requests, ids;
      rows := [];
    }

    /** `digest` hashes the request before it has an id; the id it yields is part of what is stored. */
    method Add(source: string, target: string, msg: string, now: int, digest: Digest)
      returns (r: Result<Request, FriendError>)
      requires Valid()
      modifies requests
      ensures Valid() && rows == old(rows)
      ensures HasFriend(rows, source, target) ==>
                r == Err(AlreadyFriends) && requests.State() == old(requests.State())
      ensures !HasFriend(rows, source, target) ==>
                && r == Ok(Request(ADD, source, FRIEND, now + expire, target, msg,
                                   CreateRid(source, target, requests.worker, digest)))
                && requests.State() == Added(old(requests.State()), r.value, expire, requests.worker, digest)
    {
      if HasFriend(rows, source, target) {
        return Err(AlreadyFriends);
      }
      var request := CreateRequest(ADD, source, FRIEND, expire, target, msg, true, now);
      request := request.(rid := CreateRid(request.sender, request.recive, requests.worker, digest));
      var _ := requests.AddRequest(request, digest);
      return Ok(request);
    }

    /** All or nothing for the rows; the request goes once the removal has been executed, even if the accept fails
        later. */
    method Accept(dto: Request, now: int, fault: Fault) returns (r: Result<bool, FriendError>)
      requires Valid()
      modifies `rows, requests
      ensures Valid()
      ensures r.Ok? <==> fault == NoFault && now <= dto.expire
      ensures r.Ok? ==> rows == old(rows) + [Friend(dto.sender, dto.recive, ""), Friend(dto.recive, dto.sender, "")]
      ensures r.Err? ==> rows == old(rows) && r.error == if dto.expire < now then Expired else Unknown
      ensures requests.State() ==
              if now <= dto.expire && fault in {NoFault, RemoveReplyLost, Commit}
              then old(requests.State()).Hdel(Slot(dto.recive, dto.rid)) else old(requests.State())
    {
      if IsExpired(dto, now) {
        return Err(Expired);
      }
      var buffer := [];
      if fault == FirstSave { return Err(Unknown); }
      buffer := buffer + [Friend(dto.sender, dto.recive, "")];
      if fault == SecondSave { return Err(Unknown); }
      buffer := buffer + [Friend(dto.recive, dto.sender, "")];
      if fault == RemoveUnsent { return Err(Unknown); }
      var _ := requests.RemoveRequest(dto.recive, dto.rid);
      if fault == RemoveReplyLost || fault == Commit { return Err(Unknown); }
      assert buffer == BothRows(dto.sender, dto.recive);
      BothRowsPairs(rows, dto.sender, dto.recive);
      rows := rows + buffer;
      return Ok(true);
    }

    method UpdateTag(source: string, target: string, tag: string) returns (r: Result<bool, FriendError>)
      requires Valid()
      modifies `rows
      ensures Valid()
      ensures r == if old(HasFriend(rows, source, target)) then Ok(true) else Err(NotFriends)
      ensures r.Err? ==> rows == old(rows)
      ensures r.Ok? ==> rows == SetTag(old(rows), source, target, tag) && Pairs(rows) == Pairs(old(rows))
    {
      SetTagPairs(rows, source, target, tag);
      if !HasFriend(rows, source, target) {
        return Err(NotFriends);
      }
      rows := SetTag(rows, source, target, tag);
      return Ok(true);
    }

    /** The row deleted is (source, document id of the target), so a friendship goes only if that id is the target
        itself; the relation stays symmetric exactly when that row is absent or a loop. An unknown target is an
        error. */
    method Remove(source: string, target: string) returns (r: Result<bool, FriendError>)
      requires Valid()
      modifies `rows
      ensures r == if !old(HasFriend(rows, source, target)) then Err(NotFriends)
                   else if target !in ids then Err(Unknown) else Ok(true)
      ensures r.Err? ==> rows == old(rows)
      ensures r.Ok? ==> rows == DeleteOne(old(rows), source, ids[target])
      ensures r.Ok? ==> Pairs(rows) == Pairs(old(rows)) - multiset{(source, ids[target])}
      ensures r.Ok? ==> (Pairs(rows)[(source, target)] < Pairs(old(rows))[(source, target)] <==> ids[target] == target)
      ensures r.Ok? ==> (Valid() <==> source == ids[target] || !old(HasFriend(rows, source, ids[target])))
    {
      if !HasFriend(rows, source, target) {
        return Err(NotFriends);
      }
      if target !in ids {
        return Err(Unknown);
      }
      DeletedFriend(rows, source, target, ids[target]);
      rows := DeleteOne(rows, source, ids[target]);
      return Ok(true);
    }

    /** A whole exchange: b accepts what a asked for. If nothing fails and the request is still valid when b
        answers, both become friends, and the request cannot be called again. */
    method Exchange(a: string, b: string, msg: string, sent: int, answered: int, digest: Digest)
      returns (accepted: bool)
      requires Valid() && !HasFriend(rows, a, b)
      modifies this, requests
      ensures Valid()
      ensures accepted <==> answered <= sent + expire
      ensures accepted ==> && Pairs(rows) == Pairs(old(rows)) + BothPairs(a, b)
                           && HasFriend(rows, a, b) && HasFriend(rows, b, a)
      ensures !accepted ==> rows == old(rows)
      ensures forall now :: accepted ==>
                Called(requests.State(), Slot(b, CreateRid(a, b, requests.worker, digest)), now) == Err(NotFindRequest)
    {
      var asked := Add(a, b, msg, sent, digest);
      var rid := asked.value.rid;
      assert rid != "";
      var call, payload := requests.Call(b, rid, Status.Accept, answered);
      if call.Err? {
        return false;
      }
      assert payload == Some(asked.value) && call.value == Some(FriendAddAccept);
      BothRowsPairs(rows, a, b);
      var r := Accept(payload.value, answered, NoFault);
      return r.Ok?;
    }
  }
}
