/**
  The two Redis structures behind the request service: one hash of requests and one sorted set of
  request ids per user. Each command is one function on the whole store.
 */
module RequestDb {
  import opened Wrappers
  import opened SortedSet
  import opened Requests

  /** What a hash field holds: a serialised request, or the bare number that `hsetnx` may leave. */
  datatype Field = Stored(request: Request) | Bare(number: int)

  /** Field `rid` of the hash of user `tid`. */
  datatype Slot = Slot(tid: string, rid: string)

  datatype Db = Db(hash: map<Slot, Field>, index: map<string, ZSet>) {

    function Hget(slot: Slot): Option<Field> {
      if slot in hash then Some(hash[slot]) else None
    }

    function Hset(slot: Slot, field: Field): Db {
      this.(hash := hash[slot := field])
    }

    function HsetNx(slot: Slot, field: Field): Db {
      if slot in hash then this else Hset(slot, field)
    }

    function Hdel(slot: Slot): Db {
      this.(hash := hash - {slot})
    }

    function Index(tid: string): ZSet {
      if tid in index then index[tid] else []
    }

    function ZaddIndex(slot: Slot, score: int): Db {
      this.(index := index[slot.tid := Zadd(Index(slot.tid), score, slot.rid)])
    }

    function Score(slot: Slot): Option<int> {
      ScoreOf(Index(slot.tid), slot.rid)
    }

    /** No index has the key of the hash of `tid`. */
    predicate HashFree(tid: string) {
      forall u | u in index && index[u] != [] :: tid != SPLIT + u
    }

    /** No hash has the key of the index of `tid`. */
    predicate IndexFree(tid: string) {
      forall slot | slot in hash :: slot.tid != SPLIT + tid
    }

    predicate KeysFree(tid: string) {
      HashFree(tid) && IndexFree(tid)
    }
  }

  const EMPTY := Db(map[], map[])

  /** The index of `tid` is kept under the key of the hash of this followed by `tid`. */
  const SPLIT := "split:"

  lemma HsetKeysFree(db: Db, slot: Slot, field: Field)
    ensures db.KeysFree(slot.tid) ==> db.Hset(slot, field).KeysFree(slot.tid)
  {
    assert slot.tid != SPLIT + slot.tid;
  }

  lemma ZaddKeysFree(db: Db, slot: Slot, score: int)
    ensures db.KeysFree(slot.tid) ==> db.ZaddIndex(slot, score).KeysFree(slot.tid)
  {
    assert slot.tid != SPLIT + slot.tid;
  }

  lemma ZaddIndexScore(db: Db, slot: Slot, score: int, other: Slot)
    ensures db.ZaddIndex(slot, score).Score(other) == if other == slot then Some(score) else db.Score(other)
  {
    ZaddScore(db.Index(slot.tid), score, slot.rid, other.rid);
  }

  lemma HdelKeysFree(db: Db, slot: Slot, tid: string)
    ensures db.KeysFree(tid) ==> db.Hdel(slot).KeysFree(tid)
  {
  }

  // The service's operations, run without interruption

  /** Where a request goes. */
  function SlotOf(request: Request, worker: string, digest: Digest): Slot {
    Slot(request.recive, FieldOf(request, worker, digest))
  }

  /** `addRequest`: the request is serialised with the expiry it came with; the bumped expiry is the score. */
  function Added(db: Db, request: Request, expire: int, worker: string, digest: Digest): Db {
    var slot := SlotOf(request, worker, digest);
    var bumped := request.expire + expire;
    db.Hset(slot, Stored(request)).HsetNx(slot, Bare(bumped)).ZaddIndex(slot, bumped)
  }

  datatype CallError = NotFindRequest | RequestExpired

  /** `call`: what is dispatched, if anything. A missing field and a bare number both count as not found. */
  function Called(db: Db, slot: Slot, now: int): Result<Request, CallError> {
    match db.Hget(slot)
    case Some(Stored(request)) => if IsExpired(request, now) then Err(RequestExpired) else Ok(request)
    case _ => Err(NotFindRequest)
  }

  datatype Op = Add(request: Request, digest: Digest) | Remove(slot: Slot)

  function Serve(db: Db, ops: seq<Op>, expire: int, worker: string): Db
    decreases |ops|
  {
    if ops == [] then db else
      match ops[0]
      case Add(request, digest) => Serve(Added(db, request, expire, worker, digest), ops[1..], expire, worker)
      case Remove(slot) => Serve(db.Hdel(slot), ops[1..], expire, worker)
  }

  /** A field holds a request of the right user under the right id, indexed at its stored expiry plus `expire`. */
  ghost predicate SlotOk(db: Db, slot: Slot, expire: int)
    requires slot in db.hash
  {
    && db.hash[slot].Stored?
    && db.hash[slot].request.recive == slot.tid
    && (db.hash[slot].request.rid != "" ==> db.hash[slot].request.rid == slot.rid)
    && db.Score(slot) == Some(db.hash[slot].request.expire + expire)
  }

  ghost predicate Consistent(db: Db, expire: int) {
    && (forall tid | tid in db.index :: Valid(db.index[tid]))
    && (forall slot | slot in db.hash :: SlotOk(db, slot, expire))
  }

  lemma AddedShape(db: Db, request: Request, expire: int, worker: string, digest: Digest)
    ensures var slot := SlotOf(request, worker, digest);
            var bumped := request.expire + expire;
            Added(db, request, expire, worker, digest)
            == Db(db.hash[slot := Stored(request)],
                  db.index[slot.tid := Zadd(db.Index(slot.tid), bumped, slot.rid)])
    ensures forall other :: Added(db, request, expire, worker, digest).Score(other) ==
              if other == SlotOf(request, worker, digest) then Some(request.expire + expire) else db.Score(other)
  {
    var slot := SlotOf(request, worker, digest);
    var bumped := request.expire + expire;
    var mid := db.Hset(slot, Stored(request));
    forall other ensures mid.ZaddIndex(slot, bumped).Score(other) ==
                         if other == slot then Some(bumped) else db.Score(other) {
      ZaddIndexScore(mid, slot, bumped, other);
    }
  }

  lemma AddedConsistent(db: Db, request: Request, expire: int, worker: string, digest: Digest)
    requires Consistent(db, expire)
    ensures Consistent(Added(db, request, expire, worker, digest), expire)
  {
    var after := Added(db, request, expire, worker, digest);
    var slot := SlotOf(request, worker, digest);
    AddedShape(db, request, expire, worker, digest);
    ZaddValid(db.Index(slot.tid), request.expire + expire, slot.rid);
    forall other | other in after.hash ensures SlotOk(after, other, expire) {
      if other != slot { assert SlotOk(db, other, expire); }
    }
  }

  lemma RemovedConsistent(db: Db, slot: Slot, expire: int)
    requires Consistent(db, expire)
    ensures Consistent(db.Hdel(slot), expire)
  {
  }

  /** Over every serial run no field is left bare and every score is its request's stored expiry plus `expire`. */
  lemma {:induction false} ServeConsistent(db: Db, ops: seq<Op>, expire: int, worker: string)
    requires Consistent(db, expire)
    ensures Consistent(Serve(db, ops, expire, worker), expire)
    decreases |ops|
  {
    if ops != [] {
      match ops[0]
      case Add(request, digest) =>
        AddedConsistent(db, request, expire, worker, digest);
        ServeConsistent(Added(db, request, expire, worker, digest), ops[1..], expire, worker);
      case Remove(slot) =>
        RemovedConsistent(db, slot, expire);
        ServeConsistent(db.Hdel(slot), ops[1..], expire, worker);
    }
  }

  /** In any store a call on an added, unexpired request dispatches that very request, and
      deleting the slot that `accept` names takes it away exactly when the request carried an id. */
  lemma AddCallRemove(db: Db, request: Request, expire: int, worker: string, digest: Digest, now: int)
    ensures var slot := SlotOf(request, worker, digest);
            var after := Added(db, request, expire, worker, digest);
            && Called(after, slot, now) == (if request.expire < now then Err(RequestExpired) else Ok(request))
            && var removed := after.Hdel(Slot(request.recive, request.rid));
               (Called(removed, slot, now) == Err(NotFindRequest) <==> request.rid != "")
  {
  }

  // What a serial run leaves in the hash, told from its operations alone

  /** The operation writes or removes the field. */
  predicate Touches(op: Op, slot: Slot, worker: string) {
    match op
    case Add(request, digest) => slot == SlotOf(request, worker, digest)
    case Remove(other) => slot == other
  }

  /** The k-th operation stores the request in the field, and none after it touches the field. */
  ghost predicate LeftBy(ops: seq<Op>, k: int, slot: Slot, request: Request, worker: string) {
    && 0 <= k < |ops| && ops[k].Add? && ops[k].request == request && Touches(ops[k], slot, worker)
    && forall j | k < j < |ops| :: !Touches(ops[j], slot, worker)
  }

  lemma LeftByLater(ops: seq<Op>, k: int, slot: Slot, request: Request, worker: string)
    requires ops != [] && k >= 1
    ensures LeftBy(ops, k, slot, request, worker) <==> LeftBy(ops[1..], k - 1, slot, request, worker)
  {
    if LeftBy(ops[1..], k - 1, slot, request, worker) {
      forall j | k < j < |ops| ensures !Touches(ops[j], slot, worker) {
        assert ops[j] == ops[1..][j - 1];
      }
    }
  }

  lemma UntouchedTail(ops: seq<Op>, slot: Slot, worker: string)
    requires ops != []
    ensures (forall op | op in ops :: !Touches(op, slot, worker))
       <==> !Touches(ops[0], slot, worker) && forall op | op in ops[1..] :: !Touches(op, slot, worker)
  {
    assert ops == [ops[0]] + ops[1..];
  }

  /** One operation changes the field it touches and no other. */
  lemma ServedField(db: Db, op: Op, expire: int, worker: string, slot: Slot)
    ensures Serve(db, [op], expire, worker).Hget(slot) ==
            if !Touches(op, slot, worker) then db.Hget(slot)
            else if op.Add? then Some(Stored(op.request)) else None
  {
    assert [op][1..] == [];
  }

  lemma ServeFirst(db: Db, ops: seq<Op>, expire: int, worker: string)
    requires ops != []
    ensures Serve(db, ops, expire, worker) == Serve(Serve(db, [ops[0]], expire, worker), ops[1..], expire, worker)
  {
    assert [ops[0]][1..] == [];
  }

  /** After a serial run a field holds a request exactly if the last operation on it was an `addRequest` of that
      request, or it held it before and no operation touched it. */
  lemma {:induction false} ServeFollowsOps(db: Db, ops: seq<Op>, expire: int, worker: string, slot: Slot,
                                           request: Request)
    ensures Serve(db, ops, expire, worker).Hget(slot) == Some(Stored(request)) <==>
            || (exists k :: LeftBy(ops, k, slot, request, worker))
            || (db.Hget(slot) == Some(Stored(request)) && forall op | op in ops :: !Touches(op, slot, worker))
    decreases |ops|
  {
    if ops != [] {
      var next, rest := Serve(db, [ops[0]], expire, worker), ops[1..];
      ServeFirst(db, ops, expire, worker);
      ServedField(db, ops[0], expire, worker, slot);
      ServeFollowsOps(next, rest, expire, worker, slot, request);
      UntouchedTail(ops, slot, worker);
      forall k | k >= 1 ensures LeftBy(ops, k, slot, request, worker) <==> LeftBy(rest, k - 1, slot, request, worker) {
        LeftByLater(ops, k, slot, request, worker);
      }
      FirstLeaves(ops, slot, request, worker);
      if k :| LeftBy(rest, k, slot, request, worker) {
        assert LeftBy(ops, k + 1, slot, request, worker);
      }
    }
  }

  lemma FirstLeaves(ops: seq<Op>, slot: Slot, request: Request, worker: string)
    requires ops != []
    ensures LeftBy(ops, 0, slot, request, worker) <==>
            && ops[0].Add? && ops[0].request == request && Touches(ops[0], slot, worker)
            && forall op | op in ops[1..] :: !Touches(op, slot, worker)
  {
    if LeftBy(ops, 0, slot, request, worker) {
      forall op | op in ops[1..] ensures !Touches(op, slot, worker) {
        var j :| 0 <= j < |ops[1..]| && ops[1..][j] == op;
        assert ops[j + 1] == op;
      }
    } else if forall op | op in ops[1..] :: !Touches(op, slot, worker) {
      forall j | 0 < j < |ops| ensures !Touches(ops[j], slot, worker) {
        assert ops[j] == ops[1..][j - 1];
      }
    }
  }

  // Listing

  const MAX_SAFE_INTEGER := 0x1F_FFFF_FFFF_FFFF

  /** The index members that `getAllRequest` reads; no page, or page 0, means all of them. */
  function ListedKeys(db: Db, tid: string, page: Option<int>, size: int): ZSet {
    match page
    case Some(p) => if p == 0 then Zrange(db.Index(tid), 0, MAX_SAFE_INTEGER)
                    else Zrange(db.Index(tid), p - 1 * size, p * size)
    case None => Zrange(db.Index(tid), 0, MAX_SAFE_INTEGER)
  }

  /** `getAllRequest`: the field of each index member, null where the field is gone. */
  function Listing(db: Db, tid: string, page: Option<int>, size: int): (fields: seq<Option<Field>>) {
    var keys := ListedKeys(db, tid, page, size);
    seq(|keys|, i requires 0 <= i < |keys| => db.Hget(Slot(tid, keys[i].member)))
  }

  /** Without a page, or with page 0, the listing covers the whole index exactly when that has no more than 2^53
      members. */
  lemma UnpagedIsWhole(db: Db, tid: string, size: int)
    ensures ListedKeys(db, tid, None, size) == db.Index(tid) <==> |db.Index(tid)| <= 9007199254740992
    ensures ListedKeys(db, tid, Some(0), size) == ListedKeys(db, tid, None, size)
  {
  }

  ghost predicate ShowsAt(db: Db, tid: string, rid: string, i: int) {
    0 <= i < |db.Index(tid)| && db.Index(tid)[i].member == rid
  }

  /** Wherever a request of the user is stored and scored, the score is its stored expiry plus `expire`. */
  ghost predicate ScoresShifted(db: Db, tid: string, expire: int) {
    forall rid | Slot(tid, rid) in db.hash && db.hash[Slot(tid, rid)].Stored? && db.Score(Slot(tid, rid)).Some? ::
      db.Score(Slot(tid, rid)).value == db.hash[Slot(tid, rid)].request.expire + expire
  }

  /** The unpaged listing has one entry per index member: what the hash holds under it, or null. Every field with a
      score is shown at exactly one place, and requests come in the order of (stored expiry, id), although the index
      is ordered by the shifted expiry. */
  ghost predicate FaithfulListing(db: Db, tid: string, fields: seq<Option<Field>>) {
    var z := db.Index(tid);
    && |fields| == |z|
    && (forall i | 0 <= i < |fields| :: fields[i] == db.Hget(Slot(tid, z[i].member)))
    && (forall rid | Slot(tid, rid) in db.hash && db.Score(Slot(tid, rid)).Some? ::
          exists i :: ShowsAt(db, tid, rid, i))
    && (forall rid, i, j | ShowsAt(db, tid, rid, i) && ShowsAt(db, tid, rid, j) :: i == j)
    && Ascending(z, fields)
  }

  /** The requests among the fields come by stored expiry, and among equal ones by id. */
  ghost predicate Ascending(keys: ZSet, fields: seq<Option<Field>>)
    requires |keys| == |fields|
  {
    forall i, j | 0 <= i < j < |fields| && IsRequest(fields[i]) && IsRequest(fields[j]) ::
      && fields[i].value.request.expire <= fields[j].value.request.expire
      && (fields[i].value.request.expire == fields[j].value.request.expire ==>
            LexLess(keys[i].member, keys[j].member))
  }

  predicate IsRequest(field: Option<Field>) {
    field.Some? && field.value.Stored?
  }

  /** Every listing, whatever the page, has one entry per key it lists, what the hash holds under it or null; no key
      comes twice; and the requests ascend. */
  lemma PageFaithful(db: Db, tid: string, expire: int, page: Option<int>, size: int)
    requires Valid(db.Index(tid)) && ScoresShifted(db, tid, expire)
    ensures var keys, fields := ListedKeys(db, tid, page, size), Listing(db, tid, page, size);
            && |fields| == |keys| && DistinctMembers(keys) && (forall e | e in keys :: e in db.Index(tid))
            && (forall i | 0 <= i < |fields| :: fields[i] == db.Hget(Slot(tid, keys[i].member)))
            && Ascending(keys, fields)
  {
    var z, keys, fields := db.Index(tid), ListedKeys(db, tid, page, size), Listing(db, tid, page, size);
    KeysValid(db, tid, page, size);
    forall i | 0 <= i < |fields| && IsRequest(fields[i])
      ensures keys[i].score == fields[i].value.request.expire + expire {
      assert keys[i] in z;
      var k :| 0 <= k < |z| && z[k] == keys[i];
      ScoreAt(z, k);
      assert Slot(tid, keys[i].member) in db.hash;
    }
    forall i, j | 0 <= i < j < |fields| && IsRequest(fields[i]) && IsRequest(fields[j])
      ensures && fields[i].value.request.expire <= fields[j].value.request.expire
              && (fields[i].value.request.expire == fields[j].value.request.expire ==>
                    LexLess(keys[i].member, keys[j].member)) {
      Ascends(keys, i, j);
    }
  }

  lemma KeysValid(db: Db, tid: string, page: Option<int>, size: int)
    requires Valid(db.Index(tid))
    ensures Valid(ListedKeys(db, tid, page, size))
    ensures forall e | e in ListedKeys(db, tid, page, size) :: e in db.Index(tid)
  {
    match page
    case Some(p) =>
      WindowValid(db.Index(tid), 0, MAX_SAFE_INTEGER);
      WindowValid(db.Index(tid), p - 1 * size, p * size);
    case None => WindowValid(db.Index(tid), 0, MAX_SAFE_INTEGER);
  }

  lemma ListingFaithful(db: Db, tid: string, expire: int, size: int)
    requires Valid(db.Index(tid)) && ScoresShifted(db, tid, expire) && |db.Index(tid)| <= MAX_SAFE_INTEGER + 1
    ensures FaithfulListing(db, tid, Listing(db, tid, None, size))
  {
    UnpagedIsWhole(db, tid, size);
    var z, fields := db.Index(tid), Listing(db, tid, None, size);
    forall rid | Slot(tid, rid) in db.hash && db.Score(Slot(tid, rid)).Some?
      ensures exists i :: ShowsAt(db, tid, rid, i) {
      ScoreFound(z, rid);
      var i :| 0 <= i < |z| && z[i].member == rid;
      assert ShowsAt(db, tid, rid, i);
    }
    PageFaithful(db, tid, expire, None, size);
  }

  lemma ConsistentAscends(db: Db, expire: int, tid: string, page: Option<int>, size: int)
    requires Consistent(db, expire)
    ensures Ascending(ListedKeys(db, tid, page, size), Listing(db, tid, page, size))
  {
    assert forall rid | Slot(tid, rid) in db.hash :: SlotOk(db, Slot(tid, rid), expire);
    PageFaithful(db, tid, expire, page, size);
  }

  /** In a consistent store the unpaged listing is faithful, and all it shows besides nulls are the user's requests,
      every one of them. */
  lemma ConsistentListing(db: Db, expire: int, tid: string, size: int)
    requires Consistent(db, expire) && |db.Index(tid)| <= MAX_SAFE_INTEGER + 1
    ensures var fields := Listing(db, tid, None, size);
            && FaithfulListing(db, tid, fields)
            && (forall i | 0 <= i < |fields| && fields[i].Some? :: fields[i].value.Stored?)
            && (forall rid | Slot(tid, rid) in db.hash :: Some(db.hash[Slot(tid, rid)]) in fields)
  {
    assert forall rid | Slot(tid, rid) in db.hash :: SlotOk(db, Slot(tid, rid), expire);
    ListingFaithful(db, tid, expire, size);
    var fields := Listing(db, tid, None, size);
    forall rid | Slot(tid, rid) in db.hash ensures Some(db.hash[Slot(tid, rid)]) in fields {
      assert SlotOk(db, Slot(tid, rid), expire);
      var i :| ShowsAt(db, tid, rid, i);
      assert fields[i] == Some(db.hash[Slot(tid, rid)]);
    }
  }

  /** So it is after any serial run from an empty store. */
  lemma SerialListing(ops: seq<Op>, expire: int, worker: string, tid: string, size: int)
    requires |Serve(EMPTY, ops, expire, worker).Index(tid)| <= MAX_SAFE_INTEGER + 1
    ensures var db := Serve(EMPTY, ops, expire, worker);
            var fields := Listing(db, tid, None, size);
            && FaithfulListing(db, tid, fields)
            && (forall i | 0 <= i < |fields| && fields[i].Some? :: fields[i].value.Stored?)
            && (forall rid | Slot(tid, rid) in db.hash :: Some(db.hash[Slot(tid, rid)]) in fields)
  {
    ServeConsistent(EMPTY, ops, expire, worker);
    ConsistentListing(Serve(EMPTY, ops, expire, worker), expire, tid, size);
  }

  // Pages

  /** The ranks on page `page` of an index of length n, as the window is written. */
  predicate OnPage(rank: nat, page: int, size: int, n: nat) {
    (if page < size then n + page - size else page - size) <= rank <= page * size
  }

  lemma Scale(a: int, b: int)
    requires a >= 1 && b >= 1
    ensures a * b >= a && a * b >= b
  {
  }

  /** Page `page` lists exactly the ranks of `OnPage`, in order. */
  lemma PageRanks(db: Db, tid: string, page: int, size: int, rank: nat)
    requires page >= 1 && size >= 1 && DistinctMembers(db.Index(tid)) && rank < |db.Index(tid)|
    ensures db.Index(tid)[rank] in ListedKeys(db, tid, Some(page), size)
       <==> OnPage(rank, page, size, |db.Index(tid)|)
  {
    var z := db.Index(tid);
    forall i, j | 0 <= i < j < |z| ensures z[i] != z[j] {
      assert z[i].member != z[j].member;
    }
    Scale(page, size);
    WindowRanks(z, page - 1 * size, page * size, rank);
  }

  /** A page below `size` counts its start from the end of the index, so it is empty once the index is
      long: page 1 lists nothing as soon as there are twice `size` requests. */
  lemma PageEmptyIff(db: Db, tid: string, page: int, size: int)
    requires page >= 1 && size >= 1
    ensures var n := |db.Index(tid)|;
            && (ListedKeys(db, tid, Some(page), size) == [] <==>
                  n == 0 || (if page < size then n > page * size + size - page else n <= page - size))
            && (page == 1 < size && n > 0 ==>
                  (ListedKeys(db, tid, Some(page), size) == [] <==> n >= 2 * size))
  {
    Scale(page, size);
  }

  /** Whether pages p and p + 1 of an index of length n share a rank. */
  predicate Overlapping(page: int, size: int, n: nat) {
    n > 0 &&
    if page >= size then n > page + 1 - size
    else if page + 1 == size then n <= page * size + 1
    else n <= page * size + size - page - 1
  }

  ghost predicate SharedRank(rank: nat, page: int, size: int, n: nat) {
    rank < n && OnPage(rank, page, size, n) && OnPage(rank, page + 1, size, n)
  }

  /** The first rank that both pages can have. */
  lemma RanksOverlapIff(page: int, size: int, n: nat)
    requires page >= 1 && size >= 1
    ensures (exists rank: nat :: SharedRank(rank, page, size, n)) <==> Overlapping(page, size, n)
  {
    Scale(page, size);
    assert (page + 1) * size == page * size + size;
    if Overlapping(page, size, n) {
      var start := if page >= size then page + 1 - size
                   else if page + 1 == size then n - 1
                   else n + page + 1 - size;
      var rank: nat := if start < 0 then 0 else start;
      assert SharedRank(rank, page, size, n);
    }
  }

  lemma SharedRankListed(db: Db, tid: string, page: int, size: int, rank: nat)
    requires page >= 1 && size >= 1 && DistinctMembers(db.Index(tid)) && rank < |db.Index(tid)|
    ensures SharedRank(rank, page, size, |db.Index(tid)|)
       <==> && db.Index(tid)[rank] in ListedKeys(db, tid, Some(page), size)
            && db.Index(tid)[rank] in ListedKeys(db, tid, Some(page + 1), size)
  {
    PageRanks(db, tid, page, size, rank);
    PageRanks(db, tid, page + 1, size, rank);
  }

  /** Both pages list an entry exactly if they share its rank. */
  lemma SharedEntryIff(db: Db, tid: string, page: int, size: int)
    requires page >= 1 && size >= 1 && DistinctMembers(db.Index(tid))
    ensures (exists e :: e in ListedKeys(db, tid, Some(page), size) && e in ListedKeys(db, tid, Some(page + 1), size))
       <==> exists rank: nat :: SharedRank(rank, page, size, |db.Index(tid)|)
  {
    var z := db.Index(tid);
    var p, q := ListedKeys(db, tid, Some(page), size), ListedKeys(db, tid, Some(page + 1), size);
    if rank: nat :| SharedRank(rank, page, size, |z|) {
      SharedRankListed(db, tid, page, size, rank);
      assert z[rank] in p && z[rank] in q;
    } else if e :| e in p && e in q {
      ListedInIndex(db, tid, page, size, e);
      var rank: nat :| rank < |z| && z[rank] == e;
      SharedRankListed(db, tid, page, size, rank);
    }
  }

  lemma ListedInIndex(db: Db, tid: string, page: int, size: int, e: Entry)
    requires e in ListedKeys(db, tid, Some(page), size)
    ensures e in db.Index(tid)
  {
  }

  /** A page does not start after the page before it: pages p and p + 1 list an entry in common exactly under
      `Overlapping`. From page `size` on, every page that is not empty overlaps the one before it. */
  lemma PagesOverlapIff(db: Db, tid: string, page: int, size: int)
    requires page >= 1 && size >= 1 && DistinctMembers(db.Index(tid))
    ensures var p, q := ListedKeys(db, tid, Some(page), size), ListedKeys(db, tid, Some(page + 1), size);
            && ((exists e :: e in p && e in q) <==> Overlapping(page, size, |db.Index(tid)|))
            && (page >= size ==> (q != [] <==> Overlapping(page, size, |db.Index(tid)|)))
  {
    SharedEntryIff(db, tid, page, size);
    RanksOverlapIff(page, size, |db.Index(tid)|);
    PageEmptyIff(db, tid, page + 1, size);
  }

  /** Windows overlap and some are empty, yet every rank is on some page: page `rank + size` starts at it. */
  lemma EveryRankHasPage(rank: nat, size: int, n: nat) returns (page: int)
    requires size >= 1 && rank < n
    ensures page >= 1 && OnPage(rank, page, size, n)
  {
    page := rank + size;
    Scale(page, size);
  }

  /** No indexed field of a user is out of reach of paging. */
  lemma EveryRequestOnSomePage(db: Db, tid: string, rid: string, size: int) returns (page: int)
    requires Valid(db.Index(tid)) && db.Score(Slot(tid, rid)).Some? && size >= 1 && Slot(tid, rid) in db.hash
    ensures page >= 1 && Some(db.hash[Slot(tid, rid)]) in Listing(db, tid, Some(page), size)
  {
    var z := db.Index(tid);
    ScoreFound(z, rid);
    var i :| 0 <= i < |z| && z[i].member == rid;
    page := EveryRankHasPage(i, size, |z|);
    PageRanks(db, tid, page, size, i);
    var keys := ListedKeys(db, tid, Some(page), size);
    var j :| 0 <= j < |keys| && keys[j] == z[i];
    assert Listing(db, tid, Some(page), size)[j] == Some(db.hash[Slot(tid, rid)]);
  }
}
