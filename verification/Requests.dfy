/** Requests, their expiry, and the request id with its decoding. */
module Requests {
  import opened Wrappers

  datatype Module = FRIEND | GROUP

  datatype Action = ADD | INVITE | JOIN

  datatype Status = Accept | Refuse

  datatype Request = Request(action: Action, sender: string, mod: Module, expire: int, recive: string,
                             msg: string, rid: string)

  /** An MD5 digest in hexadecimal: which one is left open. */
  type Digest = s: string | |s| == 32 witness "00000000000000000000000000000000"

  const HASH_LENGTH := 16

  /** The request without an id; `now` is the clock that is read unless the caller gives an absolute expiry. */
  function CreateRequest(action: Action, sender: string, mod: Module, expire: int, recive: string,
                         msg: string, autoFormatExpire: bool, now: int): Request {
    Request(action, sender, mod, if autoFormatExpire then now + expire else expire, recive, msg, "")
  }

  predicate IsExpired(request: Request, time: int) {
    request.expire < time
  }

  /** A request is valid for its expiry from when it is made, or up to the expiry if that is given as a time; the very
      last moment counts as in time. */
  lemma ExpiresAfter(action: Action, sender: string, mod: Module, expire: int, recive: string, msg: string, now: int,
                     time: int)
    ensures IsExpired(CreateRequest(action, sender, mod, expire, recive, msg, true, now), time) <==> now + expire < time
    ensures IsExpired(CreateRequest(action, sender, mod, expire, recive, msg, false, now), time) <==> expire < time
  {
  }

  // Request ids

  function CreateRid(sender: string, recive: string, worker: string, digest: Digest): string {
    sender + "-" + recive + "-" + worker + "-" + digest[..HASH_LENGTH]
  }

  /** The field a request is stored under: its own id, or a fresh one when it has none. */
  function FieldOf(request: Request, worker: string, digest: Digest): (rid: string)
    ensures rid != ""
  {
    if request.rid != "" then request.rid else CreateRid(request.sender, request.recive, worker, digest)
  }

  /** Where an id carries what: the ends and the worker id between dashes, then the first 16 characters of the
      digest. */
  lemma RidLayout(sender: string, recive: string, worker: string, digest: Digest)
    ensures var rid, m, n, k := CreateRid(sender, recive, worker, digest), |sender|, |recive|, |worker|;
            && |rid| == m + n + k + 19
            && rid[..m] == sender && rid[m] == '-'
            && rid[m + 1..m + 1 + n] == recive && rid[m + 1 + n] == '-'
            && rid[m + n + 2..m + n + 2 + k] == worker && rid[m + n + k + 2] == '-'
            && rid[m + n + k + 3..] == digest[..16]
  {
    var rid := CreateRid(sender, recive, worker, digest);
    var tail := "-" + digest[..HASH_LENGTH];
    assert rid == sender + ("-" + recive + "-" + worker + tail);
    assert rid == sender + "-" + recive + ("-" + worker + tail);
    assert rid == (sender + "-" + recive + "-") + worker + tail;
    assert rid == (sender + "-" + recive + "-" + worker + "-") + digest[..HASH_LENGTH];
  }

  lemma RidNotEmpty(sender: string, recive: string, worker: string, digest: Digest)
    ensures CreateRid(sender, recive, worker, digest) != ""
  {
    assert '-' in CreateRid(sender, recive, worker, digest);
  }

  predicate DashFree(s: string) {
    '-' !in s
  }

  /** The rank of the first dash, or the length when there is none. */
  function FirstDash(s: string): (i: nat)
    ensures i <= |s| && DashFree(s[..i]) && (i < |s| ==> s[i] == '-')
  {
    if s == [] || s[0] == '-' then 0 else
      var i := 1 + FirstDash(s[1..]);
      assert s[..i] == [s[0]] + s[1..][..i - 1];
      i
  }

  lemma {:induction false} FirstDashAfter(head: string, tail: string)
    requires DashFree(head)
    ensures FirstDash(head + "-" + tail) == |head|
  {
    var s := head + "-" + tail;
    if head != [] {
      assert s[0] == head[0] && head[0] in head;
      assert s[1..] == head[1..] + "-" + tail;
      FirstDashAfter(head[1..], tail);
    }
  }

  datatype RidParts = RidParts(sender: string, recive: string, worker: string, hash: string)

  /** Reads an id back: sender and receiver end at the first two dashes, the hash is the last 16 characters. */
  function DecodeRid(rid: string): Option<RidParts> {
    var i := FirstDash(rid);
    if i == |rid| then None else
      var rest := rid[i + 1..];
      var j := FirstDash(rest);
      if j == |rest| then None else
        var tail := rest[j + 1..];
        var k := |tail| - HASH_LENGTH - 1;
        if k < 0 || tail[k] != '-' then None
        else Some(RidParts(rid[..i], rest[..j], tail[..k], tail[k + 1..]))
  }

  /** For dash-free user ids the request id determines all four parts, whatever the worker id. */
  lemma RidDecodes(sender: string, recive: string, worker: string, digest: Digest)
    requires DashFree(sender) && DashFree(recive)
    ensures DecodeRid(CreateRid(sender, recive, worker, digest))
         == Some(RidParts(sender, recive, worker, digest[..16]))
  {
    var rid := CreateRid(sender, recive, worker, digest);
    var tail := worker + "-" + digest[..HASH_LENGTH];
    var rest := recive + "-" + tail;
    assert rid == sender + "-" + rest;
    FirstDashAfter(sender, rest);
    assert rid[..|sender|] == sender && rid[|sender| + 1..] == rest;
    FirstDashAfter(recive, tail);
    assert rest[..|recive|] == recive && rest[|recive| + 1..] == tail;
    assert tail[..|worker|] == worker && tail[|worker| + 1..] == digest[..HASH_LENGTH];
  }

  /** Hence two requests share an id exactly when they agree on sender, receiver, worker and hash. */
  lemma RidInjective(s1: string, r1: string, w1: string, d1: Digest, s2: string, r2: string, w2: string, d2: Digest)
    requires DashFree(s1) && DashFree(r1) && DashFree(s2) && DashFree(r2)
    ensures CreateRid(s1, r1, w1, d1) == CreateRid(s2, r2, w2, d2)
       <==> s1 == s2 && r1 == r2 && w1 == w2 && d1[..16] == d2[..16]
  {
    RidDecodes(s1, r1, w1, d1);
    RidDecodes(s2, r2, w2, d2);
  }

  /** With a dash in a user id the parts are lost: two different pairs get the same id. */
  lemma DashesCollide(a: string, b: string, c: string, worker: string, digest: Digest)
    ensures CreateRid(a + "-" + b, c, worker, digest) == CreateRid(a, b + "-" + c, worker, digest)
    ensures (a + "-" + b, c) != (a, b + "-" + c)
  {
    assert a + "-" + b + "-" + c == a + "-" + (b + "-" + c);
    assert |a + "-" + b| > |a|;
  }

  lemma EqualEnds(a: string, b: string, x: string, y: string)
    requires |x| == |y|
    ensures a + x == b + y <==> a == b && x == y
  {
    if a + x == b + y {
      assert |a| == |b|;
      assert a == (a + x)[..|a|] && b == (b + y)[..|b|];
      assert x == (a + x)[|a|..] && y == (b + y)[|b|..];
    }
  }

  /** What exactly collides when all requests carry one worker id: `sender-recive` is all that is left of the ends. */
  lemma OneWorkerIds(s1: string, r1: string, s2: string, r2: string, worker: string, d1: Digest, d2: Digest)
    ensures CreateRid(s1, r1, worker, d1) == CreateRid(s2, r2, worker, d2)
       <==> s1 + "-" + r1 == s2 + "-" + r2 && d1[..16] == d2[..16]
  {
    var x, y := "-" + worker + "-" + d1[..HASH_LENGTH], "-" + worker + "-" + d2[..HASH_LENGTH];
    assert CreateRid(s1, r1, worker, d1) == (s1 + "-" + r1) + x;
    assert CreateRid(s2, r2, worker, d2) == (s2 + "-" + r2) + y;
    EqualEnds(s1 + "-" + r1, s2 + "-" + r2, x, y);
    EqualEnds("-" + worker + "-", "-" + worker + "-", d1[..HASH_LENGTH], d2[..HASH_LENGTH]);
  }

  /** In the hash of one receiver ids tell senders apart, dashes or not. */
  lemma OneReceiverIds(s1: string, s2: string, recive: string, worker: string, d1: Digest, d2: Digest)
    ensures CreateRid(s1, recive, worker, d1) == CreateRid(s2, recive, worker, d2)
       <==> s1 == s2 && d1[..16] == d2[..16]
  {
    OneWorkerIds(s1, recive, s2, recive, worker, d1, d2);
    assert s1 + "-" + recive == s1 + ("-" + recive) && s2 + "-" + recive == s2 + ("-" + recive);
    EqualEnds(s1, s2, "-" + recive, "-" + recive);
  }

  // Dispatch

  /** The remote procedures a called request can reach: `friend.add.accept` is the only routing key with a handler. */
  datatype Handler = FriendAddAccept

  function HandlerOf(request: Request, status: Status): Option<Handler> {
    if request.mod == FRIEND && request.action == ADD && status == Accept then Some(FriendAddAccept) else None
  }
}
