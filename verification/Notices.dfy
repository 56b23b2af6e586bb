/**
  The notice queue of one user, which each read shortens: a read returns a window of ranks and deletes the same
  window, so the ranks of what remains shift under the reader.
 */
module Notices {
  import opened Wrappers
  import opened SortedSet

  /** Page `page`: both ends of the window count, so a full page holds size + 1 entries. */
  function Page<T>(q: seq<T>, page: int, size: int): seq<T> {
    Zrange(q, (page - 1) * size, page * size)
  }

  /** The queue once the page has been read. */
  function After<T>(q: seq<T>, page: int, size: int): seq<T> {
    ZremRangeByRank(q, (page - 1) * size, page * size)
  }

  // Pieces of a queue

  function Take<T>(q: seq<T>, n: nat): seq<T> {
    if n <= |q| then q[..n] else q
  }

  function Drop<T>(q: seq<T>, n: nat): seq<T> {
    if n <= |q| then q[n..] else []
  }

  lemma DropDrop<T>(q: seq<T>, m: nat, n: nat)
    ensures Drop(Drop(q, m), n) == Drop(q, m + n)
  {
  }

  lemma TakeDrop<T>(q: seq<T>, n: nat)
    ensures Take(q, n) + Drop(q, n) == q
  {
  }

  lemma TakeTake<T>(q: seq<T>, m: nat, n: nat)
    ensures Take(q, m) + Take(Drop(q, m), n) == Take(q, m + n)
  {
  }

  /** k times d, by repeated addition. */
  function Times(k: nat, d: nat): nat {
    if k == 0 then 0 else Times(k - 1, d) + d
  }

  lemma {:induction false} TimesIsProduct(k: nat, d: nat)
    ensures Times(k, d) == k * d
  {
    if k > 0 {
      TimesIsProduct(k - 1, d);
      assert k * d == (k - 1) * d + d;
    }
  }

  lemma WindowPastEnd<T>(q: seq<T>, start: nat, size: nat)
    requires |q| <= start
    ensures Zrange(q, start, start + size) == [] && ZremRangeByRank(q, start, start + size) == q
  {
  }

  lemma WindowInside<T>(head: seq<T>, tail: seq<T>, size: nat)
    requires tail != []
    ensures Zrange(head + tail, |head|, |head| + size) == Take(tail, size + 1)
    ensures ZremRangeByRank(head + tail, |head|, |head| + size) == head + Drop(tail, size + 1)
  {
    var q := head + tail;
    var hi := High(|head| + size, |q|);
    assert q[|head|..hi + 1] == Take(tail, size + 1);
    assert q[..|head|] == head && q[hi + 1..] == Drop(tail, size + 1);
  }

  /** A window that starts at the end of a head takes the next size + 1 entries of the tail and leaves the rest. */
  lemma WindowAtHead<T>(head: seq<T>, tail: seq<T>, start: nat, size: nat)
    requires if tail == [] then |head| <= start else |head| == start
    ensures Zrange(head + tail, start, start + size) == Take(tail, size + 1)
    ensures ZremRangeByRank(head + tail, start, start + size) == head + Drop(tail, size + 1)
  {
    if tail == [] {
      assert head + tail == head && head + Drop(tail, size + 1) == head;
      WindowPastEnd(head, start, size);
    } else {
      WindowInside(head, tail, size);
    }
  }

  lemma PageWindow<T>(q: seq<T>, page: nat, size: nat)
    requires page >= 1
    ensures Page(q, page, size) == Zrange(q, Times(page - 1, size), Times(page - 1, size) + size)
    ensures After(q, page, size) == ZremRangeByRank(q, Times(page - 1, size), Times(page - 1, size) + size)
  {
    TimesIsProduct(page - 1, size);
    TimesIsProduct(page, size);
  }

  lemma WindowOfParts<T>(q: seq<T>, head: seq<T>, tail: seq<T>, start: nat, size: nat)
    requires q == head + tail && if tail == [] then |head| <= start else |head| == start
    ensures Zrange(q, start, start + size) == Take(tail, size + 1)
    ensures ZremRangeByRank(q, start, start + size) == head + Drop(tail, size + 1)
  {
    WindowAtHead(head, tail, start, size);
  }

  lemma PageAtHead<T>(q: seq<T>, head: seq<T>, tail: seq<T>, page: nat, size: nat)
    requires page >= 1 && q == head + tail
    requires if tail == [] then |head| <= Times(page - 1, size) else |head| == Times(page - 1, size)
    ensures Page(q, page, size) == Take(tail, size + 1)
    ensures After(q, page, size) == head + Drop(tail, size + 1)
  {
    PageWindow(q, page, size);
    WindowOfParts(q, head, tail, Times(page - 1, size), size);
  }

  // Reading the pages in order

  /** The queue after pages 1 to k have been read, one after the other. */
  function Rest<T>(q: seq<T>, k: nat, size: int): seq<T> {
    if k == 0 then q else After(Rest(q, k - 1, size), k, size)
  }

  /** What pages 1 to k pass over, and what they have not come to. In each stretch of 2 * size + 1 entries a page takes
      the first size + 1 and passes over the rest. */
  function Parts<T>(q: seq<T>, k: nat, size: nat): (parts: (seq<T>, seq<T>))
    ensures |parts.0| <= Times(k, size) && (parts.1 != [] ==> |parts.0| == Times(k, size))
  {
    if k == 0 then ([], q) else
      var parts := Parts(q, k - 1, size);
      (parts.0 + Take(Drop(parts.1, size + 1), size), Drop(parts.1, 2 * size + 1))
  }

  lemma OneStretch<T>(head: seq<T>, tail: seq<T>, size: nat)
    ensures head + Drop(tail, size + 1) == head + Take(Drop(tail, size + 1), size) + Drop(tail, 2 * size + 1)
  {
  }

  lemma {:induction false} RestIsParts<T>(q: seq<T>, k: nat, size: nat)
    ensures Rest(q, k, size) == Parts(q, k, size).0 + Parts(q, k, size).1
  {
    if k == 0 {
      assert [] + q == q;
    } else {
      RestIsParts(q, k - 1, size);
      var parts := Parts(q, k - 1, size);
      PageAtHead(Rest(q, k - 1, size), parts.0, parts.1, k, size);
      OneStretch(parts.0, parts.1, size);
    }
  }

  lemma {:induction false} TailOfParts<T>(q: seq<T>, k: nat, size: nat)
    ensures Parts(q, k, size).1 == Drop(q, Times(k, 2 * size + 1))
  {
    if k > 0 {
      TailOfParts(q, k - 1, size);
      DropDrop(q, Times(k - 1, 2 * size + 1), 2 * size + 1);
    }
  }

  /** Reading pages in order, page k + 1 returns the size + 1 entries from original rank k (2 size + 1) on, or as many
      as there are. */
  lemma PageInOrder<T>(q: seq<T>, k: nat, size: nat)
    ensures k * (2 * size + 1) >= 0
    ensures Page(Rest(q, k, size), k + 1, size) == Take(Drop(q, k * (2 * size + 1)), size + 1)
  {
    RestIsParts(q, k, size);
    TailOfParts(q, k, size);
    PageAtHead(Rest(q, k, size), Parts(q, k, size).0, Parts(q, k, size).1, k + 1, size);
    TimesIsProduct(k, 2 * size + 1);
  }

  lemma {:induction false} PartsEmptyIff<T>(q: seq<T>, k: nat, size: nat)
    requires k >= 1 && size >= 1
    ensures |q| > size + 1 ==> Parts(q, k, size).0 != []
    ensures |q| <= size + 1 ==> Parts(q, k, size) == ([], [])
  {
    if k > 1 {
      PartsEmptyIff(q, k - 1, size);
    } else {
      assert Parts(q, 0, size) == ([], q);
    }
  }

  /** So paging forward through a queue delivers all of it exactly when it fits on the first page. */
  lemma ForwardPagingCompleteIff<T>(q: seq<T>, k: nat, size: nat)
    requires k >= 1 && size >= 1
    ensures Rest(q, k, size) == [] <==> |q| <= size + 1
  {
    RestIsParts(q, k, size);
    PartsEmptyIff(q, k, size);
  }

  // Reading the first page again and again

  function FirstPages<T>(q: seq<T>, calls: nat, size: int): (r: (seq<T>, seq<T>)) {
    if calls == 0 then ([], q) else
      var (read, rest) := FirstPages(q, calls - 1, size);
      (read + Page(rest, 1, size), After(rest, 1, size))
  }

  lemma {:induction false} FirstPagesShape<T>(q: seq<T>, calls: nat, size: nat)
    ensures FirstPages(q, calls, size) == (Take(q, Times(calls, size + 1)), Drop(q, Times(calls, size + 1)))
  {
    if calls > 0 {
      FirstPagesShape(q, calls - 1, size);
      var from := Times(calls - 1, size + 1);
      var rest := Drop(q, from);
      FirstPage(rest, size);
      DropDrop(q, from, size + 1);
      TakeTake(q, from, size + 1);
    }
  }

  lemma FirstPage<T>(q: seq<T>, size: nat)
    ensures Page(q, 1, size) == Take(q, size + 1) && After(q, 1, size) == Drop(q, size + 1)
  {
  }

  /** Reading page 1 over and over returns the queue in its order, and empties it after exactly
      ceil(n / (size + 1)) calls. */
  lemma DrainInOrder<T>(q: seq<T>, calls: nat, size: nat)
    ensures var (read, rest) := FirstPages(q, calls, size);
            && read + rest == q
            && (rest == [] <==> calls >= (|q| + size) / (size + 1))
  {
    FirstPagesShape(q, calls, size);
    TakeDrop(q, Times(calls, size + 1));
    TimesIsProduct(calls, size + 1);
    CeilIff(|q|, size + 1, calls);
  }

  lemma CeilIff(n: nat, d: nat, calls: nat)
    requires d >= 1
    ensures calls * d >= n <==> calls >= (n + d - 1) / d
  {
    var up := (n + d - 1) / d;
    assert d * up + (n + d - 1) % d == n + d - 1;
    if calls >= up {
      Monotone(up, calls, d);
    } else {
      Monotone(calls, up - 1, d);
      assert up * d == (up - 1) * d + d;
    }
  }

  lemma Monotone(a: nat, b: nat, d: nat)
    requires a <= b
    ensures a * d <= b * d
  {
  }

  // Conservation

  /** `zadd` without a score is not a command Redis accepts: `landing` is None when it is refused. Should it be
      accepted, `landing` is the rank where a new member lands; a present member is not added again. */
  predicate Accepts<T(==)>(q: seq<T>, notice: T, landing: Option<nat>) {
    landing.Some? && notice !in q
  }

  function Put<T(==)>(q: seq<T>, notice: T, landing: Option<nat>): seq<T> {
    if !Accepts(q, notice, landing) then q
    else if landing.value > |q| then q + [notice]
    else q[..landing.value] + [notice] + q[landing.value..]
  }

  lemma PutAdds<T>(q: seq<T>, notice: T, landing: Option<nat>)
    ensures multiset(Put(q, notice, landing))
         == multiset(q) + if Accepts(q, notice, landing) then multiset{notice} else multiset{}
  {
    if Accepts(q, notice, landing) && landing.value <= |q| {
      assert q == q[..landing.value] + q[landing.value..];
    }
  }

  /** A notice that is accepted lands at its rank, at the end if that is too far, and those queued keep their order. */
  lemma PutKeepsOrder<T>(q: seq<T>, notice: T, rank: nat)
    requires notice !in q
    ensures var after, r := Put(q, notice, Some(rank)), if rank <= |q| then rank else |q|;
            && |after| == |q| + 1 && after[r] == notice
            && (forall i | 0 <= i < r :: after[i] == q[i])
            && forall i | r <= i < |q| :: after[i + 1] == q[i]
  {
  }

  datatype Op<T> = SetNotice(notice: T, landing: Option<nat>) | GetNotice(page: int)

  /** The queue, the notices accepted into it, and the notices handed out. */
  datatype Outcome<T> = Outcome(queue: seq<T>, accepted: multiset<T>, delivered: multiset<T>)

  ghost function Serve<T>(q: seq<T>, ops: seq<Op<T>>, size: int): Outcome<T>
    decreases |ops|
  {
    if ops == [] then Outcome(q, multiset{}, multiset{}) else
      match ops[0]
      case SetNotice(notice, landing) =>
        var r := Serve(Put(q, notice, landing), ops[1..], size);
        r.(accepted := r.accepted + if Accepts(q, notice, landing) then multiset{notice} else multiset{})
      case GetNotice(page) =>
        var r := Serve(After(q, page, size), ops[1..], size);
        r.(delivered := r.delivered + multiset(Page(q, page, size)))
  }

  function Count<T(==)>(q: seq<T>, notice: T): nat {
    multiset(q)[notice]
  }

  lemma PutCount<T>(q: seq<T>, n: T, landing: Option<nat>, notice: T)
    ensures Count(Put(q, n, landing), notice)
         == Count(q, notice) + if Accepts(q, n, landing) && n == notice then 1 else 0
  {
    PutAdds(q, n, landing);
  }

  lemma GetCount<T>(q: seq<T>, page: int, size: int, notice: T)
    ensures Count(Page(q, page, size), notice) + Count(After(q, page, size), notice) == Count(q, notice)
  {
    WindowSplits(q, (page - 1) * size, page * size);
    assert multiset(q)[notice] == (multiset(Page(q, page, size)) + multiset(After(q, page, size)))[notice];
  }

  lemma {:induction false} ConservationOf<T>(q: seq<T>, ops: seq<Op<T>>, size: int, notice: T)
    ensures var r := Serve(q, ops, size);
            Count(q, notice) + r.accepted[notice] == r.delivered[notice] + Count(r.queue, notice)
    decreases |ops|
  {
    if ops != [] {
      if ops[0].SetNotice? {
        PutCount(q, ops[0].notice, ops[0].landing, notice);
        ConservationOf(Put(q, ops[0].notice, ops[0].landing), ops[1..], size, notice);
      } else {
        GetCount(q, ops[0].page, size, notice);
        ConservationOf(After(q, ops[0].page, size), ops[1..], size, notice);
      }
    }
  }

  /** Over every serial run, whatever pages are read: what was there and what was accepted is what was handed out and
      what remains, each notice as often. */
  lemma Conservation<T(!new)>(q: seq<T>, ops: seq<Op<T>>, size: int)
    ensures var r := Serve(q, ops, size);
            multiset(q) + r.accepted == r.delivered + multiset(r.queue)
  {
    var r := Serve(q, ops, size);
    forall x ensures (multiset(q) + r.accepted)[x] == (r.delivered + multiset(r.queue))[x] {
      ConservationOf(q, ops, size, x);
    }
  }

  /** No notice is sent twice. */
  ghost predicate SentOnce<T(!new)>(ops: seq<Op<T>>) {
    forall i, j | 0 <= i < j < |ops| && ops[i].SetNotice? && ops[j].SetNotice? :: ops[i].notice != ops[j].notice
  }

  lemma {:induction false} AcceptedWasSent<T(!new)>(q: seq<T>, ops: seq<Op<T>>, size: int, notice: T)
    requires SentOnce(ops)
    ensures Serve(q, ops, size).accepted[notice] <= 1
    ensures notice in Serve(q, ops, size).accepted ==>
              exists i :: 0 <= i < |ops| && ops[i].SetNotice? && ops[i].notice == notice
    decreases |ops|
  {
    if ops != [] {
      var next := if ops[0].SetNotice? then Put(q, ops[0].notice, ops[0].landing) else After(q, ops[0].page, size);
      AcceptedWasSent(next, ops[1..], size, notice);
      if notice in Serve(next, ops[1..], size).accepted {
        var i :| 0 <= i < |ops[1..]| && ops[1..][i].SetNotice? && ops[1..][i].notice == notice;
        assert ops[i + 1] == ops[1..][i];
      }
    }
  }

  /** From an empty queue, a notice sent once is handed out at most once, and if not handed out it is still there. */
  lemma DeliveredAtMostOnce<T(!new)>(ops: seq<Op<T>>, size: int, notice: T)
    requires SentOnce(ops)
    ensures var r := Serve([], ops, size);
            && r.delivered[notice] <= 1
            && (notice in r.accepted ==> (notice in r.delivered <==> notice !in r.queue))
  {
    ConservationOf([], ops, size, notice);
    AcceptedWasSent([], ops, size, notice);
  }

  // Between the read and the delete

  /** Deleting a window takes the entry of a rank away exactly when the rank is inside. */
  lemma DeletedIff<T>(z: seq<T>, start: int, stop: int, rank: nat)
    requires rank < |z| && forall i | 0 <= i < |z| && i != rank :: z[i] != z[rank]
    ensures z[rank] !in ZremRangeByRank(z, start, stop) <==> Low(start, |z|) <= rank <= High(stop, |z|)
  {
    var rest, lo, hi := ZremRangeByRank(z, start, stop), Low(start, |z|), High(stop, |z|);
    if !EmptyWindow(start, stop, |z|) {
      if rank < lo {
        assert rest[rank] == z[rank];
      } else if rank > hi {
        assert rest[rank - (hi + 1 - lo)] == z[rank];
      }
    }
  }

  /** Reading and deleting are two commands. A notice that arrives in between at rank r is deleted unread exactly when
      r is inside the window as it then is; for pages from 1 on that is the window of the page itself. */
  lemma ArrivalLostIff<T>(q: seq<T>, notice: T, rank: nat, page: int, size: int)
    requires notice !in q && rank <= |q|
    ensures notice !in Page(q, page, size)
    ensures notice !in After(Put(q, notice, Some(rank)), page, size)
       <==> Low((page - 1) * size, |q| + 1) <= rank <= High(page * size, |q| + 1)
    ensures page >= 1 && size >= 0 ==>
              (notice !in After(Put(q, notice, Some(rank)), page, size) <==> (page - 1) * size <= rank <= page * size)
  {
    var longer := Put(q, notice, Some(rank));
    assert longer[rank] == notice;
    forall i | 0 <= i < |longer| && i != rank ensures longer[i] != notice {
      assert longer[i] in q;
    }
    DeletedIff(longer, (page - 1) * size, page * size, rank);
    if page >= 1 && size >= 0 { PageEnds(page, size); }
  }

  lemma PageEnds(page: int, size: nat)
    ensures page * size == (page - 1) * size + size
    ensures page >= 1 ==> 0 <= (page - 1) * size
    ensures page <= 0 ==> page * size <= 0
  {
  }

  /** The window at a start, and what deleting it leaves. */
  lemma WindowFrom<T>(q: seq<T>, start: nat, size: nat)
    ensures Zrange(q, start, start + size) == Take(Drop(q, start), size + 1)
    ensures ZremRangeByRank(q, start, start + size) == Take(q, start) + Drop(Drop(q, start), size + 1)
  {
    TakeDrop(q, start);
    WindowAtHead(Take(q, start), Drop(q, start), start, size);
  }

  lemma WindowLengths<T>(z: seq<T>, start: int, stop: int)
    ensures Zrange(z, start, stop) == [] <==> EmptyWindow(start, stop, |z|)
    ensures |ZremRangeByRank(z, start, stop)| ==
            if EmptyWindow(start, stop, |z|) then |z| else |z| - (High(stop, |z|) + 1 - Low(start, |z|))
  {
  }

  /** When a window that was deleted holds nothing again, by where it starts. */
  lemma FrontEmptiedIff<T>(q: seq<T>, start: nat, size: nat)
    ensures Zrange(ZremRangeByRank(q, start, start + size), start, start + size) == [] <==> |q| <= start + size + 1
  {
    WindowLengths(q, start, start + size);
    WindowLengths(ZremRangeByRank(q, start, start + size), start, start + size);
  }

  lemma MiddleEmptiedIff<T>(q: seq<T>, start: int)
    requires start < 0
    ensures Zrange(ZremRangeByRank(q, start, 0), start, 0) == [] <==> |q| <= 1 || |q| > -start
  {
    WindowLengths(q, start, 0);
    WindowLengths(ZremRangeByRank(q, start, 0), start, 0);
  }

  lemma BackEmptiedIff<T>(q: seq<T>, start: int, stop: int)
    requires start <= stop < 0
    ensures Zrange(ZremRangeByRank(q, start, stop), start, stop) == [] <==> |q| <= -start
  {
    WindowLengths(q, start, stop);
    WindowLengths(ZremRangeByRank(q, start, stop), start, stop);
  }

  lemma SecondWindow<T>(q: seq<T>, page: int, size: nat)
    requires page >= 1
    ensures page * size >= 0
    ensures Page(After(q, page, size), page, size) == Take(Drop(q, page * size + 1), size + 1)
  {
    PageEnds(page, size);
    var start := (page - 1) * size;
    WindowFrom(q, start, size);
    WindowAtHead(Take(q, start), Drop(Drop(q, start), size + 1), start, size);
    DropDrop(q, start, size + 1);
  }

  lemma NoSize(page: int, size: nat)
    requires size == 0
    ensures page * size == (page - 1) * size == 0
  {
  }

  lemma BelowZero(page: int, size: nat)
    requires page < 0 && size >= 1
    ensures (page - 1) * size <= page * size < 0 && (1 - page) * size == -((page - 1) * size)
  {
    PageEnds(page, size);
    PageEnds(page + 1, size);
  }

  /** When the second of two overlapping reads of a page finds nothing left to delete. */
  lemma NothingLostIff<T>(q: seq<T>, page: int, size: nat)
    ensures Page(After(q, page, size), page, size) == [] <==>
              if page >= 1 || size == 0 then |q| <= page * size + 1
              else if page == 0 then |q| <= 1 || |q| > size
              else |q| <= (1 - page) * size
  {
    if size == 0 {
      NoSize(page, size);
      FrontEmptiedIff(q, 0, 0);
    } else if page >= 1 {
      PageEnds(page, size);
      FrontEmptiedIff(q, (page - 1) * size, size);
    } else if page == 0 {
      assert (page - 1) * size == 0 - size && page * size == 0;
      MiddleEmptiedIff(q, 0 - size);
    } else {
      BelowZero(page, size);
      BackEmptiedIff(q, (page - 1) * size, page * size);
    }
  }

  /** Two reads of one page that overlap both return the page and both delete a window: the second deletes unread what
      the window then holds. For pages from 1 on that is the size + 1 notices after the page, and nothing is lost
      exactly when the page reaches the end of the queue. Pages below 1 count from the end. */
  lemma OverlapLosesIff<T>(q: seq<T>, page: int, size: nat)
    ensures var once := After(q, page, size);
            var lost := Page(once, page, size);
            && multiset(q) == multiset(Page(q, page, size)) + multiset(lost) + multiset(After(once, page, size))
            && (page >= 1 ==> page * size >= 0 && lost == Take(Drop(q, page * size + 1), size + 1))
            && (lost == [] <==>
                  if page >= 1 || size == 0 then |q| <= page * size + 1
                  else if page == 0 then |q| <= 1 || |q| > size
                  else |q| <= (1 - page) * size)
  {
    WindowSplits(q, (page - 1) * size, page * size);
    WindowSplits(After(q, page, size), (page - 1) * size, page * size);
    NothingLostIff(q, page, size);
    if page >= 1 { SecondWindow(q, page, size); }
  }
}
