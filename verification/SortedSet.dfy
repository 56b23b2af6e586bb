/**
  Redis sorted sets: a sequence of (score, member) entries, ordered by score and, among equal
  scores, by member; and the rank windows of ZRANGE and ZREMRANGEBYRANK.
 */
module SortedSet {
  import opened Wrappers

  datatype Entry = Entry(score: int, member: string)

  type ZSet = seq<Entry>

  // The order of members

  predicate LexLess(a: string, b: string) {
    b != [] && (a == [] || a[0] < b[0] || (a[0] == b[0] && LexLess(a[1..], b[1..])))
  }

  lemma {:induction false} LexTotal(a: string, b: string)
    ensures a == b || LexLess(a, b) || LexLess(b, a)
  {
    if a != [] && b != [] && a[0] == b[0] {
      LexTotal(a[1..], b[1..]);
      assert a == [a[0]] + a[1..] && b == [b[0]] + b[1..];
    }
  }

  lemma {:induction false} LexTransitive(a: string, b: string, c: string)
    requires LexLess(a, b) && LexLess(b, c)
    ensures LexLess(a, c)
  {
    if a != [] && a[0] == b[0] && b[0] == c[0] {
      LexTransitive(a[1..], b[1..], c[1..]);
    }
  }

  /** What the order of members is: a proper prefix comes first, else the first character that differs decides. */
  lemma {:induction false} LexMeans(a: string, b: string)
    ensures LexLess(a, b) <==> a < b || exists k | 0 <= k < |a| && k < |b| :: a[..k] == b[..k] && a[k] < b[k]
  {
    if a == [] || b == [] || a[0] != b[0] {
      LexAtFirst(a, b);
    } else {
      var x, y := a[1..], b[1..];
      LexMeans(x, y);
      assert a == [a[0]] + x && b == [b[0]] + y;
      if k :| 0 <= k < |x| && k < |y| && x[..k] == y[..k] && x[k] < y[k] {
        assert a[..k + 1] == [a[0]] + x[..k] && b[..k + 1] == [b[0]] + y[..k];
        assert a[k + 1] < b[k + 1];
      }
      if k :| 0 <= k < |a| && k < |b| && a[..k] == b[..k] && a[k] < b[k] {
        assert x[..k - 1] == a[..k][1..] && y[..k - 1] == b[..k][1..];
        assert x[k - 1] < y[k - 1];
      }
    }
  }

  lemma LexAtFirst(a: string, b: string)
    requires a == [] || b == [] || a[0] != b[0]
    ensures LexLess(a, b) <==> a < b || exists k | 0 <= k < |a| && k < |b| :: a[..k] == b[..k] && a[k] < b[k]
  {
    if a != [] && b != [] {
      assert a[..0] == b[..0];
      forall k | 0 < k < |a| && k < |b| ensures a[..k] != b[..k] {
        assert a[..k][0] != b[..k][0];
      }
    }
  }

  predicate Before(x: Entry, y: Entry) {
    x.score < y.score || (x.score == y.score && LexLess(x.member, y.member))
  }

  lemma BeforeTransitive(x: Entry, y: Entry, z: Entry)
    requires Before(x, y) && Before(y, z)
    ensures Before(x, z)
  {
    if x.score == y.score == z.score {
      LexTransitive(x.member, y.member, z.member);
    }
  }

  ghost predicate Sorted(z: ZSet) {
    forall i, j | 0 <= i < j < |z| :: Before(z[i], z[j])
  }

  ghost predicate DistinctMembers(z: ZSet) {
    forall i, j | 0 <= i < j < |z| :: z[i].member != z[j].member
  }

  ghost predicate Valid(z: ZSet) {
    Sorted(z) && DistinctMembers(z)
  }

  /** A valid set ascends: by score, and among equal scores by member. */
  lemma Ascends(z: ZSet, i: nat, j: nat)
    requires Valid(z) && i < j < |z|
    ensures z[i].score <= z[j].score
    ensures z[i].score == z[j].score ==> LexLess(z[i].member, z[j].member)
  {
    assert Before(z[i], z[j]);
  }

  // Scores and insertion

  function ScoreOf(z: ZSet, member: string): Option<int> {
    if z == [] then None
    else if z[0].member == member then Some(z[0].score)
    else ScoreOf(z[1..], member)
  }

  lemma {:induction false} ScoreFound(z: ZSet, member: string)
    ensures ScoreOf(z, member).Some? ==> Entry(ScoreOf(z, member).value, member) in z
    ensures ScoreOf(z, member).None? ==> forall e | e in z :: e.member != member
  {
    if z != [] {
      ScoreFound(z[1..], member);
      assert z == [z[0]] + z[1..];
    }
  }

  lemma {:induction false} ScoreAt(z: ZSet, i: nat)
    requires DistinctMembers(z) && i < |z|
    ensures ScoreOf(z, z[i].member) == Some(z[i].score)
  {
    if i > 0 {
      ScoreAt(z[1..], i - 1);
    }
  }

  function Without(z: ZSet, member: string): (rest: ZSet)
    ensures forall e :: e in rest <==> e in z && e.member != member
  {
    if z == [] then []
    else if z[0].member == member then Without(z[1..], member)
    else [z[0]] + Without(z[1..], member)
  }

  function Insert(z: ZSet, e: Entry): (r: ZSet)
    ensures forall x :: x in r <==> x == e || x in z
  {
    if z == [] then [e]
    else if Before(e, z[0]) then [e] + z
    else [z[0]] + Insert(z[1..], e)
  }

  /** ZADD key score member: a present member gets the new score and moves to its place. */
  function Zadd(z: ZSet, score: int, member: string): ZSet {
    Insert(Without(z, member), Entry(score, member))
  }

  lemma {:induction false} WithoutScore(z: ZSet, member: string, other: string)
    ensures ScoreOf(Without(z, member), other) == if other == member then None else ScoreOf(z, other)
  {
    if z != [] {
      WithoutScore(z[1..], member, other);
    }
  }

  lemma {:induction false} InsertScore(z: ZSet, e: Entry, other: string)
    requires ScoreOf(z, e.member).None?
    ensures ScoreOf(Insert(z, e), other) == if other == e.member then Some(e.score) else ScoreOf(z, other)
  {
    if z != [] && !Before(e, z[0]) {
      InsertScore(z[1..], e, other);
    }
  }

  /** ZADD sets one score and no other. */
  lemma ZaddScore(z: ZSet, score: int, member: string, other: string)
    ensures ScoreOf(Zadd(z, score, member), other) == if other == member then Some(score) else ScoreOf(z, other)
  {
    WithoutScore(z, member, member);
    WithoutScore(z, member, other);
    InsertScore(Without(z, member), Entry(score, member), other);
  }

  lemma ValidTail(z: ZSet)
    requires Valid(z) && z != []
    ensures Valid(z[1..]) && forall x | x in z[1..] :: Before(z[0], x) && z[0].member != x.member
  {
    forall i, j | 0 <= i < j < |z[1..]| ensures Before(z[1..][i], z[1..][j]) && z[1..][i].member != z[1..][j].member {
      assert Before(z[i + 1], z[j + 1]);
    }
    forall x | x in z[1..] ensures Before(z[0], x) && z[0].member != x.member {
      var i :| 0 <= i < |z[1..]| && z[1..][i] == x;
      assert z[i + 1] == x;
    }
  }

  lemma ValidCons(e: Entry, rest: ZSet)
    requires Valid(rest) && forall x | x in rest :: Before(e, x) && e.member != x.member
    ensures Valid([e] + rest)
  {
    var z := [e] + rest;
    forall i, j | 0 <= i < j < |z| ensures Before(z[i], z[j]) && z[i].member != z[j].member {
      assert z[j] == rest[j - 1];
      assert i > 0 ==> z[i] == rest[i - 1];
    }
  }

  lemma {:induction false} WithoutValid(z: ZSet, member: string)
    requires Valid(z)
    ensures Valid(Without(z, member))
  {
    if z != [] {
      ValidTail(z);
      WithoutValid(z[1..], member);
      if z[0].member != member { ValidCons(z[0], Without(z[1..], member)); }
    }
  }

  lemma {:induction false} InsertValid(z: ZSet, e: Entry)
    requires Valid(z) && forall x | x in z :: x.member != e.member
    ensures Valid(Insert(z, e))
  {
    if z == [] {
    } else if Before(e, z[0]) {
      forall x | x in z ensures Before(e, x) {
        var i :| 0 <= i < |z| && z[i] == x;
        if i > 0 { BeforeTransitive(e, z[0], z[i]); }
      }
      ValidCons(e, z);
    } else {
      LexTotal(e.member, z[0].member);
      assert Before(z[0], e);
      ValidTail(z);
      InsertValid(z[1..], e);
      ValidCons(z[0], Insert(z[1..], e));
    }
  }

  /** ZADD keeps the order and one entry per member. */
  lemma ZaddValid(z: ZSet, score: int, member: string)
    requires Valid(z)
    ensures Valid(Zadd(z, score, member))
  {
    WithoutValid(z, member);
    InsertValid(Without(z, member), Entry(score, member));
  }

  lemma {:induction false} WithoutLength(z: ZSet, member: string)
    requires DistinctMembers(z)
    ensures |Without(z, member)| == |z| - if exists e :: e in z && e.member == member then 1 else 0
  {
    if z != [] {
      assert z == [z[0]] + z[1..];
      WithoutLength(z[1..], member);
      if z[0].member == member {
        assert z[0] in z;
        forall e | e in z[1..] ensures e.member != member {
          var i :| 0 <= i < |z[1..]| && z[1..][i] == e;
          assert z[0].member != z[i + 1].member;
        }
      }
    }
  }

  lemma {:induction false} InsertLength(z: ZSet, e: Entry)
    ensures |Insert(z, e)| == |z| + 1
  {
    if z != [] && !Before(e, z[0]) { InsertLength(z[1..], e); }
  }

  /** ZADD does not shorten the set. */
  lemma ZaddLength(z: ZSet, score: int, member: string)
    requires DistinctMembers(z)
    ensures |Zadd(z, score, member)| >= |z|
  {
    WithoutLength(z, member);
    InsertLength(Without(z, member), Entry(score, member));
  }

  // Rank windows

  /** A negative rank counts from the end. */
  function Rank(rank: int, n: nat): int {
    if rank < 0 then n + rank else rank
  }

  function Low(start: int, n: nat): nat {
    if Rank(start, n) < 0 then 0 else Rank(start, n)
  }

  function High(stop: int, n: nat): int {
    if Rank(stop, n) >= n then n - 1 else Rank(stop, n)
  }

  predicate EmptyWindow(start: int, stop: int, n: nat) {
    Low(start, n) > High(stop, n) || Low(start, n) >= n
  }

  /** ZRANGE: the entries whose rank is in the window, both ends included. */
  function Zrange<T>(z: seq<T>, start: int, stop: int): seq<T> {
    if EmptyWindow(start, stop, |z|) then [] else z[Low(start, |z|)..High(stop, |z|) + 1]
  }

  /** ZREMRANGEBYRANK: what remains when the entries of the window are deleted. */
  function ZremRangeByRank<T>(z: seq<T>, start: int, stop: int): seq<T> {
    if EmptyWindow(start, stop, |z|) then z else z[..Low(start, |z|)] + z[High(stop, |z|) + 1..]
  }

  /** Reading a window and deleting it splits the set: every entry is in one part, once. */
  lemma WindowSplits<T>(z: seq<T>, start: int, stop: int)
    ensures multiset(Zrange(z, start, stop)) + multiset(ZremRangeByRank(z, start, stop)) == multiset(z)
  {
    if !EmptyWindow(start, stop, |z|) {
      var lo, hi := Low(start, |z|), High(stop, |z|) + 1;
      assert z == z[..lo] + z[lo..hi] + z[hi..];
    }
  }

  /** A window lists exactly the entries whose rank lies between its ends, both included; a negative end counts from
      the end of the set. */
  lemma WindowRanks<T>(z: seq<T>, start: int, stop: int, rank: nat)
    requires rank < |z| && forall i, j | 0 <= i < j < |z| :: z[i] != z[j]
    ensures z[rank] in Zrange(z, start, stop) <==>
            && (if start < 0 then |z| + start else start) <= rank
            && rank <= if stop < 0 then |z| + stop else stop
  {
  }

  /** A window keeps the order. */
  lemma WindowValid(z: ZSet, start: int, stop: int)
    requires Valid(z)
    ensures Valid(Zrange(z, start, stop)) && forall e | e in Zrange(z, start, stop) :: e in z
  {
  }
}
