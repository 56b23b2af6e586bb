/** The Friend collection: directed rows in insertion order, and what its three commands do to the relation. */
module FriendRows {
  import opened Wrappers

  datatype Friend = Friend(source: string, target: string, tag: string)

  type Pair = (string, string)

  function PairList(rows: seq<Friend>): (pairs: seq<Pair>)
    ensures |pairs| == |rows|
    ensures forall i | 0 <= i < |rows| :: pairs[i] == (rows[i].source, rows[i].target)
  {
    seq(|rows|, i requires 0 <= i < |rows| => (rows[i].source, rows[i].target))
  }

  /** The directed relation the rows spell out, with multiplicity. */
  function Pairs(rows: seq<Friend>): (pairs: multiset<Pair>)
    ensures |pairs| == |rows|
  {
    multiset(PairList(rows))
  }

  lemma PairsAppend(a: seq<Friend>, b: seq<Friend>)
    ensures Pairs(a + b) == Pairs(a) + Pairs(b)
  {
    assert PairList(a + b) == PairList(a) + PairList(b);
  }

  predicate Matches(row: Friend, source: string, target: string) {
    row.source == source && row.target == target
  }

  /** The rank of the first row from source to target, or the length when there is none. */
  function Find(rows: seq<Friend>, source: string, target: string): (k: nat)
    ensures k <= |rows|
    ensures k < |rows| ==> Matches(rows[k], source, target)
    ensures forall i | 0 <= i < k :: !Matches(rows[i], source, target)
  {
    FirstMatch(rows, row => Matches(row, source, target))
  }

  /** `findOne({source, target})` finds a row. */
  predicate HasFriend(rows: seq<Friend>, source: string, target: string)
    ensures HasFriend(rows, source, target) <==> (source, target) in Pairs(rows)
  {
    var k := Find(rows, source, target);
    assert (source, target) in PairList(rows) ==> k < |rows|;
    assert k < |rows| ==> PairList(rows)[k] == (source, target);
    k < |rows|
  }

  /** `updateOne` sets the tag of the first match. */
  function SetTag(rows: seq<Friend>, source: string, target: string, tag: string): seq<Friend> {
    var k := Find(rows, source, target);
    if k == |rows| then rows else rows[k := rows[k].(tag := tag)]
  }

  lemma SetTagKeepsPairs(rows: seq<Friend>, source: string, target: string, tag: string)
    ensures Pairs(SetTag(rows, source, target, tag)) == Pairs(rows)
  {
    assert PairList(SetTag(rows, source, target, tag)) == PairList(rows);
  }

  /** A tag change leaves the relation alone, and changes nothing when there is no match. */
  lemma SetTagPairs(rows: seq<Friend>, source: string, target: string, tag: string)
    ensures Pairs(SetTag(rows, source, target, tag)) == Pairs(rows)
    ensures !HasFriend(rows, source, target) ==> SetTag(rows, source, target, tag) == rows
    ensures HasFriend(rows, source, target) ==>
              var k, after := Find(rows, source, target), SetTag(rows, source, target, tag);
              && |after| == |rows| && after[k] == Friend(source, target, tag)
              && forall i | 0 <= i < |rows| && i != k :: after[i] == rows[i]
    ensures HasFriend(rows, source, target) ==>
              multiset(SetTag(rows, source, target, tag)) ==
              multiset(rows) - multiset{rows[Find(rows, source, target)]} + multiset{Friend(source, target, tag)}
  {
    assert PairList(SetTag(rows, source, target, tag)) == PairList(rows);
  }

  /** `deleteOne` removes the first match. */
  function DeleteOne(rows: seq<Friend>, source: string, target: string): seq<Friend> {
    var k := Find(rows, source, target);
    if k == |rows| then rows else rows[..k] + rows[k + 1..]
  }

  /** The first match goes and the other rows stay, in order. */
  lemma DeleteOneRows(rows: seq<Friend>, source: string, target: string)
    requires HasFriend(rows, source, target)
    ensures var k, after := Find(rows, source, target), DeleteOne(rows, source, target);
            && k < |rows| && Matches(rows[k], source, target) && |after| == |rows| - 1
            && (forall i | 0 <= i < k :: after[i] == rows[i] && !Matches(rows[i], source, target))
            && forall i | k <= i < |after| :: after[i] == rows[i + 1]
  {
  }

  lemma DeleteOnePairs(rows: seq<Friend>, source: string, target: string)
    ensures Pairs(DeleteOne(rows, source, target)) == Pairs(rows) - multiset{(source, target)}
    ensures !HasFriend(rows, source, target) ==> DeleteOne(rows, source, target) == rows
  {
    var k := Find(rows, source, target);
    if k < |rows| {
      PairListCut(rows, k);
      RemoveAt(PairList(rows), k);
      assert PairList(rows)[k] == (source, target);
    } else {
      assert (source, target) !in Pairs(rows);
    }
  }

  lemma PairListCut(rows: seq<Friend>, k: nat)
    requires k < |rows|
    ensures PairList(rows[..k] + rows[k + 1..]) == PairList(rows)[..k] + PairList(rows)[k + 1..]
  {
  }

  lemma RemoveAt<T>(l: seq<T>, k: nat)
    requires k < |l|
    ensures multiset(l[..k] + l[k + 1..]) == multiset(l) - multiset{l[k]}
  {
    assert l == l[..k] + [l[k]] + l[k + 1..];
  }

  // Symmetry

  ghost predicate Symmetric(pairs: multiset<Pair>) {
    forall a, b :: pairs[(a, b)] == pairs[(b, a)]
  }

  /** The two rows of a friendship, in the order they are saved. */
  function BothRows(sender: string, recive: string): seq<Friend> {
    [Friend(sender, recive, ""), Friend(recive, sender, "")]
  }

  function BothPairs(sender: string, recive: string): multiset<Pair> {
    multiset{(sender, recive), (recive, sender)}
  }

  lemma SymmetricSum(pairs: multiset<Pair>, a: string, b: string)
    ensures Symmetric(pairs) ==> Symmetric(pairs + BothPairs(a, b))
  {
  }

  lemma BothRowsPairs(rows: seq<Friend>, sender: string, recive: string)
    ensures Pairs(rows + BothRows(sender, recive)) == Pairs(rows) + BothPairs(sender, recive)
    ensures Symmetric(Pairs(rows)) ==> Symmetric(Pairs(rows + BothRows(sender, recive)))
  {
    PairsAppend(rows, BothRows(sender, recive));
    assert PairList(BothRows(sender, recive)) == [(sender, recive), (recive, sender)];
    SymmetricSum(Pairs(rows), sender, recive);
  }

  /** Deleting one row of a symmetric relation keeps it symmetric exactly when the row is absent or a loop. */
  lemma DeleteKeepsSymmetryIff(rows: seq<Friend>, source: string, target: string)
    requires Symmetric(Pairs(rows))
    ensures Symmetric(Pairs(DeleteOne(rows, source, target)))
       <==> source == target || !HasFriend(rows, source, target)
  {
    DeleteOnePairs(rows, source, target);
    var before, after := Pairs(rows), Pairs(DeleteOne(rows, source, target));
    if source != target && HasFriend(rows, source, target) {
      assert after[(source, target)] == before[(source, target)] - 1;
      assert after[(target, source)] == before[(target, source)];
      assert !Symmetric(after);
    } else {
      forall a, b ensures after[(a, b)] == after[(b, a)] {
        assert before[(a, b)] == before[(b, a)];
      }
    }
  }
}
