/**
  All services keep their data in one Redis keyspace. Here are their key functions, when exactly two of them name the
  same key, and why each may be read as a store of its own otherwise.
 */
module Keyspace {
  import opened Wrappers

  function Join(args: seq<string>, separator: string): string {
    if args == [] then "" else if |args| == 1 then args[0] else args[0] + separator + Join(args[1..], separator)
  }

  function UseNameSpace(base: string, args: seq<string>): string {
    base + ":" + Join(args, ":")
  }

  /** What a service addresses. */
  datatype Address =
    | Requests(tid: string)
    | RequestIndex(tid: string)
    | NoticeQueue(tid: string)
    | AccountPool
    | Token(tid: string)
    | RefreshToken(tid: string)
    | BlackList(tid: string)
    | CachedIds
    | CachedToken(tid: string)

  function KeyOf(a: Address): string {
    match a
    case Requests(tid) => "request:" + tid
    case RequestIndex(tid) => "request:split:" + tid
    case NoticeQueue(tid) => "NOTICE:" + tid
    case AccountPool => "ACCOUNT:POOL"
    case Token(tid) => "TOKEN:" + tid
    case RefreshToken(tid) => "TOKEN:REFRESH:" + tid
    case BlackList(tid) => UseNameSpace("BLACK_LIST_CACHE", [tid])
    case CachedIds => UseNameSpace("ACCOUNT_CACHE", ["ids"])
    case CachedToken(tid) => UseNameSpace("ACCOUNT_CACHE", ["token", tid])
  }

  // Reading a key back

  predicate StartsWith(s: string, prefix: string) {
    |prefix| <= |s| && s[..|prefix|] == prefix
  }

  function Classify(key: string): Option<Address> {
    if StartsWith(key, "request:split:") then Some(RequestIndex(key[|"request:split:"|..]))
    else if StartsWith(key, "request:") then Some(Requests(key[|"request:"|..]))
    else if StartsWith(key, "NOTICE:") then Some(NoticeQueue(key[|"NOTICE:"|..]))
    else if StartsWith(key, "TOKEN:REFRESH:") then Some(RefreshToken(key[|"TOKEN:REFRESH:"|..]))
    else if StartsWith(key, "TOKEN:") then Some(Token(key[|"TOKEN:"|..]))
    else if StartsWith(key, "BLACK_LIST_CACHE:") then Some(BlackList(key[|"BLACK_LIST_CACHE:"|..]))
    else if StartsWith(key, "ACCOUNT_CACHE:token:") then Some(CachedToken(key[|"ACCOUNT_CACHE:token:"|..]))
    else if key == "ACCOUNT_CACHE:ids" then Some(CachedIds)
    else if key == "ACCOUNT:POOL" then Some(AccountPool)
    else None
  }

  lemma PrefixOf(prefix: string, rest: string)
    ensures StartsWith(prefix + rest, prefix) && (prefix + rest)[|prefix|..] == rest
  {
  }

  /** A key cannot start with a prefix it differs from. */
  lemma Differs(s: string, prefix: string, i: nat)
    requires i < |prefix| && (i < |s| ==> s[i] != prefix[i])
    ensures !StartsWith(s, prefix)
  {
  }

  /** The keys as the services write them. */
  lemma KeysWritten(tid: string)
    ensures KeyOf(Requests(tid)) == "request:" + tid && KeyOf(RequestIndex(tid)) == "request:split:" + tid
    ensures KeyOf(NoticeQueue(tid)) == "NOTICE:" + tid && KeyOf(AccountPool) == "ACCOUNT:POOL"
    ensures KeyOf(Token(tid)) == "TOKEN:" + tid && KeyOf(RefreshToken(tid)) == "TOKEN:REFRESH:" + tid
    ensures KeyOf(BlackList(tid)) == "BLACK_LIST_CACHE:" + tid
    ensures KeyOf(CachedIds) == "ACCOUNT_CACHE:ids"
    ensures KeyOf(CachedToken(tid)) == "ACCOUNT_CACHE:token:" + tid
  {
  }

  /** The address a key is read back as: the one with the longest prefix that fits. */
  function Canon(a: Address): Address {
    match a
    case Requests(tid) => if StartsWith(tid, "split:") then RequestIndex(tid[|"split:"|..]) else a
    case Token(tid) => if StartsWith(tid, "REFRESH:") then RefreshToken(tid[|"REFRESH:"|..]) else a
    case _ => a
  }

  lemma Parts(s: string, prefix: string)
    requires StartsWith(s, prefix)
    ensures s == prefix + s[|prefix|..]
  {
  }

  lemma LongerPrefix(first: string, second: string, rest: string)
    ensures StartsWith(first + rest, first + second) <==> StartsWith(rest, second)
    ensures StartsWith(rest, second) ==> (first + rest)[|first + second|..] == rest[|second|..]
  {
    var s := first + rest;
    if |first + second| <= |s| {
      assert s[..|first + second|] == first + rest[..|second|];
      if s[..|first + second|] == first + second {
        assert rest[..|second|] == (first + second)[|first|..];
      }
    }
  }

  lemma IndexKeyDecodes(tid: string)
    ensures Classify("request:split:" + tid) == Some(RequestIndex(tid))
  {
    PrefixOf("request:split:", tid);
  }

  lemma RequestKeyDecodes(tid: string)
    ensures Classify("request:" + tid) == Some(Canon(Requests(tid)))
  {
    PrefixOf("request:", tid);
    assert "request:" + "split:" == "request:split:";
    LongerPrefix("request:", "split:", tid);
  }

  lemma TokenKeyDecodes(tid: string)
    ensures Classify("TOKEN:" + tid) == Some(Canon(Token(tid)))
  {
    var key := "TOKEN:" + tid;
    PrefixOf("TOKEN:", tid);
    assert "TOKEN:" + "REFRESH:" == "TOKEN:REFRESH:";
    LongerPrefix("TOKEN:", "REFRESH:", tid);
    Differs(key, "request:split:", 0);
    Differs(key, "request:", 0);
    Differs(key, "NOTICE:", 0);
  }

  lemma RefreshKeyDecodes(tid: string)
    ensures Classify("TOKEN:REFRESH:" + tid) == Some(RefreshToken(tid))
  {
    var key := "TOKEN:REFRESH:" + tid;
    PrefixOf("TOKEN:REFRESH:", tid);
    Differs(key, "request:split:", 0);
    Differs(key, "request:", 0);
    Differs(key, "NOTICE:", 0);
  }

  lemma NoticeKeyDecodes(tid: string)
    ensures Classify("NOTICE:" + tid) == Some(NoticeQueue(tid))
  {
    var key := "NOTICE:" + tid;
    PrefixOf("NOTICE:", tid);
    Differs(key, "request:split:", 0);
    Differs(key, "request:", 0);
  }

  /** Keys of the caches and the pool start with none of the prefixes above. */
  lemma CacheKeyIs(key: string)
    requires key != "" && (key[0] == 'A' || key[0] == 'B')
    ensures !StartsWith(key, "request:split:") && !StartsWith(key, "request:") && !StartsWith(key, "NOTICE:")
    ensures !StartsWith(key, "TOKEN:REFRESH:") && !StartsWith(key, "TOKEN:")
  {
  }

  lemma BlackListKeyDecodes(tid: string)
    ensures Classify("BLACK_LIST_CACHE:" + tid) == Some(BlackList(tid))
  {
    CacheKeyIs("BLACK_LIST_CACHE:" + tid);
    PrefixOf("BLACK_LIST_CACHE:", tid);
  }

  lemma CachedTokenKeyDecodes(tid: string)
    ensures Classify("ACCOUNT_CACHE:token:" + tid) == Some(CachedToken(tid))
  {
    CacheKeyIs("ACCOUNT_CACHE:token:" + tid);
    PrefixOf("ACCOUNT_CACHE:token:", tid);
    Differs("ACCOUNT_CACHE:token:" + tid, "BLACK_LIST_CACHE:", 0);
  }

  lemma SingleKeysDecode()
    ensures Classify("ACCOUNT_CACHE:ids") == Some(CachedIds) && Classify("ACCOUNT:POOL") == Some(AccountPool)
  {
    CacheKeyIs("ACCOUNT_CACHE:ids");
    CacheKeyIs("ACCOUNT:POOL");
    Differs("ACCOUNT_CACHE:ids", "BLACK_LIST_CACHE:", 0);
    Differs("ACCOUNT_CACHE:ids", "ACCOUNT_CACHE:token:", 14);
    Differs("ACCOUNT:POOL", "BLACK_LIST_CACHE:", 0);
    Differs("ACCOUNT:POOL", "ACCOUNT_CACHE:token:", 7);
    assert "ACCOUNT:POOL"[7] != "ACCOUNT_CACHE:ids"[7];
  }

  /** Every key can be read back, up to the two prefixes. */
  lemma KeyDecodes(a: Address)
    ensures Classify(KeyOf(a)) == Some(Canon(a))
  {
    match a
    case Requests(tid) => RequestKeyDecodes(tid);
    case RequestIndex(tid) => IndexKeyDecodes(tid);
    case NoticeQueue(tid) => NoticeKeyDecodes(tid);
    case AccountPool => SingleKeysDecode();
    case Token(tid) => TokenKeyDecodes(tid);
    case RefreshToken(tid) => RefreshKeyDecodes(tid);
    case BlackList(tid) => KeysWritten(tid); BlackListKeyDecodes(tid);
    case CachedIds => KeysWritten(""); SingleKeysDecode();
    case CachedToken(tid) => KeysWritten(tid); CachedTokenKeyDecodes(tid);
  }

  // Which keys clash

  /** The hash of one id has the key of the index of another, or the access token that of the refresh token. */
  predicate Clash(a: Address, b: Address) {
    || (a.Requests? && b.RequestIndex? && a.tid == "split:" + b.tid)
    || (a.Token? && b.RefreshToken? && a.tid == "REFRESH:" + b.tid)
  }

  lemma ClashSharesKey(a: Address, b: Address)
    requires Clash(a, b)
    ensures KeyOf(a) == KeyOf(b)
  {
    assert "request:" + ("split:" + b.tid) == "request:split:" + b.tid;
    assert "TOKEN:" + ("REFRESH:" + b.tid) == "TOKEN:REFRESH:" + b.tid;
  }

  lemma CanonIs(a: Address)
    ensures Canon(a) == a || Clash(a, Canon(a))
  {
    if a.Requests? && StartsWith(a.tid, "split:") {
      Parts(a.tid, "split:");
    } else if a.Token? && StartsWith(a.tid, "REFRESH:") {
      Parts(a.tid, "REFRESH:");
    }
  }

  lemma SameCanon(a: Address, b: Address)
    requires Canon(a) == Canon(b)
    ensures a == b || Clash(a, b) || Clash(b, a)
  {
    CanonIs(a);
    CanonIs(b);
  }

  /** When exactly two addresses share a key, whatever the ids. */
  lemma KeysEqualIff(a: Address, b: Address)
    ensures KeyOf(a) == KeyOf(b) <==> a == b || Clash(a, b) || Clash(b, a)
  {
    if KeyOf(a) == KeyOf(b) {
      KeyDecodes(a);
      KeyDecodes(b);
      SameCanon(a, b);
    } else {
      if Clash(a, b) { ClashSharesKey(a, b); }
      if Clash(b, a) { ClashSharesKey(b, a); }
    }
  }

  lemma HashAndIndexClash(t: string, u: string)
    ensures KeyOf(Requests(t)) == KeyOf(RequestIndex(u)) <==> t == "split:" + u
  {
    KeysEqualIff(Requests(t), RequestIndex(u));
  }

  /** The address of an id that does not begin with the longer prefix. */
  predicate Plain(a: Address) {
    && (a.Requests? ==> !StartsWith(a.tid, "split:"))
    && (a.Token? ==> !StartsWith(a.tid, "REFRESH:"))
  }

  /** No two of the addresses share a key. */
  ghost predicate Apart(addresses: iset<Address>) {
    forall a, b | a in addresses && b in addresses && KeyOf(a) == KeyOf(b) :: a == b
  }

  lemma PlainApart()
    ensures Apart(iset a | Plain(a))
  {
    forall a, b | Plain(a) && Plain(b) && KeyOf(a) == KeyOf(b) ensures a == b {
      KeyDecodes(a);
      KeyDecodes(b);
    }
  }

  // One keyspace simulates separate stores

  datatype Kind = HashKind | SortedSetKind | StringKind | SetKind

  function KindOf(a: Address): Kind {
    match a
    case Requests(_) => HashKind
    case RequestIndex(_) => SortedSetKind
    case NoticeQueue(_) => SortedSetKind
    case BlackList(_) => SetKind
    case CachedIds => HashKind
    case _ => StringKind
  }

  /** What a key holds. */
  datatype Cell<C> = Cell(kind: Kind, content: C)

  /** A command reads and rewrites what one address holds, and answers. */
  datatype Command<!C, !R> = Command(at: Address, run: Option<C> -> (Option<C>, R))

  datatype Reply<R> = Answer(value: R) | WrongType

  /** One command on the shared keyspace: an error if the key holds another kind of value. */
  function OnKeys<C, R>(keys: map<string, Cell<C>>, c: Command<C, R>): (map<string, Cell<C>>, Reply<R>) {
    var key := KeyOf(c.at);
    if key in keys && keys[key].kind != KindOf(c.at) then (keys, WrongType)
    else
      var (after, answer) := c.run(if key in keys then Some(keys[key].content) else None);
      (if after.Some? then keys[key := Cell(KindOf(c.at), after.value)] else keys - {key}, Answer(answer))
  }

  /** The same command on separate stores. */
  function OnStores<C, R>(stores: map<Address, C>, c: Command<C, R>): (map<Address, C>, Reply<R>) {
    var (after, answer) := c.run(if c.at in stores then Some(stores[c.at]) else None);
    (if after.Some? then stores[c.at := after.value] else stores - {c.at}, Answer(answer))
  }

  function RunKeys<C, R>(keys: map<string, Cell<C>>, cs: seq<Command<C, R>>): (map<string, Cell<C>>, seq<Reply<R>>)
    decreases |cs|
  {
    if cs == [] then (keys, []) else
      var (next, reply) := OnKeys(keys, cs[0]);
      var (last, replies) := RunKeys(next, cs[1..]);
      (last, [reply] + replies)
  }

  function RunStores<C, R>(stores: map<Address, C>, cs: seq<Command<C, R>>): (map<Address, C>, seq<Reply<R>>)
    decreases |cs|
  {
    if cs == [] then (stores, []) else
      var (next, reply) := OnStores(stores, cs[0]);
      var (last, replies) := RunStores(next, cs[1..]);
      (last, [reply] + replies)
  }

  ghost predicate SameAt<C>(keys: map<string, Cell<C>>, stores: map<Address, C>, a: Address) {
    if a in stores then KeyOf(a) in keys && keys[KeyOf(a)] == Cell(KindOf(a), stores[a]) else KeyOf(a) !in keys
  }

  ghost predicate Simulates<C>(addresses: iset<Address>, keys: map<string, Cell<C>>, stores: map<Address, C>) {
    forall a | a in addresses :: SameAt(keys, stores, a)
  }

  lemma CommandSimulates<C, R>(addresses: iset<Address>, keys: map<string, Cell<C>>, stores: map<Address, C>,
                               c: Command<C, R>)
    requires Apart(addresses) && Simulates(addresses, keys, stores) && c.at in addresses
    ensures OnKeys(keys, c).1 == OnStores(stores, c).1
    ensures Simulates(addresses, OnKeys(keys, c).0, OnStores(stores, c).0)
  {
    assert SameAt(keys, stores, c.at);
    forall a | a in addresses ensures SameAt(OnKeys(keys, c).0, OnStores(stores, c).0, a) {
      assert SameAt(keys, stores, a);
    }
  }

  /** Any run over addresses that share no keys answers as separate stores would; no command ever meets another kind of
      value. */
  lemma {:induction false} RunSimulates<C, R>(addresses: iset<Address>, keys: map<string, Cell<C>>,
                                              stores: map<Address, C>, cs: seq<Command<C, R>>)
    requires Apart(addresses) && Simulates(addresses, keys, stores)
    requires forall i | 0 <= i < |cs| :: cs[i].at in addresses
    ensures RunKeys(keys, cs).1 == RunStores(stores, cs).1
    ensures Simulates(addresses, RunKeys(keys, cs).0, RunStores(stores, cs).0)
    ensures forall i | 0 <= i < |RunKeys(keys, cs).1| :: RunKeys(keys, cs).1[i] != WrongType
    decreases |cs|
  {
    if cs != [] {
      CommandSimulates(addresses, keys, stores, cs[0]);
      RunSimulates(addresses, OnKeys(keys, cs[0]).0, OnStores(stores, cs[0]).0, cs[1..]);
    }
  }

  /** Writes a value. */
  function Write(a: Address): Command<int, bool> {
    Command(a, (content: Option<int>) => (Some(0), false))
  }

  /** Says whether there is a value. */
  function Exists(a: Address): Command<int, bool> {
    Command(a, (content: Option<int>) => (content, content.Some?))
  }

  lemma RunOfTwo<C, R>(keys: map<string, Cell<C>>, stores: map<Address, C>, c: Command<C, R>, d: Command<C, R>)
    ensures RunKeys(keys, [c, d]).1 == [OnKeys(keys, c).1, OnKeys(OnKeys(keys, c).0, d).1]
    ensures RunStores(stores, [c, d]).1 == [OnStores(stores, c).1, OnStores(OnStores(stores, c).0, d).1]
  {
    assert [c, d][1..] == [d] && [d][1..] == [];
    var keys', stores' := OnKeys(keys, c).0, OnStores(stores, c).0;
    assert RunKeys(keys', [d]).1 == [OnKeys(keys', d).1];
    assert RunStores(stores', [d]).1 == [OnStores(stores', d).1];
  }

  /** Writing at one of two addresses with one key shows at the other. */
  lemma SharedKeyShows(a: Address, b: Address)
    requires a != b && KeyOf(a) == KeyOf(b)
    ensures RunKeys(map[], [Write(a), Exists(b)]).1 != RunStores(map[], [Write(a), Exists(b)]).1
  {
    RunOfTwo<int, bool>(map[], map[], Write(a), Exists(b));
    var keys: map<string, Cell<int>>, stores: map<Address, int> := map[], map[];
    assert OnKeys(OnKeys(keys, Write(a)).0, Exists(b)).1 != Answer(false);
    assert OnStores(OnStores(stores, Write(a)).0, Exists(b)).1 == Answer(false);
  }

  /** What it shows: a request hash and an index clash as different types, two tokens read each other's value. */
  lemma ClashAnswers(a: Address, b: Address)
    requires Clash(a, b)
    ensures RunKeys(map[], [Write(a), Exists(b)]).1
         == [Answer(false), if a.Requests? then WrongType else Answer(true)]
  {
    ClashSharesKey(a, b);
    RunOfTwo<int, bool>(map[], map[], Write(a), Exists(b));
    var keys: map<string, Cell<int>> := map[];
    assert OnKeys(keys, Write(a)).0 == map[KeyOf(a) := Cell(KindOf(a), 0)];
  }

  ghost predicate AsSeparate(addresses: iset<Address>, cs: seq<Command<int, bool>>) {
    (forall i | 0 <= i < |cs| :: cs[i].at in addresses) ==> RunKeys(map[], cs).1 == RunStores(map[], cs).1
  }

  /** The keyspace is as good as separate stores for every run over some addresses exactly when no two of them clash. */
  lemma SeparateIff(addresses: iset<Address>)
    ensures (forall cs :: AsSeparate(addresses, cs))
       <==> (forall a, b | a in addresses && b in addresses :: !Clash(a, b))
  {
    if Apart(addresses) {
      forall a, b | a in addresses && b in addresses ensures !Clash(a, b) {
        KeysEqualIff(a, b);
      }
      forall cs: seq<Command<int, bool>> ensures AsSeparate(addresses, cs) {
        if forall i | 0 <= i < |cs| :: cs[i].at in addresses {
          RunSimulates<int, bool>(addresses, map[], map[], cs);
        }
      }
    } else {
      var a, b :| a in addresses && b in addresses && KeyOf(a) == KeyOf(b) && a != b;
      KeysEqualIff(a, b);
      SharedKeyShows(a, b);
      assert !AsSeparate(addresses, [Write(a), Exists(b)]);
    }
  }
}
