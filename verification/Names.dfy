/** User and stock identifiers: validity, the child indexes they spell in the tries, and the routing of users. */
module Names {
  import opened Base

  datatype Kind = Buy | Sell

  const USER_CHARS := 62
  const STOCK_CHARS := 26

  // ----- Child indexes -----

  /** The 62-way index of the user trie: digits, lower case, upper case. */
  function UserIndex(c: Code): Option<nat> {
    if 47 < c < 58 then Some(c - 48)
    else if 96 < c < 123 then Some(c - 87)
    else if 64 < c < 91 then Some(c - 29)
    else None
  }

  /** The 26-way index of the stock and holding tries. */
  function StockIndex(c: Code): Option<nat> {
    if 64 < c < 91 then Some(c - 65) else None
  }

  /** The 2x26-way index of the trigger trie: buys in the first half, sells in the second. */
  function TriggerIndex(kind: Kind, c: Code): Option<nat> {
    if 64 < c < 91 then Some(if kind == Buy then c - 65 else STOCK_CHARS + c - 65) else None
  }

  lemma IndexesInjective(c: Code, d: Code, k: Kind, l: Kind)
    ensures UserIndex(c).Some? && UserIndex(c) == UserIndex(d) ==> c == d
    ensures StockIndex(c).Some? && StockIndex(c) == StockIndex(d) ==> c == d
    ensures TriggerIndex(k, c).Some? && TriggerIndex(k, c) == TriggerIndex(l, d) ==> c == d && k == l
    ensures UserIndex(c).Some? ==> UserIndex(c).value < USER_CHARS
    ensures StockIndex(c).Some? ==> StockIndex(c).value < STOCK_CHARS
    ensures TriggerIndex(k, c).Some? ==> TriggerIndex(k, c).value < 2 * STOCK_CHARS
  {
  }

  /** So many characters from the given one on. */
  function Span(first: Code, n: nat): (s: Text)
    requires first > 0 && first + n <= 128
    ensures |s| == n
  {
    seq(n, i requires 0 <= i < n => (first + i) as Code)
  }

  /** The ten digits, the small letters and the capitals, in this order. */
  function Alphabet(): (s: Text)
    ensures |s| == USER_CHARS
  {
    Span(48, 10) + Span(97, 26) + Span(65, 26)
  }

  /**
   * A user's index is the place of the character in the alphabet; a stock's is the place among the capitals, and a
   * trigger's the same with sells behind all buys.
   */
  lemma IndexesSpell(c: Code, kind: Kind, i: nat)
    ensures UserIndex(c) == Some(i) <==> i < 62 && Alphabet()[i] == c
    ensures StockIndex(c) == Some(i) <==> i < 26 && Alphabet()[36..][i] == c
    ensures TriggerIndex(kind, c) == Some(i) <==>
      if kind == Buy then i < 26 && Alphabet()[36..][i] == c else 26 <= i < 52 && Alphabet()[36..][i - 26] == c
  {
    if i < 26 { CapitalAt(i); }
    if 26 <= i < 52 { CapitalAt(i - 26); }
    if i < 62 { LetterAt(i); }
  }

  lemma LetterAt(i: nat)
    requires i < 62
    ensures Alphabet()[i] == if i < 10 then 48 + i else if i < 36 then 87 + i else 29 + i
  {
  }

  lemma CapitalAt(i: nat)
    requires i < 26
    ensures Alphabet()[36..][i] == 65 + i
  {
    LetterAt(36 + i);
  }

  // ----- Validity -----

  predicate ValidUser(id: Text) {
    |id| == 10 && forall i :: 0 <= i < |id| ==> UserIndex(id[i]).Some?
  }

  predicate ValidStock(id: Text) {
    |id| == 3 && forall i :: 0 <= i < |id| ==> StockIndex(id[i]).Some?
  }

  /** `validUserID`; NULL in, NULL out. */
  method CheckUser(id: Option<Text>) returns (r: Option<Text>)
    ensures r == if id.Some? && ValidUser(id.value) then id else None
  {
    if id.None? { return None; }
    var len := |id.value|;
    if len != 10 { return None; }
    var i := 0;
    while i < len
      invariant 0 <= i <= len
      invariant forall j :: 0 <= j < i ==> UserIndex(id.value[j]).Some?
    {
      var c := id.value[i];
      if c > 47 && c < 58 {
      } else if c > 96 && c < 123 {
      } else if c > 64 && c < 91 {
      } else {
        return None;
      }
      i := i + 1;
    }
    return id;
  }

  /** `validStockID`. */
  method CheckStock(id: Option<Text>) returns (r: Option<Text>)
    ensures r == if id.Some? && ValidStock(id.value) then id else None
  {
    if id.None? { return None; }
    var len := |id.value|;
    if len != 3 { return None; }
    var i := 0;
    while i < len
      invariant 0 <= i <= len
      invariant forall j :: 0 <= j < i ==> StockIndex(id.value[j]).Some?
    {
      var c := id.value[i];
      if !(c > 64 && c < 91) { return None; }
      i := i + 1;
    }
    return id;
  }

  // ----- Paths -----

  /** The path of a trigger in its user's trigger trie. */
  function TriggerPath(kind: Kind, stock: Text): (p: seq<nat>)
    requires ValidStock(stock)
    ensures |p| == 3 && forall i :: 0 <= i < 3 ==> p[i] < 2 * STOCK_CHARS
  {
    seq(3, i requires 0 <= i < 3 => TriggerIndex(kind, stock[i]).value)
  }

  /** The path of a stock in the stock trie and in the tries of holdings, which have one half only. */
  function StockPath(stock: Text): (p: seq<nat>)
    requires ValidStock(stock)
    ensures |p| == 3 && forall i :: 0 <= i < 3 ==> p[i] < STOCK_CHARS && StockIndex(stock[i]) == Some(p[i])
  {
    seq(3, i requires 0 <= i < 3 => StockIndex(stock[i]).value)
  }

  lemma StockPathInjective(s: Text, u: Text)
    requires ValidStock(s) && ValidStock(u) && StockPath(s) == StockPath(u)
    ensures s == u
  {
    forall i | 0 <= i < 3 ensures s[i] == u[i] {
      assert StockPath(s)[i] == StockPath(u)[i];
      IndexesInjective(s[i], u[i], Buy, Buy);
    }
  }

  /** Different triggers have different paths. */
  lemma TriggerPathInjective(k: Kind, s: Text, l: Kind, u: Text)
    requires ValidStock(s) && ValidStock(u) && TriggerPath(k, s) == TriggerPath(l, u)
    ensures k == l && s == u
  {
    assert k == l by {
      assert TriggerPath(k, s)[0] == TriggerPath(l, u)[0];
      IndexesInjective(s[0], u[0], k, l);
    }
    forall i | 0 <= i < 3 ensures s[i] == u[i] {
      assert TriggerPath(k, s)[i] == TriggerPath(l, u)[i];
      IndexesInjective(s[i], u[i], k, l);
    }
  }

  // ----- Routing -----

  const NUM_THREADS := 50
  const TRANS_NUM := 5
  const NUM_DB := 5

  /** The sum of the letter values, or none if some letter has no value. */
  function LetterSum(id: Text): Option<nat> {
    if id == [] then Some(0)
    else
      var init := LetterSum(id[..|id| - 1]);
      var last := UserIndex(id[|id| - 1]);
      if init.None? || last.None? then None else Some(init.value + last.value)
  }

  /** It is a sum: parts add up in any way, and one letter counts its value. */
  lemma {:induction false} LettersAddUp(s: Text, t: Text)
    ensures LetterSum(s + t) ==
      if LetterSum(s).Some? && LetterSum(t).Some? then Some(LetterSum(s).value + LetterSum(t).value) else None
    ensures |s| == 1 ==> LetterSum(s) == UserIndex(s[0])
  {
    if |s| == 1 { assert s[..0] == []; }
    if t == [] {
      assert s + t == s;
    } else {
      assert (s + t)[..|s + t| - 1] == s + t[..|t| - 1];
      LettersAddUp(s, t[..|t| - 1]);
    }
  }

  /** What `userSort` computes, with the loader's or the server's modulus. */
  function Sorted(id: Text, modulus: nat): nat
    requires modulus > 0
  {
    if LetterSum(id).None? then 0 else LetterSum(id).value % modulus
  }

  /** `userSort`. */
  method UserSort(id: Option<Text>, modulus: nat) returns (r: int)
    requires modulus > 0
    ensures r == if id.None? then -1 else Sorted(id.value, modulus)
  {
    if id.None? { return -1; }
    var s := id.value;
    var i, sum := 0, 0;
    while i < |s|
      invariant 0 <= i <= |s|
      invariant LetterSum(s[..i]) == Some(sum) && sum >= 0
    {
      assert s[..i + 1][..i] == s[..i];
      var c := s[i];
      if c > 47 && c < 58 {
        sum := sum + c as int - 48;
      } else if c > 96 && c < 123 {
        sum := sum + c as int - 87;
      } else if c > 64 && c < 91 {
        sum := sum + c as int - 29;
      } else {
        NoSumBeyond(s, i + 1);
        return 0;
      }
      i := i + 1;
    }
    assert s[..i] == s;
    return sum % modulus;
  }

  lemma {:induction false} NoSumBeyond(s: Text, i: nat)
    requires i <= |s| && LetterSum(s[..i]) == None
    ensures LetterSum(s) == None
    decreases |s| - i
  {
    if i == |s| {
      assert s[..i] == s;
    } else {
      assert s[..i + 1][..i] == s[..i];
      NoSumBeyond(s, i + 1);
    }
  }

  /** The loop that opens the loader's sockets: queue `i` talks to server `server[i]`. */
  method AssignServers(queues: nat, servers: nat) returns (server: array<nat>)
    requires servers > 0
    ensures fresh(server) && server.Length == queues
    ensures forall i :: 0 <= i < queues ==> server[i] == i % servers
  {
    server := new nat[queues];
    var i, j := 0, 0;
    while i < queues
      invariant 0 <= i <= queues && j == i % servers
      invariant forall k :: 0 <= k < i ==> server[k] == k % servers
    {
      server[i] := j;
      NextResidue(i, servers);
      i, j := i + 1, (j + 1) % servers;
    }
  }

  lemma NextResidue(i: nat, m: nat)
    requires m > 0
    ensures (i % m + 1) % m == (i + 1) % m
  {
    var q, r := i / m, i % m;
    assert i + 1 == q * m + (r + 1);
    ResidueOfSum(q, r + 1, m);
  }

  lemma ResidueOfSum(q: nat, r: nat, m: nat)
    requires m > 0
    ensures (q * m + r) % m == r % m
  {
    var a := q * m + r;
    assert a == (a / m) * m + a % m && r == (r / m) * m + r % m;
    assert a % m - r % m == (q + r / m - a / m) * m by {
      assert (q + r / m - a / m) * m == q * m + (r / m) * m - (a / m) * m;
    }
    NoMultipleBetween(q + r / m - a / m, m);
  }

  predicate SameShard(sum: nat, queues: nat, shards: nat)
    requires queues > 0 && shards > 0
  {
    (sum % queues) % shards == sum % shards
  }

  lemma SameShardIfDivides(sum: nat, queues: nat, shards: nat)
    requires queues > 0 && shards > 0 && queues % shards == 0
    ensures SameShard(sum, queues, shards)
  {
    var k, q, r := queues / shards, sum / queues, sum % queues;
    assert queues == k * shards;
    assert sum == q * (k * shards) + r;
    assert q * (k * shards) == (q * k) * shards;
    ResidueOfSum(q * k, r, shards);
  }

  /** Reducing by the queue count first makes no difference to the shard exactly when the shard count divides it. */
  lemma ShardOfQueue(queues: nat, shards: nat)
    requires queues > 0 && shards > 0
    ensures (forall sum: nat :: SameShard(sum, queues, shards)) <==> queues % shards == 0
  {
    if queues % shards == 0 {
      forall sum: nat ensures SameShard(sum, queues, shards) {
        SameShardIfDivides(sum, queues, shards);
      }
    } else {
      ResidueOfSum(1, 0, queues);
      assert !SameShard(queues, queues, shards);
    }
  }

  /**
   * All commands of a user meet one database shard: the server that the user's queue is connected to has the
   * index that the server itself computes for the user's shard.  This holds for every identifier.
   */
  lemma RoutingAgrees(id: Text)
    ensures var queue := Sorted(id, NUM_THREADS);
      && queue < NUM_THREADS
      && queue % TRANS_NUM == Sorted(id, NUM_DB) < NUM_DB
  {
    ShardOfQueue(NUM_THREADS, NUM_DB);
    if LetterSum(id).Some? {
      assert SameShard(LetterSum(id).value, NUM_THREADS, NUM_DB);
    }
  }
}
