/** The chained hash table of homework7/hashtable.c, in its sequential
    semantics. The global-lock and per-bucket-lock variants run the same
    insert and lookup code and differ only in which mutex they take, so both
    are one class here, tagged with the locking scheme. Each chain is the
    sequence of its nodes from the head. */
module HashTable {

  const BUCKETS: nat := 101

  /** C's `%`, which truncates toward zero (b > 0). */
  function CRem(a: int, b: int): int
    requires b > 0
  {
    if a >= 0 then a % b else -((-a) % b)
  }

  /** hash: the key modulo 101, negative for a negative key. */
  function Hash(key: int): (r: int)
    ensures key >= 0 ==> 0 <= r < BUCKETS && r == key % BUCKETS
    ensures key < 0 ==> -(BUCKETS as int) < r <= 0
  {
    CRem(key, BUCKETS)
  }

  /** A negative key hashes to a negative bucket index, outside the table,
      which is why every operation asks for a non-negative key. */
  lemma NegativeKeyOutOfTable()
    ensures Hash(-1) == -1 && Hash(-102) == -1
  {
  }

  datatype Node = Node(key: int, value: int)

  /** The value of the first node holding `key`, or -1. */
  function ChainLookup(chain: seq<Node>, key: int): (r: int)
    ensures (forall i :: 0 <= i < |chain| ==> chain[i].key != key) ==> r == -1
    ensures forall i ::
      (0 <= i < |chain| && chain[i].key == key && forall j :: 0 <= j < i ==> chain[j].key != key)
      ==> r == chain[i].value
  {
    if chain == [] then -1
    else if chain[0].key == key then chain[0].value
    else
      assert forall i :: 1 <= i < |chain| ==> chain[1..][i - 1] == chain[i];
      ChainLookup(chain[1..], key)
  }

  type Chains = seq<seq<Node>>

  function EmptyTable(): (t: Chains)
    ensures |t| == BUCKETS
  {
    seq(BUCKETS, _ => [])
  }

  /** Insert: a new node at the head of the key's chain. */
  function TableInsert(t: Chains, key: int, value: int): (t': Chains)
    requires |t| == BUCKETS && key >= 0
    ensures |t'| == BUCKETS
  {
    t[Hash(key) := [Node(key, value)] + t[Hash(key)]]
  }

  function TableLookup(t: Chains, key: int): int
    requires |t| == BUCKETS && key >= 0
  {
    ChainLookup(t[Hash(key)], key)
  }

  /** Nothing is found in a fresh table. */
  lemma LookupEmpty(key: int)
    requires key >= 0
    ensures TableLookup(EmptyTable(), key) == -1
  {
  }

  /** Duplicates are kept, and lookup sees the most recent insert. */
  lemma LookupAfterInsert(t: Chains, key: int, value: int)
    requires |t| == BUCKETS && key >= 0
    ensures TableLookup(TableInsert(t, key, value), key) == value
  {
  }

  /** Inserting one key leaves the lookup of every other key unchanged,
      also when both share a bucket. */
  lemma LookupOtherKey(t: Chains, key: int, value: int, other: int)
    requires |t| == BUCKETS && key >= 0 && other >= 0 && other != key
    ensures TableLookup(TableInsert(t, key, value), other) == TableLookup(t, other)
  {
    var c := t[Hash(other)];
    if Hash(other) == Hash(key) {
      assert ([Node(key, value)] + c)[1..] == c;
    }
  }

  /** Insert touches only the key's bucket. */
  lemma InsertOnlyItsBucket(t: Chains, key: int, value: int)
    requires |t| == BUCKETS && key >= 0
    ensures forall b :: 0 <= b < BUCKETS && b != Hash(key) ==> TableInsert(t, key, value)[b] == t[b]
  {
  }

  datatype LockScheme = GlobalLock | PerBucketLock

  class Table {
    const scheme: LockScheme
    const buckets: array<seq<Node>>

    ghost predicate Valid()
      reads this
    {
      buckets.Length == BUCKETS
    }

    ghost function Contents(): Chains
      reads this, buckets
    {
      buckets[..]
    }

    /** hash_global_init / hash_bucket_init: every chain empty. */
    constructor (scheme: LockScheme)
      ensures Valid() && fresh(buckets) && this.scheme == scheme
      ensures Contents() == EmptyTable()
    {
      this.scheme := scheme;
      var b := new seq<Node>[BUCKETS];
      for i := 0 to BUCKETS
        invariant forall j :: 0 <= j < i ==> b[j] == []
      {
        b[i] := [];
      }
      buckets := b;
    }

    /** hash_global_insert / hash_bucket_insert. */
    method Insert(key: int, value: int)
      requires Valid() && key >= 0
      modifies buckets
      ensures Contents() == TableInsert(old(Contents()), key, value)
    {
      var b := Hash(key);
      buckets[b] := [Node(key, value)] + buckets[b];
    }

    /** hash_global_lookup / hash_bucket_lookup: walks the chain from its
        head; changes nothing. */
    method Lookup(key: int) returns (v: int)
      requires Valid() && key >= 0
      ensures v == TableLookup(Contents(), key)
    {
      var chain := buckets[Hash(key)];
      var i := 0;
      while i < |chain|
        invariant 0 <= i <= |chain|
        invariant forall j :: 0 <= j < i ==> chain[j].key != key
      {
        if chain[i].key == key {
          return chain[i].value;
        }
        i := i + 1;
      }
      return -1;
    }
  }

  /** The table run_test builds: i mapped to i * 10 for i < n, inserted in
      increasing order. */
  function Populated(n: nat): (t: Chains)
    ensures |t| == BUCKETS
  {
    if n == 0 then EmptyTable() else TableInsert(Populated(n - 1), n - 1, (n - 1) * 10)
  }

  /** One more insert of run_test's loop: key n - 1 is now found with
      its value and every other key is found as before. */
  lemma PopulatedStep(n: nat, key: int)
    requires n > 0 && key >= 0
    ensures TableLookup(Populated(n), key)
         == if key == n - 1 then key * 10 else TableLookup(Populated(n - 1), key)
  {
    var prev, last := Populated(n - 1), n - 1;
    assert Populated(n) == TableInsert(prev, last, last * 10);
    if key == last {
      LookupAfterInsert(prev, last, last * 10);
    } else {
      LookupOtherKey(prev, last, last * 10, key);
    }
  }

  /** In the populated table, every key below n maps to ten times itself
      and every other non-negative key is absent. */
  lemma {:induction false} PopulatedLookup(n: nat, key: int)
    requires key >= 0
    ensures TableLookup(Populated(n), key) == if key < n then key * 10 else -1
  {
    if n == 0 {
      LookupEmpty(key);
    } else {
      PopulatedStep(n, key);
      if key != n - 1 {
        PopulatedLookup(n - 1, key);
      }
    }
  }

  /** The initialisation loop of run_test. */
  method Populate(t: Table, n: nat)
    requires t.Valid() && t.Contents() == EmptyTable()
    modifies t.buckets
    ensures t.Contents() == Populated(n)
  {
    for i := 0 to n
      invariant t.Contents() == Populated(i)
    {
      t.Insert(i, i * 10);
    }
  }

  /** One operation of a sequential history. */
  datatype Op = Insert(key: nat, value: int) | Lookup(key: nat)

  /** The lookup results of a history and the table it leaves. */
  function Replay(t: Chains, ops: seq<Op>): (r: (Chains, seq<int>))
    requires |t| == BUCKETS
    ensures |r.0| == BUCKETS
  {
    if ops == [] then (t, [])
    else
      var prev := Replay(t, ops[..|ops| - 1]);
      match ops[|ops| - 1]
      case Insert(k, v) => (TableInsert(prev.0, k, v), prev.1)
      case Lookup(k) => (prev.0, prev.1 + [TableLookup(prev.0, k)])
  }

  /** Runs a history against a table and collects the lookup results. */
  method Run(t: Table, ops: seq<Op>) returns (results: seq<int>)
    requires t.Valid()
    modifies t.buckets
    ensures (t.Contents(), results) == Replay(old(t.Contents()), ops)
  {
    results := [];
    ghost var start := t.Contents();
    for i := 0 to |ops|
      invariant (t.Contents(), results) == Replay(start, ops[..i])
    {
      assert ops[..i + 1][..i] == ops[..i];
      match ops[i]
      case Insert(k, v) =>
        t.Insert(k, v);
      case Lookup(k) =>
        var v := t.Lookup(k);
        results := results + [v];
    }
    assert ops[..|ops|] == ops;
  }
}
