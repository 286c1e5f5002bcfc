/** The two concurrent lists of homework7/list.c, in their sequential
    semantics: a list under one lock, and a hand-over-hand list whose head
    is a sentinel node. A list is the sequence of its node keys from the
    head. */
module KeyList {

  const SENTINEL: int := -1

  /** Keys 0, 1, ..., n - 1. */
  function Ascending(n: nat): (s: seq<int>)
    ensures |s| == n && forall i :: 0 <= i < n ==> s[i] == i
  {
    seq(n, i => i)
  }

  class KeyList {
    var nodes: seq<int>

    /** list_init: no node. */
    constructor ListInit()
      ensures nodes == []
    {
      nodes := [];
    }

    /** hoh_init: just the sentinel, with no successor. */
    constructor HohInit()
      ensures nodes == [SENTINEL]
    {
      nodes := [SENTINEL];
    }

    /** list_lookup: 1 exactly when some node holds the key; changes
        nothing. */
    method ListLookup(key: int) returns (found: int)
      ensures found == if key in nodes then 1 else 0
    {
      var i := 0;
      while i < |nodes|
        invariant 0 <= i <= |nodes|
        invariant key !in nodes[..i]
      {
        if nodes[i] == key {
          return 1;
        }
        assert nodes[..i + 1] == nodes[..i] + [nodes[i]];
        i := i + 1;
      }
      assert nodes[..i] == nodes;
      return 0;
    }

    /** hoh_lookup: steps to each successor of the head in turn and
        compares it, so the head node itself is never compared; changes
        nothing. */
    method HohLookup(key: int) returns (found: int)
      requires nodes != []
      ensures found == if key in nodes[1..] then 1 else 0
    {
      var curr := 0;
      while curr + 1 < |nodes|
        invariant 0 <= curr < |nodes|
        invariant key !in nodes[1..curr + 1]
      {
        curr := curr + 1;
        if nodes[curr] == key {
          return 1;
        }
        assert nodes[1..curr + 1] == nodes[1..curr] + [nodes[curr]];
      }
      assert nodes[1..curr + 1] == nodes[1..];
      return 0;
    }

    /** One step of the population loop in run_test: a new node in front
        of the current head. */
    method Prepend(key: int)
      modifies this
      ensures nodes == [key] + old(nodes)
    {
      nodes := [key] + nodes;
    }

    /** The same step placing the new node right after the sentinel. */
    method InsertAfterHead(key: int)
      requires nodes != []
      modifies this
      ensures nodes == [old(nodes)[0], key] + old(nodes)[1..]
    {
      nodes := [nodes[0], key] + nodes[1..];
    }
  }

  /** run_test's initialisation as written: hoh_init or list_init, then
      keys n - 1 down to 0 each prepended at the head. In hand-over-hand
      mode the sentinel ends up last. */
  method PopulateAsWritten(useHoh: bool, n: nat) returns (list: KeyList)
    ensures list.nodes == if useHoh then Ascending(n) + [SENTINEL] else Ascending(n)
  {
    if useHoh {
      list := new KeyList.HohInit();
    } else {
      list := new KeyList.ListInit();
    }
    ghost var tail := list.nodes;
    var i := n;
    while i > 0
      invariant 0 <= i <= n
      invariant list.nodes == Ascending(n)[i..] + tail
    {
      i := i - 1;
      list.Prepend(i);
      assert Ascending(n)[i..] == [i] + Ascending(n)[i + 1..];
    }
  }

  /** The hand-over-hand initialisation with keys inserted after the
      sentinel, so the sentinel stays at the head. */
  method PopulateCorrected(n: nat) returns (list: KeyList)
    ensures list.nodes == [SENTINEL] + Ascending(n)
  {
    list := new KeyList.HohInit();
    var i := n;
    while i > 0
      invariant 0 <= i <= n
      invariant list.nodes == [SENTINEL] + Ascending(n)[i..]
    {
      i := i - 1;
      list.InsertAfterHead(i);
      assert Ascending(n)[i..] == [i] + Ascending(n)[i + 1..];
    }
  }

  /** With one lock, the populated list holds exactly the keys below n. */
  lemma ListFindsPopulated(n: nat, key: int)
    ensures key in Ascending(n) <==> 0 <= key < n
  {
    if 0 <= key < n {
      assert Ascending(n)[key] == key;
    }
  }

  /** As written, the hand-over-hand lookup never sees key 0, which is at
      the head, and does see the sentinel's -1. */
  lemma HohAsWrittenMissesFirstKey(n: nat)
    requires n >= 1
    ensures 0 !in (Ascending(n) + [SENTINEL])[1..]
    ensures SENTINEL in (Ascending(n) + [SENTINEL])[1..]
  {
    var l := Ascending(n) + [SENTINEL];
    assert l[|l| - 1] == SENTINEL;
    assert l[1..][|l| - 2] == SENTINEL;
  }

  /** With the sentinel kept at the head, the hand-over-hand lookup finds
      exactly the keys below n. */
  lemma HohCorrectedFindsPopulated(n: nat, key: int)
    ensures key in ([SENTINEL] + Ascending(n))[1..] <==> 0 <= key < n
  {
    assert ([SENTINEL] + Ascending(n))[1..] == Ascending(n);
    ListFindsPopulated(n, key);
  }

  /** The hand-over-hand run_test as written: after populating keys below
      n, looking up 0 reports absent and looking up -1 reports present. */
  method HohRunAsWritten(n: nat) returns (zeroFound: int, sentinelFound: int)
    requires n >= 1
    ensures zeroFound == 0 && sentinelFound == 1
  {
    var list := PopulateAsWritten(true, n);
    HohAsWrittenMissesFirstKey(n);
    zeroFound := list.HohLookup(0);
    sentinelFound := list.HohLookup(SENTINEL);
  }

  /** The corrected hand-over-hand run: a lookup reports exactly the keys
      below n. */
  method HohRunCorrected(n: nat, key: int) returns (found: int)
    ensures found == 1 <==> 0 <= key < n
    ensures found == 0 || found == 1
  {
    var list := PopulateCorrected(n);
    HohCorrectedFindsPopulated(n, key);
    found := list.HohLookup(key);
  }
}
