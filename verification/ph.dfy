/**
 * The chained hash table of notxv6/ph.c.
 *
 * NBUCKET singly-linked chains of (key, value) entries; a key lives in chain
 * key % NBUCKET, with C's remainder. put overwrites the value of the first
 * entry holding the key, or pushes a new entry on the front of the chain;
 * get returns the first entry holding the key. A chain is modelled as the
 * sequence of its entries, head first. The per-bucket mutexes and the
 * benchmark threads are not modelled: operations run one at a time.
 */
module PH {
  import opened Wrappers

  const NBUCKET: int := 5

  datatype Entry = Entry(key: int, value: int)

  /** C's % on int: the quotient truncates toward zero, so the remainder
      takes the sign of the dividend. */
  function CRem(a: int, n: int): (r: int)
    requires n > 0
    ensures a >= 0 ==> r == a % n
    ensures a < 0 ==> -n < r <= 0 && r == a + ((-a) / n) * n
  {
    if a >= 0 then a % n else -((-a) % n)
  }

  /** The bucket index put and get compute: key % NBUCKET. */
  function Bucket(key: int): (b: int)
    ensures -NBUCKET < b < NBUCKET
    ensures b % NBUCKET == key % NBUCKET
  {
    CRem(key, NBUCKET)
  }

  /** table[Bucket(key)] is inside the table: the source indexes it unchecked. */
  predicate InTable(key: int)
  {
    0 <= Bucket(key) < NBUCKET
  }

  /** Non-negative keys (all the keys the benchmark draws from random()) land
      in bucket key mod NBUCKET; a negative key that is not a multiple of
      NBUCKET would index before the table. */
  lemma BucketRange(key: int)
    ensures key >= 0 ==> InTable(key) && Bucket(key) == key % NBUCKET
    ensures key < 0 && key % NBUCKET != 0 ==> Bucket(key) < 0
  {
  }

  // ---------------------------------------------------------------------------
  // The table as a value

  /** The first index at or after j whose entry holds key. */
  function FindFrom(chain: seq<Entry>, key: int, j: nat): (r: Option<nat>)
    decreases |chain| - j
    ensures r.Some? ==> j <= r.value < |chain| && chain[r.value].key == key
    ensures r.Some? ==> forall i :: j <= i < r.value ==> chain[i].key != key
    ensures r.None? ==> forall i :: j <= i < |chain| ==> chain[i].key != key
  {
    if j >= |chain| then None
    else if chain[j].key == key then Some(j)
    else FindFrom(chain, key, j + 1)
  }

  function Find(chain: seq<Entry>, key: int): Option<nat>
  {
    FindFrom(chain, key, 0)
  }

  /** put on one chain. */
  function PutChain(chain: seq<Entry>, key: int, value: int): (r: seq<Entry>)
    ensures |r| == if Find(chain, key).Some? then |chain| else |chain| + 1
    ensures forall e :: e in r ==> e in chain || e == Entry(key, value)
    ensures Entry(key, value) in r
  {
    match Find(chain, key)
    case Some(i) =>
      var r := chain[i := Entry(key, value)];
      assert r[i] == Entry(key, value);
      assert forall j :: 0 <= j < |r| && j != i ==> r[j] == chain[j];
      r
    case None => [Entry(key, value)] + chain
  }

  /** put(key, value) on the whole table. */
  function PutSpec(table: seq<seq<Entry>>, key: int, value: int): (r: seq<seq<Entry>>)
    requires |table| == NBUCKET && InTable(key)
    ensures |r| == NBUCKET && Entry(key, value) in r[Bucket(key)]
    ensures forall b :: 0 <= b < NBUCKET && b != Bucket(key) ==> r[b] == table[b]
  {
    table[Bucket(key) := PutChain(table[Bucket(key)], key, value)]
  }

  /** get(key): the first entry of the key's chain that holds it. */
  function GetSpec(table: seq<seq<Entry>>, key: int): (r: Option<Entry>)
    requires |table| == NBUCKET && InTable(key)
    ensures r.Some? ==> r.value.key == key && r.value in table[Bucket(key)]
    ensures r.None? <==> forall e :: e in table[Bucket(key)] ==> e.key != key
  {
    match Find(table[Bucket(key)], key)
    case Some(i) => Some(table[Bucket(key)][i])
    case None => None
  }

  /** No key appears twice in a chain. */
  predicate NoDup(chain: seq<Entry>)
  {
    forall i, j :: 0 <= i < j < |chain| ==> chain[i].key != chain[j].key
  }

  // ---------------------------------------------------------------------------
  // Properties

  /** put on a key already present rewrites that entry's value and adds no
      entry; put on a new key pushes (key, value) on the front, keeping the old
      chain as its tail. */
  lemma PutShape(chain: seq<Entry>, key: int, value: int)
    ensures var c' := PutChain(chain, key, value);
      match Find(chain, key)
      case Some(i) =>
        && |c'| == |chain| && c'[i] == Entry(key, value)
        && forall j :: 0 <= j < |chain| && j != i ==> c'[j] == chain[j]
      case None => c' == [Entry(key, value)] + chain
  {
  }

  /** Shifting a chain by one entry shifts where a key is found. */
  lemma {:induction false} FindCons(e: Entry, chain: seq<Entry>, key: int, j: nat)
    requires e.key != key
    ensures FindFrom([e] + chain, key, j + 1) ==
      match FindFrom(chain, key, j) case Some(i) => Some(i + 1) case None => None
    decreases |chain| - j
  {
    var c := [e] + chain;
    if j < |chain| {
      assert c[j + 1] == chain[j];
      if chain[j].key != key {
        FindCons(e, chain, key, j + 1);
      }
    }
  }

  /** The first entry with key k is unaffected by put of another key. */
  lemma {:induction false} PutKeepsOtherFind(chain: seq<Entry>, key: int, value: int, k: int)
    requires k != key
    ensures var c' := PutChain(chain, key, value);
      match Find(chain, k)
      case Some(i) => Find(c', k).Some? && c'[Find(c', k).value] == chain[i]
      case None => Find(c', k).None?
  {
    var c' := PutChain(chain, key, value);
    match Find(chain, key)
    case Some(i) =>
      FindSameKeys(chain, c', k, 0);
    case None =>
      FindCons(Entry(key, value), chain, k, 0);
      assert FindFrom(c', k, 0) == FindFrom(c', k, 1);
  }

  /** Two chains with the same keys find a key at the same index. */
  lemma {:induction false} FindSameKeys(a: seq<Entry>, b: seq<Entry>, k: int, j: nat)
    requires |a| == |b| && forall i :: 0 <= i < |a| ==> a[i].key == b[i].key
    ensures FindFrom(a, k, j) == FindFrom(b, k, j)
    decreases |a| - j
  {
    if j < |a| && a[j].key != k {
      FindSameKeys(a, b, k, j + 1);
    }
  }

  /** After put(k, v), get(k) returns an entry holding v. */
  lemma PutThenGet(table: seq<seq<Entry>>, key: int, value: int)
    requires |table| == NBUCKET && InTable(key)
    ensures GetSpec(PutSpec(table, key, value), key) == Some(Entry(key, value))
  {
    var chain := table[Bucket(key)];
    var c' := PutChain(chain, key, value);
    match Find(chain, key)
    case Some(i) =>
      FindSameKeys(chain, c', key, 0);
    case None =>
      assert c'[0].key == key;
  }

  /** put(k, v) changes what get returns for no other key, and leaves every
      other bucket as it was. */
  lemma {:induction false} PutOtherKeys(table: seq<seq<Entry>>, key: int, value: int, k: int)
    requires |table| == NBUCKET && InTable(key) && InTable(k) && k != key
    ensures GetSpec(PutSpec(table, key, value), k) == GetSpec(table, k)
    ensures forall b :: 0 <= b < NBUCKET && b != Bucket(key) ==> PutSpec(table, key, value)[b] == table[b]
  {
    if Bucket(k) == Bucket(key) {
      PutKeepsOtherFind(table[Bucket(key)], key, value, k);
    }
  }

  /** put never creates a second entry for a key. */
  lemma {:induction false} PutNoDup(chain: seq<Entry>, key: int, value: int)
    requires NoDup(chain)
    ensures NoDup(PutChain(chain, key, value))
  {
    var c' := PutChain(chain, key, value);
    match Find(chain, key)
    case Some(i) =>
      assert forall j :: 0 <= j < |chain| ==> c'[j].key == chain[j].key;
    case None =>
      forall i, j | 0 <= i < j < |c'| ensures c'[i].key != c'[j].key {
        if i > 0 {
          assert c'[i] == chain[i - 1] && c'[j] == chain[j - 1];
        } else {
          assert c'[j] == chain[j - 1];
        }
      }
  }

  // ---------------------------------------------------------------------------
  // The table itself

  class Table {
    /** table[i]: the chain of bucket i, head first. */
    const table: array<seq<Entry>>

    ghost predicate Valid()
      reads this
    {
      table.Length == NBUCKET
    }

    /** The zero-initialised global table: every chain empty. */
    constructor ()
      ensures Valid() && fresh(table) && table[..] == seq(NBUCKET, _ => [])
    {
      table := new seq<Entry>[NBUCKET](_ => []);
    }

    /** insert(key, value, &table[i], table[i]): a new entry at the head of chain i. */
    method Insert(key: int, value: int, i: nat)
      requires Valid() && i < NBUCKET
      modifies table
      ensures table[..] == old(table[..])[i := [Entry(key, value)] + old(table[i])]
    {
      table[i] := [Entry(key, value)] + table[i];
    }

    /** put(key, value). */
    method Put(key: int, value: int)
      requires Valid() && InTable(key)
      modifies table
      ensures table[..] == PutSpec(old(table[..]), key, value)
    {
      var i := Bucket(key);
      var chain := table[i];
      var e := 0;
      while e < |chain|
        invariant 0 <= e <= |chain|
        invariant Find(chain, key) == FindFrom(chain, key, e)
      {
        if chain[e].key == key {
          break;
        }
        e := e + 1;
      }
      if e < |chain| {
        // e->value = value
        table[i] := chain[e := chain[e].(value := value)];
      } else {
        Insert(key, value, i);
      }
    }

    /** get(key). */
    method Get(key: int) returns (r: Option<Entry>)
      requires Valid() && InTable(key)
      ensures r == GetSpec(table[..], key)
    {
      var chain := table[Bucket(key)];
      var e := 0;
      while e < |chain|
        invariant 0 <= e <= |chain|
        invariant Find(chain, key) == FindFrom(chain, key, e)
      {
        if chain[e].key == key {
          return Some(chain[e]);
        }
        e := e + 1;
      }
      return None;
    }
  }
}
