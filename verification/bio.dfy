/**
 * Hashed buffer cache (kernel/bio.c).
 *
 * NBUF buffer slots are shared by NBUCKET bucket lists; a buffer for block
 * (dev, blockno) lives on the list of bucket blockno % NBUCKET. bget finds the
 * buffer on its bucket list or claims the first slot whose used flag is clear
 * and splices it at the head of the list; brelse drops a reference and, at
 * zero, unlinks the buffer and clears used. Each doubly-linked bucket list is
 * modelled as the sequence of slot indices it links, head first. The bucket
 * spinlocks and the atomic used flag only serialise these steps; each slot's
 * sleeplock is modelled by who holds it. The disk is a map from (dev, blockno)
 * to block contents.
 */
module Bio {
  import opened Wrappers

  const NBUF: nat := 30
  const NBUCKET: nat := 13
  const BSIZE: nat := 1024
  /** refcnt is a C uint: it wraps around modulo 2^32. */
  const U32: nat := 0x1_0000_0000

  type Block = seq<bv8>
  type Disk = map<(nat, nat), Block>

  /** A slot's sleeplock: free, or held by a process. */
  datatype Lock = Unlocked | HeldBy(pid: nat)

  /** One struct buf. */
  datatype Buf = Buf(dev: nat, blockno: nat, valid: bool, refcnt: nat, used: bool, lock: Lock, data: Block)

  /** The slots and the bucket lists, as a value. */
  datatype Cache = Cache(bufs: seq<Buf>, buckets: seq<seq<nat>>)

  /** What bget hands back: the slot with its sleeplock now held by the caller;
      the slot whose sleeplock the caller is now waiting for; or the
      "bget: no buffers" panic. */
  datatype Fetch = Got(slot: nat) | Sleeps(slot: nat) | NoBuffers

  /** hash_v: the bucket of a block; the device number plays no part. */
  function Hash(blockno: nat): (v: nat)
    ensures v < NBUCKET
  {
    blockno % NBUCKET
  }

  function Inc(r: nat): nat { (r + 1) % U32 }
  function Dec(r: nat): nat { (r + U32 - 1) % U32 }

  predicate HasKey(b: Buf, dev: nat, blockno: nat)
  {
    b.dev == dev && b.blockno == blockno
  }

  /** A block of zero bytes. */
  function Zeros(): Block
  {
    seq(BSIZE, _ => 0)
  }

  /** What virtio_disk_rw reads for a block; a block never written reads as zeros. */
  function DiskRead(disk: Disk, dev: nat, blockno: nat): Block
  {
    if (dev, blockno) in disk then disk[(dev, blockno)] else Zeros()
  }

  // ---------------------------------------------------------------------------
  // The cache invariant

  /** A doubly-linked list holds each node at most once. */
  predicate Simple(chain: seq<nat>)
  {
    forall i, j :: 0 <= i < j < |chain| ==> chain[i] != chain[j]
  }

  /** Linking a slot that is not on a list at its head keeps the list simple. */
  lemma PushSimple(s: nat, chain: seq<nat>)
    ensures Simple(chain) && s !in chain ==> Simple([s] + chain)
  {
    var r := [s] + chain;
    if Simple(chain) && s !in chain {
      forall i, j | 0 <= i < j < |r| ensures r[i] != r[j] {
        assert r[j] == chain[j - 1];
        if i > 0 {
          assert r[i] == chain[i - 1];
        }
      }
    }
  }

  /** The tail of a simple list is simple and does not hold its head. */
  lemma TailSimple(chain: seq<nat>)
    requires chain != []
    ensures Simple(chain) ==> Simple(chain[1..]) && chain[0] !in chain[1..]
  {
    var tail := chain[1..];
    if Simple(chain) {
      forall a, b | 0 <= a < b < |tail| ensures tail[a] != tail[b] {
        assert tail[a] == chain[a + 1] && tail[b] == chain[b + 1];
      }
      forall k | 0 <= k < |tail| ensures tail[k] != chain[0] {
        assert tail[k] == chain[k + 1];
      }
    }
  }

  /** The cache is well formed:
      - every slot on bucket list v is in use and its block hashes to v;
      - no slot is linked twice on a list;
      - no two slots on one list cache the same (dev, blockno);
      - every slot in use is on the list of its block's bucket;
      - a slot whose sleeplock is held is in use;
      - every refcnt fits in a uint. */
  ghost predicate Inv(c: Cache)
    ensures Inv(c) ==> (
      && |c.bufs| == NBUF && |c.buckets| == NBUCKET
      && (forall v :: 0 <= v < NBUCKET ==> Simple(c.buckets[v]))
      && forall s, v :: 0 <= s < NBUF && !c.bufs[s].used && 0 <= v < NBUCKET ==> s !in c.buckets[v])
  {
    && |c.bufs| == NBUF
    && |c.buckets| == NBUCKET
    && (forall v :: 0 <= v < NBUCKET ==> Simple(c.buckets[v]))
    && (forall v, s {:trigger s in c.buckets[v]} :: 0 <= v < NBUCKET && s in c.buckets[v] ==>
          s < NBUF && c.bufs[s].used && Hash(c.bufs[s].blockno) == v)
    && (forall v, s, t {:trigger s in c.buckets[v], t in c.buckets[v]} ::
          0 <= v < NBUCKET && s in c.buckets[v] && t in c.buckets[v] && s != t ==>
          !HasKey(c.bufs[s], c.bufs[t].dev, c.bufs[t].blockno))
    && (forall s :: 0 <= s < NBUF && c.bufs[s].used ==> s in c.buckets[Hash(c.bufs[s].blockno)])
    && (forall s :: 0 <= s < NBUF && c.bufs[s].lock.HeldBy? ==> c.bufs[s].used)
    && (forall s :: 0 <= s < NBUF ==> c.bufs[s].refcnt < U32)
  }

  /** No two slots in use cache the same block, across the whole cache. */
  lemma UniqueKeys(c: Cache, s: nat, t: nat)
    requires Inv(c) && s < NBUF && t < NBUF && s != t
    requires c.bufs[s].used && c.bufs[t].used
    ensures !HasKey(c.bufs[s], c.bufs[t].dev, c.bufs[t].blockno)
  {
    var v := Hash(c.bufs[s].blockno);
    assert s in c.buckets[v];
    if c.bufs[s].blockno == c.bufs[t].blockno {
      assert t in c.buckets[v];
    }
  }

  /** The initial cache after binit: every slot unused, every list empty. */
  function Empty(): (c: Cache)
    ensures Inv(c)
    ensures forall s :: 0 <= s < NBUF ==> !c.bufs[s].used
  {
    Cache(seq(NBUF, _ => Buf(0, 0, false, 0, false, Unlocked, Zeros())), seq(NBUCKET, _ => []))
  }

  // ---------------------------------------------------------------------------
  // Searches

  /** The first slot on chain caching (dev, blockno). */
  function Lookup(bufs: seq<Buf>, chain: seq<nat>, dev: nat, blockno: nat): (r: Option<nat>)
    requires forall s :: s in chain ==> s < |bufs|
    ensures r.Some? ==> r.value in chain && HasKey(bufs[r.value], dev, blockno)
    ensures r.None? ==> forall s :: s in chain ==> !HasKey(bufs[s], dev, blockno)
  {
    if chain == [] then None
    else if assert chain[0] in chain; HasKey(bufs[chain[0]], dev, blockno) then Some(chain[0])
    else
      assert forall s :: s in chain[1..] ==> s in chain;
      Lookup(bufs, chain[1..], dev, blockno)
  }

  /** The lowest slot at or above i whose used flag is clear. */
  function FirstUnused(bufs: seq<Buf>, i: nat): (r: Option<nat>)
    decreases |bufs| - i
    ensures r.Some? ==> i <= r.value < |bufs| && !bufs[r.value].used
    ensures r.Some? ==> forall j :: i <= j < r.value ==> bufs[j].used
    ensures r.None? ==> forall j :: i <= j < |bufs| ==> bufs[j].used
  {
    if i >= |bufs| then None
    else if !bufs[i].used then Some(i)
    else FirstUnused(bufs, i + 1)
  }

  /** The chain with slot s unlinked. */
  function Unlink(chain: seq<nat>, s: nat): (r: seq<nat>)
    ensures forall t :: t in r <==> t in chain && t != s
    ensures Simple(chain) ==> Simple(r)
  {
    if chain == [] then []
    else
      TailSimple(chain);
      if chain[0] == s then Unlink(chain[1..], s)
      else
        var rest := Unlink(chain[1..], s);
        PushSimple(chain[0], rest);
        [chain[0]] + rest
  }

  /** Unlinking a slot that is not on the list leaves the list as it was. */
  lemma {:induction false} UnlinkAbsent(chain: seq<nat>, s: nat)
    requires s !in chain
    ensures Unlink(chain, s) == chain
  {
    if chain != [] {
      assert chain[0] != s;
      UnlinkAbsent(chain[1..], s);
      assert [chain[0]] + chain[1..] == chain;
    }
  }

  /** On a simple list, unlinking the node at index i joins its neighbours:
      every other node keeps its order. */
  lemma {:induction false} UnlinkAt(chain: seq<nat>, s: nat, i: nat)
    requires Simple(chain) && i < |chain| && chain[i] == s
    ensures Unlink(chain, s) == chain[..i] + chain[i + 1..]
  {
    var tail := chain[1..];
    TailSimple(chain);
    if i == 0 {
      UnlinkAbsent(tail, s);
    } else {
      UnlinkAt(tail, s, i - 1);
      assert [chain[0]] + (tail[..i - 1] + tail[i..]) == chain[..i] + chain[i + 1..];
    }
  }

  // ---------------------------------------------------------------------------
  // The operations as functions of the cache

  /** bget by process pid: the cache afterwards and what the caller gets. */
  function Get(c: Cache, pid: nat, dev: nat, blockno: nat): (res: (Cache, Fetch))
    requires Inv(c)
    ensures var (c', r) := res;
      |c'.bufs| == NBUF &&
      (!r.NoBuffers? ==> r.slot < NBUF && HasKey(c'.bufs[r.slot], dev, blockno) && c'.bufs[r.slot].used)
  {
    var v := Hash(blockno);
    match Lookup(c.bufs, c.buckets[v], dev, blockno)
    case Some(s) =>
      var b := c.bufs[s];
      if b.lock == Unlocked then
        (Cache(c.bufs[s := b.(refcnt := Inc(b.refcnt), lock := HeldBy(pid))], c.buckets), Got(s))
      else
        (Cache(c.bufs[s := b.(refcnt := Inc(b.refcnt))], c.buckets), Sleeps(s))
    case None =>
      match FirstUnused(c.bufs, 0)
      case Some(s) =>
        var b := Buf(dev, blockno, false, 1, true, HeldBy(pid), c.bufs[s].data);
        (Cache(c.bufs[s := b], c.buckets[v := [s] + c.buckets[v]]), Got(s))
      case None => (c, NoBuffers)
  }

  /** bread by process pid: bget, then fill the buffer from disk unless it is valid. */
  function ReadSpec(c: Cache, disk: Disk, pid: nat, dev: nat, blockno: nat): (res: (Cache, Fetch))
    requires Inv(c)
    ensures res.1 == Get(c, pid, dev, blockno).1 && res.0.buckets == Get(c, pid, dev, blockno).0.buckets
    ensures |res.0.bufs| == NBUF
    ensures res.1.Got? ==> res.0.bufs[res.1.slot].valid && HasKey(res.0.bufs[res.1.slot], dev, blockno)
  {
    var (c1, r) := Get(c, pid, dev, blockno);
    if r.Got? && !c1.bufs[r.slot].valid then
      var b := c1.bufs[r.slot];
      (Cache(c1.bufs[r.slot := b.(valid := true, data := DiskRead(disk, dev, blockno))], c1.buckets), r)
    else
      (c1, r)
  }

  /** bwrite by process pid: panics (false) unless pid holds the slot's sleeplock;
      otherwise writes the slot's data to its block. */
  function WriteSpec(c: Cache, disk: Disk, pid: nat, s: nat): (res: (Disk, bool))
    requires Inv(c) && s < NBUF
    ensures res.1 <==> c.bufs[s].lock == HeldBy(pid)
    ensures !res.1 ==> res.0 == disk
    ensures res.1 ==> DiskRead(res.0, c.bufs[s].dev, c.bufs[s].blockno) == c.bufs[s].data
    ensures forall k :: k != (c.bufs[s].dev, c.bufs[s].blockno) ==> DiskRead(res.0, k.0, k.1) == DiskRead(disk, k.0, k.1)
  {
    var b := c.bufs[s];
    if b.lock != HeldBy(pid) then (disk, false)
    else (disk[(b.dev, b.blockno) := b.data], true)
  }

  /** brelse by process pid: panics (false) unless pid holds the slot's
      sleeplock; otherwise releases it and drops one reference, unlinking the
      slot and clearing used when none is left. */
  function Release(c: Cache, pid: nat, s: nat): (res: (Cache, bool))
    requires Inv(c) && s < NBUF
    ensures res.1 <==> c.bufs[s].lock == HeldBy(pid)
    ensures !res.1 ==> res.0 == c
    ensures res.1 ==> |res.0.bufs| == NBUF && res.0.bufs[s].lock == Unlocked
    ensures forall t :: 0 <= t < NBUF && t != s ==> res.0.bufs[t] == c.bufs[t]
    ensures Inv(res.0)
  {
    var b := c.bufs[s];
    if b.lock != HeldBy(pid) then (c, false)
    else
      var r := Dec(b.refcnt);
      if r == 0 then
        var v := Hash(b.blockno);
        UnlinkKeepsInv(c, s);
        (Cache(c.bufs[s := b.(lock := Unlocked, refcnt := 0, used := false)],
               c.buckets[v := Unlink(c.buckets[v], s)]), true)
      else
        TouchKeepsInv(c, s, b.(lock := Unlocked, refcnt := r));
        (Cache(c.bufs[s := b.(lock := Unlocked, refcnt := r)], c.buckets), true)
  }

  /** bpin (up == true) or bunpin: one more or one fewer reference, nothing else. */
  function Pin(c: Cache, s: nat, up: bool): (c': Cache)
    requires Inv(c) && s < NBUF
    ensures c'.buckets == c.buckets && |c'.bufs| == NBUF
    ensures c'.bufs[s] == c.bufs[s].(refcnt := c'.bufs[s].refcnt)
    ensures forall t :: 0 <= t < NBUF && t != s ==> c'.bufs[t] == c.bufs[t]
  {
    var b := c.bufs[s];
    Cache(c.bufs[s := b.(refcnt := if up then Inc(b.refcnt) else Dec(b.refcnt))], c.buckets)
  }

  // ---------------------------------------------------------------------------
  // Properties

  /** bget keeps the cache well formed. */
  lemma GetKeepsInv(c: Cache, pid: nat, dev: nat, blockno: nat)
    requires Inv(c)
    ensures Inv(Get(c, pid, dev, blockno).0)
  {
    var v := Hash(blockno);
    match Lookup(c.bufs, c.buckets[v], dev, blockno)
    case Some(s) =>
      var b := c.bufs[s];
      var l := if b.lock == Unlocked then HeldBy(pid) else b.lock;
      assert Get(c, pid, dev, blockno).0 == Cache(c.bufs[s := b.(refcnt := Inc(b.refcnt), lock := l)], c.buckets);
      TouchKeepsInv(c, s, b.(refcnt := Inc(b.refcnt), lock := l));
    case None =>
      match FirstUnused(c.bufs, 0)
      case Some(s) => ClaimKeepsInv(c, pid, dev, blockno, s);
      case None =>
  }

  /** brelse of the last reference: slot s, unlinked from its bucket list and
      marked unused with a free sleeplock, leaves the cache well formed. */
  lemma UnlinkKeepsInv(c: Cache, s: nat)
    requires Inv(c) && s < NBUF
    ensures var b := c.bufs[s];
      var v := Hash(b.blockno);
      Inv(Cache(c.bufs[s := b.(lock := Unlocked, refcnt := 0, used := false)],
                c.buckets[v := Unlink(c.buckets[v], s)]))
  {
    var b := c.bufs[s];
    var v := Hash(b.blockno);
    var c' := Cache(c.bufs[s := b.(lock := Unlocked, refcnt := 0, used := false)],
                    c.buckets[v := Unlink(c.buckets[v], s)]);
    forall w | 0 <= w < NBUCKET && w != v ensures s !in c'.buckets[w] {
    }
    forall t | 0 <= t < NBUF && c'.bufs[t].used ensures t in c'.buckets[Hash(c'.bufs[t].blockno)] {
      assert t != s && c.bufs[t].used;
    }
  }

  /** Changing a linked slot's refcnt, lock or contents, but not its key or
      used flag, keeps the invariant. */
  lemma TouchKeepsInv(c: Cache, s: nat, b: Buf)
    requires Inv(c) && s < NBUF && c.bufs[s].used
    requires b.dev == c.bufs[s].dev && b.blockno == c.bufs[s].blockno && b.used
    requires b.refcnt < U32
    ensures Inv(Cache(c.bufs[s := b], c.buckets))
  {
    var c' := Cache(c.bufs[s := b], c.buckets);
    forall v, x, y | 0 <= v < NBUCKET && x in c'.buckets[v] && y in c'.buckets[v] && x != y
      ensures !HasKey(c'.bufs[x], c'.bufs[y].dev, c'.bufs[y].blockno)
    {
      assert x in c.buckets[v] && y in c.buckets[v];
    }
  }

  /** A miss that claims slot s keeps the invariant. */
  lemma ClaimKeepsInv(c: Cache, pid: nat, dev: nat, blockno: nat, s: nat)
    requires Inv(c)
    requires Lookup(c.bufs, c.buckets[Hash(blockno)], dev, blockno).None?
    requires FirstUnused(c.bufs, 0) == Some(s)
    ensures Inv(Get(c, pid, dev, blockno).0)
  {
    var v := Hash(blockno);
    var b := Buf(dev, blockno, false, 1, true, HeldBy(pid), c.bufs[s].data);
    var c' := Cache(c.bufs[s := b], c.buckets[v := [s] + c.buckets[v]]);
    assert Get(c, pid, dev, blockno).0 == c';
    forall w | 0 <= w < NBUCKET ensures s !in c.buckets[w] {
    }
    PushSimple(s, c.buckets[v]);
    forall w, x | 0 <= w < NBUCKET && x in c'.buckets[w]
      ensures x < NBUF && c'.bufs[x].used && Hash(c'.bufs[x].blockno) == w
    {
      if x != s {
        assert x in c.buckets[w];
      }
    }
    forall w, x, y | 0 <= w < NBUCKET && x in c'.buckets[w] && y in c'.buckets[w] && x != y
      ensures !HasKey(c'.bufs[x], c'.bufs[y].dev, c'.bufs[y].blockno)
    {
      if x != s && y != s {
        assert x in c.buckets[w] && y in c.buckets[w];
      }
    }
    forall x | 0 <= x < NBUF && c'.bufs[x].used
      ensures x in c'.buckets[Hash(c'.bufs[x].blockno)]
    {
      if x != s {
        assert x in c.buckets[Hash(c.bufs[x].blockno)];
      }
    }
  }

  /** A hit returns the slot already caching the block, adds exactly one
      reference, and changes no list and no used flag. */
  lemma GetHit(c: Cache, pid: nat, dev: nat, blockno: nat)
    requires Inv(c)
    requires Lookup(c.bufs, c.buckets[Hash(blockno)], dev, blockno).Some?
    ensures var s := Lookup(c.bufs, c.buckets[Hash(blockno)], dev, blockno).value;
      var (c', r) := Get(c, pid, dev, blockno);
      && !r.NoBuffers? && r.slot == s
      && c'.buckets == c.buckets
      && (forall t :: 0 <= t < NBUF ==> c'.bufs[t].used == c.bufs[t].used)
      && (c.bufs[s].refcnt + 1 < U32 ==> c'.bufs[s].refcnt == c.bufs[s].refcnt + 1)
      && (forall t :: 0 <= t < NBUF && t != s ==> c'.bufs[t] == c.bufs[t])
      && (r.Got? <==> c.bufs[s].lock == Unlocked)
      && c'.bufs[s] == c.bufs[s].(refcnt := Inc(c.bufs[s].refcnt),
                                  lock := if r.Got? then HeldBy(pid) else c.bufs[s].lock)
  {
  }

  /** A miss claims the lowest unused slot for the block, invalid and with one
      reference, and makes it the head of the block's bucket list. */
  lemma GetMiss(c: Cache, pid: nat, dev: nat, blockno: nat)
    requires Inv(c)
    requires Lookup(c.bufs, c.buckets[Hash(blockno)], dev, blockno).None?
    requires FirstUnused(c.bufs, 0).Some?
    ensures var s := FirstUnused(c.bufs, 0).value;
      var v := Hash(blockno);
      var (c', r) := Get(c, pid, dev, blockno);
      && r == Got(s) && !c.bufs[s].used
      && c'.bufs[s].dev == dev && c'.bufs[s].blockno == blockno
      && c'.bufs[s].used && !c'.bufs[s].valid && c'.bufs[s].refcnt == 1
      && c'.bufs[s].lock == HeldBy(pid) && c'.bufs[s].data == c.bufs[s].data
      && c'.buckets[v] == [s] + c.buckets[v]
      && (forall w :: 0 <= w < NBUCKET && w != v ==> c'.buckets[w] == c.buckets[w])
      && (forall t :: 0 <= t < NBUF && t != s ==> c'.bufs[t] == c.bufs[t])
  {
  }

  /** bget panics exactly when the block is not cached and every slot is in use. */
  lemma GetPanicsIff(c: Cache, pid: nat, dev: nat, blockno: nat)
    requires Inv(c)
    ensures Get(c, pid, dev, blockno).1.NoBuffers? <==>
      (forall s :: 0 <= s < NBUF ==> !(c.bufs[s].used && HasKey(c.bufs[s], dev, blockno)))
      && (forall s :: 0 <= s < NBUF ==> c.bufs[s].used)
  {
    var v := Hash(blockno);
    if Lookup(c.bufs, c.buckets[v], dev, blockno).None? {
      forall s | 0 <= s < NBUF && c.bufs[s].used ensures !HasKey(c.bufs[s], dev, blockno) {
        assert s in c.buckets[Hash(c.bufs[s].blockno)];
      }
    }
  }

  /** bread returns a valid buffer for the block; its data comes from the disk
      exactly when the buffer was not already valid. */
  lemma ReadFills(c: Cache, disk: Disk, pid: nat, dev: nat, blockno: nat)
    requires Inv(c)
    ensures var (c1, r1) := Get(c, pid, dev, blockno);
      var (c', r) := ReadSpec(c, disk, pid, dev, blockno);
      && r == r1 && c'.buckets == c1.buckets
      && (r.Got? ==>
            && c'.bufs[r.slot].valid
            && HasKey(c'.bufs[r.slot], dev, blockno)
            && c'.bufs[r.slot].data ==
                 (if c1.bufs[r.slot].valid then c1.bufs[r.slot].data else DiskRead(disk, dev, blockno)))
      && (!r.Got? ==> c' == c1)
  {
  }

  /** bread keeps the cache well formed. */
  lemma ReadKeepsInv(c: Cache, disk: Disk, pid: nat, dev: nat, blockno: nat)
    requires Inv(c)
    ensures Inv(ReadSpec(c, disk, pid, dev, blockno).0)
  {
    GetKeepsInv(c, pid, dev, blockno);
  }

  /** brelse drops exactly one reference; at zero the slot leaves its list and
      becomes unused, otherwise no list changes. */
  lemma ReleaseEffect(c: Cache, pid: nat, s: nat)
    requires Inv(c) && s < NBUF && c.bufs[s].lock == HeldBy(pid)
    ensures var (c', ok) := Release(c, pid, s);
      var v := Hash(c.bufs[s].blockno);
      && ok && c'.bufs[s].lock == Unlocked
      && (c.bufs[s].refcnt > 0 ==> c'.bufs[s].refcnt == c.bufs[s].refcnt - 1)
      && (c.bufs[s].refcnt == 1 ==>
            !c'.bufs[s].used && s !in c'.buckets[v]
            && (forall t :: t in c'.buckets[v] <==> t in c.buckets[v] && t != s)
            && forall i :: 0 <= i < |c.buckets[v]| && c.buckets[v][i] == s ==>
                 c'.buckets[v] == c.buckets[v][..i] + c.buckets[v][i + 1..])
      && (c.bufs[s].refcnt != 1 ==> c'.buckets == c.buckets && c'.bufs[s].used)
      && (forall w :: 0 <= w < NBUCKET && w != v ==> c'.buckets[w] == c.buckets[w])
      && HasKey(c'.bufs[s], c.bufs[s].dev, c.bufs[s].blockno)
      && c'.bufs[s].valid == c.bufs[s].valid && c'.bufs[s].data == c.bufs[s].data
      && (forall t :: 0 <= t < NBUF && t != s ==> c'.bufs[t] == c.bufs[t])
  {
    var v := Hash(c.bufs[s].blockno);
    forall i | 0 <= i < |c.buckets[v]| && c.buckets[v][i] == s {
      UnlinkAt(c.buckets[v], s, i);
    }
  }

  /** bpin and bunpin keep the cache well formed and change only the refcnt. */
  lemma PinKeepsInv(c: Cache, s: nat, up: bool)
    requires Inv(c) && s < NBUF
    ensures Inv(Pin(c, s, up))
    ensures Pin(c, s, up).buckets == c.buckets
    ensures Pin(c, s, up).bufs[s] == c.bufs[s].(refcnt := Pin(c, s, up).bufs[s].refcnt)
    ensures c.bufs[s].refcnt + 1 < U32 && up ==> Pin(c, s, up).bufs[s].refcnt == c.bufs[s].refcnt + 1
    ensures c.bufs[s].refcnt > 0 && !up ==> Pin(c, s, up).bufs[s].refcnt == c.bufs[s].refcnt - 1
    ensures forall t :: 0 <= t < NBUF && t != s ==> Pin(c, s, up).bufs[t] == c.bufs[t]
  {
  }

  /** Round trip: write a held buffer back, release it, read the block again:
      the data read is the data written, whether the buffer stayed cached or
      was reclaimed and refilled from the disk. */
  lemma WriteReleaseRead(c: Cache, disk: Disk, pid: nat, s: nat)
    requires Inv(c) && s < NBUF && c.bufs[s].lock == HeldBy(pid)
    ensures var b := c.bufs[s];
      var (disk', wrote) := WriteSpec(c, disk, pid, s);
      var (c2, released) := Release(c, pid, s);
      var (c3, r) := ReadSpec(c2, disk', pid, b.dev, b.blockno);
      wrote && released && r.Got? && c3.bufs[r.slot].data == b.data
  {
    var b := c.bufs[s];
    var disk' := WriteSpec(c, disk, pid, s).0;
    var c2 := Release(c, pid, s).0;
    var v := Hash(b.blockno);
    assert DiskRead(disk', b.dev, b.blockno) == b.data;
    if Dec(b.refcnt) == 0 {
      // s was the only slot caching the block: the read misses and refills from disk
      assert !c2.bufs[s].used;
      assert FirstUnused(c2.bufs, 0).Some?;
      forall t | t in c2.buckets[v] ensures !HasKey(c2.bufs[t], b.dev, b.blockno) {
        assert t in c.buckets[v] && t != s;
      }
    } else {
      // s stays linked and unlocked: the read hits s itself
      assert s in c2.buckets[v];
      forall t | t in c2.buckets[v] && t != s ensures !HasKey(c2.bufs[t], b.dev, b.blockno) {
        assert t in c.buckets[v];
      }
      assert Lookup(c2.bufs, c2.buckets[v], b.dev, b.blockno) == Some(s);
    }
  }

  // ---------------------------------------------------------------------------
  // The cache itself

  lemma DropFirst(chain: seq<nat>, k: nat)
    requires k < |chain|
    ensures chain[k..][1..] == chain[k + 1..]
  {
  }

  class BCache {
    /** bcache.buf */
    const buf: array<Buf>
    /** bcache.bucket[v].head, as the slots its list links, head first */
    const bucket: array<seq<nat>>
    /** The disk behind virtio_disk_rw. */
    var disk: Disk

    function State(): Cache
      reads this, buf, bucket
    {
      Cache(buf[..], bucket[..])
    }

    ghost predicate Valid()
      reads this, buf, bucket
    {
      Inv(State())
    }

    /** binit: every slot unused with a free sleeplock, every bucket list empty. */
    constructor (d: Disk)
      ensures Valid() && State() == Empty() && disk == d
      ensures fresh(buf) && fresh(bucket)
    {
      buf := new Buf[NBUF](_ => Buf(0, 0, false, 0, false, Unlocked, Zeros()));
      bucket := new seq<nat>[NBUCKET](_ => []);
      disk := d;
      new;
      assert buf[..] == Empty().bufs;
      assert bucket[..] == Empty().buckets;
    }

    /** bget: look the block up on its bucket list; on a miss claim the first
        unused slot; panic (NoBuffers) when there is none. */
    method Bget(pid: nat, dev: nat, blockno: nat) returns (r: Fetch)
      requires Valid()
      modifies buf, bucket
      ensures Valid()
      ensures (State(), r) == Get(old(State()), pid, dev, blockno)
    {
      ghost var c0 := State();
      GetKeepsInv(c0, pid, dev, blockno);
      var v := Hash(blockno);
      var chain := bucket[v];
      var k := 0;
      while k < |chain|
        invariant 0 <= k <= |chain|
        invariant buf[..] == c0.bufs && bucket[..] == c0.buckets
        invariant forall s :: s in chain ==> s < buf.Length
        invariant forall s :: s in chain[k..] ==> s in chain
        invariant Lookup(c0.bufs, chain, dev, blockno) == Lookup(c0.bufs, chain[k..], dev, blockno)
      {
        DropFirst(chain, k);
        var s := chain[k];
        assert s in chain;
        if buf[s].dev == dev && buf[s].blockno == blockno {
          var b := buf[s];
          if b.lock == Unlocked {
            buf[s] := b.(refcnt := Inc(b.refcnt), lock := HeldBy(pid));
            r := Got(s);
          } else {
            buf[s] := b.(refcnt := Inc(b.refcnt));
            r := Sleeps(s);
          }
          assert (State(), r) == Get(c0, pid, dev, blockno);
          return;
        }
        k := k + 1;
      }
      var i := 0;
      while i < NBUF
        invariant 0 <= i <= NBUF
        invariant buf[..] == c0.bufs && bucket[..] == c0.buckets
        invariant FirstUnused(c0.bufs, 0) == FirstUnused(c0.bufs, i)
      {
        if !buf[i].used {
          buf[i] := Buf(dev, blockno, false, 1, true, HeldBy(pid), buf[i].data);
          bucket[v] := [i] + bucket[v];
          r := Got(i);
          assert (State(), r) == Get(c0, pid, dev, blockno);
          return;
        }
        i := i + 1;
      }
      return NoBuffers;
    }

    /** bread: bget, then read the block from disk unless the buffer is valid. */
    method Bread(pid: nat, dev: nat, blockno: nat) returns (r: Fetch)
      requires Valid()
      modifies buf, bucket
      ensures Valid() && disk == old(disk)
      ensures (State(), r) == ReadSpec(old(State()), disk, pid, dev, blockno)
    {
      ReadKeepsInv(State(), disk, pid, dev, blockno);
      r := Bget(pid, dev, blockno);
      if r.Got? && !buf[r.slot].valid {
        buf[r.slot] := buf[r.slot].(valid := true, data := DiskRead(disk, dev, blockno));
      }
    }

    /** bwrite: panics (ok == false) unless pid holds the buffer's sleeplock;
        otherwise writes its data to disk. */
    method Bwrite(pid: nat, s: nat) returns (ok: bool)
      requires Valid() && s < NBUF
      modifies this
      ensures Valid() && State() == old(State())
      ensures (disk, ok) == WriteSpec(old(State()), old(disk), pid, s)
    {
      if buf[s].lock != HeldBy(pid) {
        return false;
      }
      disk := disk[(buf[s].dev, buf[s].blockno) := buf[s].data];
      ok := true;
    }

    /** brelse: panics (ok == false) unless pid holds the buffer's sleeplock. */
    method Brelse(pid: nat, s: nat) returns (ok: bool)
      requires Valid() && s < NBUF
      modifies buf, bucket
      ensures Valid()
      ensures (State(), ok) == Release(old(State()), pid, s)
    {
      var b := buf[s];
      if b.lock != HeldBy(pid) {
        return false;
      }
      var r := Dec(b.refcnt);
      if r == 0 {
        var v := Hash(b.blockno);
        bucket[v] := Unlink(bucket[v], s);
        buf[s] := b.(lock := Unlocked, refcnt := 0, used := false);
      } else {
        buf[s] := b.(lock := Unlocked, refcnt := r);
      }
      ok := true;
    }

    /** bpin: one more reference. */
    method Bpin(s: nat)
      requires Valid() && s < NBUF
      modifies buf
      ensures Valid() && State() == Pin(old(State()), s, true)
    {
      PinKeepsInv(State(), s, true);
      buf[s] := buf[s].(refcnt := Inc(buf[s].refcnt));
    }

    /** bunpin: one fewer reference; never unlinks, even at zero. */
    method Bunpin(s: nat)
      requires Valid() && s < NBUF
      modifies buf
      ensures Valid() && State() == Pin(old(State()), s, false)
    {
      PinKeepsInv(State(), s, false);
      buf[s] := buf[s].(refcnt := Dec(buf[s].refcnt));
    }
  }
}
