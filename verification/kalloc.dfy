/**
 * Per-CPU physical page allocator (kernel/kalloc.c).
 *
 * Every CPU owns a LIFO free list of 4096-byte pages. kfree pushes a page on
 * the calling CPU's list; kalloc pops the head of the local list and, when the
 * local list is empty, steals the head of the lowest-indexed non-empty list of
 * another CPU. A free list is modelled as the sequence of page addresses it
 * links, head first; physical memory as a map from page address to contents.
 * The spinlocks and push_off/pop_off only serialise these steps and are not
 * modelled; the calling CPU's id is a parameter.
 */
module KAlloc {
  import opened Wrappers

  const PGSIZE: nat := 4096
  const NCPU: nat := 8
  const KERNBASE: nat := 0x8000_0000
  const PHYSTOP: nat := KERNBASE + 128 * 1024 * 1024

  type Page = seq<bv8>

  /** The contents memset(pa, b, PGSIZE) leaves in a page. */
  function Fill(b: bv8): Page
  {
    seq(PGSIZE, _ => b)
  }

  /** PGROUNDUP: the first page boundary at or above a. */
  function PgRoundUp(a: nat): (r: nat)
    ensures r % PGSIZE == 0 && a <= r < a + PGSIZE
  {
    if a % PGSIZE == 0 then a else a - a % PGSIZE + PGSIZE
  }

  /** The test kfree applies before it accepts pa: page-aligned, not below
      the end of the kernel image, below PHYSTOP. */
  predicate PageOk(kernelEnd: nat, pa: nat)
  {
    pa % PGSIZE == 0 && kernelEnd <= pa && pa < PHYSTOP
  }

  /** Every page on every free list passes kfree's test. */
  predicate ListsOk(kernelEnd: nat, lists: seq<seq<nat>>)
  {
    forall i, p :: 0 <= i < |lists| && p in lists[i] ==> PageOk(kernelEnd, p)
  }

  /** The contents of the page at pa; a page never written reads as zeros. */
  function PageAt(mem: map<nat, Page>, pa: nat): Page
  {
    if pa in mem then mem[pa] else Fill(0)
  }

  // ---------------------------------------------------------------------------
  // The free lists as a value

  /** Every page on every free list, with multiplicity. */
  function Pool(lists: seq<seq<nat>>): multiset<nat>
  {
    if lists == [] then multiset{} else multiset(lists[0]) + Pool(lists[1..])
  }

  /** No page is on two lists, nor twice on one list. */
  ghost predicate Distinct(lists: seq<seq<nat>>)
  {
    forall p :: Pool(lists)[p] <= 1
  }

  /** Replacing one list changes the pool by exactly the difference of the two lists. */
  lemma {:induction false} PoolUpdate(lists: seq<seq<nat>>, i: nat, l: seq<nat>)
    requires i < |lists|
    ensures Pool(lists[i := l]) + multiset(lists[i]) == Pool(lists) + multiset(l)
  {
    var after := lists[i := l];
    assert Pool(after) == multiset(after[0]) + Pool(after[1..]);
    assert Pool(lists) == multiset(lists[0]) + Pool(lists[1..]);
    if i == 0 {
      assert after[1..] == lists[1..];
    } else {
      var rest := lists[1..];
      PoolUpdate(rest, i - 1, l);
      assert after[1..] == rest[i - 1 := l];
      assert rest[i - 1] == lists[i] && after[0] == lists[0];
      calc {
        Pool(after) + multiset(lists[i]);
        multiset(lists[0]) + (Pool(rest[i - 1 := l]) + multiset(rest[i - 1]));
        multiset(lists[0]) + (Pool(rest) + multiset(l));
        Pool(lists) + multiset(l);
      }
    }
  }

  /** Multiset union cancels. */
  lemma Cancel(a: multiset<nat>, b: multiset<nat>, c: multiset<nat>)
    requires a + c == b + c
    ensures a == b
  {
    forall x ensures a[x] == b[x] {
      assert (a + c)[x] == (b + c)[x];
    }
  }

  /** A page is in the pool exactly when some CPU's list holds it. */
  lemma {:induction false} InPool(lists: seq<seq<nat>>, p: nat)
    ensures p in Pool(lists) <==> exists i :: 0 <= i < |lists| && p in lists[i]
  {
    if lists != [] {
      InPool(lists[1..], p);
      if exists i :: 0 <= i < |lists| && p in lists[i] {
        var i :| 0 <= i < |lists| && p in lists[i];
        if i > 0 {
          assert p in lists[1..][i - 1];
        }
      }
      if p in Pool(lists[1..]) {
        var i :| 0 <= i < |lists[1..]| && p in lists[1..][i];
        assert p in lists[i + 1];
      }
    }
  }

  /** kfree's effect on the free lists: pa becomes the head of CPU id's list. */
  function FreeSpec(lists: seq<seq<nat>>, id: nat, pa: nat): (r: seq<seq<nat>>)
    requires id < |lists|
    ensures |r| == |lists| && r[id] != [] && r[id][0] == pa && r[id][1..] == lists[id]
    ensures forall j :: 0 <= j < |lists| && j != id ==> r[j] == lists[j]
  {
    lists[id := [pa] + lists[id]]
  }

  /** The steal loop's victim: the lowest index at or above i, other than id,
      whose list is non-empty. */
  function Victim(lists: seq<seq<nat>>, id: nat, i: nat): (v: Option<nat>)
    decreases |lists| - i
    ensures v.Some? ==> i <= v.value < |lists| && v.value != id && lists[v.value] != []
    ensures v.Some? ==> forall j :: i <= j < v.value && j != id ==> lists[j] == []
    ensures v.None? ==> forall j :: i <= j < |lists| && j != id ==> lists[j] == []
  {
    if i >= |lists| then None
    else if i != id && lists[i] != [] then Some(i)
    else Victim(lists, id, i + 1)
  }

  /** The list kalloc on CPU id takes its page from: its own when that is
      non-empty, otherwise the lowest-indexed non-empty list of another CPU. */
  function Donor(lists: seq<seq<nat>>, id: nat): (d: Option<nat>)
    requires id < |lists|
    ensures d.Some? ==> d.value < |lists| && lists[d.value] != []
    ensures lists[id] != [] ==> d == Some(id)
    ensures lists[id] == [] && d.Some? ==>
              d.value != id && forall j :: 0 <= j < d.value ==> lists[j] == []
    ensures d.None? <==> forall j :: 0 <= j < |lists| ==> lists[j] == []
  {
    if lists[id] != [] then Some(id) else Victim(lists, id, 0)
  }

  /** kalloc's effect: the page handed out, if any, and the free lists afterwards. */
  function AllocSpec(lists: seq<seq<nat>>, id: nat): (r: (Option<nat>, seq<seq<nat>>))
    requires id < |lists|
    ensures |r.1| == |lists|
    ensures r.0.None? ==> r.1 == lists
    ensures r.0.Some? ==> (
      && Donor(lists, id).Some?
      && [r.0.value] + r.1[Donor(lists, id).value] == lists[Donor(lists, id).value]
      && forall j :: 0 <= j < |lists| && j != Donor(lists, id).value ==> r.1[j] == lists[j])
  {
    match Donor(lists, id)
    case Some(d) => (Some(lists[d][0]), lists[d := lists[d][1..]])
    case None => (None, lists)
  }

  /** kfree on every page of ps in order, all on CPU id. */
  function FreeAll(lists: seq<seq<nat>>, id: nat, ps: seq<nat>): (r: seq<seq<nat>>)
    requires id < |lists|
    ensures |r| == |lists|
    ensures forall j :: 0 <= j < |lists| && j != id ==> r[j] == lists[j]
    ensures |r[id]| == |ps| + |lists[id]| && r[id][|ps|..] == lists[id]
    ensures forall k :: 0 <= k < |ps| ==> r[id][k] == ps[|ps| - 1 - k]
  {
    if ps == [] then lists
    else FreeSpec(FreeAll(lists, id, ps[..|ps| - 1]), id, ps[|ps| - 1])
  }

  /** kfree accepts every page of ps. */
  predicate AllOk(kernelEnd: nat, ps: seq<nat>)
  {
    forall q :: q in ps ==> PageOk(kernelEnd, q)
  }

  lemma FreeRangeFails(all: seq<nat>, done: seq<nat>, rest: seq<nat>, kernelEnd: nat, p: nat, stop: nat)
    requires rest == PagesFrom(p, stop) && all == done + rest && p + PGSIZE <= stop && !PageOk(kernelEnd, p)
    ensures !AllOk(kernelEnd, all)
  {
    assert all[|done|] == p;
  }

  lemma FreeRangeStep(lists: seq<seq<nat>>, id: nat, mem: map<nat, Page>, all: seq<nat>, done: seq<nat>,
                      rest: seq<nat>, kernelEnd: nat, p: nat, stop: nat)
    requires id < |lists| && AllOk(kernelEnd, done) && PageOk(kernelEnd, p)
    requires rest == PagesFrom(p, stop) && all == done + rest && p + PGSIZE <= stop
    ensures rest[1..] == PagesFrom(p + PGSIZE, stop) && all == (done + [p]) + rest[1..]
    ensures AllOk(kernelEnd, done + [p])
    ensures FreeAll(lists, id, done + [p]) == FreeSpec(FreeAll(lists, id, done), id, p)
    ensures FillOnes(mem, done + [p]) == FillOnes(mem, done)[p := Fill(1)]
  {
    FreeAllSnoc(lists, id, done, p);
    assert (done + [p])[..|done|] == done;
  }

  /** Memory after kfree has filled each page of ps with 1s, in order. */
  ghost function FillOnes(mem: map<nat, Page>, ps: seq<nat>): (r: map<nat, Page>)
    ensures forall q :: q in ps ==> q in r && r[q] == Fill(1)
    ensures forall q :: q !in ps ==> PageAt(r, q) == PageAt(mem, q)
  {
    if ps == [] then mem else FillOnes(mem, ps[..|ps| - 1])[ps[|ps| - 1] := Fill(1)]
  }

  /** Freeing one more page extends FreeAll by one kfree. */
  lemma FreeAllSnoc(lists: seq<seq<nat>>, id: nat, ps: seq<nat>, p: nat)
    requires id < |lists|
    ensures FreeAll(lists, id, ps + [p]) == FreeSpec(FreeAll(lists, id, ps), id, p)
  {
    assert (ps + [p])[..|ps|] == ps;
  }

  /** The pages freerange visits from p: p, p + PGSIZE, ... while a whole page fits below stop. */
  function PagesFrom(p: nat, stop: nat): (r: seq<nat>)
    decreases stop - p
    ensures r == [] <==> stop < p + PGSIZE
    ensures forall q :: q in r ==> p <= q && q + PGSIZE <= stop
  {
    if p + PGSIZE <= stop then [p] + PagesFrom(p + PGSIZE, stop) else []
  }

  // ---------------------------------------------------------------------------
  // Properties of the specification

  /** kalloc either fails and changes nothing, or hands out one page that was
      free and removes exactly that page from the pool. */
  lemma AllocConserves(lists: seq<seq<nat>>, id: nat)
    requires id < |lists|
    ensures var (page, after) := AllocSpec(lists, id);
      match page
      case Some(p) =>
        && p in Pool(lists)
        && Pool(after) + multiset{p} == Pool(lists)
        && |Pool(after)| == |Pool(lists)| - 1
      case None => after == lists
  {
    match Donor(lists, id)
    case Some(d) =>
      var l := lists[d];
      var after := lists[d := l[1..]];
      assert AllocSpec(lists, id) == (Some(l[0]), after);
      assert l == [l[0]] + l[1..];
      assert multiset(l) == multiset{l[0]} + multiset(l[1..]);
      PoolUpdate(lists, d, l[1..]);
      assert (Pool(after) + multiset{l[0]}) + multiset(l[1..]) == Pool(lists) + multiset(l[1..]);
      Cancel(Pool(after) + multiset{l[0]}, Pool(lists), multiset(l[1..]));
    case None =>
  }

  /** kalloc pops the head of the local list when it has one; otherwise it
      pops the head of the lowest-indexed non-empty list of another CPU. */
  lemma AllocTakesHead(lists: seq<seq<nat>>, id: nat, j: nat)
    requires id < |lists| && j < |lists|
    ensures lists[id] != [] ==> AllocSpec(lists, id) == (Some(lists[id][0]), lists[id := lists[id][1..]])
    ensures lists[id] == [] && j != id && lists[j] != [] &&
            (forall i :: 0 <= i < j && i != id ==> lists[i] == []) ==>
              AllocSpec(lists, id) == (Some(lists[j][0]), lists[j := lists[j][1..]])
  {
  }

  /** kalloc returns 0 (no page) exactly when every CPU's free list is empty. */
  lemma AllocFailsIffAllEmpty(lists: seq<seq<nat>>, id: nat)
    requires id < |lists|
    ensures AllocSpec(lists, id).0.None? <==> forall j :: 0 <= j < |lists| ==> lists[j] == []
  {
  }

  /** kalloc changes only the donor list, and only by removing its head. */
  lemma AllocTouchesOnlyDonor(lists: seq<seq<nat>>, id: nat, j: nat)
    requires id < |lists| && j < |lists|
    requires Donor(lists, id) != Some(j)
    ensures AllocSpec(lists, id).1[j] == lists[j]
  {
  }

  /** kfree adds exactly pa to the pool and leaves every other CPU's list alone. */
  lemma FreeConserves(lists: seq<seq<nat>>, id: nat, pa: nat)
    requires id < |lists|
    ensures Pool(FreeSpec(lists, id, pa)) == Pool(lists) + multiset{pa}
    ensures |Pool(FreeSpec(lists, id, pa))| == |Pool(lists)| + 1
    ensures forall j :: 0 <= j < |lists| && j != id ==> FreeSpec(lists, id, pa)[j] == lists[j]
  {
    var after := FreeSpec(lists, id, pa);
    PoolUpdate(lists, id, [pa] + lists[id]);
    assert multiset([pa] + lists[id]) == multiset{pa} + multiset(lists[id]);
    assert Pool(after) + multiset(lists[id]) == (Pool(lists) + multiset{pa}) + multiset(lists[id]);
    Cancel(Pool(after), Pool(lists) + multiset{pa}, multiset(lists[id]));
  }

  /** No page is duplicated by kalloc, and the page it returns is on no list afterwards. */
  lemma AllocKeepsDistinct(lists: seq<seq<nat>>, id: nat)
    requires id < |lists| && Distinct(lists)
    ensures Distinct(AllocSpec(lists, id).1)
    ensures AllocSpec(lists, id).0.Some? ==>
              forall j :: 0 <= j < |lists| ==> AllocSpec(lists, id).0.value !in AllocSpec(lists, id).1[j]
  {
    AllocConserves(lists, id);
    var (page, after) := AllocSpec(lists, id);
    if page.Some? {
      var p := page.value;
      assert Pool(after) + multiset{p} == Pool(lists);
      forall x ensures Pool(after)[x] <= 1 {
        assert (Pool(after) + multiset{p})[x] == Pool(lists)[x];
      }
      assert Pool(after)[p] == 0 by {
        assert (Pool(after) + multiset{p})[p] == Pool(lists)[p];
      }
      forall j | 0 <= j < |lists| ensures p !in after[j] {
        InPool(after, p);
      }
    }
  }

  /** kfree keeps the lists free of duplicates exactly when pa was not already free:
      kfree does not detect a double free. */
  lemma FreeDistinctIff(lists: seq<seq<nat>>, id: nat, pa: nat)
    requires id < |lists|
    ensures Distinct(FreeSpec(lists, id, pa)) <==> Distinct(lists) && pa !in Pool(lists)
  {
    FreeConserves(lists, id, pa);
    var after := FreeSpec(lists, id, pa);
    if pa in Pool(lists) {
      assert Pool(after)[pa] >= 2;
    }
    if Distinct(after) {
      forall p ensures Pool(lists)[p] <= 1 {
        assert Pool(after)[p] >= Pool(lists)[p];
      }
    }
  }

  lemma LastSplit(ps: seq<nat>)
    requires ps != []
    ensures ps == ps[..|ps| - 1] + [ps[|ps| - 1]]
  {
  }

  /** Adding the pages of init, then last, adds the pages of init + [last]. */
  lemma AddSnoc(after: multiset<nat>, before: multiset<nat>, m: multiset<nat>, init: seq<nat>, last: nat)
    requires after == before + multiset{last} && before == m + multiset(init)
    ensures after == m + multiset(init + [last])
  {
    assert multiset(init + [last]) == multiset(init) + multiset{last};
  }

  /** freerange on CPU id adds exactly its pages to the pool and touches no other list. */
  lemma {:induction false} FreeAllConserves(lists: seq<seq<nat>>, id: nat, ps: seq<nat>)
    requires id < |lists|
    ensures Pool(FreeAll(lists, id, ps)) == Pool(lists) + multiset(ps)
    ensures forall j :: 0 <= j < |lists| && j != id ==> FreeAll(lists, id, ps)[j] == lists[j]
  {
    if ps != [] {
      var init, last := ps[..|ps| - 1], ps[|ps| - 1];
      var before := FreeAll(lists, id, init);
      FreeAllConserves(lists, id, init);
      FreeConserves(before, id, last);
      LastSplit(ps);
      AddSnoc(Pool(FreeAll(lists, id, ps)), Pool(before), Pool(lists), init, last);
    }
  }

  /** freerange visits exactly the pages p + k*PGSIZE that fit below stop,
      in increasing order, each page-aligned when p is. */
  lemma {:induction false} PagesFromAre(p: nat, stop: nat)
    decreases stop - p
    ensures var ps := PagesFrom(p, stop);
      && (forall k :: 0 <= k < |ps| ==> ps[k] == p + k * PGSIZE && ps[k] + PGSIZE <= stop)
      && p + |ps| * PGSIZE + PGSIZE > stop
      && (forall q :: q in ps ==> p <= q && (p % PGSIZE == 0 ==> q % PGSIZE == 0))
  {
    if p + PGSIZE <= stop {
      PagesFromAre(p + PGSIZE, stop);
      var ps := PagesFrom(p, stop);
      var rest := PagesFrom(p + PGSIZE, stop);
      assert ps == [p] + rest;
      forall k | 0 <= k < |ps| ensures ps[k] == p + k * PGSIZE && ps[k] + PGSIZE <= stop {
        if k > 0 {
          assert ps[k] == rest[k - 1];
        }
      }
    }
  }

  // ---------------------------------------------------------------------------
  // The allocator itself

  class Allocator {
    /** The first address after the kernel image (the linker symbol end). */
    const end: nat
    /** kmem[i].freelist, as the sequence of pages it links. */
    const kmem: array<seq<nat>>
    /** Physical memory: the contents of every page written so far. */
    var mem: map<nat, Page>

    ghost predicate Valid()
      reads this, kmem
    {
      && kmem.Length == NCPU
      && 0 < end
      && ListsOk(end, kmem[..])
    }

    function Lists(): seq<seq<nat>>
      reads this, kmem
    {
      kmem[..]
    }

    function Read(pa: nat): Page
      reads this
    {
      PageAt(mem, pa)
    }

    /** The statically zeroed allocator: every free list empty. */
    constructor (kernelEnd: nat)
      requires 0 < kernelEnd
      ensures Valid() && fresh(kmem)
      ensures end == kernelEnd && mem == map[]
      ensures Lists() == seq(NCPU, _ => [])
    {
      end := kernelEnd;
      kmem := new seq<nat>[NCPU](_ => []);
      mem := map[];
    }

    /** kinit: CPU id frees every whole page between the end of the kernel and PHYSTOP. */
    method KInit(id: nat)
      requires Valid() && id < NCPU
      modifies this, kmem
      ensures Valid()
      ensures Lists() == FreeAll(old(Lists()), id, PagesFrom(PgRoundUp(end), PHYSTOP))
      ensures forall q :: q in PagesFrom(PgRoundUp(end), PHYSTOP) ==> Read(q) == Fill(1)
      ensures forall q :: q !in PagesFrom(PgRoundUp(end), PHYSTOP) ==> Read(q) == old(Read(q))
    {
      var p0 := PgRoundUp(end);
      PagesFromAre(p0, PHYSTOP);
      var ok := FreeRange(id, end, PHYSTOP);
      assert ok;
    }

    /** kfree: panics (ok == false, nothing changed) unless pa passes PageOk;
        otherwise fills the page with 1s and pushes it on CPU id's list. */
    method Free(id: nat, pa: nat) returns (ok: bool)
      requires Valid() && id < NCPU
      modifies this, kmem
      ensures Valid()
      ensures ok == PageOk(end, pa)
      ensures ok ==> Lists() == FreeSpec(old(Lists()), id, pa) && mem == old(mem)[pa := Fill(1)]
      ensures !ok ==> Lists() == old(Lists()) && mem == old(mem)
    {
      if pa % PGSIZE != 0 || pa < end || pa >= PHYSTOP {
        return false;
      }
      mem := mem[pa := Fill(1)];
      kmem[id] := [pa] + kmem[id];
      ok := true;
    }

    /** kalloc: returns the page AllocSpec picks, filled with 5s, or 0 when
        every free list is empty. */
    method Kalloc(id: nat) returns (pa: nat)
      requires Valid() && id < NCPU
      modifies this, kmem
      ensures Valid()
      ensures Lists() == AllocSpec(old(Lists()), id).1
      ensures pa == match AllocSpec(old(Lists()), id).0 case Some(p) => p case None => 0
      ensures pa == 0 <==> AllocSpec(old(Lists()), id).0.None?
      ensures pa != 0 ==> PageOk(end, pa) && mem == old(mem)[pa := Fill(5)]
      ensures pa == 0 ==> mem == old(mem)
    {
      var r: Option<nat> := None;
      var local := kmem[id];
      if local != [] {
        assert PageOk(end, local[0]);
        r := Some(local[0]);
        kmem[id] := local[1..];
      } else {
        var i := 0;
        while i < NCPU
          invariant 0 <= i <= NCPU
          invariant r.None? && kmem[..] == old(kmem[..])
          invariant Victim(old(kmem[..]), id, 0) == Victim(old(kmem[..]), id, i)
        {
          if i != id {
            var head := kmem[i];
            if head != [] {
              assert PageOk(end, head[0]);
              r := Some(head[0]);
              kmem[i] := head[1..];
              break;
            }
          }
          i := i + 1;
        }
      }
      if r.Some? {
        pa := r.value;
        mem := mem[pa := Fill(5)];
      } else {
        pa := 0;
      }
    }

    /** freerange: kfree every page from PGROUNDUP(paStart) while a whole page
        fits below paEnd; stops (ok == false) at the first page kfree rejects. */
    method FreeRange(id: nat, paStart: nat, paEnd: nat) returns (ok: bool)
      requires Valid() && id < NCPU
      modifies this, kmem
      ensures Valid()
      ensures ok == forall q :: q in PagesFrom(PgRoundUp(paStart), paEnd) ==> PageOk(end, q)
      ensures ok ==> Lists() == FreeAll(old(Lists()), id, PagesFrom(PgRoundUp(paStart), paEnd))
      ensures ok ==> forall q :: q in PagesFrom(PgRoundUp(paStart), paEnd) ==> q in mem && mem[q] == Fill(1)
      ensures ok ==> forall q :: q !in PagesFrom(PgRoundUp(paStart), paEnd) ==> PageAt(mem, q) == PageAt(old(mem), q)
    {
      var p := PgRoundUp(paStart);
      ghost var all := PagesFrom(p, paEnd);
      ghost var done: seq<nat> := [];
      ghost var rest := all;
      ghost var mem0 := mem;
      while p + PGSIZE <= paEnd
        invariant Valid()
        invariant rest == PagesFrom(p, paEnd) && all == done + rest
        invariant AllOk(end, done)
        invariant Lists() == FreeAll(old(Lists()), id, done)
        invariant mem == FillOnes(mem0, done)
        decreases paEnd - p
      {
        var freed := Free(id, p);
        if !freed {
          FreeRangeFails(all, done, rest, end, p, paEnd);
          return false;
        }
        FreeRangeStep(old(Lists()), id, mem0, all, done, rest, end, p, paEnd);
        done := done + [p];
        rest := rest[1..];
        p := p + PGSIZE;
      }
      assert all == done;
      return true;
    }
  }
}
