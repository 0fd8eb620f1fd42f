/** The allocator of `src/mem.c`: a list of free and a list of used blocks, near-fit reuse, and
    carving from the tail of the largest entry. Five repairs, listed in README.md, are made. */
module Allocator {

  const HEADER := 16

  // ----- the managed region -----

  // The payload of a block, or the uncarved head region.
  datatype Extent = Extent(address: int, size: nat)

  // The region from `base` to `limit` in address order: first the head region, which has no
  // header inside, then blocks whose headers lie directly before their payloads.
  ghost predicate Tiled(es: seq<Extent>, base: int, limit: int) {
    |es| >= 1 && es[0].address == base && End(es, |es| - 1) == limit &&
    forall i :: 1 <= i < |es| ==> Start(es, i) == End(es, i - 1)
  }

  function Start(es: seq<Extent>, i: nat): int
    requires i < |es|
  {
    if i == 0 then es[0].address else es[i].address - HEADER
  }

  function End(es: seq<Extent>, i: nat): int
    requires i < |es|
  {
    es[i].address + es[i].size
  }

  function Sum(es: seq<Extent>): nat {
    if es == [] then 0 else Sum(es[..|es| - 1]) + es[|es| - 1].size
  }

  // Conservation: the sizes and one header for every block but the head region fill the region.
  lemma {:induction false} TotalSize(es: seq<Extent>, base: int, limit: int)
    requires Tiled(es, base, limit)
    ensures Sum(es) + HEADER * (|es| - 1) == limit - base
  {
    var front := es[..|es| - 1];
    if |es| > 1 {
      assert forall i :: 0 <= i < |front| ==> Start(front, i) == Start(es, i) && End(front, i) == End(es, i);
      assert Start(es, |es| - 1) == End(es, |es| - 2);
      TotalSize(front, base, End(es, |es| - 2));
    } else {
      assert Sum(front) == 0;
    }
  }

  // All of it lies in the region.
  lemma Bounds(es: seq<Extent>, base: int, limit: int, i: nat)
    requires Tiled(es, base, limit) && i < |es|
    ensures base <= Start(es, i) <= End(es, i) <= limit
  {
    Below(es, base, limit, i);
    Above(es, base, limit, i);
  }

  lemma {:induction false} Below(es: seq<Extent>, base: int, limit: int, i: nat)
    requires Tiled(es, base, limit) && i < |es|
    ensures base <= Start(es, i)
  {
    if i > 0 {
      assert Start(es, i) == End(es, i - 1);
      Below(es, base, limit, i - 1);
    }
  }

  lemma {:induction false} Above(es: seq<Extent>, base: int, limit: int, i: nat)
    requires Tiled(es, base, limit) && i < |es|
    ensures End(es, i) <= limit
    decreases |es| - i
  {
    if i + 1 < |es| {
      assert Start(es, i + 1) == End(es, i);
      Above(es, base, limit, i + 1);
    }
  }

  // Blocks do not overlap, headers included.
  lemma {:induction false} Apart(es: seq<Extent>, base: int, limit: int, i: nat, j: nat)
    requires Tiled(es, base, limit) && i < j < |es|
    ensures End(es, i) <= Start(es, j)
    decreases j
  {
    assert Start(es, j) == End(es, j - 1);
    if i < j - 1 {
      Apart(es, base, limit, i, j - 1);
    }
  }

  // Every address of the region lies in exactly one of them.
  lemma {:induction false} Covered(es: seq<Extent>, base: int, limit: int, a: int) returns (i: nat)
    requires Tiled(es, base, limit) && base <= a < limit
    ensures i < |es| && Start(es, i) <= a < End(es, i)
    ensures forall j :: 0 <= j < |es| && Start(es, j) <= a < End(es, j) ==> j == i
  {
    i := 0;
    while End(es, i) <= a
      invariant i < |es| && Start(es, i) <= a
      decreases |es| - i
    {
      assert i + 1 < |es| ==> Start(es, i + 1) == End(es, i);
      i := i + 1;
    }
    forall j | 0 <= j < |es| && Start(es, j) <= a < End(es, j)
      ensures j == i
    {
      if i < j {
        Apart(es, base, limit, i, j);
      } else if j < i {
        Apart(es, base, limit, j, i);
      }
    }
  }

  // Carving `n` bytes and a header from the tail of entry `k`.
  function Carved(es: seq<Extent>, k: nat, n: nat): seq<Extent>
    requires k < |es| && n + HEADER <= es[k].size
  {
    var rest := es[k].size - (n + HEADER);
    es[..k] + [Extent(es[k].address, rest), Extent(es[k].address + rest + HEADER, n)] + es[k + 1..]
  }

  lemma CarvedTiled(es: seq<Extent>, base: int, limit: int, k: nat, n: nat)
    requires Tiled(es, base, limit) && k < |es| && n + HEADER <= es[k].size
    ensures Tiled(Carved(es, k, n), base, limit)
  {
    var c := Carved(es, k, n);
    forall i | 1 <= i < |c|
      ensures Start(c, i) == End(c, i - 1)
    {
      if i <= k {
        assert Start(es, i) == End(es, i - 1);
      } else if i > k + 1 {
        assert Start(es, i - 1) == End(es, i - 2);
        assert c[i] == es[i - 1];
        assert i > k + 2 ==> c[i - 1] == es[i - 2];
      }
    }
  }

  // ----- which entry malloc takes -----

  predicate IsFit(size: nat, n: nat) {
    n <= size && 4 * size <= 5 * n
  }

  // The first entry that fits, neither the head nor the last being looked at; -1 if none does.
  function FirstFit(sizes: seq<nat>, n: nat, i: nat): (k: int)
    requires 1 <= i
    ensures k == -1 || (i <= k < |sizes| - 1 && IsFit(sizes[k], n))
    ensures forall j :: i <= j < (if k == -1 then |sizes| - 1 else k) ==> !IsFit(sizes[j], n)
    decreases |sizes| - i
  {
    if i >= |sizes| - 1 then -1
    else if IsFit(sizes[i], n) then i
    else FirstFit(sizes, n, i + 1)
  }

  // The first largest among the first `i` entries, starting with the head.
  function Largest(sizes: seq<nat>, i: nat): (k: nat)
    requires 1 <= i && 1 <= |sizes| && (i <= |sizes| - 1 || i == 1)
    ensures k < i && forall j :: 0 <= j < i ==> sizes[j] <= sizes[k]
    ensures forall j :: 0 <= j < k ==> sizes[j] < sizes[k]
  {
    if i == 1 then 0
    else
      var k := Largest(sizes, i - 1);
      if sizes[i - 1] > sizes[k] then i - 1 else k
  }

  // One turn of the loop over the list.
  lemma ScanStep(sizes: seq<nat>, n: nat, i: nat)
    requires i + 1 < |sizes|
    ensures i >= 1 ==>
              FirstFit(sizes, n, i) == if IsFit(sizes[i], n) then i else FirstFit(sizes, n, i + 1)
    ensures var m := Largest(sizes, if i == 0 then 1 else i);
            Largest(sizes, i + 1) == if sizes[i] > sizes[m] then i else m
  {
  }

  lemma ScanEnd(sizes: seq<nat>, n: nat)
    requires |sizes| >= 1
    ensures FirstFit(sizes, n, Scanned(sizes)) == -1
  {
  }

  function Scanned(sizes: seq<nat>): nat {
    if |sizes| >= 2 then |sizes| - 1 else 1
  }

  // ----- the lists -----

  // `mp_t`; where the structure itself lies is HEADER bytes before `address`, except for the
  // two list heads.
  class Block {
    var prev: Block?
    var next: Block?
    var address: int
    var size: nat

    constructor (address: int, size: nat)
      ensures this.address == address && this.size == size && prev == null && next == null
    {
      this.address := address;
      this.size := size;
      prev := null;
      next := null;
    }
  }

  ghost predicate Distinct(l: seq<Block>) {
    forall i, j :: 0 <= i < j < |l| ==> l[i] != l[j]
  }

  ghost predicate Linked(l: seq<Block>)
    reads l
  {
    |l| >= 1 && Distinct(l) && l[0].prev == null && l[|l| - 1].next == null &&
    (forall i :: 0 <= i < |l| - 1 ==> l[i].next == l[i + 1]) &&
    (forall i :: 1 <= i < |l| ==> l[i].prev == l[i - 1])
  }

  lemma Neighbours(l: seq<Block>, k: nat)
    requires Linked(l) && k < |l|
    ensures l[k].next == if k + 1 < |l| then l[k + 1] else null
    ensures l[k].prev == if k > 0 then l[k - 1] else null
  {
  }

  lemma NotHead(l: seq<Block>, k: nat)
    requires Linked(l) && k < |l|
    ensures l[k] == l[0] <==> k == 0
  {
  }

  // A list none of whose links has changed is still linked.
  twostate lemma StillLinked(l: seq<Block>)
    requires old(Linked(l))
    requires forall b :: b in l ==> b.next == old(b.next) && b.prev == old(b.prev)
    ensures Linked(l)
  {
  }

  function Inserted(l: seq<Block>, x: Block): seq<Block>
    requires |l| >= 1
  {
    [l[0], x] + l[1..]
  }

  function Removed(l: seq<Block>, k: nat): seq<Block>
    requires k < |l|
  {
    l[..k] + l[k + 1..]
  }

  // `add_mm_list_entry`, which the kernel always calls on a list head, with its repair: the old
  // successor's back link.
  method AddEntry(entry: Block, added: Block, ghost l: seq<Block>)
    requires Linked(l) && l[0] == entry && added !in l
    modifies l`next, l`prev, added`next, added`prev
    ensures Linked(Inserted(l, added))
    ensures entry.next == added && added.prev == entry && added.next == old(entry.next)
    ensures old(entry.next) != null ==> old(entry.next).prev == added
  {
    Neighbours(l, 0);
    added.prev := entry;
    added.next := entry.next;
    if entry.next != null {
      entry.next.prev := added;
    }
    entry.next := added;
  }

  // As it is written: the back link is wrong from the second insertion on.
  method AddEntryAsWritten(entry: Block, added: Block, ghost l: seq<Block>)
    requires Linked(l) && l[0] == entry && added !in l
    modifies l`next, l`prev, added`next, added`prev
    ensures Linked(Inserted(l, added)) <==> |l| == 1
  {
    if |l| > 1 {
      Neighbours(l, 1);
    }
    added.prev := entry;
    added.next := entry.next;
    entry.next := added;
    if |l| > 1 {
      assert Inserted(l, added)[2].prev == entry && Inserted(l, added)[1] == added;
    }
  }

  // `remove_mm_list_entry` of an entry behind the head, with its repair: the last entry has no
  // successor to update.
  method RemoveEntry(entry: Block, ghost l: seq<Block>, ghost k: nat)
    requires Linked(l) && 1 <= k < |l| && l[k] == entry
    modifies l`next, l`prev
    ensures Linked(Removed(l, k)) && entry !in Removed(l, k)
    ensures entry.prev == null && entry.next == null
  {
    Neighbours(l, k);
    var prev := entry.prev;
    var next := entry.next;
    prev.next := next;
    if next != null {
      next.prev := prev;
    }
    entry.prev := null;
    entry.next := null;
  }

  // As it is written: it follows a null pointer, which C leaves undefined, exactly for the head
  // and for the last entry; for the others it unlinks like the repaired one.
  method RemoveEntryAsWritten(entry: Block, ghost l: seq<Block>, ghost k: nat) returns (defined: bool)
    requires Linked(l) && k < |l| && l[k] == entry
    modifies l`next, l`prev
    ensures defined <==> 1 <= k < |l| - 1
    ensures defined ==> Linked(Removed(l, k)) && entry.prev == null && entry.next == null
  {
    Neighbours(l, k);
    var prev := entry.prev;
    var next := entry.next;
    if prev == null {
      return false;
    }
    prev.next := next;
    if next == null {
      return false;
    }
    next.prev := prev;
    entry.prev := null;
    entry.next := null;
    defined := true;
  }

  predicate Within(a: int, from: int, n: nat) {
    from <= a < from + n
  }

  // All of the `n` bytes from `p` on are among the `n` bytes from `q` on.
  ghost predicate Inside(p: int, q: int, n: nat) {
    forall a :: Within(a, p, n) ==> Within(a, q, n)
  }

  // The payload of a carved block starts behind its header. As written the offset is scaled by
  // the size of the structure, and the payload leaves the carved bytes.
  lemma PayloadAsWritten(header: int, n: nat)
    ensures Inside(header + 256, header + 16, n) <==> n == 0
  {
    if n > 0 {
      assert Within(header + 256 + n - 1, header + 256, n);
    }
  }

  // Carving as it is written, in the 32 bits of a size and of an address.
  function CarvedAsWritten(es: seq<Extent>, k: nat, n: nat): seq<Extent>
    requires k < |es|
  {
    var rest := (es[k].size - (n + HEADER)) % 0x1_0000_0000;
    var header := (es[k].address + rest) % 0x1_0000_0000;
    es[..k] + [Extent(es[k].address, rest), Extent(header + HEADER, n)] + es[k + 1..]
  }

  // As written the space check compares the payload alone, so that `n` may pass it with no room
  // for the header. What carving then leaves is a tiled region exactly when there is room.
  lemma SpaceCheckAsWritten(es: seq<Extent>, base: int, limit: int, k: nat, n: nat)
    requires Tiled(es, base, limit) && 0 <= base && limit <= 0x1_0000_0000
    requires k < |es| && n <= es[k].size
    ensures Tiled(CarvedAsWritten(es, k, n), base, limit) <==> n + HEADER <= es[k].size
  {
    Bounds(es, base, limit, k);
    var c := CarvedAsWritten(es, k, n);
    if n + HEADER <= es[k].size {
      CarvedTiled(es, base, limit, k, n);
      assert c == Carved(es, k, n);
    } else if k + 1 < |es| {
      // the new block would have to end where the next one begins
      assert Start(c, k + 2) == Start(es, k + 1) == End(es, k);
      assert Start(c, k + 1) != End(c, k) || Start(c, k + 2) != End(c, k + 1);
    } else {
      assert Start(c, k + 1) != End(c, k) || End(c, k + 1) != limit;
    }
  }

  // ----- the allocator -----

  ghost function Extents(layout: seq<Block>): (es: seq<Extent>)
    reads layout
    ensures |es| == |layout|
  {
    seq(|layout|, i requires 0 <= i < |layout| reads layout => Extent(layout[i].address, layout[i].size))
  }

  ghost function Sizes(l: seq<Block>): (s: seq<nat>)
    reads l
    ensures |s| == |l|
  {
    seq(|l|, i requires 0 <= i < |l| reads l => l[i].size)
  }

  class Heap {
    const mmFree: Block
    const mmUsed: Block

    // The two lists, the head region and all blocks in address order, and the managed region.
    ghost var free: seq<Block>
    ghost var used: seq<Block>
    ghost var layout: seq<Block>
    ghost const base: int
    ghost const limit: int

    ghost predicate Lists()
      reads this, free, used
    {
      |free| >= 1 && |used| >= 1 && free[0] == mmFree && used[0] == mmUsed && Linked(free) && Linked(used) &&
      forall b :: b in free ==> b !in used
    }

    // Every carved block is in one of the lists, and both hold nothing else but their heads.
    ghost predicate Members()
      reads this
    {
      Distinct(layout) && |layout| >= 1 && layout[0] == mmFree && mmUsed !in layout &&
      (forall b :: b in layout ==> b in free || b in used) &&
      (forall b :: b in free ==> b in layout) &&
      (forall b :: b in used && b != mmUsed ==> b in layout)
    }

    ghost predicate Valid()
      reads this, free, used, layout
    {
      Lists() && Members() && Tiled(Extents(layout), base, limit)
    }

    // The end of `init_mm`: one free region, nothing carved yet. The bottom of the region holds
    // what the list of used blocks starts with.
    constructor (bottom: int, heapSize: nat, freeSize: nat)
      ensures Valid() && fresh(mmFree) && fresh(mmUsed)
      ensures free == [mmFree] && used == [mmUsed] && layout == [mmFree]
      ensures mmFree.size == freeSize && mmUsed.size == heapSize
      ensures base == bottom + heapSize && limit == base + freeSize
    {
      mmFree := new Block(bottom + heapSize, freeSize);
      mmUsed := new Block(bottom, heapSize);
      base, limit := bottom + heapSize, bottom + heapSize + freeSize;
      new;
      free, used, layout := [mmFree], [mmUsed], [mmFree];
    }

    // Carving `size` bytes and a header from the tail of entry `m` of the free list.
    method Carve(largest: Block, ghost m: nat, size: nat) returns (temp: Block)
      requires Valid() && m < |free| && free[m] == largest && size + HEADER <= largest.size
      modifies this`used, this`layout, largest`size, used`next, used`prev
      ensures Valid() && fresh(temp) && temp.size == size
      ensures used == Inserted(old(used), temp) && used == [mmUsed, temp] + old(used)[1..]
      ensures largest.size == old(largest.size) - (size + HEADER)
      ensures temp.address == largest.address + largest.size + HEADER
      ensures forall b :: b in layout <==> b in old(layout) || b == temp
    {
      hide Linked, Tiled, Distinct, Extents;
      temp := CarveRegion(largest, m, size);
      AddUsed(temp);
      assert Lists();
      assert Members();
    }

    // Its effect on the region.
    method CarveRegion(largest: Block, ghost m: nat, size: nat) returns (temp: Block)
      requires Valid() && m < |free| && free[m] == largest && size + HEADER <= largest.size
      modifies this`layout, largest`size
      ensures fresh(temp) && temp.size == size && Lists()
      ensures Tiled(Extents(layout), base, limit) && Distinct(layout) && |layout| >= 1 && layout[0] == mmFree
      ensures forall b :: b in layout <==> b in old(layout) || b == temp
      ensures largest.size == old(largest.size) - (size + HEADER)
      ensures temp.address == largest.address + largest.size + HEADER
    {
      hide Linked, Tiled, Distinct, Carved;
      assert free[m] in layout;
      ghost var p :| 0 <= p < |layout| && layout[p] == largest;
      CarvedTiled(Extents(layout), base, limit, p, size);
      temp := CarveBlock(largest, p, size);
      StillLinked(free);
      StillLinked(used);
      InsertedAt(old(layout), p, temp);
    }

    lemma InsertedAt<T>(l: seq<T>, p: nat, x: T)
      requires p < |l|
      ensures (l[..p + 1] + [x] + l[p + 1..])[0] == l[0]
      ensures forall b :: b in l[..p + 1] + [x] + l[p + 1..] <==> b in l || b == x
    {
    }

    method AddUsed(temp: Block)
      requires Lists() && temp !in free && temp !in used
      modifies this`used, used`next, used`prev, temp`next, temp`prev
      ensures Lists() && used == Inserted(old(used), temp)
      ensures forall b :: b in used <==> b in old(used) || b == temp
      ensures Extents(layout) == old(Extents(layout))
    {
      AddEntry(mmUsed, temp, used);
      StillLinked(free);
      used := Inserted(used, temp);
    }

    // The arithmetic of it: entry `p` of the region shrinks, and the new block lies behind it.
    method CarveBlock(largest: Block, ghost p: nat, size: nat) returns (temp: Block)
      requires p < |layout| && layout[p] == largest && size + HEADER <= largest.size && Distinct(layout)
      modifies this`layout, largest`size
      ensures fresh(temp) && temp.size == size && Distinct(layout)
      ensures layout == old(layout)[..p + 1] + [temp] + old(layout)[p + 1..]
      ensures Extents(layout) == old(Carved(Extents(layout), p, size))
      ensures largest.size == old(largest.size) - (size + HEADER)
      ensures temp.address == largest.address + largest.size + HEADER
    {
      largest.size := largest.size - (size + HEADER);
      temp := new Block(largest.address + largest.size + HEADER, size);
      layout := layout[..p + 1] + [temp] + layout[p + 1..];
      ghost var c := old(Carved(Extents(layout), p, size));
      forall i | 0 <= i < |layout|
        ensures Extents(layout)[i] == c[i]
      {
        assert layout[i] == if i <= p then old(layout)[i] else if i == p + 1 then temp else old(layout)[i - 1];
      }
    }

    // The entry of the free list that `malloc` reuses, if any, and the one it carves otherwise.
    ghost function FitIndex(n: nat): (k: int)
      reads this, free
      requires |free| >= 1
      ensures k < |free| && (k >= 0 ==> k >= 1 && IsFit(free[k].size, n))
    {
      FirstFit(Sizes(free), n, 1)
    }

    ghost function Donor(): (b: Block)
      reads this, free
      requires |free| >= 1
      ensures b in free
    {
      free[Largest(Sizes(free), Scanned(Sizes(free)))]
    }

    // In numbers: of the entries behind the head and before the last, the first that has at least
    // `n` and at most 5/4 of `n` bytes; and of those and the head, the first of the largest size.
    lemma Choices(n: nat) returns (f: int, m: nat)
      requires |free| >= 1
      ensures f == FitIndex(n) && m < |free| && Donor() == free[m]
      ensures f >= 0 ==> 1 <= f < |free| - 1 && n <= free[f].size && 4 * free[f].size <= 5 * n
      ensures forall j :: 1 <= j < (if f < 0 then |free| - 1 else f) ==>
                !(n <= free[j].size && 4 * free[j].size <= 5 * n)
      ensures m == 0 || m < |free| - 1
      ensures forall j :: 0 <= j < |free| && (j == 0 || j < |free| - 1) ==>
                free[j].size <= free[m].size && (j < m ==> free[j].size < free[m].size)
    {
      hide FirstFit, Largest;
      var sizes := Sizes(free);
      f, m := FirstFit(sizes, n, 1), Largest(sizes, Scanned(sizes));
      assert forall j :: 0 <= j < |free| ==> sizes[j] == free[j].size;
    }

    // Taking entry `k` of the free list into use.
    method Reuse(temp: Block, ghost k: nat)
      requires Valid() && 1 <= k < |free| && free[k] == temp
      modifies this`free, this`used, free`next, free`prev, used`next, used`prev
      ensures Valid()
      ensures free == Removed(old(free), k) && used == Inserted(old(used), temp)
      ensures free == old(free)[..k] + old(free)[k + 1..] && used == [mmUsed, temp] + old(used)[1..]
    {
      hide Linked, Tiled;
      MoveEntry(temp, mmUsed, free, k, used);
      assert Extents(layout) == old(Extents(layout));
      free, used := Removed(free, k), Inserted(used, temp);
    }

    lemma NotEmpty()
      requires Valid()
      ensures |free| >= 1 && mmFree in layout
    {
    }

    // `malloc`, with its repairs; null stands for the panic when nothing is large enough. The
    // first scanned entry that fits is reused; else the first largest of those scanned is
    // carved. The last entry is never scanned, unless it is the head itself.
    method Malloc(size: nat) returns (r: Block?)
      requires Valid()
      modifies this`free, this`used, this`layout, free, used`next, used`prev
      ensures Valid()
      ensures old(FitIndex(size)) >= 0 ==>
                r == old(free)[old(FitIndex(size))] && layout == old(layout) &&
                free == Removed(old(free), old(FitIndex(size))) && used == Inserted(old(used), r)
      ensures old(FitIndex(size)) < 0 && old(Donor().size) < size + HEADER ==>
                r == null && free == old(free) && used == old(used) && layout == old(layout)
      ensures old(FitIndex(size)) < 0 && old(Donor().size) >= size + HEADER ==>
                r != null && fresh(r) && r.size == size && free == old(free) && used == Inserted(old(used), r) &&
                old(Donor()).size == old(Donor().size) - (size + HEADER) &&
                r.address == old(Donor()).address + old(Donor()).size + HEADER &&
                forall b :: b in layout <==> b in old(layout) || b == r
      ensures forall b :: b in old(layout) ==>
                b.address == old(b.address) && (b.size == old(b.size) || (r != null && fresh(r) && b == old(Donor())))
      ensures r != null ==> size <= r.size && 4 * r.size <= 5 * size
      ensures (r == null || fresh(r)) ==>
                forall j :: 1 <= j < |old(free)| - 1 ==>
                  !(size <= old(free[j].size) && 4 * old(free[j].size) <= 5 * size)
      ensures !(r == null || fresh(r)) ==>
                exists k :: 1 <= k < |old(free)| - 1 && r == old(free)[k] &&
                  size <= old(free[k].size) && 4 * old(free[k].size) <= 5 * size &&
                  (forall j :: 1 <= j < k ==> !(size <= old(free[j].size) && 4 * old(free[j].size) <= 5 * size)) &&
                  layout == old(layout) && free == old(free)[..k] + old(free)[k + 1..]
      ensures r == null ==>
                forall j :: 0 <= j < |old(free)| && (j == 0 || j < |old(free)| - 1) ==> old(free[j].size) < size + 16
      ensures r != null && fresh(r) ==>
                exists m :: 0 <= m < |old(free)| && (m == 0 || m < |old(free)| - 1) &&
                  (forall j :: 0 <= j < |old(free)| && (j == 0 || j < |old(free)| - 1) ==>
                     old(free[j].size) <= old(free[m].size) && (j < m ==> old(free[j].size) < old(free[m].size))) &&
                  r.size == size && old(free)[m].size == old(free[m].size) - size - 16 &&
                  r.address == old(free)[m].address + old(free)[m].size + 16
      ensures r != null ==> used == [mmUsed, r] + old(used)[1..]
    {
      hide Valid, FitIndex, Donor, Linked, Tiled, Members, Inserted, Removed;
      NotEmpty();
      ghost var f, d := Choices(size);
      var temp, largest := Scan(size);
      if temp != null {
        Reuse(temp, f);
        return temp;
      }
      if largest.size < size + HEADER {
        return null;
      }
      r := Carve(largest, d, size);
    }

    // The loop of `malloc`: the entry to reuse, if one fits, and the largest entry otherwise; which
    // they are, `Choices` says in numbers.
    method Scan(size: nat) returns (fit: Block?, largest: Block)
      requires Valid()
      ensures if FitIndex(size) >= 0 then fit == free[FitIndex(size)] else fit == null && largest == Donor()
    {
      hide FirstFit, Largest, Linked, Members, Tiled;
      ghost var sizes := Sizes(free);
      var temp := mmFree;
      largest := mmFree;
      ghost var i, m := 0, Largest(sizes, 1);
      Neighbours(free, 0);
      while temp.next != null
        invariant 0 <= i < |free| && temp == free[i]
        invariant m == Largest(sizes, if i == 0 then 1 else i) && largest == free[m]
        invariant FirstFit(sizes, size, 1) == FirstFit(sizes, size, if i == 0 then 1 else i)
        decreases |free| - i
      {
        Neighbours(free, i);
        NotHead(free, i);
        ScanStep(sizes, size, i);
        if temp != mmFree && temp.size >= size && 4 * temp.size <= 5 * size {
          return temp, largest;
        }
        if temp.size > largest.size {
          largest := temp;
          m := i;
        }
        temp := temp.next;
        i := i + 1;
      }
      Neighbours(free, i);
      ScanEnd(sizes, size);
      fit := null;
    }

    // The loop as it is written, which does not except the head from the fit test. It picks the
    // head, which nothing can unlink, exactly when there is another entry and the head fits.
    method ScanAsWritten(size: nat) returns (fit: Block?, largest: Block)
      requires Valid()
      ensures fit == mmFree <==> |free| >= 2 && size <= mmFree.size && 4 * mmFree.size <= 5 * size
      ensures fit != mmFree ==>
                if FitIndex(size) >= 0 then fit == free[FitIndex(size)] else fit == null && largest == Donor()
    {
      hide FirstFit, Largest, Linked, Members, Tiled;
      ghost var sizes := Sizes(free);
      var temp := mmFree;
      largest := mmFree;
      ghost var i, m := 0, Largest(sizes, 1);
      Neighbours(free, 0);
      while temp.next != null
        invariant 0 <= i < |free| && temp == free[i]
        invariant i >= 1 ==> !IsFit(mmFree.size, size)
        invariant m == Largest(sizes, if i == 0 then 1 else i) && largest == free[m]
        invariant FirstFit(sizes, size, 1) == FirstFit(sizes, size, if i == 0 then 1 else i)
        decreases |free| - i
      {
        Neighbours(free, i);
        NotHead(free, i);
        ScanStep(sizes, size, i);
        if temp.size >= size && 4 * temp.size <= 5 * size {
          return temp, largest;
        }
        if temp.size > largest.size {
          largest := temp;
          m := i;
        }
        temp := temp.next;
        i := i + 1;
      }
      Neighbours(free, i);
      ScanEnd(sizes, size);
      fit := null;
    }

    // `free` of a block in use.
    method Free(entry: Block, ghost k: nat)
      requires Valid() && 1 <= k < |used| && used[k] == entry
      modifies this`free, this`used, free`next, free`prev, used`next, used`prev
      ensures Valid()
      ensures used == Removed(old(used), k) && free == Inserted(old(free), entry)
      ensures used == old(used)[..k] + old(used)[k + 1..] && free == [mmFree, entry] + old(free)[1..]
    {
      hide Linked, Tiled;
      MoveEntry(entry, mmFree, used, k, free);
      assert Extents(layout) == old(Extents(layout));
      assert Removed(used, k)[0] == mmUsed;
      used, free := Removed(used, k), Inserted(free, entry);
      assert Lists();
    }
  }

  // An entry goes from one list to the front of another.
  method MoveEntry(entry: Block, head: Block, ghost from: seq<Block>, ghost k: nat, ghost to: seq<Block>)
    requires Linked(from) && Linked(to) && 1 <= k < |from| && from[k] == entry && |to| >= 1 && to[0] == head
    requires forall b :: b in from ==> b !in to
    modifies from`next, from`prev, to`next, to`prev
    ensures |to| >= 1 && Linked(Removed(from, k)) && Linked(Inserted(to, entry))
    ensures forall b :: b in Removed(from, k) <==> b in from && b != entry
    ensures forall b :: b in Inserted(to, entry) <==> b in to || b == entry
  {
    MoveMembers(from, k, to);
    RemoveEntry(entry, from, k);
    StillLinked(to);
    label Added:
    hide Linked;
    AddEntry(head, entry, to);
    StillLinked@Added(Removed(from, k));
  }

  // Moving entry `k` of one list to another moves exactly that member.
  lemma MoveMembers(from: seq<Block>, k: nat, to: seq<Block>)
    requires 1 <= k < |from| && |to| >= 1
    requires Distinct(from)
    ensures forall b :: b in Removed(from, k) <==> b in from && b != from[k]
    ensures forall b :: b in Inserted(to, from[k]) <==> b in to || b == from[k]
  {
  }

  // Blocks of a valid heap never overlap, not even with their headers.
  lemma BlocksApart(h: Heap, b: Block, c: Block)
    requires h.Valid() && b in h.layout && c in h.layout && b != c
    ensures b.address + b.size <= c.address - 16 || c.address + c.size <= b.address - 16
  {
    var es := Extents(h.layout);
    var i :| 0 <= i < |es| && h.layout[i] == b;
    var j :| 0 <= j < |es| && h.layout[j] == c;
    if i < j {
      Apart(es, h.base, h.limit, i, j);
    } else {
      Apart(es, h.base, h.limit, j, i);
    }
  }

  // The head region, the blocks and their headers always add up to the managed region.
  lemma Conserved(h: Heap)
    requires h.Valid()
    ensures Sum(Extents(h.layout)) + 16 * (|h.layout| - 1) == h.limit - h.base
    ensures Extents(h.layout)[0] == Extent(h.mmFree.address, h.mmFree.size)
  {
    TotalSize(Extents(h.layout), h.base, h.limit);
  }

  // Where a part of the region begins: the head region has no header inside.
  ghost function Front(h: Heap, b: Block): int
    reads h, b
  {
    if b == h.mmFree then b.address else b.address - HEADER
  }

  // Every part of a valid heap lies in the managed region, ...
  lemma InRegion(h: Heap, b: Block)
    requires h.Valid() && b in h.layout
    ensures h.base <= Front(h, b) <= b.address + b.size <= h.limit
  {
    var i :| 0 <= i < |h.layout| && h.layout[i] == b;
    Bounds(Extents(h.layout), h.base, h.limit, i);
  }

  // ... and every address of the region lies in exactly one part.
  lemma OwnerOf(h: Heap, a: int) returns (b: Block)
    requires h.Valid() && h.base <= a < h.limit
    ensures b in h.layout && Front(h, b) <= a < b.address + b.size
    ensures forall c :: c in h.layout && Front(h, c) <= a < c.address + c.size ==> c == b
  {
    var es := Extents(h.layout);
    var i := Covered(es, h.base, h.limit, a);
    b := h.layout[i];
    forall c | c in h.layout && Front(h, c) <= a < c.address + c.size
      ensures c == b
    {
      var j :| 0 <= j < |h.layout| && h.layout[j] == c;
      assert Start(es, j) <= a < End(es, j);
    }
  }
}
