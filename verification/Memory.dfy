/** The memory primitives of `src/mem.c`. */
module Memory {

  // What a move of `n` cells from offset `s` of `src` to offset `d` of `dst` leaves in `dst`.
  function Moved<T>(dst: seq<T>, d: nat, src: seq<T>, s: nat, n: nat): (r: seq<T>)
    requires d + n <= |dst| && s + n <= |src|
    ensures |r| == |dst|
  {
    dst[..d] + src[s..s + n] + dst[d + n..]
  }

  // `mem_cpy`. Both pointers may point into the same object; how two pointers into
  // different objects compare is not known.
  method MemCpy<T>(dst: array<T>, d: nat, src: array<T>, s: nat, size: nat)
    requires d + size <= dst.Length && s + size <= src.Length
    modifies dst
    ensures dst[..] == Moved(old(dst[..]), d, old(src[..]), s, size)
  {
    ghost var was, from := dst[..], src[..];
    var below: bool := *;
    if dst == src {
      below := d < s;
    }
    if below {
      var i := 0;
      while i < size
        invariant 0 <= i <= size
        invariant forall k :: d <= k < d + i ==> dst[k] == from[k - d + s]
        invariant forall k :: 0 <= k < dst.Length && !(d <= k < d + i) ==> dst[k] == was[k]
      {
        dst[d + i] := src[s + i];
        i := i + 1;
      }
    } else {
      var i := size;
      while i != 0
        invariant 0 <= i <= size
        invariant forall k :: d + i <= k < d + size ==> dst[k] == from[k - d + s]
        invariant forall k :: 0 <= k < dst.Length && !(d + i <= k < d + size) ==> dst[k] == was[k]
      {
        dst[d + i - 1] := src[s + i - 1];
        i := i - 1;
      }
    }
    MovedAt(dst[..], was, d, from, s, size);
  }

  lemma MovedAt<T>(now: seq<T>, dst: seq<T>, d: nat, src: seq<T>, s: nat, n: nat)
    requires d + n <= |dst| == |now| && s + n <= |src|
    requires forall k :: d <= k < d + n ==> now[k] == src[k - d + s]
    requires forall k :: 0 <= k < |dst| && !(d <= k < d + n) ==> now[k] == dst[k]
    ensures now == Moved(dst, d, src, s, n)
  {
  }

  // The bytes of cells of two bytes each, low byte first.
  function Bytes(cells: seq<nat>): (b: seq<nat>)
    ensures |b| == 2 * |cells|
  {
    seq(2 * |cells|, k requires 0 <= k < 2 * |cells| =>
      if k % 2 == 0 then cells[k / 2] % 0x100 else cells[k / 2] / 0x100)
  }

  lemma BytesOfCell(cells: seq<nat>, k: nat)
    requires k < |cells|
    ensures Bytes(cells)[2 * k] < 0x100 && Bytes(cells)[2 * k] + 0x100 * Bytes(cells)[2 * k + 1] == cells[k]
  {
  }

  // Moving the bytes of whole cells moves the cells.
  lemma MoveOfCells(dst: seq<nat>, d: nat, src: seq<nat>, s: nat, n: nat)
    requires d + n <= |dst| && s + n <= |src|
    ensures Bytes(Moved(dst, d, src, s, n)) == Moved(Bytes(dst), 2 * d, Bytes(src), 2 * s, 2 * n)
  {
    var cells, bytes := Moved(dst, d, src, s, n), Moved(Bytes(dst), 2 * d, Bytes(src), 2 * s, 2 * n);
    forall k | 0 <= k < 2 * |dst|
      ensures Bytes(cells)[k] == bytes[k]
    {
      MovedIndex(dst, d, src, s, n, k / 2);
      MovedIndex(Bytes(dst), 2 * d, Bytes(src), 2 * s, 2 * n, k);
    }
  }

  lemma MovedIndex<T>(dst: seq<T>, d: nat, src: seq<T>, s: nat, n: nat, k: nat)
    requires d + n <= |dst| && s + n <= |src| && k < |dst|
    ensures Moved(dst, d, src, s, n)[k] == if d <= k < d + n then src[k - d + s] else dst[k]
  {
  }

  // `mem_set`.
  method MemSet<T>(dst: array<T>, val: T, size: nat)
    requires size <= dst.Length
    modifies dst
    ensures dst[..] == seq(size, _ => val) + old(dst[..])[size..]
  {
    var i := 0;
    while i < size
      invariant 0 <= i <= size
      invariant forall k :: 0 <= k < i ==> dst[k] == val
      invariant forall k :: i <= k < dst.Length ==> dst[k] == old(dst[k])
    {
      dst[i] := val;
      i := i + 1;
    }
  }
}
