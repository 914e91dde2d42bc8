/** `CArray`: the sign of `length` says who owns `arr`. All live arrays and the heap they allocate from, together. */
module CArrays {

  type Handle = nat

  /** `Heap(b)` is a block from `new T[]`, `Foreign` is memory of the caller, such as `vector::data()`. */
  datatype Ptr = Null | Heap(block: nat) | Foreign(id: nat)

  datatype Header = Header(arr: Ptr, length: int) {
    /** Positive length: the destructor, `wrap` and `reserve` will delete `arr`. */
    predicate Owns() {
      length > 0
    }

    function Size(): nat {
      if length > 0 then length else -length
    }
  }

  /** The number of elements, whoever owns them. */
  lemma SizeIs(h: Header)
    ensures h.length >= 0 ==> h.Size() == h.length
    ensures h.length < 0 ==> h.Size() == 0 - h.length
  {
  }

  /** What `wrap` leaves behind. */
  function Borrowed(p: Ptr, size: nat): Header {
    Header(p, if p == Null then 0 else 0 - size)
  }

  datatype Outcome = Done | InvalidArgument

  class Memory {
    var arrays: map<Handle, Header>     // the live CArray objects
    var blocks: map<nat, nat>           // the allocated blocks and their sizes
    var next: nat                       // blocks are numbered as they are allocated
    ghost var freed: seq<nat>           // the blocks deleted so far, in order
    ghost var badDelete: bool           // delete[] was called on something else

    constructor ()
      ensures Valid() && arrays == map[] && blocks == map[] && freed == [] && next == 0
    {
      arrays, blocks, next := map[], map[], 0;
      freed, badDelete := [], false;
    }

    /** Every block is owned by exactly one live array, large enough for what the array says; every block ever
        allocated is either allocated still or has been freed, exactly once; nothing else was ever deleted. */
    ghost predicate Valid()
      reads this
    {
      Owned(arrays, blocks) && Accounted(blocks, freed, next) && !badDelete
    }

    method Allocate(size: nat) returns (p: Ptr)
      modifies this`blocks, this`next
      ensures p == Heap(old(next)) && next == old(next) + 1 && blocks == old(blocks)[old(next) := size]
    {
      p := Heap(next);
      blocks := blocks[next := size];
      next := next + 1;
    }

    method Delete(p: Ptr)
      modifies this`blocks, this`freed, this`badDelete
      ensures if p.Heap? && p.block in old(blocks)
              then blocks == old(blocks) - {p.block} && freed == old(freed) + [p.block] && badDelete == old(badDelete)
              else blocks == old(blocks) && freed == old(freed) && badDelete == (old(badDelete) || p != Null)
    {
      if p.Heap? && p.block in blocks {
        freed := freed + [p.block];
        blocks := blocks - {p.block};
      } else {
        badDelete := badDelete || p != Null;
      }
    }

    /** `CArray(int64_t len)`, also the start of the copying and initializer-list constructors. */
    method Construct(h: Handle, len: int) returns (o: Outcome)
      requires Valid() && h !in arrays
      modifies this
      ensures Valid() && freed == old(freed) && o == if len < 0 then InvalidArgument else Done
      ensures len < 0 ==> arrays == old(arrays) && blocks == old(blocks)
      ensures len == 0 ==> arrays == old(arrays)[h := Header(Null, 0)] && blocks == old(blocks)
      ensures len > 0 ==> arrays == old(arrays)[h := Header(Heap(old(next)), len)]
                          && blocks == old(blocks)[old(next) := len]
    {
      if len < 0 {
        return InvalidArgument;
      }
      var arr := Null;
      if len > 0 {
        OwnedAdds(arrays, blocks, next, h, len, len, freed);
        arr := Allocate(len);
      } else {
        OwnedBorrows(arrays, blocks, h, Header(Null, 0));
      }
      arrays := arrays[h := Header(arr, len)];
      return Done;
    }

    /** `CArray(T[], size_t)`: borrows. */
    method ConstructOver(h: Handle, p: Ptr, len: nat)
      requires Valid() && h !in arrays
      modifies this`arrays
      ensures Valid() && arrays == old(arrays)[h := Header(p, 0 - len)]
    {
      OwnedBorrows(arrays, blocks, h, Header(p, 0 - len));
      arrays := arrays[h := Header(p, 0 - len)];
    }

    /** The copy constructor: a deep copy of what is owned, the same borrowed memory otherwise. */
    method Copy(from: Handle, h: Handle)
      requires Valid() && from in arrays && h !in arrays
      modifies this
      ensures Valid() && freed == old(freed)
      ensures var length := old(arrays)[from].length;
              if length > 0
              then arrays == old(arrays)[h := Header(Heap(old(next)), length)]
                   && blocks == old(blocks)[old(next) := length]
              else arrays == old(arrays)[h := old(arrays)[from]] && blocks == old(blocks)
      ensures arrays[h].arr == arrays[from].arr <==> !arrays[from].Owns()
    {
      var header := arrays[from];
      if header.length > 0 {
        OwnedAdds(arrays, blocks, next, h, header.length, header.length, freed);
        var arr := Allocate(header.length);
        arrays := arrays[h := Header(arr, header.length)];
      } else {
        OwnedBorrows(arrays, blocks, h, header);
        arrays := arrays[h := header];
      }
    }

    method Destroy(h: Handle)
      requires Valid() && h in arrays
      modifies this
      ensures Valid() && arrays == old(arrays) - {h}
      ensures freed == old(freed) + (if old(arrays)[h].Owns() then [old(arrays)[h].arr.block] else [])
    {
      var header := arrays[h];
      if header.arr != Null && header.length > 0 {
        OwnedDrops(arrays, blocks, h, freed, next);
        Delete(header.arr);
      } else {
        OwnedForgets(arrays, blocks, h);
      }
      arrays := arrays - {h};
    }

    method Wrap(h: Handle, p: Ptr, size: nat)
      requires Valid() && h in arrays
      modifies this
      ensures Valid() && arrays == old(arrays)[h := Header(p, if p == Null then 0 else 0 - size)]
      ensures freed == old(freed) + (if old(arrays)[h].Owns() then [old(arrays)[h].arr.block] else [])
    {
      var header := arrays[h];
      if header.length > 0 {
        OwnedDrops(arrays, blocks, h, freed, next);
        Delete(header.arr);
        OwnedBorrows(arrays - {h}, blocks, h, Borrowed(p, size));
        assert (arrays - {h})[h := Borrowed(p, size)]
          == arrays[h := Borrowed(p, size)];
      } else {
        OwnedRewraps(arrays, blocks, h, Borrowed(p, size));
      }
      arrays := arrays[h := Borrowed(p, size)];
    }

    method Reserve(h: Handle, size: nat)
      requires Valid() && h in arrays
      modifies this
      ensures Valid()
      ensures arrays == if size == 0 || old(arrays)[h].length >= size then old(arrays)
                        else old(arrays)[h := Header(Heap(old(next)), size)]
      ensures size > 0 ==> arrays[h].length >= size && arrays[h].Owns()
      ensures freed == old(freed) + (if 0 < old(arrays)[h].length < size then [old(arrays)[h].arr.block] else [])
    {
      if size > 0 {
        var header := arrays[h];
        if header.length > 0 {
          if header.length < size {
            OwnedDrops(arrays, blocks, h, freed, next);
            Delete(header.arr);
          } else {
            return;
          }
        } else {
          OwnedForgets(arrays, blocks, h);
        }
        OwnedAdds(arrays - {h}, blocks, next, h, size, size, freed);
        var arr := Allocate(size);
        assert (arrays - {h})[h := Header(arr, size)] == arrays[h := Header(arr, size)];
        arrays := arrays[h := Header(arr, size)];
      }
    }

    /** `assign`: allocates only for an array that has no memory at all. */
    method Assign(h: Handle, size: nat) returns (o: Outcome)
      requires Valid() && h in arrays
      modifies this
      ensures Valid() && freed == old(freed)
      ensures var header := old(arrays)[h];
              o == (if size == 0 then (if header.length == 0 then InvalidArgument else Done)
                    else if size > header.Size() && header.arr != Null then InvalidArgument else Done)
              && arrays == (if size > header.Size() && header.arr == Null
                            then old(arrays)[h := Header(Heap(old(next)), size)] else old(arrays))
              && (o == Done ==> arrays[h].Size() >= size)
    {
      var header := arrays[h];
      if size == 0 {
        return if header.length == 0 then InvalidArgument else Done;
      }
      if size > header.Size() {
        if header.arr != Null {
          return InvalidArgument;
        }
        NullOwnsNothing(arrays, blocks, h);
        OwnedForgets(arrays, blocks, h);
        OwnedAdds(arrays - {h}, blocks, next, h, size, size, freed);
        var arr := Allocate(size);
        assert (arrays - {h})[h := Header(arr, size)] == arrays[h := Header(arr, size)];
        arrays := arrays[h := Header(arr, size)];
      }
      return Done;
    }

    /** The failure path of a batch: `batchRes.reserve(size); batchRes.length= size`. The direct write of the length
        keeps every block owned exactly if it does not turn an owned length into zero. */
    method ReserveAndSetLength(h: Handle, size: nat)
      requires Valid() && h in arrays
      modifies this
      ensures Valid() <==> size > 0 || !old(arrays)[h].Owns()
      ensures var kept := size == 0 || old(arrays)[h].length >= size;
              arrays == old(arrays)[h := Header(if kept then old(arrays)[h].arr else Heap(old(next)), size)]
    {
      Reserve(h, size);
      var header := arrays[h];
      if size > 0 {
        OwnedShrinks(arrays, blocks, h, size);
      } else if header.length > 0 {
        LengthZeroLeaks(arrays, blocks, h);
      } else {
        OwnedRewraps(arrays, blocks, h, Header(header.arr, 0));
      }
      arrays := arrays[h := Header(header.arr, size)];
    }
  }

  // ---------------------------------------------------------------- ownership

  ghost predicate OwnerOf(arrays: map<Handle, Header>, h: Handle, b: nat) {
    h in arrays && arrays[h].Owns() && arrays[h].arr == Heap(b)
  }

  ghost predicate Owned(arrays: map<Handle, Header>, blocks: map<nat, nat>) {
    && (forall h :: h in arrays && arrays[h].Owns() ==>
          arrays[h].arr.Heap? && arrays[h].arr.block in blocks && arrays[h].length <= blocks[arrays[h].arr.block])
    && (forall b :: b in blocks ==> exists h :: OwnerOf(arrays, h, b))
    && (forall h, k, b :: OwnerOf(arrays, h, b) && OwnerOf(arrays, k, b) ==> h == k)
  }

  ghost predicate Accounted(blocks: map<nat, nat>, freed: seq<nat>, next: nat) {
    && (forall i, j :: 0 <= i < j < |freed| ==> freed[i] != freed[j])
    && (forall b :: b in blocks ==> b !in freed && b < next)
    && (forall b :: b in freed ==> b < next)
    && (forall b: nat :: b < next ==> b in blocks || b in freed)
  }

  lemma OwnedAdds(arrays: map<Handle, Header>, blocks: map<nat, nat>, next: nat, h: Handle, size: nat, len: int,
                  freed: seq<nat>)
    requires Owned(arrays, blocks) && Accounted(blocks, freed, next) && h !in arrays && 0 < len <= size
    ensures Owned(arrays[h := Header(Heap(next), len)], blocks[next := size])
    ensures Accounted(blocks[next := size], freed, next + 1)
  {
    var arrays' := arrays[h := Header(Heap(next), len)];
    var blocks' := blocks[next := size];
    assert OwnerOf(arrays', h, next);
    forall b | b in blocks' ensures exists k :: OwnerOf(arrays', k, b) {
      if b != next {
        var k :| OwnerOf(arrays, k, b);
        assert OwnerOf(arrays', k, b);
      }
    }
    forall k, m, b | OwnerOf(arrays', k, b) && OwnerOf(arrays', m, b) ensures k == m {
      if k != h && m != h {
        assert OwnerOf(arrays, k, b) && OwnerOf(arrays, m, b);
      }
    }
  }

  lemma OwnedBorrows(arrays: map<Handle, Header>, blocks: map<nat, nat>, h: Handle, header: Header)
    requires Owned(arrays, blocks) && h !in arrays && !header.Owns()
    ensures Owned(arrays[h := header], blocks)
  {
    var arrays' := arrays[h := header];
    forall k, b | OwnerOf(arrays', k, b) ensures OwnerOf(arrays, k, b) {
    }
    forall b | b in blocks ensures exists k :: OwnerOf(arrays', k, b) {
      var k :| OwnerOf(arrays, k, b);
      assert OwnerOf(arrays', k, b);
    }
  }

  lemma OwnedForgets(arrays: map<Handle, Header>, blocks: map<nat, nat>, h: Handle)
    requires Owned(arrays, blocks) && h in arrays && !arrays[h].Owns()
    ensures Owned(arrays - {h}, blocks)
  {
    var arrays' := arrays - {h};
    forall k, b | OwnerOf(arrays', k, b) ensures OwnerOf(arrays, k, b) {
    }
    forall b | b in blocks ensures exists k :: OwnerOf(arrays', k, b) {
      var k :| OwnerOf(arrays, k, b);
      assert OwnerOf(arrays', k, b);
    }
  }

  lemma OwnedRewraps(arrays: map<Handle, Header>, blocks: map<nat, nat>, h: Handle, header: Header)
    requires Owned(arrays, blocks) && h in arrays && !arrays[h].Owns() && !header.Owns()
    ensures Owned(arrays[h := header], blocks)
  {
    OwnedForgets(arrays, blocks, h);
    OwnedBorrows(arrays - {h}, blocks, h, header);
    assert (arrays - {h})[h := header] == arrays[h := header];
  }

  lemma OwnedDrops(arrays: map<Handle, Header>, blocks: map<nat, nat>, h: Handle, freed: seq<nat>, next: nat)
    requires Owned(arrays, blocks) && Accounted(blocks, freed, next) && h in arrays && arrays[h].Owns()
    ensures var b := arrays[h].arr.block;
            b in blocks && Owned(arrays - {h}, blocks - {b}) && Accounted(blocks - {b}, freed + [b], next)
  {
    var mine := arrays[h].arr.block;
    var arrays' := arrays - {h};
    assert OwnerOf(arrays, h, mine);
    forall k, b | OwnerOf(arrays', k, b) ensures OwnerOf(arrays, k, b) && b != mine {
      assert OwnerOf(arrays, k, b);
    }
    forall k | k in arrays' && arrays'[k].Owns() ensures arrays'[k].arr.block != mine {
      assert OwnerOf(arrays', k, arrays'[k].arr.block);
    }
    forall b | b in blocks - {mine} ensures exists k :: OwnerOf(arrays', k, b) {
      var k :| OwnerOf(arrays, k, b);
      assert OwnerOf(arrays', k, b);
    }
  }

  lemma OwnedShrinks(arrays: map<Handle, Header>, blocks: map<nat, nat>, h: Handle, len: int)
    requires Owned(arrays, blocks) && h in arrays && 0 < len <= arrays[h].length
    ensures Owned(arrays[h := Header(arrays[h].arr, len)], blocks)
  {
    var arrays' := arrays[h := Header(arrays[h].arr, len)];
    forall k, b ensures OwnerOf(arrays', k, b) <==> OwnerOf(arrays, k, b) {
    }
    forall b | b in blocks ensures exists k :: OwnerOf(arrays', k, b) {
      var k :| OwnerOf(arrays, k, b);
      assert OwnerOf(arrays', k, b);
    }
  }

  lemma NullOwnsNothing(arrays: map<Handle, Header>, blocks: map<nat, nat>, h: Handle)
    requires Owned(arrays, blocks) && h in arrays && arrays[h].arr == Null
    ensures !arrays[h].Owns()
  {
  }

  lemma LengthZeroLeaks(arrays: map<Handle, Header>, blocks: map<nat, nat>, h: Handle)
    requires Owned(arrays, blocks) && h in arrays && arrays[h].Owns()
    ensures !Owned(arrays[h := Header(arrays[h].arr, 0)], blocks)
  {
    var b := arrays[h].arr.block;
    var arrays' := arrays[h := Header(arrays[h].arr, 0)];
    assert OwnerOf(arrays, h, b);
    forall k ensures !OwnerOf(arrays', k, b) {
      if OwnerOf(arrays', k, b) {
        assert OwnerOf(arrays, k, b);
      }
    }
  }

  /** Once the last array is gone, no block is left, and each one ever allocated was freed exactly once. */
  lemma NothingLeaks(arrays: map<Handle, Header>, blocks: map<nat, nat>, freed: seq<nat>, next: nat)
    requires Owned(arrays, blocks) && Accounted(blocks, freed, next) && arrays == map[]
    ensures blocks == map[]
    ensures forall b: nat :: b < next <==> multiset(freed)[b] == 1
  {
    assert forall b :: b !in blocks;
    forall b: nat ensures b < next <==> multiset(freed)[b] == 1 {
      if b in freed {
        OnceInDistinct(freed, b);
      }
    }
  }

  lemma {:induction false} OnceInDistinct(s: seq<nat>, b: nat)
    requires forall i, j :: 0 <= i < j < |s| ==> s[i] != s[j]
    requires b in s
    ensures multiset(s)[b] == 1
  {
    var i :| 0 <= i < |s| && s[i] == b;
    assert s == s[..i] + [s[i]] + s[i + 1..];
    assert b !in s[..i] && b !in s[i + 1..];
  }

  /** The compiler-generated assignment copies `arr` and `length` as they are: with an owned source the block then has
      two owners, so one of the two destructors deletes it again. */
  lemma PlainAssignmentSharesOwnership(arrays: map<Handle, Header>, blocks: map<nat, nat>, from: Handle, to: Handle)
    requires Owned(arrays, blocks) && from in arrays && to in arrays && from != to
    ensures arrays[from].Owns() ==> !Owned(arrays[to := arrays[from]], blocks)
  {
    if arrays[from].Owns() {
      var arrays' := arrays[to := arrays[from]];
      var b := arrays[from].arr.block;
      assert OwnerOf(arrays', from, b) && OwnerOf(arrays', to, b);
    }
  }

  // ---------------------------------------------------------------- what the copy constructor copies

  /** `memcpy(arr, rhs.arr, length)` copies `length` bytes, not `length` elements; the rest of the new block keeps what
      it held. `source` and `junk` are the bytes of both blocks. */
  function CopiedBytes(source: seq<bv8>, length: nat, junk: seq<bv8>): (r: seq<bv8>)
    requires length <= |source| == |junk|
    ensures |r| == |source|
  {
    source[..length] + junk[length..]
  }

  /** So a copy is faithful, whatever the new block held, exactly for one-byte elements or empty arrays. */
  lemma CopyFaithfulIff(source: seq<bv8>, length: nat, width: nat)
    requires width > 0 && |source| == length * width && length <= |source|
    ensures (forall junk: seq<bv8> :: |junk| == |source| ==> CopiedBytes(source, length, junk) == source)
      <==> width == 1 || length == 0
  {
    if width == 1 || length == 0 {
      forall junk: seq<bv8> | |junk| == |source| ensures CopiedBytes(source, length, junk) == source {
        assert length == |source| && source[..length] == source && junk[length..] == [];
      }
    } else {
      assert length * width > length by { assert length * width >= length * 2; }
      var last := |source| - 1;
      var junk := source[last := Different(source[last])];
      assert CopiedBytes(source, length, junk)[last] == junk[last];
    }
  }

  function Different(b: bv8): (r: bv8)
    ensures r != b
  {
    if b == 0 then 1 else 0
  }

  /** Of the numbers 1 and 2 in four bytes each, low byte first, two bytes of the first arrive: over a block that held
      7 and 7 the copy is 1 and 7. */
  lemma CopyExample()
    ensures CopiedBytes([1, 0, 0, 0, 2, 0, 0, 0], 2, [7, 0, 0, 0, 7, 0, 0, 0]) == [1, 0, 0, 0, 7, 0, 0, 0]
  {
  }
}
