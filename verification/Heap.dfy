// The interpreter's heap: heapAlloc, heapFree, heapBlockSize and heapRealloc of src/vm/interpreter.cpp.
//
// One flat byte memory; a list of blocks carved from its front by a bump pointer. Allocation is first
// fit with splitting, freeing marks a block, and blocks are never merged. The 64-bit sum of the bump
// pointer and a size, and the sums of addresses, do not wrap: a memory has fewer than 2^63 bytes and a
// requested size is below 2^63.

module Heap {
  import opened Ast

  const LIMIT: nat := 0x8000_0000_0000_0000

  datatype HeapBlock = HeapBlock(offset: nat, size: nat, free: bool)

  // The allocator's part of the state.
  datatype Blocks = Blocks(list: seq<HeapBlock>, bump: nat)

  datatype HeapError = OutOfMemory | Untracked(offset: nat)

  function Requested(size: nat): (n: nat)
    ensures n >= 1
  {
    if size == 0 then 1 else size
  }

  predicate Fits(b: HeapBlock, size: nat) { b.free && b.size >= size }

  // Index of the first block, from i on, that fits; the length of the list if there is none.
  function FirstFit(list: seq<HeapBlock>, size: nat, i: nat): (k: nat)
    requires i <= |list|
    ensures i <= k <= |list| && (k < |list| ==> Fits(list[k], size))
    ensures forall j :: i <= j < k ==> !Fits(list[j], size)
    decreases |list| - i
  {
    if i == |list| || Fits(list[i], size) then i else FirstFit(list, size, i + 1)
  }

  // Block k cut to `size` bytes, with what is left over as a free block behind it.
  function Split(list: seq<HeapBlock>, k: nat, size: nat): seq<HeapBlock>
    requires k < |list| && 0 < size <= list[k].size
  {
    var b := list[k];
    var used := HeapBlock(b.offset, size, false);
    if b.size > size then list[..k] + [used, HeapBlock(b.offset + size, b.size - size, true)] + list[k + 1..]
    else list[k := used]
  }

  function AllocSpec(h: Blocks, memSize: nat, size: nat): Result<(Blocks, nat), HeapError> {
    var n := Requested(size);
    var k := FirstFit(h.list, n, 0);
    if k < |h.list| then Ok((Blocks(Split(h.list, k, n), h.bump), h.list[k].offset))
    else if h.bump + n > memSize then Err(OutOfMemory)
    else Ok((Blocks(h.list + [HeapBlock(h.bump, n, false)], h.bump + n), h.bump))
  }

  predicate IsLive(b: HeapBlock, offset: nat) { b.offset == offset && !b.free }

  function FindLive(list: seq<HeapBlock>, offset: nat, i: nat): (k: nat)
    requires i <= |list|
    ensures i <= k <= |list| && (k < |list| ==> IsLive(list[k], offset))
    ensures forall j :: i <= j < k ==> !IsLive(list[j], offset)
    decreases |list| - i
  {
    if i == |list| || IsLive(list[i], offset) then i else FindLive(list, offset, i + 1)
  }

  function FreeSpec(h: Blocks, offset: nat): Result<Blocks, HeapError> {
    var k := FindLive(h.list, offset, 0);
    if k == |h.list| then Err(Untracked(offset))
    else Ok(Blocks(h.list[k := h.list[k].(free := true)], h.bump))
  }

  // ---------------------------------------------------------------- the invariant

  // Blocks i.. of the list lie end to end from address `from` to address `to`.
  predicate Tiles(list: seq<HeapBlock>, from: nat, to: nat)
    decreases |list|
  {
    if list == [] then from == to
    else list[0].offset == from && list[0].size >= 1 && Tiles(list[1..], from + list[0].size, to)
  }

  predicate HeapInv(h: Blocks, memSize: nat) {
    Tiles(h.list, 0, h.bump) && h.bump <= memSize < LIMIT
  }

  // The live blocks: where each starts and how long it is.
  function Live(list: seq<HeapBlock>): map<nat, nat> {
    if list == [] then map[]
    else if list[0].free then Live(list[1..])
    else Live(list[1..])[list[0].offset := list[0].size]
  }

  // Where blocks start.
  function Boundaries(list: seq<HeapBlock>): set<nat> {
    set i | 0 <= i < |list| :: list[i].offset
  }

  // ---------------------------------------------------------------- facts about tilings

  lemma {:induction false} TilesAppend(a: seq<HeapBlock>, b: seq<HeapBlock>, from: nat, mid: nat, to: nat)
    requires Tiles(a, from, mid) && Tiles(b, mid, to)
    ensures Tiles(a + b, from, to)
    decreases |a|
  {
    if a == [] {
      assert a + b == b;
    } else {
      TilesAppend(a[1..], b, from + a[0].size, mid, to);
      assert (a + b)[1..] == a[1..] + b;
    }
  }

  // A tiling splits at any block.
  lemma {:induction false} TilesSplit(list: seq<HeapBlock>, from: nat, to: nat, k: nat) returns (mid: nat)
    requires Tiles(list, from, to) && k <= |list|
    ensures from <= mid <= to && Tiles(list[..k], from, mid) && Tiles(list[k..], mid, to)
    decreases |list|
  {
    if k == 0 {
      mid := from;
      assert list[0..] == list;
      TilesGrow(list, from, to);
    } else {
      mid := TilesSplit(list[1..], from + list[0].size, to, k - 1);
      assert list[1..][..k - 1] == list[..k][1..];
      assert list[1..][k - 1..] == list[k..];
    }
  }

  lemma {:induction false} TilesGrow(list: seq<HeapBlock>, from: nat, to: nat)
    requires Tiles(list, from, to)
    ensures from <= to && |list| <= to - from
    decreases |list|
  {
    if list != [] { TilesGrow(list[1..], from + list[0].size, to); }
  }

  // Each block lies within the tiled range, and a block ends where or before a later one starts.
  lemma {:induction false} TilesOrdered(list: seq<HeapBlock>, from: nat, to: nat, i: nat, j: nat)
    requires Tiles(list, from, to) && i < |list| && i <= j < |list|
    ensures from <= list[i].offset && list[i].offset + list[i].size <= to && list[i].size >= 1
    ensures i < j ==> list[i].offset + list[i].size <= list[j].offset
    decreases |list|
  {
    TilesGrow(list[1..], from + list[0].size, to);
    if i > 0 {
      TilesOrdered(list[1..], from + list[0].size, to, i - 1, j - 1);
    } else if j > 0 {
      TilesOrdered(list[1..], from + list[0].size, to, j - 1, j - 1);
    }
  }

  lemma {:induction false} LiveBounds(list: seq<HeapBlock>, from: nat, to: nat)
    requires Tiles(list, from, to)
    ensures forall o :: o in Live(list) ==> from <= o && o + Live(list)[o] <= to && Live(list)[o] >= 1
    decreases |list|
  {
    if list != [] {
      LiveBounds(list[1..], from + list[0].size, to);
      TilesGrow(list[1..], from + list[0].size, to);
    }
  }

  lemma {:induction false} LiveAppend(a: seq<HeapBlock>, b: seq<HeapBlock>, from: nat, mid: nat, to: nat)
    requires Tiles(a, from, mid) && Tiles(b, mid, to)
    ensures Live(a + b) == Live(a) + Live(b)
    decreases |a|
  {
    if a == [] {
      assert a + b == b;
    } else {
      LiveAppend(a[1..], b, from + a[0].size, mid, to);
      assert (a + b)[1..] == a[1..] + b;
      LiveBounds(b, mid, to);
      TilesGrow(a[1..], from + a[0].size, mid);
    }
  }

  // Live blocks never overlap.
  lemma {:induction false} LiveDisjoint(list: seq<HeapBlock>, from: nat, to: nat, o: nat, q: nat)
    requires Tiles(list, from, to) && o in Live(list) && q in Live(list) && o < q
    ensures o + Live(list)[o] <= q
    decreases |list|
  {
    var rest := list[1..];
    LiveBounds(rest, from + list[0].size, to);
    if o in Live(rest) && (list[0].free || o != list[0].offset) {
      LiveDisjoint(rest, from + list[0].size, to, o, q);
    }
  }

  // A live offset is the offset of exactly one block of the list.
  lemma {:induction false} LiveIsBlock(list: seq<HeapBlock>, from: nat, to: nat, k: nat)
    requires Tiles(list, from, to) && k < |list|
    ensures list[k].offset in Live(list) <==> !list[k].free
    ensures !list[k].free ==> Live(list)[list[k].offset] == list[k].size
    decreases |list|
  {
    var rest := list[1..];
    LiveBounds(rest, from + list[0].size, to);
    if k > 0 {
      LiveIsBlock(rest, from + list[0].size, to, k - 1);
      TilesOrdered(list, from, to, 0, k);
    }
  }

  lemma {:induction false} LiveHasBlock(list: seq<HeapBlock>, o: nat) returns (k: nat)
    requires o in Live(list)
    ensures k < |list| && IsLive(list[k], o)
  {
    if !list[0].free && list[0].offset == o {
      k := 0;
    } else {
      k := LiveHasBlock(list[1..], o);
      k := k + 1;
    }
  }

  // ---------------------------------------------------------------- allocation

  // A list around block k.
  lemma AroundBlock(list: seq<HeapBlock>, to: nat, k: nat, part: seq<HeapBlock>)
    requires Tiles(list, 0, to) && k < |list| && Tiles(part, list[k].offset, list[k].offset + list[k].size)
    ensures Tiles(list[..k] + part + list[k + 1..], 0, to)
    ensures Live(list[..k] + part + list[k + 1..]) == Live(list[..k]) + Live(part) + Live(list[k + 1..])
    ensures forall o :: o in Live(list[..k]) || o in Live(list[k + 1..]) ==> o < list[k].offset || o >= list[k].offset + list[k].size
  {
    var mid := TilesSplit(list, 0, to, k);
    var b := list[k];
    assert list[k..][1..] == list[k + 1..] && list[k..][0] == b;
    var end := mid + b.size;
    assert b.offset == mid && Tiles(list[k + 1..], end, to);
    hide Tiles, Live;
    var before, after := list[..k], list[k + 1..];
    TilesGrow(after, end, to);
    TilesAppend(before, part, 0, mid, end);
    TilesAppend(before + part, after, 0, end, to);
    LiveAppend(before, part, 0, mid, end);
    LiveAppend(before + part, after, 0, end, to);
    LiveBounds(before, 0, mid);
    LiveBounds(after, end, to);
  }

  // A key that two maps lack, put between them and taken away again.
  lemma BetweenMaps(a: map<nat, nat>, b: map<nat, nat>, o: nat, n: nat)
    requires o !in a && o !in b
    ensures o !in a + map[] + b && a + map[o := n] + b == (a + map[] + b)[o := n]
    ensures a + map[] + b == (a + map[o := n] + b) - {o}
  {
  }

  lemma OneBlock(b: HeapBlock)
    requires b.size >= 1
    ensures Tiles([b], b.offset, b.offset + b.size)
    ensures Live([b]) == if b.free then map[] else map[b.offset := b.size]
  {
    assert [b][1..] == [];
  }

  // What a free block becomes when its first `size` bytes are taken.
  function Taken(b: HeapBlock, size: nat): seq<HeapBlock>
    requires 0 < size <= b.size
  {
    var used := HeapBlock(b.offset, size, false);
    if b.size > size then [used, HeapBlock(b.offset + size, b.size - size, true)] else [used]
  }

  lemma TakenTiles(b: HeapBlock, size: nat)
    requires 0 < size <= b.size
    ensures Tiles(Taken(b, size), b.offset, b.offset + b.size) && Live(Taken(b, size)) == map[b.offset := size]
  {
    hide Tiles, Live;
    var used, rest := HeapBlock(b.offset, size, false), HeapBlock(b.offset + size, b.size - size, true);
    OneBlock(used);
    if b.size > size {
      OneBlock(rest);
      assert Taken(b, size) == [used] + [rest];
      TilesAppend([used], [rest], b.offset, b.offset + size, b.offset + b.size);
      LiveAppend([used], [rest], b.offset, b.offset + size, b.offset + b.size);
    }
  }

  // The live blocks when a free block is put to use, in whole or in part.
  lemma SplitKeeps(list: seq<HeapBlock>, to: nat, k: nat, size: nat)
    requires Tiles(list, 0, to) && k < |list| && 0 < size && Fits(list[k], size)
    ensures Tiles(Split(list, k, size), 0, to)
    ensures list[k].offset !in Live(list) && Live(Split(list, k, size)) == Live(list)[list[k].offset := size]
  {
    var b := list[k];
    assert Split(list, k, size) == list[..k] + Taken(b, size) + list[k + 1..];
    assert list == list[..k] + [b] + list[k + 1..];
    hide Tiles, Live, Split, Taken;
    TilesOrdered(list, 0, to, k, k);
    OneBlock(b);
    TakenTiles(b, size);
    AroundBlock(list, to, k, Taken(b, size));
    AroundBlock(list, to, k, [b]);
    BetweenMaps(Live(list[..k]), Live(list[k + 1..]), b.offset, size);
  }

  lemma ReplaceBoundaries(list: seq<HeapBlock>, k: nat, size: nat)
    requires k < |list| && 0 < size <= list[k].size
    ensures Boundaries(list) <= Boundaries(Split(list, k, size))
  {
    var r := Split(list, k, size);
    forall i | 0 <= i < |list| ensures list[i].offset in Boundaries(r) {
      var j := if i <= k then i else i + |r| - |list|;
      assert r[j].offset == list[i].offset;
    }
  }

  // What an allocation gives: a block that was not live, exactly as long as asked, at the lowest address
  // where a free block fits and at the bump pointer if none does; nothing else changes hands, and
  // boundaries are only added.
  lemma AllocGives(h: Blocks, memSize: nat, size: nat, h': Blocks, offset: nat)
    requires HeapInv(h, memSize) && AllocSpec(h, memSize, size) == Ok((h', offset))
    ensures HeapInv(h', memSize)
    ensures offset !in Live(h.list) && Live(h'.list) == Live(h.list)[offset := Requested(size)]
    ensures Boundaries(h.list) <= Boundaries(h'.list) && h.bump <= h'.bump
    ensures forall j :: 0 <= j < |h.list| && Fits(h.list[j], Requested(size)) ==> offset <= h.list[j].offset
    ensures offset != h.bump ==> exists j :: 0 <= j < |h.list| && Fits(h.list[j], Requested(size)) && h.list[j].offset == offset
  {
    var n := Requested(size);
    var k := FirstFit(h.list, n, 0);
    hide Tiles, Live;
    if k < |h.list| {
      SplitKeeps(h.list, h.bump, k, n);
      ReplaceBoundaries(h.list, k, n);
      forall j | 0 <= j < |h.list| && Fits(h.list[j], n) ensures offset <= h.list[j].offset {
        TilesOrdered(h.list, 0, h.bump, k, j);
      }
    } else {
      BumpKeeps(h.list, h.bump, n);
      forall i | 0 <= i < |h.list| ensures h.list[i].offset in Boundaries(h'.list) {
        assert h'.list[i] == h.list[i];
      }
    }
  }

  // An allocation adds at most the two ends of the new block to the block boundaries, and moves the bump pointer
  // only when the block is carved from there.
  lemma AllocExtent(h: Blocks, memSize: nat, size: nat, h': Blocks, offset: nat)
    requires HeapInv(h, memSize) && AllocSpec(h, memSize, size) == Ok((h', offset))
    ensures Boundaries(h'.list) <= Boundaries(h.list) + {offset, offset + Requested(size)}
    ensures h'.bump == if offset == h.bump then h.bump + Requested(size) else h.bump
  {
    var n := Requested(size);
    var k := FirstFit(h.list, n, 0);
    hide Tiles, Requested;
    if k < |h.list| {
      TilesOrdered(h.list, 0, h.bump, k, k);
      SplitBoundaries(h.list, k, n);
    } else {
      assert forall j :: 0 <= j < |h'.list| ==> h'.list[j].offset == if j < |h.list| then h.list[j].offset else offset;
    }
  }

  lemma SplitBoundaries(list: seq<HeapBlock>, k: nat, size: nat)
    requires k < |list| && 0 < size <= list[k].size
    ensures Boundaries(Split(list, k, size)) <= Boundaries(list) + {list[k].offset + size}
  {
    var cut := Split(list, k, size);
    forall j | 0 <= j < |cut| ensures cut[j].offset in Boundaries(list) || cut[j].offset == list[k].offset + size {
      if j <= k {
        assert cut[j].offset == list[j].offset;
      } else if |cut| > |list| {
        if j > k + 1 { assert cut[j] == list[j - 1]; }
      } else {
        assert cut[j] == list[j];
      }
    }
  }

  lemma BumpKeeps(list: seq<HeapBlock>, bump: nat, n: nat)
    requires Tiles(list, 0, bump) && n >= 1
    ensures Tiles(list + [HeapBlock(bump, n, false)], 0, bump + n)
    ensures bump !in Live(list) && Live(list + [HeapBlock(bump, n, false)]) == Live(list)[bump := n]
  {
    hide Tiles, Live;
    var b := [HeapBlock(bump, n, false)];
    OneBlock(b[0]);
    TilesAppend(list, b, 0, bump, bump + n);
    LiveAppend(list, b, 0, bump, bump + n);
    LiveBounds(list, 0, bump);
  }

  // An allocation fails exactly when no free block fits and the rest of the memory is too short.
  lemma AllocFails(h: Blocks, memSize: nat, size: nat)
    ensures AllocSpec(h, memSize, size).Err? ==> AllocSpec(h, memSize, size).error == OutOfMemory
    ensures AllocSpec(h, memSize, size).Err? <==>
      (forall j :: 0 <= j < |h.list| ==> !Fits(h.list[j], Requested(size))) && h.bump + Requested(size) > memSize
  {
    var k := FirstFit(h.list, Requested(size), 0);
  }

  // Freeing succeeds exactly on the start of a live block, which stops being live; no boundary moves.
  lemma FreeGives(h: Blocks, memSize: nat, offset: nat)
    requires HeapInv(h, memSize)
    ensures FreeSpec(h, offset).Ok? <==> offset in Live(h.list)
    ensures FreeSpec(h, offset).Err? ==> FreeSpec(h, offset).error == Untracked(offset)
    ensures FreeSpec(h, offset).Ok? ==>
      var h' := FreeSpec(h, offset).value;
      HeapInv(h', memSize) && Live(h'.list) == Live(h.list) - {offset} && Boundaries(h'.list) == Boundaries(h.list)
      && h'.bump == h.bump
  {
    var k := FindLive(h.list, offset, 0);
    if offset in Live(h.list) {
      var j := LiveHasBlock(h.list, offset);
      assert IsLive(h.list[j], offset);
    }
    if k < |h.list| {
      LiveIsBlock(h.list, 0, h.bump, k);
      FreeKeeps(h.list, h.bump, k);
      var list' := h.list[k := h.list[k].(free := true)];
      assert forall i :: 0 <= i < |h.list| ==> list'[i].offset == h.list[i].offset;
    }
  }

  lemma FreeKeeps(list: seq<HeapBlock>, to: nat, k: nat)
    requires Tiles(list, 0, to) && k < |list| && !list[k].free
    ensures Tiles(list[k := list[k].(free := true)], 0, to)
    ensures Live(list[k := list[k].(free := true)]) == Live(list) - {list[k].offset}
  {
    var b := list[k];
    var freed := b.(free := true);
    TilesOrdered(list, 0, to, k, k);
    assert list[k := freed] == list[..k] + [freed] + list[k + 1..];
    assert list == list[..k] + [b] + list[k + 1..];
    hide Tiles, Live;
    OneBlock(b);
    OneBlock(freed);
    AroundBlock(list, to, k, [freed]);
    AroundBlock(list, to, k, [b]);
    BetweenMaps(Live(list[..k]), Live(list[k + 1..]), b.offset, b.size);
  }

  // ---------------------------------------------------------------- reallocation

  function ReallocSpec(h: Blocks, memSize: nat, offset: nat, newSize: nat): Result<(Blocks, nat), HeapError> {
    var k := FindLive(h.list, offset, 0);
    if k == |h.list| then Err(Untracked(offset))
    else
      match AllocSpec(h, memSize, newSize)
      case Err(e) => Err(e)
      case Ok(r) =>
        (match FreeSpec(r.0, offset)
         case Err(e) => Err(e)
         case Ok(h') => Ok((h', r.1)))
  }

  // The old and the new block of a reallocation never overlap, so that the copy is well defined; the old
  // one ends up free and the new one live.
  lemma ReallocGives(h: Blocks, memSize: nat, offset: nat, newSize: nat)
    requires HeapInv(h, memSize)
    ensures offset !in Live(h.list) ==> ReallocSpec(h, memSize, offset, newSize) == Err(Untracked(offset))
    ensures offset in Live(h.list) && AllocSpec(h, memSize, newSize).Err? ==>
      ReallocSpec(h, memSize, offset, newSize) == Err(OutOfMemory)
    ensures offset in Live(h.list) && AllocSpec(h, memSize, newSize).Ok? ==>
      var newOffset := AllocSpec(h, memSize, newSize).value.1;
      && ReallocSpec(h, memSize, offset, newSize).Ok?
      && ReallocSpec(h, memSize, offset, newSize).value.1 == newOffset
      && var h' := ReallocSpec(h, memSize, offset, newSize).value.0;
      && HeapInv(h', memSize) && Boundaries(h.list) <= Boundaries(h'.list)
      && Live(h'.list) == (Live(h.list) - {offset})[newOffset := Requested(newSize)]
      && (newOffset + Requested(newSize) <= offset || offset + Live(h.list)[offset] <= newOffset)
  {
    FreeGives(h, memSize, offset);
    hide Tiles, Live, Boundaries, Split, FirstFit;
    if offset in Live(h.list) && AllocSpec(h, memSize, newSize).Ok? {
      var (h1, newOffset) := AllocSpec(h, memSize, newSize).value;
      AllocGives(h, memSize, newSize, h1, newOffset);
      FreeGives(h1, memSize, offset);
      TwoLive(h1, memSize, newOffset, offset);
    }
  }

  lemma TwoLive(h: Blocks, memSize: nat, a: nat, b: nat)
    requires HeapInv(h, memSize) && a in Live(h.list) && b in Live(h.list) && a != b
    ensures a + Live(h.list)[a] <= b || b + Live(h.list)[b] <= a
  {
    hide Tiles, Live;
    if a < b { LiveDisjoint(h.list, 0, h.bump, a, b); } else { LiveDisjoint(h.list, 0, h.bump, b, a); }
  }

  // ---------------------------------------------------------------- whole runs

  datatype Op = AllocOp(size: nat) | FreeOp(offset: nat) | ReallocOp(offset: nat, size: nat)

  // An operation that throws leaves the blocks as they are.
  function Perform(h: Blocks, memSize: nat, op: Op): Blocks {
    match op
    case AllocOp(size) => (match AllocSpec(h, memSize, size) case Ok(r) => r.0 case Err(_) => h)
    case FreeOp(offset) => (match FreeSpec(h, offset) case Ok(h') => h' case Err(_) => h)
    case ReallocOp(offset, size) => (match ReallocSpec(h, memSize, offset, size) case Ok(r) => r.0 case Err(_) => h)
  }

  function PerformAll(h: Blocks, memSize: nat, ops: seq<Op>): Blocks {
    if ops == [] then h else Perform(PerformAll(h, memSize, ops[..|ops| - 1]), memSize, ops[|ops| - 1])
  }

  const EMPTY: Blocks := Blocks([], 0)

  lemma PerformKeeps(h: Blocks, memSize: nat, op: Op)
    requires HeapInv(h, memSize)
    ensures HeapInv(Perform(h, memSize, op), memSize)
    ensures Boundaries(h.list) <= Boundaries(Perform(h, memSize, op).list)
  {
    hide Tiles, Live, Boundaries, Split, FirstFit, AllocSpec, FreeSpec, ReallocSpec, HeapInv;
    match op {
      case AllocOp(size) =>
        if AllocSpec(h, memSize, size).Ok? {
          var (h', o) := AllocSpec(h, memSize, size).value;
          AllocGives(h, memSize, size, h', o);
        }
      case FreeOp(offset) => FreeGives(h, memSize, offset);
      case ReallocOp(offset, size) => ReallocGives(h, memSize, offset, size);
    }
  }

  // Safety over every run: the blocks tile the used part of the memory...
  lemma {:induction false} EveryRunTiles(memSize: nat, ops: seq<Op>)
    requires memSize < LIMIT
    ensures HeapInv(PerformAll(EMPTY, memSize, ops), memSize)
  {
    hide Perform;
    if ops != [] {
      var m := |ops| - 1;
      EveryRunTiles(memSize, ops[..m]);
      PerformKeeps(PerformAll(EMPTY, memSize, ops[..m]), memSize, ops[m]);
    }
  }

  // ...and boundaries only ever get finer.
  lemma {:induction false} EveryRunRefines(memSize: nat, ops: seq<Op>, n: nat)
    requires memSize < LIMIT && n <= |ops|
    ensures Boundaries(PerformAll(EMPTY, memSize, ops[..n]).list) <= Boundaries(PerformAll(EMPTY, memSize, ops).list)
    decreases |ops|
  {
    hide Perform, Boundaries;
    if |ops| == n {
      assert ops[..n] == ops;
    } else {
      var m := |ops| - 1;
      EveryRunRefines(memSize, ops[..m], n);
      assert ops[..m][..n] == ops[..n];
      EveryRunTiles(memSize, ops[..m]);
      PerformKeeps(PerformAll(EMPTY, memSize, ops[..m]), memSize, ops[m]);
    }
  }

  // ---------------------------------------------------------------- the heap object

  lemma SplitIs(list: seq<HeapBlock>, k: nat, n: nat, r: seq<HeapBlock>)
    requires k < |list| && 0 < n <= list[k].size
    requires var cut := list[k := HeapBlock(list[k].offset, n, false)];
             r == if list[k].size > n then cut[..k + 1] + [HeapBlock(list[k].offset + n, list[k].size - n, true)] + cut[k + 1..] else cut
    ensures r == Split(list, k, n)
  {
  }

  lemma ReallocBounds(h: Blocks, memSize: nat, offset: nat, newSize: nat)
    requires HeapInv(h, memSize) && ReallocSpec(h, memSize, offset, newSize).Ok?
    ensures offset in Live(h.list) && offset + Live(h.list)[offset] <= memSize
    ensures ReallocSpec(h, memSize, offset, newSize).value.1 + Requested(newSize) <= memSize
    ensures HeapInv(ReallocSpec(h, memSize, offset, newSize).value.0, memSize)
  {
    hide Tiles, Live, Boundaries, ReallocSpec, AllocSpec;
    ReallocGives(h, memSize, offset, newSize);
    LiveBounds(h.list, 0, h.bump);
    var (h', o) := ReallocSpec(h, memSize, offset, newSize).value;
    LiveBounds(h'.list, 0, h'.bump);
    assert o in Live(h'.list);
  }

  class HeapMemory {
    const memory: array<Byte>
    var heapBlocks: seq<HeapBlock>
    var heapBumpPtr: nat

    ghost predicate Valid()
      reads this
    {
      HeapInv(State(), memory.Length)
    }

    ghost function State(): Blocks
      reads this
    {
      Blocks(heapBlocks, heapBumpPtr)
    }

    constructor (memorySize: nat)
      requires memorySize < LIMIT
      ensures Valid() && fresh(memory) && memory.Length == memorySize && State() == EMPTY
      ensures forall a :: 0 <= a < memorySize ==> memory[a] == 0
    {
      memory := new Byte[memorySize](_ => 0);
      heapBlocks := [];
      heapBumpPtr := 0;
    }

    method Alloc(size: nat) returns (r: Result<nat, HeapError>)
      requires Valid() && size < LIMIT
      modifies this
      ensures Valid()
      ensures match AllocSpec(old(State()), memory.Length, size)
              case Ok(p) => r == Ok(p.1) && State() == p.0
              case Err(e) => r == Err(e) && State() == old(State())
    {
      ghost var h := State();
      hide Tiles, Live, HeapInv, Boundaries;
      assert AllocSpec(h, memory.Length, size).Ok? ==> HeapInv(AllocSpec(h, memory.Length, size).value.0, memory.Length) by {
        hide AllocSpec;
        if AllocSpec(h, memory.Length, size).Ok? {
          AllocGives(h, memory.Length, size, AllocSpec(h, memory.Length, size).value.0, AllocSpec(h, memory.Length, size).value.1);
        }
      }
      var n := if size == 0 then 1 else size;
      var i := 0;
      while i < |heapBlocks|
        invariant 0 <= i <= |heapBlocks| && State() == h
        invariant FirstFit(heapBlocks, n, 0) == FirstFit(heapBlocks, n, i)
      {
        var b := heapBlocks[i];
        if b.free && b.size >= n {
          heapBlocks := heapBlocks[i := HeapBlock(b.offset, n, false)];
          if b.size > n {
            heapBlocks := heapBlocks[..i + 1] + [HeapBlock(b.offset + n, b.size - n, true)] + heapBlocks[i + 1..];
          }
          SplitIs(h.list, i, n, heapBlocks);
          return Ok(b.offset);
        }
        i := i + 1;
      }
      if heapBumpPtr + n > memory.Length { return Err(OutOfMemory); }
      r := Ok(heapBumpPtr);
      heapBlocks := heapBlocks + [HeapBlock(heapBumpPtr, n, false)];
      heapBumpPtr := heapBumpPtr + n;
    }

    method Free(offset: nat) returns (r: Result<(), HeapError>)
      requires Valid()
      modifies this
      ensures Valid()
      ensures match FreeSpec(old(State()), offset)
              case Ok(h) => r == Ok(()) && State() == h
              case Err(e) => r == Err(e) && State() == old(State())
    {
      ghost var h := State();
      FreeGives(h, memory.Length, offset);
      hide Tiles, Live, HeapInv, Boundaries;
      var i := 0;
      while i < |heapBlocks|
        invariant 0 <= i <= |heapBlocks| && State() == h
        invariant FindLive(heapBlocks, offset, 0) == FindLive(heapBlocks, offset, i)
      {
        if heapBlocks[i].offset == offset && !heapBlocks[i].free {
          heapBlocks := heapBlocks[i := heapBlocks[i].(free := true)];
          return Ok(());
        }
        i := i + 1;
      }
      r := Err(Untracked(offset));
    }

    method BlockSize(offset: nat) returns (r: Result<nat, HeapError>)
      requires Valid()
      ensures r == if offset in Live(heapBlocks) then Ok(Live(heapBlocks)[offset]) else Err(Untracked(offset))
    {
      if offset in Live(heapBlocks) {
        ghost var j := LiveHasBlock(heapBlocks, offset);
        assert IsLive(heapBlocks[j], offset);
      }
      var i := 0;
      while i < |heapBlocks|
        invariant 0 <= i <= |heapBlocks|
        invariant FindLive(heapBlocks, offset, 0) == FindLive(heapBlocks, offset, i)
      {
        if heapBlocks[i].offset == offset && !heapBlocks[i].free {
          LiveIsBlock(heapBlocks, 0, heapBumpPtr, i);
          return Ok(heapBlocks[i].size);
        }
        i := i + 1;
      }
      r := Err(Untracked(offset));
    }

    // memcpy: the ranges must not overlap.
    method MemCpy(dst: nat, src: nat, len: nat)
      requires dst + len <= memory.Length && src + len <= memory.Length
      requires dst + len <= src || src + len <= dst || len == 0
      modifies memory
      ensures forall a :: 0 <= a < memory.Length ==>
        memory[a] == if dst <= a < dst + len then old(memory[src + (a - dst)]) else old(memory[a])
    {
      var i := 0;
      while i < len
        invariant 0 <= i <= len
        invariant forall a :: 0 <= a < memory.Length ==>
          memory[a] == if dst <= a < dst + i then old(memory[src + (a - dst)]) else old(memory[a])
      {
        memory[dst + i] := memory[src + i];
        i := i + 1;
      }
    }

    // realloc: the contents move, no byte outside the new block changes, and when it throws nothing does.
    method Realloc(offset: nat, newSize: nat) returns (r: Result<nat, HeapError>)
      requires Valid() && newSize < LIMIT
      modifies this, memory
      ensures Valid()
      ensures match ReallocSpec(old(State()), memory.Length, offset, newSize)
              case Ok(p) => r == Ok(p.1) && State() == p.0
              case Err(e) => r == Err(e) && State() == old(State())
      ensures r.Err? ==> memory[..] == old(memory[..])
      ensures r.Ok? ==> r.value + Requested(newSize) <= memory.Length
      ensures r.Ok? ==> offset in old(Live(heapBlocks)) && offset + old(Live(heapBlocks)[offset]) <= memory.Length
      ensures r.Ok? ==>
        var kept := Minimum(old(Live(heapBlocks)[offset]), newSize);
        forall a :: 0 <= a < memory.Length ==>
          memory[a] == if r.value <= a < r.value + kept then old(memory[offset + (a - r.value)]) else old(memory[a])
    {
      hide Tiles, Live, Boundaries, Split, FirstFit, FreeSpec, HeapInv, AllocSpec;
      ghost var h := State();
      ReallocGives(h, memory.Length, offset, newSize);
      if ReallocSpec(h, memory.Length, offset, newSize).Ok? { ReallocBounds(h, memory.Length, offset, newSize); }
      var oldSize := BlockSize(offset);
      if oldSize.Err? { return Err(oldSize.error); }
      FindLiveWhenLive(h.list, offset);
      var newOffset := Alloc(newSize);
      if newOffset.Err? { return Err(newOffset.error); }
      var copyLen := if oldSize.value < newSize then oldSize.value else newSize;
      if copyLen > 0 { MemCpy(newOffset.value, offset, copyLen); }
      FreeGives(State(), memory.Length, offset);
      var freed := Free(offset);
      r := Ok(newOffset.value);
    }
  }

  function Minimum(a: nat, b: nat): nat { if a < b then a else b }

  lemma FindLiveWhenLive(list: seq<HeapBlock>, offset: nat)
    requires offset in Live(list)
    ensures FindLive(list, offset, 0) < |list|
  {
    var k := LiveHasBlock(list, offset);
    assert IsLive(list[k], offset);
  }
}
