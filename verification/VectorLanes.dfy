// Vector compress and expand: between registers (src/vm/vector_ops.cpp) and between a register and memory
// (src/vm/interpreter.cpp). A vector register is 64 bytes; a vector of n lanes of ls bytes uses the first
// n * ls of them. A mask is the number whose bit i stands for lane i.

module VectorLanes {
  import opened Ast
  import opened Bits

  const REGISTER_BYTES: nat := 64

  // ---------------------------------------------------------------- compress and expand on lanes

  // How many of the lanes below n the mask selects.
  function Rank(mask: nat, n: nat): (k: nat)
    ensures k <= n
  {
    if n == 0 then 0 else Rank(mask, n - 1) + BoolBit(Bit(mask, n - 1))
  }

  lemma {:induction false} RankMonotone(mask: nat, i: nat, n: nat)
    requires i <= n
    ensures Rank(mask, i) <= Rank(mask, n)
    ensures i < n && Bit(mask, i) ==> Rank(mask, i) < Rank(mask, n)
    decreases n
  {
    if i < n { RankMonotone(mask, i, n - 1); }
  }

  // The selected ones among the first n lanes, in order.
  function Packed<T>(lanes: seq<T>, mask: nat, n: nat): (r: seq<T>)
    requires n <= |lanes|
    ensures |r| == Rank(mask, n)
    decreases n
  {
    if n == 0 then []
    else Packed(lanes, mask, n - 1) + if Bit(mask, n - 1) then [lanes[n - 1]] else []
  }

  function Fill<T>(x: T, n: nat): (r: seq<T>)
    ensures |r| == n
  {
    seq(n, _ => x)
  }

  function Compressed<T>(lanes: seq<T>, mask: nat, zero: T): (r: seq<T>)
    ensures |r| == |lanes|
  {
    Packed(lanes, mask, |lanes|) + Fill(zero, |lanes| - Rank(mask, |lanes|))
  }

  function Expanded<T>(lanes: seq<T>, mask: nat, zero: T): (r: seq<T>)
    ensures |r| == |lanes|
  {
    seq(|lanes|, i requires 0 <= i < |lanes| => if Bit(mask, i) then lanes[Rank(mask, i)] else zero)
  }

  // The selected lanes where they are, and zero elsewhere.
  function Masked<T>(lanes: seq<T>, mask: nat, zero: T): (r: seq<T>)
    ensures |r| == |lanes|
  {
    seq(|lanes|, i requires 0 <= i < |lanes| => if Bit(mask, i) then lanes[i] else zero)
  }

  lemma {:induction false} PackedAt<T>(lanes: seq<T>, mask: nat, n: nat, i: nat)
    requires i < n <= |lanes| && Bit(mask, i)
    ensures Rank(mask, i) < Rank(mask, n) && Packed(lanes, mask, n)[Rank(mask, i)] == lanes[i]
    decreases n
  {
    if i < n - 1 { PackedAt(lanes, mask, n - 1, i); }
  }

  lemma ExpandOfCompress<T>(lanes: seq<T>, mask: nat, zero: T)
    ensures Expanded(Compressed(lanes, mask, zero), mask, zero) == Masked(lanes, mask, zero)
  {
    var c := Compressed(lanes, mask, zero);
    forall i | 0 <= i < |lanes| ensures Expanded(c, mask, zero)[i] == Masked(lanes, mask, zero)[i] {
      if Bit(mask, i) { PackedAt(lanes, mask, |lanes|, i); }
    }
  }

  lemma {:induction false} PackedOfExpanded<T>(lanes: seq<T>, mask: nat, zero: T, n: nat)
    requires n <= |lanes|
    ensures Packed(Expanded(lanes, mask, zero), mask, n) == lanes[..Rank(mask, n)]
    decreases n
  {
    if n > 0 {
      PackedOfExpanded(lanes, mask, zero, n - 1);
      if Bit(mask, n - 1) {
        var k := Rank(mask, n - 1);
        assert lanes[..k + 1] == lanes[..k] + [lanes[k]];
      }
    }
  }

  lemma CompressOfExpand<T>(lanes: seq<T>, mask: nat, zero: T)
    ensures var k := Rank(mask, |lanes|);
      Compressed(Expanded(lanes, mask, zero), mask, zero) == lanes[..k] + Fill(zero, |lanes| - k)
  {
    PackedOfExpanded(lanes, mask, zero, |lanes|);
  }

  // ---------------------------------------------------------------- lanes of bytes

  // Where lane i starts.
  function Offset(ls: nat, i: nat): nat {
    if i == 0 then 0 else Offset(ls, i - 1) + ls
  }

  lemma {:induction false} OffsetIsProduct(ls: nat, i: nat)
    ensures Offset(ls, i) == i * ls
  {
    if i > 0 {
      OffsetIsProduct(ls, i - 1);
      assert i * ls == (i - 1) * ls + ls;
    }
  }

  lemma {:induction false} OffsetMonotone(ls: nat, i: nat, j: nat)
    requires i <= j
    ensures Offset(ls, i) <= Offset(ls, j) && (i < j ==> Offset(ls, i) + ls <= Offset(ls, j))
    decreases j
  {
    if i < j { OffsetMonotone(ls, i, j - 1); }
  }

  function LaneAt(v: seq<Byte>, ls: nat, i: nat): (lane: seq<Byte>)
    requires Offset(ls, i) + ls <= |v|
    ensures |lane| == ls
  {
    v[Offset(ls, i)..Offset(ls, i) + ls]
  }

  function Lanes(v: seq<Byte>, ls: nat, n: nat): (r: seq<seq<Byte>>)
    requires Offset(ls, n) <= |v|
    ensures |r| == n
    decreases n
  {
    if n == 0 then [] else Lanes(v, ls, n - 1) + [LaneAt(v, ls, n - 1)]
  }

  lemma {:induction false} LanesAt(v: seq<Byte>, ls: nat, n: nat, i: nat)
    requires Offset(ls, n) <= |v| && i < n
    ensures Offset(ls, i) + ls <= |v| && Lanes(v, ls, n)[i] == LaneAt(v, ls, i)
    decreases n
  {
    if i < n - 1 { LanesAt(v, ls, n - 1, i); }
  }

  function Zeros(n: nat): seq<Byte> { Fill(0, n) }

  // A register as lanes, equal when the lanes are.
  lemma LanesEqual(v: seq<Byte>, ls: nat, n: nat, lanes: seq<seq<Byte>>)
    requires Offset(ls, n) <= |v| && |lanes| == n
    requires forall i :: 0 <= i < n ==> Offset(ls, i) + ls <= |v| && LaneAt(v, ls, i) == lanes[i]
    ensures Lanes(v, ls, n) == lanes
  {
    forall i | 0 <= i < n ensures Lanes(v, ls, n)[i] == lanes[i] { LanesAt(v, ls, n, i); }
  }

  lemma ZeroLanes(v: seq<Byte>, ls: nat, n: nat)
    requires Offset(ls, n) <= |v| && forall i :: 0 <= i < |v| ==> v[i] == 0
    ensures Lanes(v, ls, n) == Fill(Zeros(ls), n)
  {
    forall i | 0 <= i < n ensures Offset(ls, i) + ls <= |v| && LaneAt(v, ls, i) == Fill(Zeros(ls), n)[i] {
      OffsetMonotone(ls, i, n);
    }
    LanesEqual(v, ls, n, Fill(Zeros(ls), n));
  }

  // w is v with `lane` written at position o.
  predicate Written(v: seq<Byte>, w: seq<Byte>, o: nat, lane: seq<Byte>) {
    |v| == |w| && o + |lane| <= |v| &&
    forall i :: 0 <= i < |v| ==> w[i] == if o <= i < o + |lane| then lane[i - o] else v[i]
  }

  lemma WrittenSlice(v: seq<Byte>, w: seq<Byte>, o: nat, lane: seq<Byte>, a: nat)
    requires Written(v, w, o, lane) && a + |lane| <= |v| && (a == o || a + |lane| <= o || o + |lane| <= a)
    ensures w[a..a + |lane|] == if a == o then lane else v[a..a + |lane|]
  {
  }

  // Writing lane k changes that lane and no other.
  lemma LanesWith(v: seq<Byte>, w: seq<Byte>, ls: nat, n: nat, k: nat, lane: seq<Byte>)
    requires Offset(ls, n) <= |v| && k < n && |lane| == ls && Written(v, w, Offset(ls, k), lane)
    ensures |v| == |w| && Lanes(w, ls, n) == Lanes(v, ls, n)[k := lane]
  {
    hide Offset, Lanes;
    var want := Lanes(v, ls, n)[k := lane];
    forall i | 0 <= i < n ensures Offset(ls, i) + ls <= |w| && LaneAt(w, ls, i) == want[i] {
      OffsetMonotone(ls, i, n);
      LanesAt(v, ls, n, i);
      if i < k { OffsetMonotone(ls, i, k); } else if k < i { OffsetMonotone(ls, k, i); }
      if i == k || ls > 0 { WrittenSlice(v, w, Offset(ls, k), lane, Offset(ls, i)); }
    }
    LanesEqual(w, ls, n, want);
  }

  // ---------------------------------------------------------------- between registers

  // vectorSetLane.
  method SetLane(v: array<Byte>, ls: nat, n: nat, index: nat, lane: seq<Byte>)
    requires index < n && Offset(ls, n) <= v.Length && |lane| == ls
    modifies v
    ensures Lanes(v[..], ls, n) == old(Lanes(v[..], ls, n))[index := lane]
  {
    ghost var was := v[..];
    OffsetMonotone(ls, index, n);
    OffsetIsProduct(ls, index);
    var o := index * ls;
    for j := 0 to ls
      invariant forall i :: 0 <= i < v.Length ==> v[i] == if o <= i < o + j then lane[i - o] else was[i]
    {
      v[o + j] := lane[j];
    }
    LanesWith(was, v[..], ls, n, index, lane);
  }

  // vectorGetLane.
  method GetLane(v: array<Byte>, ls: nat, n: nat, index: nat) returns (lane: seq<Byte>)
    requires index < n && Offset(ls, n) <= v.Length
    ensures |lane| == ls && lane == Lanes(v[..], ls, n)[index]
  {
    OffsetMonotone(ls, index, n);
    OffsetIsProduct(ls, index);
    LanesAt(v[..], ls, n, index);
    lane := v[index * ls..index * ls + ls];
  }

  method ZeroRegister(ls: nat, n: nat) returns (out: array<Byte>)
    requires Offset(ls, n) <= REGISTER_BYTES
    ensures fresh(out) && out.Length == REGISTER_BYTES && Lanes(out[..], ls, n) == Fill(Zeros(ls), n)
  {
    out := new Byte[REGISTER_BYTES](_ => 0);
    ZeroLanes(out[..], ls, n);
  }

  // The register after i lanes have been looked at.
  ghost function CompressedSoFar<T>(lanes: seq<T>, mask: nat, zero: T, i: nat): (r: seq<T>)
    requires i <= |lanes|
    ensures |r| == |lanes|
  {
    Packed(lanes, mask, i) + Fill(zero, |lanes| - Rank(mask, i))
  }

  lemma CompressNext<T>(lanes: seq<T>, mask: nat, zero: T, i: nat)
    requires i < |lanes|
    ensures Rank(mask, i + 1) == Rank(mask, i) + BoolBit(Bit(mask, i))
    ensures CompressedSoFar(lanes, mask, zero, i + 1) ==
      if Bit(mask, i) then CompressedSoFar(lanes, mask, zero, i)[Rank(mask, i) := lanes[i]] else CompressedSoFar(lanes, mask, zero, i)
  {
    hide Bit;
  }

  lemma CompressEnds<T>(lanes: seq<T>, mask: nat, zero: T)
    ensures CompressedSoFar(lanes, mask, zero, 0) == Fill(zero, |lanes|)
    ensures CompressedSoFar(lanes, mask, zero, |lanes|) == Compressed(lanes, mask, zero)
    ensures Rank(mask, 0) == 0
  {
  }

  method VCompress(a: array<Byte>, mask: nat, ls: nat, n: nat) returns (out: array<Byte>)
    requires a.Length == REGISTER_BYTES && Offset(ls, n) <= REGISTER_BYTES
    ensures fresh(out) && out.Length == REGISTER_BYTES
    ensures Lanes(out[..], ls, n) == Compressed(Lanes(a[..], ls, n), mask, Zeros(ls))
  {
    hide Lanes, Bit, Offset, Fill, Zeros, CompressedSoFar, Compressed, Rank;
    out := ZeroRegister(ls, n);
    ghost var lanes := Lanes(a[..], ls, n);
    CompressEnds(lanes, mask, Zeros(ls));
    var k := 0;
    for i := 0 to n
      invariant fresh(out) && a[..] == old(a[..])
      invariant k == Rank(mask, i)
      invariant Lanes(out[..], ls, n) == CompressedSoFar(lanes, mask, Zeros(ls), i)
    {
      CompressNext(lanes, mask, Zeros(ls), i);
      if Bit(mask, i) {
        var lane := GetLane(a, ls, n, i);
        SetLane(out, ls, n, k, lane);
        k := k + 1;
      }
    }
  }

  method VExpand(a: array<Byte>, mask: nat, ls: nat, n: nat) returns (out: array<Byte>)
    requires a.Length == REGISTER_BYTES && Offset(ls, n) <= REGISTER_BYTES
    ensures fresh(out) && out.Length == REGISTER_BYTES
    ensures Lanes(out[..], ls, n) == Expanded(Lanes(a[..], ls, n), mask, Zeros(ls))
  {
    hide Lanes, Bit, Offset, Zeros;
    out := ZeroRegister(ls, n);
    ghost var lanes := Lanes(a[..], ls, n);
    ghost var zero := Zeros(ls);
    var k := 0;
    for i := 0 to n
      invariant fresh(out) && a[..] == old(a[..])
      invariant k == Rank(mask, i)
      invariant forall j :: 0 <= j < n ==>
        Lanes(out[..], ls, n)[j] == if j < i then Expanded(lanes, mask, zero)[j] else zero
    {
      if Bit(mask, i) {
        var lane := GetLane(a, ls, n, k);
        SetLane(out, ls, n, i, lane);
        k := k + 1;
      }
    }
  }

  // ---------------------------------------------------------------- between a register and memory

  function Join(lanes: seq<seq<Byte>>): seq<Byte> {
    if lanes == [] then [] else Join(lanes[..|lanes| - 1]) + lanes[|lanes| - 1]
  }

  predicate AllOfSize(lanes: seq<seq<Byte>>, ls: nat) { forall i :: 0 <= i < |lanes| ==> |lanes[i]| == ls }

  lemma {:induction false} JoinLanes(lanes: seq<seq<Byte>>, ls: nat)
    requires AllOfSize(lanes, ls)
    ensures |Join(lanes)| == Offset(ls, |lanes|) && Lanes(Join(lanes), ls, |lanes|) == lanes
  {
    if lanes != [] {
      var n := |lanes| - 1;
      var front := lanes[..n];
      JoinLanes(front, ls);
      LanesPrefix(Join(front), lanes[n], ls, n);
      assert LaneAt(Join(lanes), ls, n) == lanes[n];
    }
  }

  lemma {:induction false} LanesPrefix(v: seq<Byte>, more: seq<Byte>, ls: nat, n: nat)
    requires Offset(ls, n) <= |v|
    ensures Lanes(v + more, ls, n) == Lanes(v, ls, n)
    decreases n
  {
    if n > 0 {
      LanesPrefix(v, more, ls, n - 1);
      assert LaneAt(v + more, ls, n - 1) == LaneAt(v, ls, n - 1);
    }
  }

  lemma {:induction false} PackedSizes(v: seq<Byte>, ls: nat, n: nat, mask: nat, m: nat)
    requires Offset(ls, n) <= |v| && m <= n
    ensures AllOfSize(Packed(Lanes(v, ls, n), mask, m), ls)
    decreases m
  {
    if m > 0 {
      PackedSizes(v, ls, n, mask, m - 1);
      LanesAt(v, ls, n, m - 1);
    }
  }

  datatype MemoryError = OutOfBounds(addr: nat)

  // Selected lane i is the first that goes beyond the end of the memory; `at` is its address.
  predicate StopsAt(addr: nat, mask: nat, ls: nat, size: nat, i: nat, at: nat) {
    && Bit(mask, i) && at == addr + Offset(ls, Rank(mask, i)) && at + ls > size
    && (Rank(mask, i) > 0 ==> at <= size)
  }

  // Memory with bytes written from addr on.
  function Stored(m: seq<Byte>, addr: nat, bytes: seq<Byte>): (r: seq<Byte>)
    requires addr + |bytes| <= |m|
    ensures |r| == |m|
  {
    m[..addr] + bytes + m[addr + |bytes|..]
  }

  lemma StoredNext(m: seq<Byte>, addr: nat, done: seq<Byte>, lane: seq<Byte>)
    requires addr + |done| + |lane| <= |m|
    ensures Stored(Stored(m, addr, done), addr + |done|, lane) == Stored(m, addr, done + lane)
    ensures Stored(m, addr, []) == m
  {
    var r := Stored(m, addr, done);
    assert r[..addr + |done|] == m[..addr] + done;
    assert r[addr + |done| + |lane|..] == m[addr + |done| + |lane|..];
  }

  // What vcompressstore has written after i lanes.
  ghost predicate StoredSoFar(m: seq<Byte>, r: seq<Byte>, addr: nat, lanes: seq<seq<Byte>>, mask: nat, ls: nat, i: nat)
    requires i <= |lanes|
  {
    if Rank(mask, i) == 0 then r == m
    else
      && |Join(Packed(lanes, mask, i))| == Offset(ls, Rank(mask, i))
      && addr + Offset(ls, Rank(mask, i)) <= |m|
      && r == Stored(m, addr, Join(Packed(lanes, mask, i)))
  }

  lemma PackedNext(lanes: seq<seq<Byte>>, mask: nat, ls: nat, i: nat)
    requires i < |lanes| && AllOfSize(lanes, ls)
    ensures Rank(mask, i + 1) == Rank(mask, i) + BoolBit(Bit(mask, i))
    ensures !Bit(mask, i) ==> Packed(lanes, mask, i + 1) == Packed(lanes, mask, i)
    ensures Bit(mask, i) ==> Join(Packed(lanes, mask, i + 1)) == Join(Packed(lanes, mask, i)) + lanes[i] && |lanes[i]| == ls
    ensures Offset(ls, Rank(mask, i) + 1) == Offset(ls, Rank(mask, i)) + ls
    ensures Rank(mask, i) == 0 ==> Join(Packed(lanes, mask, i)) == [] && Offset(ls, 0) == 0
  {
    hide Bit, Join;
    if Bit(mask, i) { JoinNext(Packed(lanes, mask, i), lanes[i]); }
    if Rank(mask, i) == 0 { JoinNothing(Packed(lanes, mask, i)); }
  }

  lemma JoinNothing(lanes: seq<seq<Byte>>)
    ensures lanes == [] ==> Join(lanes) == []
  {
  }

  lemma StoreNext(m: seq<Byte>, r: seq<Byte>, addr: nat, lanes: seq<seq<Byte>>, mask: nat, ls: nat, i: nat)
    requires i < |lanes| && AllOfSize(lanes, ls) && StoredSoFar(m, r, addr, lanes, mask, ls, i)
    ensures Rank(mask, i + 1) == Rank(mask, i) + BoolBit(Bit(mask, i)) && |r| == |m|
    ensures !Bit(mask, i) ==> StoredSoFar(m, r, addr, lanes, mask, ls, i + 1)
    ensures Bit(mask, i) && addr + Offset(ls, Rank(mask, i)) + |lanes[i]| <= |r| ==>
      StoredSoFar(m, Stored(r, addr + Offset(ls, Rank(mask, i)), lanes[i]), addr, lanes, mask, ls, i + 1)
  {
    hide Bit, Stored, Join, Packed, Rank, Offset, AllOfSize;
    PackedNext(lanes, mask, ls, i);
    if Bit(mask, i) && addr + Offset(ls, Rank(mask, i)) + ls <= |r| {
      StoredNext(m, addr, Join(Packed(lanes, mask, i)), lanes[i]);
    }
  }

  lemma StoredReads(m: seq<Byte>, addr: nat, bytes: seq<Byte>)
    requires addr + |bytes| <= |m|
    ensures Stored(m, addr, bytes)[addr..addr + |bytes|] == bytes
    ensures forall a :: 0 <= a < |m| && (a < addr || a >= addr + |bytes|) ==> Stored(m, addr, bytes)[a] == m[a]
  {
  }

  lemma StoreGives(m: seq<Byte>, r: seq<Byte>, addr: nat, lanes: seq<seq<Byte>>, mask: nat, ls: nat, i: nat)
    requires i <= |lanes| && StoredSoFar(m, r, addr, lanes, mask, ls, i)
    ensures Rank(mask, i) > 0 ==> addr + Offset(ls, Rank(mask, i)) <= |r| == |m|
    ensures Rank(mask, i) > 0 ==> r[addr..addr + Offset(ls, Rank(mask, i))] == Join(Packed(lanes, mask, i))
    ensures |r| == |m| && forall a :: 0 <= a < |m| && (a < addr || a >= addr + Offset(ls, Rank(mask, i))) ==> r[a] == m[a]
  {
    hide Stored;
    if Rank(mask, i) > 0 { StoredReads(m, addr, Join(Packed(lanes, mask, i))); }
  }

  lemma LaneSizes(v: seq<Byte>, ls: nat, n: nat)
    requires Offset(ls, n) <= |v|
    ensures AllOfSize(Lanes(v, ls, n), ls)
  {
    forall i | 0 <= i < n ensures |Lanes(v, ls, n)[i]| == ls { LanesAt(v, ls, n, i); }
  }

  // vcompressstore: the selected lanes, one after the other from addr on; no other byte changes. The sums of
  // addresses do not wrap at 2^64.
  method VCompressstore(memory: array<Byte>, addr: nat, mask: nat, src: array<Byte>, ls: nat, n: nat)
    returns (r: Result<(), MemoryError>)
    requires src.Length == REGISTER_BYTES && Offset(ls, n) <= REGISTER_BYTES && src != memory
    modifies memory
    ensures r.Ok? <==> Rank(mask, n) == 0 || addr + Offset(ls, Rank(mask, n)) <= memory.Length
    ensures r.Ok? && Rank(mask, n) > 0 ==>
      memory[addr..addr + Offset(ls, Rank(mask, n))] == Join(Packed(Lanes(src[..], ls, n), mask, n))
    ensures r.Err? ==> exists i ::
      && 0 <= i < n && StopsAt(addr, mask, ls, memory.Length, i, r.error.addr)
      && (Rank(mask, i) > 0 ==> memory[addr..r.error.addr] == Join(Packed(Lanes(src[..], ls, n), mask, i)))
    ensures forall a :: 0 <= a < memory.Length && (a < addr || a >= addr + Offset(ls, Rank(mask, n))) ==>
      memory[a] == old(memory[a])
  {
    hide Lanes, Bit, Rank, Packed, Offset, Stored, StoredSoFar, AllOfSize, Join;
    ghost var lanes, m := Lanes(src[..], ls, n), memory[..];
    LaneSizes(src[..], ls, n);
    var slot := 0;
    StoreStarts(m, addr, lanes, mask, ls);
    for i := 0 to n
      invariant src[..] == old(src[..]) && slot == Rank(mask, i)
      invariant StoredSoFar(m, memory[..], addr, lanes, mask, ls, i)
    {
      StoreNext(m, memory[..], addr, lanes, mask, ls, i);
      if Bit(mask, i) {
        RankMonotone(mask, i + 1, n);
        OffsetMonotone(ls, slot, slot + 1);
        OffsetMonotone(ls, slot + 1, Rank(mask, n));
        OffsetIsProduct(ls, slot);
        var at := addr + slot * ls;
        if at + ls > memory.Length {
          StoreGives(m, memory[..], addr, lanes, mask, ls, i);
          assert StopsAt(addr, mask, ls, memory.Length, i, at);
          return Err(OutOfBounds(at));
        }
        var lane := GetLane(src, ls, n, i);
        WriteBytes(memory, at, lane);
        slot := slot + 1;
      }
    }
    StoreGives(m, memory[..], addr, lanes, mask, ls, n);
    r := Ok(());
  }

  lemma StoreStarts(m: seq<Byte>, addr: nat, lanes: seq<seq<Byte>>, mask: nat, ls: nat)
    ensures Rank(mask, 0) == 0 && StoredSoFar(m, m, addr, lanes, mask, ls, 0)
  {
  }

  lemma JoinNext(lanes: seq<seq<Byte>>, lane: seq<Byte>)
    ensures Join(lanes + [lane]) == Join(lanes) + lane
  {
    assert (lanes + [lane])[..|lanes|] == lanes;
  }

  method WriteBytes(memory: array<Byte>, at: nat, bytes: seq<Byte>)
    requires at + |bytes| <= memory.Length
    modifies memory
    ensures memory[..] == Stored(old(memory[..]), at, bytes)
  {
    for j := 0 to |bytes|
      invariant forall i :: 0 <= i < memory.Length ==> memory[i] == if at <= i < at + j then bytes[i - at] else old(memory[i])
    {
      memory[at + j] := bytes[j];
    }
  }

  // What vexpandload reads: lane i is the next lane in memory where the mask selects it, and zero elsewhere.
  function Loaded(m: seq<Byte>, addr: nat, mask: nat, ls: nat, n: nat): (lanes: seq<seq<Byte>>)
    requires Rank(mask, n) == 0 || addr + Offset(ls, Rank(mask, n)) <= |m|
    ensures |lanes| == n
  {
    seq(n, i requires 0 <= i < n =>
      if Bit(mask, i) then
        RankMonotone(mask, i, n);
        OffsetMonotone(ls, Rank(mask, i), Rank(mask, n));
        m[addr + Offset(ls, Rank(mask, i))..addr + Offset(ls, Rank(mask, i)) + ls]
      else Zeros(ls))
  }

  lemma LoadedAt(m: seq<Byte>, addr: nat, mask: nat, ls: nat, n: nat, i: nat)
    requires Rank(mask, n) == 0 || addr + Offset(ls, Rank(mask, n)) <= |m|
    requires i < n && Bit(mask, i)
    ensures Rank(mask, i) < Rank(mask, n) && addr + Offset(ls, Rank(mask, i)) + ls <= |m|
    ensures Loaded(m, addr, mask, ls, n)[i] == m[addr + Offset(ls, Rank(mask, i))..addr + Offset(ls, Rank(mask, i)) + ls]
  {
    hide Rank, Offset, Bit;
    RankMonotone(mask, i, n);
    OffsetMonotone(ls, Rank(mask, i), Rank(mask, n));
  }

  function LoadLane(m: seq<Byte>, addr: nat, mask: nat, ls: nat, j: nat): seq<Byte> {
    var o := addr + Offset(ls, Rank(mask, j));
    if o + ls <= |m| then m[o..o + ls] else []
  }

  // The register after i lanes have been looked at.
  ghost function LoadedSoFar(m: seq<Byte>, addr: nat, mask: nat, ls: nat, n: nat, i: nat): (r: seq<seq<Byte>>)
    ensures |r| == n
  {
    seq(n, j requires 0 <= j < n => if j < i && Bit(mask, j) then LoadLane(m, addr, mask, ls, j) else Zeros(ls))
  }

  lemma LoadNext(m: seq<Byte>, addr: nat, mask: nat, ls: nat, n: nat, i: nat)
    requires i < n
    ensures Rank(mask, i + 1) == Rank(mask, i) + BoolBit(Bit(mask, i))
    ensures LoadedSoFar(m, addr, mask, ls, n, i + 1) ==
      if Bit(mask, i) then LoadedSoFar(m, addr, mask, ls, n, i)[i := LoadLane(m, addr, mask, ls, i)]
      else LoadedSoFar(m, addr, mask, ls, n, i)
  {
    hide Bit, LoadLane, Zeros;
  }

  lemma LoadEnds(m: seq<Byte>, addr: nat, mask: nat, ls: nat, n: nat)
    ensures Rank(mask, 0) == 0 && LoadedSoFar(m, addr, mask, ls, n, 0) == Fill(Zeros(ls), n)
    ensures Rank(mask, n) == 0 || addr + Offset(ls, Rank(mask, n)) <= |m| ==>
      LoadedSoFar(m, addr, mask, ls, n, n) == Loaded(m, addr, mask, ls, n)
  {
    hide Bit, Zeros;
    if Rank(mask, n) == 0 || addr + Offset(ls, Rank(mask, n)) <= |m| {
      forall i | 0 <= i < n && Bit(mask, i)
        ensures LoadedSoFar(m, addr, mask, ls, n, n)[i] == Loaded(m, addr, mask, ls, n)[i]
      {
        LoadedAt(m, addr, mask, ls, n, i);
      }
    }
  }

  method VExpandload(memory: array<Byte>, addr: nat, mask: nat, ls: nat, n: nat)
    returns (r: Result<array<Byte>, MemoryError>)
    requires Offset(ls, n) <= REGISTER_BYTES
    ensures r.Ok? <==> Rank(mask, n) == 0 || addr + Offset(ls, Rank(mask, n)) <= memory.Length
    ensures r.Err? ==> exists i :: 0 <= i < n && StopsAt(addr, mask, ls, memory.Length, i, r.error.addr)
    ensures r.Ok? ==> fresh(r.value) && r.value.Length == REGISTER_BYTES
    ensures r.Ok? ==> Lanes(r.value[..], ls, n) == Loaded(memory[..], addr, mask, ls, n)
  {
    hide Lanes, Bit, Zeros, Rank, Offset, Loaded, LoadedSoFar, Fill;
    var v := ZeroRegister(ls, n);
    var src := 0;
    ghost var m := memory[..];
    LoadEnds(m, addr, mask, ls, n);
    for i := 0 to n
      invariant fresh(v) && memory[..] == m && src == Rank(mask, i)
      invariant src == 0 || addr + Offset(ls, src) <= memory.Length
      invariant Lanes(v[..], ls, n) == LoadedSoFar(m, addr, mask, ls, n, i)
    {
      LoadNext(m, addr, mask, ls, n, i);
      if Bit(mask, i) {
        RankMonotone(mask, i + 1, n);
        OffsetNext(ls, src);
        OffsetMonotone(ls, src + 1, Rank(mask, n));
        OffsetIsProduct(ls, src);
        var a := addr + src * ls;
        if a + ls > memory.Length {
          assert StopsAt(addr, mask, ls, memory.Length, i, a);
          return Err(OutOfBounds(a));
        }
        SetLane(v, ls, n, i, memory[a..a + ls]);
        assert memory[a..a + ls] == m[a..a + ls];
        src := src + 1;
      }
    }
    r := Ok(v);
  }

  lemma OffsetNext(ls: nat, i: nat)
    ensures Offset(ls, i + 1) == Offset(ls, i) + ls
  {
  }

  lemma SliceOfSlice(m: seq<Byte>, from: nat, n: nat, o: nat, ls: nat)
    requires from + n <= |m| && o + ls <= n
    ensures m[from..from + n][o..o + ls] == m[from + o..from + o + ls]
  {
    var inner, outer := m[from..from + n][o..o + ls], m[from + o..from + o + ls];
    forall i | 0 <= i < ls ensures inner[i] == outer[i] {
      assert inner[i] == m[from..from + n][o + i];
    }
    assert |inner| == |outer|;
  }

  lemma LoadedIsLane(m: seq<Byte>, addr: nat, mask: nat, lanes: seq<seq<Byte>>, ls: nat, i: nat)
    requires i < |lanes| && Bit(mask, i) && AllOfSize(Packed(lanes, mask, |lanes|), ls)
    requires addr + Offset(ls, Rank(mask, |lanes|)) <= |m|
    requires m[addr..addr + Offset(ls, Rank(mask, |lanes|))] == Join(Packed(lanes, mask, |lanes|))
    ensures Loaded(m, addr, mask, ls, |lanes|)[i] == lanes[i]
  {
    hide Bit, Lanes, Loaded, Join, Packed, Rank, Offset;
    var packed, k := Packed(lanes, mask, |lanes|), Rank(mask, |lanes|);
    LoadedAt(m, addr, mask, ls, |lanes|, i);
    PackedAt(lanes, mask, |lanes|, i);
    JoinLanes(packed, ls);
    var o := Offset(ls, Rank(mask, i));
    OffsetMonotone(ls, Rank(mask, i), k);
    LanesAt(Join(packed), ls, k, Rank(mask, i));
    SliceOfSlice(m, addr, Offset(ls, k), o, ls);
  }

  // Storing compressed and loading expanded gives what expanding the compressed register gives: the selected
  // lanes, and zero elsewhere.
  lemma StoreThenLoad(m: seq<Byte>, addr: nat, mask: nat, v: seq<Byte>, ls: nat, n: nat)
    requires Offset(ls, n) <= |v|
    requires Rank(mask, n) > 0 ==> addr + Offset(ls, Rank(mask, n)) <= |m|
    requires Rank(mask, n) > 0 ==> m[addr..addr + Offset(ls, Rank(mask, n))] == Join(Packed(Lanes(v, ls, n), mask, n))
    ensures Loaded(m, addr, mask, ls, n) == Masked(Lanes(v, ls, n), mask, Zeros(ls))
    ensures Loaded(m, addr, mask, ls, n) ==
      Expanded(Compressed(Lanes(v, ls, n), mask, Zeros(ls)), mask, Zeros(ls))
  {
    hide Bit, Lanes, Join, Packed, Rank, Offset, Zeros, Expanded, Compressed;
    var lanes := Lanes(v, ls, n);
    ExpandOfCompress(lanes, mask, Zeros(ls));
    PackedSizes(v, ls, n, mask, n);
    forall i | 0 <= i < n ensures Loaded(m, addr, mask, ls, n)[i] == Masked(lanes, mask, Zeros(ls))[i] {
      if Bit(mask, i) {
        RankMonotone(mask, i, n);
        LoadedIsLane(m, addr, mask, lanes, ls, i);
      }
    }
  }
}
