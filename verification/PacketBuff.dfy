/**
 lib/netpackets/src/packet_buff.c: a stack allocator over one block. Pointers
 are offsets from head.
 */
module PacketBuff {
  import opened Bytes

  datatype Option<T> = None | Some(value: T)

  /** The space one push handed out. */
  datatype Region = Region(start: nat, len: nat) {
    function End(): nat { start + len }
  }

  // What pushes and pops do to the outstanding regions

  /** The regions lie end to end from 0 up to tail. */
  predicate Tiles(rs: seq<Region>, tail: nat) {
    if rs == [] then tail == 0
    else
      var top := rs[|rs| - 1];
      top.End() == tail && Tiles(rs[..|rs| - 1], top.start)
  }

  /** The regions left when the tail moves down: those above it go, the one
      across it is cut. */
  function Cut(rs: seq<Region>, tail: nat): seq<Region> {
    if rs == [] then []
    else
      var rest, top := rs[..|rs| - 1], rs[|rs| - 1];
      if top.start > tail || (top.start == tail && top.len > 0) then Cut(rest, tail)
      else if top.End() > tail then rest + [Region(top.start, tail - top.start)]
      else rs
  }

  lemma {:induction false} CutTiles(rs: seq<Region>, tail: nat, lower: nat)
    requires Tiles(rs, tail) && lower <= tail
    ensures Tiles(Cut(rs, lower), lower)
  {
    if rs != [] {
      var rest, top := rs[..|rs| - 1], rs[|rs| - 1];
      if top.start > lower || (top.start == lower && top.len > 0) {
        CutTiles(rest, top.start, lower);
      } else if top.End() > lower {
        var cut := rest + [Region(top.start, lower - top.start)];
        assert cut[..|cut| - 1] == rest;
      }
    }
  }

  /** Outstanding regions never overlap and lie in push order. */
  lemma {:induction false} TilesInOrder(rs: seq<Region>, tail: nat, i: nat, j: nat)
    requires Tiles(rs, tail) && i < j < |rs|
    ensures rs[i].End() <= rs[j].start && rs[j].End() <= tail
    decreases |rs|
  {
    var rest, top := rs[..|rs| - 1], rs[|rs| - 1];
    if j < |rs| - 1 {
      TilesInOrder(rest, top.start, i, j);
    } else {
      TilesBelow(rest, top.start, i);
    }
  }

  lemma {:induction false} TilesBelow(rs: seq<Region>, tail: nat, i: nat)
    requires Tiles(rs, tail) && i < |rs|
    ensures rs[i].End() <= tail
  {
    if i < |rs| - 1 {
      TilesBelow(rs[..|rs| - 1], rs[|rs| - 1].start, i);
    }
  }

  /** Every used byte belongs to exactly one region. */
  lemma {:induction false} TilesCover(rs: seq<Region>, tail: nat, x: nat) returns (i: nat)
    requires Tiles(rs, tail) && x < tail
    ensures i < |rs| && rs[i].start <= x < rs[i].End()
    ensures forall j | 0 <= j < |rs| && rs[j].start <= x < rs[j].End() :: j == i
  {
    var top := rs[|rs| - 1];
    if x < top.start {
      i := TilesCover(rs[..|rs| - 1], top.start, x);
      forall j | 0 <= j < |rs| && rs[j].start <= x < rs[j].End() ensures j == i {
        assert j < |rs| - 1;
        assert rs[..|rs| - 1][j] == rs[j];
      }
    } else {
      i := |rs| - 1;
      forall j | 0 <= j < |rs| && rs[j].start <= x < rs[j].End() ensures j == i {
        if j < |rs| - 1 {
          TilesInOrder(rs, tail, j, i);
        }
      }
    }
  }

  /** A pop of what was pushed last takes that region away and no other. */
  lemma CutUndoesPush(rs: seq<Region>, tail: nat, len: nat)
    requires Tiles(rs, tail) && len > 0
    ensures Cut(rs + [Region(tail, len)], tail) == rs
  {
    var pushed := rs + [Region(tail, len)];
    assert pushed[..|pushed| - 1] == rs;
    if rs != [] {
      assert rs[|rs| - 1].End() == tail;
      CutAtTail(rs, tail);
    }
  }

  lemma CutAtTail(rs: seq<Region>, tail: nat)
    requires Tiles(rs, tail) && rs != []
    ensures Cut(rs, tail) == rs
  {
  }

  // The allocator

  const HEADER_SIZE: nat := 48
  const UINT32: nat := 0x1_0000_0000

  lemma CounterMoves(tail: nat, step: int)
    requires tail + step >= 0
    ensures (tail % UINT32 + step) % UINT32 == (tail + step) % UINT32
  {
    var q := tail / UINT32;
    assert tail % UINT32 + step == tail + step - UINT32 * q;
    SameResidue(tail + step, tail % UINT32 + step, q);
  }

  lemma SameResidue(x: int, y: int, q: int)
    requires y == x - UINT32 * q
    ensures x % UINT32 == y % UINT32
  {
  }

  class PacketBuffer {
    const data: array<byte>
    var tail: nat
    var dataLen: uint32
    const capacity: uint32
    const size: uint32
    ghost var regions: seq<Region>

    /** data_len is tail - head kept in 32 bits. */
    ghost predicate Valid()
      reads this, data
    {
      && tail <= data.Length
      && dataLen == tail % UINT32
      && capacity == data.Length % UINT32
      && Tiles(regions, tail)
    }

    /** pktb_alloc */
    constructor (length: nat)
      ensures Valid() && fresh(data) && data.Length == length
      ensures tail == 0 && dataLen == 0 && regions == [] && size == (48 + length) % 0x1_0000_0000
      ensures forall i | 0 <= i < length :: data[i] == 0
    {
      data := new byte[length](_ => 0);
      size := (HEADER_SIZE + length) % UINT32;
      capacity := length % UINT32;
      dataLen := 0;
      tail := 0;
      regions := [];
    }

    /** Below 4 GiB the counter is the used length and fits the capacity. */
    lemma LengthIsExact()
      requires Valid() && data.Length < UINT32
      ensures dataLen == tail <= capacity
    {
    }

    method Reset()
      requires Valid()
      modifies this
      ensures Valid() && tail == 0 && dataLen == 0 && regions == []
    {
      tail := 0;
      dataLen := 0;
      regions := [];
    }

    method Push(len: nat) returns (p: Option<nat>)
      requires Valid()
      modifies this
      ensures Valid()
      ensures p.None? <==> old(tail) + len > data.Length
      ensures p.None? ==> unchanged(this)
      ensures p.Some? ==> p.value == old(tail) && tail == old(tail) + len
                          && regions == old(regions) + [Region(p.value, len)]
    {
      var at := tail;
      if data.Length - tail < len {
        return None;
      }
      CounterMoves(tail, len);
      tail := tail + len;
      dataLen := (dataLen + len) % UINT32;
      regions := regions + [Region(at, len)];
      assert regions[..|regions| - 1] == old(regions);
      return Some(at);
    }

    method Pop(len: nat) returns (p: Option<nat>)
      requires Valid()
      modifies this
      ensures Valid()
      ensures p.None? <==> old(tail) < len
      ensures p.None? ==> unchanged(this)
      ensures p.Some? ==> p.value == tail == old(tail) - len && regions == Cut(old(regions), tail)
    {
      if tail < len {
        return None;
      }
      CutTiles(regions, tail, tail - len);
      regions := Cut(regions, tail - len);
      CounterMoves(tail, -(len as int));
      tail := tail - len;
      dataLen := (dataLen - len) % UINT32;
      return Some(tail);
    }

    /** Writing s through a pointer that Push returned. */
    method Write(p: nat, s: seq<byte>)
      requires Valid() && p + |s| <= data.Length
      modifies data
      ensures Valid()
      ensures data[..p + |s|] == old(data[..p]) + s
      ensures data[p + |s|..] == old(data[p + |s|..])
    {
      forall i | 0 <= i < |s| {
        data[p + i] := s[i];
      }
    }
  }
}
