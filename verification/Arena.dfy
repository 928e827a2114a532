// A bump allocator with chunks, arrays grown in place, and a cancellable streaming writer (src/arena.rs).
// A pointer is a chunk and an offset in it.
module Arenas {
  import opened Options
  import opened Alignment
  import opened Bytes

  const CHUNK_SIZE: nat := 0x4_0000

  datatype Chunk = Chunk(data: seq<byte>, used: nat) {
    function Capacity(): nat { |data| }
  }

  // An allocation.
  datatype Block = Block(chunk: nat, start: nat, size: nat, alignment: nat)

  // Empty allocations overlap nothing.
  ghost predicate Apart(a: Block, b: Block) {
    a.size == 0 || b.size == 0 || a.chunk != b.chunk || a.start + a.size <= b.start || b.start + b.size <= a.start
  }

  ghost predicate InChunks(chunks: seq<Chunk>, b: Block) {
    && b.chunk < |chunks| && b.start + b.size <= chunks[b.chunk].used <= chunks[b.chunk].Capacity()
    && b.alignment > 0 && Aligned(b.start, b.alignment)
  }

  // Live allocations are inside the used parts of their chunks, aligned, and disjoint.
  ghost predicate LiveOk(chunks: seq<Chunk>, live: set<Block>) {
    && (forall b :: b in live ==> InChunks(chunks, b))
    && (forall a, b :: a in live && b in live && a != b ==> Apart(a, b))
  }

  ghost predicate ChunksOk(chunks: seq<Chunk>, currentChunk: Option<nat>) {
    && (forall i :: 0 <= i < |chunks| ==> chunks[i].used <= chunks[i].Capacity())
    && (currentChunk.Some? ==> currentChunk.value < |chunks|)
  }

  ghost function BytesOf(chunks: seq<Chunk>, b: Block): seq<byte>
    requires InChunks(chunks, b)
  {
    chunks[b.chunk].data[b.start..b.start + b.size]
  }

  // Nothing below the used marks changes, and no mark moves back.
  ghost predicate Preserves(a: seq<Chunk>, b: seq<Chunk>) {
    |a| <= |b| && forall i :: 0 <= i < |a| ==>
      a[i].used <= b[i].used && a[i].Capacity() == b[i].Capacity() && a[i].used <= a[i].Capacity()
      && a[i].data[..a[i].used] == b[i].data[..a[i].used]
  }

  lemma PreservesBytes(a: seq<Chunk>, b: seq<Chunk>, block: Block)
    requires Preserves(a, b) && InChunks(a, block) && b[block.chunk].used <= b[block.chunk].Capacity()
    ensures InChunks(b, block) && BytesOf(b, block) == BytesOf(a, block)
  {
  }

  // A block starting at or beyond the old used mark is apart from everything live.
  lemma NewIsApart(chunks: seq<Chunk>, live: set<Block>, chunks': seq<Chunk>, new_: Block)
    requires LiveOk(chunks, live) && Preserves(chunks, chunks')
    requires forall i :: 0 <= i < |chunks'| ==> chunks'[i].used <= chunks'[i].Capacity()
    requires InChunks(chunks', new_) && (new_.chunk < |chunks| ==> chunks[new_.chunk].used <= new_.start)
    ensures LiveOk(chunks', live + {new_})
  {
  }

  // Overwriting n bytes at p.
  function Poke(data: seq<byte>, p: nat, bytes: seq<byte>): (r: seq<byte>)
    requires p + |bytes| <= |data|
    ensures |r| == |data| && r[..p] == data[..p] && r[p..p + |bytes|] == bytes
    ensures r[p + |bytes|..] == data[p + |bytes|..]
  {
    data[..p] + bytes + data[p + |bytes|..]
  }

  class Arena {
    var chunks: seq<Chunk>
    var currentChunk: Option<nat>
    ghost var live: set<Block>

    ghost predicate Valid()
      reads this
    {
      ChunksOk(chunks, currentChunk) && LiveOk(chunks, live)
    }

    constructor ()
      ensures Valid() && live == {}
    {
      chunks := [];
      currentChunk := None;
      live := {};
    }

    ghost function Bytes(b: Block): seq<byte>
      requires Valid() && b in live
      reads this
    {
      BytesOf(chunks, b)
    }

    predicate HasRoom(i: nat, size: nat)
      reads this`chunks
    {
      i < |chunks| && chunks[i].used + size <= chunks[i].Capacity()
    }

    // pick_chunk: a chunk with room for `size` more bytes: the current one, or the next, or else a new one. Room is all
    // that changes: no allocation moves.
    method PickChunk(size: nat, likelyUsage: nat) returns (i: nat)
      requires Valid()
      modifies this`chunks, this`currentChunk
      ensures Valid() && i < |chunks| && chunks[i].Capacity() - chunks[i].used >= size
      ensures old(chunks) <= chunks && (i >= |old(chunks)| ==> chunks[i].used == 0)
      ensures var reused := old(currentChunk.Some? &&
                (HasRoom(currentChunk.value, size) || HasRoom(currentChunk.value + 1, size)));
              i == if !reused then |old(chunks)|
                   else if old(HasRoom(currentChunk.value, size)) then old(currentChunk).value
                   else old(currentChunk).value + 1
      ensures i < |old(chunks)| ==> chunks == old(chunks) && currentChunk == Some(i)
      ensures i >= |old(chunks)| ==>
                && |chunks| == i + 1 && chunks[i].Capacity() == (if CHUNK_SIZE > size then CHUNK_SIZE else size)
                && var kept := old(currentChunk);
                   currentChunk == if kept.Some? && chunks[kept.value].Capacity() - chunks[kept.value].used
                                                    >= chunks[i].Capacity() - likelyUsage then kept else Some(i)
    {
      if currentChunk.Some? {
        i := currentChunk.value;
        if chunks[i].Capacity() - chunks[i].used >= size {
          return;
        }
        // This may be useful in case the arena was cleared.
        if i + 1 < |chunks| && chunks[i + 1].Capacity() - chunks[i + 1].used >= size {
          currentChunk := Some(i + 1);
          return i + 1;
        }
      }
      i := |chunks|;
      var capacity := if CHUNK_SIZE > size then CHUNK_SIZE else size;
      var data: seq<byte> := *;
      if |data| != capacity {
        data := seq(capacity, _ => 0);
      }
      match currentChunk {
        case Some(c) =>
          if chunks[c].Capacity() - chunks[c].used < capacity - likelyUsage {
            currentChunk := Some(i);
          }
        case None =>
          currentChunk := Some(i);
      }
      ghost var before := chunks;
      chunks := chunks + [Chunk(data, 0)];
      StillLive(before, chunks, live);
    }

    // alloc
    method Alloc(size: nat, alignment: nat) returns (b: Block)
      requires Valid() && alignment > 0
      modifies this
      ensures Valid() && live == old(live) + {b} && b.size == size && b.alignment == alignment
      ensures Kept(old(chunks), old(live), chunks)
      ensures forall a :: a in old(live) ==> Apart(a, b)
      // Nothing is wasted but for alignment, and no chunk is added while the current one has room.
      ensures b.start < (if b.chunk < |old(chunks)| then old(chunks)[b.chunk].used else 0) + alignment
      ensures old(currentChunk.Some? && HasRoom(currentChunk.value, size + alignment - 1)) ==>
                |chunks| == |old(chunks)| && b.chunk == old(currentChunk).value
    {
      hide Aligned;
      var i := PickChunk(size + alignment - 1, size);
      var start := RoundUp(chunks[i].used, alignment);
      b := Block(i, start, size, alignment);
      Bump(b);
    }

    // Moves the used mark over a new block.
    method Bump(b: Block)
      requires Valid() && b.chunk < |chunks| && chunks[b.chunk].used <= b.start
      requires b.start + b.size <= chunks[b.chunk].Capacity() && b.alignment > 0 && Aligned(b.start, b.alignment)
      modifies this`chunks, this`live
      ensures Valid() && live == old(live) + {b} && Preserves(old(chunks), chunks)
      ensures Kept(old(chunks), old(live), chunks)
      ensures forall a :: a in old(live) ==> Apart(a, b)
      ensures |chunks| == |old(chunks)| && forall i :: 0 <= i < |chunks| ==> chunks[i].data == old(chunks)[i].data
      ensures chunks[b.chunk].used == b.start + b.size
    {
      hide Aligned;
      ghost var before, wasLive := chunks, live;
      chunks := chunks[b.chunk := chunks[b.chunk].(used := b.start + b.size)];
      NewIsApart(before, live, chunks, b);
      KeptAll(before, live, chunks);
      live := live + {b};
      assert forall a :: a in wasLive ==> Apart(a, b) by {
        assert forall a :: a in wasLive ==> InChunks(before, a);
      }
    }

    // Writes inside one allocation; every other one keeps its contents.
    method WriteInto(b: Block, offset: nat, bytes: seq<byte>)
      requires Valid() && b in live && offset + |bytes| <= b.size
      modifies this`chunks
      ensures Valid() && Bytes(b) == Poke(old(Bytes(b)), offset, bytes)
      ensures forall a :: a in live && a != b ==> Bytes(a) == old(Bytes(a))
      ensures forall i, n :: HasRoom(i, n) <==> old(HasRoom(i, n))
    {
      ghost var before := chunks;
      var c := chunks[b.chunk];
      chunks := chunks[b.chunk := c.(data := Poke(c.data, b.start + offset, bytes))];
      forall a | a in live && a != b ensures BytesOf(chunks, a) == BytesOf(before, a) {
        OtherBytes(before, chunks, a, b, offset, bytes);
      }
      OwnBytes(before, chunks, b, offset, bytes);
    }

    // add, add_slice: the bytes are copied in.
    method AddSlice(bytes: seq<byte>, alignment: nat) returns (b: Block)
      requires Valid() && alignment > 0
      modifies this
      ensures Valid() && live == old(live) + {b} && b.size == |bytes| && b.alignment == alignment
      ensures Bytes(b) == bytes
      ensures forall a :: a in old(live) ==> Apart(a, b) && Bytes(a) == old(Bytes(a))
    {
      b := Alloc(|bytes|, alignment);
      ghost var was := Bytes(b);
      WriteInto(b, 0, bytes);
      assert Poke(was, 0, bytes) == bytes;
      forall a | a in old(live) ensures Bytes(a) == old(Bytes(a)) {
        if a == b {
          assert bytes == [];
        }
      }
    }

    // push_to_array_likely_at_end: the array may move; its contents are the old ones and the new element.
    method PushToArray(arr: Block, len: nat, add: seq<byte>) returns (arr': Block)
      requires Valid() && arr.alignment > 0 && |add| % arr.alignment == 0 && arr.size == len * |add|
      requires arr.size > 0 ==> arr in live
      requires Aligned(arr.start, arr.alignment)
      modifies this
      ensures Valid() && arr' in live && arr'.alignment == arr.alignment && arr'.size == (len + 1) * |add|
      ensures Bytes(arr') == old(Contents(arr)) + add
      ensures forall a :: a in old(live) && a != arr ==> a in live && Bytes(a) == old(Bytes(a))
      // It grows in place if it is the last of the current chunk or of the last chunk, with room for one more element.
      ensures if old(arr.chunk < |chunks| && (currentChunk == Some(arr.chunk) || arr.chunk + 1 == |chunks|) &&
                     arr.start + arr.size == chunks[arr.chunk].used && HasRoom(arr.chunk, |add|))
              then arr' == arr.(size := arr.size + |add|)
              else (arr in old(live) ==> arr in live) && HasRoom(arr'.chunk, arr'.size)
    {
      hide Aligned;
      assert (len + 1) * |add| == arr.size + |add|;
      if currentChunk.Some? && EndsChunk(currentChunk.value, arr, |add|) {
        arr' := GrowInPlace(arr, add);
        return;
      }
      if |chunks| > 0 && EndsChunk(|chunks| - 1, arr, |add|) {
        arr' := GrowInPlace(arr, add);
        return;
      }
      arr' := Relocate(arr, len, add);
    }

    method Relocate(arr: Block, len: nat, add: seq<byte>) returns (arr': Block)
      requires Valid() && arr.alignment > 0 && arr.size == len * |add| && (arr.size > 0 ==> arr in live)
      modifies this
      ensures Valid() && arr' in live && arr'.alignment == arr.alignment && arr'.size == arr.size + |add|
      ensures Bytes(arr') == old(Contents(arr)) + add
      ensures forall a :: a in old(live) ==> a in live && (a != arr' ==> Bytes(a) == old(Bytes(a)))
      ensures forall a :: a in old(live) ==> Apart(a, arr')
      ensures HasRoom(arr'.chunk, arr'.size)
    {
      hide Aligned;
      // Chunks grow with the array, so that a big array does not waste a chunk for each element.
      var bytes := |add| * (len + 1);
      assert bytes == arr.size + |add|;
      ghost var contents := Contents(arr);
      arr' := PlaceFor(bytes, arr.alignment);
      assert Contents(arr) == contents;
      var copied := if arr.size > 0 then chunks[arr.chunk].data[arr.start..arr.start + arr.size] else [];
      assert copied == contents;
      hide ChunksOk, LiveOk, Apart;
      WriteInto(arr', 0, copied);
      WriteInto(arr', arr.size, add);
      assert Bytes(arr') == contents + add;
    }

    // A block for an array, in a chunk where it could double.
    method PlaceFor(bytes: nat, alignment: nat) returns (b: Block)
      requires Valid() && alignment > 0
      modifies this
      ensures Valid() && live == old(live) + {b} && b.size == bytes && b.alignment == alignment
      ensures Kept(old(chunks), old(live), chunks) && HasRoom(b.chunk, bytes)
      ensures forall a :: a in old(live) ==> Apart(a, b)
    {
      hide Aligned;
      var i := PickChunk(bytes * 2 + alignment - 1, bytes);
      b := Block(i, RoundUp(chunks[i].used, alignment), bytes, alignment);
      Bump(b);
    }

    ghost function Contents(arr: Block): seq<byte>
      requires Valid() && (arr.size > 0 ==> arr in live)
      reads this
    {
      if arr.size > 0 then Bytes(arr) else []
    }

    // The array ends where chunk i is used up to, with room for one more element.
    predicate EndsChunk(i: nat, arr: Block, size: nat)
      requires i < |chunks|
      reads this
    {
      arr.chunk == i && arr.start + arr.size == chunks[i].used && chunks[i].used + size <= chunks[i].Capacity()
    }

    method GrowInPlace(arr: Block, add: seq<byte>) returns (arr': Block)
      requires Valid() && arr.chunk < |chunks| && EndsChunk(arr.chunk, arr, |add|)
      requires arr.size > 0 ==> arr in live
      requires arr.alignment > 0 && Aligned(arr.start, arr.alignment)
      modifies this`chunks, this`live
      ensures Valid() && arr' in live && arr' == arr.(size := arr.size + |add|)
      ensures Bytes(arr') == old(Contents(arr)) + add
      ensures forall a :: a in old(live) && a != arr ==> a in live && Bytes(a) == old(Bytes(a))
    {
      hide Aligned;
      ghost var before, wasLive := chunks, live;
      var c := chunks[arr.chunk];
      arr' := arr.(size := arr.size + |add|);
      chunks := chunks[arr.chunk := Chunk(Poke(c.data, c.used, add), c.used + |add|)];
      live := live - {arr} + {arr'};
      GrownLive(before, wasLive, chunks, arr, arr', add);
      KeptAll(before, wasLive, chunks);
    }
  }

  lemma OtherBytes(before: seq<Chunk>, after: seq<Chunk>, a: Block, b: Block, offset: nat, bytes: seq<byte>)
    requires InChunks(before, a) && InChunks(before, b) && Apart(a, b) && offset + |bytes| <= b.size
    requires var c := before[b.chunk];
             after == before[b.chunk := c.(data := Poke(c.data, b.start + offset, bytes))]
    ensures InChunks(after, a) && BytesOf(after, a) == BytesOf(before, a)
  {
  }

  lemma OwnBytes(before: seq<Chunk>, after: seq<Chunk>, b: Block, offset: nat, bytes: seq<byte>)
    requires InChunks(before, b) && offset + |bytes| <= b.size
    requires var c := before[b.chunk];
             after == before[b.chunk := c.(data := Poke(c.data, b.start + offset, bytes))]
    ensures InChunks(after, b) && BytesOf(after, b) == Poke(BytesOf(before, b), offset, bytes)
  {
    hide Aligned;
    PokeSlice(before[b.chunk].data, b.start, b.start + b.size, offset, bytes);
  }

  lemma PokeSlice(data: seq<byte>, lo: nat, hi: nat, offset: nat, bytes: seq<byte>)
    requires lo + offset + |bytes| <= hi <= |data|
    ensures Poke(data, lo + offset, bytes)[lo..hi] == Poke(data[lo..hi], offset, bytes)
  {
  }

  // Growing the last array of a chunk.
  lemma GrownLive(before: seq<Chunk>, live: set<Block>, after: seq<Chunk>, arr: Block, arr': Block, add: seq<byte>)
    requires LiveOk(before, live) && arr.chunk < |before| && arr.alignment > 0 && Aligned(arr.start, arr.alignment)
    requires forall i :: 0 <= i < |before| ==> before[i].used <= before[i].Capacity()
    requires arr.size > 0 ==> arr in live
    requires var c := before[arr.chunk];
             arr.start + arr.size == c.used && c.used + |add| <= c.Capacity()
             && after == before[arr.chunk := Chunk(Poke(c.data, c.used, add), c.used + |add|)]
    requires arr' == arr.(size := arr.size + |add|)
    ensures Preserves(before, after) && LiveOk(after, live - {arr} + {arr'})
    ensures BytesOf(after, arr') == (if arr.size > 0 then BytesOf(before, arr) else []) + add
  {
    hide Aligned;
    var c, d := before[arr.chunk], after[arr.chunk];
    forall b | b in live && b != arr ensures InChunks(after, b) && Apart(b, arr') {
      PreservesBytes(before, after, b);
      if arr.size > 0 {
        assert Apart(b, arr);
      }
    }
    assert d.data[arr.start..c.used + |add|] == d.data[..c.used][arr.start..c.used] + d.data[c.used..c.used + |add|];
  }

  // A streaming write into the free space of a chunk. It holds the arena exclusively; dropping it
  // without finishing leaves every allocation as it was, which Valid and the contracts of Write say.
  class ArenaWrite {
    const arena: Arena
    var len: nat
    var chunkIdx: nat
    var start: nat
    var capacity: nat
    ghost var written: seq<byte>

    ghost predicate Valid()
      reads this, arena
    {
      && arena.Valid() && len == |written| <= capacity && (len == 0 ==> capacity == 0)
      && (len > 0 ==> Staged(arena.chunks, chunkIdx, start, capacity, written))
    }

    constructor (arena: Arena)
      requires arena.Valid()
      ensures Valid() && this.arena == arena && written == []
    {
      this.arena := arena;
      len := 0;
      chunkIdx := 0;
      start := 0;
      capacity := 0;
      written := [];
    }

    // write: appends, moving to another chunk when the free space does not suffice.
    method Write(buf: seq<byte>)
      requires Valid()
      modifies this, arena`chunks, arena`currentChunk
      ensures Valid() && written == old(written) + buf && arena.live == old(arena.live)
      ensures forall b :: b in arena.live ==> arena.Bytes(b) == old(arena.Bytes(b))
      ensures old(len) > 0 ==> (chunkIdx == old(chunkIdx) <==> old(len) + |buf| <= old(capacity))
    {
      hide Staged, LiveOk, BytesOf;
      var newSize := len + |buf|;
      if newSize == 0 {
        return;
      }
      if newSize > capacity {
        Migrate(newSize);
      }
      ghost var before := arena.chunks;
      StagedMore(arena.chunks, chunkIdx, start, capacity, written, buf);
      FreeKeeps(arena.chunks, arena.live, chunkIdx, len, buf);
      arena.chunks := PokeFree(arena.chunks, chunkIdx, len, buf);
      len := newSize;
      written := written + buf;
    }

    // Moves what is written to a chunk with room to grow; never the chunk it is in.
    method Migrate(newSize: nat)
      requires Valid() && newSize > capacity
      modifies this`chunkIdx, this`start, this`capacity, arena`chunks, arena`currentChunk
      ensures arena.Valid() && arena.live == old(arena.live)
      ensures Staged(arena.chunks, chunkIdx, start, capacity, written) && newSize <= capacity
      ensures forall b :: b in arena.live ==> arena.Bytes(b) == old(arena.Bytes(b))
      ensures len > 0 ==> chunkIdx != old(chunkIdx)
      ensures capacity >= newSize * 2
    {
      hide LiveOk, BytesOf, Staged, Kept, PokeFree;
      ghost var before := arena.chunks;
      if len > 0 {
        StagedIs(before, chunkIdx, start, capacity, written);
      }
      // Bigger strings get bigger chunks.
      var i := arena.PickChunk(newSize * 2, newSize);
      KeptByGrowth(before, arena.chunks, arena.live);
      var content := if len > 0 then arena.chunks[chunkIdx].data[start..start + len] else [];
      assert content == written;
      assert len > 0 ==> arena.chunks[chunkIdx] == before[chunkIdx];
      FreeKeeps(arena.chunks, arena.live, i, 0, content);
      KeptTwice(before, arena.chunks, PokeFree(arena.chunks, i, 0, content), arena.live);
      StagedFirst(arena.chunks, i, content);
      chunkIdx := i;
      start := arena.chunks[i].used;
      capacity := arena.chunks[i].Capacity() - start;
      arena.chunks := PokeFree(arena.chunks, i, 0, content);
      KeptBytes(before, arena.chunks, arena.live);
    }

    // finish: the written bytes become an allocation; nothing if there are none.
    method Finish() returns (r: Option<Block>)
      requires Valid()
      modifies arena`chunks, arena`live
      ensures arena.Valid()
      ensures (r.None? <==> written == []) && (r.None? ==> arena.live == old(arena.live))
      ensures r.Some? ==> arena.live == old(arena.live) + {r.value} && arena.Bytes(r.value) == written
      ensures r.Some? ==> r.value.chunk == chunkIdx && r.value.start == old(arena.chunks)[chunkIdx].used
      ensures r.Some? ==> forall b :: b in old(arena.live) ==> Apart(b, r.value)
      ensures forall b :: b in old(arena.live) ==> arena.Bytes(b) == old(arena.Bytes(b))
    {
      if len == 0 {
        return None;
      }
      var b := Block(chunkIdx, start, len, 1);
      AlignedToOne(start);
      arena.Bump(b);
      assert arena.Bytes(b) == written;
      r := Some(b);
    }
  }

  // Bytes written beyond the used mark of a chunk.
  ghost predicate Staged(chunks: seq<Chunk>, i: nat, start: nat, capacity: nat, written: seq<byte>) {
    && i < |chunks| && start == chunks[i].used <= chunks[i].Capacity() && capacity == chunks[i].Capacity() - start
    && |written| <= capacity && chunks[i].data[start..start + |written|] == written
  }

  function PokeFree(chunks: seq<Chunk>, i: nat, at: nat, bytes: seq<byte>): (r: seq<Chunk>)
    requires i < |chunks| && chunks[i].used + at + |bytes| <= chunks[i].Capacity()
    ensures |r| == |chunks| && forall j :: 0 <= j < |r| ==>
        r[j].used == chunks[j].used && r[j].Capacity() == chunks[j].Capacity()
  {
    chunks[i := chunks[i].(data := Poke(chunks[i].data, chunks[i].used + at, bytes))]
  }

  lemma StagedIs(chunks: seq<Chunk>, i: nat, start: nat, capacity: nat, written: seq<byte>)
    requires Staged(chunks, i, start, capacity, written)
    ensures i < |chunks| && start == chunks[i].used <= chunks[i].Capacity() && capacity == chunks[i].Capacity() - start
    ensures |written| <= capacity && chunks[i].data[start..start + |written|] == written
  {
  }

  lemma StagedFirst(chunks: seq<Chunk>, i: nat, written: seq<byte>)
    requires i < |chunks| && chunks[i].used + |written| <= chunks[i].Capacity()
    ensures var c := chunks[i]; Staged(PokeFree(chunks, i, 0, written), i, c.used, c.Capacity() - c.used, written)
  {
  }

  lemma StagedMore(chunks: seq<Chunk>, i: nat, start: nat, capacity: nat, written: seq<byte>, buf: seq<byte>)
    requires Staged(chunks, i, start, capacity, written) && |written| + |buf| <= capacity
    ensures i < |chunks| && chunks[i].used + |written| + |buf| <= chunks[i].Capacity()
    ensures Staged(PokeFree(chunks, i, |written|, buf), i, start, capacity, written + buf)
  {
  }

  // Writing into free space touches no allocation.
  lemma FreeKeeps(chunks: seq<Chunk>, live: set<Block>, i: nat, at: nat, bytes: seq<byte>)
    requires LiveOk(chunks, live) && forall j :: 0 <= j < |chunks| ==> chunks[j].used <= chunks[j].Capacity()
    requires i < |chunks| && chunks[i].used + at + |bytes| <= chunks[i].Capacity()
    ensures LiveOk(PokeFree(chunks, i, at, bytes), live) && Kept(chunks, live, PokeFree(chunks, i, at, bytes))
  {
  }

  lemma KeptByGrowth(chunks: seq<Chunk>, chunks': seq<Chunk>, live: set<Block>)
    requires LiveOk(chunks, live) && chunks <= chunks'
    ensures Kept(chunks, live, chunks')
  {
  }

  lemma AlignedToOne(x: nat)
    ensures Aligned(x, 1)
  {
  }

  // Earlier allocations keep their contents.
  ghost predicate Kept(chunks: seq<Chunk>, live: set<Block>, chunks': seq<Chunk>) {
    forall b :: b in live ==> InChunks(chunks, b) && InChunks(chunks', b) && BytesOf(chunks', b) == BytesOf(chunks, b)
  }

  lemma KeptTwice(a: seq<Chunk>, b: seq<Chunk>, c: seq<Chunk>, live: set<Block>)
    requires Kept(a, live, b) && Kept(b, live, c)
    ensures Kept(a, live, c)
  {
  }

  lemma KeptBytes(a: seq<Chunk>, b: seq<Chunk>, live: set<Block>)
    requires Kept(a, live, b)
    ensures forall x :: x in live ==> InChunks(a, x) && InChunks(b, x) && BytesOf(b, x) == BytesOf(a, x)
  {
  }

  lemma KeptAll(chunks: seq<Chunk>, live: set<Block>, chunks': seq<Chunk>)
    requires LiveOk(chunks, live) && Preserves(chunks, chunks')
    requires forall i :: 0 <= i < |chunks'| ==> chunks'[i].used <= chunks'[i].Capacity()
    ensures Kept(chunks, live, chunks')
  {
  }

  lemma StillLive(chunks: seq<Chunk>, chunks': seq<Chunk>, live: set<Block>)
    requires LiveOk(chunks, live) && chunks <= chunks'
    ensures LiveOk(chunks', live)
  {
  }
}
