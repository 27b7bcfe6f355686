/** Editing the chunks of an index set keeps them well formed, but for what the builder counts. */
module ChunkEdits {
  import opened Outcomes
  import opened Chunks
  import opened IndexWalk
  import opened IndexQueries

  // ---- One range more, or less ------------------------------------------------------------------------

  function Inserted(rs: seq<Range>, r: nat, value: Range): seq<Range>
    requires r <= |rs|
  {
    rs[..r] + [value] + rs[r..]
  }

  function Erased(rs: seq<Range>, r: nat): seq<Range>
    requires r < |rs|
  {
    rs[..r] + rs[r + 1..]
  }

  /** There is room for the range between its neighbours to be. */
  predicate Fits(rs: seq<Range>, r: nat, value: Range) {
    && r <= |rs| && value.first < value.second
    && (r > 0 ==> rs[r - 1].second < value.first)
    && (r < |rs| ==> value.second < rs[r].first)
  }

  /** A range may be put between others exactly where there is room. */
  lemma InsertedApartIff(rs: seq<Range>, r: nat, value: Range)
    requires Apart(rs) && r <= |rs|
    ensures Apart(Inserted(rs, r, value)) <==> Fits(rs, r, value)
  {
    var all := Inserted(rs, r, value);
    assert all[r] == value;
    assert r > 0 ==> all[r - 1] == rs[r - 1];
    assert r < |rs| ==> all[r + 1] == rs[r];
    if Fits(rs, r, value) {
      forall i, j | 0 <= i < j < |all| ensures all[i].second < all[j].first {
        if j == r && i < r - 1 { assert rs[i].second < rs[r - 1].first < rs[r - 1].second; }
        if i == r && j > r + 1 { assert rs[r].second < rs[j - 1].first; }
      }
    }
  }

  lemma ErasedApart(rs: seq<Range>, r: nat)
    requires Apart(rs) && r < |rs|
    ensures Apart(Erased(rs, r))
  {}

  lemma {:induction false} SizesAdd(a: seq<Range>, b: seq<Range>)
    ensures Sizes(a + b) == Sizes(a) + Sizes(b)
    decreases |b|
  {
    if b == [] {
      assert a + b == a;
    } else {
      SizesAdd(a, b[..|b| - 1]);
      assert (a + b)[..|a + b| - 1] == a + b[..|b| - 1];
    }
  }

  lemma SizesOfOne(r: Range)
    requires r.first <= r.second
    ensures Sizes([r]) == r.second - r.first
  {
    assert [r][..0] == [];
  }

  lemma SizesInserted(rs: seq<Range>, r: nat, value: Range)
    requires r <= |rs| && value.first <= value.second
    ensures Sizes(Inserted(rs, r, value)) == Sizes(rs) + (value.second - value.first)
  {
    SizesAdd(rs[..r], [value]);
    SizesAdd(rs[..r] + [value], rs[r..]);
    SizesAdd(rs[..r], rs[r..]);
    SizesOfOne(value);
    assert rs[..r] + rs[r..] == rs;
  }

  /** No range is empty. */
  predicate Filled(rs: seq<Range>) {
    forall i :: 0 <= i < |rs| ==> rs[i].first < rs[i].second
  }

  /** Well formed, but perhaps with ranges that touch or overlap for a moment. */
  predicate Tidy(chunks: seq<Chunk>) {
    && Filled(Flat(chunks))
    && NoEmptyChunk(chunks)
    && forall i :: 0 <= i < |chunks| ==> Cached(chunks[i])
  }

  // ---- Changing one chunk -----------------------------------------------------------------------------

  /** Chunks `mid` take the place of chunk `o`. */
  function Replaced(chunks: seq<Chunk>, o: nat, mid: seq<Chunk>): seq<Chunk>
    requires o < |chunks|
  {
    chunks[..o] + mid + chunks[o + 1..]
  }

  lemma {:induction false} ReplacedFlat(chunks: seq<Chunk>, o: nat, mid: seq<Chunk>)
    requires o < |chunks|
    ensures Flat(Replaced(chunks, o, mid)) == Flat(chunks[..o]) + Flat(mid) + Flat(chunks[o + 1..])
    ensures Replaced(chunks, o, mid)[..o] == chunks[..o]
    ensures Replaced(chunks, o, mid)[o..o + |mid|] == mid
  {
    hide Flat;
    FlatAppends(chunks[..o] + mid, chunks[o + 1..]);
    FlatAppends(chunks[..o], mid);
  }

  /** What is true of all old chunks and of the new ones is true of all. */
  lemma {:induction false} ReplacedCached(chunks: seq<Chunk>, o: nat, mid: seq<Chunk>)
    requires o < |chunks| && (forall i :: 0 <= i < |chunks| ==> Cached(chunks[i]))
    requires forall i :: 0 <= i < |mid| ==> Cached(mid[i])
    ensures forall i :: 0 <= i < |Replaced(chunks, o, mid)| ==> Cached(Replaced(chunks, o, mid)[i])
  {}

  lemma Adjoin<T>(a: seq<T>, b: seq<T>, c: seq<T>, k: nat, x: T)
    requires k <= |b|
    ensures a + (b[..k] + [x] + b[k..]) + c == (a + b + c)[..|a| + k] + [x] + (a + b + c)[|a| + k..]
  {}

  lemma Disjoin<T>(a: seq<T>, b: seq<T>, c: seq<T>, k: nat)
    requires k < |b|
    ensures a + (b[..k] + b[k + 1..]) + c == (a + b + c)[..|a| + k] + (a + b + c)[|a| + k + 1..]
  {}

  lemma Exchange<T>(a: seq<T>, b: seq<T>, c: seq<T>, k: nat, x: T)
    requires k < |b|
    ensures a + b[k := x] + c == (a + b + c)[|a| + k := x]
  {}

  // ---- The vector -------------------------------------------------------------------------------------

  /** `ChunkedRangeVector`: no chunk holds more than `maxSize` ranges. */
  class ChunkedRangeVector {
    const maxSize: nat
    var chunks: seq<Chunk>

    predicate Bounded()
      reads this
    {
      maxSize > 0 && maxSize % 2 == 0 && forall i :: 0 <= i < |chunks| ==> |chunks[i].data| <= maxSize
    }

    predicate Valid()
      reads this
    {
      Bounded() && WellFormed(chunks)
    }

    ghost function Ranges(): seq<Range>
      reads this
    {
      Flat(chunks)
    }

    constructor (maxSize: nat)
      requires maxSize > 0 && maxSize % 2 == 0
      ensures Valid() && Ranges() == [] && this.maxSize == maxSize
    {
      this.maxSize := maxSize;
      chunks := [];
    }

    /** `push_back` */
    method PushBack(value: Range)
      requires Valid() && Fits(Ranges(), |Ranges()|, value)
      modifies this`chunks
      ensures Valid() && Ranges() == old(Ranges()) + [value]
      ensures Last(chunks).inner.Some? && ValidPos(chunks, Last(chunks))
              && Rank(chunks, Last(chunks)) == |old(Ranges())|
    {
      hide Flat, Sizes, Apart;
      ghost var rs := Flat(chunks);
      var n := |chunks|;
      InsertedApartIff(rs, |rs|, value);
      assert Inserted(rs, |rs|, value) == rs + [value];
      if n > 0 && |chunks[n - 1].data| < maxSize {
        var chunk := chunks[n - 1];
        var data := chunk.data + [value];
        var grown := Chunk(data, chunk.begin, value.second, chunk.count + (value.second - value.first));
        LastGrows(chunks, grown, value);
        chunks := chunks[n - 1 := grown];
      } else {
        var only := Chunk([value], value.first, value.second, value.second - value.first);
        FlatAppends(chunks, [only]);
        FlatOne(only);
        SizesOfOne(value);
        chunks := chunks + [only];
      }
      LastRank(chunks);
    }

    /** `ensure_space`: a full chunk is split in half, and the position stays at the same range. */
    method EnsureSpace(pos: Pos) returns (at: Pos)
      requires Valid() && ValidPos(chunks, pos) && pos.inner.Some?
      modifies this`chunks
      ensures Valid() && Ranges() == old(Ranges())
      ensures ValidPos(chunks, at) && at.inner.Some? && Rank(chunks, at) == old(Rank(chunks, pos))
      ensures |chunks[at.outer].data| < maxSize
    {
      hide Flat, Sizes, Apart, Cached;
      if |chunks[pos.outer].data| + 1 <= maxSize { return pos; }
      var o, offset, toMove := pos.outer, pos.inner.value, maxSize / 2;
      var chunk := chunks[o];
      var keep := |chunk.data| - toMove;
      var moved := chunk.data[keep..];
      SplitSizes(chunks, o, keep);
      var count := CountOf(moved);
      var next := Chunk(moved, moved[0].first, moved[|moved| - 1].second, count);
      var prev := Chunk(chunk.data[..keep], chunk.begin, chunk.data[keep - 1].second, chunk.count - count);
      SplitKeeps(chunks, o, keep, prev, next, offset);
      chunks := chunks[..o] + [prev, next] + chunks[o + 1..];
      if offset >= toMove {
        at := Pos(o + 1, Some(offset - toMove));
      } else {
        at := Pos(o, Some(offset));
      }
    }

    /** `insert` puts a range before a position; the position returned is that of the new range. */
    method Insert(pos: Pos, value: Range) returns (at: Pos)
      requires Valid() && ValidPos(chunks, pos) && Fits(Ranges(), Rank(chunks, pos), value)
      modifies this`chunks
      ensures Valid() && Ranges() == Inserted(old(Ranges()), old(Rank(chunks, pos)), value)
      ensures ValidPos(chunks, at) && at.inner.Some? && Rank(chunks, at) == old(Rank(chunks, pos))
    {
      hide Flat, Sizes, Apart, Cached;
      RankFinds(chunks, pos);
      if pos.inner.None? {
        PushBack(value);
        return Last(chunks);
      }
      at := EnsureSpace(pos);
      var o, k, chunk := at.outer, at.inner.value, chunks[at.outer];
      InsertKeeps(chunks, o, k, value);
      var grown := Chunk(chunk.data[..k] + [value] + chunk.data[k..],
                         if value.first < chunk.begin then value.first else chunk.begin,
                         if chunk.end < value.second then value.second else chunk.end,
                         chunk.count + (value.second - value.first));
      chunks := chunks[o := grown];
    }

    /** `erase`; the position returned is that of the range that followed, or the end. */
    method Erase(pos: Pos) returns (at: Pos)
      requires Bounded() && Tidy(chunks) && ValidPos(chunks, pos) && pos.inner.Some?
      modifies this`chunks
      ensures old(Rank(chunks, pos)) < |old(Ranges())|
      ensures Bounded() && Tidy(chunks) && (Apart(old(Ranges())) ==> Valid())
              && Ranges() == Erased(old(Ranges()), old(Rank(chunks, pos)))
      ensures ValidPos(chunks, at) && Rank(chunks, at) == old(Rank(chunks, pos))
    {
      hide Flat, Sizes, Filled, Apart, Cached;
      var o, k, chunk := pos.outer, pos.inner.value, chunks[pos.outer];
      RankFinds(chunks, pos);
      EraseKeeps(chunks, o, k);
      if Apart(Flat(chunks)) { ErasedApart(Flat(chunks), Rank(chunks, pos)); }
      var data := chunk.data[..k] + chunk.data[k + 1..];
      if data == [] {
        ChunkGoes(chunks, o);
        chunks := chunks[..o] + chunks[o + 1..];
        at := if o == |chunks| then End(chunks) else Pos(o, Some(0));
      } else {
        var left := Chunk(data, data[0].first, data[|data| - 1].second,
                          chunk.count - (chunk.data[k].second - chunk.data[k].first));
        ChunkShrinks(chunks, o, k, left);
        chunks := chunks[o := left];
        if k < |data| {
          at := Pos(o, Some(k));
        } else {
          at := if o + 1 == |chunks| then End(chunks) else Pos(o + 1, Some(0));
        }
      }
    }

    /** `adjust` moves the ends of a range. */
    method Adjust(pos: Pos, front: int, back: int)
      requires Bounded() && Tidy(chunks) && ValidPos(chunks, pos) && pos.inner.Some?
      requires var r := chunks[pos.outer].data[pos.inner.value]; 0 <= r.first + front < r.second + back
      modifies this`chunks
      ensures Bounded() && Tidy(chunks) && SameShape(old(chunks), chunks)
      ensures var r, was := old(Rank(chunks, pos)), old(chunks[pos.outer].data[pos.inner.value]);
        && r < |old(Ranges())| && old(Ranges())[r] == was && 0 <= was.first + front && 0 <= was.second + back
        && Ranges() == old(Ranges())[r := Range(was.first + front, was.second + back)]
    {
      var o, k, chunk := pos.outer, pos.inner.value, chunks[pos.outer];
      var value := Range(chunk.data[k].first + front, chunk.data[k].second + back);
      hide Flat, Sizes, Filled, Cached;
      RankFinds(chunks, pos);
      AdjustKeeps(chunks, o, k, value);
      var count := chunk.count - (chunk.data[k].second - chunk.data[k].first) + (value.second - value.first);
      chunks := chunks[o := Chunk(chunk.data[k := value], if k == 0 then value.first else chunk.begin,
                                  if k == |chunk.data| - 1 then value.second else chunk.end, count)];
    }

    /** `std::prev` */
    method Prev(pos: Pos) returns (at: Pos)
      requires NoEmptyChunk(chunks) && ValidPos(chunks, pos) && Rank(chunks, pos) > 0
      ensures ValidPos(chunks, at) && at.inner.Some? && Rank(chunks, at) == Rank(chunks, pos) - 1
    {
      BeginIsFirst(chunks, pos);
      var it := new RangeIterator(chunks, pos);
      it.Decrement();
      at := it.At();
    }

    /** `IndexSet::do_add`; the position returned is that of the range that has the index. */
    method DoAdd(pos: Pos, index: nat) returns (at: Pos)
      requires Valid() && ValidPos(chunks, pos) && Finds(Ranges(), Rank(chunks, pos), index)
      modifies this`chunks
      ensures Valid() && Ranges() == Added(old(Ranges()), old(Rank(chunks, pos)), index)
      ensures ValidPos(chunks, at) && at.inner.Some? && Rank(chunks, at) < |Ranges()|
      ensures Ranges()[Rank(chunks, at)].first <= index < Ranges()[Rank(chunks, at)].second
    {
      hide Flat, Sizes, Filled, Apart, Cached, Merged, Inserted, Rank, WellFormed, Tidy;
      ghost var rs, r := Flat(chunks), Rank(chunks, pos);
      WellFormedIffTidy(chunks);
      RankFinds(chunks, pos);
      BeginIsFirst(chunks, pos);
      AddedApart(rs, r, index);
      AddedRange(rs, r, index);
      var valid, moreBefore := pos != End(chunks), pos != Begin(chunks);
      if valid && chunks[pos.outer].data[pos.inner.value].first <= index
         && chunks[pos.outer].data[pos.inner.value].second > index {
        return pos;
      }
      if moreBefore {
        var prev := Prev(pos);
        RankFinds(chunks, prev);
        if chunks[prev.outer].data[prev.inner.value].second == index {
          at := Extend(pos, prev, index);
          return;
        }
      }
      if valid && chunks[pos.outer].data[pos.inner.value].first == index + 1 {
        ghost var was := chunks;
        Neighbours(rs, r);
        Adjust(pos, -1, 0);
        ShapeRank(was, chunks, pos);
        WellFormedIffTidy(chunks);
        return pos;
      }
      at := Insert(pos, Range(index, index + 1));
    }

    /** The index is immediately after a range, and perhaps joins it to the next. */
    method Extend(pos: Pos, prev: Pos, index: nat) returns (at: Pos)
      requires Valid() && ValidPos(chunks, pos) && Finds(Ranges(), Rank(chunks, pos), index)
      requires ValidPos(chunks, prev) && prev.inner.Some? && Rank(chunks, pos) == Rank(chunks, prev) + 1 <= |Ranges()|
      requires Ranges()[Rank(chunks, prev)].second == index
      requires Rank(chunks, pos) < |Ranges()| ==> index < Ranges()[Rank(chunks, pos)].first
      modifies this`chunks
      ensures Valid() && Ranges() == Added(old(Ranges()), old(Rank(chunks, pos)), index)
      ensures ValidPos(chunks, at) && at.inner.Some? && Rank(chunks, at) == old(Rank(chunks, prev)) < |Ranges()|
    {
      hide Flat, Sizes, Filled, Apart, Cached, Erased, Rank, WellFormed, Tidy;
      ghost var rs, r, was := Flat(chunks), Rank(chunks, pos), chunks;
      WellFormedIffTidy(chunks);
      RankFinds(chunks, pos);
      RankFinds(chunks, prev);
      Neighbours(rs, r - 1);
      AddedApart(rs, r, index);
      AddedRange(rs, r, index);
      Adjust(prev, 0, 1);
      ShapeRank(was, chunks, pos);
      ShapeRank(was, chunks, prev);
      RankFinds(chunks, pos);
      RankFinds(chunks, prev);
      var end := chunks[prev.outer].data[prev.inner.value].second;
      if pos != End(chunks) && end == chunks[pos.outer].data[pos.inner.value].first {
        ghost var extended := chunks;
        var next := chunks[pos.outer].data[pos.inner.value];
        Neighbours(rs, r);
        Adjust(prev, 0, next.second - next.first);
        assert Flat(chunks) == rs[r - 1 := Range(rs[r - 1].first, rs[r].second)];
        ShapeRank(extended, chunks, pos);
        var after := Erase(pos);
        WellFormedIffTidy(chunks);
        at := Prev(after);
      } else {
        at := prev;
      }
      WellFormedIffTidy(chunks);
    }

    /** `IndexSet::add` puts one index into the set. */
    method Add(index: nat)
      requires Valid()
      modifies this`chunks
      ensures Valid()
      ensures forall x: int :: InRanges(Ranges(), x) <==> InRanges(old(Ranges()), x) || x == index
    {
      ghost var rs := Flat(chunks);
      var pos := Find(chunks, index);
      RankFinds(chunks, pos);
      ghost var r := Rank(chunks, pos);
      var at := DoAdd(pos, index);
      AddedMembers(rs, r, index);
    }
  }

  /** `std::prev(end())` of what is not empty. */
  function Last(chunks: seq<Chunk>): Pos {
    if chunks == [] || chunks[|chunks| - 1].data == [] then End(chunks)
    else Pos(|chunks| - 1, Some(|chunks[|chunks| - 1].data| - 1))
  }

  lemma {:induction false} LastRank(chunks: seq<Chunk>)
    requires NoEmptyChunk(chunks) && chunks != []
    ensures Last(chunks).inner.Some? && ValidPos(chunks, Last(chunks))
    ensures Rank(chunks, Last(chunks)) == |Flat(chunks)| - 1
  {
    FlatAt(chunks, |chunks| - 1);
    assert chunks[|chunks|..] == [];
  }

  lemma {:induction false} LastGrows(chunks: seq<Chunk>, grown: Chunk, value: Range)
    requires WellFormed(chunks) && chunks != [] && value.first < value.second
    requires var chunk := chunks[|chunks| - 1];
      grown == Chunk(chunk.data + [value], chunk.begin, value.second, chunk.count + (value.second - value.first))
    ensures Flat(chunks[|chunks| - 1 := grown]) == Flat(chunks) + [value] && Cached(grown)
  {
    hide Flat;
    var n, chunk := |chunks|, chunks[|chunks| - 1];
    assert Cached(chunk);
    SizesAdd(chunk.data, [value]);
    SizesOfOne(value);
    FlatAt(chunks, n - 1);
    ReplacedFlat(chunks, n - 1, [grown]);
    assert Replaced(chunks, n - 1, [grown]) == chunks[n - 1 := grown];
    FlatOne(grown);
    assert chunks[n..] == [] && Flat(chunks[n..]) == [] by { FlatOfNone(chunks[n..]); }
  }

  lemma {:induction false} FlatOfNone(chunks: seq<Chunk>)
    requires chunks == []
    ensures Flat(chunks) == []
  {}

  /** How many indices the ranges of a new chunk have. */
  method CountOf(rs: seq<Range>) returns (count: nat)
    requires forall i :: 0 <= i < |rs| ==> rs[i].first <= rs[i].second
    ensures count == Sizes(rs)
  {
    count := 0;
    assert rs[..0] == [];
    for k := 0 to |rs|
      invariant count == Sizes(rs[..k])
    {
      assert rs[..k + 1][..k] == rs[..k];
      count := count + (rs[k].second - rs[k].first);
    }
    assert rs[..|rs|] == rs;
  }

  lemma {:induction false} SplitSizes(chunks: seq<Chunk>, o: nat, keep: nat)
    requires WellFormed(chunks) && o < |chunks| && keep < |chunks[o].data|
    ensures chunks[o].count == Sizes(chunks[o].data[..keep]) + Sizes(chunks[o].data[keep..])
    ensures forall i :: keep <= i < |chunks[o].data| ==> chunks[o].data[i].first < chunks[o].data[i].second
  {
    var data := chunks[o].data;
    assert Cached(chunks[o]) && data[..keep] + data[keep..] == data;
    SizesAdd(data[..keep], data[keep..]);
    DataApart(chunks, o);
  }

  /** The ranges of one chunk are apart like all. */
  lemma {:induction false} DataApart(chunks: seq<Chunk>, o: nat)
    requires Apart(Flat(chunks)) && o < |chunks|
    ensures Apart(chunks[o].data)
  {
    hide Flat, Apart;
    FlatAt(chunks, o);
    Middle(Flat(chunks[..o]), chunks[o].data, Flat(chunks[o + 1..]));
    SliceApart(Flat(chunks), |Flat(chunks[..o])|, |Flat(chunks[..o])| + |chunks[o].data|);
  }

  lemma Middle<T>(a: seq<T>, b: seq<T>, c: seq<T>)
    ensures (a + b + c)[|a|..|a| + |b|] == b
  {}

  lemma SliceApart(rs: seq<Range>, from: nat, to: nat)
    requires Apart(rs) && from <= to <= |rs|
    ensures Apart(rs[from..to])
  {}

  /** The two halves hold the same ranges at the same ranks. */
  lemma {:induction false} SplitKeeps(chunks: seq<Chunk>, o: nat, keep: nat, prev: Chunk, next: Chunk, k: nat)
    requires WellFormed(chunks) && o < |chunks| && 0 < keep < |chunks[o].data| && k < |chunks[o].data|
    requires var data := chunks[o].data;
      && next == Chunk(data[keep..], data[keep].first, data[|data| - 1].second, Sizes(data[keep..]))
      && prev == Chunk(data[..keep], chunks[o].begin, data[keep - 1].second, Sizes(data[..keep]))
    ensures var split := chunks[..o] + [prev, next] + chunks[o + 1..];
      var at := if k < keep then Pos(o, Some(k)) else Pos(o + 1, Some(k - keep));
      && WellFormed(split) && Flat(split) == Flat(chunks)
      && ValidPos(split, at) && Rank(split, at) == Rank(chunks, Pos(o, Some(k)))
  {
    hide Flat, Sizes;
    var split, data := Replaced(chunks, o, [prev, next]), chunks[o].data;
    assert Cached(chunks[o]) && data[..keep] + data[keep..] == data;
    FlatAt(chunks, o);
    ReplacedFlat(chunks, o, [prev, next]);
    FlatAppends([prev], [next]);
    FlatOne(prev);
    FlatOne(next);
    assert [prev] + [next] == [prev, next];
    FlatAt(split, o);
    assert Cached(prev) && Cached(next);
    ReplacedCached(chunks, o, [prev, next]);
  }

  /** One chunk grows by a range that fits. */
  lemma {:induction false} InsertKeeps(chunks: seq<Chunk>, o: nat, k: nat, value: Range)
    requires WellFormed(chunks) && o < |chunks| && k < |chunks[o].data|
    requires Fits(Flat(chunks), |Flat(chunks[..o])| + k, value)
    ensures var chunk, r := chunks[o], |Flat(chunks[..o])| + k;
      var grown := Chunk(Inserted(chunk.data, k, value), if value.first < chunk.begin then value.first else chunk.begin,
                         if chunk.end < value.second then value.second else chunk.end,
                         chunk.count + (value.second - value.first));
      && WellFormed(chunks[o := grown]) && Flat(chunks[o := grown]) == Inserted(Flat(chunks), r, value)
      && ValidPos(chunks[o := grown], Pos(o, Some(k))) && Rank(chunks[o := grown], Pos(o, Some(k))) == r
  {
    hide Flat, Sizes;
    var chunk, r := chunks[o], |Flat(chunks[..o])| + k;
    var grown := Chunk(Inserted(chunk.data, k, value), if value.first < chunk.begin then value.first else chunk.begin,
                       if chunk.end < value.second then value.second else chunk.end,
                       chunk.count + (value.second - value.first));
    FlatAt(chunks, o);
    Adjoin(Flat(chunks[..o]), chunk.data, Flat(chunks[o + 1..]), k, value);
    ReplacedFlat(chunks, o, [grown]);
    FlatOne(grown);
    assert Replaced(chunks, o, [grown]) == chunks[o := grown];
    InsertedApartIff(Flat(chunks), r, value);
    SizesInserted(chunk.data, k, value);
    GrownCache(chunks, o, k, value);
    assert Cached(grown);
  }

  /** The cached ends are those of the grown chunk. */
  lemma {:induction false} GrownCache(chunks: seq<Chunk>, o: nat, k: nat, value: Range)
    requires WellFormed(chunks) && o < |chunks| && k < |chunks[o].data|
    requires Fits(Flat(chunks), |Flat(chunks[..o])| + k, value)
    ensures var chunk, data := chunks[o], Inserted(chunks[o].data, k, value);
      && data[0].first == (if value.first < chunk.begin then value.first else chunk.begin)
      && data[|data| - 1].second == (if chunk.end < value.second then value.second else chunk.end)
  {
    hide Flat, Sizes;
    var data, n := chunks[o].data, |Flat(chunks[..o])|;
    FlatAt(chunks, o);
    DataApart(chunks, o);
    assert Cached(chunks[o]);
    assert data[k] == Flat(chunks)[n + k] && (k > 0 ==> data[k - 1] == Flat(chunks)[n + k - 1]);
  }

  /** One chunk loses a range, and goes with its last. */
  lemma {:induction false} EraseKeeps(chunks: seq<Chunk>, o: nat, k: nat)
    requires Tidy(chunks) && o < |chunks| && k < |chunks[o].data|
    ensures var data, r := Erased(chunks[o].data, k), |Flat(chunks[..o])| + k;
      && r < |Flat(chunks)| && Filled(Erased(Flat(chunks), r))
      && chunks[o].data[k].first <= chunks[o].data[k].second
      && chunks[o].count == Sizes(data) + (chunks[o].data[k].second - chunks[o].data[k].first)
      && Flat(chunks[..o]) + data + Flat(chunks[o + 1..]) == Erased(Flat(chunks), r)
  {
    hide Flat, Sizes;
    var data := chunks[o].data;
    FlatAt(chunks, o);
    DataFilled(chunks, o);
    Disjoin(Flat(chunks[..o]), data, Flat(chunks[o + 1..]), k);
    SizesInserted(Erased(data, k), k, data[k]);
    assert Inserted(Erased(data, k), k, data[k]) == data && Cached(chunks[o]);
  }

  lemma {:induction false} DataFilled(chunks: seq<Chunk>, o: nat)
    requires Filled(Flat(chunks)) && o < |chunks|
    ensures Filled(chunks[o].data)
  {
    hide Flat, Filled;
    FlatAt(chunks, o);
    Middle(Flat(chunks[..o]), chunks[o].data, Flat(chunks[o + 1..]));
    SliceFilled(Flat(chunks), |Flat(chunks[..o])|, |Flat(chunks[..o])| + |chunks[o].data|);
  }

  lemma SliceFilled(rs: seq<Range>, from: nat, to: nat)
    requires Filled(rs) && from <= to <= |rs|
    ensures Filled(rs[from..to])
  {}

  lemma {:induction false} ChunkGoes(chunks: seq<Chunk>, o: nat)
    requires Tidy(chunks) && o < |chunks| && |chunks[o].data| == 1
    ensures var fewer := chunks[..o] + chunks[o + 1..];
      var at := if o == |fewer| then End(fewer) else Pos(o, Some(0));
      && Tidy(fewer) && |Flat(chunks[..o])| < |Flat(chunks)|
      && Flat(fewer) == Erased(Flat(chunks), |Flat(chunks[..o])|)
      && ValidPos(fewer, at) && Rank(fewer, at) == |Flat(chunks[..o])|
  {
    hide Flat, Sizes;
    EraseKeeps(chunks, o, 0);
    FlatAppends(chunks[..o], chunks[o + 1..]);
    var fewer := chunks[..o] + chunks[o + 1..];
    assert Erased(chunks[o].data, 0) == [];
    assert Flat(chunks[..o]) + [] + Flat(chunks[o + 1..]) == Flat(chunks[..o]) + Flat(chunks[o + 1..]);
    assert fewer[..o] == chunks[..o];
  }

  lemma {:induction false} ChunkShrinks(chunks: seq<Chunk>, o: nat, k: nat, left: Chunk)
    requires Tidy(chunks) && o < |chunks| && k < |chunks[o].data| && |chunks[o].data| > 1
    requires var data := Erased(chunks[o].data, k);
      left == Chunk(data, data[0].first, data[|data| - 1].second, Sizes(data))
    ensures var fewer := chunks[o := left];
      var at := if k < |left.data| then Pos(o, Some(k)) else if o + 1 == |fewer| then End(fewer)
          else Pos(o + 1, Some(0));
      && Tidy(fewer) && |Flat(chunks[..o])| + k < |Flat(chunks)|
      && Flat(fewer) == Erased(Flat(chunks), |Flat(chunks[..o])| + k)
      && ValidPos(fewer, at) && Rank(fewer, at) == |Flat(chunks[..o])| + k
  {
    hide Flat, Sizes;
    var fewer := chunks[o := left];
    EraseKeeps(chunks, o, k);
    ReplacedFlat(chunks, o, [left]);
    FlatOne(left);
    assert Replaced(chunks, o, [left]) == fewer;
    FlatAt(fewer, o);
    assert Cached(left);
  }

  /** The chunk with one of its ranges moved. */
  function Adjusted(chunk: Chunk, k: nat, value: Range): Chunk
    requires k < |chunk.data| && value.first < value.second && chunk.data[k].first <= chunk.data[k].second
  {
    var count := chunk.count - (chunk.data[k].second - chunk.data[k].first) + (value.second - value.first);
    Chunk(chunk.data[k := value], if k == 0 then value.first else chunk.begin,
          if k == |chunk.data| - 1 then value.second else chunk.end, if count >= 0 then count else 0)
  }

  lemma AdjustedCache(chunk: Chunk, k: nat, value: Range)
    requires Cached(chunk) && Filled(chunk.data) && k < |chunk.data| && value.first < value.second
    ensures Cached(Adjusted(chunk, k, value))
    ensures chunk.count - (chunk.data[k].second - chunk.data[k].first) + (value.second - value.first) >= 0
  {
    hide Sizes;
    var data := chunk.data;
    SizesInserted(Erased(data, k), k, data[k]);
    SizesInserted(Erased(data, k), k, value);
    assert Inserted(Erased(data, k), k, data[k]) == data && Inserted(Erased(data, k), k, value) == data[k := value];
  }

  /** One range of a chunk becomes another, and the cached values follow. */
  lemma {:induction false} AdjustKeeps(chunks: seq<Chunk>, o: nat, k: nat, value: Range)
    requires Tidy(chunks) && o < |chunks| && k < |chunks[o].data| && value.first < value.second
    ensures var chunk, r := chunks[o], |Flat(chunks[..o])| + k;
      && chunk.data[k].first <= chunk.data[k].second
      && chunk.count - (chunk.data[k].second - chunk.data[k].first) + (value.second - value.first) >= 0
      && r < |Flat(chunks)| && Tidy(chunks[o := Adjusted(chunk, k, value)])
      && Flat(chunks[o := Adjusted(chunk, k, value)]) == Flat(chunks)[r := value]
  {
    hide Flat, Sizes, Cached;
    var chunk, r := chunks[o], |Flat(chunks[..o])| + k;
    FlatAt(chunks, o);
    DataFilled(chunks, o);
    AdjustedCache(chunk, k, value);
    var adjusted := Adjusted(chunk, k, value);
    Exchange(Flat(chunks[..o]), chunk.data, Flat(chunks[o + 1..]), k, value);
    ReplacedFlat(chunks, o, [adjusted]);
    FlatOne(adjusted);
    assert Replaced(chunks, o, [adjusted]) == chunks[o := adjusted];
  }

  lemma WellFormedIffTidy(chunks: seq<Chunk>)
    ensures WellFormed(chunks) <==> Tidy(chunks) && Apart(Flat(chunks))
    ensures Tidy(chunks) ==> NoEmptyChunk(chunks)
  {
    hide Flat, Cached;
  }

  /** The same number of chunks with the same number of ranges each. */
  predicate SameShape(a: seq<Chunk>, b: seq<Chunk>) {
    |a| == |b| && forall i :: 0 <= i < |a| ==> |a[i].data| == |b[i].data|
  }

  lemma {:induction false} ShapeRank(a: seq<Chunk>, b: seq<Chunk>, pos: Pos)
    requires SameShape(a, b) && ValidPos(a, pos)
    ensures ValidPos(b, pos) && Rank(a, pos) == Rank(b, pos)
  {
    ShapeFlat(a, b, pos.outer);
  }

  lemma {:induction false} ShapeFlat(a: seq<Chunk>, b: seq<Chunk>, n: nat)
    requires SameShape(a, b) && n <= |a|
    ensures |Flat(a[..n])| == |Flat(b[..n])|
    decreases n
  {
    if n > 0 {
      ShapeFlat(a, b, n - 1);
      FlatAt(a, n - 1);
      FlatAt(b, n - 1);
    }
  }

  // ---- Adding one index ---------------------------------------------------------------------------------

  /** A range and the one before it become one. */
  function Merged(rs: seq<Range>, r: nat): seq<Range>
    requires 0 < r < |rs|
  {
    Erased(rs[r - 1 := Range(rs[r - 1].first, rs[r].second)], r)
  }

  /** What adding an index makes of the ranges, when `r` is the first that ends after it. */
  function Added(rs: seq<Range>, r: nat, index: nat): seq<Range>
    requires r <= |rs|
  {
    if r < |rs| && rs[r].first <= index then rs
    else if r > 0 && rs[r - 1].second == index then
      if r < |rs| && rs[r].first == index + 1 then Merged(rs, r)
      else rs[r - 1 := Range(rs[r - 1].first, index + 1)]
    else if r < |rs| && rs[r].first == index + 1 then rs[r := Range(index, rs[r].second)]
    else Inserted(rs, r, Range(index, index + 1))
  }

  lemma Neighbours(rs: seq<Range>, r: nat)
    requires Apart(rs) && r < |rs|
    ensures rs[r].first < rs[r].second && (r > 0 ==> rs[r - 1].second < rs[r].first)
    ensures r + 1 < |rs| ==> rs[r].second < rs[r + 1].first
  {}

  lemma MergedApart(rs: seq<Range>, r: nat)
    requires Apart(rs) && 0 < r < |rs|
    ensures Apart(Merged(rs, r))
  {
    var wide := Range(rs[r - 1].first, rs[r].second);
    Neighbours(rs, r - 1);
    Neighbours(rs, r);
    ErasedApart(rs, r);
    ExchangedApart(Erased(rs, r), r - 1, wide);
    assert Erased(rs, r)[r - 1 := wide] == Merged(rs, r);
  }

  /** The ranges stay apart: an index between two of them joins them. */
  lemma AddedApart(rs: seq<Range>, r: nat, index: nat)
    requires Apart(rs) && Finds(rs, r, index)
    ensures Apart(Added(rs, r, index))
  {
    hide Apart, Merged, Inserted;
    if r > 0 { Neighbours(rs, r - 1); }
    if r < |rs| { Neighbours(rs, r); }
    if r < |rs| && rs[r].first <= index {
    } else if r > 0 && rs[r - 1].second == index {
      if r < |rs| && rs[r].first == index + 1 {
        MergedApart(rs, r);
      } else {
        ExchangedApart(rs, r - 1, Range(rs[r - 1].first, index + 1));
      }
    } else if r < |rs| && rs[r].first == index + 1 {
      ExchangedApart(rs, r, Range(index, rs[r].second));
    } else {
      InsertedApartIff(rs, r, Range(index, index + 1));
    }
  }

  /** Which range has the index then. */
  lemma AddedRange(rs: seq<Range>, r: nat, index: nat)
    requires Apart(rs) && Finds(rs, r, index)
    ensures var k := if !(r < |rs| && rs[r].first <= index) && r > 0 && rs[r - 1].second == index then r - 1 else r;
      k < |Added(rs, r, index)| && Added(rs, r, index)[k].first <= index < Added(rs, r, index)[k].second
  {}

  /** They have the index as a new member and no other. */
  lemma AddedMembers(rs: seq<Range>, r: nat, index: nat)
    requires Apart(rs) && Finds(rs, r, index)
    ensures forall x: int :: InRanges(Added(rs, r, index), x) <==> InRanges(rs, x) || x == index
  {
    forall x: int ensures InRanges(Added(rs, r, index), x) <==> InRanges(rs, x) || x == index {
      AddedMember(rs, r, index, x);
    }
  }

  lemma AddedMember(rs: seq<Range>, r: nat, index: nat, x: int)
    requires Apart(rs) && Finds(rs, r, index)
    ensures InRanges(Added(rs, r, index), x) <==> InRanges(rs, x) || x == index
  {
    hide Apart, Merged, Inserted, InRanges;
    if r > 0 {
      Neighbours(rs, r - 1);
      SomeRange(rs, r - 1, x);
    }
    if r < |rs| {
      Neighbours(rs, r);
      SomeRange(rs, r, x);
    }
    if r < |rs| && rs[r].first <= index {
    } else if r > 0 && rs[r - 1].second == index {
      if r < |rs| && rs[r].first == index + 1 {
        MergedMember(rs, r, x);
      } else {
        ExchangedMember(rs, r - 1, Range(rs[r - 1].first, index + 1), x);
      }
    } else if r < |rs| && rs[r].first == index + 1 {
      ExchangedMember(rs, r, Range(index, rs[r].second), x);
    } else {
      InsertedMember(rs, r, Range(index, index + 1), x);
    }
  }

  /** Joining two ranges adds what lies between them. */
  lemma MergedMember(rs: seq<Range>, r: nat, x: int)
    requires 0 < r < |rs| && rs[r - 1].first <= rs[r].first && rs[r - 1].second <= rs[r].second
    ensures InRanges(Merged(rs, r), x) <==> InRanges(rs, x) || rs[r - 1].first <= x < rs[r].second
  {
    hide InRanges;
    var value := Range(rs[r - 1].first, rs[r].second);
    var wide := rs[r - 1 := value];
    ExchangedMember(rs, r - 1, value, x);
    InsertedMember(Erased(wide, r), r, wide[r], x);
    assert Inserted(Erased(wide, r), r, wide[r]) == wide;
    SomeRange(Erased(wide, r), r - 1, x);
  }

  lemma SomeRange(rs: seq<Range>, r: nat, x: int)
    requires r < |rs|
    ensures rs[r].first <= x < rs[r].second ==> InRanges(rs, x)
  {}

  lemma InsertedMember(rs: seq<Range>, r: nat, value: Range, x: int)
    requires r <= |rs|
    ensures InRanges(Inserted(rs, r, value), x) <==> InRanges(rs, x) || value.first <= x < value.second
  {
    var all := Inserted(rs, r, value);
    assert all[r] == value;
    assert forall i :: 0 <= i < r ==> all[i] == rs[i];
    assert forall i :: r <= i < |rs| ==> rs[i] == all[i + 1];
    assert forall i :: r < i < |all| ==> all[i] == rs[i - 1];
  }

  lemma ExchangedMember(rs: seq<Range>, r: nat, value: Range, x: int)
    requires r < |rs| && value.first <= rs[r].first && rs[r].second <= value.second
    ensures InRanges(rs[r := value], x) <==> InRanges(rs, x) || value.first <= x < value.second
  {
    var all := rs[r := value];
    assert all[r] == value;
    assert forall i :: 0 <= i < |rs| && i != r ==> all[i] == rs[i];
  }

  /** A range grows or moves within the room it has. */
  predicate FitsAgain(rs: seq<Range>, r: nat, value: Range) {
    && r < |rs| && value.first < value.second
    && (r > 0 ==> rs[r - 1].second < value.first)
    && (r + 1 < |rs| ==> value.second < rs[r + 1].first)
  }

  lemma ExchangedApart(rs: seq<Range>, r: nat, value: Range)
    requires Apart(rs) && FitsAgain(rs, r, value)
    ensures Apart(rs[r := value])
  {
    var all := rs[r := value];
    forall i, j | 0 <= i < j < |all| ensures all[i].second < all[j].first {
      if j == r && i < r - 1 { assert rs[i].second < rs[r - 1].first < rs[r - 1].second; }
      if i == r && j > r + 1 { assert rs[r + 1].first < rs[r + 1].second < rs[j].first; }
    }
  }

  // ---- The builder --------------------------------------------------------------------------------------

  /** A range is put behind others, or extends the last if it begins where that ends. */
  function Appended(rs: seq<Range>, value: Range): seq<Range> {
    if rs != [] && rs[|rs| - 1].second == value.first then
      rs[|rs| - 1 := Range(rs[|rs| - 1].first, value.second)]
    else rs + [value]
  }

  predicate ComesNext(rs: seq<Range>, value: Range) {
    value.first < value.second && (rs != [] ==> rs[|rs| - 1].second <= value.first)
  }

  lemma AppendedApart(rs: seq<Range>, value: Range)
    requires Apart(rs) && ComesNext(rs, value)
    ensures Apart(Appended(rs, value))
  {
    if rs != [] && rs[|rs| - 1].second == value.first {
      ExchangedApart(rs, |rs| - 1, Range(rs[|rs| - 1].first, value.second));
    } else {
      InsertedApartIff(rs, |rs|, value);
      assert Inserted(rs, |rs|, value) == rs + [value];
    }
  }

  lemma AppendedShape(rs: seq<Range>, value: Range)
    ensures var all := Appended(rs, value);
      && |all| == |rs| + (if rs != [] && rs[|rs| - 1].second == value.first then 0 else 1)
      && (if rs == [] then all == [value] else all[0].first == rs[0].first)
  {}

  lemma AppendedSizes(rs: seq<Range>, value: Range)
    requires Filled(rs) && ComesNext(rs, value)
    ensures Sizes(Appended(rs, value)) == Sizes(rs) + (value.second - value.first)
  {
    if rs != [] && rs[|rs| - 1].second == value.first {
      var n := |rs| - 1;
      assert Appended(rs, value)[..n] == rs[..n];
    } else {
      SizesAdd(rs, [value]);
      SizesOfOne(value);
    }
  }

  const BLANK: Chunk := Chunk([], 0, 0, 0)

  /** Right but for its count and, while it is being filled, its end. */
  predicate Begun(chunk: Chunk) {
    chunk.data != [] && chunk.begin == chunk.data[0].first
  }

  predicate Full(chunk: Chunk, maxSize: nat) {
    && Begun(chunk) && |chunk.data| == maxSize
    && chunk.end == chunk.data[|chunk.data| - 1].second
  }

  /** How many ranges so many chunks hold. */
  function Room(chunks: nat, maxSize: nat): nat {
    chunks * maxSize
  }

  lemma RoomOfNext(chunks: nat, maxSize: nat)
    ensures Room(chunks + 1, maxSize) == Room(chunks, maxSize) + maxSize
  {}

  /** All chunks before `outer` are full, and all after it blank. */
  predicate Lined(data: seq<Chunk>, outer: nat, maxSize: nat) {
    && maxSize > 0 && outer < |data|
    && (forall i :: outer < i < |data| ==> data[i] == BLANK)
    && (forall i :: 0 <= i < outer ==> Full(data[i], maxSize))
    && |data[outer].data| <= maxSize
    && (Begun(data[outer]) || (outer == 0 && data[0] == BLANK))
  }

  predicate Building(data: seq<Chunk>, outer: nat, maxSize: nat) {
    && Lined(data, outer, maxSize)
    && Apart(Flat(data[..outer + 1])) && |Flat(data[..outer])| == Room(outer, maxSize)
  }

  lemma LinedHere(data: seq<Chunk>, outer: nat, maxSize: nat, chunk: Chunk)
    requires Lined(data, outer, maxSize) && Begun(chunk) && |chunk.data| <= maxSize
    ensures Lined(data[outer := chunk], outer, maxSize)
  {}

  /** The chunk with one more range, or a longer last one. */
  function Here(chunk: Chunk, value: Range): Chunk
    requires value.first < value.second
  {
    var width := value.second - value.first;
    if chunk.data == [] then Chunk([value], value.first, chunk.end, width)
    else Chunk(Appended(chunk.data, value), chunk.begin, chunk.end, chunk.count + width)
  }

  lemma HereCounts(chunk: Chunk, value: Range)
    requires Filled(chunk.data) && ComesNext(chunk.data, value) && (Begun(chunk) || chunk == BLANK)
    ensures Begun(Here(chunk, value)) && Here(chunk, value).data == Appended(chunk.data, value)
    ensures Here(chunk, value).count == Sizes(Here(chunk, value).data) <==> chunk.count == Sizes(chunk.data)
  {
    hide Sizes, Filled;
    AppendedSizes(chunk.data, value);
    AppendedShape(chunk.data, value);
    SizesOfNone();
  }

  lemma HereFlat(front: seq<Range>, rs: seq<Range>, value: Range)
    requires rs != [] || front == []
    ensures front + Appended(rs, value) == Appended(front + rs, value)
  {
    if rs == [] {
      assert front + rs == [];
    } else {
      AppendedAfter(front, rs, value);
    }
  }

  lemma LinedChunk(data: seq<Chunk>, o: nat, maxSize: nat)
    requires Lined(data, o, maxSize)
    ensures o < |data| && maxSize > 0 && |data[o].data| <= maxSize
    ensures Begun(data[o]) || (o == 0 && data[o] == BLANK)
  {}

  lemma {:induction false} HereKeeps(data: seq<Chunk>, o: nat, maxSize: nat, value: Range)
    requires o < |data| && Building(data, o, maxSize) && ComesNext(Flat(data[..o + 1]), value)
    requires var rs := data[o].data; rs == [] || value.first == rs[|rs| - 1].second || |rs| < maxSize
    ensures var grown := data[o := Here(data[o], value)];
      && Building(grown, o, maxSize) && Flat(grown[..o + 1]) == Appended(Flat(data[..o + 1]), value)
      && (grown[o].count == Sizes(grown[o].data) <==> data[o].count == Sizes(data[o].data))
  {
    hide Flat, Sizes, Apart, Filled, Appended, Here, Lined, Room;
    LinedChunk(data, o, maxSize);
    var chunk, grown := data[o], data[o := Here(data[o], value)];
    LastOfPrefix(data, o);
    AppendedApart(Flat(data[..o + 1]), value);
    HereCounts(chunk, value);
    AppendedShape(chunk.data, value);
    HereFlat(Flat(data[..o]), chunk.data, value) by {
      if o == 0 { FlatOfNone(data[..o]); }
    }
    LinedHere(data, o, maxSize, Here(chunk, value));
    assert grown[..o] == data[..o];
    LastOfPrefix(grown, o);
  }

  /** A full chunk, with its end. */
  function Ended(chunk: Chunk): Chunk
    requires chunk.data != []
  {
    chunk.(end := chunk.data[|chunk.data| - 1].second)
  }

  /** The data with the present chunk ended and the next begun: it was reserved or is added. */
  function Continued(data: seq<Chunk>, o: nat, next: Chunk): seq<Chunk>
    requires o < |data| && data[o].data != []
  {
    var ended := data[o := Ended(data[o])];
    if o + 1 == |data| then ended + [next] else ended[o + 1 := next]
  }

  lemma LinedNext(data: seq<Chunk>, o: nat, maxSize: nat, next: Chunk)
    requires Lined(data, o, maxSize) && |data[o].data| == maxSize && |next.data| == 1
             && next.begin == next.data[0].first
    ensures var more := Continued(data, o, next);
      && Lined(more, o + 1, maxSize) && more[o + 1] == next
      && forall i :: 0 <= i <= o ==> more[i].data == data[i].data
  {}

  lemma {:induction false} NextKeeps(data: seq<Chunk>, o: nat, maxSize: nat, value: Range, next: Chunk)
    requires o < |data| && Building(data, o, maxSize) && ComesNext(Flat(data[..o + 1]), value)
    requires var rs := data[o].data; rs != [] && value.first != rs[|rs| - 1].second && |rs| == maxSize
    requires next.data == [value] && next.begin == value.first
    ensures var more := Continued(data, o, next);
      Building(more, o + 1, maxSize) && Flat(more[..o + 2]) == Appended(Flat(data[..o + 1]), value)
  {
    hide Flat, Sizes, Apart, Filled, Lined, Continued, Room;
    LinedChunk(data, o, maxSize);
    LinedNext(data, o, maxSize, next);
    RoomOfNext(o, maxSize);
    var more := Continued(data, o, next);
    LastOfPrefix(data, o);
    AppendedApart(Flat(data[..o + 1]), value);
    SameData(data, more, o + 1);
    LastOfPrefix(more, o + 1);
  }

  /** All counts are right if they were and that of the new chunk is. */
  lemma NextCounts(data: seq<Chunk>, more: seq<Chunk>, o: nat, value: Range)
    requires 0 < o <= |data| && o < |more| && value.first < value.second && more[o].data == [value]
    requires forall i :: 0 <= i < o ==> more[i].data == data[i].data && more[i].count == data[i].count
    ensures (forall i :: 0 <= i <= o ==> more[i].count == Sizes(more[i].data)) <==>
            (forall i :: 0 <= i < o ==> data[i].count == Sizes(data[i].data))
                && more[o].count == value.second - value.first
  {
    hide Sizes;
    SizesOfOne(value);
  }

  /** `ChunkedRangeVectorBuilder`: chunks are reserved for as many ranges as the old set had. */
  class ChunkedRangeVectorBuilder {
    const maxSize: nat
    var data: seq<Chunk>
    var outer: nat

    predicate Valid()
      reads this
    {
      Building(data, outer, maxSize)
    }

    ghost function Ranges(): seq<Range>
      reads this
    {
      if outer < |data| then Flat(data[..outer + 1]) else []
    }

    /** Every chunk has as many indices as it says. */
    predicate Counted()
      requires outer < |data|
      reads this
    {
      forall i :: 0 <= i <= outer ==> data[i].count == Sizes(data[i].data)
    }

    /** The range begins a chunk that was not reserved: there are as many ranges as there is room for. */
    ghost predicate Overflows(value: Range)
      reads this
    {
      var rs := Ranges();
      rs != [] && value.first != rs[|rs| - 1].second && |rs| == Room(|data|, maxSize)
    }

    constructor (size: nat, maxSize: nat)
      requires maxSize > 0
      ensures Valid() && Counted() && Ranges() == [] && this.maxSize == maxSize && |data| == size / maxSize + 1
    {
      this.maxSize := maxSize;
      data := seq(size / maxSize + 1, _ => BLANK);
      outer := 0;
      new;
      assert data[..1] == [BLANK] && data[..0] == [];
      FlatOne(BLANK);
      SizesOfNone();
    }

    /**
     * `push_back`; the counts stay right, or wrong, unless a chunk is added for a range of more than one
     * index: that chunk is given the count 1.
     */
    method PushBack(value: Range)
      requires Valid() && ComesNext(Ranges(), value)
      modifies this
      ensures Valid() && Ranges() == Appended(old(Ranges()), value)
      ensures |data| == old(|data|) + if old(Overflows(value)) then 1 else 0
      ensures Counted() <==> old(Counted()) && (old(Overflows(value)) ==> value.second == value.first + 1)
    {
      hide Flat, Sizes, Apart, Filled, Room;
      var chunk := data[outer];
      LastOfPrefix(data, outer);
      RoomLeft(outer, |chunk.data|, |data|, maxSize);
      if chunk.data == [] || value.first == chunk.data[|chunk.data| - 1].second || |chunk.data| < maxSize {
        PushHere(value);
      } else {
        PushNext(value);
      }
    }

    /** The present chunk has room, or the range extends its last. */
    method PushHere(value: Range)
      requires Valid() && ComesNext(Ranges(), value)
      requires var rs := data[outer].data; rs == [] || value.first == rs[|rs| - 1].second || |rs| < maxSize
      modifies this`data
      ensures Valid() && Ranges() == Appended(old(Ranges()), value) && |data| == old(|data|)
      ensures Counted() <==> old(Counted())
    {
      hide Flat, Sizes, Apart, Filled, Appended, Here;
      HereKeeps(data, outer, maxSize, value);
      data := data[outer := Here(data[outer], value)];
    }

    /** The present chunk is full: the range begins the next, which may have to be added. */
    method PushNext(value: Range)
      requires Valid() && ComesNext(Ranges(), value)
      requires var rs := data[outer].data; rs != [] && value.first != rs[|rs| - 1].second && |rs| == maxSize
      modifies this
      ensures Valid() && Ranges() == Appended(old(Ranges()), value)
      ensures |data| == old(|data|) + if old(outer + 1 == |data|) then 1 else 0
      ensures Counted() <==> old(Counted()) && (old(outer + 1 == |data|) ==> value.second == value.first + 1)
    {
      hide Flat, Sizes, Apart, Filled, Appended;
      var width := value.second - value.first;
      ghost var was := data;
      data := data[outer := Ended(data[outer])];
      outer := outer + 1;
      var next := if outer >= |data| then Chunk([value], value.first, 0, 1)
                  else Chunk([value], value.first, data[outer].end, width);
      data := if outer >= |data| then data + [next] else data[outer := next];
      assert data == Continued(was, outer - 1, next);
      NextKeeps(was, outer - 1, maxSize, value, next);
      NextCounts(was, data, outer, value);
    }

    /** `finalize` gives well-formed chunks exactly if all were counted right. */
    method Finalize() returns (chunks: seq<Chunk>)
      requires Valid()
      modifies this
      ensures Flat(chunks) == old(Ranges()) && (WellFormed(chunks) <==> old(Counted()))
    {
      hide Flat, Sizes, Apart;
      LastOfPrefix(data, outer);
      ghost var was := data;
      data := data[..outer + 1];
      if data[outer].data == [] {
        FlatOfNone([]);
        data := [];
        assert was[..0] == [];
        SizesOfNone();
      } else {
        data := data[outer := data[outer].(end := data[outer].data[|data[outer].data| - 1].second)];
        SameData(was, data, outer + 1);
        assert data[..outer + 1] == data;
      }
      chunks := data;
    }
  }

  lemma RoomLeft(outer: nat, here: nat, chunks: nat, maxSize: nat)
    requires outer < chunks && here <= maxSize && maxSize > 0
    ensures Room(outer, maxSize) + here == Room(chunks, maxSize) <==> here == maxSize && outer + 1 == chunks
  {
    var more := chunks - outer - 1;
    Multiples(outer, more, maxSize);
    assert outer + 1 + more == chunks;
  }

  lemma Multiples(outer: nat, more: nat, maxSize: nat)
    ensures (outer + 1 + more) * maxSize == outer * maxSize + maxSize + more * maxSize
    ensures more > 0 ==> more * maxSize >= maxSize
    ensures more * maxSize >= 0
  {}

  lemma SizesOfNone()
    ensures Sizes([]) == 0
  {}

  lemma {:induction false} LastOfPrefix(chunks: seq<Chunk>, o: nat)
    requires o < |chunks|
    ensures var rs := Flat(chunks[..o + 1]);
      && rs == Flat(chunks[..o]) + chunks[o].data
      && (chunks[o].data != [] ==> rs[|rs| - 1] == chunks[o].data[|chunks[o].data| - 1])
      && (Apart(rs) ==> Filled(chunks[o].data))
      && (o == 0 ==> rs == chunks[o].data)
  {
    FlatAt(chunks, o);
    var rs, n := Flat(chunks[..o + 1]), |Flat(chunks[..o])|;
    assert rs[n..] == chunks[o].data;
    if Apart(rs) { SliceFilled(rs, n, |rs|); }
  }

  /** Chunks with the same ranges have the same ranges together. */
  lemma {:induction false} SameData(a: seq<Chunk>, b: seq<Chunk>, n: nat)
    requires n <= |a| && n <= |b| && forall i :: 0 <= i < n ==> a[i].data == b[i].data
    ensures Flat(a[..n]) == Flat(b[..n])
    decreases n
  {
    hide Flat;
    if n == 0 {
      assert a[..0] == b[..0];
    } else {
      SameData(a, b, n - 1);
      FlatAt(a, n - 1);
      FlatAt(b, n - 1);
    }
  }

  lemma AppendedAfter(a: seq<Range>, b: seq<Range>, value: Range)
    requires b != []
    ensures Appended(a + b, value) == a + Appended(b, value)
  {}

  /** A range of three indices that begins a chunk beyond those reserved is counted as one. */
  method WideRangeIsMiscounted() returns (chunks: seq<Chunk>)
    ensures Flat(chunks) == [Range(0, 1), Range(2, 3), Range(4, 5), Range(6, 7), Range(10, 13)]
    ensures !WellFormed(chunks)
  {
    hide Flat, Sizes, Apart, WellFormed, Building;
    var builder := new ChunkedRangeVectorBuilder(1, 4);
    builder.PushBack(Range(0, 1));
    builder.PushBack(Range(2, 3));
    assert builder.Ranges() == [Range(0, 1), Range(2, 3)];
    builder.PushBack(Range(4, 5));
    builder.PushBack(Range(6, 7));
    assert builder.Ranges() == [Range(0, 1), Range(2, 3), Range(4, 5), Range(6, 7)];
    assert builder.Overflows(Range(10, 13));
    builder.PushBack(Range(10, 13));
    chunks := builder.Finalize();
  }
}
