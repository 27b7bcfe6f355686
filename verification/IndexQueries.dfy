/** Searching, counting and shifting over an index set. */
module IndexQueries {
  import opened Outcomes
  import opened Chunks
  import opened IndexWalk

  // ---- Reference: counting the members of a stretch ---------------------------------------------------

  function Overlap(r: Range, lo: nat, hi: nat): nat {
    var from, to := if r.first < lo then lo else r.first, if r.second < hi then r.second else hi;
    if from < to then to - from else 0
  }

  /** How many members the ranges have in `lo..<hi`. */
  function CountIn(rs: seq<Range>, lo: nat, hi: nat): nat {
    if rs == [] then 0 else CountIn(rs[..|rs| - 1], lo, hi) + Overlap(rs[|rs| - 1], lo, hi)
  }

  /** How many entries of a sequence lie in `lo..<hi`. */
  function Within(s: seq<nat>, lo: nat, hi: nat): nat {
    if s == [] then 0 else Within(s[..|s| - 1], lo, hi) + if lo <= s[|s| - 1] < hi then 1 else 0
  }

  lemma {:induction false} WithinAppends(a: seq<nat>, b: seq<nat>, lo: nat, hi: nat)
    ensures Within(a + b, lo, hi) == Within(a, lo, hi) + Within(b, lo, hi)
    decreases |b|
  {
    if b == [] {
      assert a + b == a;
    } else {
      WithinAppends(a, b[..|b| - 1], lo, hi);
      assert (a + b)[..|a + b| - 1] == a + b[..|b| - 1];
    }
  }

  lemma {:induction false} WithinSpread(r: Range, lo: nat, hi: nat)
    requires r.first <= r.second
    ensures Within(Spread(r), lo, hi) == Overlap(r, lo, hi)
    decreases r.second
  {
    if r.first < r.second {
      var shorter := Range(r.first, r.second - 1);
      WithinSpread(shorter, lo, hi);
      assert Spread(r)[..|Spread(r)| - 1] == Spread(shorter);
    }
  }

  /** Counting by overlaps is counting the indices one by one. */
  lemma {:induction false} CountsIndices(rs: seq<Range>, lo: nat, hi: nat)
    requires forall i :: 0 <= i < |rs| ==> rs[i].first < rs[i].second
    ensures CountIn(rs, lo, hi) == Within(Indices(rs), lo, hi)
  {
    if rs != [] {
      CountsIndices(rs[..|rs| - 1], lo, hi);
      WithinSpread(rs[|rs| - 1], lo, hi);
      WithinAppends(Indices(rs[..|rs| - 1]), Spread(rs[|rs| - 1]), lo, hi);
    }
  }

  lemma CountNext(rs: seq<Range>, n: nat, lo: nat, hi: nat)
    requires n < |rs|
    ensures CountIn(rs[..n + 1], lo, hi) == CountIn(rs[..n], lo, hi) + Overlap(rs[n], lo, hi)
  {
    assert rs[..n + 1][..n] == rs[..n];
  }

  /** Ranges that end before the stretch, and ranges that begin after it, count for nothing. */
  lemma {:induction false} NothingBefore(rs: seq<Range>, n: nat, lo: nat, hi: nat)
    requires n <= |rs| && forall i :: 0 <= i < n ==> rs[i].second <= lo
    ensures CountIn(rs[..n], lo, hi) == 0
    decreases n
  {
    if n > 0 {
      NothingBefore(rs, n - 1, lo, hi);
      CountNext(rs, n - 1, lo, hi);
    }
  }

  lemma {:induction false} NothingAfter(rs: seq<Range>, n: nat, m: nat, lo: nat, hi: nat)
    requires Apart(rs) && n <= m <= |rs| && (n < |rs| ==> hi <= rs[n].first)
    ensures CountIn(rs[..m], lo, hi) == CountIn(rs[..n], lo, hi)
    decreases m
  {
    if n < m {
      NothingAfter(rs, n, m - 1, lo, hi);
      CountNext(rs, m - 1, lo, hi);
    }
  }

  lemma SizesGrow(rs: seq<Range>, n: nat, m: nat)
    requires n <= m < |rs| && rs[m].first <= rs[m].second
    ensures Sizes(rs[n..m + 1]) == Sizes(rs[n..m]) + (rs[m].second - rs[m].first)
  {
    assert rs[n..m + 1][..|rs[n..m + 1]| - 1] == rs[n..m];
  }

  predicate Inside(rs: seq<Range>, n: nat, m: nat, lo: nat, hi: nat) {
    m <= |rs| && forall i :: n <= i < m ==> lo <= rs[i].first < rs[i].second <= hi
  }

  lemma InsideOne(rs: seq<Range>, m: nat, lo: nat, hi: nat)
    requires Inside(rs, m, m + 1, lo, hi)
    ensures rs[m].first < rs[m].second && Overlap(rs[m], lo, hi) == rs[m].second - rs[m].first
  {}

  /** Ranges inside the stretch count in full. */
  lemma {:induction false} AllInside(rs: seq<Range>, n: nat, m: nat, lo: nat, hi: nat)
    requires n <= m <= |rs| && Inside(rs, n, m, lo, hi)
    ensures CountIn(rs[..m], lo, hi) == CountIn(rs[..n], lo, hi) + Sizes(rs[n..m])
    decreases m
  {
    assert n == m ==> Sizes(rs[n..m]) == 0;
    if n < m {
      AllInside(rs, n, m - 1, lo, hi);
      InsideOne(rs, m - 1, lo, hi);
      hide Sizes, CountIn, Inside, Overlap;
      SizesGrow(rs, n, m - 1);
      CountNext(rs, m - 1, lo, hi);
    }
  }

  // ---- Search -------------------------------------------------------------------------------------------

  predicate EndBy(rs: seq<Range>, n: nat, index: nat) {
    forall i :: 0 <= i < n ==> i < |rs| && rs[i].second <= index
  }

  /** The first range that ends after an index: it contains the index or lies after it. */
  predicate Finds(rs: seq<Range>, rank: nat, index: nat) {
    && rank <= |rs|
    && (forall i :: 0 <= i < rank ==> rs[i].second <= index)
    && (rank < |rs| ==> index < rs[rank].second)
  }

  lemma ChunkInFlat(chunks: seq<Chunk>, o: nat, k: nat)
    requires o < |chunks| && k < |chunks[o].data|
    ensures ValidPos(chunks, Pos(o, Some(k)))
    ensures Rank(chunks, Pos(o, Some(k))) == |Flat(chunks[..o])| + k < |Flat(chunks)|
    ensures Flat(chunks)[|Flat(chunks[..o])| + k] == chunks[o].data[k]
  {
    RankFinds(chunks, Pos(o, Some(k)));
  }

  /** `IndexSet::find`: skip whole chunks by their cached end, then search within one. */
  method Find(chunks: seq<Chunk>, index: nat) returns (pos: Pos)
    requires WellFormed(chunks)
    ensures ValidPos(chunks, pos) && Finds(Flat(chunks), Rank(chunks, pos), index)
  {
    var o := 0;
    assert Flat(chunks[..0]) == [];
    while o < |chunks| && chunks[o].end <= index
      invariant o <= |chunks|
      invariant EndBy(Flat(chunks), |Flat(chunks[..o])|, index)
    {
      WholeChunkEnds(chunks, o, index);
      o := o + 1;
    }
    if o == |chunks| {
      RankFinds(chunks, End(chunks));
      return End(chunks);
    }
    ChunkInFlat(chunks, o, 0);
    if index < chunks[o].begin { return Pos(o, Some(0)); }
    var k := 0;
    while chunks[o].data[k].second <= index
      invariant k < |chunks[o].data|
      invariant EndBy(Flat(chunks), |Flat(chunks[..o])| + k, index)
      decreases |chunks[o].data| - k
    {
      ChunkInFlat(chunks, o, k);
      k := k + 1;
    }
    ChunkInFlat(chunks, o, k);
    pos := Pos(o, Some(k));
  }

  /** No range of a chunk ends after the chunk does. */
  lemma ChunkEndsLast(chunks: seq<Chunk>, o: nat)
    requires WellFormed(chunks) && o < |chunks|
    ensures forall k :: 0 <= k < |chunks[o].data| ==> chunks[o].begin <= chunks[o].data[k].first
    ensures forall k :: 0 <= k < |chunks[o].data| ==> chunks[o].data[k].second <= chunks[o].end
  {
    var rs, n, last := Flat(chunks), |Flat(chunks[..o])|, |chunks[o].data| - 1;
    ChunkInFlat(chunks, o, 0);
    ChunkInFlat(chunks, o, last);
    forall k | 0 <= k < |chunks[o].data|
      ensures chunks[o].begin <= chunks[o].data[k].first && chunks[o].data[k].second <= chunks[o].end
    {
      ChunkInFlat(chunks, o, k);
    }
  }

  lemma WholeChunkEnds(chunks: seq<Chunk>, o: nat, index: nat)
    requires WellFormed(chunks) && o < |chunks| && chunks[o].end <= index
    requires EndBy(Flat(chunks), |Flat(chunks[..o])|, index)
    ensures EndBy(Flat(chunks), |Flat(chunks[..o + 1])|, index)
  {
    ChunkEndsLast(chunks, o);
    FlatAt(chunks, o);
    var n := |Flat(chunks[..o])|;
    forall i | n <= i < n + |chunks[o].data| ensures i < |Flat(chunks)| && Flat(chunks)[i].second <= index {
      ChunkInFlat(chunks, o, i - n);
    }
  }

  /** `IndexSet::contains` */
  method Contains(chunks: seq<Chunk>, index: nat) returns (r: bool)
    requires WellFormed(chunks)
    ensures r <==> InRanges(Flat(chunks), index)
  {
    var it := Find(chunks, index);
    RankFinds(chunks, it);
    r := it != End(chunks) && chunks[it.outer].data[it.inner.value].first <= index;
    FoundIffMember(Flat(chunks), Rank(chunks, it), index);
  }

  lemma FoundIffMember(rs: seq<Range>, rank: nat, index: nat)
    requires Apart(rs) && Finds(rs, rank, index)
    ensures rank < |rs| && rs[rank].first <= index <==> InRanges(rs, index)
  {}

  // ---- Counting -----------------------------------------------------------------------------------------

  function RangeAt(chunks: seq<Chunk>, pos: Pos): Range
    requires ValidPos(chunks, pos) && pos.inner.Some?
  {
    chunks[pos.outer].data[pos.inner.value]
  }

  /** The members counted so far are those before the position; the stretch has already begun there. */
  ghost predicate Tallied(chunks: seq<Chunk>, pos: Pos, ret: nat, lo: nat, hi: nat) {
    && WellFormed(chunks) && ValidPos(chunks, pos)
    && Rank(chunks, pos) <= |Flat(chunks)|
    && ret == CountIn(Flat(chunks)[..Rank(chunks, pos)], lo, hi)
    && (pos.inner.Some? ==> lo <= RangeAt(chunks, pos).first)
  }

  /** Counting one more range and moving past it. */
  lemma CountOne(chunks: seq<Chunk>, pos: Pos, lo: nat, hi: nat)
    requires WellFormed(chunks) && ValidPos(chunks, pos) && pos.inner.Some?
    ensures var rs, n, r := Flat(chunks), Rank(chunks, pos), RangeAt(chunks, pos);
      && n < |rs| && r == rs[n] && r.first < r.second
      && CountIn(rs[..n + 1], lo, hi) == CountIn(rs[..n], lo, hi) + Overlap(r, lo, hi)
      && (hi <= r.second ==> CountIn(rs, lo, hi) == CountIn(rs[..n + 1], lo, hi))
      && (hi <= r.first ==> CountIn(rs, lo, hi) == CountIn(rs[..n], lo, hi))
  {
    var rs, n := Flat(chunks), Rank(chunks, pos);
    RankFinds(chunks, pos);
    CountNext(rs, n, lo, hi);
    assert rs[..|rs|] == rs;
    if hi <= rs[n].second { NothingAfter(rs, n + 1, |rs|, lo, hi); }
    if hi <= rs[n].first { NothingAfter(rs, n, |rs|, lo, hi); }
  }

  /** Ranges come in order along the positions. */
  lemma LaterRange(chunks: seq<Chunk>, a: Pos, b: Pos)
    requires WellFormed(chunks) && ValidPos(chunks, a) && ValidPos(chunks, b) && a.inner.Some? && b.inner.Some?
    requires Rank(chunks, a) < Rank(chunks, b)
    ensures RangeAt(chunks, a).second < RangeAt(chunks, b).first
  {
    RankFinds(chunks, a);
    RankFinds(chunks, b);
  }

  /** A range that ends inside the stretch counts in full. */
  lemma TallyOne(chunks: seq<Chunk>, at: Pos, next: Pos, ret: nat, lo: nat, hi: nat)
    requires Tallied(chunks, at, ret, lo, hi) && at.inner.Some? && RangeAt(chunks, at).second <= hi
    requires ValidPos(chunks, next) && Rank(chunks, next) == Rank(chunks, at) + 1
    ensures RangeAt(chunks, at).first < RangeAt(chunks, at).second
    ensures Tallied(chunks, next, ret + (RangeAt(chunks, at).second - RangeAt(chunks, at).first), lo, hi)
  {
    CountOne(chunks, at, lo, hi);
    if next.inner.Some? { LaterRange(chunks, at, next); }
  }

  /** A range that reaches the end of the stretch, or begins after it, is the last to look at. */
  lemma TallyLast(chunks: seq<Chunk>, at: Pos, ret: nat, lo: nat, hi: nat)
    requires Tallied(chunks, at, ret, lo, hi) && (at.inner.Some? ==> hi <= RangeAt(chunks, at).second)
    ensures CountIn(Flat(chunks), lo, hi) ==
            ret + if at.inner.Some? && RangeAt(chunks, at).first < hi then hi - RangeAt(chunks, at).first else 0
  {
    if at.inner.Some? {
      CountOne(chunks, at, lo, hi);
    } else {
      RankFinds(chunks, at);
      assert Flat(chunks)[..|Flat(chunks)|] == Flat(chunks);
    }
  }

  /** The last part of `count`: complete ranges of the last chunk, then a partial one. */
  method CountRanges(it: RangeIterator, ret0: nat, lo: nat, hi: nat) returns (ret: nat)
    requires it.Valid() && Tallied(it.chunks, it.At(), ret0, lo, hi)
    modifies it
    ensures ret == CountIn(Flat(it.chunks), lo, hi)
  {
    hide Tallied, WellFormed;
    ret := ret0;
    while it.inner.Some? && RangeAt(it.chunks, it.At()).second <= hi
      invariant it.Valid() && Tallied(it.chunks, it.At(), ret, lo, hi)
      decreases |Flat(it.chunks)| - Rank(it.chunks, it.At())
    {
      ghost var at := it.At();
      RankFinds(it.chunks, at);
      var r := it.Current();
      it.Increment();
      TallyOne(it.chunks, at, it.At(), ret, lo, hi);
      ret := ret + (r.second - r.first);
    }
    TallyLast(it.chunks, it.At(), ret, lo, hi);
    if it.inner.Some? && RangeAt(it.chunks, it.At()).first < hi {
      ret := ret + (hi - RangeAt(it.chunks, it.At()).first);
    }
  }

  /** A chunk inside the stretch counts by its cached count. */
  lemma ChunkCounts(chunks: seq<Chunk>, o: nat, lo: nat, hi: nat)
    requires WellFormed(chunks) && o < |chunks| && lo <= chunks[o].begin && chunks[o].end <= hi
    ensures var rs, n, m := Flat(chunks), |Flat(chunks[..o])|, |chunks[o].data|;
      n + m <= |rs| && CountIn(rs[..n + m], lo, hi) == CountIn(rs[..n], lo, hi) + chunks[o].count
  {
    hide *;
    var rs, n, m := Flat(chunks), |Flat(chunks[..o])|, |chunks[o].data|;
    FlatAt(chunks, o);
    Middle(Flat(chunks[..o]), chunks[o].data, Flat(chunks[o + 1..]));
    ChunkInside(chunks, o, lo, hi);
    AllInside(rs, n, n + m, lo, hi);
    CountIsCached(chunks, o);
  }

  lemma CountIsCached(chunks: seq<Chunk>, o: nat)
    requires WellFormed(chunks) && o < |chunks|
    ensures chunks[o].count == Sizes(chunks[o].data)
  {}

  lemma Middle<T>(a: seq<T>, b: seq<T>, d: seq<T>)
    ensures |a| + |b| <= |a + b + d| && (a + b + d)[|a|..|a| + |b|] == b
  {}

  lemma ChunkInside(chunks: seq<Chunk>, o: nat, lo: nat, hi: nat)
    requires WellFormed(chunks) && o < |chunks| && lo <= chunks[o].begin && chunks[o].end <= hi
    requires |Flat(chunks[..o])| + |chunks[o].data| <= |Flat(chunks)|
    ensures Inside(Flat(chunks), |Flat(chunks[..o])|, |Flat(chunks[..o])| + |chunks[o].data|, lo, hi)
  {
    var rs, n, m := Flat(chunks), |Flat(chunks[..o])|, |chunks[o].data|;
    hide Flat, Sizes, CountIn, Apart;
    ChunkEndsLast(chunks, o);
    forall i | n <= i < n + m ensures lo <= rs[i].first < rs[i].second <= hi {
      ChunkInFlat(chunks, o, i - n);
      InOrder(rs, i);
    }
  }

  lemma InOrder(rs: seq<Range>, i: nat)
    requires Apart(rs) && i < |rs|
    ensures rs[i].first < rs[i].second
  {}

  lemma TallyChunk(chunks: seq<Chunk>, at: Pos, next: Pos, ret: nat, lo: nat, hi: nat)
    requires Tallied(chunks, at, ret, lo, hi) && at.inner == Some(0) && chunks[at.outer].end <= hi
    requires ValidPos(chunks, next) && Rank(chunks, next) == Rank(chunks, at) + |chunks[at.outer].data|
    ensures Tallied(chunks, next, ret + chunks[at.outer].count, lo, hi)
  {
    assert Rank(chunks, at) == |Flat(chunks[..at.outer])|;
    RankFinds(chunks, next);
    RankFinds(chunks, at);
    hide Rank, Flat, CountIn, Sizes, Apart;
    InOrder(Flat(chunks), Rank(chunks, at));
    ChunkCounts(chunks, at.outer, lo, hi);
    if next.inner.Some? { LaterRange(chunks, at, next); }
  }

  /** The middle part: complete chunks by their cached counts. */
  method CountChunks(it: RangeIterator, ret0: nat, lo: nat, hi: nat) returns (ret: nat)
    requires it.Valid() && Tallied(it.chunks, it.At(), ret0, lo, hi) && (it.inner.Some? ==> it.inner.value == 0)
    modifies it
    ensures ret == CountIn(Flat(it.chunks), lo, hi)
  {
    hide Tallied, WellFormed, Flat, Rank;
    ret := ret0;
    while it.inner.Some? && it.chunks[it.outer].end <= hi
      invariant it.Valid() && Tallied(it.chunks, it.At(), ret, lo, hi) && (it.inner.Some? ==> it.inner.value == 0)
      decreases |it.chunks| - it.outer
    {
      ghost var at := it.At();
      var count := it.chunks[it.outer].count;
      it.NextChunk();
      TallyChunk(it.chunks, at, it.At(), ret, lo, hi);
      ret := ret + count;
    }
    ret := CountRanges(it, ret, lo, hi);
  }

  /**
   * The stretch begins inside a chunk at `pos`, runs to the end of that chunk, and ends inside the
   * first range of the next one.
   */
  predicate EndsInFirstOfNextChunk(chunks: seq<Chunk>, pos: Pos, lo: nat, hi: nat)
    requires ValidPos(chunks, pos) && NoEmptyChunk(chunks)
  {
    && pos.inner.Some?
    && RangeAt(chunks, pos).second < hi
    && (RangeAt(chunks, pos).first < lo || pos.inner.value != 0)
    && pos.outer + 1 < |chunks|
    && chunks[pos.outer + 1].data[0].first < hi <= chunks[pos.outer + 1].data[0].second
  }

  /** What `count` leaves out. */
  function Missed(chunks: seq<Chunk>, pos: Pos, lo: nat, hi: nat): nat
    requires ValidPos(chunks, pos) && NoEmptyChunk(chunks)
  {
    if EndsInFirstOfNextChunk(chunks, pos, lo, hi) then hi - chunks[pos.outer + 1].data[0].first else 0
  }

  /** The first part: the rest of the chunk in which the stretch begins; `done` when it ends there. */
  method CountRestOfChunk(it: RangeIterator, lo: nat, hi: nat) returns (ret: nat, done: bool)
    requires it.Valid() && WellFormed(it.chunks) && it.inner.Some?
    requires Finds(Flat(it.chunks), Rank(it.chunks, it.At()), lo)
    requires RangeAt(it.chunks, it.At()).second < hi
    requires RangeAt(it.chunks, it.At()).first < lo || it.inner.value != 0
    modifies it
    ensures it.Valid()
    ensures done ==> ret + Missed(it.chunks, old(it.At()), lo, hi) == CountIn(Flat(it.chunks), lo, hi)
    ensures !done ==> Tallied(it.chunks, it.At(), ret, lo, hi) && it.inner == Some(0)
    ensures !done ==> Missed(it.chunks, old(it.At()), lo, hi) == 0
  {
    ghost var at0 := it.At();
    var r := RangeAt(it.chunks, it.At());
    TallyFirst(it.chunks, at0, lo, hi);
    ret := r.second - if r.first < lo then lo else r.first;
    it.Increment();
    RestStarts(it.chunks, at0, it.At(), lo);
    hide Tallied, WellFormed, Flat, Rank, InRest, Missed, Finds;
    while it.inner.Some? && RangeAt(it.chunks, it.At()).second < hi && it.inner.value != 0
      invariant it.Valid() && Tallied(it.chunks, it.At(), ret, lo, hi) && InRest(it.chunks, at0, it.At())
      decreases |Flat(it.chunks)| - Rank(it.chunks, it.At())
    {
      ghost var at := it.At();
      RankFinds(it.chunks, at);
      r := RangeAt(it.chunks, it.At());
      it.Increment();
      TallyOne(it.chunks, at, it.At(), ret, lo, hi);
      RestGoesOn(it.chunks, at0, at, it.At());
      ret := ret + (r.second - r.first);
    }
    RestEnds(it.chunks, at0, it.At(), ret, lo, hi);
    if it.inner.None? { return ret, true; }
    r := RangeAt(it.chunks, it.At());
    if r.first < hi && it.inner.value != 0 { ret := ret + (hi - r.first); }
    done := r.second >= hi;
  }

  lemma TallyFirst(chunks: seq<Chunk>, at: Pos, lo: nat, hi: nat)
    requires WellFormed(chunks) && ValidPos(chunks, at) && at.inner.Some?
    requires Finds(Flat(chunks), Rank(chunks, at), lo) && RangeAt(chunks, at).second < hi
    ensures Rank(chunks, at) < |Flat(chunks)| && lo < RangeAt(chunks, at).second
    ensures RangeAt(chunks, at).first < RangeAt(chunks, at).second
    ensures forall next | ValidPos(chunks, next) && Rank(chunks, next) == Rank(chunks, at) + 1 ::
              var r := RangeAt(chunks, at);
              Tallied(chunks, next, r.second - if r.first < lo then lo else r.first, lo, hi)
  {
    RankFinds(chunks, at);
    NothingBefore(Flat(chunks), Rank(chunks, at), lo, hi);
    CountOne(chunks, at, lo, hi);
    forall next | ValidPos(chunks, next) && Rank(chunks, next) == Rank(chunks, at) + 1
      ensures next.inner.Some? ==> lo <= RangeAt(chunks, next).first
    {
      if next.inner.Some? { LaterRange(chunks, at, next); }
    }
  }

  /** Where the loop over the rest of the chunk has stopped, what is still to be added and what is missed. */
  lemma RestEnds(chunks: seq<Chunk>, at: Pos, pos: Pos, ret: nat, lo: nat, hi: nat)
    requires Tallied(chunks, pos, ret, lo, hi) && ValidPos(chunks, at) && at.inner.Some? && InRest(chunks, at, pos)
    requires RangeAt(chunks, at).second < hi && (RangeAt(chunks, at).first < lo || at.inner.value != 0)
    requires pos.inner.None? || RangeAt(chunks, pos).second >= hi || pos.inner.value == 0
    ensures pos.inner.None? || RangeAt(chunks, pos).second >= hi ==>
              ret + Missed(chunks, at, lo, hi) +
              (if pos.inner.Some? && RangeAt(chunks, pos).first < hi && pos.inner.value != 0
               then hi - RangeAt(chunks, pos).first else 0) == CountIn(Flat(chunks), lo, hi)
    ensures pos.inner.Some? && RangeAt(chunks, pos).second < hi ==>
            pos.inner == Some(0) && Missed(chunks, at, lo, hi) == 0
  {
    hide Flat, CountIn;
    if pos.inner.None? || RangeAt(chunks, pos).second >= hi { TallyLast(chunks, pos, ret, lo, hi); }
    if pos.inner.Some? && pos.outer == at.outer && at.outer + 1 < |chunks| { BeforeNextChunk(chunks, pos); }
  }

  lemma BeforeNextChunk(chunks: seq<Chunk>, pos: Pos)
    requires WellFormed(chunks) && ValidPos(chunks, pos) && pos.inner.Some? && pos.outer + 1 < |chunks|
    ensures RangeAt(chunks, pos).second < chunks[pos.outer + 1].data[0].first
  {
    ChunkInFlat(chunks, pos.outer + 1, 0);
    FlatAt(chunks, pos.outer);
    LaterRange(chunks, pos, Pos(pos.outer + 1, Some(0)));
  }

  /** Past `at`, but in the same chunk or at the very beginning of the next. */
  predicate InRest(chunks: seq<Chunk>, at: Pos, pos: Pos)
    requires ValidPos(chunks, at) && ValidPos(chunks, pos) && at.inner.Some?
  {
    && Rank(chunks, at) < Rank(chunks, pos)
    && (pos.outer == at.outer || (pos.outer == at.outer + 1 && (pos.inner.Some? ==> pos.inner.value == 0)))
  }

  lemma Successor(chunks: seq<Chunk>, a: Pos, b: Pos)
    requires NoEmptyChunk(chunks) && ValidPos(chunks, a) && ValidPos(chunks, b) && a.inner.Some?
    requires Rank(chunks, b) == Rank(chunks, a) + 1
    ensures b == if a.inner.value + 1 < |chunks[a.outer].data| then Pos(a.outer, Some(a.inner.value + 1))
                 else if a.outer + 1 < |chunks| then Pos(a.outer + 1, Some(0)) else End(chunks)
  {
    var next := if a.inner.value + 1 < |chunks[a.outer].data| then Pos(a.outer, Some(a.inner.value + 1))
                else if a.outer + 1 < |chunks| then Pos(a.outer + 1, Some(0)) else End(chunks);
    FlatAt(chunks, a.outer);
    EqualIffSameRank(chunks, b, next);
  }

  lemma RestStarts(chunks: seq<Chunk>, at: Pos, pos: Pos, lo: nat)
    requires WellFormed(chunks) && ValidPos(chunks, at) && ValidPos(chunks, pos) && at.inner.Some?
    requires Rank(chunks, pos) == Rank(chunks, at) + 1 && lo < RangeAt(chunks, at).second
    ensures InRest(chunks, at, pos) && (pos.inner.Some? ==> lo <= RangeAt(chunks, pos).first)
  {
    Successor(chunks, at, pos);
    if pos.inner.Some? { LaterRange(chunks, at, pos); }
  }

  lemma RestGoesOn(chunks: seq<Chunk>, at: Pos, a: Pos, b: Pos)
    requires WellFormed(chunks) && ValidPos(chunks, at) && ValidPos(chunks, a) && ValidPos(chunks, b)
    requires at.inner.Some? && InRest(chunks, at, a) && a.inner.Some? && a.inner.value != 0
    requires Rank(chunks, b) == Rank(chunks, a) + 1
    ensures InRest(chunks, at, b)
  {
    Successor(chunks, a, b);
  }

  // How many values a 64-bit `size_t` has.
  const SIZE_MODULUS: nat := 0x1_0000_0000_0000_0000

  /** Subtraction of sizes, which wraps around below zero. */
  function Minus(a: nat, b: nat): (r: nat)
    ensures b <= a ==> r == a - b
    ensures a < b < a + SIZE_MODULUS ==> r == a + SIZE_MODULUS - b
  {
    if b <= a then a - b else (a - b) % SIZE_MODULUS
  }

  /** The stretch begins inside chunk `o`, not at its beginning, and ends inside the first range of the next. */
  predicate Breaks(chunks: seq<Chunk>, o: nat, lo: nat, hi: nat)
    requires NoEmptyChunk(chunks)
  {
    && o + 1 < |chunks|
    && chunks[o].begin < lo < chunks[o].end
    && chunks[o + 1].data[0].first < hi <= chunks[o + 1].data[0].second
  }

  /**
   * `IndexSet::count`. The result is the number of members of the stretch, except that a stretch
   * which begins inside one chunk and ends inside the first range of the next loses that last part.
   * A stretch that ends before it begins counts as zero unless one range reaches over both ends;
   * then the difference wraps around.
   */
  method Count(chunks: seq<Chunk>, lo: nat, hi: nat) returns (ret: nat)
    requires WellFormed(chunks)
    ensures lo <= hi && (forall o: nat :: !Breaks(chunks, o, lo, hi)) ==> ret == CountIn(Flat(chunks), lo, hi)
    ensures forall o: nat :: lo <= hi && Breaks(chunks, o, lo, hi) ==>
              ret + (hi - chunks[o + 1].data[0].first) == CountIn(Flat(chunks), lo, hi)
    ensures hi < lo ==>
              ret == if exists r :: r in Flat(chunks) && r.first < hi && lo < r.second then Minus(hi, lo) else 0
  {
    var pos := Find(chunks, lo);
    ret := CountFrom(chunks, pos, lo, hi);
    forall o: nat ensures Breaks(chunks, o, lo, hi) <==> pos.outer == o && EndsInFirstOfNextChunk(chunks, pos, lo, hi) {
      BreaksIff(chunks, pos, o, lo, hi);
    }
    assert EndsInFirstOfNextChunk(chunks, pos, lo, hi) ==> Breaks(chunks, pos.outer, lo, hi);
    if hi < lo { OneReachesOver(chunks, pos, lo, hi); }
  }

  lemma {:induction false} BreaksIff(chunks: seq<Chunk>, pos: Pos, o: nat, lo: nat, hi: nat)
    requires WellFormed(chunks) && ValidPos(chunks, pos) && Finds(Flat(chunks), Rank(chunks, pos), lo)
    ensures Breaks(chunks, o, lo, hi) <==> pos.outer == o && EndsInFirstOfNextChunk(chunks, pos, lo, hi)
  {
    hide Apart, Sizes, Flat, Rank;
    RankFinds(chunks, pos);
    if pos.inner.Some? && pos.outer == o && o + 1 < |chunks| {
      ChunkEndsLast(chunks, o);
      BeforeNextChunk(chunks, pos);
      if pos.inner.value > 0 { BeforeFound(chunks, o, pos.inner.value, lo); }
    } else if Breaks(chunks, o, lo, hi) {
      ChunkHoldsFound(chunks, pos, o, lo);
    }
  }

  /** The range before the one that was found ends before the index. */
  lemma {:induction false} BeforeFound(chunks: seq<Chunk>, o: nat, k: nat, lo: nat)
    requires WellFormed(chunks) && 0 < k && ValidPos(chunks, Pos(o, Some(k)))
    requires Finds(Flat(chunks), Rank(chunks, Pos(o, Some(k))), lo)
    ensures chunks[o].begin < lo
  {
    ChunkInFlat(chunks, o, k);
    ChunkInFlat(chunks, o, k - 1);
    InOrder(Flat(chunks), |Flat(chunks[..o])| + (k - 1));
    ChunkEndsLast(chunks, o);
  }

  /** What is found for an index between the ends of a chunk lies in that chunk. */
  lemma {:induction false} ChunkHoldsFound(chunks: seq<Chunk>, pos: Pos, o: nat, lo: nat)
    requires WellFormed(chunks) && ValidPos(chunks, pos) && Finds(Flat(chunks), Rank(chunks, pos), lo)
    requires o < |chunks| && chunks[o].begin < lo < chunks[o].end
    ensures pos.outer == o && pos.inner.Some?
  {
    var first, last := Pos(o, Some(0)), Pos(o, Some(|chunks[o].data| - 1));
    ChunkInFlat(chunks, o, 0);
    ChunkInFlat(chunks, o, |chunks[o].data| - 1);
    RankFinds(chunks, pos);
    assert Rank(chunks, pos) <= Rank(chunks, last);
    if Rank(chunks, pos) < Rank(chunks, first) { LaterRange(chunks, pos, first); }
    var k := Rank(chunks, pos) - Rank(chunks, first);
    ChunkInFlat(chunks, o, k);
    EqualIffSameRank(chunks, pos, Pos(o, Some(k)));
  }

  lemma {:induction false} OneReachesOver(chunks: seq<Chunk>, pos: Pos, lo: nat, hi: nat)
    requires WellFormed(chunks) && ValidPos(chunks, pos) && Finds(Flat(chunks), Rank(chunks, pos), lo) && hi < lo
    ensures (exists r :: r in Flat(chunks) && r.first < hi && lo < r.second) <==>
            pos.inner.Some? && RangeAt(chunks, pos).first < hi
  {
    var rs, n := Flat(chunks), Rank(chunks, pos);
    RankFinds(chunks, pos);
    hide Flat, Rank;
    if n < |rs| {
      assert rs[n] in rs && lo < rs[n].second;
      forall i | 0 <= i < |rs| && rs[i].first < hi && lo < rs[i].second ensures i == n {}
    }
  }

  method CountFrom(chunks: seq<Chunk>, pos: Pos, lo: nat, hi: nat) returns (ret: nat)
    requires WellFormed(chunks) && ValidPos(chunks, pos) && Finds(Flat(chunks), Rank(chunks, pos), lo)
    ensures lo <= hi ==> ret + Missed(chunks, pos, lo, hi) == CountIn(Flat(chunks), lo, hi)
    ensures hi < lo ==>
              ret == if pos.inner.Some? && RangeAt(chunks, pos).first < hi then Minus(hi, lo) else 0
  {
    ghost var rs := Flat(chunks);
    NothingBefore(rs, Rank(chunks, pos), lo, hi);
    RankFinds(chunks, pos);
    assert rs[..|rs|] == rs;
    if pos.inner.Some? { CountOne(chunks, pos, lo, hi); }
    if pos == End(chunks) || RangeAt(chunks, pos).first >= hi { return 0; }
    var r := RangeAt(chunks, pos);
    if r.second >= hi { return Minus(hi, if r.first < lo then lo else r.first); }

    ret := 0;
    var it := new RangeIterator(chunks, pos);
    var done := false;
    if lo > r.first || pos.inner.value != 0 {
      ret, done := CountRestOfChunk(it, lo, hi);
      if done { return; }
    }
    ret := CountChunks(it, ret, lo, hi);
  }

  lemma SizeOfOne(r: Range)
    requires r.first <= r.second
    ensures Sizes([r]) == r.second - r.first
  {
    assert [r][..0] == [] && Sizes([]) == 0;
  }

  /**
   * A stretch from inside the first chunk into the first range of the second is counted short. Chunks
   * become as small as these when a full one is split for an insertion and most ranges of its two
   * halves are erased again: chunks are never joined.
   */
  method CountFallsShort() returns (chunks: seq<Chunk>, ret: nat)
    ensures WellFormed(chunks)
    ensures CountIn(Flat(chunks), 1, 7) == 3 && ret == 1
  {
    var a, b := Range(0, 2), Range(5, 9);
    chunks := [Chunk([a], 0, 2, 2), Chunk([b], 5, 9, 4)];
    FlatOne(chunks[0]);
    FlatOne(chunks[1]);
    FlatAppends([chunks[0]], [chunks[1]]);
    assert [chunks[0]] + [chunks[1]] == chunks;
    assert Flat(chunks) == [a, b];
    SizeOfOne(a);
    SizeOfOne(b);
    assert [a, b][..1] == [a] && CountIn([a], 1, 7) == 1;
    ret := Count(chunks, 1, 7);
    assert Breaks(chunks, 0, 1, 7);
  }

  // ---- Shifting -----------------------------------------------------------------------------------------

  /** An index that is not a member, before which there are `r - index` members. */
  ghost predicate Shifted(rs: seq<Range>, index: nat, r: nat) {
    !InRanges(rs, r) && r == index + CountIn(rs, 0, r)
  }

  lemma {:induction false} CountSplits(rs: seq<Range>, lo: nat, mid: nat, hi: nat)
    requires lo <= mid <= hi && forall i :: 0 <= i < |rs| ==> rs[i].first < rs[i].second
    ensures CountIn(rs, lo, hi) == CountIn(rs, lo, mid) + CountIn(rs, mid, hi)
  {
    if rs != [] { CountSplits(rs[..|rs| - 1], lo, mid, hi); }
  }

  lemma {:induction false} CountFits(rs: seq<Range>, lo: nat, hi: nat)
    requires Apart(rs) && lo <= hi
    ensures CountIn(rs, lo, hi) <= hi - lo
    ensures rs != [] && lo <= rs[|rs| - 1].second <= hi ==> CountIn(rs, lo, hi) <= rs[|rs| - 1].second - lo
    ensures rs != [] && rs[|rs| - 1].second < lo ==> CountIn(rs, lo, hi) == 0
  {
    if rs != [] {
      var front := rs[..|rs| - 1];
      CountFits(front, lo, hi);
      if rs[|rs| - 1].first < hi && lo <= rs[|rs| - 1].first {
        CountFits(front, lo, rs[|rs| - 1].first);
        NothingBeyond(front, lo, rs[|rs| - 1].first, hi);
      } else if rs[|rs| - 1].first < lo {
        NothingBeyond(front, lo, lo, hi);
        CountSplits(front, lo, lo, hi);
      }
    }
  }

  /** Past the end of the last range nothing is counted. */
  lemma {:induction false} NothingBeyond(rs: seq<Range>, lo: nat, mid: nat, hi: nat)
    requires Apart(rs) && lo <= mid <= hi && (rs != [] ==> rs[|rs| - 1].second <= mid)
    ensures CountIn(rs, lo, hi) == CountIn(rs, lo, mid)
  {
    if rs != [] {
      var front := rs[..|rs| - 1];
      NothingBeyond(front, lo, mid, hi);
    }
  }

  lemma {:induction false} NonMemberCountsNothing(rs: seq<Range>, x: nat)
    requires forall i :: 0 <= i < |rs| ==> rs[i].first < rs[i].second
    requires !InRanges(rs, x)
    ensures CountIn(rs, x, x + 1) == 0
  {
    if rs != [] {
      InLast(rs, x);
      NonMemberCountsNothing(rs[..|rs| - 1], x);
    }
  }

  /** Taking out the members before it keeps non-members apart and in order. */
  lemma UnshiftingIsStrict(rs: seq<Range>, x: nat, y: nat)
    requires Apart(rs) && !InRanges(rs, x) && x < y
    ensures x - CountIn(rs, 0, x) < y - CountIn(rs, 0, y)
  {
    CountSplits(rs, 0, x, y);
    CountSplits(rs, x, x + 1, y);
    NonMemberCountsNothing(rs, x);
    CountFits(rs, x + 1, y);
  }

  lemma ShiftedOnce(rs: seq<Range>, index: nat, r: nat, r': nat)
    requires Apart(rs) && Shifted(rs, index, r) && Shifted(rs, index, r')
    ensures r == r'
  {
    if r < r' { UnshiftingIsStrict(rs, r, r'); }
    if r' < r { UnshiftingIsStrict(rs, r', r); }
  }

  /** `IndexSet::shift`: where an index ends up when each member is inserted. */
  method Shift(chunks: seq<Chunk>, index: nat) returns (r: nat)
    requires WellFormed(chunks)
    ensures Shifted(Flat(chunks), index, r)
  {
    var it := new RangeIterator(chunks, Begin(chunks));
    ShiftBegins(chunks, it.At(), index);
    r := index;
    hide ShiftedPast, WellFormed, Flat, Rank;
    while it.inner.Some? && RangeAt(chunks, it.At()).first <= r
      invariant it.Valid() && it.chunks == chunks && ShiftedPast(chunks, it.At(), index, r)
      decreases |Flat(chunks)| - Rank(chunks, it.At())
    {
      ghost var at := it.At();
      var range := RangeAt(chunks, it.At());
      RankFinds(chunks, at);
      it.Increment();
      ShiftPast(chunks, at, it.At(), index, r);
      r := r + (range.second - range.first);
    }
    ShiftEnds(chunks, it.At(), index, r);
  }

  /** Every range before the position has been shifted past. */
  ghost predicate ShiftedPast(chunks: seq<Chunk>, at: Pos, index: nat, r: nat) {
    && WellFormed(chunks) && ValidPos(chunks, at)
    && Rank(chunks, at) <= |Flat(chunks)| && EndBy(Flat(chunks), Rank(chunks, at), r)
    && r == index + Sizes(Flat(chunks)[..Rank(chunks, at)])
  }

  lemma ShiftBegins(chunks: seq<Chunk>, at: Pos, index: nat)
    requires WellFormed(chunks) && at == Begin(chunks)
    ensures ShiftedPast(chunks, at, index, index)
  {}

  lemma ShiftPast(chunks: seq<Chunk>, at: Pos, next: Pos, index: nat, r: nat)
    requires ShiftedPast(chunks, at, index, r) && at.inner.Some? && RangeAt(chunks, at).first <= r
    requires ValidPos(chunks, next) && Rank(chunks, next) == Rank(chunks, at) + 1
    ensures var range := RangeAt(chunks, at);
      range.first < range.second && ShiftedPast(chunks, next, index, r + (range.second - range.first))
  {
    RankFinds(chunks, at);
    var rs, n := Flat(chunks), Rank(chunks, at);
    assert rs[n].first < rs[n].second;
    hide Sizes, Flat, Rank;
    SizesGrow(rs, 0, n);
    assert rs[0..n] == rs[..n] && rs[0..n + 1] == rs[..n + 1];
  }

  lemma ShiftEnds(chunks: seq<Chunk>, at: Pos, index: nat, r: nat)
    requires ShiftedPast(chunks, at, index, r) && (at.inner.Some? ==> r < RangeAt(chunks, at).first)
    ensures Shifted(Flat(chunks), index, r)
  {
    var rs, n := Flat(chunks), Rank(chunks, at);
    RankFinds(chunks, at);
    hide Sizes, Flat, Rank;
    AllInside(rs, 0, n, 0, r);
    assert rs[..0] == [] && rs[0..n] == rs[..n] && rs[..|rs|] == rs;
    NothingAfter(rs, n, |rs|, 0, r);
    FoundIffMember(rs, n, r);
  }

  /** `IndexSet::unshift`: where a non-member ends up when each member is deleted. */
  method Unshift(chunks: seq<Chunk>, index: nat) returns (r: nat)
    requires WellFormed(chunks) && !InRanges(Flat(chunks), index)
    ensures Shifted(Flat(chunks), r, index)
  {
    var n := Count(chunks, 0, index);
    CountFits(Flat(chunks), 0, index);
    r := index - n;
  }

  /** Unshifting undoes shifting. */
  method ShiftThenUnshift(chunks: seq<Chunk>, index: nat) returns (r: nat)
    requires WellFormed(chunks)
    ensures r == index
  {
    var shifted := Shift(chunks, index);
    r := Unshift(chunks, shifted);
  }

  /** Shifting undoes unshifting. */
  method UnshiftThenShift(chunks: seq<Chunk>, index: nat) returns (r: nat)
    requires WellFormed(chunks) && !InRanges(Flat(chunks), index)
    ensures r == index
  {
    var unshifted := Unshift(chunks, index);
    r := Shift(chunks, unshifted);
    ShiftedOnce(Flat(chunks), unshifted, index, r);
  }
}
