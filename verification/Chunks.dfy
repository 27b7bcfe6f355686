/** Ranges stored in chunks, and the two-level iterator over them. */
module Chunks {
  import opened Outcomes

  /** The indices from `first` up to but not including `second`. */
  datatype Range = Range(first: nat, second: nat)

  /** A chunk caches where its first range begins, where its last ends, and how many indices it has. */
  datatype Chunk = Chunk(data: seq<Range>, begin: nat, end: nat, count: nat)

  // ---- The flat sequence of ranges ------------------------------------------------------------------

  function Flat(chunks: seq<Chunk>): seq<Range> {
    if chunks == [] then [] else chunks[0].data + Flat(chunks[1..])
  }

  function Sizes(rs: seq<Range>): nat {
    if rs == [] then 0
    else
      var last := rs[|rs| - 1];
      Sizes(rs[..|rs| - 1]) + if last.first <= last.second then last.second - last.first else 0
  }

  /** Ranges are not empty, and there is a gap between each and all that follow. */
  predicate Apart(rs: seq<Range>) {
    && (forall i :: 0 <= i < |rs| ==> rs[i].first < rs[i].second)
    && (forall i, j :: 0 <= i < j < |rs| ==> rs[i].second < rs[j].first)
  }

  /** It is enough to look at neighbours, as `verify` does. */
  lemma {:induction false} NeighboursApart(rs: seq<Range>)
    requires forall r :: r in rs ==> r.first < r.second
    requires forall i, j :: 0 <= i < |rs| && j == i + 1 < |rs| ==> rs[i].second < rs[j].first
    ensures Apart(rs)
  {
    if rs != [] {
      var front, n := rs[..|rs| - 1], |rs| - 1;
      NeighboursApart(front);
      forall i | 0 <= i < n ensures rs[i].second < rs[n].first {
        if i < n - 1 { assert front[i].second < front[n - 1].first; }
      }
    }
  }

  predicate NoEmptyChunk(chunks: seq<Chunk>) {
    forall i :: 0 <= i < |chunks| ==> chunks[i].data != []
  }

  /** What a chunk caches is right. */
  predicate Cached(chunk: Chunk) {
    && chunk.data != []
    && chunk.begin == chunk.data[0].first
    && chunk.end == chunk.data[|chunk.data| - 1].second
    && chunk.count == Sizes(chunk.data)
  }

  /** What `verify` asserts. */
  predicate WellFormed(chunks: seq<Chunk>) {
    && Apart(Flat(chunks))
    && NoEmptyChunk(chunks)
    && forall i :: 0 <= i < |chunks| ==> Cached(chunks[i])
  }

  lemma FlatCons(x: Chunk, r: seq<Chunk>)
    ensures Flat([x] + r) == x.data + Flat(r)
  {}

  lemma Associative<T>(a: seq<T>, b: seq<T>, c: seq<T>)
    ensures (a + b) + c == a + (b + c)
  {}

  lemma {:induction false} FlatAppends(a: seq<Chunk>, b: seq<Chunk>)
    ensures Flat(a + b) == Flat(a) + Flat(b)
    decreases a, 1
  {
    if a == [] {
      assert a + b == b;
      assert Flat(a) == [];
    } else {
      FlatAppendsStep(a, b);
    }
  }

  lemma {:induction false} FlatAppendsStep(a: seq<Chunk>, b: seq<Chunk>)
    requires a != []
    ensures Flat(a + b) == Flat(a) + Flat(b)
    decreases a, 0
  {
    hide Flat;
    var x, r := a[0], a[1..];
    FlatAppends(r, b);
    assert a == [x] + r;
    Associative([x], r, b);
    FlatCons(x, r);
    FlatCons(x, r + b);
    Associative(x.data, Flat(r), Flat(b));
  }

  // ---- Positions --------------------------------------------------------------------------------------

  /** A chunk and an offset into it; past the end there is no offset. */
  datatype Pos = Pos(outer: nat, inner: Option<nat>)

  predicate ValidPos(chunks: seq<Chunk>, pos: Pos) {
    match pos.inner
    case None => pos.outer == |chunks|
    case Some(k) => pos.outer < |chunks| && k < |chunks[pos.outer].data|
  }

  function Begin(chunks: seq<Chunk>): Pos {
    if chunks == [] then End(chunks) else Pos(0, Some(0))
  }

  function End(chunks: seq<Chunk>): Pos {
    Pos(|chunks|, None)
  }

  /** How many ranges come before a position. */
  function Rank(chunks: seq<Chunk>, pos: Pos): nat
    requires ValidPos(chunks, pos)
  {
    |Flat(chunks[..pos.outer])| + if pos.inner.Some? then pos.inner.value else 0
  }

  lemma FlatAt(chunks: seq<Chunk>, i: nat)
    requires i < |chunks|
    ensures Flat(chunks) == Flat(chunks[..i]) + chunks[i].data + Flat(chunks[i + 1..])
    ensures Flat(chunks[..i + 1]) == Flat(chunks[..i]) + chunks[i].data
  {
    var front, x, back := chunks[..i], chunks[i], chunks[i + 1..];
    FlatOne(x);
    hide Flat;
    SplitAt(chunks, i);
    FlatThrough(front, x, back);
    FlatAppends(front, [x]);
  }

  lemma FlatThrough(front: seq<Chunk>, x: Chunk, back: seq<Chunk>)
    ensures Flat(front + ([x] + back)) == Flat(front) + x.data + Flat(back)
  {
    hide Flat;
    FlatAppends(front, [x] + back);
    FlatCons(x, back);
    Associative(Flat(front), x.data, Flat(back));
  }

  lemma SplitAt<T>(s: seq<T>, i: nat)
    requires i < |s|
    ensures s == s[..i] + ([s[i]] + s[i + 1..]) && s[..i + 1] == s[..i] + [s[i]]
  {}

  lemma FlatOne(x: Chunk)
    ensures Flat([x]) == x.data
  {}

  /** The range at a position is the one its rank counts to, and only the end ranks past them all. */
  lemma RankFinds(chunks: seq<Chunk>, pos: Pos)
    requires ValidPos(chunks, pos)
    ensures pos.inner.Some? ==>
              Rank(chunks, pos) < |Flat(chunks)|
                  && Flat(chunks)[Rank(chunks, pos)] == chunks[pos.outer].data[pos.inner.value]
    ensures pos.inner.None? ==> Rank(chunks, pos) == |Flat(chunks)|
  {
    if pos.inner.Some? {
      FlatAt(chunks, pos.outer);
    } else {
      assert chunks[..|chunks|] == chunks;
    }
  }

  lemma {:induction false} FlatGrows(chunks: seq<Chunk>, i: nat, j: nat)
    requires NoEmptyChunk(chunks) && i < j <= |chunks|
    ensures |Flat(chunks[..i])| + |chunks[i].data| <= |Flat(chunks[..j])|
    ensures |Flat(chunks[..i])| < |Flat(chunks[..j])|
    decreases j
  {
    FlatAt(chunks, j - 1);
    if i < j - 1 { FlatGrows(chunks, i, j - 1); }
  }

  /** Two positions are equal exactly when as many ranges come before one as before the other. */
  lemma EqualIffSameRank(chunks: seq<Chunk>, a: Pos, b: Pos)
    requires NoEmptyChunk(chunks) && ValidPos(chunks, a) && ValidPos(chunks, b)
    ensures a == b <==> Rank(chunks, a) == Rank(chunks, b)
  {
    if a.outer < b.outer { FlatGrows(chunks, a.outer, b.outer); }
    if b.outer < a.outer { FlatGrows(chunks, b.outer, a.outer); }
  }

  // ---- The iterator -------------------------------------------------------------------------------------

  /** `ChunkedRangeVectorIterator` */
  class RangeIterator {
    const chunks: seq<Chunk>
    var outer: nat
    var inner: Option<nat>    // an offset into the data of the outer chunk, or null

    function At(): Pos
      reads this
    {
      Pos(outer, inner)
    }

    predicate Valid()
      reads this
    {
      NoEmptyChunk(chunks) && ValidPos(chunks, At())
    }

    constructor (chunks: seq<Chunk>, at: Pos)
      requires NoEmptyChunk(chunks) && ValidPos(chunks, at)
      ensures this.chunks == chunks && At() == at && Valid()
    {
      this.chunks := chunks;
      outer := at.outer;
      inner := at.inner;
    }

    /** `operator*` */
    function Current(): (r: Range)
      requires Valid() && inner.Some?
      reads this
      ensures Rank(chunks, At()) < |Flat(chunks)| && r == Flat(chunks)[Rank(chunks, At())]
    {
      RankFinds(chunks, At());
      chunks[outer].data[inner.value]
    }

    /** `next_chunk` */
    method NextChunk()
      requires Valid() && inner.Some?
      modifies this
      ensures Valid() && (inner.Some? ==> inner.value == 0)
      ensures outer == old(outer) + 1
      ensures Rank(chunks, At()) == old(Rank(chunks, At())) + |chunks[old(outer)].data| - old(inner.value)
    {
      FlatAt(chunks, outer);
      outer := outer + 1;
      inner := if outer != |chunks| then Some(0) else None;
    }

    /** `operator++` moves on by one range, into the next chunk if need be. */
    method Increment()
      requires Valid() && inner.Some?
      modifies this
      ensures Valid() && Rank(chunks, At()) == old(Rank(chunks, At())) + 1
    {
      if inner.value + 1 == |chunks[outer].data| {
        NextChunk();
      } else {
        inner := Some(inner.value + 1);
      }
    }

    /** `operator--` moves back by one range, also from the end and across chunks. */
    method Decrement()
      requires Valid() && At() != Begin(chunks)
      modifies this
      ensures Valid() && inner.Some? && Rank(chunks, At()) == old(Rank(chunks, At())) - 1
    {
      if inner.None? || inner.value == 0 {
        assert outer > 0;
        outer := outer - 1;
        inner := Some(|chunks[outer].data| - 1);
        FlatAt(chunks, outer);
      } else {
        inner := Some(inner.value - 1);
      }
    }

    /** `--` undoes `++` at every position but the end. */
    method IncrementThenDecrement()
      requires Valid() && inner.Some?
      modifies this
      ensures Valid() && At() == old(At())
    {
      ghost var at := At();
      Increment();
      assert At() != Begin(chunks) by { BeginIsFirst(chunks, At()); }
      Decrement();
      EqualIffSameRank(chunks, at, At());
    }

    /** `++` undoes `--` at every position but the beginning, the end included. */
    method DecrementThenIncrement()
      requires Valid() && At() != Begin(chunks)
      modifies this
      ensures Valid() && At() == old(At())
    {
      ghost var at := At();
      Decrement();
      Increment();
      EqualIffSameRank(chunks, at, At());
    }
  }

  /** The beginning is the position nothing comes before. */
  lemma BeginIsFirst(chunks: seq<Chunk>, pos: Pos)
    requires NoEmptyChunk(chunks) && ValidPos(chunks, pos)
    ensures ValidPos(chunks, Begin(chunks)) && Rank(chunks, Begin(chunks)) == 0
    ensures pos == Begin(chunks) <==> Rank(chunks, pos) == 0
  {}

  /** Walking from the beginning to the end visits the ranges of all chunks in order. */
  method Walk(chunks: seq<Chunk>) returns (visited: seq<Range>)
    requires NoEmptyChunk(chunks)
    ensures visited == Flat(chunks)
  {
    var it := new RangeIterator(chunks, Begin(chunks));
    BeginIsFirst(chunks, it.At());
    visited := [];
    while it.At() != End(chunks)
      invariant it.Valid() && it.chunks == chunks
      invariant Rank(chunks, it.At()) <= |Flat(chunks)| && visited == Flat(chunks)[..Rank(chunks, it.At())]
      decreases |Flat(chunks)| - Rank(chunks, it.At())
    {
      visited := visited + [it.Current()];
      it.Increment();
      RankFinds(chunks, it.At());
    }
    RankFinds(chunks, it.At());
  }
}
