/** Iterating over the single indices of an index set. */
module IndexWalk {
  import opened Chunks

  // ---- The indices of a sequence of ranges ------------------------------------------------------------

  function Spread(r: Range): seq<nat> {
    if r.first <= r.second then seq(r.second - r.first, i requires 0 <= i < r.second - r.first => r.first + i) else []
  }

  function Indices(rs: seq<Range>): seq<nat> {
    if rs == [] then [] else Indices(rs[..|rs| - 1]) + Spread(rs[|rs| - 1])
  }

  predicate InRanges(rs: seq<Range>, x: int) {
    exists i :: 0 <= i < |rs| && rs[i].first <= x < rs[i].second
  }

  lemma InSpread(r: Range, x: int)
    requires r.first <= r.second
    ensures r.first <= x < r.second <==> x in Spread(r)
  {
    if r.first <= x < r.second { assert Spread(r)[x - r.first] == x; }
  }

  lemma InLast(rs: seq<Range>, x: int)
    requires rs != []
    ensures InRanges(rs, x) <==> InRanges(rs[..|rs| - 1], x) || rs[|rs| - 1].first <= x < rs[|rs| - 1].second
  {}

  /** The indices of ranges are exactly their members. */
  lemma {:induction false} IndicesAreMembers(rs: seq<Range>, x: int)
    requires forall i :: 0 <= i < |rs| ==> rs[i].first < rs[i].second
    ensures x in Indices(rs) <==> InRanges(rs, x)
  {
    if rs != [] {
      IndicesAreMembers(rs[..|rs| - 1], x);
      InSpread(rs[|rs| - 1], x);
      InLast(rs, x);
    }
  }

  /** The indices of ranges that lie apart are strictly ascending, so each occurs once. */
  lemma {:induction false} IndicesAscend(rs: seq<Range>)
    requires Apart(rs)
    ensures forall i, j :: 0 <= i < j < |Indices(rs)| ==> Indices(rs)[i] < Indices(rs)[j]
    ensures rs != [] ==> forall i :: 0 <= i < |Indices(rs)| ==> Indices(rs)[i] < rs[|rs| - 1].second
  {
    if rs != [] {
      var front, last := rs[..|rs| - 1], rs[|rs| - 1];
      IndicesAscend(front);
      if front != [] { assert front[|front| - 1].second < last.first; }
    }
  }

  /** How many indices the first `n` ranges have. */
  function CountBefore(rs: seq<Range>, n: nat): nat {
    if n <= |rs| then |Indices(rs[..n])| else 0
  }

  lemma IndicesNext(rs: seq<Range>, n: nat)
    requires n < |rs|
    ensures Indices(rs[..n + 1]) == Indices(rs[..n]) + Spread(rs[n])
  {
    assert rs[..n + 1][..n] == rs[..n];
  }

  lemma {:induction false} IndicesGrow(rs: seq<Range>, i: nat, j: nat)
    requires i <= j <= |rs|
    ensures Indices(rs[..i]) <= Indices(rs[..j])
    decreases j
  {
    hide Indices, Spread;
    if i < j {
      IndicesGrow(rs, i, j - 1);
      IndicesNext(rs, j - 1);
    }
  }

  lemma PrefixKeeps(s: seq<nat>, t: seq<nat>, k: nat)
    requires s <= t && k < |s|
    ensures k < |t| && t[k] == s[k]
  {}

  lemma SpreadAt(r: Range, offset: nat)
    requires offset < r.second - r.first
    ensures |Spread(r)| == r.second - r.first && Spread(r)[offset] == r.first + offset
  {}

  lemma Joined(a: seq<nat>, b: seq<nat>, k: nat)
    requires k < |b|
    ensures (a + b)[|a| + k] == b[k]
  {}

  /** Where an index inside a range stands among all indices. */
  lemma IndexAt(rs: seq<Range>, n: nat, offset: nat)
    requires n < |rs|
    requires offset < rs[n].second - rs[n].first
    ensures CountBefore(rs, n) + offset < |Indices(rs)|
    ensures Indices(rs)[CountBefore(rs, n) + offset] == rs[n].first + offset
    ensures CountBefore(rs, n + 1) == CountBefore(rs, n) + (rs[n].second - rs[n].first)
  {
    var before, here := Indices(rs[..n]), Indices(rs[..n + 1]);
    hide Indices, Spread;
    IndicesNext(rs, n);
    SpreadAt(rs[n], offset);
    Joined(before, Spread(rs[n]), offset);
    IndicesGrow(rs, n + 1, |rs|);
    assert rs[..|rs|] == rs;
    PrefixKeeps(here, Indices(rs), CountBefore(rs, n) + offset);
  }

  // ---- The iterator -------------------------------------------------------------------------------------

  /** A range position with an offset into its range, which is zero at the end. */
  predicate ValidIndex(chunks: seq<Chunk>, at: Pos, offset: nat) {
    && NoEmptyChunk(chunks) && Apart(Flat(chunks)) && ValidPos(chunks, at)
    && (if at.inner.Some? then
          var r := chunks[at.outer].data[at.inner.value]; r.first < r.second && offset < r.second - r.first
        else offset == 0)
  }

  /** How many indices come before a position. */
  ghost function IndexRank(chunks: seq<Chunk>, at: Pos, offset: nat): nat
    requires ValidPos(chunks, at)
  {
    CountBefore(Flat(chunks), Rank(chunks, at)) + offset
  }

  /** The indices from a position on. */
  ghost function IndicesFrom(chunks: seq<Chunk>, at: Pos, offset: nat): seq<nat>
    requires ValidPos(chunks, at)
  {
    Drop(Indices(Flat(chunks)), IndexRank(chunks, at, offset))
  }

  function Drop(s: seq<nat>, n: nat): seq<nat> {
    if n <= |s| then s[n..] else []
  }

  lemma DropOne(s: seq<nat>, n: nat)
    requires n < |s|
    ensures Drop(s, n) == [s[n]] + Drop(s, n + 1)
  {}

  /** What is at a position, and how many indices there are up to the end of its range. */
  lemma IndexHere(chunks: seq<Chunk>, at: Pos, offset: nat)
    requires ValidIndex(chunks, at, offset) && at.inner.Some?
    ensures var all, n, r := Indices(Flat(chunks)), IndexRank(chunks, at, offset),
            chunks[at.outer].data[at.inner.value];
      && n < |all| && all[n] == r.first + offset
      && CountBefore(Flat(chunks), Rank(chunks, at) + 1) == n - offset + (r.second - r.first)
  {
    hide Flat, Rank, Indices, CountBefore;
    RankFinds(chunks, at);
    IndexAt(Flat(chunks), Rank(chunks, at), offset);
  }

  /** The next position: within the range, or from the last index of a range to the first of the next. */
  ghost predicate Follows(chunks: seq<Chunk>, at: Pos, offset: nat, at': Pos, offset': nat)
    requires ValidPos(chunks, at) && at.inner.Some? && ValidPos(chunks, at')
  {
    var r := chunks[at.outer].data[at.inner.value];
    if r.first + offset + 1 == r.second then Rank(chunks, at') == Rank(chunks, at) + 1 && offset' == 0
    else at' == at && offset' == offset + 1
  }

  lemma RankAdvances(chunks: seq<Chunk>, at: Pos, offset: nat, at': Pos, offset': nat)
    requires ValidIndex(chunks, at, offset) && at.inner.Some? && ValidPos(chunks, at')
    requires Follows(chunks, at, offset, at', offset')
    ensures IndexRank(chunks, at', offset') == IndexRank(chunks, at, offset) + 1
  {
    hide Indices, Flat, Rank, CountBefore;
    IndexHere(chunks, at, offset);
  }

  /** One step leaves all the indices still to visit but the present one. */
  lemma Advance(chunks: seq<Chunk>, at: Pos, offset: nat, at': Pos, offset': nat)
    requires ValidIndex(chunks, at, offset) && at.inner.Some? && ValidPos(chunks, at')
    requires Follows(chunks, at, offset, at', offset')
    ensures IndicesFrom(chunks, at, offset) ==
            [chunks[at.outer].data[at.inner.value].first + offset] + IndicesFrom(chunks, at', offset')
  {
    hide Indices, Flat, Rank, CountBefore, IndexRank, Drop, Follows;
    RankAdvances(chunks, at, offset, at', offset');
    IndexHere(chunks, at, offset);
    DropOne(Indices(Flat(chunks)), IndexRank(chunks, at, offset));
  }

  lemma NextRange(chunks: seq<Chunk>, at: Pos)
    requires NoEmptyChunk(chunks) && Apart(Flat(chunks)) && ValidPos(chunks, at)
    ensures ValidIndex(chunks, at, 0)
  {
    RankFinds(chunks, at);
  }

  /** `IndexSet::IndexIterator`: a range iterator and an offset into its range. */
  class IndexIterator {
    const it: RangeIterator
    var offset: nat

    ghost predicate Valid()
      reads this, it
    {
      it.Valid() && ValidIndex(it.chunks, it.At(), offset)
    }

    /** The indices the iterator has still to visit. */
    ghost function Rest(): seq<nat>
      requires Valid()
      reads this, it
    {
      IndicesFrom(it.chunks, it.At(), offset)
    }

    constructor (chunks: seq<Chunk>, at: Pos)
      requires NoEmptyChunk(chunks) && Apart(Flat(chunks)) && ValidPos(chunks, at)
      ensures Valid() && fresh(it) && it.chunks == chunks && it.At() == at && offset == 0
    {
      it := new RangeIterator(chunks, at);
      offset := 0;
      new;
      NextRange(chunks, at);
    }

    /** `operator*` */
    function Current(): nat
      requires Valid() && it.inner.Some?
      reads this, it
    {
      it.chunks[it.outer].data[it.inner.value].first + offset
    }

    /** `operator==` compares the range iterators only. */
    predicate Equals(other: IndexIterator)
      reads this, it, other, other.it
    {
      it.At() == other.it.At()
    }

    /** `operator++` moves on by one index, into the next range if need be. */
    method Increment()
      requires Valid() && it.inner.Some?
      modifies this, it
      ensures Valid() && old(Rest()) == [old(Current())] + Rest()
      ensures Follows(it.chunks, old(it.At()), old(offset), it.At(), offset)
    {
      hide IndicesFrom, Flat, Rank, Apart;
      ghost var at, before := it.At(), offset;
      var range := it.chunks[it.outer].data[it.inner.value];
      offset := offset + 1;
      if range.first + offset == range.second {
        it.Increment();
        NextRange(it.chunks, it.At());
        offset := 0;
      }
      Advance(it.chunks, at, before, it.At(), offset);
    }
  }

  /** Two iterators compare equal exactly when they are in the same range, whatever their offsets. */
  lemma EqualInSameRange(a: IndexIterator, b: IndexIterator)
    requires a.Valid() && b.Valid() && a.it.chunks == b.it.chunks
    ensures a.Equals(b) <==> Rank(a.it.chunks, a.it.At()) == Rank(b.it.chunks, b.it.At())
    ensures a.it.At() == End(a.it.chunks) ==> (a.Equals(b) <==> a.Rest() == b.Rest())
  {
    EqualIffSameRank(a.it.chunks, a.it.At(), b.it.At());
    Ends(a);
    Ends(b);
    if b.it.inner.Some? { IndexHere(b.it.chunks, b.it.At(), b.offset); }
  }

  /** Different indices of one range compare equal. */
  method DifferentIndicesCompareEqual() returns (a: IndexIterator, b: IndexIterator)
    ensures a.Valid() && b.Valid() && a.it.inner.Some? && b.it.inner.Some?
    ensures a.Equals(b) && a.Current() != b.Current()
  {
    var chunks := [Chunk([Range(0, 2)], 0, 2, 2)];
    assert Flat(chunks) == [Range(0, 2)];
    a := new IndexIterator(chunks, Begin(chunks));
    b := new IndexIterator(chunks, Begin(chunks));
    b.Increment();
  }

  /** Walking from the beginning to the end visits every index of the set once, in ascending order. */
  method WalkIndices(chunks: seq<Chunk>) returns (visited: seq<nat>)
    requires NoEmptyChunk(chunks) && Apart(Flat(chunks))
    ensures forall i, j :: 0 <= i < j < |visited| ==> visited[i] < visited[j]
    ensures forall x: int :: x in visited <==> InRanges(Flat(chunks), x)
  {
    visited := Enumerate(chunks);
    IndicesAscend(Flat(chunks));
    forall x: int ensures x in visited <==> InRanges(Flat(chunks), x) { IndicesAreMembers(Flat(chunks), x); }
  }

  lemma Ends(it: IndexIterator)
    requires it.Valid()
    ensures it.it.At() == End(it.it.chunks) ==> it.Rest() == []
    ensures it.it.At() == Begin(it.it.chunks) && it.offset == 0 ==> it.Rest() == Indices(Flat(it.it.chunks))
  {
    RankFinds(it.it.chunks, it.it.At());
    BeginIsFirst(it.it.chunks, it.it.At());
    var rs := Flat(it.it.chunks);
    assert rs[..|rs|] == rs && rs[..0] == [];
  }

  method Enumerate(chunks: seq<Chunk>) returns (visited: seq<nat>)
    requires NoEmptyChunk(chunks) && Apart(Flat(chunks))
    ensures visited == Indices(Flat(chunks))
  {
    var it := new IndexIterator(chunks, Begin(chunks));
    var end := new IndexIterator(chunks, End(chunks));
    Ends(it);
    visited := VisitUntil(it, end);
  }

  /** The loop over `as_indexes()`. */
  method VisitUntil(it: IndexIterator, end: IndexIterator) returns (visited: seq<nat>)
    requires it.Valid() && it != end && it.it != end.it && end.it.At() == End(it.it.chunks)
    modifies it, it.it
    ensures visited == old(it.Rest())
  {
    visited := [];
    ghost var all := it.Rest();
    hide ValidIndex, IndicesFrom;
    while !it.Equals(end)
      invariant it.Valid() && end.it.At() == End(it.it.chunks)
      invariant visited + it.Rest() == all
      decreases |it.Rest()|
    {
      var x := it.Current();
      it.Increment();
      Associative(visited, [x], it.Rest());
      visited := visited + [x];
    }
    Ends(it);
  }
}
