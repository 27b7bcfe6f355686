/** Range editing of a Swift `List`, built from single-element inserts and removes. */
module ListEditing {

  /** Whether a call returned, raised an exception part way, or was stopped by a Swift trap. */
  datatype Outcome = Returned | Threw | Trapped

  /** What an edit leaves in the list, and how it ends. */
  datatype Edit<T> = Edit(elems: seq<T>, outcome: Outcome)

  // ---- What the edits mean ----------------------------------------------------------------------

  /**
   * Replacing the range `lo..<hi`. A range that runs past the end loses what there is of it before
   * the exception; an empty range out of bounds matters only when something is to be inserted.
   */
  function Replaced<T>(s: seq<T>, lo: int, hi: int, news: seq<T>): Edit<T>
    requires lo <= hi
  {
    if lo == hi && news == [] then Edit(s, Returned)
    else if lo < 0 || lo > |s| then Edit(s, Threw)
    else if hi > |s| then Edit(s[..lo], Threw)
    else Edit(s[..lo] + news + s[hi..], Returned)
  }

  class List<T> {
    var elems: seq<T>

    constructor (elems: seq<T>)
      ensures this.elems == elems
    {
      this.elems := elems;
    }

    // ---- Single elements ------------------------------------------------------------------------

    method RemoveAt(index: int) returns (o: Outcome)
      modifies this
      ensures Edit(elems, o) == if 0 <= index < old(|elems|) then Edit(old(elems[..index] + elems[index + 1..]),
              Returned)
                                else Edit(old(elems), Threw)
    {
      if index < 0 || index >= |elems| { return Threw; }
      elems := elems[..index] + elems[index + 1..];
      o := Returned;
    }

    method Insert(x: T, index: int) returns (o: Outcome)
      modifies this
      ensures Edit(elems, o) == if 0 <= index <= old(|elems|) then Edit(old(elems[..index] + [x] + elems[index..]),
              Returned)
                                else Edit(old(elems), Threw)
    {
      if index < 0 || index > |elems| { return Threw; }
      elems := elems[..index] + [x] + elems[index..];
      o := Returned;
    }

    /** `removeLastObject`, which does nothing on an empty list. */
    method RemoveLastObject()
      modifies this
      ensures elems == if old(elems) == [] then [] else old(elems[..|elems| - 1])
    {
      if |elems| > 0 { elems := elems[..|elems| - 1]; }
    }

    // ---- Ranges ---------------------------------------------------------------------------------

    method RemoveSubrange(lo: int, hi: int) returns (o: Outcome)
      requires lo <= hi
      modifies this
      ensures Edit(elems, o) == Replaced(old(elems), lo, hi, [])
    {
      var i := lo;
      while i < hi
        invariant lo <= i <= hi
        invariant i == lo ==> elems == old(elems)
        invariant lo < i ==> 0 <= lo && i <= old(|elems|) && elems == old(elems)[..lo] + old(elems)[i..]
      {
        o := RemoveAt(lo);
        if o == Threw {
          assert i == old(|elems|) && lo < i ==> elems == old(elems)[..lo];
          return;
        }
        i := i + 1;
        assert elems == old(elems)[..lo] + old(elems)[i..];
      }
      o := Returned;
    }

    /** `insert(contentsOf:at:)`, forwards with a moving index. */
    method InsertContents(news: seq<T>, at: int) returns (o: Outcome)
      modifies this
      ensures Edit(elems, o) == Replaced(old(elems), at, at, news)
    {
      var currentIndex, k := at, 0;
      while k < |news|
        invariant 0 <= k <= |news| && currentIndex == at + k
        invariant k == 0 ==> elems == old(elems)
        invariant k > 0 ==> 0 <= at <= old(|elems|) && elems == old(elems)[..at] + news[..k] + old(elems)[at..]
      {
        ghost var before := elems;
        o := Insert(news[k], currentIndex);
        if o == Threw { return; }
        assert elems == before[..at + k] + [news[k]] + before[at + k..];
        assert before[..at + k] == old(elems)[..at] + news[..k] && before[at + k..] == old(elems)[at..];
        assert news[..k + 1] == news[..k] + [news[k]];
        currentIndex, k := currentIndex + 1, k + 1;
      }
      assert news[..|news|] == news;
      o := Returned;
    }

    /** The second half of `replaceSubrange`: insertion in reverse, always at the same index. */
    method InsertReversed(news: seq<T>, at: int) returns (o: Outcome)
      modifies this
      ensures Edit(elems, o) == Replaced(old(elems), at, at, news)
    {
      var k := |news|;
      while k > 0
        invariant 0 <= k <= |news|
        invariant k == |news| ==> elems == old(elems)
        invariant k < |news| ==> 0 <= at <= old(|elems|) && elems == old(elems)[..at] + news[k..] + old(elems)[at..]
      {
        o := Insert(news[k - 1], at);
        if o == Threw { return; }
        InsertedInFront(old(elems), news, k, at);
        k := k - 1;
      }
      assert news[0..] == news;
      o := Returned;
    }

    /** `replaceSubrange`: repeated removal at the lower bound, then insertion there in reverse. */
    method ReplaceSubrange(lo: int, hi: int, news: seq<T>) returns (o: Outcome)
      requires lo <= hi
      modifies this
      ensures Edit(elems, o) == Replaced(old(elems), lo, hi, news)
    {
      o := RemoveSubrange(lo, hi);
      if o == Threw { return; }
      ghost var cut := elems;
      o := InsertReversed(news, lo);
      if lo < hi { assert cut[..lo] == old(elems)[..lo] && cut[lo..] == old(elems)[hi..]; }
    }

    /** The older overloads: `removeSubrange`, then forward insertion. */
    method ReplaceSubrangeForwards(lo: int, hi: int, news: seq<T>) returns (o: Outcome)
      requires lo <= hi
      modifies this
      ensures Edit(elems, o) == Replaced(old(elems), lo, hi, news)
    {
      o := RemoveSubrange(lo, hi);
      if o == Threw { return; }
      ghost var cut := elems;
      o := InsertContents(news, lo);
      if lo < hi { assert cut[..lo] == old(elems)[..lo] && cut[lo..] == old(elems)[hi..]; }
    }

    /** `removeFirst`; a negative number forms an invalid range. */
    method RemoveFirst(number: int) returns (o: Outcome)
      modifies this
      ensures Edit(elems, o) == if number > old(|elems|) then Edit(old(elems), Threw)
                                else if number < 0 then Edit(old(elems), Trapped)
                                else Replaced(old(elems), 0, number, [])
    {
      var count := |elems|;
      if number > count { return Threw; }
      if number < 0 { return Trapped; }
      for i := 0 to number
        invariant elems == old(elems)[i..]
      {
        var _ := RemoveAt(0);
      }
      o := Returned;
    }

    /** `removeLast` */
    method RemoveLast(number: int) returns (o: Outcome)
      modifies this
      ensures Edit(elems, o) == if number > old(|elems|) then Edit(old(elems), Threw)
                                else if number < 0 then Edit(old(elems), Trapped)
                                else Replaced(old(elems), old(|elems|) - number, old(|elems|), [])
    {
      var count := |elems|;
      if number > count { return Threw; }
      if number < 0 { return Trapped; }
      for i := 0 to number
        invariant elems == old(elems)[..count - i]
      {
        RemoveLastObject();
      }
      o := Returned;
    }
  }

  lemma InsertedInFront<T>(s: seq<T>, news: seq<T>, k: int, at: int)
    requires 0 < k <= |news| && 0 <= at <= |s|
    ensures var t := if k == |news| then s else s[..at] + news[k..] + s[at..];
      t[..at] + [news[k - 1]] + t[at..] == s[..at] + news[k - 1..] + s[at..]
  {}

  // ---- What follows ------------------------------------------------------------------------------

  /** Replacing back what was replaced restores the list. */
  lemma ReplacingBackRestores<T>(s: seq<T>, lo: int, hi: int, news: seq<T>)
    requires 0 <= lo <= hi <= |s|
    ensures var e := Replaced(s, lo, hi, news);
      e.outcome == Returned && Replaced(e.elems, lo, lo + |news|, s[lo..hi]) == Edit(s, Returned)
  {}

  /** Replacing in two steps at a seam is replacing in one. */
  lemma ReplacingInTwoSteps<T>(s: seq<T>, lo: int, mid: int, hi: int, front: seq<T>, back: seq<T>)
    requires 0 <= lo <= mid <= hi <= |s|
    ensures Replaced(Replaced(s, mid, hi, back).elems, lo, mid, front) == Replaced(s, lo, hi, front + back)
  {}

  /** Exactly when a replacement throws, and that it then adds nothing. */
  lemma ReplacementThrowsIff<T>(s: seq<T>, lo: int, hi: int, news: seq<T>)
    requires lo <= hi
    ensures var e := Replaced(s, lo, hi, news);
      && (e.outcome == Threw <==> (lo < hi || news != []) && !(0 <= lo && hi <= |s|))
      && (e.outcome == Threw ==> e.elems <= s)
      && (e.outcome == Returned ==> |e.elems| == |s| - (hi - lo) + |news|)
  {}
}
