/** `Realm.write`: a write transaction around an arbitrary block. */
module Transactions {

  /** What a block may do to the realm; an edit leaves the given data behind. */
  datatype Action<D> = Edit(to: D) | BeginWrite | CommitWrite | CancelWrite | Throw

  /**
   * How a call or a block ends. Beginning inside a transaction, and cancelling or editing outside
   * one, raise an Objective-C exception that Swift cannot catch; committing outside one is an error.
   */
  datatype Ending = Finished | Threw | Crashed

  // ---- Reference: what a history of actions leaves behind ---------------------------------------------

  /** Whether a transaction is open after `n` actions of a block, which starts inside one. */
  function OpenAfter<D>(block: seq<Action<D>>, n: nat): bool
    requires n <= |block|
    decreases n
  {
    if n == 0 then true
    else
      match block[n - 1]
      case BeginWrite => true
      case CommitWrite => false
      case CancelWrite => false
      case _ => OpenAfter(block, n - 1)
  }

  function EndingOf<D>(open: bool, a: Action<D>): Ending {
    match a
    case Edit(_) => if open then Finished else Crashed
    case BeginWrite => if open then Crashed else Finished
    case CommitWrite => if open then Finished else Threw
    case CancelWrite => if open then Finished else Crashed
    case Throw => Threw
  }

  /** How many actions the block performs before it ends. */
  function Performed<D>(block: seq<Action<D>>, n: nat): (m: nat)
    requires n <= |block|
    ensures n <= m <= |block|
    ensures forall i :: n <= i < m ==> EndingOf(OpenAfter(block, i), block[i]) == Finished
    ensures m < |block| ==> EndingOf(OpenAfter(block, m), block[m]) != Finished
    decreases |block| - n
  {
    if n == |block| || EndingOf(OpenAfter(block, n), block[n]) != Finished then n else Performed(block, n + 1)
  }

  function BlockEnding<D>(block: seq<Action<D>>): Ending {
    var n := Performed(block, 0);
    if n == |block| then Finished else EndingOf(OpenAfter(block, n), block[n])
  }

  /** The data that would survive if the transaction were cancelled after `n` actions. */
  function Saved<D>(block: seq<Action<D>>, d: D, n: nat): D
    requires n <= |block|
    decreases n
  {
    if n == 0 then d
    else if block[n - 1].CommitWrite? then Visible(block, d, n - 1)
    else Saved(block, d, n - 1)
  }

  /** The data the block itself sees after `n` actions. */
  function Visible<D>(block: seq<Action<D>>, d: D, n: nat): D
    requires n <= |block|
    decreases n
  {
    if n == 0 then d
    else
      match block[n - 1]
      case Edit(to) => to
      case CancelWrite => Saved(block, d, n - 1)
      case _ => Visible(block, d, n - 1)
  }

  // ---- The realm ----------------------------------------------------------------------------------------

  class Realm<D(==)> {
    var committed: D
    var working: D
    var isInWriteTransaction: bool

    /** Outside a transaction there is nothing but the committed data. */
    predicate Valid()
      reads this
    {
      !isInWriteTransaction ==> working == committed
    }

    constructor (d: D)
      ensures Valid() && committed == d && !isInWriteTransaction
    {
      committed, working, isInWriteTransaction := d, d, false;
    }

    method BeginWrite() returns (e: Ending)
      requires Valid()
      modifies this
      ensures Valid() && committed == old(committed) && working == old(working) && isInWriteTransaction
      ensures e == if old(isInWriteTransaction) then Crashed else Finished
    {
      if isInWriteTransaction { return Crashed; }
      isInWriteTransaction := true;
      e := Finished;
    }

    method Commit() returns (e: Ending)
      requires Valid()
      modifies this
      ensures Valid() && working == old(working) && !isInWriteTransaction
      ensures committed == if old(isInWriteTransaction) then old(working) else old(committed)
      ensures e == if old(isInWriteTransaction) then Finished else Threw
    {
      if !isInWriteTransaction { return Threw; }
      committed, isInWriteTransaction := working, false;
      e := Finished;
    }

    method CancelWrite() returns (e: Ending)
      requires Valid()
      modifies this
      ensures Valid() && committed == old(committed) && working == old(committed) && !isInWriteTransaction
      ensures e == if old(isInWriteTransaction) then Finished else Crashed
    {
      if !isInWriteTransaction { return Crashed; }
      working, isInWriteTransaction := committed, false;
      e := Finished;
    }

    method Perform(a: Action<D>) returns (e: Ending)
      requires Valid()
      modifies this
      ensures Valid() && e == EndingOf(old(isInWriteTransaction), a)
      ensures e == Finished ==>
                && isInWriteTransaction == (if a.Edit? then true else a.BeginWrite?)
                && committed == (if a.CommitWrite? then old(working) else old(committed))
                && working == match a
                              case Edit(to) => to
                              case CancelWrite => old(committed)
                              case _ => old(working)
      ensures e != Finished ==>
                committed == old(committed) && working == old(working)
                    && isInWriteTransaction == old(isInWriteTransaction)
    {
      match a
      case Edit(to) =>
        if !isInWriteTransaction { return Crashed; }
        working := to;
        e := Finished;
      case BeginWrite => e := BeginWrite();
      case CommitWrite => e := Commit();
      case CancelWrite => e := CancelWrite();
      case Throw => e := Threw;
    }

    /** Runs a block that starts inside a transaction, up to its end or its first failure. */
    method RunBlock(block: seq<Action<D>>) returns (e: Ending)
      requires Valid() && isInWriteTransaction && working == committed
      modifies this
      ensures Valid() && e == BlockEnding(block)
      ensures var n := Performed(block, 0);
        && isInWriteTransaction == OpenAfter(block, n)
        && committed == Saved(block, old(committed), n)
        && working == Visible(block, old(committed), n)
    {
      var i := 0;
      while i < |block|
        invariant i <= |block| && Valid() && Performed(block, i) == Performed(block, 0)
        invariant isInWriteTransaction == OpenAfter(block, i)
        invariant committed == Saved(block, old(committed), i)
        invariant working == Visible(block, old(committed), i)
      {
        e := Perform(block[i]);
        if e != Finished { return; }
        i := i + 1;
      }
      e := Finished;
    }

    /**
     * `write`. Unless it crashes it leaves no transaction open; a block that finished inside one has
     * its data committed, and otherwise the realm holds what the block itself last committed, or
     * what it held at the start.
     */
    method Write(block: seq<Action<D>>) returns (e: Ending)
      requires Valid()
      modifies this
      ensures Valid()
      ensures old(isInWriteTransaction) ==> e == Crashed && committed == old(committed)
      ensures !old(isInWriteTransaction) ==> e == BlockEnding(block)
      ensures e != Crashed ==>
                var n := Performed(block, 0);
                && !isInWriteTransaction && working == committed
                && committed == if e == Finished && OpenAfter(block, n) then Visible(block, old(committed), n)
                                else Saved(block, old(committed), n)
    {
      e := BeginWrite();
      if e == Crashed { return; }
      e := RunBlock(block);
      if e == Crashed { return; }
      if e == Threw {
        if isInWriteTransaction { var _ := CancelWrite(); }
        return;
      }
      if isInWriteTransaction { var _ := Commit(); }
    }
  }

  // ---- How a block ends ---------------------------------------------------------------------------------

  predicate Closes<D>(a: Action<D>) {
    a.CommitWrite? || a.CancelWrite?
  }

  predicate BegunSince<D>(block: seq<Action<D>>, i: nat, n: nat)
    requires n <= |block|
  {
    exists j :: i < j < n && block[j].BeginWrite?
  }

  /** A transaction is open unless one was committed or cancelled and none has been begun since. */
  lemma {:induction false} OpenIff<D>(block: seq<Action<D>>, n: nat)
    requires n <= |block|
    ensures OpenAfter(block, n) <==> forall i: nat :: i < n && Closes(block[i]) ==> BegunSince(block, i, n)
    decreases n
  {
    if n > 0 {
      OpenIff(block, n - 1);
      assert forall i: nat :: i < n - 1 && !block[n - 1].BeginWrite? ==>
          BegunSince(block, i, n) == BegunSince(block, i, n - 1);
    }
  }

  /** What a block does next goes wrong: it throws, or commits outside a transaction. */
  predicate Throws<D>(block: seq<Action<D>>, n: nat)
    requires n < |block|
  {
    block[n].Throw? || (block[n].CommitWrite? && !OpenAfter(block, n))
  }

  /** What it does next cannot be caught: it begins inside a transaction, or cancels or edits outside one. */
  predicate Crashes<D>(block: seq<Action<D>>, n: nat)
    requires n < |block|
  {
    if OpenAfter(block, n) then block[n].BeginWrite? else block[n].CancelWrite? || block[n].Edit?
  }

  /** The first thing that goes wrong decides how a block ends. */
  lemma BlockEndsIff<D>(block: seq<Action<D>>, n: nat)
    requires n <= |block| && forall i :: 0 <= i < n ==> !Throws(block, i) && !Crashes(block, i)
    ensures n == |block| ==> BlockEnding(block) == Finished
    ensures n < |block| && Throws(block, n) ==> BlockEnding(block) == Threw && Performed(block, 0) == n
    ensures n < |block| && Crashes(block, n) ==> BlockEnding(block) == Crashed && Performed(block, 0) == n
  {
    var m := Performed(block, 0);
    forall i | 0 <= i < n ensures EndingOf(OpenAfter(block, i), block[i]) == Finished {
      assert !Throws(block, i) && !Crashes(block, i);
    }
    if n < m { assert EndingOf(OpenAfter(block, n), block[n]) == Finished; }
  }

  // ---- What is rolled back ------------------------------------------------------------------------------

  /** What survives is what was visible at the last commit. */
  lemma {:induction false} SavedAtLastCommit<D>(block: seq<Action<D>>, d: D, n: nat, last: nat)
    requires last < n <= |block| && block[last].CommitWrite?
    requires forall i :: last < i < n ==> !block[i].CommitWrite?
    ensures Saved(block, d, n) == Visible(block, d, last)
    decreases n
  {
    if last < n - 1 { SavedAtLastCommit(block, d, n - 1, last); }
  }

  lemma {:induction false} NothingCommitted<D>(block: seq<Action<D>>, d: D, n: nat)
    requires n <= |block| && forall i :: 0 <= i < n ==> !block[i].CommitWrite?
    ensures Saved(block, d, n) == d
    decreases n
  {
    if n > 0 { NothingCommitted(block, d, n - 1); }
  }

  /** The action is the last commit among the first `n`. */
  predicate IsLastCommit<D>(block: seq<Action<D>>, n: nat, last: nat) {
    last < n <= |block| && block[last].CommitWrite? && forall i :: last < i < n ==> !block[i].CommitWrite?
  }

  /**
   * A block that throws is rolled back to where it started exactly when its last commit, if it made
   * any, committed just that.
   */
  lemma ThrowRollsBack<D>(block: seq<Action<D>>, d: D, n: nat)
    requires n <= |block|
    ensures Saved(block, d, n) == d <==>
            forall last: nat :: IsLastCommit(block, n, last) ==> Visible(block, d, last) == d
  {
    if exists i: nat :: i < n && block[i].CommitWrite? {
      var last := LastCommit(block, n);
      SavedAtLastCommit(block, d, n, last);
      assert forall other: nat :: IsLastCommit(block, n, other) ==> other == last;
    } else {
      NothingCommitted(block, d, n);
    }
  }

  lemma {:induction false} LastCommit<D>(block: seq<Action<D>>, n: nat) returns (last: nat)
    requires n <= |block| && exists i: nat :: i < n && block[i].CommitWrite?
    ensures IsLastCommit(block, n, last)
    decreases n
  {
    if block[n - 1].CommitWrite? { last := n - 1; } else { last := LastCommit(block, n - 1); }
  }

  /**
   * What is visible at a commit is the last edit that no cancel followed: without edits in the
   * transaction it is what had been saved before it.
   */
  lemma {:induction false} VisibleIsLastEdit<D>(block: seq<Action<D>>, d: D, n: nat, last: nat)
    requires last < n <= |block| && block[last].Edit?
    requires forall i :: last < i < n ==> !block[i].Edit? && !block[i].CancelWrite?
    ensures Visible(block, d, n) == block[last].to
    decreases n
  {
    if last < n - 1 { VisibleIsLastEdit(block, d, n - 1, last); }
  }

  /**
   * Between the actions a block performs, with no transaction open, what is visible is what is saved.
   */
  lemma {:induction false} ClosedSeesSaved<D>(block: seq<Action<D>>, d: D, n: nat)
    requires n <= Performed(block, 0) && !OpenAfter(block, n)
    ensures Visible(block, d, n) == Saved(block, d, n)
    decreases n
  {}

  /** A block that commits and then throws is not rolled back to where it started. */
  method CommitThenThrowKeepsTheEdit() returns (r: Realm<int>, e: Ending)
    ensures e == Threw && r.committed == 1 && !r.isInWriteTransaction
  {
    r := new Realm(0);
    var block := [Edit(1), CommitWrite, Throw];
    assert OpenAfter(block, 1) && !OpenAfter(block, 2);
    assert Performed(block, 2) == 2 && Performed(block, 1) == 2 && Performed(block, 0) == 2;
    assert Visible(block, 0, 1) == 1 && Saved(block, 0, 2) == 1;
    e := r.Write(block);
  }
}
