/** Observers of the same row, kept in intrusive doubly linked chains. */
module Observation {

  /** `RLMObservationInfo`, as far as the chains go. */
  class Info {
    const row: nat
    var next: Info?
    var prev: Info?

    constructor (row: nat)
      ensures this.row == row && next == null && prev == null
    {
      this.row := row;
      next, prev := null, null;
    }
  }

  // ---- One chain ----------------------------------------------------------------------------------------

  ghost predicate Distinct(chain: seq<Info>) {
    forall j, k :: 0 <= j < k < |chain| ==> chain[j] != chain[k]
  }

  function Before(chain: seq<Info>, k: int): Info?
    requires 0 <= k < |chain|
  {
    if k == 0 then null else chain[k - 1]
  }

  function After(chain: seq<Info>, k: int): Info?
    requires 0 <= k < |chain|
  {
    if k + 1 == |chain| then null else chain[k + 1]
  }

  ghost predicate Linked(chain: seq<Info>)
    reads chain
  {
    && (forall k {:trigger chain[k].prev} :: 0 <= k < |chain| ==> chain[k].prev == Before(chain, k))
    && (forall k {:trigger chain[k].next} :: 0 <= k < |chain| ==> chain[k].next == After(chain, k))
  }

  function Backwards<T>(s: seq<T>): seq<T> {
    if s == [] then [] else [s[|s| - 1]] + Backwards(s[..|s| - 1])
  }

  /** The order in which `forEach` visits a chain from its `k`-th node: back to the head, then on to the end. */
  ghost function VisitOrder(chain: seq<Info>, k: nat): seq<Info>
    requires k <= |chain|
  {
    Backwards(chain[..k]) + chain[k..]
  }

  lemma {:induction false} BackwardsPermutes<T>(s: seq<T>)
    ensures multiset(Backwards(s)) == multiset(s)
  {
    if s != [] {
      BackwardsPermutes(s[..|s| - 1]);
      assert s == s[..|s| - 1] + [s[|s| - 1]];
    }
  }

  /** From whichever node it starts, every node of the chain is visited exactly once. */
  lemma EveryNodeOnce(chain: seq<Info>, k: nat)
    requires Distinct(chain) && k <= |chain|
    ensures multiset(VisitOrder(chain, k)) == multiset(chain)
    ensures forall n :: n in chain ==> multiset(VisitOrder(chain, k))[n] == 1
  {
    BackwardsPermutes(chain[..k]);
    assert chain == chain[..k] + chain[k..];
    forall n | n in chain ensures multiset(chain)[n] == 1 { DistinctCountsOnce(chain, n); }
  }

  lemma {:induction false} DistinctCountsOnce(chain: seq<Info>, n: Info)
    requires Distinct(chain)
    ensures multiset(chain)[n] == if n in chain then 1 else 0
  {
    if chain != [] {
      var front, last := chain[..|chain| - 1], chain[|chain| - 1];
      DistinctCountsOnce(front, n);
      assert chain == front + [last];
      assert last !in front by {
        assert forall j :: 0 <= j < |front| ==> front[j] == chain[j] != last;
      }
    }
  }

  /** So what is visited does not depend on the start. */
  lemma AnyStartVisitsTheSame(chain: seq<Info>, j: nat, k: nat)
    requires Distinct(chain) && j <= |chain| && k <= |chain|
    ensures multiset(VisitOrder(chain, j)) == multiset(VisitOrder(chain, k))
  {
    EveryNodeOnce(chain, j);
    EveryNodeOnce(chain, k);
  }

  /** `forEach`, with the visited infos in place of the calls. */
  method ForEach(self: Info, ghost chain: seq<Info>, ghost k: nat) returns (visited: seq<Info>)
    requires Linked(chain) && k < |chain| && chain[k] == self
    ensures visited == VisitOrder(chain, k)
  {
    visited := [];
    var info := self.prev;
    ghost var i := k;
    while info != null
      invariant 0 <= i <= k && info == if i == 0 then null else chain[i - 1]
      invariant visited + Backwards(chain[..i]) == Backwards(chain[..k])
      decreases i
    {
      assert info == chain[i - 1] && chain[i - 1].prev == if i - 1 == 0 then null else chain[i - 2];
      assert chain[..i][..i - 1] == chain[..i - 1];
      assert Backwards(chain[..i]) == [info] + Backwards(chain[..i - 1]);
      assert visited + ([info] + Backwards(chain[..i - 1])) == (visited + [info]) + Backwards(chain[..i - 1]);
      visited := visited + [info];
      info := info.prev;
      i := i - 1;
    }
    ghost var back := visited;
    info := self;
    i := k;
    while info != null
      invariant k <= i <= |chain| && info == if i == |chain| then null else chain[i]
      invariant visited == back + chain[k..i]
      decreases |chain| - i
    {
      assert info == chain[i] && chain[i].next == if i + 1 == |chain| then null else chain[i + 1];
      assert chain[k..i] + [chain[i]] == chain[k..i + 1];
      visited := visited + [info];
      info := info.next;
      i := i + 1;
    }
  }

  // ---- Joining and leaving a chain ------------------------------------------------------------------------

  /** The end of `setRow`: the new info goes right behind the head. */
  method InsertBehindHead(head: Info, info: Info, ghost chain: seq<Info>)
    requires Linked(chain) && Distinct(chain) && chain != [] && head == chain[0]
    requires info !in chain
    modifies info, chain
    ensures Linked([head, info] + chain[1..]) && Distinct([head, info] + chain[1..])
  {
    assert chain[0].next == if |chain| == 1 then null else chain[1];
    info.prev := head;
    info.next := head.next;
    if info.next != null { info.next.prev := info; }
    head.next := info;
    ghost var longer := [head, info] + chain[1..];
    assert longer[0] == head && longer[1] == info;
    forall j | 2 <= j < |longer|
      ensures longer[j] == chain[j - 1] && longer[j] != info && longer[j] != head
      ensures longer[j].prev == longer[j - 1]
      ensures longer[j].next == if j + 1 == |longer| then null else longer[j + 1]
    {
      assert old(chain[j - 1].prev) == chain[j - 2];
      assert old(chain[j - 1].next) == if j == |chain| then null else chain[j];
    }
  }

  /** The first branch of the destructor: a node behind the head detaches itself. */
  method Detach(info: Info, ghost chain: seq<Info>, ghost k: nat)
    requires Linked(chain) && Distinct(chain) && 0 < k < |chain| && info == chain[k]
    modifies chain
    ensures Linked(chain[..k] + chain[k + 1..]) && Distinct(chain[..k] + chain[k + 1..])
  {
    assert chain[k].prev == chain[k - 1] && chain[k].next == if k + 1 == |chain| then null else chain[k + 1];
    info.prev.next := info.next;
    if info.next != null { info.next.prev := info.prev; }
    ghost var shorter := chain[..k] + chain[k + 1..];
    forall j | 0 <= j < |shorter|
      ensures shorter[j] == (if j < k then chain[j] else chain[j + 1])
      ensures shorter[j].prev == if j == 0 then null else shorter[j - 1]
      ensures shorter[j].next == if j + 1 == |shorter| then null else shorter[j + 1]
    {
      var was := if j < k then j else j + 1;
      assert old(chain[was].prev) == if was == 0 then null else chain[was - 1];
      assert old(chain[was].next) == if was + 1 == |chain| then null else chain[was + 1];
    }
  }

  /** The second branch: the head leaves, and the next node takes its place. */
  method DetachHead(info: Info, ghost chain: seq<Info>)
    requires Linked(chain) && Distinct(chain) && |chain| > 1 && info == chain[0]
    modifies chain
    ensures Linked(chain[1..]) && Distinct(chain[1..]) && old(info.next) == chain[1]
  {
    assert chain[0].next == chain[1];
    info.next.prev := null;
    ghost var shorter := chain[1..];
    forall j | 0 <= j < |shorter|
      ensures shorter[j] == chain[j + 1]
      ensures shorter[j].prev == if j == 0 then null else shorter[j - 1]
      ensures shorter[j].next == if j + 1 == |shorter| then null else shorter[j + 1]
    {
      assert old(chain[j + 1].prev) == chain[j];
      assert old(chain[j + 1].next) == if j + 2 == |chain| then null else chain[j + 2];
    }
  }

  // ---- All chains of a class ----------------------------------------------------------------------------

  /** The observed objects of a class: the head of one chain for each observed row. */
  class Observed {
    var heads: seq<Info>
    ghost var chains: seq<seq<Info>>
    ghost var nodes: set<Info>

    ghost predicate Valid()
      reads this, nodes
    {
      && |heads| == |chains|
      && (forall i, n :: 0 <= i < |chains| && n in chains[i] ==> n in nodes)
      && (forall i :: 0 <= i < |chains| ==>
            && chains[i] != [] && heads[i] == chains[i][0] && OfRow(chains[i], heads[i].row)
            && Linked(chains[i]) && Distinct(chains[i]))
      && (forall i, j, n :: 0 <= i < j < |chains| && n in chains[i] ==> n !in chains[j])
      && (forall i, j :: 0 <= i < j < |heads| ==> heads[i].row != heads[j].row)
    }

    constructor ()
      ensures Valid() && chains == [] && nodes == {}
    {
      heads, chains, nodes := [], [], {};
    }

    /** An info joins the chain of its row right behind the head. */
    method JoinChain(info: Info, at: nat)
      requires Valid() && info !in nodes && at < |heads| && heads[at].row == info.row
      modifies this`chains, this`nodes, nodes, info
      ensures Valid() && nodes == old(nodes) + {info} && heads == old(heads)
      ensures chains == old(chains)[at := [heads[at], info] + old(chains)[at][1..]]
    {
      InsertBehindHead(heads[at], info, chains[at]);
      chains := chains[at := [heads[at], info] + chains[at][1..]];
      nodes := nodes + {info};
    }

    /** An info starts a chain of its own. */
    method StartChain(info: Info)
      requires Valid() && info !in nodes && info.next == null && info.prev == null
      requires forall i :: 0 <= i < |heads| ==> heads[i].row != info.row
      modifies this
      ensures Valid() && nodes == old(nodes) + {info} && chains == old(chains) + [[info]]
    {
      heads := heads + [info];
      chains := chains + [[info]];
      nodes := nodes + {info};
    }

    /** `setRow`: joins the chain of the row if there is one, or else starts a new chain. */
    method SetRow(info: Info)
      requires Valid() && info !in nodes && info.next == null && info.prev == null
      modifies this, nodes, info
      ensures Valid() && nodes == old(nodes) + {info}
      ensures (forall i :: 0 <= i < |old(heads)| ==> old(heads)[i].row != info.row) ==> chains == old(chains) + [[info]]
      ensures forall i :: 0 <= i < |old(heads)| && old(heads)[i].row == info.row ==>
                chains == old(chains)[i := [old(heads)[i], info] + old(chains)[i][1..]]
    {
      var i := 0;
      while i < |heads|
        invariant i <= |heads|
        invariant forall j :: 0 <= j < i ==> heads[j].row != info.row
      {
        if heads[i].row == info.row {
          JoinChain(info, i);
          return;
        }
        i := i + 1;
      }
      StartChain(info);
    }

    /** The destructor, for a node behind the head of its chain. */
    method LeaveChain(info: Info, ghost i: nat, ghost k: nat)
      requires Valid() && i < |chains| && 0 < k < |chains[i]| && chains[i][k] == info
      modifies this`chains, this`nodes, nodes
      ensures Valid() && nodes == old(nodes) - {info} && heads == old(heads)
      ensures chains == old(chains)[i := old(chains)[i][..k] + old(chains)[i][k + 1..]]
    {
      Detach(info, chains[i], k);
      chains := chains[i := chains[i][..k] + chains[i][k + 1..]];
      nodes := nodes - {info};
    }

    /** The destructor, for a head with a node behind it, which takes its place. */
    method ReplaceHead(info: Info, at: nat)
      requires Valid() && at < |heads| && heads[at] == info && |chains[at]| > 1
      modifies this, nodes
      ensures Valid() && nodes == old(nodes) - {info}
      ensures chains == old(chains)[at := old(chains)[at][1..]]
    {
      ghost var chain := chains[at];
      HeadHasNoPrev(chain, 0);
      assert info.next == chain[1];
      heads := heads[at := info.next];
      DetachHead(info, chain);
      chains := chains[at := chain[1..]];
      nodes := nodes - {info};
    }

    /** The destructor, for the only node of a chain: the last chain is moved into its place. */
    method DropChain(info: Info, at: nat)
      requires Valid() && at < |heads| && heads[at] == info && |chains[at]| == 1
      modifies this
      ensures Valid() && nodes == old(nodes) - {info}
      ensures chains == old(chains)[at := old(chains)[|old(chains)| - 1]][..|old(chains)| - 1]
    {
      heads := heads[at := heads[|heads| - 1]][..|heads| - 1];
      chains := chains[at := chains[|chains| - 1]][..|chains| - 1];
      nodes := nodes - {info};
    }

    /** The info is node `k` of chain `i`, or, unless `managed`, of no chain at all. */
    ghost predicate IsAt(info: Info, managed: bool, i: nat, k: nat)
      reads this, info
    {
      if managed then i < |chains| && k < |chains[i]| && chains[i][k] == info
      else info.prev == null && |heads| == |chains| && forall j :: 0 <= j < |chains| ==> info !in chains[j]
    }

    /** The destructor: an info leaves its chain, and the info of an unmanaged object leaves nothing. */
    method Destroy(info: Info, ghost managed: bool, ghost i: nat, ghost k: nat)
      requires Valid() && IsAt(info, managed, i, k)
      modifies this, nodes
      ensures Valid() && nodes == old(nodes) - {info}
      ensures !managed ==> chains == old(chains) && heads == old(heads)
      ensures managed ==>
                var was := old(chains);
                chains == if |was[i]| > 1 then was[i := was[i][..k] + was[i][k + 1..]]
                          else was[i := was[|was| - 1]][..|was| - 1]
    {
      if managed { HeadHasNoPrev(chains[i], k); }
      if info.prev != null {
        LeaveChain(info, i, k);
        return;
      }
      var at := 0;
      while at < |heads| && heads[at] != info
        invariant at <= |heads| && (managed ==> at <= i)
      {
        assert managed ==> at != i;
        at := at + 1;
      }
      if at == |heads| {
        nodes := nodes - {info};
        return;
      }
      assert managed by { assert info == heads[at] == chains[at][0]; }
      assert at == i;
      if info.next != null {
        ReplaceHead(info, at);
        assert old(chains)[i][1..] == old(chains)[i][..0] + old(chains)[i][0 + 1..];
      } else {
        DropChain(info, at);
      }
    }
  }

  lemma HeadHasNoPrev(chain: seq<Info>, k: nat)
    requires Linked(chain) && k < |chain|
    ensures chain[k].prev == null <==> k == 0
    ensures chain[k].next == null <==> k + 1 == |chain|
  {}

  /** Every info of the chain observes the row. */
  ghost predicate OfRow(chain: seq<Info>, row: nat) {
    forall k :: 0 <= k < |chain| ==> chain[k].row == row
  }
}
