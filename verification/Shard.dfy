/**
 One shard of the engine (`ShardInner` in hkv-engine/src/memory.rs): a hash index, a slot arena, a
 free list and a doubly linked list threaded through the slots by index.

 `Sound` is the agreement of all four; `entries` is the recency list they stand for. Every operation
 keeps the first and computes a list function of Recency.dfy on the second.
 */
module Shard {
  import opened Base
  import opened Recency

  datatype Node = Node(key: Bytes, value: Bytes, expiresAt: Option<nat>, size: nat,
                       prev: Option<nat>, next: Option<nat>)

  type Arena = seq<Option<Node>>

  predicate Occupied(nodes: Arena, i: nat) {
    i < |nodes| && nodes[i].Some?
  }

  predicate AllOccupied(nodes: Arena, order: seq<nat>) {
    forall i :: 0 <= i < |order| ==> Occupied(nodes, order[i])
  }

  function First(order: seq<nat>): Option<nat> {
    if order == [] then None else Some(order[0])
  }

  function Last(order: seq<nat>): Option<nat> {
    if order == [] then None else Some(order[|order| - 1])
  }

  function PrevOf(order: seq<nat>, i: nat): Option<nat>
    requires i < |order|
  {
    if i == 0 then None else Some(order[i - 1])
  }

  function NextOf(order: seq<nat>, i: nat): Option<nat>
    requires i < |order|
  {
    if i == |order| - 1 then None else Some(order[i + 1])
  }

  predicate LinksAt(nodes: Arena, order: seq<nat>, i: nat)
    requires i < |order|
  {
    && Occupied(nodes, order[i])
    && nodes[order[i]].value.prev == PrevOf(order, i)
    && nodes[order[i]].value.next == NextOf(order, i)
  }

  // Following `next` from `head` visits the slots of `order` in turn and ends at `tail`; `prev` is
  // the inverse.
  predicate Linked(nodes: Arena, order: seq<nat>, head: Option<nat>, tail: Option<nat>) {
    && NoRepeats(order)
    && head == First(order)
    && tail == Last(order)
    && forall i :: 0 <= i < |order| ==> LinksAt(nodes, order, i)
  }

  function EntryOf(n: Node): Entry {
    Entry(n.key, n.value, n.expiresAt)
  }

  function ListOf(nodes: Arena, order: seq<nat>): (l: Recent)
    requires AllOccupied(nodes, order)
    ensures |l| == |order|
    ensures forall i :: 0 <= i < |l| ==> l[i] == EntryOf(nodes[order[i]].value)
  {
    seq(|order|, i requires 0 <= i < |order| => EntryOf(nodes[order[i]].value))
  }

  // Only links differ.
  predicate SamePayload(a: Arena, b: Arena) {
    && |a| == |b|
    && forall i :: 0 <= i < |a| ==>
         && (a[i].Some? <==> b[i].Some?)
         && (a[i].Some? ==> EntryOf(a[i].value) == EntryOf(b[i].value) && a[i].value.size == b[i].value.size)
  }

  predicate SamePayloadExcept(a: Arena, b: Arena, idx: nat) {
    && |a| == |b|
    && forall i :: 0 <= i < |a| && i != idx ==>
         && (a[i].Some? <==> b[i].Some?)
         && (a[i].Some? ==> EntryOf(a[i].value) == EntryOf(b[i].value))
  }

  // Rewriting one link of a slot, if there is such a slot.
  function WithNext(nodes: Arena, at: Option<nat>, link: Option<nat>): (r: Arena)
    requires at.Some? ==> Occupied(nodes, at.value)
    ensures SamePayload(nodes, r)
    ensures forall i :: 0 <= i < |nodes| && nodes[i].Some? ==>
              r[i].value.prev == nodes[i].value.prev &&
                  r[i].value.next == if at == Some(i) then link else nodes[i].value.next
  {
    if at.None? then nodes else nodes[at.value := Some(nodes[at.value].value.(next := link))]
  }

  function WithPrev(nodes: Arena, at: Option<nat>, link: Option<nat>): (r: Arena)
    requires at.Some? ==> Occupied(nodes, at.value)
    ensures SamePayload(nodes, r)
    ensures forall i :: 0 <= i < |nodes| && nodes[i].Some? ==>
              r[i].value.next == nodes[i].value.next &&
                  r[i].value.prev == if at == Some(i) then link else nodes[i].value.prev
  {
    if at.None? then nodes else nodes[at.value := Some(nodes[at.value].value.(prev := link))]
  }

  // Both neighbours of a slot bypass it, and it forgets them.
  function Detached(nodes: Arena, idx: nat): (r: Arena)
    requires Occupied(nodes, idx)
    requires nodes[idx].value.prev.Some? ==> Occupied(nodes, nodes[idx].value.prev.value)
    requires nodes[idx].value.next.Some? ==> Occupied(nodes, nodes[idx].value.next.value)
    ensures SamePayload(nodes, r)
    ensures forall i :: 0 <= i < |nodes| && nodes[i].Some? && i != idx ==>
              && r[i].value.prev == (if nodes[idx].value.next ==
                  Some(i) then nodes[idx].value.prev else nodes[i].value.prev)
              && r[i].value.next == (if nodes[idx].value.prev ==
                  Some(i) then nodes[idx].value.next else nodes[i].value.next)
  {
    var prev, next := nodes[idx].value.prev, nodes[idx].value.next;
    var bypassed := WithPrev(WithNext(nodes, prev, next), next, prev);
    WithPrev(WithNext(bypassed, Some(idx), None), Some(idx), None)
  }

  // The chain runs through exactly the occupied slots.
  predicate Covers(nodes: Arena, order: seq<nat>) {
    && AllOccupied(nodes, order)
    && forall i :: 0 <= i < |nodes| && nodes[i].Some? ==> i in order
  }

  // The free list holds exactly the empty slots, once each.
  predicate FreeListed(nodes: Arena, free: seq<nat>) {
    && NoRepeats(free)
    && (forall i :: 0 <= i < |free| ==> free[i] < |nodes| && nodes[free[i]].None?)
    && (forall i :: 0 <= i < |nodes| && nodes[i].None? ==> i in free)
  }

  // Stored keys and occupied slots correspond one to one.
  predicate Indexed(index: map<Bytes, nat>, nodes: Arena) {
    && (forall k :: k in index ==> Occupied(nodes, index[k]) && nodes[index[k]].value.key == k)
    && (forall i :: 0 <= i < |nodes| && nodes[i].Some? ==>
        nodes[i].value.key in index && index[nodes[i].value.key] == i)
  }

  predicate Sized(nodes: Arena) {
    forall i :: 0 <= i < |nodes| && nodes[i].Some? ==> nodes[i].value.size == Size(EntryOf(nodes[i].value))
  }

  predicate Consistent(index: map<Bytes, nat>, nodes: Arena, free: seq<nat>, order: seq<nat>) {
    && Covers(nodes, order)
    && FreeListed(nodes, free)
    && Indexed(index, nodes)
    && Sized(nodes)
  }

  // Relinking leaves everything but the chain as it was.
  lemma PayloadKeeps(index: map<Bytes, nat>, free: seq<nat>, nodes: Arena, nodes': Arena)
    requires SamePayload(nodes, nodes')
    requires FreeListed(nodes, free) && Indexed(index, nodes) && Sized(nodes)
    ensures FreeListed(nodes', free) && Indexed(index, nodes') && Sized(nodes')
  {
    forall i | 0 <= i < |nodes'| && nodes'[i].Some?
      ensures nodes[i].Some? && EntryOf(nodes[i].value) == EntryOf(nodes'[i].value)
      ensures nodes[i].Some? && nodes[i].value.size == nodes'[i].value.size
    {
    }
  }

  lemma DropAtLacks(order: seq<nat>, p: nat)
    requires NoRepeats(order) && p < |order|
    ensures order[p] !in DropAt(order, p)
    ensures NoRepeats(DropAt(order, p))
  {
    var rest := DropAt(order, p);
    forall i | 0 <= i < |rest| ensures rest[i] == order[if i < p then i else i + 1] && rest[i] != order[p] {
      Apart(order, if i < p then i else i + 1, p);
    }
    forall i, j | 0 <= i < j < |rest| ensures Differ(rest, i, j) {
      assert Differ(order, if i < p then i else i + 1, if j < p then j else j + 1);
    }
  }

  lemma LastStays(order: seq<nat>, p: nat)
    requires NoRepeats(order) && p < |order| && Last(order) == Some(order[p])
    ensures order == DropAt(order, p) + [order[p]]
  {
    if p != |order| - 1 {
      Apart(order, p, |order| - 1);
    }
  }

  lemma SamePayloadTrans(a: Arena, b: Arena, c: Arena)
    requires SamePayload(a, b) && SamePayload(b, c)
    ensures SamePayload(a, c)
  {
  }

  // What detaching the slot at position `p` does to the others of the chain.
  predicate Unlinked(nodes: Arena, nodes': Arena, order: seq<nat>, p: nat)
    requires p < |order|
  {
    && SamePayload(nodes, nodes')
    && forall i :: 0 <= i < |order| && i != p && Occupied(nodes', order[i]) && Occupied(nodes, order[i]) ==>
         && nodes'[order[i]].value.prev == (if i == p + 1 then PrevOf(order, p) else nodes[order[i]].value.prev)
         && nodes'[order[i]].value.next == (if i == p - 1 then NextOf(order, p) else nodes[order[i]].value.next)
  }

  lemma UnlinkKeepsRest(nodes: Arena, nodes': Arena, order: seq<nat>, p: nat, head: Option<nat>, tail: Option<nat>)
    requires Linked(nodes, order, head, tail) && p < |order| && Unlinked(nodes, nodes', order, p)
    ensures Linked(nodes', DropAt(order, p),
                   if p == 0 then NextOf(order, p) else head,
                   if p == |order| - 1 then PrevOf(order, p) else tail)
  {
    var rest := DropAt(order, p);
    DropAtLacks(order, p);
    forall i | 0 <= i < |rest| ensures LinksAt(nodes', rest, i) {
      var k := if i < p then i else i + 1;
      assert rest[i] == order[k];
      assert LinksAt(nodes, order, k);
    }
  }

  lemma Neighbours(nodes: Arena, order: seq<nat>, p: nat, head: Option<nat>, tail: Option<nat>)
    requires Linked(nodes, order, head, tail) && p < |order|
    ensures LinksAt(nodes, order, p)
    ensures p > 0 ==> LinksAt(nodes, order, p - 1)
    ensures p < |order| - 1 ==> LinksAt(nodes, order, p + 1)
  {
  }

  lemma DetachUnlinks(nodes: Arena, order: seq<nat>, p: nat)
    requires NoRepeats(order) && p < |order| && LinksAt(nodes, order, p)
    requires p > 0 ==> LinksAt(nodes, order, p - 1)
    requires p < |order| - 1 ==> LinksAt(nodes, order, p + 1)
    ensures Unlinked(nodes, Detached(nodes, order[p]), order, p)
  {
    forall i | 0 <= i < |order| && i != p
      ensures order[i] != order[p]
      ensures PrevOf(order, p) == Some(order[i]) <==> i == p - 1
      ensures NextOf(order, p) == Some(order[i]) <==> i == p + 1
    {
      Apart(order, i, p);
      if p > 0 && i != p - 1 {
        Apart(order, i, p - 1);
      }
      if p < |order| - 1 && i != p + 1 {
        Apart(order, i, p + 1);
      }
    }
  }

  // Moving one position of the chain to its end, payloads untouched.
  lemma RelistedCovers(nodes: Arena, nodes': Arena, order: seq<nat>, p: nat)
    requires Covers(nodes, order) && SamePayload(nodes, nodes') && p < |order|
    ensures Covers(nodes', DropAt(order, p) + [order[p]])
  {
    var order' := DropAt(order, p) + [order[p]];
    forall k | 0 <= k < |order'| ensures Occupied(nodes', order'[k]) {
      assert order'[k] == order[if k < p then k else if k == |order| - 1 then p else k + 1];
    }
    forall k | 0 <= k < |order| ensures order[k] in order' {
      assert order[k] == order'[if k < p then k else if k == p then |order| - 1 else k - 1];
    }
  }

  lemma RelistedList(nodes: Arena, nodes': Arena, order: seq<nat>, p: nat)
    requires Covers(nodes, order) && SamePayload(nodes, nodes') && p < |order|
    requires Covers(nodes', DropAt(order, p) + [order[p]])
    ensures ListOf(nodes', DropAt(order, p) + [order[p]]) == DropAt(ListOf(nodes, order), p) + [ListOf(nodes, order)[p]]
  {
  }

  lemma Relisted(index: map<Bytes, nat>, free: seq<nat>, nodes: Arena, nodes': Arena, order: seq<nat>, p: nat)
    requires Consistent(index, nodes, free, order) && SamePayload(nodes, nodes') && p < |order|
    ensures Consistent(index, nodes', free, DropAt(order, p) + [order[p]])
    ensures ListOf(nodes', DropAt(order, p) + [order[p]]) == DropAt(ListOf(nodes, order), p) + [ListOf(nodes, order)[p]]
  {
    RelistedCovers(nodes, nodes', order, p);
    RelistedList(nodes, nodes', order, p);
    PayloadKeeps(index, free, nodes, nodes');
  }

  lemma CoversPayload(nodes: Arena, nodes': Arena, order: seq<nat>)
    requires Covers(nodes, order) && SamePayload(nodes, nodes')
    ensures Covers(nodes', order) && ListOf(nodes', order) == ListOf(nodes, order)
  {
    forall i | 0 <= i < |order| ensures Occupied(nodes', order[i]) {
      assert Occupied(nodes, order[i]);
    }
  }

  // A slot outside the chain can be written freely.
  lemma LinksFramed(nodes: Arena, order: seq<nat>, head: Option<nat>, tail: Option<nat>, idx: nat, slot: Option<Node>)
    requires Linked(nodes, order, head, tail) && idx < |nodes| && idx !in order
    ensures Linked(nodes[idx := slot], order, head, tail)
  {
    var nodes' := nodes[idx := slot];
    forall i | 0 <= i < |order| ensures LinksAt(nodes', order, i) {
      assert LinksAt(nodes, order, i);
    }
  }

  // A new empty slot, free to use.
  lemma Grown(index: map<Bytes, nat>, nodes: Arena, free: seq<nat>, order: seq<nat>)
    requires Consistent(index, nodes, free, order)
    ensures Consistent(index, nodes + [None], free + [|nodes|], order)
    ensures ListOf(nodes + [None], order) == ListOf(nodes, order)
  {
    var free' := free + [|nodes|];
    assert |nodes| !in free;
    AppendNoRepeats(free, |nodes|);
    forall i | 0 <= i < |nodes| && nodes[i].None? ensures i in free' {
      assert i in free;
    }
  }

  // Filling the last free slot with a node for a new key.
  lemma FilledFree(nodes: Arena, free: seq<nat>, idx: nat, node: Node)
    requires FreeListed(nodes, free + [idx])
    ensures idx < |nodes| && nodes[idx].None?
    ensures FreeListed(nodes[idx := Some(node)], free)
  {
    var free', nodes' := free + [idx], nodes[idx := Some(node)];
    assert free'[|free|] == idx;
    forall i | 0 <= i < |free| ensures free[i] < |nodes'| && nodes'[free[i]].None? {
      assert free'[i] == free[i];
      Apart(free', i, |free|);
    }
    SliceNoRepeats(free', 0, |free|);
    assert free'[0..|free|] == free;
    forall i | 0 <= i < |nodes'| && nodes'[i].None? ensures i in free {
      assert i in free';
    }
  }

  lemma Filled(index: map<Bytes, nat>, nodes: Arena, free: seq<nat>, order: seq<nat>, idx: nat, node: Node)
    requires Consistent(index, nodes, free + [idx], order)
    requires node.key !in index && node.size == Size(EntryOf(node))
    ensures idx < |nodes| && idx !in order
    ensures Consistent(index[node.key := idx], nodes[idx := Some(node)], free, order + [idx])
    ensures ListOf(nodes[idx := Some(node)], order + [idx]) == ListOf(nodes, order) + [EntryOf(node)]
  {
    FilledFree(nodes, free, idx, node);
    assert idx !in order;
  }

  // Emptying the slot at position `p`.
  lemma EmptiedFree(nodes: Arena, free: seq<nat>, idx: nat)
    requires FreeListed(nodes, free) && Occupied(nodes, idx)
    ensures FreeListed(nodes[idx := None], free + [idx])
  {
    var free', nodes' := free + [idx], nodes[idx := None];
    assert idx !in free;
    AppendNoRepeats(free, idx);
    forall i | 0 <= i < |nodes'| && nodes'[i].None? ensures i in free' {
      assert i == idx || i in free;
    }
  }

  lemma EmptiedCovers(nodes: Arena, order: seq<nat>, p: nat)
    requires Covers(nodes, order) && NoRepeats(order) && p < |order|
    ensures Covers(nodes[order[p] := None], DropAt(order, p))
    ensures ListOf(nodes[order[p] := None], DropAt(order, p)) == DropAt(ListOf(nodes, order), p)
  {
    var nodes', rest := nodes[order[p] := None], DropAt(order, p);
    forall k | 0 <= k < |rest| ensures rest[k] == order[if k < p then k else k + 1] && Occupied(nodes', rest[k]) {
      Apart(order, if k < p then k else k + 1, p);
      assert Occupied(nodes, order[if k < p then k else k + 1]);
    }
    forall i | 0 <= i < |nodes'| && nodes'[i].Some? ensures i in rest {
      var k :| 0 <= k < |order| && order[k] == i;
      assert rest[if k < p then k else k - 1] == i;
    }
  }

  lemma EmptiedIndexed(index: map<Bytes, nat>, nodes: Arena, idx: nat)
    requires Indexed(index, nodes) && Occupied(nodes, idx)
    ensures Indexed(index - {nodes[idx].value.key}, nodes[idx := None])
  {
  }

  lemma Emptied(index: map<Bytes, nat>, nodes: Arena, free: seq<nat>, order: seq<nat>, p: nat)
    requires Consistent(index, nodes, free, order) && NoRepeats(order) && p < |order|
    ensures Consistent(index - {nodes[order[p]].value.key}, nodes[order[p] := None], free + [order[p]],
                       DropAt(order, p))
    ensures ListOf(nodes[order[p] := None], DropAt(order, p)) == DropAt(ListOf(nodes, order), p)
  {
    EmptiedFree(nodes, free, order[p]);
    EmptiedCovers(nodes, order, p);
    EmptiedIndexed(index, nodes, order[p]);
  }

  // Detaching and emptying together.
  lemma Removed(index: map<Bytes, nat>, free: seq<nat>, nodes: Arena, nodes': Arena, order: seq<nat>, p: nat,
                head: Option<nat>, tail: Option<nat>)
    requires Consistent(index, nodes, free, order) && NoRepeats(order) && p < |order|
    requires SamePayload(nodes, nodes') && Linked(nodes', DropAt(order, p), head, tail)
    ensures Occupied(nodes, order[p])
    ensures Linked(nodes'[order[p] := None], DropAt(order, p), head, tail)
    ensures Consistent(index - {nodes[order[p]].value.key}, nodes'[order[p] := None], free + [order[p]],
                       DropAt(order, p))
    ensures ListOf(nodes'[order[p] := None], DropAt(order, p)) == DropAt(ListOf(nodes, order), p)
    ensures SamePayloadExcept(nodes, nodes'[order[p] := None], order[p])
  {
    assert Occupied(nodes, order[p]);
    CoversPayload(nodes, nodes', order);
    PayloadKeeps(index, free, nodes, nodes');
    Emptied(index, nodes', free, order, p);
    DropAtLacks(order, p);
    LinksFramed(nodes', DropAt(order, p), head, tail, order[p], None);
  }

  // Rewriting value, deadline and size of the slot at position `p`, under the same key.
  lemma Rewritten(index: map<Bytes, nat>, nodes: Arena, free: seq<nat>, order: seq<nat>, p: nat, node: Node)
    requires Consistent(index, nodes, free, order) && NoRepeats(order) && p < |order|
    requires Occupied(nodes, order[p]) && node.key == nodes[order[p]].value.key && node.size == Size(EntryOf(node))
    ensures Consistent(index, nodes[order[p] := Some(node)], free, order)
    ensures ListOf(nodes[order[p] := Some(node)], order) == ListOf(nodes, order)[p := EntryOf(node)]
  {
    var nodes' := nodes[order[p] := Some(node)];
    forall i | 0 <= i < |order| ensures Occupied(nodes', order[i]) && (i != p ==> order[i] != order[p]) {
      assert Occupied(nodes, order[i]);
      if i != p {
        Apart(order, i, p);
      }
    }
    forall i | 0 <= i < |free| ensures free[i] != order[p] {
      assert nodes[free[i]].None?;
    }
  }

  lemma RewrittenLinks(nodes: Arena, order: seq<nat>, head: Option<nat>, tail: Option<nat>, p: nat, node: Node)
    requires Linked(nodes, order, head, tail) && p < |order| && Occupied(nodes, order[p])
    requires node.prev == nodes[order[p]].value.prev && node.next == nodes[order[p]].value.next
    ensures Linked(nodes[order[p] := Some(node)], order, head, tail)
  {
    var nodes' := nodes[order[p] := Some(node)];
    forall i | 0 <= i < |order| ensures LinksAt(nodes', order, i) {
      assert LinksAt(nodes, order, i);
      if i != p {
        Apart(order, i, p);
      }
    }
  }

  lemma DoomedRest(nodes: Arena, nodes': Arena, expired: seq<nat>, now: nat)
    requires expired != [] && NoRepeats(expired)
    requires SamePayloadExcept(nodes, nodes', expired[0]) && expired[0] < |nodes| && nodes'[expired[0]].None?
    requires forall i :: 0 <= i < |expired| ==>
        Occupied(nodes, expired[i]) && Expired(EntryOf(nodes[expired[i]].value), now)
    requires forall i :: 0 <= i < |nodes| && nodes[i].Some? && Expired(EntryOf(nodes[i].value), now) ==> i in expired
    ensures NoRepeats(expired[1..])
    ensures forall i :: 0 <= i < |expired[1..]| ==>
        Occupied(nodes', expired[1..][i]) && Expired(EntryOf(nodes'[expired[1..][i]].value), now)
    ensures forall i :: 0 <= i < |nodes'| && nodes'[i].Some? && Expired(EntryOf(nodes'[i].value), now) ==>
        i in expired[1..]
  {
    var rest := expired[1..];
    SliceNoRepeats(expired, 1, |expired|);
    assert expired[1..|expired|] == rest;
    forall i | 0 <= i < |rest| ensures Occupied(nodes', rest[i]) && Expired(EntryOf(nodes'[rest[i]].value), now) {
      assert rest[i] == expired[i + 1];
      Apart(expired, 0, i + 1);
      assert Occupied(nodes, expired[i + 1]);
    }
    forall i | 0 <= i < |nodes'| && nodes'[i].Some? && Expired(EntryOf(nodes'[i].value), now) ensures i in rest {
      assert i in expired && i != expired[0];
    }
  }

  class ShardInner {
    var index: map<Bytes, nat>
    var nodes: Arena
    var free: seq<nat>
    var head: Option<nat>
    var tail: Option<nat>
    ghost var order: seq<nat>
    ghost var entries: Recent

    // The structural invariant: chain, free list, index and recency list agree.
    ghost predicate Sound()
      reads this
    {
      && Linked(nodes, order, head, tail)
      && Consistent(index, nodes, free, order)
      && entries == ListOf(nodes, order)
    }

    // What callers see of it: `Sound`, to be had wherever a proof says `Unfold`. Those who only pass
    // the invariant along are spared its quantifiers.
    ghost predicate Valid()
      reads this
    {
      |entries| == |order| && forall n :: Unfold(n) ==> Sound()
    }

    constructor ()
      ensures Valid() && entries == []
    {
      index := map[];
      nodes := [];
      free := [];
      head := None;
      tail := None;
      order := [];
      entries := [];
    }

    lemma KeysDistinct()
      requires Valid()
      ensures DistinctKeys(entries)
    {
      assert Unfold(0);
      var l := entries;
      forall i, j | 0 <= i < j < |l| ensures l[i].key != l[j].key {
        assert Occupied(nodes, order[i]) && Occupied(nodes, order[j]);
        Apart(order, i, j);
      }
      PairwiseDistinct(l);
    }

    // Where an indexed slot sits in the recency order.
    lemma PositionOf(idx: nat) returns (p: nat)
      requires Valid() && Occupied(nodes, idx)
      ensures p < |order| && order[p] == idx
      ensures entries[p] == EntryOf(nodes[idx].value)
      ensures Find(entries, nodes[idx].value.key) == Some(entries[p])
      ensures Without(entries, nodes[idx].value.key) == DropAt(entries, p)
    {
      assert Unfold(0);
      p :| 0 <= p < |order| && order[p] == idx;
      KeysDistinct();
      FindAt(entries, p);
      WithoutAt(entries, p);
    }

    lemma DeadlineSet(p: nat, deadline: nat)
      requires Valid() && p < |entries|
      ensures WithDeadline(entries, entries[p].key, deadline) == entries[p := entries[p].(deadline := Some(deadline))]
      ensures TotalSize(WithDeadline(entries, entries[p].key, deadline)) == TotalSize(entries)
    {
      assert Unfold(0);
      KeysDistinct();
      WithDeadlineAt(entries, p, deadline);
      DeadlineKeepsSize(entries, p, deadline);
    }

    lemma MovedToEnd(p: nat)
      requires Valid() && p < |entries|
      ensures Without(entries, entries[p].key) == DropAt(entries, p)
      ensures TotalSize(DropAt(entries, p) + [entries[p]]) == TotalSize(entries)
    {
      assert Unfold(0);
      KeysDistinct();
      WithoutAt(entries, p);
      MovedSize(entries, p);
    }

    lemma AbsentKey(key: Bytes)
      requires Valid() && key !in index
      ensures Find(entries, key).None? && Without(entries, key) == entries
    {
      assert Unfold(0);
      var l := entries;
      forall i | 0 <= i < |l| ensures l[i].key != key {
        assert Occupied(nodes, order[i]);
      }
      AbsentFromAll(l, key);
      WithoutAbsent(l, key);
    }

    // lru_remove: detaches a slot from the chain; the slot itself stays occupied.
    method LruRemove(idx: nat, ghost p: nat)
      requires Linked(nodes, order, head, tail) && p < |order| && order[p] == idx
      modifies this`nodes, this`head, this`tail, this`order
      ensures Linked(nodes, order, head, tail) && order == DropAt(old(order), p)
      ensures SamePayload(old(nodes), nodes)
    {
      Neighbours(nodes, order, p, head, tail);
      DetachUnlinks(nodes, order, p);
      UnlinkKeepsRest(nodes, Detached(nodes, idx), order, p, head, tail);
      var prev, next := nodes[idx].value.prev, nodes[idx].value.next;
      nodes := WithNext(nodes, prev, next);
      if prev.None? {
        head := next;
      }
      nodes := WithPrev(nodes, next, prev);
      if next.None? {
        tail := prev;
      }
      nodes := WithNext(nodes, Some(idx), None);
      nodes := WithPrev(nodes, Some(idx), None);
      assert nodes == Detached(old(nodes), idx);
      order := DropAt(order, p);
    }

    // lru_push_back: appends a detached slot as the most recent one.
    method LruPushBack(idx: nat)
      requires Linked(nodes, order, head, tail) && Occupied(nodes, idx) && idx !in order
      modifies this`nodes, this`head, this`tail, this`order
      ensures Linked(nodes, order, head, tail) && order == old(order) + [idx]
      ensures SamePayload(old(nodes), nodes)
    {
      var last := tail;
      ghost var before := nodes;
      if order != [] {
        assert LinksAt(nodes, order, |order| - 1);
      }
      nodes := nodes[idx := Some(nodes[idx].value.(prev := last, next := None))];
      if last.Some? {
        nodes := nodes[last.value := Some(nodes[last.value].value.(next := Some(idx)))];
      } else {
        head := Some(idx);
      }
      tail := Some(idx);
      AppendNoRepeats(order, idx);
      order := order + [idx];
      forall i | 0 <= i < |order| ensures LinksAt(nodes, order, i) {
        if i < |order| - 1 {
          assert LinksAt(before, old(order), i);
        }
      }
    }

    method Relink(idx: nat, ghost p: nat)
      requires Linked(nodes, order, head, tail) && p < |order| && order[p] == idx && AllOccupied(nodes, order)
      modifies this`nodes, this`head, this`tail, this`order
      ensures Linked(nodes, order, head, tail) && order == DropAt(old(order), p) + [idx]
      ensures SamePayload(old(nodes), nodes)
    {
      DropAtLacks(order, p);
      LruRemove(idx, p);
      ghost var detached := nodes;
      LruPushBack(idx);
      SamePayloadTrans(old(nodes), detached, nodes);
    }

    // touch: moves an entry to the most recent end.
    method Touch(idx: nat, ghost p: nat)
      requires Valid() && p < |order| && order[p] == idx
      modifies this`nodes, this`head, this`tail, this`order, this`entries
      ensures Valid() && SamePayload(old(nodes), nodes)
      ensures entries == DropAt(old(entries), p) + [old(entries)[p]]
    {
      assert Unfold(0);
      Relisted(index, free, nodes, nodes, order, p);
      if tail == Some(idx) {
        LastStays(order, p);
        return;
      }
      Relink(idx, p);
      Relisted(index, free, old(nodes), nodes, old(order), p);
      entries := ListOf(nodes, order);
    }

    // A slot for insert_new: the last free one, or a new one at the end of the arena.
    method TakeSlot() returns (idx: nat)
      requires Sound()
      modifies this`nodes, this`free
      ensures Linked(nodes, order, head, tail) && Consistent(index, nodes, free + [idx], order)
      ensures ListOf(nodes, order) == old(entries)
    {
      if free == [] {
        Grown(index, nodes, free, order);
        nodes := nodes + [None];
        idx := |nodes| - 1;
        forall i | 0 <= i < |order| ensures LinksAt(nodes, order, i) {
          assert LinksAt(old(nodes), order, i);
        }
      } else {
        idx := free[|free| - 1];
        assert free == free[..|free| - 1] + [idx];
        free := free[..|free| - 1];
      }
    }

    // insert_new: stores an entry under a key the shard does not hold, as the most recent one.
    method InsertNew(key: Bytes, value: Bytes, size: nat) returns (idx: nat)
      requires Sound() && key !in index && size == |key| + |value|
      modifies this
      ensures Valid()
      ensures entries == old(entries) + [Entry(key, value, None)]
    {
      idx := TakeSlot();
      var node := Node(key, value, None, size, None, None);
      Filled(index, nodes, free, order, idx, node);
      LinksFramed(nodes, order, head, tail, idx, Some(node));
      nodes := nodes[idx := Some(node)];
      ghost var filled, chain := nodes, order + [idx];
      LruPushBack(idx);
      index := index[key := idx];
      CoversPayload(filled, nodes, chain);
      PayloadKeeps(index, free, filled, nodes);
      entries := ListOf(nodes, order);
    }

    // The slot, its key and its place in the free list, once it is out of the chain.
    method Vacate(idx: nat, key: Bytes, ghost list: Recent)
      requires idx < |nodes|
      modifies this`nodes, this`index, this`free, this`entries
      ensures nodes == old(nodes)[idx := None] && index == old(index) - {key} && free == old(free) + [idx]
      ensures entries == list
    {
      nodes := nodes[idx := None];
      index := index - {key};
      free := free + [idx];
      entries := list;
    }

    // The part of remove_idx behind its emptiness check: map, chain and free list give the slot up.
    method Discard(idx: nat, ghost p: nat)
      requires Sound() && p < |order| && order[p] == idx
      modifies this
      ensures Valid() && SamePayloadExcept(old(nodes), nodes, idx) && idx < |nodes| && nodes[idx].None?
      ensures entries == DropAt(old(entries), p)
    {
      assert Occupied(nodes, order[p]);
      var key := nodes[idx].value.key;
      LruRemove(idx, p);
      Removed(index, free, old(nodes), nodes, old(order), p, head, tail);
      Vacate(idx, key, DropAt(entries, p));
    }

    // remove_idx: empties a slot and gives its size back; an empty slot answers None.
    method RemoveIdx(idx: nat, ghost p: nat) returns (r: Option<nat>)
      requires Valid() && idx < |nodes|
      requires nodes[idx].Some? ==> p < |order| && order[p] == idx
      modifies this
      ensures Valid() && SamePayloadExcept(old(nodes), nodes, idx) && nodes[idx].None?
      ensures old(nodes)[idx].None? ==> r == None && entries == old(entries)
      ensures old(nodes)[idx].Some? ==> r == Some(Size(old(entries)[p])) && entries == DropAt(old(entries), p)
    {
      assert Unfold(0);
      if nodes[idx].None? {
        return None;
      }
      r := Some(nodes[idx].value.size);
      Discard(idx, p);
    }

    // pop_lru: evicts the least recently used entry.
    method PopLru() returns (r: Option<nat>)
      requires Valid()
      modifies this
      ensures Valid()
      ensures old(entries) == [] ==> r == None && entries == []
      ensures old(entries) != [] ==> r == Some(Size(old(entries)[0])) && entries == old(entries)[1..]
    {
      assert Unfold(0);
      if head.None? {
        return None;
      }
      assert Occupied(nodes, order[0]);
      r := RemoveIdx(head.value, 0);
    }

    // -------------------------------------------------------------------------------------
    // The critical sections of the engine's operations. `freed` and `added` are what the section
    // subtracts from and adds to the global byte counter.

    method RemoveKey(key: Bytes) returns (size: nat)
      requires Valid() && key in index
      modifies this
      ensures Valid()
      ensures entries == Without(old(entries), key)
      ensures TotalSize(entries) + size == TotalSize(old(entries))
    {
      assert Unfold(0);
      var idx := index[key];
      ghost var p := PositionOf(idx);
      TotalSizeDrop(entries, p);
      var r := RemoveIdx(idx, p);
      size := r.value;
    }

    // A slot's payload is rewritten in place; its recency does not change.
    method Rewrite(idx: nat, value: Bytes, expiresAt: Option<nat>, ghost p: nat)
      requires Valid() && p < |order| && order[p] == idx && Occupied(nodes, idx)
      modifies this`nodes, this`entries
      ensures Valid()
      ensures entries == old(entries)[p := Entry(old(entries)[p].key, value, expiresAt)]
    {
      assert Unfold(0);
      var node := nodes[idx].value.(value := value, size := |nodes[idx].value.key| + |value|, expiresAt := expiresAt);
      Rewritten(index, nodes, free, order, p, node);
      RewrittenLinks(nodes, order, head, tail, p, node);
      nodes := nodes[idx := Some(node)];
      entries := ListOf(nodes, order);
    }

    // The lookup every read starts with: an expired entry is removed on the way.
    method LiveSlot(key: Bytes, now: nat) returns (slot: Option<nat>, freed: nat, ghost p: nat)
      requires Valid()
      modifies this
      ensures Valid()
      ensures TotalSize(entries) + freed == TotalSize(old(entries))
      ensures slot.None? ==> Live(old(entries), key, now).None? && entries == Without(old(entries), key)
      ensures slot.Some? ==>
                && entries == old(entries)
                && p < |order| && order[p] == slot.value && Occupied(nodes, slot.value)
                && nodes[slot.value].value.key == key
                && p < |entries| && entries[p] == EntryOf(nodes[slot.value].value)
                && Live(entries, key, now) == Some(entries[p])
    {
      assert Unfold(0);
      if key !in index {
        AbsentKey(key);
        return None, 0, 0;
      }
      p := PositionOf(index[key]);
      if Expired(EntryOf(nodes[index[key]].value), now) {
        freed := RemoveKey(key);
        return None, freed, p;
      }
      return Some(index[key]), 0, p;
    }

    method Get(key: Bytes, now: nat) returns (r: Option<Bytes>, freed: nat)
      requires Valid()
      modifies this
      ensures Valid()
      ensures entries == GetIn(old(entries), key, now).0 && r == GetIn(old(entries), key, now).1
      ensures TotalSize(entries) + freed == TotalSize(old(entries))
    {
      var slot, f, p := LiveSlot(key, now);
      freed := f;
      if slot.None? {
        return None, freed;
      }
      r := Some(nodes[slot.value].value.value);
      MovedToEnd(p);
      Touch(slot.value, p);
    }

    method Set(key: Bytes, value: Bytes, now: nat) returns (freed: nat, added: nat)
      requires Valid()
      modifies this
      ensures Valid()
      ensures entries == SetIn(old(entries), key, value)
      ensures freed <= TotalSize(old(entries))
      ensures TotalSize(entries) + freed == TotalSize(old(entries)) + added
    {
      assert Unfold(0);
      freed, added := 0, |key| + |value|;
      if key in index {
        ghost var p := PositionOf(index[key]);
        if Expired(EntryOf(nodes[index[key]].value), now) {
          freed := RemoveKey(key);
        } else {
          freed, added := Overwrite(key, value, p);
          return;
        }
        FindWithout(old(entries), key, key);
        KeyGone(key);
      } else {
        AbsentKey(key);
      }
      TotalSizeAppend(entries, [Entry(key, value, None)]);
      SingleSize(Entry(key, value, None));
      var _ := InsertNew(key, value, |key| + |value|);
    }

    lemma KeyGone(key: Bytes)
      requires Valid() && Find(entries, key).None?
      ensures key !in index
    {
      assert Unfold(0);
      if key in index {
        var p := PositionOf(index[key]);
      }
    }

    // set on a live key: value, size and deadline change in place and the entry becomes most recent.
    method Overwrite(key: Bytes, value: Bytes, ghost p: nat) returns (freed: nat, added: nat)
      requires Valid() && key in index && p < |order| && order[p] == index[key]
      modifies this`nodes, this`head, this`tail, this`order, this`entries
      ensures Valid()
      ensures entries == SetIn(old(entries), key, value)
      ensures freed <= TotalSize(old(entries))
      ensures TotalSize(entries) + freed == TotalSize(old(entries)) + added
    {
      assert Unfold(0);
      var idx := index[key];
      var oldSize, newSize := nodes[idx].value.size, |key| + |value|;
      ghost var l, e := entries, Entry(key, value, None);
      ghost var q := PositionOf(idx);
      if p != q {
        Apart(order, p, q);
      }
      OverwrittenSize(l, p, e);
      Rewrite(idx, value, None, p);
      Touch(idx, p);
      assert DropAt(l[p := e], p) == DropAt(l, p);
      if newSize > oldSize {
        freed, added := 0, newSize - oldSize;
      } else {
        freed, added := oldSize - newSize, 0;
      }
    }

    method Delete(key: Bytes, now: nat) returns (r: bool, freed: nat)
      requires Valid()
      modifies this
      ensures Valid()
      ensures entries == DeleteIn(old(entries), key, now).0 && r == DeleteIn(old(entries), key, now).1
      ensures TotalSize(entries) + freed == TotalSize(old(entries))
    {
      assert Unfold(0);
      if key !in index {
        AbsentKey(key);
        return false, 0;
      }
      ghost var p := PositionOf(index[key]);
      var expired := Expired(EntryOf(nodes[index[key]].value), now);
      freed := RemoveKey(key);
      r := !expired;
    }

    method Expire(key: Bytes, ttl: nat, now: nat) returns (r: ExpireResult, freed: nat)
      requires Valid()
      modifies this
      ensures Valid()
      ensures entries == ExpireIn(old(entries), key, ttl, now).0 && r == ExpireIn(old(entries), key, ttl, now).1
      ensures TotalSize(entries) + freed == TotalSize(old(entries))
    {
      var slot, f, p := LiveSlot(key, now);
      freed := f;
      if slot.None? {
        r := NotFound;
      } else {
        r := Retime(slot.value, key, ttl, now, p);
      }
    }

    // The new deadline, if there is one to be had.
    method Retime(idx: nat, ghost key: Bytes, ttl: nat, now: nat, ghost p: nat) returns (r: ExpireResult)
      requires Valid() && p < |order| && order[p] == idx && Occupied(nodes, idx) && nodes[idx].value.key == key
      modifies this`nodes, this`entries
      ensures Valid() && TotalSize(entries) == TotalSize(old(entries))
      ensures r == if now + ttl > INSTANT_MAX then Overflowed else Applied
      ensures r == Overflowed ==> entries == old(entries)
      ensures r == Applied ==> entries == WithDeadline(old(entries), key, now + ttl)
    {
      var deadline := now + ttl;
      if deadline > INSTANT_MAX {
        return Overflowed;
      }
      SetDeadline(idx, key, deadline, p);
      r := Applied;
    }

    method SetDeadline(idx: nat, ghost key: Bytes, deadline: nat, ghost p: nat)
      requires Valid() && p < |order| && order[p] == idx && Occupied(nodes, idx) && nodes[idx].value.key == key
      modifies this`nodes, this`entries
      ensures Valid()
      ensures entries == WithDeadline(old(entries), key, deadline)
      ensures TotalSize(entries) == TotalSize(old(entries))
    {
      assert Unfold(0);
      DeadlineSet(p, deadline);
      Rewrite(idx, nodes[idx].value.value, Some(deadline), p);
    }

    // The source compares the deadline a second time after the expiry check; that never succeeds.
    method Ttl(key: Bytes, now: nat) returns (r: TtlStatus, freed: nat)
      requires Valid()
      modifies this
      ensures Valid()
      ensures entries == TtlIn(old(entries), key, now).0 && r == TtlIn(old(entries), key, now).1
      ensures TotalSize(entries) + freed == TotalSize(old(entries))
    {
      var slot, f, p := LiveSlot(key, now);
      freed := f;
      if slot.None? {
        return Missing, freed;
      }
      var deadline := nodes[slot.value].value.expiresAt;
      assert entries[p].deadline == deadline;
      r := if deadline.None? then NoExpiry else ExpiresIn(deadline.value - now);
    }

    // The slots a sweep removes.
    ghost predicate Doomed(expired: seq<nat>, now: nat)
      reads this
    {
      && NoRepeats(expired)
      && (forall i :: 0 <= i < |expired| ==>
          Occupied(nodes, expired[i]) && Expired(EntryOf(nodes[expired[i]].value), now))
      && (forall i :: 0 <= i < |nodes| && nodes[i].Some? && Expired(EntryOf(nodes[i].value), now) ==> i in expired)
    }

    // First loop of purge_expired: the index is scanned in no particular order.
    method CollectExpired(now: nat) returns (expired: seq<nat>)
      requires Valid()
      ensures Doomed(expired, now)
    {
      assert Unfold(0);
      expired := [];
      var keys := index.Keys;
      while keys != {}
        invariant keys <= index.Keys
        invariant NoRepeats(expired)
        invariant forall i :: 0 <= i < |expired| ==>
                    && Occupied(nodes, expired[i]) && Expired(EntryOf(nodes[expired[i]].value), now)
                    && nodes[expired[i]].value.key !in keys
        invariant forall i :: 0 <= i < |nodes| && nodes[i].Some? && Expired(EntryOf(nodes[i].value), now) ==>
                    i in expired || nodes[i].value.key in keys
        decreases keys
      {
        var key :| key in keys;
        var idx := index[key];
        keys := keys - {key};
        if Expired(EntryOf(nodes[idx].value), now) {
          AppendNoRepeats(expired, idx);
          expired := expired + [idx];
        }
      }
    }

    // One shard's part of purge_expired.
    method Purge(now: nat) returns (removed: nat, freed: nat)
      requires Valid()
      modifies this
      ensures Valid()
      ensures entries == Survivors(old(entries), now)
      ensures removed == ExpiredCount(old(entries), now)
      ensures TotalSize(entries) + freed == TotalSize(old(entries))
    {
      removed, freed := 0, 0;
      var expired := CollectExpired(now);
      for i := 0 to |expired|
        invariant Valid() && Doomed(expired[i..], now)
        invariant Survivors(entries, now) == Survivors(old(entries), now)
        invariant removed + ExpiredCount(entries, now) == ExpiredCount(old(entries), now)
        invariant TotalSize(entries) + freed == TotalSize(old(entries))
      {
        assert expired[i..][0] == expired[i];
        var size := PurgeSlot(expired[i..], now);
        removed, freed := removed + 1, freed + size;
        assert expired[i..][1..] == expired[i + 1..];
      }
      NothingExpired(now);
    }

    lemma NothingExpired(now: nat)
      requires Valid() && Doomed([], now)
      ensures Survivors(entries, now) == entries && ExpiredCount(entries, now) == 0
    {
      assert Unfold(0);
      forall i | 0 <= i < |order| ensures !Expired(entries[i], now) {
        assert Occupied(nodes, order[i]);
      }
      SurvivorsAll(entries, now);
    }

    method PurgeSlot(expired: seq<nat>, now: nat) returns (size: nat)
      requires Valid() && expired != [] && Doomed(expired, now)
      modifies this
      ensures Valid() && Doomed(expired[1..], now)
      ensures Survivors(entries, now) == Survivors(old(entries), now)
      ensures ExpiredCount(entries, now) + 1 == ExpiredCount(old(entries), now)
      ensures TotalSize(entries) + size == TotalSize(old(entries))
    {
      assert Unfold(0);
      var idx := expired[0];
      ghost var p := PositionOf(idx);
      SurvivorsDrop(entries, p, now);
      TotalSizeDrop(entries, p);
      var r := RemoveIdx(idx, p);
      size := r.value;
      DoomedRest(old(nodes), nodes, expired, now);
    }
  }
}
