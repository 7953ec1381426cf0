/**
 * The list that carries timestamps past a decoder that returns pictures in another order than it got them.
 * The decoder only sees the address of a record; addresses of freed records may be given out again.
 */
module OpaqueList {
  import opened Basics

  datatype Node = Node(address: nat, ts: ClockTime, offset: int)

  datatype Op = Store(node: Node) | Find(address: nat)

  function IndexOf(nodes: seq<Node>, address: nat): (i: nat)
    ensures i <= |nodes|
    ensures i < |nodes| ==> nodes[i].address == address
    ensures forall k :: 0 <= k < i ==> nodes[k].address != address
  {
    if nodes == [] || nodes[0].address == address then 0 else 1 + IndexOf(nodes[1..], address)
  }

  function Remove(nodes: seq<Node>, address: nat): seq<Node> {
    var i := IndexOf(nodes, address);
    if i < |nodes| then nodes[..i] + nodes[i + 1..] else nodes
  }

  class PassThrough {
    var nodes: seq<Node>

    constructor ()
      ensures nodes == []
    {
      nodes := [];
    }

    /** opaque_store; the allocator hands out an address that is not in use. */
    method Insert(address: nat, ts: ClockTime, offset: int)
      requires forall k :: 0 <= k < |nodes| ==> nodes[k].address != address
      modifies this
      ensures nodes == old(nodes) + [Node(address, ts, offset)]
    {
      nodes := nodes + [Node(address, ts, offset)];
    }

    /** opaque_find: gives the record back and deletes it, or reports that there is none. */
    method Lookup(address: nat) returns (found: Option<(ClockTime, int)>)
      modifies this
      ensures nodes == Remove(old(nodes), address)
      ensures var i, was := IndexOf(old(nodes), address), old(nodes);
              found == if i < |was| then Some((was[i].ts, was[i].offset)) else None
    {
      var i := 0;
      while i < |nodes|
        invariant i <= |nodes| && nodes == old(nodes)
        invariant forall k :: 0 <= k < i ==> nodes[k].address != address
      {
        if nodes[i].address == address {
          found := Some((nodes[i].ts, nodes[i].offset));
          nodes := nodes[..i] + nodes[i + 1..];
          return;
        }
        i := i + 1;
      }
      return None;
    }
  }

  function Step(nodes: seq<Node>, op: Op): seq<Node> {
    match op
    case Store(node) => nodes + [node]
    case Find(address) => Remove(nodes, address)
  }

  /** The list after a run. */
  function Run(ops: seq<Op>): seq<Node> {
    if ops == [] then [] else Step(Run(ops[..|ops| - 1]), ops[|ops| - 1])
  }

  /** Each store got an address that no live record has. */
  ghost predicate FreshAddresses(ops: seq<Op>) {
    forall n :: 0 <= n < |ops| && ops[n].Store? ==> Unused(Run(ops[..n]), ops[n].node.address)
  }

  predicate Unused(nodes: seq<Node>, address: nat) {
    IndexOf(nodes, address) == |nodes|
  }

  // The two reference descriptions below never mention the list.

  /** The stores no later find asked for, in the order they were made. */
  function Outstanding(ops: seq<Op>): seq<Node> {
    if ops == [] then []
    else (if ops[0].Store? && Find(ops[0].node.address) !in ops[1..] then [ops[0].node] else [])
         + Outstanding(ops[1..])
  }

  /** The latest operation on an address says whether a record with it is still out. */
  function LatestStore(ops: seq<Op>, address: nat): Option<Node> {
    if ops == [] then None
    else
      var last := ops[|ops| - 1];
      if last.Store? && last.node.address == address then Some(last.node)
      else if last == Find(address) then None
      else LatestStore(ops[..|ops| - 1], address)
  }

  ghost predicate Distinct(nodes: seq<Node>) {
    forall i, j :: 0 <= i < j < |nodes| ==> nodes[i].address != nodes[j].address
  }

  lemma FreshPrefix(ops: seq<Op>)
    requires FreshAddresses(ops) && ops != []
    ensures FreshAddresses(ops[..|ops| - 1])
    ensures var last := ops[|ops| - 1]; last.Store? ==> Unused(Run(ops[..|ops| - 1]), last.node.address)
  {
    var before := ops[..|ops| - 1];
    forall n | 0 <= n < |before| && before[n].Store?
      ensures Unused(Run(before[..n]), before[n].node.address)
    {
      assert before[..n] == ops[..n] && ops[n] == before[n];
    }
  }

  lemma {:induction false} RunDistinct(ops: seq<Op>)
    requires FreshAddresses(ops)
    ensures Distinct(Run(ops))
  {
    if ops != [] {
      FreshPrefix(ops);
      RunDistinct(ops[..|ops| - 1]);
    }
  }

  lemma {:induction false} OutstandingStore(ops: seq<Op>, node: Node)
    ensures Outstanding(ops + [Store(node)]) == Outstanding(ops) + [node]
  {
    if ops == [] {
      assert ops + [Store(node)] == [Store(node)] && [Store(node)][1..] == [];
    } else {
      assert (ops + [Store(node)])[1..] == ops[1..] + [Store(node)];
      OutstandingStore(ops[1..], node);
    }
  }

  function Without(nodes: seq<Node>, address: nat): seq<Node> {
    if nodes == [] then []
    else (if nodes[0].address == address then [] else [nodes[0]]) + Without(nodes[1..], address)
  }

  lemma {:induction false} OutstandingFind(ops: seq<Op>, address: nat)
    ensures Outstanding(ops + [Find(address)]) == Without(Outstanding(ops), address)
  {
    if ops == [] {
      assert ops + [Find(address)] == [Find(address)] && [Find(address)][1..] == [];
    } else {
      assert (ops + [Find(address)])[1..] == ops[1..] + [Find(address)];
      OutstandingFind(ops[1..], address);
      var first := ops[0];
      if first.Store? && Find(first.node.address) !in ops[1..] {
        assert Outstanding(ops) == [first.node] + Outstanding(ops[1..]);
        assert Outstanding(ops)[1..] == Outstanding(ops[1..]);
      } else {
        assert Outstanding(ops) == Outstanding(ops[1..]);
      }
    }
  }

  lemma RemoveLater(nodes: seq<Node>, address: nat)
    requires nodes != [] && nodes[0].address != address
    ensures Remove(nodes, address) == [nodes[0]] + Remove(nodes[1..], address)
  {
    var i := IndexOf(nodes[1..], address);
    assert IndexOf(nodes, address) == i + 1;
    if i < |nodes[1..]| {
      assert nodes[..i + 1] == [nodes[0]] + nodes[1..][..i];
      assert nodes[i + 2..] == nodes[1..][i + 1..];
    } else {
      assert nodes == [nodes[0]] + nodes[1..];
    }
  }

  lemma {:induction false} RemoveIsWithout(nodes: seq<Node>, address: nat)
    requires Distinct(nodes)
    ensures Remove(nodes, address) == Without(nodes, address)
  {
    if nodes != [] {
      if nodes[0].address == address {
        WithoutAbsent(nodes[1..], address);
        assert Remove(nodes, address) == nodes[1..];
      } else {
        RemoveLater(nodes, address);
        RemoveIsWithout(nodes[1..], address);
      }
    }
  }

  lemma {:induction false} WithoutAbsent(nodes: seq<Node>, address: nat)
    requires forall k :: 0 <= k < |nodes| ==> nodes[k].address != address
    ensures Without(nodes, address) == nodes
  {
    if nodes != [] {
      WithoutAbsent(nodes[1..], address);
    }
  }

  /** The list is always the stores minus the finds, in store order. */
  lemma {:induction false} ListIsOutstanding(ops: seq<Op>)
    requires FreshAddresses(ops)
    ensures Run(ops) == Outstanding(ops)
  {
    if ops != [] {
      var before, last := ops[..|ops| - 1], ops[|ops| - 1];
      FreshPrefix(ops);
      ListIsOutstanding(before);
      assert ops == before + [last];
      match last
      case Store(node) => OutstandingStore(before, node);
      case Find(address) =>
        OutstandingFind(before, address);
        RunDistinct(before);
        RemoveIsWithout(Run(before), address);
    }
  }

  /** What a find would return. */
  function FindResult(nodes: seq<Node>, address: nat): Option<Node> {
    var i := IndexOf(nodes, address);
    if i < |nodes| then Some(nodes[i]) else None
  }

  lemma StepFind(nodes: seq<Node>, op: Op, address: nat)
    requires Distinct(nodes) && (op.Store? ==> Unused(nodes, op.node.address))
    ensures FindResult(Step(nodes, op), address)
            == if op.Store? && op.node.address == address then Some(op.node)
               else if op == Find(address) then None
               else FindResult(nodes, address)
  {
    var after := Step(nodes, op);
    if op.Store? {
      if op.node.address == address {
        assert after[|nodes|].address == address;
      } else if IndexOf(nodes, address) < |nodes| {
        var i := IndexOf(nodes, address);
        assert after[i] == nodes[i];
      }
    } else {
      var r := IndexOf(nodes, op.address);
      var i := IndexOf(nodes, address);
      if op.address != address && r < |nodes| && i < |nodes| {
        assert after[if i < r then i else i - 1] == nodes[i];
      }
    }
  }

  /**
   * Whatever the order of the finds, one succeeds exactly when the latest operation on its address was a store,
   * and then returns what that store recorded; so each store is found at most once.
   */
  lemma {:induction false} FindReturnsLatestStore(ops: seq<Op>, address: nat)
    requires FreshAddresses(ops)
    ensures FindResult(Run(ops), address) == LatestStore(ops, address)
  {
    if ops != [] {
      var before := ops[..|ops| - 1];
      FreshPrefix(ops);
      RunDistinct(before);
      FindReturnsLatestStore(before, address);
      StepFind(Run(before), ops[|ops| - 1], address);
    }
  }
}
