/** The doubly linked list under the send queue, with its pointers rewritten in place. */
module LinkedList {
  import opened Common

  class ListNode<T(==)> {
    var entry: T
    var next: ListNode?<T>
    var prev: ListNode?<T>

    constructor (entry: T, prev: ListNode?<T>)
      ensures this.entry == entry && this.next == null && this.prev == prev
    {
      this.entry, this.next, this.prev := entry, null, prev;
    }
  }

  ghost function NodeAt<T>(ns: seq<ListNode<T>>, i: int): (r: ListNode?<T>) {
    if 0 <= i < |ns| then ns[i] else null
  }

  ghost predicate Linked<T>(ns: seq<ListNode<T>>)
    reads ns
  {
    && (forall i {:trigger ns[i].prev} :: 0 <= i < |ns| ==> ns[i].prev == NodeAt(ns, i - 1))
    && (forall i {:trigger ns[i].next} :: 0 <= i < |ns| ==> ns[i].next == NodeAt(ns, i + 1))
  }

  ghost function Entries<T>(ns: seq<ListNode<T>>): (c: seq<T>)
    reads ns`entry
    ensures |c| == |ns|
  {
    if ns == [] then [] else [ns[0].entry] + Entries(ns[1..])
  }

  lemma {:induction false} EntryAt<T>(ns: seq<ListNode<T>>, i: nat)
    requires i < |ns|
    ensures Entries(ns)[i] == ns[i].entry
  {
    if i > 0 {
      EntryAt(ns[1..], i - 1);
    }
  }

  lemma {:induction false} EntriesOfConcat<T>(a: seq<ListNode<T>>, b: seq<ListNode<T>>)
    ensures Entries(a + b) == Entries(a) + Entries(b)
  {
    if a == [] {
      assert a + b == b;
    } else {
      EntriesOfConcat(a[1..], b);
      assert (a + b)[1..] == a[1..] + b;
    }
  }

  lemma EntriesOfDrop<T>(ns: seq<ListNode<T>>, i: nat)
    requires i < |ns|
    ensures Entries(ns[..i] + ns[i + 1..]) == Entries(ns)[..i] + Entries(ns)[i + 1..]
  {
    hide Entries;
    EntriesOfConcat(ns[..i], ns[i + 1..]);
    EntriesOfConcat(ns[..i], ns[i..]);
    EntriesOfConcat(ns[..i + 1], ns[i + 1..]);
    assert ns[..i] + ns[i..] == ns == ns[..i + 1] + ns[i + 1..];
  }

  lemma LastIsNew<T>(ns: seq<ListNode<T>>)
    requires Distinct(ns)
    ensures forall k :: 0 <= k < |ns| - 1 ==> ns[k] != ns[|ns| - 1]
  {
  }

  lemma EntriesOfAppend<T>(ns: seq<ListNode<T>>, n: ListNode<T>)
    ensures Entries(ns + [n]) == Entries(ns) + [n.entry]
  {
    EntriesOfConcat(ns, [n]);
    assert Entries([n]) == [n.entry] + Entries([]);
  }

  /** A new node that is linked with the last one extends the chain. */
  lemma AppendLinked<T>(ns: seq<ListNode<T>>, n: ListNode<T>)
    requires Distinct(ns) && n !in ns && n.next == null && n.prev == NodeAt(ns, |ns| - 1)
    requires forall k {:trigger ns[k].prev} :: 0 <= k < |ns| ==> ns[k].prev == NodeAt(ns, k - 1)
    requires forall k {:trigger ns[k].next} :: 0 <= k < |ns| ==>
               ns[k].next == if k == |ns| - 1 then n else NodeAt(ns, k + 1)
    ensures Distinct(ns + [n]) && Linked(ns + [n])
  {
    var longer := ns + [n];
    assert forall k :: 0 <= k < |ns| ==> longer[k] == ns[k];
  }

  /** When its two neighbours are linked past it, a node can be dropped from the chain. */
  lemma DropUnlinked<T>(ns: seq<ListNode<T>>, i: nat)
    requires i < |ns| && Distinct(ns)
    requires forall k {:trigger ns[k].next} :: 0 <= k < |ns| ==>
               ns[k].next == if k == i - 1 then NodeAt(ns, i + 1) else NodeAt(ns, k + 1)
    requires forall k {:trigger ns[k].prev} :: 0 <= k < |ns| ==>
               ns[k].prev == if k == i + 1 then NodeAt(ns, i - 1) else NodeAt(ns, k - 1)
    ensures Distinct(ns[..i] + ns[i + 1..]) && Linked(ns[..i] + ns[i + 1..])
  {
    var rest := ns[..i] + ns[i + 1..];
    assert forall k :: 0 <= k < i ==> rest[k] == ns[k];
    assert forall k :: i <= k < |rest| ==> rest[k] == ns[k + 1];
  }

  /** The entry identity of `DeleteLinkedListEntry` is equality of `T`; for a class that is
      identity of the object. A null entry is `None`. */
  class LinkedList<T(==)> {
    var head: ListNode?<T>
    var tail: ListNode?<T>
    ghost var nodes: seq<ListNode<T>>  // the chain, from head to tail

    /** The chain visits its nodes once each, and the links of every node name its neighbours. */
    ghost predicate Valid()
      reads this, nodes
    {
      Distinct(nodes) && Linked(nodes) && head == NodeAt(nodes, 0) && tail == NodeAt(nodes, |nodes| - 1)
    }

    ghost function Contents(): (c: seq<T>)
      reads this, nodes
      ensures |c| == |nodes|
    {
      Entries(nodes)
    }

    constructor ()
      ensures Valid() && nodes == [] && Contents() == []
    {
      head, tail := null, null;
      nodes := [];
    }

    /** `AddLinkedListEntry`: appends; a null entry is refused. */
    method Add(entry: Option<T>) returns (ok: bool)
      requires Valid()
      modifies this, nodes
      ensures Valid() && ok == entry.Some?
      ensures !ok ==> nodes == old(nodes) && Contents() == old(Contents())
      ensures ok ==> Contents() == old(Contents()) + [entry.value]
      ensures ok ==> |nodes| == |old(nodes)| + 1 && nodes[..|old(nodes)|] == old(nodes) && fresh(nodes[|old(nodes)|])
    {
      if entry.None? {
        return false;
      }
      hide Entries, Distinct, Linked;
      var newEntry := new ListNode(entry.value, tail);
      EntriesOfAppend(nodes, newEntry);
      LinkAtEnd(newEntry);
      return true;
    }

    /** The pointer surgery of `AddLinkedListEntry`. */
    method LinkAtEnd(newEntry: ListNode<T>)
      requires Valid() && newEntry !in nodes && newEntry.prev == tail && newEntry.next == null
      modifies this, nodes`next
      ensures Valid() && nodes == old(nodes) + [newEntry]
    {
      hide Distinct;
      tail := newEntry;
      if head == null {
        head := newEntry;
      } else {
        ghost var last := |nodes| - 1;
        assert forall k :: 0 <= k < last ==> nodes[k] != nodes[last] by {
          LastIsNew(nodes);
        }
        newEntry.prev.next := newEntry;
      }
      AppendLinked(nodes, newEntry);
      nodes := nodes + [newEntry];
    }

    /** `DeleteLinkedListEntry`: unlinks the first node with that entry, and fails exactly when
        there is none. */
    method Delete(entry: Option<T>) returns (wasDeleted: bool)
      requires Valid()
      modifies this, nodes
      ensures Valid()
      ensures wasDeleted <==> entry.Some? && entry.value in old(Contents())
      ensures !wasDeleted ==> nodes == old(nodes) && Contents() == old(Contents())
      ensures wasDeleted ==> exists i :: 0 <= i < |old(nodes)|
                                      && IsFirst(old(Contents()), entry.value, i)
                                      && nodes == old(nodes)[..i] + old(nodes)[i + 1..]
                                      && Contents() == old(Contents())[..i] + old(Contents())[i + 1..]
    {
      if entry.None? {
        return false;
      }
      hide Entries;
      var node, i := FindFirst(entry.value);
      if node == null {
        return false;
      }
      EntriesOfDrop(nodes, i);
      Unlink(node, i);
      return true;
    }

    /** The search of `DeleteLinkedListEntry`. */
    method FindFirst(entry: T) returns (node: ListNode?<T>, ghost i: nat)
      requires Valid()
      ensures i <= |nodes| && node == NodeAt(nodes, i)
      ensures node == null ==> entry !in Contents()
      ensures node != null ==> IsFirst(Contents(), entry, i)
    {
      hide Entries;
      node := head;
      i := 0;
      while node != null
        invariant 0 <= i <= |nodes| && node == NodeAt(nodes, i) && entry !in Contents()[..i]
        decreases |nodes| - i
      {
        EntryAt(nodes, i);
        if node.entry == entry {
          return;
        }
        assert Contents()[..i + 1] == Contents()[..i] + [Contents()[i]];
        node := node.next;
        i := i + 1;
      }
      assert Contents()[..i] == Contents();
    }

    /** The first half of the pointer surgery: the link that leads forward to the node skips it. */
    method SkipForward(node: ListNode<T>, ghost i: nat)
      requires Distinct(nodes) && i < |nodes| && nodes[i] == node && node.prev == NodeAt(nodes, i - 1)
      modifies this`head, nodes`next
      ensures head == if i == 0 then old(node.next) else old(head)
      ensures forall k {:trigger nodes[k].next} :: 0 <= k < |nodes| ==>
                nodes[k].next == if k == i - 1 then old(node.next) else old(nodes[k].next)
    {
      if node.prev == null {
        head := node.next;
      } else {
        node.prev.next := node.next;
      }
    }

    /** The second half: so does the link that leads back to it. */
    method SkipBackward(node: ListNode<T>, ghost i: nat)
      requires Distinct(nodes) && i < |nodes| && nodes[i] == node && node.next == NodeAt(nodes, i + 1)
      modifies this`tail, nodes`prev
      ensures tail == if i == |nodes| - 1 then old(node.prev) else old(tail)
      ensures forall k {:trigger nodes[k].prev} :: 0 <= k < |nodes| ==>
                nodes[k].prev == if k == i + 1 then old(node.prev) else old(nodes[k].prev)
    {
      if node.next == null {
        tail := node.prev;
      } else {
        node.next.prev := node.prev;
      }
    }

    /** The pointer surgery of `DeleteLinkedListEntry`. */
    method Unlink(node: ListNode<T>, ghost i: nat)
      requires Valid() && i < |nodes| && nodes[i] == node
      modifies this, nodes`next, nodes`prev
      ensures Valid() && nodes == old(nodes)[..i] + old(nodes)[i + 1..]
    {
      hide Distinct;
      SkipForward(node, i);
      SkipBackward(node, i);
      DropUnlinked(nodes, i);
      nodes := nodes[..i] + nodes[i + 1..];
    }

    /** `RemoveFirstEntry`: pops the head; on an empty list only the flag is set. */
    method RemoveFirst() returns (isEmpty: bool, entry: Option<T>)
      requires Valid()
      modifies this, nodes
      ensures Valid() && isEmpty == (old(Contents()) == [])
      ensures isEmpty ==> nodes == old(nodes) && entry.None?
      ensures !isEmpty ==> entry == Some(old(Contents())[0])
      ensures !isEmpty ==> nodes == old(nodes)[1..] && Contents() == old(Contents())[1..]
    {
      if head == null {
        return true, None;
      }
      entry := Some(head.entry);
      head := head.next;
      if head != null {
        head.prev := null;
      }
      if head == null {
        tail := null;
      }
      nodes := nodes[1..];
      return false, entry;
    }

    /** `FreeLinkedList`: reads each link before it frees the node, and frees every node once. */
    method Free() returns (freed: seq<ListNode<T>>)
      requires Valid()
      ensures freed == nodes
    {
      freed := [];
      var entry := head;
      while entry != null
        invariant |freed| <= |nodes| && freed == nodes[..|freed|]
        invariant entry == NodeAt(nodes, |freed|)
        decreases |nodes| - |freed|
      {
        var next := entry.next;
        freed := freed + [entry];
        entry := next;
      }
    }

    /** The nodes met from `n` on along `next`, at most `fuel` of them. */
    ghost function Forward(n: ListNode?<T>, fuel: nat): (r: seq<ListNode<T>>)
      reads this, nodes
    {
      if fuel == 0 || n == null || n !in nodes then [] else [n] + Forward(n.next, fuel - 1)
    }

    /** The nodes met from `n` on along `prev`, at most `fuel` of them. */
    ghost function Backward(n: ListNode?<T>, fuel: nat): (r: seq<ListNode<T>>)
      reads this, nodes
    {
      if fuel == 0 || n == null || n !in nodes then [] else [n] + Backward(n.prev, fuel - 1)
    }

    lemma {:induction false} ForwardFrom(i: nat, fuel: nat)
      requires Valid() && i <= |nodes| && fuel >= |nodes| - i
      ensures Forward(NodeAt(nodes, i), fuel) == nodes[i..]
      decreases fuel
    {
      if i < |nodes| {
        ForwardFrom(i + 1, fuel - 1);
        assert nodes[i..] == [nodes[i]] + nodes[i + 1..];
      }
    }

    lemma {:induction false} BackwardFrom(i: nat, fuel: nat)
      requires Valid() && i <= |nodes| && fuel >= i
      ensures Backward(NodeAt(nodes, i - 1), fuel) == Reverse(nodes[..i])
    {
      if i > 0 {
        BackwardFrom(i - 1, fuel - 1);
        assert nodes[..i][..i - 1] == nodes[..i - 1];
      }
    }

    /** The list is acyclic both ways, and walking back from the tail gives the reverse of
        walking forward from the head. */
    lemma WalksMirror(fuel: nat)
      requires Valid() && fuel >= |nodes|
      ensures Forward(head, fuel) == nodes && Backward(tail, fuel) == Reverse(Forward(head, fuel))
    {
      ForwardFrom(0, fuel);
      BackwardFrom(|nodes|, fuel);
      assert nodes[0..] == nodes && nodes[..|nodes|] == nodes;
    }
  }

  predicate IsFirst<T(==)>(s: seq<T>, x: T, i: nat) {
    i < |s| && s[i] == x && x !in s[..i]
  }
}
