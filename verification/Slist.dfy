/**
  * The singly linked string list with a remembered last node. Nodes are allocated one by one and
  * linked in place, so a list holds a sequence of strings only as long as it has no cycle and the
  * remembered node is the last one; that is what every operation keeps.
  */
module Slist {

  class Node {
    var data: string
    var next: Node?

    /** The allocation behind `curl_slist_append(nullptr, str)`. */
    constructor (data: string)
      ensures this.data == data && next == null
    {
      this.data := data;
      this.next := null;
    }
  }

  /** The node at a position, `end` behind the last. */
  function NodeOr(s: seq<Node>, i: nat, end: Node?): Node? { if i < |s| then s[i] else end }

  function NodeAt(s: seq<Node>, i: nat): Node? { NodeOr(s, i, null) }

  /** Each node is linked to the next one, the last to `end`. */
  ghost predicate Links(s: seq<Node>, end: Node?)
    reads s
  {
    forall i :: 0 <= i < |s| ==> s[i].next == NodeOr(s, i + 1, end)
  }

  /** The node a chain `s` in front of `end` starts with. */
  function Head(s: seq<Node>, end: Node?): Node? { if s == [] then end else s[0] }

  lemma LinksAppend(a: seq<Node>, b: seq<Node>, end: Node?)
    ensures Links(a + b, end) <==> Links(a, Head(b, end)) && Links(b, end)
  {
    var s := a + b;
    if Links(s, end) {
      forall i | 0 <= i < |a| ensures a[i].next == NodeOr(a, i + 1, Head(b, end)) {
        assert s[i] == a[i];
      }
      forall i | 0 <= i < |b| ensures b[i].next == NodeOr(b, i + 1, end) {
        assert s[|a| + i] == b[i];
      }
    }
    if Links(a, Head(b, end)) && Links(b, end) {
      forall i | 0 <= i < |s| ensures s[i].next == NodeOr(s, i + 1, end) {
        if i < |a| {
          assert s[i] == a[i];
        } else {
          assert s[i] == b[i - |a|];
        }
      }
    }
  }

  lemma LinksOne(n: Node, end: Node?)
    ensures Links([n], end) <==> n.next == end
  {
    assert [n][0] == n;
  }

  /** `spine` is the chain of nodes that starts at `first` and ends with none. */
  ghost predicate Chain(first: Node?, spine: seq<Node>)
    reads spine
  {
    first == Head(spine, null) && Links(spine, null) && Distinct(spine)
  }

  predicate Distinct(s: seq<Node>) { forall i, j :: 0 <= i < j < |s| ==> s[i] != s[j] }

  lemma DistinctInsert(a: seq<Node>, x: Node, b: seq<Node>)
    requires Distinct(a + b) && x !in a + b
    ensures Distinct(a + [x] + b)
  {
    var s, t := a + b, a + [x] + b;
    forall i, j | 0 <= i < j < |t| ensures t[i] != t[j] {
      var p := if i <= |a| then i else i - 1;
      var q := if j <= |a| then j else j - 1;
      assert i != |a| ==> t[i] == s[p];
      assert j != |a| ==> t[j] == s[q];
    }
  }

  lemma DistinctRemove(a: seq<Node>, x: Node, b: seq<Node>)
    requires Distinct(a + [x] + b)
    ensures Distinct(a + b) && x !in a + b
  {
    var s, t := a + [x] + b, a + b;
    assert s[|a|] == x;
    forall i | 0 <= i < |t| ensures t[i] == s[if i < |a| then i else i + 1] && t[i] != x {
    }
  }

  lemma DataOfAppend(a: seq<Node>, b: seq<Node>)
    ensures DataOf(a + b) == DataOf(a) + DataOf(b)
  {
  }

  ghost function DataOf(spine: seq<Node>): (s: seq<string>)
    reads spine
    ensures |s| == |spine|
  {
    seq(|spine|, i requires 0 <= i < |spine| reads spine => spine[i].data)
  }

  /** Insertion at an index, at the end if there are fewer elements. */
  function InsertAt<T>(s: seq<T>, idx: nat, x: T): seq<T> {
    var k := if idx < |s| then idx else |s|;
    s[..k] + [x] + s[k..]
  }

  function RemoveAt<T>(s: seq<T>, idx: nat): seq<T> {
    if idx < |s| then s[..idx] + s[idx + 1..] else s
  }

  lemma DataOfOne(n: Node)
    ensures DataOf([n]) == [n.data]
  {
  }

  /** Relinking leaves the strings alone. */
  twostate lemma DataUntouched(nodes: seq<Node>)
    requires forall i :: 0 <= i < |nodes| ==> nodes[i].data == old(nodes[i].data)
    ensures DataOf(nodes) == old(DataOf(nodes))
  {
  }

  class List {
    var firstNode: Node?
    var lastNode: Node?
    ghost var spine: seq<Node>

    ghost predicate Valid()
      reads this, spine
    {
      && Chain(firstNode, spine)
      && lastNode == if spine == [] then null else spine[|spine| - 1]
    }

    ghost function Contents(): (s: seq<string>)
      reads this, spine
      ensures |s| == |spine|
    {
      DataOf(spine)
    }

    /** The position of a node of the list. */
    ghost function IndexOf(pos: Node): (k: nat)
      requires pos in spine
      reads this
      ensures k < |spine| && spine[k] == pos
    {
      var k: nat :| k < |spine| && spine[k] == pos;
      k
    }

    constructor ()
      ensures Valid() && Contents() == [] && spine == []
    {
      firstNode, lastNode, spine := null, null, [];
    }

    /** Takes over a chain of nodes. */
    constructor Take(raw: Node?, ghost nodes: seq<Node>)
      requires Chain(raw, nodes)
      ensures Valid() && spine == nodes && Contents() == DataOf(nodes)
    {
      firstNode := raw;
      lastNode := raw;
      spine := nodes;
      new;
      var node := raw;
      ghost var i := 0;
      while node != null && node.next != null
        invariant i <= |nodes| && node == NodeAt(nodes, i) && (node == null ==> nodes == [])
        invariant firstNode == raw && spine == nodes && Chain(raw, nodes)
        decreases |nodes| - i
      {
        assert nodes[i].next == NodeAt(nodes, i + 1);
        node := node.next;
        i := i + 1;
      }
      lastNode := node;
    }

    /** Takes the nodes of another list, which is empty afterwards. */
    constructor Move(other: List)
      requires other.Valid()
      modifies other
      ensures Valid() && other.Valid()
      ensures spine == old(other.spine) && Contents() == old(other.Contents())
      ensures other.Contents() == []
    {
      firstNode, lastNode, spine := other.firstNode, other.lastNode, other.spine;
      new;
      other.firstNode, other.lastNode, other.spine := null, null, [];
    }

    /** Move assignment exchanges the two lists. */
    method MoveAssign(other: List)
      requires Valid() && other.Valid() && other != this
      modifies this, other
      ensures Valid() && other.Valid()
      ensures Contents() == old(other.Contents()) && other.Contents() == old(Contents())
    {
      hide Distinct, Links, DataOf;
      firstNode, other.firstNode := other.firstNode, firstNode;
      lastNode, other.lastNode := other.lastNode, lastNode;
      spine, other.spine := other.spine, spine;
    }

    method Prepend(str: string) returns (it: Node)
      requires Valid()
      modifies this
      ensures Valid() && Contents() == [str] + old(Contents())
      ensures spine == [it] + old(spine) && fresh(it)
    {
      hide Distinct, DataOf, Links;
      ghost var old_ := spine;
      it := new Node(str);
      it.next := firstNode;
      firstNode := it;
      if lastNode == null {
        lastNode := it;
      }
      spine := [it] + spine;
      assert [] + old_ == old_ && [] + [it] + old_ == spine;
      DistinctInsert([], it, old_);
      LinksOne(it, Head(old_, null));
      LinksAppend([it], old_, null);
      DataUntouched(old_);
      DataOfAppend([it], old_);
      DataOfOne(it);
    }

    /** Inserts behind `pos`; the end iterator stands for the last element. */
    method InsertAfter(pos: Node?, str: string) returns (it: Node)
      requires Valid() && (pos != null ==> pos in spine)
      modifies this, spine
      ensures fresh(it) && Valid()
      ensures var k := if pos == null then |old(spine)| else old(IndexOf(pos)) + 1;
        && spine == old(spine)[..k] + [it] + old(spine)[k..]
        && Contents() == InsertAt(old(Contents()), k, str)
    {
      hide Distinct, DataOf, Links;
      var current := pos;
      it := new Node(str);
      if current == null {
        current := lastNode;
      }
      if current == null {
        it.next := null;
        firstNode := it;
        lastNode := it;
        assert [] + [] == spine && [] + [it] + [] == [it];
        DistinctInsert([], it, []);
        LinksOne(it, null);
        DataOfOne(it);
        spine := [it];
        return;
      }
      LinkBehind(current, it, if pos == null then |spine| - 1 else IndexOf(current));
    }

    /** Links a new node behind `current`, which is at position `k`. */
    method LinkBehind(current: Node, it: Node, ghost k: nat)
      requires Valid() && k < |spine| && current == spine[k] && it !in spine
      modifies this, current, it
      ensures Valid() && spine == old(spine)[..k + 1] + [it] + old(spine)[k + 1..]
      ensures Contents() == InsertAt(old(Contents()), k + 1, it.data) && it.data == old(it.data)
    {
      hide Distinct, DataOf, Links;
      ghost var a, b := spine[..k], spine[k + 1..];
      ghost var ac := a + [current];
      assert spine == ac + b == a + [current] + b && ac == spine[..k + 1];
      DistinctRemove(a, current, b);
      DistinctInsert(ac, it, b);
      LinksAppend(ac, b, null);
      LinksAppend(a, [current], Head(b, null));
      LinksOne(current, Head(b, null));
      DataOfAppend(ac, b);
      it.next := current.next;
      current.next := it;
      if it.next == null {
        lastNode := it;
      }
      spine := ac + [it] + b;
      LinksOne(current, it);
      LinksAppend(a, [current], it);
      LinksOne(it, Head(b, null));
      LinksAppend(ac, [it], Head(b, null));
      LinksAppend(ac + [it], b, null);
      DataUntouched(ac);
      DataUntouched(b);
      DataOfAppend(ac, [it]);
      DataOfAppend(ac + [it], b);
      DataOfOne(it);
    }

    method Append(str: string) returns (it: Node)
      requires Valid()
      modifies this, spine
      ensures fresh(it) && Valid()
      ensures spine == old(spine) + [it] && Contents() == old(Contents()) + [str]
    {
      it := InsertAfter(null, str);
    }

    /** The node at an index, or the end. */
    method Index(idx: nat) returns (it: Node?)
      requires Valid()
      ensures it == NodeAt(spine, idx)
    {
      var node := firstNode;
      var i := 0;
      while i != idx && node != null
        invariant 0 <= i <= idx && i <= |spine|
        invariant node == NodeAt(spine, i)
        decreases idx - i
      {
        node := node.next;
        i := i + 1;
      }
      return node;
    }

    method Insert(idx: nat, str: string) returns (it: Node)
      requires Valid()
      modifies this, spine
      ensures fresh(it) && Valid()
      ensures Contents() == InsertAt(old(Contents()), idx, str)
      ensures forall n :: n in spine ==> n == it || n in old(spine)
    {
      hide Links, DataOf;
      if idx == 0 {
        it := Prepend(str);
      } else {
        var pos := Index(idx - 1);
        it := InsertAfter(pos, str);
      }
    }

    /** Unlinks the first node; the caller sees to the last. */
    method Behead()
      requires Chain(firstNode, spine) && spine != []
      modifies this`firstNode, this`spine, spine
      ensures Chain(firstNode, spine) && spine == RemoveAt(old(spine), 0)
      ensures Contents() == RemoveAt(old(Contents()), 0)
    {
      hide Distinct, DataOf, Links;
      var ptr := firstNode;
      ghost var rest := spine[1..];
      assert spine == [] + [ptr] + rest && [] + rest == rest && spine == [ptr] + rest;
      DistinctRemove([], ptr, rest);
      LinksAppend([ptr], rest, null);
      LinksOne(ptr, Head(rest, null));
      DataOfAppend([ptr], rest);
      DataOfOne(ptr);
      firstNode := ptr.next;
      ptr.next := null;
      spine := rest;
      DataUntouched(rest);
    }

    method Remove(index: nat)
      requires Valid()
      modifies this, spine
      ensures Valid() && spine == RemoveAt(old(spine), index)
      ensures Contents() == RemoveAt(old(Contents()), index)
    {
      if index == 0 {
        var ptr := firstNode;
        if lastNode == ptr {
          lastNode := null;
        }
        if ptr != null {
          Behead();
        }
      } else {
        var prev := firstNode;
        if prev == null {
          return;
        }
        var ptr := prev.next;
        var i := 1;
        while i < index && ptr != null
          invariant 1 <= i <= index && i <= |spine|
          invariant prev == spine[i - 1] && ptr == NodeAt(spine, i)
          decreases index - i
        {
          prev := ptr;
          ptr := ptr.next;
          i := i + 1;
        }
        if ptr != null {
          Splice(prev, ptr, ptr == lastNode, i - 1);
        }
      }
    }

    /** Links `prev` past `ptr`, the node behind it, and moves the end if that was the last. */
    method Splice(prev: Node, ptr: Node, wasLast: bool, ghost k: nat)
      requires Valid() && k + 1 < |spine| && prev == spine[k] && ptr == spine[k + 1]
      requires wasLast <==> ptr == lastNode
      modifies this, spine
      ensures Valid() && spine == RemoveAt(old(spine), k + 1)
      ensures Contents() == RemoveAt(old(Contents()), k + 1)
    {
      hide Distinct, DataOf, Links;
      ghost var a, b := spine[..k], spine[k + 2..];
      ghost var ap := a + [prev];
      assert spine == ap + [ptr] + b && ap == spine[..k + 1];
      DistinctRemove(ap, ptr, b);
      assert ap + b == a + [prev] + b;
      DistinctRemove(a, prev, b);
      LinksAppend(ap + [ptr], b, null);
      LinksAppend(ap, [ptr], Head(b, null));
      LinksAppend(a, [prev], ptr);
      LinksOne(ptr, Head(b, null));
      DataOfAppend(ap, [ptr]);
      DataOfAppend(ap + [ptr], b);
      DataOfOne(ptr);
      if wasLast {
        lastNode := prev;
      }
      prev.next := ptr.next;
      ptr.next := null;
      spine := ap + b;
      LinksOne(prev, Head(b, null));
      LinksAppend(a, [prev], Head(b, null));
      LinksAppend(ap, b, null);
      DataUntouched(ap);
      DataUntouched(b);
      DataOfAppend(ap, b);
    }

    /** The node in front of one that is not the first, if that one is in the list. */
    method Before(current: Node) returns (prev: Node?, ghost i: nat)
      requires Valid() && current != firstNode
      ensures prev == null ==> current !in spine
      ensures prev != null ==> i + 1 < |spine| && prev == spine[i] && current == spine[i + 1]
    {
      prev := firstNode;
      i := 0;
      while prev != null && prev.next != current
        invariant i <= |spine| && prev == NodeAt(spine, i)
        invariant forall j :: 0 <= j <= i && j < |spine| ==> spine[j] != current
        decreases |spine| - i
      {
        prev := prev.next;
        i := i + 1;
      }
    }

    /** A node of the list has one position. */
    lemma OnlyAt(k: nat)
      requires Valid() && k < |spine|
      ensures IndexOf(spine[k]) == k
    {
    }

    /** The last node is the one that has no next. */
    lemma LastHasNoNext(k: nat)
      requires Valid() && k < |spine|
      ensures spine[k].next == null <==> spine[k] == lastNode
    {
    }

    /** Removes the element at an iterator, the last one for the end; a node of no list is left alone. */
    method RemoveNode(pos: Node?)
      requires Valid()
      modifies this, spine
      ensures Valid()
      ensures pos == null && old(spine) != [] ==> Contents() == RemoveAt(old(Contents()), |old(spine)| - 1)
      ensures pos != null && pos in old(spine) ==> Contents() == RemoveAt(old(Contents()), old(IndexOf(pos)))
      ensures (pos == null && old(spine) == []) || (pos != null && pos !in old(spine)) ==> Contents() == old(Contents())
      ensures forall n :: n in spine ==> n in old(spine)
    {
      hide Distinct, DataOf, Links;
      var current := pos;
      if current == null {
        current := lastNode;
      }
      if current == null {
        return;
      }
      if pos == null {
        OnlyAt(|spine| - 1);
      }
      if current == firstNode {
        OnlyAt(0);
        Behead();
        if firstNode == null {
          lastNode := null;
        }
      } else {
        var prev, i := Before(current);
        if prev == null {
          return;
        }
        LastHasNoNext(i + 1);
        OnlyAt(i + 1);
        Splice(prev, current, current.next == null, i);
      }
    }

    method Clear()
      requires Valid()
      modifies this
      ensures Valid() && Contents() == [] && spine == []
    {
      firstNode, lastNode, spine := null, null, [];
    }

    /** Steps an iterator from the beginning to the end. */
    method Walk() returns (strings: seq<string>)
      requires Valid()
      ensures strings == Contents()
    {
      strings := [];
      var current := firstNode;
      while current != null
        invariant |strings| <= |spine| && current == NodeAt(spine, |strings|)
        invariant forall i :: 0 <= i < |strings| ==> strings[i] == spine[i].data
        decreases |spine| - |strings|
      {
        strings := strings + [current.data];
        current := current.next;
      }
    }
  }

  // ---------------------------------------------------------------- any mix of operations

  /** An operation; `None` for a position is the end iterator. */
  datatype Edit =
    | Append(str: string)
    | Prepend(str: string)
    | Insert(idx: nat, str: string)
    | InsertAfter(at: Position, str: string)
    | Remove(idx: nat)
    | RemoveAtPosition(at: Position)
    | Clear

  datatype Position = End | Element(idx: nat)

  /** What an operation does to the sequence of strings. */
  function Apply(s: seq<string>, e: Edit): seq<string> {
    match e
    case Append(str) => s + [str]
    case Prepend(str) => [str] + s
    case Insert(idx, str) => InsertAt(s, idx, str)
    case InsertAfter(at, str) =>
      if at.Element? && at.idx < |s| then InsertAt(s, at.idx + 1, str) else s + [str]
    case Remove(idx) => RemoveAt(s, idx)
    case RemoveAtPosition(at) =>
      if at.Element? && at.idx < |s| then RemoveAt(s, at.idx)
      else if s == [] then [] else RemoveAt(s, |s| - 1)
    case Clear => []
  }

  function ApplyAll(s: seq<string>, edits: seq<Edit>): seq<string> {
    if edits == [] then s else Apply(ApplyAll(s, edits[..|edits| - 1]), edits[|edits| - 1])
  }

  /** An iterator for a position; one behind the elements is the end. */
  method IteratorAt(list: List, at: Position) returns (it: Node?)
    requires list.Valid()
    ensures it == if at.Element? then NodeAt(list.spine, at.idx) else null
  {
    if at.Element? {
      it := list.Index(at.idx);
    } else {
      it := null;
    }
  }

  method Perform(list: List, e: Edit)
    requires list.Valid()
    modifies list, list.spine
    ensures list.Valid() && list.Contents() == Apply(old(list.Contents()), e)
    ensures forall n :: n in list.spine ==> n in old(list.spine) || fresh(n)
  {
    hide Links, DataOf, RemoveAt;
    ghost var s := list.Contents();
    match e
    case Append(str) =>
      var _ := list.Append(str);
    case Prepend(str) =>
      var _ := list.Prepend(str);
    case Insert(idx, str) =>
      var _ := list.Insert(idx, str);
    case InsertAfter(at, str) =>
      var pos := IteratorAt(list, at);
      if pos != null {
        list.OnlyAt(at.idx);
      }
      var _ := list.InsertAfter(pos, str);
    case Remove(idx) =>
      list.Remove(idx);
      RemoveShrinks(old(list.spine), idx);
    case RemoveAtPosition(at) =>
      var pos := IteratorAt(list, at);
      if pos != null {
        list.OnlyAt(at.idx);
      }
      list.RemoveNode(pos);
    case Clear =>
      list.Clear();
  }

  lemma RemoveShrinks<T>(s: seq<T>, idx: nat)
    ensures forall x :: x in RemoveAt(s, idx) ==> x in s
  {
  }

  /** Whatever mix of operations is performed, the list reads as the sequence they make. */
  method Replay(edits: seq<Edit>) returns (strings: seq<string>)
    ensures strings == ApplyAll([], edits)
  {
    hide Apply, Links, DataOf;
    var list := new List();
    for i := 0 to |edits|
      invariant fresh(list) && list.Valid() && list.Contents() == ApplyAll([], edits[..i])
      invariant forall k :: 0 <= k < |list.spine| ==> fresh(list.spine[k])
    {
      assert edits[..i + 1][..i] == edits[..i];
      Perform(list, edits[i]);
      forall k | 0 <= k < |list.spine| ensures fresh(list.spine[k]) {
        assert list.spine[k] in list.spine;
      }
    }
    assert edits[..|edits|] == edits;
    strings := list.Walk();
  }
}
