/** Circular doubly linked lists whose links live inside the listed objects. */
module IntrusiveList {

  class Node {
    var prev: Node
    var next: Node
    var head: Node  // the list head this node is linked under
    var count: nat  // maintained in list heads

    constructor ()
      ensures IsList(this, [])
    {
      prev, next, head, count := this, this, this, 0;
    }
  }

  /** The list head followed by the elements. */
  ghost function Ring(list: Node, s: seq<Node>): seq<Node> {
    [list] + s
  }

  ghost function Nodes(list: Node, s: seq<Node>): set<Node> {
    {list} + set x | x in s
  }

  /** list is the head of a circular list whose elements are s, in order. */
  ghost predicate IsList(list: Node, s: seq<Node>)
    reads Nodes(list, s)
  {
    var r := Ring(list, s);
    && (forall i, j :: 0 <= i < j < |r| ==> r[i] != r[j])
    && (forall i :: 0 <= i < |r| - 1 ==> r[i].next == r[i + 1] && r[i + 1].prev == r[i])
    && r[|r| - 1].next == list && list.prev == r[|r| - 1]
    && (forall i :: 0 <= i < |r| ==> r[i].head == list)
    && list.count == |s|
  }

  /** The same ring has only one reading as a sequence. */
  lemma {:induction false} ContentsUnique(list: Node, s: seq<Node>, t: seq<Node>, n: nat)
    requires IsList(list, s) && IsList(list, t) && n <= |s|
    ensures |s| == |t| && s[..n] == t[..n]
  {
    if n > 0 {
      ContentsUnique(list, s, t, n - 1);
      assert Ring(list, s)[n - 1] == Ring(list, t)[n - 1];
      assert Ring(list, s)[n] == s[n - 1] && Ring(list, t)[n] == t[n - 1];
    }
  }

  method ListInit(list: Node)
    modifies list
    ensures IsList(list, [])
  {
    list.prev, list.next, list.head, list.count := list, list, list, 0;
  }

  method ListAddHead(list: Node, node: Node, ghost s: seq<Node>)
    requires IsList(list, s) && node !in Nodes(list, s)
    modifies list, node, list.next
    ensures IsList(list, [node] + s)
  {
    ghost var r, r' := Ring(list, s), Ring(list, [node] + s);
    assert r[0] == list && (s != [] ==> r[0].next == r[1]);
    node.next := list.next;
    node.prev := list;
    node.head := list;
    list.next.prev := node;
    list.next := node;
    list.count := list.count + 1;
    assert r'[0] == list && r'[1] == node && forall i :: 1 <= i < |r| ==> r'[i + 1] == r[i];
    assert forall i :: 2 <= i < |r'| ==> r'[i] == r[i - 1];
  }

  method ListAddTail(list: Node, node: Node, ghost s: seq<Node>)
    requires IsList(list, s) && node !in Nodes(list, s)
    modifies list, node, list.prev
    ensures IsList(list, s + [node])
  {
    ghost var r := Ring(list, s);
    RingWith(list, s, node);
    assert list.prev == r[|r| - 1];
    node.prev := list.prev;
    node.next := list;
    node.head := list;
    list.prev.next := node;
    list.prev := node;
    list.count := list.count + 1;
  }

  lemma RingWith(list: Node, s: seq<Node>, node: Node)
    requires IsList(list, s) && node !in Nodes(list, s)
    ensures Ring(list, s + [node]) == Ring(list, s) + [node] && node !in Ring(list, s)
  {
  }

  predicate ListIsLast(list: Node, node: Node)
    reads node
  {
    node.next == list
  }

  predicate ListEmpty(list: Node)
    reads list
  {
    list.next == list
  }

  lemma LastAndEmpty(list: Node, s: seq<Node>)
    requires IsList(list, s)
    ensures ListEmpty(list) <==> s == []
    ensures forall i :: 0 <= i < |s| ==> (ListIsLast(list, s[i]) <==> i == |s| - 1)
  {
    var r := Ring(list, s);
    assert r[0] == list;
    if s != [] {
      assert r[0].next == r[1];
    }
    forall i | 0 <= i < |s|
      ensures ListIsLast(list, s[i]) <==> i == |s| - 1
    {
      assert s[i] == r[i + 1];
      if i < |s| - 1 {
        assert r[i + 1].next == r[i + 2] != r[0];
      }
    }
  }

  /** The sequence without its i-th element. */
  function Without<T>(s: seq<T>, i: nat): seq<T>
    requires i < |s|
  {
    s[..i] + s[i + 1..]
  }

  method ListDel(node: Node, ghost list: Node, ghost s: seq<Node>, ghost i: nat)
    requires IsList(list, s) && i < |s| && s[i] == node
    modifies node, node.prev, node.next, list`count
    ensures IsList(list, Without(s, i))
    ensures IsList(node, [])
  {
    Unlink(node, list, s, i);
    ListInit(node);
  }

  /** Deletion up to the point where the node is made a list of its own. */
  method Unlink(node: Node, ghost list: Node, ghost s: seq<Node>, ghost i: nat)
    requires IsList(list, s) && i < |s| && s[i] == node
    modifies node.prev, node.next, list`count
    ensures IsList(list, Without(s, i)) && node !in Nodes(list, Without(s, i))
  {
    ghost var r, r' := Ring(list, s), Ring(list, Without(s, i));
    RingWithout(list, s, i);
    assert r[i].next == r[i + 1] && r[i + 1].prev == r[i];
    assert i + 2 < |r| ==> r[i + 1].next == r[i + 2] && r[i + 2].prev == r[i + 1];
    node.prev.next := node.next;
    node.next.prev := node.prev;
    node.head.count := node.head.count - 1;
    forall k | 0 <= k < |r'|
      ensures r'[k].head == list
      ensures k < |r'| - 1 ==> r'[k].next == r'[k + 1] && r'[k + 1].prev == r'[k]
    {
      var m := if k <= i then k else k + 1;
      assert r'[k] == r[m] && r[m] != node;
      assert k < |r'| - 1 ==> r[m].next == if k == i then r[m + 2] else r[m + 1];
    }
  }

  /** The ring without an element, position by position. */
  lemma RingWithout(list: Node, s: seq<Node>, i: nat)
    requires IsList(list, s) && i < |s|
    ensures var r, r' := Ring(list, s), Ring(list, Without(s, i));
            && |r'| == |r| - 1 && r[i + 1] == s[i] && s[i] !in Nodes(list, Without(s, i))
            && (forall k :: 0 <= k < |r'| ==> r'[k] == if k <= i then r[k] else r[k + 1])
            && (forall a, b :: 0 <= a < b < |r'| ==> r'[a] != r'[b])
  {
    var r, r' := Ring(list, s), Ring(list, Without(s, i));
    assert forall k :: 0 <= k < |r'| ==> r'[k] == if k <= i then r[k] else r[k + 1];
    assert forall x :: x in Nodes(list, Without(s, i)) ==> x in r';
    forall a, b | 0 <= a < b < |r'|
      ensures r'[a] != r'[b]
    {
      assert r[if a <= i then a else a + 1] != r[if b <= i then b else b + 1];
    }
    forall k | 0 <= k < |r'|
      ensures r'[k] != r[i + 1]
    {
      assert k <= i ==> r[k] != r[i + 1];
      assert k > i ==> r[i + 1] != r[k + 1];
    }
  }

  /** The elements that are not in the set, in order. */
  function Kept(s: seq<Node>, kill: set<Node>): seq<Node> {
    if s == [] then []
    else Kept(s[..|s| - 1], kill) + (if s[|s| - 1] in kill then [] else [s[|s| - 1]])
  }

  /** Exactly the others are kept. */
  lemma {:induction false} KeptAreTheOthers(s: seq<Node>, kill: set<Node>, x: Node)
    ensures x in Kept(s, kill) <==> x in s && x !in kill
  {
    if s != [] {
      KeptAreTheOthers(s[..|s| - 1], kill, x);
      assert s == s[..|s| - 1] + [s[|s| - 1]];
    }
  }

  /** In the order they had, each by itself. */
  lemma {:induction false} KeptOfConcat(s: seq<Node>, t: seq<Node>, kill: set<Node>)
    ensures Kept(s + t, kill) == Kept(s, kill) + Kept(t, kill)
  {
    if t == [] {
      assert s + t == s;
    } else {
      var n := |t| - 1;
      assert (s + t)[..|s + t| - 1] == s + t[..n] && (s + t)[|s + t| - 1] == t[n];
      KeptOfConcat(s, t[..n], kill);
    }
  }

  /** The elements are distinct from each other and from the head. */
  lemma ElementsDistinct(list: Node, s: seq<Node>)
    requires IsList(list, s)
    ensures list !in s
    ensures forall i, j :: 0 <= i < j < |s| ==> s[i] != s[j]
  {
    var r := Ring(list, s);
    assert forall i :: 0 <= i < |s| ==> s[i] == r[i + 1] && r[0] != r[i + 1];
  }

  /** Reading a list around its k-th element, counting the head as the zeroth. */
  lemma LinkAt(list: Node, s: seq<Node>, k: nat)
    requires IsList(list, s) && k <= |s|
    ensures var x := if k == 0 then list else s[k - 1];
            && x.next == At(list, s, k)
            && x.prev == (if k == 0 then (if s == [] then list else s[|s| - 1])
                          else if k == 1 then list else s[k - 2])
  {
    var r := Ring(list, s);
    assert r[k] == if k == 0 then list else s[k - 1];
    if k < |s| {
      assert r[k].next == r[k + 1];
    }
    if k > 0 {
      assert r[k].prev == r[k - 1];
    }
  }

  /** The element at the iterator's position, or the list head at the end. */
  ghost function At(list: Node, s: seq<Node>, k: nat): Node {
    if k < |s| then s[k] else list
  }

  /** Before visiting the k-th of the remaining elements: visited ones are kept in front or deleted. */
  ghost predicate Iterating(list: Node, s: seq<Node>, now: seq<Node>, k: nat, visited: seq<Node>, kill: set<Node>)
  {
    && k <= |now| && visited + now[k..] == s && now[..k] == Kept(visited, kill)
    && (forall x :: x in now ==> x in s)
    && (forall x :: x in visited && x in kill ==> x !in Nodes(list, now))
  }

  lemma IteratingStep(list: Node, s: seq<Node>, now: seq<Node>, k: nat, visited: seq<Node>, kill: set<Node>)
    requires Iterating(list, s, now, k, visited, kill) && k < |now|
    requires forall i, j :: 0 <= i < j < |now| ==> now[i] != now[j]
    requires list !in now
    ensures now[k] in s
    ensures if now[k] in kill then Iterating(list, s, Without(now, k), k, visited + [now[k]], kill)
            else Iterating(list, s, now, k + 1, visited + [now[k]], kill)
  {
    hide Kept;
    var x := now[k];
    KeptNext(visited, x, kill);
    assert now[k..] == [x] + now[k + 1..];
    if x in kill {
      assert Without(now, k)[k..] == now[k + 1..] && Without(now, k)[..k] == now[..k];
    } else {
      assert now[..k + 1] == now[..k] + [x];
    }
  }

  lemma KeptNext(s: seq<Node>, x: Node, kill: set<Node>)
    ensures Kept(s + [x], kill) == Kept(s, kill) + if x in kill then [] else [x]
  {
    assert (s + [x])[..|s|] == s;
  }

  /** Nodes taken off the list: each is alone again. */
  ghost predicate Detached(gone: set<Node>, list: Node, s: seq<Node>)
    reads gone
  {
    forall x :: x in gone ==> IsList(x, []) && x !in Nodes(list, s)
  }

  /** Deleting the iterator's current element touches only nodes of the list. */
  method RemoveCurrent(list: Node, pos: Node, ghost now: seq<Node>, ghost k: nat, ghost gone: set<Node>)
    requires IsList(list, now) && k < |now| && now[k] == pos && Detached(gone, list, now)
    modifies Nodes(list, now)
    ensures IsList(list, Without(now, k)) && Detached(gone + {pos}, list, Without(now, k))
  {
    LinkAt(list, now, k + 1);
    ElementsDistinct(list, now);
    assert pos.prev in Nodes(list, now) && pos.next in Nodes(list, now);
    ListDel(pos, list, now, k);
  }

  /** The safe iterator over a list whose visited elements may be deleted on the way. */
  method ForEachSafe(list: Node, kill: set<Node>, ghost s: seq<Node>) returns (visited: seq<Node>)
    requires IsList(list, s)
    modifies Nodes(list, s)
    ensures visited == s
    ensures IsList(list, Kept(s, kill))
    ensures forall x :: x in s && x in kill ==> IsList(x, [])
  {
    hide IsList, Kept;
    visited := [];
    ghost var now, k, gone := s, 0, {};
    IteratingStart(list, s, kill);
    LinkAt(list, now, 0);
    var pos := list.next;
    if 0 < |now| {
      LinkAt(list, now, 1);
    }
    var tmp := pos.next;
    while pos != list
      invariant IsList(list, now) && Iterating(list, s, now, k, visited, kill)
      invariant pos == At(list, now, k) && (k < |now| ==> tmp == At(list, now, k + 1))
      invariant Detached(gone, list, now) && forall x :: x in visited && x in kill ==> x in gone
      decreases |s| - |visited|
    {
      ElementsDistinct(list, now);
      IteratingStep(list, s, now, k, visited, kill);
      LinkAt(list, now, k + 1);
      visited := visited + [pos];
      if pos in kill {
        RemoveCurrent(list, pos, now, k, gone);
        now, gone := Without(now, k), gone + {pos};
      } else {
        k := k + 1;
      }
      pos := tmp;
      if k < |now| {
        LinkAt(list, now, k + 1);
      }
      tmp := tmp.next;
    }
    ElementsDistinct(list, now);
    assert now[..k] == now && visited + now[k..] == visited;
  }

  lemma IteratingStart(list: Node, s: seq<Node>, kill: set<Node>)
    ensures Iterating(list, s, s, 0, [], kill)
  {
    assert [] + s[0..] == s;
  }
}
