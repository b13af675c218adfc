/**
 The delivery arena: a doubly linked list kept in a growing vector, with
 tombstones, and the plain sequence of delivery keys it stands for.
 */
module Arena {
  import opened Prelude

  /** Stable identity of an original (occurrence zero) or synthesized delivery. */
  datatype DeliveryKey = DeliveryKey(source: nat, occurrence: nat)

  datatype PlannedAction =
    | Drop(target: DeliveryKey)
    | Duplicate(target: DeliveryKey, firstOccurrence: nat, copies: nat)
    | MoveBefore(target: DeliveryKey, anchor: DeliveryKey)

  // ------------------------------------------------ reference semantics

  predicate Distinct<T(==)>(s: seq<T>) {
    forall i, j :: 0 <= i < j < |s| ==> s[i] != s[j]
  }

  /** The first place of `x`, or the length when it is absent. */
  function IndexOf<T(==)>(s: seq<T>, x: T): (i: nat)
    ensures i <= |s| && (i < |s| <==> x in s)
    ensures i < |s| ==> s[i] == x
  {
    if s == [] then 0 else if s[0] == x then 0 else 1 + IndexOf(s[1..], x)
  }

  /** The sequence without its entry at place `p`. */
  function RemoveAt<T>(s: seq<T>, p: nat): (r: seq<T>)
    requires p < |s|
    ensures |r| == |s| - 1
  {
    seq(|s| - 1, j requires 0 <= j < |s| - 1 => if j < p then s[j] else s[j + 1])
  }

  /** The sequence with `t` placed so that it becomes the entry at place `q`. */
  function InsertAt<T>(s: seq<T>, q: nat, t: T): (r: seq<T>)
    requires q <= |s|
    ensures |r| == |s| + 1
  {
    seq(|s| + 1, j requires 0 <= j <= |s| => if j < q then s[j] else if j == q then t else s[j - 1])
  }

  lemma AppendIsInsert<T>(s: seq<T>, t: T)
    ensures InsertAt(s, |s|, t) == s + [t]
  {
  }

  /** Consecutive occurrences `[first, first + copies)` of one source. */
  function Block(source: nat, first: nat, copies: nat): (b: seq<DeliveryKey>)
    ensures |b| == copies && forall i :: 0 <= i < copies ==> b[i] == DeliveryKey(source, first + i)
  {
    seq(copies, i requires 0 <= i < copies => DeliveryKey(source, first + i))
  }

  function Removed(keys: seq<DeliveryKey>, k: DeliveryKey): seq<DeliveryKey>
    requires k in keys
  {
    RemoveAt(keys, IndexOf(keys, k))
  }

  /** The block right behind place `p`. */
  function SplicedAt(keys: seq<DeliveryKey>, p: nat, block: seq<DeliveryKey>): seq<DeliveryKey>
    requires p < |keys|
  {
    keys[..p + 1] + block + keys[p + 1..]
  }

  function SplicedAfter(keys: seq<DeliveryKey>, k: DeliveryKey, block: seq<DeliveryKey>): seq<DeliveryKey>
    requires k in keys
  {
    SplicedAt(keys, IndexOf(keys, k), block)
  }

  /** Remove the target, then put it back immediately before the anchor. */
  function MovedBefore(keys: seq<DeliveryKey>, target: DeliveryKey, anchor: DeliveryKey): seq<DeliveryKey>
    requires target in keys
  {
    var rest := Removed(keys, target);
    InsertAt(rest, IndexOf(rest, anchor), target)
  }

  lemma IndexIsUnique<T>(s: seq<T>, p: nat)
    requires Distinct(s) && p < |s|
    ensures s[p] in s && IndexOf(s, s[p]) == p
  {
    var i := IndexOf(s, s[p]);
    assert s[i] == s[p];
  }

  // ------------------------------------------------------- linked nodes

  datatype Node = Node(key: DeliveryKey, prev: Option<nat>, next: Option<nat>, live: bool)

  /** Marks a place in delivery order; the facts below speak about marked places only. */
  predicate Place(j: int) { true }

  /** Marks an index of the node vector. */
  predicate Slot(i: int) { true }

  function EntryAt(order: seq<nat>, j: int): Option<nat> {
    if 0 <= j < |order| then Some(order[j]) else None
  }

  predicate LinkedAt(node: Node, order: seq<nat>, j: nat) {
    node.live && node.prev == EntryAt(order, j - 1) && node.next == EntryAt(order, j + 1)
  }

  /** No node is listed twice. */
  ghost predicate Unrepeated(order: seq<nat>) {
    forall i, j {:trigger Place(i), Place(j)} :: Place(i) && Place(j) && 0 <= i < j < |order| ==> order[i] != order[j]
  }

  /** The vector's links spell out exactly `order`, in both directions. */
  ghost predicate Linked(nodes: seq<Node>, order: seq<nat>, head: Option<nat>, tail: Option<nat>) {
    && Unrepeated(order)
    && (forall j {:trigger Place(j)} :: Place(j) && 0 <= j < |order| ==>
          order[j] < |nodes| && LinkedAt(nodes[order[j]], order, j))
    && head == EntryAt(order, 0)
    && tail == EntryAt(order, |order| - 1)
  }

  ghost predicate Listed(order: seq<nat>, i: nat) {
    exists j {:trigger Place(j)} :: Place(j) && 0 <= j < |order| && order[j] == i
  }

  /** Every node, live or not, is found under its own key. */
  ghost predicate Indexed(nodes: seq<Node>, positions: map<DeliveryKey, nat>) {
    && (forall k :: k in positions ==> positions[k] < |nodes| && nodes[positions[k]].key == k)
    && (forall i: nat {:trigger Slot(i)} :: Slot(i) && i < |nodes| ==>
          nodes[i].key in positions && positions[nodes[i].key] == i)
  }

  /** The list reaches every live node. */
  ghost predicate Complete(nodes: seq<Node>, order: seq<nat>) {
    forall i: nat {:trigger Slot(i)} :: Slot(i) && i < |nodes| && nodes[i].live ==> Listed(order, i)
  }

  /** Everything the arena promises, as one fact about its parts. */
  ghost predicate Sound(nodes: seq<Node>, positions: map<DeliveryKey, nat>, order: seq<nat>, head: Option<nat>, tail: Option<nat>) {
    Linked(nodes, order, head, tail) && Indexed(nodes, positions) && Complete(nodes, order)
  }

  function KeyOf(nodes: seq<Node>, i: nat): DeliveryKey {
    if i < |nodes| then nodes[i].key else DeliveryKey(0, 0)
  }

  function KeysOf(nodes: seq<Node>, order: seq<nat>): (keys: seq<DeliveryKey>)
    ensures |keys| == |order| && forall j :: 0 <= j < |order| ==> keys[j] == KeyOf(nodes, order[j])
  {
    seq(|order|, j requires 0 <= j < |order| => KeyOf(nodes, order[j]))
  }

  // --------------------------------------------------------- one removal

  function HeadWithout(order: seq<nat>, head: Option<nat>, p: nat): Option<nat> {
    if p == 0 then EntryAt(order, 1) else head
  }

  function TailWithout(order: seq<nat>, tail: Option<nat>, p: nat): Option<nat> {
    if p == |order| - 1 then EntryAt(order, p - 1) else tail
  }

  /** Removing the entry at `p` re-links exactly its two neighbours. */
  ghost predicate Unlinks(nodes: seq<Node>, order: seq<nat>, p: nat, after: seq<Node>)
    requires p < |order|
  {
    var prev, next := EntryAt(order, p - 1), EntryAt(order, p + 1);
    && |after| == |nodes|
    && (forall i: nat {:trigger Slot(i)} :: Slot(i) && i < |nodes| && i != order[p] ==>
          after[i] == nodes[i].(
            prev := if next == Some(i) then prev else nodes[i].prev,
            next := if prev == Some(i) then next else nodes[i].next))
  }

  lemma UnlinkKeepsLinks(nodes: seq<Node>, order: seq<nat>, head: Option<nat>, tail: Option<nat>, p: nat, after: seq<Node>)
    requires Linked(nodes, order, head, tail) && p < |order| && Unlinks(nodes, order, p, after)
    ensures Linked(after, RemoveAt(order, p), HeadWithout(order, head, p), TailWithout(order, tail, p))
  {
    var rest := RemoveAt(order, p);
    RemovedUnrepeated(order, p);
    forall j | Place(j) && 0 <= j < |rest| ensures rest[j] < |after| && LinkedAt(after[rest[j]], rest, j) {
      UnlinkedEntry(nodes, order, head, tail, p, after, j);
    }
    assert Place(0);
  }

  lemma RemovedUnrepeated(order: seq<nat>, p: nat)
    requires Unrepeated(order) && p < |order|
    ensures Unrepeated(RemoveAt(order, p))
  {
    var rest := RemoveAt(order, p);
    forall i, j | Place(i) && Place(j) && 0 <= i < j < |rest| ensures rest[i] != rest[j] {
      assert Place(if i < p then i else i + 1) && Place(if j < p then j else j + 1);
    }
  }

  lemma UnlinkedEntry(nodes: seq<Node>, order: seq<nat>, head: Option<nat>, tail: Option<nat>, p: nat, after: seq<Node>, j: nat)
    requires Linked(nodes, order, head, tail) && p < |order| && Unlinks(nodes, order, p, after) && j < |order| - 1
    ensures RemoveAt(order, p)[j] < |after| && LinkedAt(after[RemoveAt(order, p)[j]], RemoveAt(order, p), j)
  {
    var q := if j < p then j else j + 1;
    assert Place(q) && Place(p) && Slot(order[q]) && Place(p - 1) && Place(p + 1);
  }

  lemma RemovedIsUnlisted(order: seq<nat>, p: nat)
    requires Unrepeated(order) && p < |order|
    ensures !Listed(RemoveAt(order, p), order[p])
    ensures forall i: nat :: Listed(order, i) && i != order[p] ==> Listed(RemoveAt(order, p), i)
  {
    var rest := RemoveAt(order, p);
    if Listed(rest, order[p]) {
      var j :| Place(j) && 0 <= j < |rest| && rest[j] == order[p];
      assert Place(p) && Place(if j < p then j else j + 1);
    }
    forall i: nat | Listed(order, i) && i != order[p] ensures Listed(rest, i) {
      var j :| Place(j) && 0 <= j < |order| && order[j] == i;
      assert Place(if j < p then j else j - 1);
    }
  }

  // ------------------------------------------------------- one insertion

  /** Placing `t` at position `q` re-links exactly its two new neighbours. */
  ghost predicate Inserts(nodes: seq<Node>, order: seq<nat>, q: nat, t: nat, after: seq<Node>)
    requires q <= |order|
  {
    var prev, next := EntryAt(order, q - 1), EntryAt(order, q);
    && |nodes| <= |after| && t < |after|
    && after[t].live && after[t].prev == prev && after[t].next == next
    && (forall i: nat {:trigger Slot(i)} :: Slot(i) && i < |nodes| && i != t ==>
          after[i] == nodes[i].(
            prev := if next == Some(i) then Some(t) else nodes[i].prev,
            next := if prev == Some(i) then Some(t) else nodes[i].next))
  }

  lemma InsertKeepsLinks(nodes: seq<Node>, order: seq<nat>, head: Option<nat>, tail: Option<nat>, q: nat, t: nat, after: seq<Node>)
    requires Linked(nodes, order, head, tail) && q <= |order| && !Listed(order, t)
    requires Inserts(nodes, order, q, t, after)
    ensures Linked(after, InsertAt(order, q, t),
                   if q == 0 then Some(t) else head,
                   if q == |order| then Some(t) else tail)
  {
    var grown := InsertAt(order, q, t);
    InsertedUnrepeated(order, q, t);
    forall j | Place(j) && 0 <= j < |grown| ensures grown[j] < |after| && LinkedAt(after[grown[j]], grown, j) {
      InsertedEntry(nodes, order, head, tail, q, t, after, j);
    }
    if order != [] {
      assert Place(0);
    }
  }

  lemma InsertedUnrepeated(order: seq<nat>, q: nat, t: nat)
    requires Unrepeated(order) && q <= |order| && !Listed(order, t)
    ensures Unrepeated(InsertAt(order, q, t))
  {
    var grown := InsertAt(order, q, t);
    forall i, j | Place(i) && Place(j) && 0 <= i < j < |grown| ensures grown[i] != grown[j] {
      assert Place(i - 1) && Place(j - 1);
    }
  }

  lemma InsertedEntry(nodes: seq<Node>, order: seq<nat>, head: Option<nat>, tail: Option<nat>, q: nat, t: nat, after: seq<Node>, j: nat)
    requires Linked(nodes, order, head, tail) && q <= |order| && !Listed(order, t)
    requires Inserts(nodes, order, q, t, after) && j <= |order|
    ensures |InsertAt(order, q, t)| == |order| + 1
    ensures InsertAt(order, q, t)[j] < |after|
    ensures LinkedAt(after[InsertAt(order, q, t)[j]], InsertAt(order, q, t), j)
  {
    if j != q {
      var p := if j < q then j else j - 1;
      Neighbours(nodes, order, head, tail, p);
      assert Place(p) && Slot(order[p]) && Place(q) && Place(q - 1);
    }
  }

  lemma InsertedIsListed(order: seq<nat>, q: nat, t: nat)
    requires q <= |order|
    ensures Listed(InsertAt(order, q, t), t)
    ensures forall i: nat :: Listed(order, i) ==> Listed(InsertAt(order, q, t), i)
  {
    assert Place(q);
    forall i: nat | Listed(order, i) ensures Listed(InsertAt(order, q, t), i) {
      var j :| Place(j) && 0 <= j < |order| && order[j] == i;
      assert Place(if j < q then j else j + 1);
    }
  }

  // ------------------------------------------------------- link surgery

  function SetNext(nodes: seq<Node>, at: Option<nat>, next: Option<nat>): (r: seq<Node>)
    ensures |r| == |nodes|
  {
    if at.Some? && at.value < |nodes| then nodes[at.value := nodes[at.value].(next := next)] else nodes
  }

  function SetPrev(nodes: seq<Node>, at: Option<nat>, prev: Option<nat>): (r: seq<Node>)
    ensures |r| == |nodes|
  {
    if at.Some? && at.value < |nodes| then nodes[at.value := nodes[at.value].(prev := prev)] else nodes
  }

  /** The vector after the node at `index` has been cut out between its neighbours. */
  function Cut(nodes: seq<Node>, index: nat): (r: seq<Node>)
    requires index < |nodes|
    ensures |r| == |nodes|
  {
    var prev, next := nodes[index].prev, nodes[index].next;
    var bridged := SetPrev(SetNext(nodes, prev, next), next, prev);
    bridged[index := bridged[index].(prev := None, next := None)]
  }

  /** The vector after a fresh live node has been pushed between two neighbours. */
  function Grow(nodes: seq<Node>, prev: Option<nat>, next: Option<nat>, key: DeliveryKey): (r: seq<Node>)
    ensures |r| == |nodes| + 1
  {
    SetPrev(SetNext(nodes + [Node(key, prev, next, true)], prev, Some(|nodes|)), next, Some(|nodes|))
  }

  /** The vector after an unlisted node has been put back before `anchor`. */
  function Attach(nodes: seq<Node>, index: nat, prev: Option<nat>, anchor: nat): (r: seq<Node>)
    requires index < |nodes|
    ensures |r| == |nodes|
  {
    var placed := nodes[index := nodes[index].(prev := prev, next := Some(anchor))];
    SetNext(SetPrev(placed, Some(anchor), Some(index)), prev, Some(index))
  }

  function Bury(nodes: seq<Node>, index: nat): (r: seq<Node>)
    requires index < |nodes|
    ensures |r| == |nodes|
  {
    nodes[index := nodes[index].(live := false)]
  }

  /** Re-linking changes neither the keys nor the tombstones of nodes. */
  ghost predicate SameNodes(before: seq<Node>, after: seq<Node>) {
    && |before| <= |after|
    && (forall i: nat {:trigger Slot(i)} :: Slot(i) && i < |before| ==>
          after[i].key == before[i].key && after[i].live == before[i].live)
  }

  /** What is known about one listed node and its neighbours. */
  lemma Neighbours(nodes: seq<Node>, order: seq<nat>, head: Option<nat>, tail: Option<nat>, p: nat)
    requires Linked(nodes, order, head, tail) && p < |order|
    ensures order[p] < |nodes| && LinkedAt(nodes[order[p]], order, p)
    ensures EntryAt(order, p - 1) != Some(order[p]) && EntryAt(order, p + 1) != Some(order[p])
    ensures EntryAt(order, p - 1).Some? ==>
              EntryAt(order, p - 1) != EntryAt(order, p + 1) && EntryAt(order, p - 1).value < |nodes|
    ensures EntryAt(order, p + 1).Some? ==> EntryAt(order, p + 1).value < |nodes|
  {
    assert Place(p) && Place(p - 1) && Place(p + 1);
  }

  lemma ListedIsLive(nodes: seq<Node>, order: seq<nat>, head: Option<nat>, tail: Option<nat>, p: nat)
    requires Linked(nodes, order, head, tail) && p < |order|
    ensures order[p] < |nodes| && nodes[order[p]].live
  {
    assert Place(p);
  }

  lemma CutUnlinks(nodes: seq<Node>, order: seq<nat>, head: Option<nat>, tail: Option<nat>, p: nat)
    requires Linked(nodes, order, head, tail) && p < |order|
    ensures order[p] < |nodes|
    ensures Unlinks(nodes, order, p, Cut(nodes, order[p])) && SameNodes(nodes, Cut(nodes, order[p]))
  {
    Neighbours(nodes, order, head, tail, p);
  }

  lemma GrowInserts(nodes: seq<Node>, order: seq<nat>, head: Option<nat>, tail: Option<nat>, q: nat, key: DeliveryKey)
    requires Linked(nodes, order, head, tail) && q <= |order|
    ensures var after := Grow(nodes, EntryAt(order, q - 1), EntryAt(order, q), key);
            Inserts(nodes, order, q, |nodes|, after) && SameNodes(nodes, after) && after[|nodes|].key == key
    ensures !Listed(order, |nodes|)
  {
    assert Place(q) && Place(q - 1);
  }

  lemma AttachInserts(nodes: seq<Node>, order: seq<nat>, head: Option<nat>, tail: Option<nat>, q: nat, index: nat)
    requires Linked(nodes, order, head, tail) && q < |order| && index < |nodes| && !Listed(order, index) && nodes[index].live
    ensures var after := Attach(nodes, index, EntryAt(order, q - 1), order[q]);
            Inserts(nodes, order, q, index, after) && SameNodes(nodes, after)
  {
    Neighbours(nodes, order, head, tail, q);
    assert Place(q) && Place(q - 1);
  }

  // ------------------------------------------------- what surgery keeps

  lemma KeysAfterRemove(nodes: seq<Node>, order: seq<nat>, head: Option<nat>, tail: Option<nat>, p: nat, after: seq<Node>)
    requires Linked(nodes, order, head, tail) && p < |order| && SameNodes(nodes, after) && |after| == |nodes|
    ensures KeysOf(after, RemoveAt(order, p)) == RemoveAt(KeysOf(nodes, order), p)
  {
    forall j | 0 <= j < |order| - 1
      ensures KeysOf(after, RemoveAt(order, p))[j] == RemoveAt(KeysOf(nodes, order), p)[j]
    {
      var q := if j < p then j else j + 1;
      assert Place(q) && Slot(order[q]);
    }
  }

  lemma KeysAfterInsert(nodes: seq<Node>, order: seq<nat>, head: Option<nat>, tail: Option<nat>, q: nat, t: nat, after: seq<Node>)
    requires Linked(nodes, order, head, tail) && q <= |order| && SameNodes(nodes, after)
    ensures KeysOf(after, InsertAt(order, q, t)) == InsertAt(KeysOf(nodes, order), q, KeyOf(after, t))
  {
    forall j | 0 <= j <= |order|
      ensures KeysOf(after, InsertAt(order, q, t))[j] == InsertAt(KeysOf(nodes, order), q, KeyOf(after, t))[j]
    {
      if j != q {
        var p := if j < q then j else j - 1;
        assert Place(p) && Slot(order[p]);
      }
    }
  }

  lemma SameNodesIndexed(nodes: seq<Node>, positions: map<DeliveryKey, nat>, after: seq<Node>)
    requires Indexed(nodes, positions) && SameNodes(nodes, after) && |after| == |nodes|
    ensures Indexed(after, positions)
  {
    forall k | k in positions ensures positions[k] < |after| && after[positions[k]].key == k {
      assert Slot(positions[k]);
    }
  }

  lemma GrowIsIndexed(nodes: seq<Node>, positions: map<DeliveryKey, nat>, key: DeliveryKey, after: seq<Node>)
    requires Indexed(nodes, positions) && key !in positions && SameNodes(nodes, after)
    requires |after| == |nodes| + 1 && after[|nodes|].key == key
    ensures Indexed(after, positions[key := |nodes|])
  {
    var grown := positions[key := |nodes|];
    forall k | k in grown ensures grown[k] < |after| && after[grown[k]].key == k {
      assert Slot(grown[k]);
    }
  }

  /** Pushing a fresh key at place `q` inserts exactly that key into the sequence. */
  lemma GrowIsSound(nodes: seq<Node>, positions: map<DeliveryKey, nat>, order: seq<nat>, head: Option<nat>, tail: Option<nat>,
                    q: nat, key: DeliveryKey, prev: Option<nat>, next: Option<nat>, grown: seq<Node>, listed: seq<nat>)
    requires Sound(nodes, positions, order, head, tail) && q <= |order| && key !in positions
    requires prev == EntryAt(order, q - 1) && next == EntryAt(order, q)
    requires grown == Grow(nodes, prev, next, key) && listed == InsertAt(order, q, |nodes|)
    ensures KeysOf(grown, listed) == InsertAt(KeysOf(nodes, order), q, key)
    ensures Sound(grown, positions[key := |nodes|], listed,
                  if prev.None? then Some(|nodes|) else head, if next.None? then Some(|nodes|) else tail)
  {
    GrowInserts(nodes, order, head, tail, q, key);
    GrownIsSound(nodes, positions, order, head, tail, q, key, grown);
  }

  /** The same behind a listed node, in terms of that node's own link. */
  lemma GrowBehind(nodes: seq<Node>, positions: map<DeliveryKey, nat>, order: seq<nat>, head: Option<nat>, tail: Option<nat>,
                   p: nat, key: DeliveryKey, grown: seq<Node>, listed: seq<nat>, last: Option<nat>)
    requires Sound(nodes, positions, order, head, tail) && p < |order| && key !in positions && order[p] < |nodes|
    requires grown == Grow(nodes, Some(order[p]), nodes[order[p]].next, key) && listed == InsertAt(order, p + 1, |nodes|)
    requires last == if nodes[order[p]].next.Some? then tail else Some(|nodes|)
    ensures nodes[order[p]].next.Some? ==> nodes[order[p]].next.value < |nodes|
    ensures Sound(grown, positions[key := |nodes|], listed, head, last)
    ensures KeysOf(grown, listed) == InsertAt(KeysOf(nodes, order), p + 1, key)
  {
    Neighbours(nodes, order, head, tail, p);
    GrowIsSound(nodes, positions, order, head, tail, p + 1, key, Some(order[p]), nodes[order[p]].next, grown, listed);
  }

  lemma GrownIsSound(nodes: seq<Node>, positions: map<DeliveryKey, nat>, order: seq<nat>, head: Option<nat>, tail: Option<nat>,
                     q: nat, key: DeliveryKey, after: seq<Node>)
    requires Sound(nodes, positions, order, head, tail) && q <= |order| && key !in positions
    requires Inserts(nodes, order, q, |nodes|, after) && SameNodes(nodes, after) && !Listed(order, |nodes|)
    requires |after| == |nodes| + 1 && after[|nodes|].key == key
    ensures KeysOf(after, InsertAt(order, q, |nodes|)) == InsertAt(KeysOf(nodes, order), q, key)
    ensures Sound(after, positions[key := |nodes|], InsertAt(order, q, |nodes|),
                  if q == 0 then Some(|nodes|) else head, if q == |order| then Some(|nodes|) else tail)
  {
    InsertKeepsLinks(nodes, order, head, tail, q, |nodes|, after);
    KeysAfterInsert(nodes, order, head, tail, q, |nodes|, after);
    GrowIsIndexed(nodes, positions, key, after);
    GrowIsComplete(nodes, order, q, after);
  }

  lemma GrowIsComplete(nodes: seq<Node>, order: seq<nat>, q: nat, after: seq<Node>)
    requires Complete(nodes, order) && q <= |order| && SameNodes(nodes, after) && |after| == |nodes| + 1
    ensures Complete(after, InsertAt(order, q, |nodes|))
  {
    InsertedIsListed(order, q, |nodes|);
  }

  /** Every live node except `hole` is listed, and `hole` is a live node that is not. */
  ghost predicate ListedBut(nodes: seq<Node>, order: seq<nat>, hole: nat) {
    && (forall i: nat {:trigger Slot(i)} :: Slot(i) && i < |nodes| && nodes[i].live && i != hole ==> Listed(order, i))
    && hole < |nodes| && nodes[hole].live && !Listed(order, hole)
  }

  /** Cutting a node out of the list leaves the rest linked, indexed and listed. */
  lemma CutIsSound(nodes: seq<Node>, positions: map<DeliveryKey, nat>, order: seq<nat>, head: Option<nat>, tail: Option<nat>, p: nat)
    requires Sound(nodes, positions, order, head, tail) && p < |order|
    ensures order[p] < |nodes|
    ensures Linked(Cut(nodes, order[p]), RemoveAt(order, p), HeadWithout(order, head, p), TailWithout(order, tail, p))
    ensures Indexed(Cut(nodes, order[p]), positions)
    ensures ListedBut(Cut(nodes, order[p]), RemoveAt(order, p), order[p])
    ensures KeysOf(Cut(nodes, order[p]), RemoveAt(order, p)) == RemoveAt(KeysOf(nodes, order), p)
    ensures KeyOf(Cut(nodes, order[p]), order[p]) == KeyOf(nodes, order[p])
  {
    Neighbours(nodes, order, head, tail, p);
    var cut := Cut(nodes, order[p]);
    CutUnlinks(nodes, order, head, tail, p);
    UnlinkKeepsLinks(nodes, order, head, tail, p, cut);
    KeysAfterRemove(nodes, order, head, tail, p, cut);
    SameNodesIndexed(nodes, positions, cut);
    RemovedIsUnlisted(order, p);
    assert Slot(order[p]);
  }

  /** Cutting out and burying the node of a live key removes exactly that key. */
  lemma DropIsSound(nodes: seq<Node>, positions: map<DeliveryKey, nat>, order: seq<nat>, head: Option<nat>, tail: Option<nat>, p: nat)
    requires Sound(nodes, positions, order, head, tail) && p < |order|
    ensures order[p] < |nodes|
    ensures KeysOf(Bury(Cut(nodes, order[p]), order[p]), RemoveAt(order, p)) == RemoveAt(KeysOf(nodes, order), p)
    ensures Sound(Bury(Cut(nodes, order[p]), order[p]), positions, RemoveAt(order, p),
                  HeadWithout(order, head, p), TailWithout(order, tail, p))
  {
    CutIsSound(nodes, positions, order, head, tail, p);
    BuryIsSound(Cut(nodes, order[p]), positions, RemoveAt(order, p),
                HeadWithout(order, head, p), TailWithout(order, tail, p), order[p]);
  }

  lemma BuryIsSound(nodes: seq<Node>, positions: map<DeliveryKey, nat>, order: seq<nat>, head: Option<nat>, tail: Option<nat>, index: nat)
    requires Linked(nodes, order, head, tail) && Indexed(nodes, positions) && ListedBut(nodes, order, index)
    ensures Sound(Bury(nodes, index), positions, order, head, tail)
    ensures KeysOf(Bury(nodes, index), order) == KeysOf(nodes, order)
  {
    var after := Bury(nodes, index);
    forall j | Place(j) && 0 <= j < |order| ensures order[j] < |after| && LinkedAt(after[order[j]], order, j) {
      assert order[j] != index;
    }
  }

  /** Cutting out a node and attaching it before another moves exactly its key. */
  lemma MoveIsSound(nodes: seq<Node>, positions: map<DeliveryKey, nat>, order: seq<nat>, head: Option<nat>, tail: Option<nat>, p: nat, q: nat)
    requires Sound(nodes, positions, order, head, tail) && p < |order| && q < |order| - 1
    ensures order[p] < |nodes| && |RemoveAt(order, p)| == |order| - 1
    ensures var t := order[p];
            var rest := RemoveAt(order, p);
            var after := Attach(Cut(nodes, t), t, EntryAt(rest, q - 1), rest[q]);
            && Sound(after, positions, InsertAt(rest, q, t),
                     if q == 0 then Some(t) else HeadWithout(order, head, p), TailWithout(order, tail, p))
            && KeysOf(after, InsertAt(rest, q, t))
               == InsertAt(RemoveAt(KeysOf(nodes, order), p), q, KeyOf(nodes, t))
  {
    var t := order[p];
    CutIsSound(nodes, positions, order, head, tail, p);
    var cut, rest := Cut(nodes, t), RemoveAt(order, p);
    AttachIsSound(cut, positions, rest, HeadWithout(order, head, p), TailWithout(order, tail, p), q, t);
  }

  lemma AttachIsSound(nodes: seq<Node>, positions: map<DeliveryKey, nat>, order: seq<nat>, head: Option<nat>, tail: Option<nat>, q: nat, t: nat)
    requires Linked(nodes, order, head, tail) && Indexed(nodes, positions) && ListedBut(nodes, order, t)
    requires q < |order|
    ensures var after := Attach(nodes, t, EntryAt(order, q - 1), order[q]);
            && Sound(after, positions, InsertAt(order, q, t), if q == 0 then Some(t) else head, tail)
            && KeysOf(after, InsertAt(order, q, t)) == InsertAt(KeysOf(nodes, order), q, KeyOf(nodes, t))
  {
    var after := Attach(nodes, t, EntryAt(order, q - 1), order[q]);
    AttachInserts(nodes, order, head, tail, q, t);
    InsertKeepsLinks(nodes, order, head, tail, q, t, after);
    KeysAfterInsert(nodes, order, head, tail, q, t, after);
    SameNodesIndexed(nodes, positions, after);
    InsertedIsListed(order, q, t);
    assert Slot(t);
  }

  // ------------------------------------------------------- live nodes

  /** The number of live nodes among the first `n`. */
  function LiveCount(nodes: seq<Node>, n: nat): (count: nat)
    requires n <= |nodes|
    ensures count <= n
  {
    if n == 0 then 0 else LiveCount(nodes, n - 1) + (if nodes[n - 1].live then 1 else 0)
  }

  function LiveIndexes(nodes: seq<Node>, n: nat): set<nat>
    requires n <= |nodes|
  {
    set i: nat | i < n && nodes[i].live
  }

  lemma {:induction false} LiveCounted(nodes: seq<Node>, n: nat)
    requires n <= |nodes|
    ensures |LiveIndexes(nodes, n)| == LiveCount(nodes, n)
  {
    if n > 0 {
      LiveCounted(nodes, n - 1);
      var grown := LiveIndexes(nodes, n - 1) + (if nodes[n - 1].live then {n - 1} else {});
      assert LiveIndexes(nodes, n) == grown;
    }
  }

  lemma {:induction false} UnrepeatedSize(order: seq<nat>, n: nat)
    requires Unrepeated(order) && n <= |order|
    ensures |set j | 0 <= j < n :: order[j]| == n
  {
    if n > 0 {
      UnrepeatedSize(order, n - 1);
      var before := set j | 0 <= j < n - 1 :: order[j];
      if order[n - 1] in before {
        var j :| 0 <= j < n - 1 && order[j] == order[n - 1];
        assert Place(j) && Place(n - 1);
      }
      assert (set j | 0 <= j < n :: order[j]) == before + {order[n - 1]};
    }
  }

  /** The list holds exactly as many nodes as are live. */
  lemma LiveCountIsLength(nodes: seq<Node>, positions: map<DeliveryKey, nat>, order: seq<nat>, head: Option<nat>, tail: Option<nat>)
    requires Sound(nodes, positions, order, head, tail)
    ensures |order| == LiveCount(nodes, |nodes|)
  {
    UnrepeatedSize(order, |order|);
    LiveCounted(nodes, |nodes|);
    var listed := set j | 0 <= j < |order| :: order[j];
    forall i: nat ensures i in listed <==> i in LiveIndexes(nodes, |nodes|) {
      assert Slot(i);
      if i in listed {
        var j :| 0 <= j < |order| && order[j] == i;
        assert Place(j);
      }
      if i in LiveIndexes(nodes, |nodes|) {
        assert Listed(order, i);
      }
    }
    assert listed == LiveIndexes(nodes, |nodes|);
  }

  // ------------------------------------------------- keys and their nodes

  /** A key is in the sequence exactly when its node is live, and then at that node's place. */
  lemma LiveIsListed(nodes: seq<Node>, order: seq<nat>, positions: map<DeliveryKey, nat>, head: Option<nat>, tail: Option<nat>, k: DeliveryKey)
    requires Sound(nodes, positions, order, head, tail)
    ensures Distinct(KeysOf(nodes, order))
    ensures k in KeysOf(nodes, order) <==> k in positions && nodes[positions[k]].live
    ensures k in KeysOf(nodes, order) ==> order[IndexOf(KeysOf(nodes, order), k)] == positions[k]
  {
    var keys := KeysOf(nodes, order);
    forall i, j | 0 <= i < j < |keys| ensures keys[i] != keys[j] {
      assert Place(i) && Place(j) && Slot(order[i]) && Slot(order[j]);
    }
    if k in positions && nodes[positions[k]].live {
      assert Slot(positions[k]);
      var j :| Place(j) && 0 <= j < |order| && order[j] == positions[k];
      assert keys[j] == k;
    }
    if k in keys {
      var j := IndexOf(keys, k);
      assert Place(j) && Slot(order[j]);
    }
  }

  // ------------------------------------------------- facts for the moves

  /** The physical deliveries of a prefix, in source order. */
  function Originals(prefixLen: nat): (keys: seq<DeliveryKey>)
    ensures |keys| == prefixLen && forall j :: 0 <= j < prefixLen ==> keys[j] == DeliveryKey(j, 0)
  {
    seq(prefixLen, j requires 0 <= j < prefixLen => DeliveryKey(j, 0))
  }

  function OriginalSet(prefixLen: nat): set<DeliveryKey> {
    set k | k in Originals(prefixLen)
  }

  lemma OriginalsStep(n: nat)
    ensures Originals(n + 1) == Originals(n) + [DeliveryKey(n, 0)]
    ensures DeliveryKey(n, 0) !in OriginalSet(n)
    ensures OriginalSet(n + 1) == OriginalSet(n) + {DeliveryKey(n, 0)}
  {
    assert Originals(n + 1) == Originals(n) + [DeliveryKey(n, 0)];
  }

  /** Every key of the block fits the occurrence namespace and has never been allocated. */
  predicate FreshBlock(taken: set<DeliveryKey>, source: nat, first: nat, copies: nat) {
    copies == 0 ||
    (FreshBlock(taken, source, first, copies - 1) &&
     first + copies - 1 <= U16_MAX && DeliveryKey(source, first + copies - 1) !in taken)
  }

  /** How many copies can be taken before one is out of range or known. */
  function FreshPrefix(taken: set<DeliveryKey>, source: nat, first: nat, copies: nat): (n: nat)
    ensures n <= copies && FreshBlock(taken, source, first, n)
    ensures n == copies <==> FreshBlock(taken, source, first, copies)
    ensures n < copies ==> first + n > U16_MAX || DeliveryKey(source, first + n) in taken
  {
    if copies == 0 then 0 else
      var n := FreshPrefix(taken, source, first, copies - 1);
      if n == copies - 1 && first + n <= U16_MAX && DeliveryKey(source, first + n) !in taken then copies else n
  }

  lemma {:induction false} PrefixStops(taken: set<DeliveryKey>, source: nat, first: nat, n: nat, copies: nat)
    requires n < copies && FreshBlock(taken, source, first, n)
    requires first + n > U16_MAX || DeliveryKey(source, first + n) in taken
    ensures FreshPrefix(taken, source, first, copies) == n
  {
    if copies > n + 1 {
      PrefixStops(taken, source, first, n, copies - 1);
    } else {
      assert FreshPrefix(taken, source, first, n) == n;
    }
  }

  /** What the next copy adds, and whether its key is still free. */
  lemma SpliceNext(before: Listing, p: nat, source: nat, first: nat, n: nat)
    requires p < |before.order|
    ensures var key := DeliveryKey(source, first + n);
            var now := Spliced(before, p, source, first, n);
            && (key in now.taken <==> key in before.taken)
            && (FreshBlock(before.taken, source, first, n) && first + n <= U16_MAX && key !in before.taken ==>
                  FreshBlock(before.taken, source, first, n + 1))
            && Spliced(before, p, source, first, n + 1) == Listing(InsertAt(now.order, p + n + 1, key), now.taken + {key})
  {
    SplicedTaken(before, p, source, first, n, first + n);
  }

  lemma {:induction false} FreshBlockIntro(taken: set<DeliveryKey>, source: nat, first: nat, copies: nat)
    requires first + copies <= U16_MAX + 1
    requires forall o: nat :: first <= o < first + copies ==> DeliveryKey(source, o) !in taken
    ensures FreshBlock(taken, source, first, copies)
    decreases copies
  {
    if copies > 0 {
      FreshBlockIntro(taken, source, first, copies - 1);
    }
  }

  function BlockSet(source: nat, first: nat, copies: nat): set<DeliveryKey> {
    set k | k in Block(source, first, copies)
  }

  /** Live keys in order together with every key ever allocated. */
  datatype Listing = Listing(order: seq<DeliveryKey>, taken: set<DeliveryKey>)

  /** The listing after `n` copies have been inserted one after another behind place `p`. */
  function Spliced(before: Listing, p: nat, source: nat, first: nat, n: nat): (now: Listing)
    requires p < |before.order|
    ensures |now.order| == |before.order| + n
  {
    if n == 0 then before else
      var prior := Spliced(before, p, source, first, n - 1);
      var key := DeliveryKey(source, first + n - 1);
      Listing(InsertAt(prior.order, p + n, key), prior.taken + {key})
  }

  /** Inserting the copies one by one is splicing in one block. */
  lemma {:induction false} SplicedMeans(before: Listing, p: nat, source: nat, first: nat, n: nat)
    requires p < |before.order|
    ensures Spliced(before, p, source, first, n) ==
      Listing(SplicedAt(before.order, p, Block(source, first, n)), before.taken + BlockSet(source, first, n))
  {
    if n == 0 {
      assert SplicedAt(before.order, p, Block(source, first, 0)) == before.order;
      assert before.taken + BlockSet(source, first, 0) == before.taken;
    } else {
      SplicedMeans(before, p, source, first, n - 1);
      BlockStep(source, first, n);
      InsertSplices(before.order, p, Block(source, first, n - 1), DeliveryKey(source, first + n - 1));
      assert before.taken + BlockSet(source, first, n) == before.taken + BlockSet(source, first, n - 1) + {DeliveryKey(source, first + n - 1)};
    }
  }

  lemma BlockStep(source: nat, first: nat, n: nat)
    requires n > 0
    ensures Block(source, first, n) == Block(source, first, n - 1) + [DeliveryKey(source, first + n - 1)]
    ensures BlockSet(source, first, n) == BlockSet(source, first, n - 1) + {DeliveryKey(source, first + n - 1)}
  {
    assert Block(source, first, n) == Block(source, first, n - 1) + [DeliveryKey(source, first + n - 1)];
  }

  /** Inserting right behind a spliced block lengthens the block. */
  lemma InsertSplices(keys: seq<DeliveryKey>, p: nat, block: seq<DeliveryKey>, k: DeliveryKey)
    requires p < |keys|
    ensures |SplicedAt(keys, p, block)| == |keys| + |block|
    ensures InsertAt(SplicedAt(keys, p, block), p + 1 + |block|, k) == SplicedAt(keys, p, block + [k])
  {
  }

  /** Copies taken one by one behind a key are its block spliced in behind it. */
  lemma SplicedIsAfter(before: Listing, target: DeliveryKey, first: nat, n: nat)
    requires target in before.order
    ensures Spliced(before, IndexOf(before.order, target), target.source, first, n) ==
      Listing(SplicedAfter(before.order, target, Block(target.source, first, n)), before.taken + BlockSet(target.source, first, n))
  {
    SplicedMeans(before, IndexOf(before.order, target), target.source, first, n);
  }

  /** A key already spliced in is never offered again. */
  lemma {:induction false} SplicedTaken(before: Listing, p: nat, source: nat, first: nat, n: nat, o: nat)
    requires p < |before.order| && first + n <= o
    ensures DeliveryKey(source, o) in Spliced(before, p, source, first, n).taken <==> DeliveryKey(source, o) in before.taken
  {
    if n > 0 {
      SplicedTaken(before, p, source, first, n - 1, o);
    }
  }

  /** Where the anchor sits once the target has been taken out. */
  lemma PlaceInRest(keys: seq<DeliveryKey>, target: DeliveryKey, anchor: DeliveryKey)
    requires Distinct(keys) && target in keys && anchor in keys && target != anchor
    ensures anchor in Removed(keys, target)
    ensures var p, q := IndexOf(keys, target), IndexOf(keys, anchor);
            IndexOf(Removed(keys, target), anchor) == (if q < p then q else q - 1)
  {
    var p, q := IndexOf(keys, target), IndexOf(keys, anchor);
    var rest := Removed(keys, target);
    RemovedDistinct(keys, p);
    IndexIsUnique(rest, if q < p then q else q - 1);
  }

  lemma RemovedDistinct(keys: seq<DeliveryKey>, p: nat)
    requires Distinct(keys) && p < |keys|
    ensures Distinct(RemoveAt(keys, p))
  {
  }

  /** A key that already stands before its anchor stays where it is. */
  lemma AdjacentStays(keys: seq<DeliveryKey>, target: DeliveryKey, anchor: DeliveryKey)
    requires Distinct(keys) && target in keys && anchor in keys && IndexOf(keys, anchor) == IndexOf(keys, target) + 1
    ensures MovedBefore(keys, target, anchor) == keys
  {
    PlaceInRest(keys, target, anchor);
    PutBack(keys, IndexOf(keys, target));
  }

  lemma PutBack<T>(s: seq<T>, p: nat)
    requires p < |s|
    ensures InsertAt(RemoveAt(s, p), p, s[p]) == s
  {
  }

  /** The places of two live keys, and what their node indexes say about them. */
  lemma PlacesOf(nodes: seq<Node>, order: seq<nat>, positions: map<DeliveryKey, nat>, head: Option<nat>, tail: Option<nat>,
                 target: DeliveryKey, anchor: DeliveryKey)
    requires Sound(nodes, positions, order, head, tail)
    requires target in KeysOf(nodes, order) && anchor in KeysOf(nodes, order)
    ensures var keys := KeysOf(nodes, order);
            var p, q := IndexOf(keys, target), IndexOf(keys, anchor);
            && Distinct(keys)
            && (order[p] == order[q] <==> target == anchor)
            && (EntryAt(order, p + 1) == Some(order[q]) <==> q == p + 1)
            && KeyOf(nodes, order[p]) == target
  {
    var keys := KeysOf(nodes, order);
    var p, q := IndexOf(keys, target), IndexOf(keys, anchor);
    LiveIsListed(nodes, order, positions, head, tail, target);
    assert Place(p) && Place(q) && Place(p + 1);
  }

  /** Once the target is cut out, the anchor and its predecessor are found where its own links say. */
  lemma AnchorAfterCut(nodes: seq<Node>, order: seq<nat>, positions: map<DeliveryKey, nat>, head: Option<nat>, tail: Option<nat>, p: nat, q: nat)
    requires Sound(nodes, positions, order, head, tail) && p < |order| && q < |order| && p != q
    ensures var place := if q < p then q else q - 1;
            var rest := RemoveAt(order, p);
            && order[p] < |nodes| && order[q] < |nodes| && |rest| == |order| - 1
            && rest[place] == order[q] && order[q] != order[p]
            && Cut(nodes, order[p])[order[q]].prev == EntryAt(rest, place - 1)
            && (EntryAt(rest, place - 1).Some? ==>
                  && EntryAt(rest, place - 1).value < |nodes|
                  && EntryAt(rest, place - 1).value != order[q]
                  && EntryAt(rest, place - 1).value != order[p])
  {
    CutIsSound(nodes, positions, order, head, tail, p);
    Neighbours(nodes, order, head, tail, q);
    assert Place(p) && Place(q);
    RemovedIsUnlisted(order, p);
    AnchorInRest(Cut(nodes, order[p]), RemoveAt(order, p), HeadWithout(order, head, p), TailWithout(order, tail, p),
                 if q < p then q else q - 1, order[p]);
  }

  /** A listed node finds its predecessor in its link; a node that is not listed is neither. */
  lemma AnchorInRest(nodes: seq<Node>, order: seq<nat>, head: Option<nat>, tail: Option<nat>, place: nat, hole: nat)
    requires Linked(nodes, order, head, tail) && place < |order| && !Listed(order, hole)
    ensures order[place] < |nodes| && order[place] != hole && nodes[order[place]].prev == EntryAt(order, place - 1)
    ensures EntryAt(order, place - 1).Some? ==>
              && EntryAt(order, place - 1).value < |nodes|
              && EntryAt(order, place - 1).value != order[place]
              && EntryAt(order, place - 1).value != hole
  {
    Neighbours(nodes, order, head, tail, place);
    assert Place(place) && Place(place - 1);
  }

  /** One whole move, as a change of the arena's parts. */
  lemma MoveIsExact(nodes: seq<Node>, order: seq<nat>, positions: map<DeliveryKey, nat>, head: Option<nat>, tail: Option<nat>,
                    target: DeliveryKey, anchor: DeliveryKey, p: nat, q: nat, place: nat, rest: seq<nat>)
    requires Sound(nodes, positions, order, head, tail) && target != anchor
    requires target in KeysOf(nodes, order) && anchor in KeysOf(nodes, order)
    requires p == IndexOf(KeysOf(nodes, order), target) && q == IndexOf(KeysOf(nodes, order), anchor)
    requires p != q && place == (if q < p then q else q - 1) && rest == RemoveAt(order, p)
    ensures order[p] < |nodes| && place <= |rest|
    ensures Sound(Attach(Cut(nodes, order[p]), order[p], EntryAt(rest, place - 1), order[q]), positions,
                  InsertAt(rest, place, order[p]),
                  if place == 0 then Some(order[p]) else HeadWithout(order, head, p), TailWithout(order, tail, p))
    ensures KeysOf(Attach(Cut(nodes, order[p]), order[p], EntryAt(rest, place - 1), order[q]), InsertAt(rest, place, order[p]))
         == MovedBefore(KeysOf(nodes, order), target, anchor)
  {
    PlacesOf(nodes, order, positions, head, tail, target, anchor);
    PlaceInRest(KeysOf(nodes, order), target, anchor);
    AnchorAfterCut(nodes, order, positions, head, tail, p, q);
    MoveIsSound(nodes, positions, order, head, tail, p, place);
  }

  // ------------------------------------------------------------- replay

  /** One planned action on the plain listing, or nothing when the arena would refuse it. */
  function Perform(l: Listing, action: PlannedAction): Option<Listing> {
    match action
    case Drop(target) =>
      if target in l.order then Some(Listing(Removed(l.order, target), l.taken)) else None
    case Duplicate(target, first, copies) =>
      if target in l.order && FreshBlock(l.taken, target.source, first, copies) then
        Some(Listing(SplicedAfter(l.order, target, Block(target.source, first, copies)),
                     l.taken + BlockSet(target.source, first, copies)))
      else None
    case MoveBefore(target, anchor) =>
      if target in l.order && anchor in l.order && target != anchor then
        Some(Listing(MovedBefore(l.order, target, anchor), l.taken))
      else None
  }

  function PerformAll(l: Listing, actions: seq<PlannedAction>): Option<Listing>
    decreases actions
  {
    if actions == [] then Some(l) else
      match Perform(l, actions[0])
      case None => None
      case Some(next) => PerformAll(next, actions[1..])
  }

  function StartListing(prefixLen: nat): Listing {
    Listing(Originals(prefixLen), OriginalSet(prefixLen))
  }

  // --------------------------------------------- contents of the results

  lemma RemovedContents(keys: seq<DeliveryKey>, k: DeliveryKey)
    requires Distinct(keys) && k in keys
    ensures Distinct(Removed(keys, k)) && |Removed(keys, k)| == |keys| - 1
    ensures forall x :: x in Removed(keys, k) <==> x in keys && x != k
  {
    var p := IndexOf(keys, k);
    var rest := Removed(keys, k);
    forall x ensures x in rest <==> x in keys && x != k {
      if x in keys && x != k {
        var q := IndexOf(keys, x);
        assert rest[if q < p then q else q - 1] == x;
      }
      if x in rest {
        var j := IndexOf(rest, x);
        assert x == keys[if j < p then j else j + 1];
      }
    }
  }

  lemma InsertContents(keys: seq<DeliveryKey>, q: nat, k: DeliveryKey)
    requires Distinct(keys) && q <= |keys| && k !in keys
    ensures Distinct(InsertAt(keys, q, k))
    ensures forall x :: x in InsertAt(keys, q, k) <==> x == k || x in keys
  {
    var grown := InsertAt(keys, q, k);
    assert grown[q] == k;
    forall x ensures x in grown <==> x == k || x in keys {
      if x in keys {
        var j := IndexOf(keys, x);
        assert grown[if j < q then j else j + 1] == x;
      }
    }
  }

  lemma MovedContents(keys: seq<DeliveryKey>, target: DeliveryKey, anchor: DeliveryKey)
    requires Distinct(keys) && target in keys && anchor in keys && target != anchor
    ensures Distinct(MovedBefore(keys, target, anchor)) && |MovedBefore(keys, target, anchor)| == |keys|
    ensures forall x :: x in MovedBefore(keys, target, anchor) <==> x in keys
    ensures var moved := MovedBefore(keys, target, anchor);
            IndexOf(moved, anchor) == IndexOf(moved, target) + 1
  {
    RemovedContents(keys, target);
    var rest := Removed(keys, target);
    var q := IndexOf(rest, anchor);
    InsertContents(rest, q, target);
    IndexIsUnique(MovedBefore(keys, target, anchor), q);
    IndexIsUnique(MovedBefore(keys, target, anchor), q + 1);
  }

  lemma SplicedEntries(keys: seq<DeliveryKey>, k: DeliveryKey, block: seq<DeliveryKey>)
    requires k in keys
    ensures var p, n := IndexOf(keys, k) + 1, |block|;
            var r := SplicedAfter(keys, k, block);
            && |r| == |keys| + n
            && forall i :: 0 <= i < |r| ==> r[i] == if i < p then keys[i] else if i < p + n then block[i - p] else keys[i - n]
  {
  }

  lemma SplicedDistinct(keys: seq<DeliveryKey>, k: DeliveryKey, block: seq<DeliveryKey>)
    requires Distinct(keys) && k in keys && Distinct(block)
    requires forall x :: x in block ==> x !in keys
    ensures Distinct(SplicedAfter(keys, k, block))
  {
    var p, n := IndexOf(keys, k) + 1, |block|;
    var r := SplicedAfter(keys, k, block);
    SplicedEntries(keys, k, block);
    forall i, j | 0 <= i < j < |r| ensures r[i] != r[j] {
      assert p <= i < p + n ==> r[i] in block;
      assert p <= j < p + n ==> r[j] in block;
    }
  }

  lemma KeyStays(keys: seq<DeliveryKey>, k: DeliveryKey, block: seq<DeliveryKey>, x: DeliveryKey)
    requires k in keys && x in keys
    ensures x in SplicedAfter(keys, k, block)
  {
    var j := IndexOf(keys, x);
    SplicedEntries(keys, k, block);
    assert SplicedAfter(keys, k, block)[if j <= IndexOf(keys, k) then j else j + |block|] == x;
  }

  lemma CopyEnters(keys: seq<DeliveryKey>, k: DeliveryKey, block: seq<DeliveryKey>, x: DeliveryKey)
    requires k in keys && x in block
    ensures x in SplicedAfter(keys, k, block)
  {
    SplicedEntries(keys, k, block);
    assert SplicedAfter(keys, k, block)[IndexOf(keys, k) + 1 + IndexOf(block, x)] == x;
  }

  lemma SplicedContents(keys: seq<DeliveryKey>, k: DeliveryKey, block: seq<DeliveryKey>)
    requires k in keys
    ensures |SplicedAfter(keys, k, block)| == |keys| + |block|
    ensures forall x :: x in SplicedAfter(keys, k, block) <==> x in keys || x in block
  {
    SplicedEntries(keys, k, block);
    forall x | x in keys ensures x in SplicedAfter(keys, k, block) {
      KeyStays(keys, k, block, x);
    }
    forall x | x in block ensures x in SplicedAfter(keys, k, block) {
      CopyEnters(keys, k, block, x);
    }
  }
}
