/** The mutable arena, proved against the sequence operations in `Arena`. */
module DeliveryArenas {
  import opened Prelude
  import opened Arena
  import opened StreamSpec

  datatype ArenaError = MaterializationInvariant

  /** One stable delivery occurrence in a materialized schedule. */
  datatype ScheduledDelivery = ScheduledDelivery(source: Envelope, streamIndex: nat, occurrence: nat)

  /** Every key names a source of the prefix. */
  predicate InPrefix(keys: seq<DeliveryKey>, prefixLen: nat) {
    forall j :: 0 <= j < |keys| ==> keys[j].source < prefixLen
  }

  /** The deliveries that a key sequence stands for. */
  function Scheduled(keys: seq<DeliveryKey>, sources: seq<Envelope>, sourceStreams: seq<nat>): (ds: seq<ScheduledDelivery>)
    requires InPrefix(keys, |sources|) && InPrefix(keys, |sourceStreams|)
    ensures |ds| == |keys| && forall j :: 0 <= j < |keys| ==>
      ds[j] == ScheduledDelivery(sources[keys[j].source], sourceStreams[keys[j].source], keys[j].occurrence)
  {
    seq(|keys|, j requires 0 <= j < |keys| =>
      ScheduledDelivery(sources[keys[j].source], sourceStreams[keys[j].source], keys[j].occurrence))
  }

  lemma ScheduledGrows(keys: seq<DeliveryKey>, n: nat, sources: seq<Envelope>, sourceStreams: seq<nat>)
    requires n < |keys| && InPrefix(keys[..n], |sources|) && InPrefix(keys[..n], |sourceStreams|)
    requires keys[n].source < |sources| && keys[n].source < |sourceStreams|
    ensures InPrefix(keys[..n + 1], |sources|) && InPrefix(keys[..n + 1], |sourceStreams|)
    ensures Scheduled(keys[..n + 1], sources, sourceStreams) ==
      Scheduled(keys[..n], sources, sourceStreams) +
      [ScheduledDelivery(sources[keys[n].source], sourceStreams[keys[n].source], keys[n].occurrence)]
  {
    assert keys[..n + 1] == keys[..n] + [keys[n]];
  }

  class DeliveryArena {
    var nodes: seq<Node>
    var positions: map<DeliveryKey, nat>
    var head: Option<nat>
    var tail: Option<nat>
    /** Node indexes in delivery order. */
    ghost var order: seq<nat>

    ghost predicate Valid()
      reads this
    {
      Sound(nodes, positions, order, head, tail)
    }

    ghost predicate StandsAt(place: nat, index: nat)
      reads this`order
    {
      place < |order| && order[place] == index
    }

    /** The live deliveries in order. */
    ghost function Keys(): seq<DeliveryKey>
      reads this
    {
      KeysOf(nodes, order)
    }

    /** Every key ever taken, including dropped ones. */
    ghost function Allocated(): set<DeliveryKey>
      reads this
    {
      positions.Keys
    }

    constructor (prefixLen: nat)
      ensures Valid()
      ensures Keys() == Originals(prefixLen)
      ensures Allocated() == OriginalSet(prefixLen)
    {
      nodes := [];
      positions := map[];
      head := None;
      tail := None;
      order := [];
      new;
      for source := 0 to prefixLen
        invariant Valid()
        invariant Keys() == Originals(source)
        invariant Allocated() == OriginalSet(source)
      {
        OriginalsStep(source);
        var r := AppendOriginal(DeliveryKey(source, 0));
      }
    }

    method AppendOriginal(key: DeliveryKey) returns (r: Result<(), ArenaError>)
      requires Valid()
      modifies this
      ensures Valid()
      ensures r.Ok? <==> key !in old(Allocated())
      ensures r.Ok? ==> Keys() == old(Keys()) + [key] && Allocated() == old(Allocated()) + {key}
      ensures r.Err? ==> Keys() == old(Keys()) && Allocated() == old(Allocated())
    {
      if key in positions {
        return Err(MaterializationInvariant);
      }
      ghost var grown, listed := Grow(nodes, tail, None, key), InsertAt(order, |order|, |nodes|);
      ghost var first := if tail.Some? then head else Some(|nodes|);
      GrowIsSound(nodes, positions, order, head, tail, |order|, key, tail, None, grown, listed);
      assert Place(|order| - 1);
      AppendIsInsert(Keys(), key);
      var index := PushLast(key);
      positions := positions[key := index];
      order := InsertAt(order, |order|, index);
      assert nodes == grown && order == listed && head == first;
      return Ok(());
    }

    /** Pushes a node behind the tail. */
    method PushLast(key: DeliveryKey) returns (index: nat)
      requires tail.Some? ==> tail.value < |nodes|
      modifies this`nodes, this`head, this`tail
      ensures index == |old(nodes)| && nodes == Grow(old(nodes), old(tail), None, key)
      ensures head == (if old(tail).Some? then old(head) else Some(index)) && tail == Some(index)
    {
      index := |nodes|;
      nodes := nodes + [Node(key, tail, None, true)];
      if tail.Some? {
        nodes := nodes[tail.value := nodes[tail.value].(next := Some(index))];
      } else {
        head := Some(index);
      }
      tail := Some(index);
    }

    /** The node of a live key, or the invariant error. */
    method ResolveLive(key: DeliveryKey) returns (r: Result<nat, ArenaError>)
      requires Valid()
      ensures r.Ok? <==> key in Keys()
      ensures r.Ok? ==> order[IndexOf(Keys(), key)] == r.value && r.value < |nodes|
    {
      LiveIsListed(nodes, order, positions, head, tail, key);
      if key !in positions {
        return Err(MaterializationInvariant);
      }
      if !nodes[positions[key]].live {
        return Err(MaterializationInvariant);
      }
      return Ok(positions[key]);
    }

    /** Takes the node at place `p` out of the list; it stays in the vector. */
    method Unlink(index: nat, ghost p: nat)
      requires Linked(nodes, order, head, tail) && p < |order| && order[p] == index && index < |nodes|
      modifies this`nodes, this`head, this`tail, this`order
      ensures order == RemoveAt(old(order), p)
      ensures nodes == Cut(old(nodes), index)
      ensures head == HeadWithout(old(order), old(head), p) && tail == TailWithout(old(order), old(tail), p)
    {
      Neighbours(nodes, order, head, tail, p);
      var previous := nodes[index].prev;
      var next := nodes[index].next;
      if previous.Some? {
        nodes := nodes[previous.value := nodes[previous.value].(next := next)];
      } else {
        head := next;
      }
      if next.Some? {
        nodes := nodes[next.value := nodes[next.value].(prev := previous)];
      } else {
        tail := previous;
      }
      nodes := nodes[index := nodes[index].(prev := None, next := None)];
      order := RemoveAt(order, p);
    }

    method DropDelivery(key: DeliveryKey) returns (r: Result<(), ArenaError>)
      requires Valid()
      modifies this
      ensures Valid()
      ensures r.Ok? <==> key in old(Keys())
      ensures r.Ok? ==> Keys() == Removed(old(Keys()), key)
      ensures r.Err? ==> Keys() == old(Keys())
      ensures Allocated() == old(Allocated())
    {
      var found := ResolveLive(key);
      if found.Err? {
        return Err(found.error);
      }
      var index := found.value;
      ghost var p := IndexOf(Keys(), key);
      DropIsSound(nodes, positions, order, head, tail, p);
      Unlink(index, p);
      nodes := nodes[index := nodes[index].(live := false)];
      return Ok(());
    }

    /** Places the copies behind the target, one behind the other; a copy that cannot be taken ends it there. */
    method Duplicate(target: DeliveryKey, firstOccurrence: nat, copies: nat) returns (r: Result<(), ArenaError>)
      requires Valid()
      modifies this
      ensures Valid()
      ensures r.Ok? <==> target in old(Keys()) && FreshBlock(old(Allocated()), target.source, firstOccurrence, copies)
      ensures target !in old(Keys()) ==> Keys() == old(Keys()) && Allocated() == old(Allocated())
      ensures target in old(Keys()) ==>
        var n := FreshPrefix(old(Allocated()), target.source, firstOccurrence, copies);
        && Keys() == SplicedAfter(old(Keys()), target, Block(target.source, firstOccurrence, n))
        && Allocated() == old(Allocated()) + BlockSet(target.source, firstOccurrence, n)
    {
      var found := ResolveLive(target);
      if found.Err? {
        return Err(found.error);
      }
      ghost var p := IndexOf(Keys(), target);
      SplicedIsAfter(Listing(Keys(), Allocated()), target, firstOccurrence,
                     FreshPrefix(Allocated(), target.source, firstOccurrence, copies));
      r := InsertCopies(found.value, p, target.source, firstOccurrence, copies);
    }

    method InsertCopies(anchor: nat, ghost p: nat, source: nat, firstOccurrence: nat, copies: nat)
        returns (r: Result<(), ArenaError>)
      requires Valid() && StandsAt(p, anchor)
      modifies this
      ensures Valid()
      ensures r.Ok? <==> FreshBlock(old(Allocated()), source, firstOccurrence, copies)
      ensures Listing(Keys(), Allocated()) ==
        Spliced(Listing(old(Keys()), old(Allocated())), p, source, firstOccurrence,
                FreshPrefix(old(Allocated()), source, firstOccurrence, copies))
    {
      var cursor := anchor;
      ghost var before := Listing(Keys(), Allocated());
      for offset := 0 to copies
        invariant Valid() && StandsAt(p + offset, cursor)
        invariant Listing(Keys(), Allocated()) == Spliced(before, p, source, firstOccurrence, offset)
        invariant FreshBlock(before.taken, source, firstOccurrence, offset)
      {
        var inserted := InsertCopy(cursor, source, firstOccurrence, offset, p, before);
        if inserted.Err? {
          PrefixStops(before.taken, source, firstOccurrence, offset, copies);
          return Err(MaterializationInvariant);
        }
        cursor := inserted.value;
        assert StandsAt(p + (offset + 1), cursor);
      }
      return Ok(());
    }

    /** Takes one copy, unless its occurrence is out of range or its key is known. */
    method InsertCopy(cursor: nat, source: nat, firstOccurrence: nat, offset: nat, ghost p: nat, ghost before: Listing)
        returns (r: Result<nat, ArenaError>)
      requires Valid() && StandsAt(p + offset, cursor) && p < |before.order|
      requires Listing(Keys(), Allocated()) == Spliced(before, p, source, firstOccurrence, offset)
      requires FreshBlock(before.taken, source, firstOccurrence, offset)
      modifies this
      ensures Valid()
      ensures r.Ok? <==> firstOccurrence + offset <= U16_MAX && DeliveryKey(source, firstOccurrence + offset) !in before.taken
      ensures r.Ok? ==> StandsAt(p + (offset + 1), r.value) && FreshBlock(before.taken, source, firstOccurrence, offset + 1)
      ensures Listing(Keys(), Allocated()) == Spliced(before, p, source, firstOccurrence, if r.Ok? then offset + 1 else offset)
    {
      var key := DeliveryKey(source, firstOccurrence + offset);
      SpliceNext(before, p, source, firstOccurrence, offset);
      if key.occurrence > U16_MAX {
        return Err(MaterializationInvariant);
      }
      if key in positions {
        return Err(MaterializationInvariant);
      }
      r := InsertAfter(cursor, key, p + offset);
    }

    /** Places a fresh node for `key` right after the live node at place `p`. */
    method InsertAfter(anchor: nat, key: DeliveryKey, ghost p: nat) returns (r: Result<nat, ArenaError>)
      requires Valid() && StandsAt(p, anchor) && key !in Allocated()
      modifies this
      ensures Valid()
      ensures r.Ok? && StandsAt(p + 1, r.value)
      ensures Keys() == InsertAt(old(Keys()), p + 1, key)
      ensures Allocated() == old(Allocated()) + {key}
    {
      if anchor >= |nodes| || !nodes[anchor].live {
        ListedIsLive(nodes, order, head, tail, p);
        return Err(MaterializationInvariant);
      }
      ghost var grown, listed := Grow(nodes, Some(anchor), nodes[anchor].next, key), InsertAt(order, p + 1, |nodes|);
      ghost var last := if nodes[anchor].next.Some? then tail else Some(|nodes|);
      GrowBehind(nodes, positions, order, head, tail, p, key, grown, listed, last);
      var index := PushBehind(anchor, key);
      positions := positions[key := index];
      order := InsertAt(order, p + 1, index);
      assert nodes == grown && order == listed && tail == last;
      return Ok(index);
    }

    /** Pushes a node and links it in behind the node at `anchor`. */
    method PushBehind(anchor: nat, key: DeliveryKey) returns (index: nat)
      requires anchor < |nodes| && (nodes[anchor].next.Some? ==> nodes[anchor].next.value < |nodes|)
      modifies this`nodes, this`tail
      ensures index == |old(nodes)| && nodes == Grow(old(nodes), Some(anchor), old(nodes)[anchor].next, key)
      ensures tail == if old(nodes)[anchor].next.Some? then old(tail) else Some(index)
    {
      var next := nodes[anchor].next;
      index := |nodes|;
      nodes := nodes + [Node(key, Some(anchor), next, true)];
      nodes := nodes[anchor := nodes[anchor].(next := Some(index))];
      if next.Some? {
        nodes := nodes[next.value := nodes[next.value].(prev := Some(index))];
      } else {
        tail := Some(index);
      }
    }

    method MoveBefore(target: DeliveryKey, anchor: DeliveryKey) returns (r: Result<(), ArenaError>)
      requires Valid()
      modifies this
      ensures Valid()
      ensures r.Ok? <==> target in old(Keys()) && anchor in old(Keys()) && target != anchor
      ensures r.Ok? ==> Keys() == MovedBefore(old(Keys()), target, anchor)
      ensures r.Err? ==> Keys() == old(Keys())
      ensures Allocated() == old(Allocated())
    {
      var t := ResolveLive(target);
      if t.Err? {
        return Err(t.error);
      }
      var a := ResolveLive(anchor);
      if a.Err? {
        return Err(a.error);
      }
      PlacesOf(nodes, order, positions, head, tail, target, anchor);
      if t.value == a.value {
        return Err(MaterializationInvariant);
      }
      MoveNode(t.value, a.value, target, anchor);
      return Ok(());
    }

    /** Moves a listed node in front of another one; a node that stands there already stays. */
    method MoveNode(index: nat, before: nat, ghost target: DeliveryKey, ghost anchor: DeliveryKey)
      requires Valid() && target in Keys() && anchor in Keys() && target != anchor && index < |nodes|
      requires order[IndexOf(Keys(), target)] == index && order[IndexOf(Keys(), anchor)] == before
      modifies this
      ensures Valid() && Keys() == MovedBefore(old(Keys()), target, anchor) && Allocated() == old(Allocated())
    {
      ghost var p, q := IndexOf(Keys(), target), IndexOf(Keys(), anchor);
      PlacesOf(nodes, order, positions, head, tail, target, anchor);
      Neighbours(nodes, order, head, tail, p);
      if nodes[index].next == Some(before) {
        AdjacentStays(Keys(), target, anchor);
        return;
      }
      ghost var place := if q < p then q else q - 1;
      MoveIsExact(nodes, order, positions, head, tail, target, anchor, p, q, place, RemoveAt(order, p));
      Relocate(index, before, p, q, place);
    }

    /** Takes the node at place `p` out and links it in front of the node at place `q`. */
    method Relocate(index: nat, before: nat, ghost p: nat, ghost q: nat, ghost place: nat)
      requires Valid() && p < |order| && q < |order| && p != q && order[p] == index && order[q] == before
      requires place == if q < p then q else q - 1
      modifies this`nodes, this`head, this`tail, this`order
      ensures index < |old(nodes)| && place <= |RemoveAt(old(order), p)|
      ensures order == InsertAt(RemoveAt(old(order), p), place, index)
      ensures nodes == Attach(Cut(old(nodes), index), index, EntryAt(RemoveAt(old(order), p), place - 1), before)
      ensures head == if place == 0 then Some(index) else HeadWithout(old(order), old(head), p)
      ensures tail == TailWithout(old(order), old(tail), p)
    {
      AnchorAfterCut(nodes, order, positions, head, tail, p, q);
      Unlink(index, p);
      AttachBefore(index, before, place);
    }

    /** Links an unlisted node in front of a listed one. */
    method AttachBefore(index: nat, before: nat, ghost place: nat)
      requires index < |nodes| && before < |nodes| && place < |order| && index != before
      requires nodes[before].prev == EntryAt(order, place - 1)
      requires EntryAt(order, place - 1).Some? ==> EntryAt(order, place - 1).value < |nodes|
      modifies this`nodes, this`head, this`order
      ensures order == InsertAt(old(order), place, index)
      ensures nodes == Attach(old(nodes), index, EntryAt(old(order), place - 1), before)
      ensures head == if place == 0 then Some(index) else old(head)
    {
      var previous := nodes[before].prev;
      nodes := nodes[index := nodes[index].(prev := previous, next := Some(before))];
      nodes := nodes[before := nodes[before].(prev := Some(index))];
      if previous.Some? {
        nodes := nodes[previous.value := nodes[previous.value].(next := Some(index))];
      } else {
        head := Some(index);
      }
      order := InsertAt(order, place, index);
    }

    method CountLive() returns (live: nat)
      ensures live == LiveCount(nodes, |nodes|)
    {
      live := 0;
      for i := 0 to |nodes|
        invariant live == LiveCount(nodes, i)
      {
        if nodes[i].live {
          live := live + 1;
        }
      }
    }

    /** Walks the list from its head; each live delivery is produced once, in order. */
    method Materialize(sources: seq<Envelope>, sourceStreams: seq<nat>, prefixLen: nat)
        returns (r: Result<seq<ScheduledDelivery>, ArenaError>)
      requires Valid()
      ensures r.Ok? <==> InPrefix(Keys(), prefixLen) && InPrefix(Keys(), |sources|) && InPrefix(Keys(), |sourceStreams|)
      ensures r.Ok? ==> r.value == Scheduled(Keys(), sources, sourceStreams)
    {
      LiveCountIsLength(nodes, positions, order, head, tail);
      var live := CountLive();
      var deliveries: seq<ScheduledDelivery> := [];
      var cursor := head;
      var visited := 0;
      while cursor.Some?
        invariant visited == |deliveries| <= |order| && cursor == EntryAt(order, visited)
        invariant InPrefix(Keys()[..visited], prefixLen)
        invariant InPrefix(Keys()[..visited], |sources|) && InPrefix(Keys()[..visited], |sourceStreams|)
        invariant deliveries == Scheduled(Keys()[..visited], sources, sourceStreams)
        decreases |order| - visited
      {
        var index := cursor.value;
        assert Place(visited);
        if visited >= |nodes| || index >= |nodes| {
          return Err(MaterializationInvariant);
        }
        var node := nodes[index];
        assert Keys()[visited] == node.key;
        if !node.live || node.key.source >= prefixLen {
          return Err(MaterializationInvariant);
        }
        if node.key.source >= |sources| || node.key.source >= |sourceStreams| {
          return Err(MaterializationInvariant);
        }
        ScheduledGrows(Keys(), visited, sources, sourceStreams);
        deliveries := deliveries + [ScheduledDelivery(sources[node.key.source], sourceStreams[node.key.source], node.key.occurrence)];
        cursor := node.next;
        visited := visited + 1;
      }
      assert Keys()[..|order|] == Keys();
      if visited != live {
        return Err(MaterializationInvariant);
      }
      return Ok(deliveries);
    }
  }
}
