/**
 Cache membership: the mutation vocabulary, its meaning as a fold over a plain
 set of keys, and the change overlay that computes the same fold without
 copying the base view.
 */
module Cache {
  import opened Prelude

  // ---------------------------------------------------------------- keys

  datatype CacheGroup = GroupIndex(index: nat) | GroupUnspecified

  /** The characters of a name stand for its UTF-8 bytes. */
  datatype StorageMedium = MediumNamed(name: string) | MediumUnspecified

  datatype OpaqueHash = HashU64(word: u64) | HashBytes(bytes: seq<nat>)

  datatype CacheKey = CacheKey(group: CacheGroup, medium: StorageMedium, hash: OpaqueHash)

  function KeyBytes(key: CacheKey): nat {
    (match key.group case GroupIndex(_) => 4 case GroupUnspecified => 0) +
    (match key.medium case MediumNamed(name) => |name| case MediumUnspecified => 0) +
    (match key.hash case HashU64(_) => 8 case HashBytes(bytes) => |bytes|)
  }

  /** The sum of the key sizes of a view. */
  ghost function Bytes(keys: set<CacheKey>): nat {
    if keys == {} then 0 else
      var k :| k in keys;
      KeyBytes(k) + Bytes(keys - {k})
  }

  /** The sum does not depend on the order in which keys are counted. */
  lemma {:induction false} BytesRemove(keys: set<CacheKey>, k: CacheKey)
    requires k in keys
    ensures Bytes(keys) == KeyBytes(k) + Bytes(keys - {k})
    decreases keys
  {
    var first :| first in keys && Bytes(keys) == KeyBytes(first) + Bytes(keys - {first});
    if first != k {
      BytesRemove(keys - {first}, k);
      assert keys - {first} - {k} == keys - {k} - {first};
      BytesRemove(keys - {k}, first);
    }
  }

  lemma BytesInsert(keys: set<CacheKey>, k: CacheKey)
    requires k !in keys
    ensures Bytes(keys + {k}) == Bytes(keys) + KeyBytes(k)
  {
    BytesRemove(keys + {k}, k);
    assert keys + {k} - {k} == keys;
  }

  // ----------------------------------------------------------- mutations

  /** How a publisher may disclose the tokens behind stored blocks. */
  datatype TokenEvidence = KeyedDigest | UnkeyedDigest | TokenIds

  /** `evidence` stands for every other field of a mutation outside cache identity. */
  datatype Mutation =
    | StoreRun(hashes: seq<OpaqueHash>, group: CacheGroup, medium: StorageMedium, tokens: Option<TokenEvidence>, evidence: string)
    | Remove(hashes: seq<OpaqueHash>, group: CacheGroup, medium: StorageMedium, evidence: string)
    | Clear(evidence: string)

  datatype KeyOp = Put(key: CacheKey) | Take(key: CacheKey) | Wipe

  function OpsOf(m: Mutation): seq<KeyOp> {
    match m
    case StoreRun(hashes, group, medium, _, _) =>
      seq(|hashes|, i requires 0 <= i < |hashes| => Put(CacheKey(group, medium, hashes[i])))
    case Remove(hashes, group, medium, _) =>
      seq(|hashes|, i requires 0 <= i < |hashes| => Take(CacheKey(group, medium, hashes[i])))
    case Clear(_) => [Wipe]
  }

  /** Every key operation of a mutation list, in mutation order. */
  function Ops(mutations: seq<Mutation>): seq<KeyOp> {
    if mutations == [] then [] else OpsOf(mutations[0]) + Ops(mutations[1..])
  }

  lemma {:induction false} OpsAppend(a: seq<Mutation>, b: seq<Mutation>)
    ensures Ops(a + b) == Ops(a) + Ops(b)
  {
    if a == [] {
      assert a + b == b;
    } else {
      OpsAppend(a[1..], b);
      assert (a + b)[1..] == a[1..] + b;
      AppendAssociates(OpsOf(a[0]), Ops(a[1..]), Ops(b));
    }
  }

  // ------------------------------------------------ membership semantics

  function ApplyOp(keys: set<CacheKey>, op: KeyOp): set<CacheKey> {
    match op
    case Put(k) => keys + {k}
    case Take(k) => keys - {k}
    case Wipe => {}
  }

  /** What a run of key operations means for membership, with no bounds at all. */
  function Fold(keys: set<CacheKey>, ops: seq<KeyOp>): set<CacheKey>
    decreases ops
  {
    if ops == [] then keys else Fold(ApplyOp(keys, ops[0]), ops[1..])
  }

  /** How many removals of a run name a key that is absent at that moment. */
  function MissingRemoves(keys: set<CacheKey>, ops: seq<KeyOp>): nat
    decreases ops
  {
    if ops == [] then 0 else
      (if ops[0].Take? && ops[0].key !in keys then 1 else 0) +
      MissingRemoves(ApplyOp(keys, ops[0]), ops[1..])
  }

  lemma {:induction false} FoldAppend(keys: set<CacheKey>, a: seq<KeyOp>, b: seq<KeyOp>)
    ensures Fold(keys, a + b) == Fold(Fold(keys, a), b)
    decreases a
  {
    if a == [] {
      assert a + b == b;
    } else {
      FoldAppend(ApplyOp(keys, a[0]), a[1..], b);
      assert (a + b)[1..] == a[1..] + b;
    }
  }

  /** After a wipe, the membership that preceded the run no longer matters. */
  lemma {:induction false} FoldForgets(before: set<CacheKey>, other: set<CacheKey>, prefix: seq<KeyOp>, suffix: seq<KeyOp>)
    ensures Fold(before, prefix + [Wipe] + suffix) == Fold(other, [Wipe] + suffix)
  {
    assert prefix + [Wipe] + suffix == prefix + ([Wipe] + suffix);
    FoldAppend(before, prefix, [Wipe] + suffix);
    assert ([Wipe] + suffix)[1..] == suffix;
  }

  /** The keys that a run of hashes names. */
  function KeysOf(hashes: seq<OpaqueHash>, group: CacheGroup, medium: StorageMedium): set<CacheKey> {
    set h | h in hashes :: CacheKey(group, medium, h)
  }

  /** What one mutation means: a run of hashes is stored or removed as a whole, and a clear leaves nothing. */
  lemma MutationMeaning(keys: set<CacheKey>, m: Mutation)
    ensures m.StoreRun? ==> Fold(keys, OpsOf(m)) == keys + KeysOf(m.hashes, m.group, m.medium)
    ensures m.Remove? ==> Fold(keys, OpsOf(m)) == keys - KeysOf(m.hashes, m.group, m.medium)
    ensures m.Clear? ==> Fold(keys, OpsOf(m)) == {}
  {
    if m.StoreRun? {
      StoresMean(keys, OpsOf(m), m.hashes, m.group, m.medium);
    } else if m.Remove? {
      RemovesMean(keys, OpsOf(m), m.hashes, m.group, m.medium);
    } else {
      assert OpsOf(m)[1..] == [] && Fold({}, []) == {};
    }
  }

  lemma {:induction false} StoresMean(keys: set<CacheKey>, ops: seq<KeyOp>, hashes: seq<OpaqueHash>, group: CacheGroup, medium: StorageMedium)
    requires |ops| == |hashes| && forall i :: 0 <= i < |ops| ==> ops[i] == Put(CacheKey(group, medium, hashes[i]))
    ensures Fold(keys, ops) == keys + KeysOf(hashes, group, medium)
    decreases ops
  {
    if ops == [] {
      assert KeysOf(hashes, group, medium) == {};
    } else {
      KeysOfStep(hashes, group, medium);
      StoresMean(keys + {ops[0].key}, ops[1..], hashes[1..], group, medium);
    }
  }

  lemma {:induction false} RemovesMean(keys: set<CacheKey>, ops: seq<KeyOp>, hashes: seq<OpaqueHash>, group: CacheGroup, medium: StorageMedium)
    requires |ops| == |hashes| && forall i :: 0 <= i < |ops| ==> ops[i] == Take(CacheKey(group, medium, hashes[i]))
    ensures Fold(keys, ops) == keys - KeysOf(hashes, group, medium)
    decreases ops
  {
    if ops == [] {
      assert KeysOf(hashes, group, medium) == {};
    } else {
      KeysOfStep(hashes, group, medium);
      RemovesMean(keys - {ops[0].key}, ops[1..], hashes[1..], group, medium);
    }
  }

  lemma KeysOfStep(hashes: seq<OpaqueHash>, group: CacheGroup, medium: StorageMedium)
    requires hashes != []
    ensures KeysOf(hashes, group, medium) == {CacheKey(group, medium, hashes[0])} + KeysOf(hashes[1..], group, medium)
  {
    assert hashes == [hashes[0]] + hashes[1..];
  }

  // ---------------------------------------------------- bounded semantics

  datatype Resource = CacheKeys | CacheIdentityBytes

  datatype CacheError =
    | CacheCounterOverflow
    | CacheResourceLimit(resource: Resource, maximum: nat, observed: nat)

  datatype CacheLimits = CacheLimits(maxKeys: u64, maxBytes: u64)

  /** Projected membership plus the removals that found nothing to remove. */
  datatype Folded = Folded(keys: set<CacheKey>, missing: nat)

  ghost function ApplyBounded(f: Folded, op: KeyOp, limits: CacheLimits): Result<Folded, CacheError> {
    match op
    case Put(k) =>
      if k in f.keys then Ok(f)
      else if |f.keys| + 1 > U64_MAX then Err(CacheCounterOverflow)
      else if |f.keys| + 1 > limits.maxKeys then
        Err(CacheResourceLimit(CacheKeys, limits.maxKeys, |f.keys| + 1))
      else if Bytes(f.keys) + KeyBytes(k) > U64_MAX then Err(CacheCounterOverflow)
      else if Bytes(f.keys) + KeyBytes(k) > limits.maxBytes then
        Err(CacheResourceLimit(CacheIdentityBytes, limits.maxBytes, Bytes(f.keys) + KeyBytes(k)))
      else Ok(Folded(f.keys + {k}, f.missing))
    case Take(k) =>
      if k !in f.keys then
        if f.missing + 1 > U64_MAX then Err(CacheCounterOverflow) else Ok(Folded(f.keys, f.missing + 1))
      else Ok(Folded(f.keys - {k}, f.missing))
    case Wipe => Ok(Folded({}, f.missing))
  }

  /** The run either folds completely or stops at its first failing operation. */
  ghost function FoldBounded(f: Folded, ops: seq<KeyOp>, limits: CacheLimits): Result<Folded, CacheError>
    decreases ops
  {
    if ops == [] then Ok(f) else
      match ApplyBounded(f, ops[0], limits)
      case Err(e) => Err(e)
      case Ok(next) => FoldBounded(next, ops[1..], limits)
  }

  predicate WithinKeyLimit(keys: set<CacheKey>, limits: CacheLimits) { |keys| <= limits.maxKeys }

  ghost predicate WithinLimits(keys: set<CacheKey>, limits: CacheLimits) {
    WithinKeyLimit(keys, limits) && Bytes(keys) <= limits.maxBytes
  }

  /**
   A bounded fold that succeeds means exactly what the unbounded one means,
   counts exactly the absent removals, and keeps both ceilings.
   */
  lemma {:induction false} BoundedFoldMeaning(f: Folded, ops: seq<KeyOp>, limits: CacheLimits)
    requires WithinLimits(f.keys, limits)
    requires FoldBounded(f, ops, limits).Ok?
    ensures var r := FoldBounded(f, ops, limits).value;
            && r.keys == Fold(f.keys, ops)
            && r.missing == f.missing + MissingRemoves(f.keys, ops)
            && WithinLimits(r.keys, limits)
    decreases ops
  {
    if ops != [] {
      var next := ApplyBounded(f, ops[0], limits).value;
      match ops[0] {
        case Put(k) =>
          if k in f.keys {
            assert f.keys + {k} == f.keys;
          } else {
            BytesInsert(f.keys, k);
          }
        case Take(k) =>
          if k in f.keys {
            BytesRemove(f.keys, k);
          } else {
            assert f.keys - {k} == f.keys;
          }
        case Wipe =>
      }
      BoundedFoldMeaning(next, ops[1..], limits);
    }
  }

  /** The membership after the first `i` operations stays inside both ceilings, and the absent removals can be counted. */
  ghost predicate FitsAfter(f: Folded, ops: seq<KeyOp>, limits: CacheLimits, i: nat)
    requires i <= |ops|
  {
    WithinLimits(Fold(f.keys, ops[..i]), limits) && f.missing + MissingRemoves(f.keys, ops[..i]) <= U64_MAX
  }

  /** A bounded fold succeeds exactly when no operation on the way breaks a ceiling or the counter. */
  lemma {:induction false} BoundedFoldSucceeds(f: Folded, ops: seq<KeyOp>, limits: CacheLimits)
    requires WithinLimits(f.keys, limits) && f.missing <= U64_MAX
    ensures FoldBounded(f, ops, limits).Ok? <==> forall i :: 0 <= i <= |ops| ==> FitsAfter(f, ops, limits, i)
    decreases ops
  {
    FitsAtFirst(f, ops, limits);
    if ops != [] {
      var next := NextFolded(f, ops[0]);
      FirstFits(f, ops[0], limits);
      FitsAtFirst(next, ops[1..], limits);
      FitsLater(f, ops, limits, 0);
      if ApplyBounded(f, ops[0], limits).Ok? {
        BoundedFoldSucceeds(next, ops[1..], limits);
        AllFitLater(f, ops, limits);
      }
    }
  }

  /** Where one operation leads when nothing stops it. */
  function NextFolded(f: Folded, op: KeyOp): Folded { Folded(ApplyOp(f.keys, op), f.missing + MissingRemoves(f.keys, [op])) }

  lemma FitsAtFirst(f: Folded, ops: seq<KeyOp>, limits: CacheLimits)
    ensures FitsAfter(f, ops, limits, 0) <==> WithinLimits(f.keys, limits) && f.missing <= U64_MAX
  {
    assert ops[..0] == [];
  }

  lemma FitsLater(f: Folded, ops: seq<KeyOp>, limits: CacheLimits, i: nat)
    requires i < |ops|
    ensures FitsAfter(f, ops, limits, i + 1) <==> FitsAfter(NextFolded(f, ops[0]), ops[1..], limits, i)
  {
    var prefix := ops[..i + 1];
    assert prefix[1..] == ops[1..][..i] && [ops[0]][1..] == [];
    assert MissingRemoves(ApplyOp(f.keys, ops[0]), []) == 0;
  }

  lemma AllFitLater(f: Folded, ops: seq<KeyOp>, limits: CacheLimits)
    requires ops != [] && FitsAfter(f, ops, limits, 0)
    ensures (forall i :: 0 <= i <= |ops| ==> FitsAfter(f, ops, limits, i)) <==>
            forall i :: 0 <= i <= |ops| - 1 ==> FitsAfter(NextFolded(f, ops[0]), ops[1..], limits, i)
  {
    if forall i :: 0 <= i <= |ops| ==> FitsAfter(f, ops, limits, i) {
      forall i | 0 <= i <= |ops| - 1 ensures FitsAfter(NextFolded(f, ops[0]), ops[1..], limits, i) {
        FitsLater(f, ops, limits, i);
      }
    }
    if forall i :: 0 <= i <= |ops| - 1 ==> FitsAfter(NextFolded(f, ops[0]), ops[1..], limits, i) {
      forall i | 0 <= i <= |ops| ensures FitsAfter(f, ops, limits, i) {
        if i > 0 {
          FitsLater(f, ops, limits, i - 1);
        }
      }
    }
  }

  /** What an error says about the membership and the count that were not reached. */
  ghost predicate Explains(error: CacheError, keys: set<CacheKey>, missing: nat, limits: CacheLimits) {
    match error
    case CacheCounterOverflow => |keys| > U64_MAX || Bytes(keys) > U64_MAX || missing > U64_MAX
    case CacheResourceLimit(CacheKeys, maximum, observed) => observed == |keys| > maximum == limits.maxKeys
    case CacheResourceLimit(CacheIdentityBytes, maximum, observed) =>
      |keys| <= limits.maxKeys && observed == Bytes(keys) > maximum == limits.maxBytes
  }

  /** The operation at `i` is the first that leads to something that does not fit, and the error says what. */
  ghost predicate FailsAt(f: Folded, ops: seq<KeyOp>, limits: CacheLimits, error: CacheError, i: nat) {
    && i < |ops| && (forall j :: 0 <= j <= i ==> FitsAfter(f, ops, limits, j))
    && Explains(error, Fold(f.keys, ops[..i + 1]), f.missing + MissingRemoves(f.keys, ops[..i + 1]), limits)
  }

  /** A bounded fold that fails stops at the first operation that does not fit, and its error says why. */
  lemma {:induction false} BoundedFoldFails(f: Folded, ops: seq<KeyOp>, limits: CacheLimits) returns (i: nat)
    requires WithinLimits(f.keys, limits) && f.missing <= U64_MAX && FoldBounded(f, ops, limits).Err?
    ensures FailsAt(f, ops, limits, FoldBounded(f, ops, limits).error, i)
    decreases ops
  {
    FirstFits(f, ops[0], limits);
    if ApplyBounded(f, ops[0], limits).Err? {
      i := 0;
      FailsFirst(f, ops, limits);
    } else {
      var later := BoundedFoldFails(NextFolded(f, ops[0]), ops[1..], limits);
      FailsLater(f, ops, limits, FoldBounded(f, ops, limits).error, later);
      i := later + 1;
    }
  }

  lemma FailsFirst(f: Folded, ops: seq<KeyOp>, limits: CacheLimits)
    requires ops != [] && WithinLimits(f.keys, limits) && f.missing <= U64_MAX && ApplyBounded(f, ops[0], limits).Err?
    ensures FailsAt(f, ops, limits, ApplyBounded(f, ops[0], limits).error, 0)
  {
    FitsAtFirst(f, ops, limits);
    FirstLed(f, ops, 0);
    FirstExplained(f, ops[0], limits);
    assert ops[1..][..0] == [];
  }

  lemma FailsLater(f: Folded, ops: seq<KeyOp>, limits: CacheLimits, error: CacheError, i: nat)
    requires ops != [] && WithinLimits(f.keys, limits) && f.missing <= U64_MAX
    requires FailsAt(NextFolded(f, ops[0]), ops[1..], limits, error, i)
    ensures FailsAt(f, ops, limits, error, i + 1)
  {
    FitsAtFirst(f, ops, limits);
    FirstLed(f, ops, i + 1);
    forall j | 0 < j <= i + 1 ensures FitsAfter(f, ops, limits, j) {
      FitsLater(f, ops, limits, j - 1);
    }
  }

  /** A longer run is its first operation and the run of the others. */
  lemma FirstLed(f: Folded, ops: seq<KeyOp>, i: nat)
    requires i < |ops|
    ensures var next, later := NextFolded(f, ops[0]), ops[1..][..i];
            && Fold(f.keys, ops[..i + 1]) == Fold(next.keys, later)
            && f.missing + MissingRemoves(f.keys, ops[..i + 1]) == next.missing + MissingRemoves(next.keys, later)
  {
    var prefix := ops[..i + 1];
    assert prefix[1..] == ops[1..][..i] && [ops[0]][1..] == [];
    assert MissingRemoves(ApplyOp(f.keys, ops[0]), []) == 0;
  }

  lemma FirstExplained(f: Folded, op: KeyOp, limits: CacheLimits)
    requires ApplyBounded(f, op, limits).Err?
    ensures var next := NextFolded(f, op);
            Explains(ApplyBounded(f, op, limits).error, next.keys, next.missing, limits)
  {
    assert MissingRemoves(ApplyOp(f.keys, op), [op][1..]) == 0;
    match op {
      case Put(k) => BytesInsert(f.keys, k);
      case Take(_) =>
      case Wipe =>
    }
  }

  /** One bounded operation succeeds exactly when what it leads to fits. */
  lemma FirstFits(f: Folded, op: KeyOp, limits: CacheLimits)
    requires WithinLimits(f.keys, limits) && f.missing <= U64_MAX
    ensures var next := NextFolded(f, op);
            && (ApplyBounded(f, op, limits).Ok? <==> WithinLimits(next.keys, limits) && next.missing <= U64_MAX)
            && (ApplyBounded(f, op, limits).Ok? ==> ApplyBounded(f, op, limits).value == next)
  {
    assert MissingRemoves(ApplyOp(f.keys, op), [op][1..]) == 0;
    match op {
      case Put(k) => PutFits(f.keys, k);
      case Take(k) => TakeFits(f.keys, k);
      case Wipe =>
    }
  }

  lemma PutFits(keys: set<CacheKey>, k: CacheKey)
    ensures if k in keys then keys + {k} == keys
            else |keys + {k}| == |keys| + 1 && Bytes(keys + {k}) == Bytes(keys) + KeyBytes(k)
  {
    if k !in keys {
      BytesInsert(keys, k);
    }
  }

  lemma TakeFits(keys: set<CacheKey>, k: CacheKey)
    ensures if k !in keys then keys - {k} == keys
            else |keys - {k}| == |keys| - 1 && Bytes(keys - {k}) == Bytes(keys) - KeyBytes(k)
  {
    if k in keys {
      BytesRemove(keys, k);
    }
  }

  /** A bounded fold fails only when some store in the run would break a ceiling or a counter. */
  lemma {:induction false} BoundedFoldAppend(f: Folded, a: seq<KeyOp>, b: seq<KeyOp>, limits: CacheLimits)
    ensures FoldBounded(f, a + b, limits) ==
            match FoldBounded(f, a, limits)
            case Err(e) => Err(e)
            case Ok(mid) => FoldBounded(mid, b, limits)
    decreases a
  {
    if a == [] {
      assert a + b == b;
    } else {
      assert (a + b)[1..] == a[1..] + b;
      match ApplyBounded(f, a[0], limits) {
        case Err(_) =>
        case Ok(next) => BoundedFoldAppend(next, a[1..], b, limits);
      }
    }
  }

  // ------------------------------------------------------- concrete view

  class CacheView {
    var keys: set<CacheKey>
    var identityBytes: nat

    ghost predicate Valid()
      reads this
    {
      identityBytes == Bytes(keys)
    }

    constructor Empty()
      ensures Valid() && keys == {}
    {
      keys := {};
      identityBytes := 0;
    }
  }

  /** The immutable result of one transaction. */
  datatype CachePlan = CachePlan(
    cleared: bool, added: set<CacheKey>, removed: set<CacheKey>,
    keyCount: nat, identityBytes: nat, missingRemoves: nat)

  /**
   A tidy overlay stands for `projected`: its additions never name a surviving
   base key, its removals name only base keys, and membership reads through.
   */
  ghost predicate Represents(base: set<CacheKey>, cleared: bool, added: set<CacheKey>, removed: set<CacheKey>, projected: set<CacheKey>) {
    && (forall k :: k in projected <==> k in added || (!cleared && k in base && k !in removed))
    && (forall k :: k in removed ==> !cleared && k in base && k !in added)
    && (forall k :: k in added ==> cleared || k !in base)
  }

  /** A plan whose counters are the exact size of the membership it leads to. */
  ghost predicate PlanFits(plan: CachePlan, base: set<CacheKey>, projected: set<CacheKey>) {
    && Represents(base, plan.cleared, plan.added, plan.removed, projected)
    && plan.keyCount == |projected|
    && plan.identityBytes == Bytes(projected)
  }

  lemma RemoveSize(keys: set<CacheKey>, key: CacheKey)
    requires key in keys
    ensures |keys - {key}| == |keys| - 1
  {
  }

  /** Removing a projected key takes it out of the additions, or records it as removed from the base. */
  lemma OverlayInsert(base: set<CacheKey>, cleared: bool, added: set<CacheKey>, removed: set<CacheKey>, projected: set<CacheKey>, key: CacheKey)
    requires Represents(base, cleared, added, removed, projected) && key !in projected
    ensures if !cleared && key in base then Represents(base, cleared, added, removed - {key}, projected + {key})
            else Represents(base, cleared, added + {key}, removed, projected + {key})
  {
  }

  lemma OverlayRemove(base: set<CacheKey>, cleared: bool, added: set<CacheKey>, removed: set<CacheKey>, projected: set<CacheKey>, key: CacheKey)
    requires Represents(base, cleared, added, removed, projected) && key in projected
    ensures if key in added then Represents(base, cleared, added - {key}, removed, projected - {key})
            else Represents(base, cleared, added, removed + {key}, projected - {key})
  {
  }

  lemma OverlayClear(base: set<CacheKey>)
    ensures Represents(base, true, {}, {}, {}) && Bytes({}) == 0
  {
  }

  method CommitPlan(plan: CachePlan, view: CacheView, ghost projected: set<CacheKey>)
    requires view.Valid() && PlanFits(plan, view.keys, projected)
    modifies view
    ensures view.Valid() && view.keys == projected
    ensures |view.keys| == plan.keyCount
  {
    if plan.cleared {
      view.keys := {};
    } else {
      view.keys := view.keys - plan.removed;
    }
    view.keys := view.keys + plan.added;
    assert view.keys == projected;
    view.identityBytes := plan.identityBytes;
  }

  /**
   Atomic projection of mutations over a base view that is only read.
   The ghost set `projected` is the membership the overlay stands for.
   */
  class CacheTransaction {
    const base: CacheView
    var cleared: bool
    var added: set<CacheKey>
    var removed: set<CacheKey>
    var keyCount: nat
    var identityBytes: nat
    var missingRemoves: nat
    ghost var projected: set<CacheKey>

    ghost function Value(): Folded
      reads this
    {
      Folded(projected, missingRemoves)
    }

    ghost predicate Valid()
      reads this, base
    {
      && base.Valid()
      && Represents(base.keys, cleared, added, removed, projected)
      && keyCount == |projected|
      && identityBytes == Bytes(projected)
    }

    constructor (view: CacheView)
      requires view.Valid()
      ensures Valid() && base == view
      ensures Value() == Folded(view.keys, 0)
    {
      base := view;
      cleared := false;
      added := {};
      removed := {};
      keyCount := |view.keys|;
      identityBytes := view.identityBytes;
      missingRemoves := 0;
      projected := view.keys;
    }

    predicate Contains(key: CacheKey)
      requires Valid()
      reads this, base
      ensures Contains(key) <==> key in projected
    {
      key in added || (!cleared && key in base.keys && key !in removed)
    }

    method Store(key: CacheKey, limits: CacheLimits) returns (r: Result<(), CacheError>)
      requires Valid()
      modifies this
      ensures Valid()
      ensures Outcome(r) == ApplyBounded(old(Value()), Put(key), limits)
    {
      if Contains(key) {
        return Ok(());
      }
      var keyBytes := KeyBytes(key);
      if keyCount + 1 > U64_MAX {
        return Err(CacheCounterOverflow);
      }
      var observedKeys := keyCount + 1;
      if observedKeys > limits.maxKeys {
        return Err(CacheResourceLimit(CacheKeys, limits.maxKeys, observedKeys));
      }
      if identityBytes + keyBytes > U64_MAX {
        return Err(CacheCounterOverflow);
      }
      var observedBytes := identityBytes + keyBytes;
      if observedBytes > limits.maxBytes {
        return Err(CacheResourceLimit(CacheIdentityBytes, limits.maxBytes, observedBytes));
      }
      Include(key, observedKeys, observedBytes);
      return Ok(());
    }

    method Include(key: CacheKey, observedKeys: nat, observedBytes: nat)
      requires Valid() && key !in projected && observedKeys == keyCount + 1 && observedBytes == identityBytes + KeyBytes(key)
      modifies this`added, this`removed, this`keyCount, this`identityBytes, this`projected
      ensures Valid() && projected == old(projected) + {key}
    {
      BytesInsert(projected, key);
      OverlayInsert(base.keys, cleared, added, removed, projected, key);
      if !cleared && key in base.keys {
        removed := removed - {key};
      } else {
        added := added + {key};
      }
      keyCount := observedKeys;
      identityBytes := observedBytes;
      projected := projected + {key};
    }

    method Take(key: CacheKey, ghost limits: CacheLimits) returns (r: Result<(), CacheError>)
      requires Valid()
      modifies this
      ensures Valid()
      ensures Outcome(r) == ApplyBounded(old(Value()), KeyOp.Take(key), limits)
    {
      if !Contains(key) {
        if missingRemoves + 1 > U64_MAX {
          return Err(CacheCounterOverflow);
        }
        missingRemoves := missingRemoves + 1;
        return Ok(());
      }
      Exclude(key);
      return Ok(());
    }

    method Exclude(key: CacheKey)
      requires Valid() && key in projected
      modifies this`added, this`removed, this`keyCount, this`identityBytes, this`projected
      ensures Valid() && projected == old(projected) - {key}
    {
      BytesRemove(projected, key);
      RemoveSize(projected, key);
      OverlayRemove(base.keys, cleared, added, removed, projected, key);
      if key in added {
        added := added - {key};
      } else {
        removed := removed + {key};
      }
      keyCount := keyCount - 1;
      identityBytes := identityBytes - KeyBytes(key);
      projected := projected - {key};
    }

    method ClearAll()
      requires Valid()
      modifies this`cleared, this`added, this`removed, this`keyCount, this`identityBytes, this`projected
      ensures Valid()
      ensures Value() == Folded({}, old(missingRemoves))
    {
      OverlayClear(base.keys);
      cleared := true;
      added := {};
      removed := {};
      keyCount := 0;
      identityBytes := 0;
      projected := {};
    }

    /** The result of a step paired with the value it left behind. */
    ghost function Outcome(r: Result<(), CacheError>): Result<Folded, CacheError>
      reads this
    {
      match r case Ok(_) => Ok(Value()) case Err(e) => Err(e)
    }

    /** Stores every key of a run, stopping at the first failure. */
    method StoreAll(m: Mutation, limits: CacheLimits) returns (r: Result<(), CacheError>)
      requires Valid() && m.StoreRun?
      modifies this
      ensures Valid()
      ensures Outcome(r) == FoldBounded(old(Value()), OpsOf(m), limits)
    {
      ghost var ops, goal := OpsOf(m), FoldBounded(Value(), OpsOf(m), limits);
      assert ops[0..] == ops;
      for j := 0 to |m.hashes|
        invariant Valid()
        invariant goal == FoldBounded(Value(), ops[j..], limits)
      {
        assert ops[j..][1..] == ops[j + 1..];
        r := Store(CacheKey(m.group, m.medium, m.hashes[j]), limits);
        if r.Err? { return; }
      }
      return Ok(());
    }

    /** Removes every key of a run, stopping at the first failure. */
    method TakeAll(m: Mutation, ghost limits: CacheLimits) returns (r: Result<(), CacheError>)
      requires Valid() && m.Remove?
      modifies this
      ensures Valid()
      ensures Outcome(r) == FoldBounded(old(Value()), OpsOf(m), limits)
    {
      ghost var ops, goal := OpsOf(m), FoldBounded(Value(), OpsOf(m), limits);
      assert ops[0..] == ops;
      for j := 0 to |m.hashes|
        invariant Valid()
        invariant goal == FoldBounded(Value(), ops[j..], limits)
      {
        assert ops[j..][1..] == ops[j + 1..];
        r := Take(CacheKey(m.group, m.medium, m.hashes[j]), limits);
        if r.Err? { return; }
      }
      return Ok(());
    }

    /** Applies a whole mutation list, stopping at the first failing operation. */
    method Apply(mutations: seq<Mutation>, limits: CacheLimits) returns (r: Result<(), CacheError>)
      requires Valid()
      modifies this
      ensures Valid()
      ensures Outcome(r) == FoldBounded(old(Value()), Ops(mutations), limits)
    {
      ghost var goal := FoldBounded(Value(), Ops(mutations), limits);
      for i := 0 to |mutations|
        invariant Valid()
        invariant goal == FoldBounded(Value(), Ops(mutations[i..]), limits)
      {
        var m := mutations[i];
        assert mutations[i..][1..] == mutations[i + 1..];
        ghost var ops := OpsOf(m);
        ghost var start := Value();
        BoundedFoldAppend(start, ops, Ops(mutations[i + 1..]), limits);
        ghost var part := FoldBounded(start, ops, limits);
        match m {
          case StoreRun(_, _, _, _, _) =>
            r := StoreAll(m, limits);
            if r.Err? { return; }
          case Remove(_, _, _, _) =>
            r := TakeAll(m, limits);
            if r.Err? { return; }
          case Clear(_) =>
            assert ops[1..] == [];
            ClearAll();
        }
        assert part == Ok(Value());
      }
      return Ok(());
    }

    method Finish() returns (plan: CachePlan)
      requires Valid()
      ensures PlanFits(plan, base.keys, projected)
      ensures plan.missingRemoves == missingRemoves
    {
      plan := CachePlan(cleared, added, removed, keyCount, identityBytes, missingRemoves);
    }
  }
}
