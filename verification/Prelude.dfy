/** Shared result types and machine-integer bounds. */
module Prelude {

  datatype Option<+T> = None | Some(value: T)

  datatype Result<+T, +E> = Ok(value: T) | Err(error: E)

  /** Largest value of the source's `u64`, which is also its 64-bit `usize`. */
  const U64_MAX: nat := 0xFFFF_FFFF_FFFF_FFFF

  type u64 = n: nat | n <= U64_MAX

  const U16_MAX: nat := 0xFFFF

  function Max(a: int, b: int): int { if a < b then b else a }

  function Min(a: int, b: int): int { if a < b then a else b }

  /** Removing one present key shrinks a map by exactly one entry. */
  lemma MapRemoveSize<K, V>(m: map<K, V>, k: K)
    requires k in m
    ensures |m - {k}| == |m| - 1
  {
    assert (m - {k}).Keys == m.Keys - {k};
  }

  /** Binding a new key grows a map by one entry; rebinding keeps its size. */
  lemma MapInsertSize<K, V>(m: map<K, V>, k: K, v: V)
    ensures |m[k := v]| == if k in m then |m| else |m| + 1
  {
    assert m[k := v].Keys == m.Keys + {k};
  }

  lemma MapInsertKeys<K, V>(m: map<K, V>, k: K, v: V)
    ensures m[k := v].Keys == m.Keys + {k}
  {
  }

  /** The parts one after another. */
  function Joined<T>(parts: seq<seq<T>>): seq<T> {
    if parts == [] then [] else parts[0] + Joined(parts[1..])
  }

  lemma SliceOfSlice<T>(s: seq<T>, from: nat, to: nat, a: nat, b: nat)
    requires from <= to <= |s| && a <= b <= to - from
    ensures s[from..to][a..b] == s[from + a..from + b]
  {
    var t := s[from..to];
    forall k | 0 <= k < b - a ensures t[a..b][k] == s[from + a..from + b][k] {
      assert t[a..b][k] == t[a + k] == s[from + (a + k)];
    }
  }

  lemma AppendAssociates<T>(a: seq<T>, b: seq<T>, c: seq<T>)
    ensures a + (b + c) == (a + b) + c
  {
  }

  lemma AppendRegroups<T>(a: seq<T>, b: seq<T>, c: seq<T>, d: seq<T>)
    ensures a + (b + (c + d)) == a + b + c + d
    ensures a + (b + c) + d == a + b + (c + d)
    ensures a + b + (c + d) == a + b + c + d
  {
  }

  /** A sequence cut in two behind a prefix. */
  lemma SplitRejoins<T>(prefix: seq<T>, s: seq<T>, k: nat)
    requires k <= |s|
    ensures prefix + s[..k] + s[k..] == prefix + s
  {
  }

  /** The least member of a nonempty set, found by counting up from a lower bound. */
  function LeastFrom(s: set<u64>, from: nat): (k: u64)
    requires s != {} && forall j :: j in s ==> from <= j
    ensures k in s && forall j :: j in s ==> k <= j
    decreases U64_MAX + 1 - from
  {
    assert exists w :: w in s;
    if from in s then from else LeastFrom(s, from + 1)
  }

  /** As many numbers as a range holds fit no smaller set that contains the range. */
  lemma {:induction false} RangeFits(all: set<nat>, from: nat, n: nat)
    requires forall c :: from <= c < from + n ==> c in all
    ensures n <= |all|
    decreases n
  {
    if n > 0 {
      RangeFits(all - {from + n - 1}, from, n - 1);
    }
  }

  lemma {:induction false} SubsetSize<T>(a: set<T>, b: set<T>)
    requires a <= b
    ensures |a| <= |b|
    decreases a
  {
    if a != {} {
      var x :| x in a;
      SubsetSize(a - {x}, b - {x});
    }
  }

  /** A set of exactly the numbers of a range. */
  lemma {:induction false} RangeSize(d: set<nat>, from: nat, n: nat)
    requires forall c: nat :: c in d <==> from <= c < from + n
    ensures |d| == n
    decreases n
  {
    if n == 0 {
      assert d == {};
    } else {
      RangeSize(d - {from + n - 1}, from, n - 1);
    }
  }
}
