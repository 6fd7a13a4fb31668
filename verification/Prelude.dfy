/** Integer widths, saturation and ordered key sets shared by the protocol models. */
module Prelude {

  datatype Option<+T> = None | Some(value: T)

  type Byte = x: int | 0 <= x < 256

  const U16_MAX: nat := 0xFFFF
  const U32_MAX: nat := 0xFFFF_FFFF
  const U64_MAX: nat := 0xFFFF_FFFF_FFFF_FFFF
  /** Number of distinct 32-bit sequence numbers. */
  const W32: nat := 0x1_0000_0000

  function Min(a: int, b: int): int {
    if a <= b then a else b
  }

  function Max(a: int, b: int): int {
    if a <= b then b else a
  }

  /** `saturating_sub` of unsigned integers. */
  function SatSub(a: nat, b: nat): nat {
    if a <= b then 0 else a - b
  }

  /** `u32::saturating_add`, used for every path cost. */
  function SatAdd32(a: nat, b: nat): nat {
    if a + b <= U32_MAX then a + b else U32_MAX
  }

  /** `u64::saturating_add`, used for every timer. */
  function SatAdd64(a: nat, b: nat): nat {
    if a + b <= U64_MAX then a + b else U64_MAX
  }

  function Pow2(n: nat): (p: nat)
    ensures p >= 1
  {
    if n == 0 then 1 else 2 * Pow2(n - 1)
  }

  /** `u32::wrapping_add`. */
  function Wrap32(a: int): nat {
    a % W32
  }

  /** Neighbouring sequence numbers differ, and stepping commutes with wrapping. */
  lemma WrapStep(x: int)
    ensures Wrap32(Wrap32(x) + 1) == Wrap32(x + 1)
    ensures Wrap32(Wrap32(x) - 1) == Wrap32(x - 1)
    ensures Wrap32(x + 1) != Wrap32(x)
  {
  }

  lemma MinimumExists(s: set<nat>, k: nat)
    requires k in s
    ensures exists m :: m in s && forall x :: x in s ==> m <= x
    decreases k
  {
    if x :| x in s && x < k {
      MinimumExists(s, x);
    }
  }

  function Minimum(s: set<nat>): (m: nat)
    requires s != {}
    ensures m in s
    ensures forall x :: x in s ==> m <= x
  {
    assert exists m :: m in s && forall x :: x in s ==> m <= x by {
      var k :| k in s;
      MinimumExists(s, k);
    }
    var m :| m in s && forall x :: x in s ==> m <= x;
    m
  }

  /** `keys` lists exactly `s`, in increasing order. */
  ghost predicate Ascending(keys: seq<nat>, s: set<nat>) {
    && (forall k :: k in keys <==> k in s)
    && (forall i, j :: 0 <= i < j < |keys| ==> keys[i] < keys[j])
  }

  /** The iteration order of a `BTreeMap` with these keys. */
  ghost function SortedKeys(s: set<nat>): (keys: seq<nat>)
    ensures Ascending(keys, s)
  {
    AscendingExists(s);
    var keys :| Ascending(keys, s);
    keys
  }

  lemma AscendingExists(s: set<nat>)
    ensures exists keys :: Ascending(keys, s)
  {
    if s == {} {
      assert Ascending([], s);
    } else {
      var m := Minimum(s);
      AscendingExists(s - {m});
      var rest :| Ascending(rest, s - {m});
      forall i | 0 <= i < |rest| ensures m < rest[i] {
        assert rest[i] in rest;
      }
      assert Ascending([m] + rest, s);
    }
  }

  lemma AscendingUnique(a: seq<nat>, b: seq<nat>, s: set<nat>)
    requires Ascending(a, s) && Ascending(b, s)
    ensures a == b
    decreases s
  {
    assert b != [] ==> b[0] in b;
    if a != [] {
      assert a[0] in a;
      assert b[0] in b;
      var i :| 0 <= i < |b| && b[i] == a[0];
      var j :| 0 <= j < |a| && a[j] == b[0];
      AscendingTail(a, s);
      AscendingTail(b, s);
      AscendingUnique(a[1..], b[1..], s - {a[0]});
    }
  }

  lemma AscendingTail(a: seq<nat>, s: set<nat>)
    requires Ascending(a, s) && a != []
    ensures Ascending(a[1..], s - {a[0]})
  {
  }

  /** Walk a key set in `BTreeMap` order. */
  method KeysInOrder(s: set<nat>) returns (keys: seq<nat>)
    ensures keys == SortedKeys(s)
  {
    keys := [];
    var rest := s;
    while rest != {}
      invariant rest <= s
      invariant forall k :: k in keys <==> k in s - rest
      invariant forall i, j :: 0 <= i < j < |keys| ==> keys[i] < keys[j]
      invariant forall i, k :: 0 <= i < |keys| && k in rest ==> keys[i] < k
      decreases |rest|
    {
      var m := Minimum(rest);
      keys := keys + [m];
      rest := rest - {m};
    }
    assert Ascending(keys, s);
    AscendingUnique(keys, SortedKeys(s), s);
  }

  /** `slice::chunks`: consecutive pieces of `size` elements, the last one possibly shorter. */
  function Chunks<T>(s: seq<T>, size: nat): (chunks: seq<seq<T>>)
    requires size > 0
    ensures forall c, x :: c in chunks && x in c ==> x in s
  {
    if s == [] then []
    else if |s| <= size then [s]
    else [s[..size]] + Chunks(s[size..], size)
  }
}
