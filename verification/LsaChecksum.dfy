/** The Fletcher checksum of a link-state advertisement. */
module LsaChecksum {
  import opened Prelude

  const FIRST: nat := 16
  const SECOND: nat := 17

  datatype Sums = Sums(c0: int, c1: int)

  /** Two running sums modulo 255, byte by byte. */
  function Fletcher(bytes: seq<Byte>): (sums: Sums)
    ensures 0 <= sums.c0 < 255 && 0 <= sums.c1 < 255
  {
    if bytes == [] then Sums(0, 0)
    else
      var n := |bytes| - 1;
      var before := Fletcher(bytes[..n]);
      var c0 := (before.c0 + bytes[n]) % 255;
      Sums(c0, (before.c1 + c0) % 255)
  }

  /** Remainder that takes the sign of the dividend. */
  function TruncatedRemainder(a: int, b: nat): int
    requires b > 0
  {
    if a >= 0 then a % b else -((-a) % b)
  }

  datatype CheckBytes = CheckBytes(x: Byte, y: Byte)

  function Checks(length: nat, sums: Sums): CheckBytes
    requires 0 <= sums.c0 < 255 && 0 <= sums.c1 < 255
  {
    var r := TruncatedRemainder((length - 17) * sums.c0 - sums.c1, 255);
    var x := if r <= 0 then r + 255 else r;
    var z := 510 - sums.c0 - x;
    CheckBytes(x, if z > 255 then z - 255 else z)
  }

  /** The advertisement with its check bytes written; the age in the first two bytes is not covered. */
  function Inserted(bytes: seq<Byte>): seq<Byte>
    requires |bytes| >= 18
  {
    var check := Checks(|bytes|, Fletcher(bytes[2..]));
    bytes[FIRST := check.x][SECOND := check.y]
  }

  method FletcherOf(bytes: seq<Byte>) returns (c0: int, c1: int)
    ensures Sums(c0, c1) == Fletcher(bytes)
  {
    c0, c1 := 0, 0;
    for i := 0 to |bytes|
      invariant Sums(c0, c1) == Fletcher(bytes[..i])
    {
      assert bytes[..i + 1][..i] == bytes[..i];
      c0 := (c0 + bytes[i]) % 255;
      c1 := (c1 + c0) % 255;
    }
    assert bytes[..|bytes|] == bytes;
  }

  method ChecksOf(length: nat, c0: int, c1: int) returns (x: Byte, y: Byte)
    requires 0 <= c0 < 255 && 0 <= c1 < 255
    ensures CheckBytes(x, y) == Checks(length, Sums(c0, c1))
  {
    var dividend := (length - 17) * c0 - c1;
    var first := if dividend >= 0 then dividend % 255 else -((-dividend) % 255);
    if first <= 0 {
      first := first + 255;
    }
    var second := 510 - c0 - first;
    if second > 255 {
      second := second - 255;
    }
    x, y := first, second;
  }

  /** Write the check bytes in place. */
  method Insert(out: array<Byte>)
    requires out.Length >= 18
    modifies out
    ensures out[..] == Inserted(old(out[..]))
  {
    assert out[..][2..] == out[2..];
    var c0, c1 := FletcherOf(out[2..]);
    var x, y := ChecksOf(out.Length, c0, c1);
    out[16] := x;
    out[17] := y;
  }

  // ---------------------------------------------------------------------- closed form

  function Sum(bytes: seq<Byte>): nat {
    if bytes == [] then 0 else Sum(bytes[..|bytes| - 1]) + bytes[|bytes| - 1]
  }

  /** Every byte weighted by its distance from the end. */
  function Weighted(bytes: seq<Byte>): nat {
    if bytes == [] then 0 else Weighted(bytes[..|bytes| - 1]) + Sum(bytes)
  }

  /** Reducing after every byte gives the sums reduced once. */
  lemma {:induction false} FletcherIsWeighted(bytes: seq<Byte>)
    ensures Fletcher(bytes) == Sums(Sum(bytes) % 255, Weighted(bytes) % 255)
  {
    if bytes != [] {
      var n := |bytes| - 1;
      var front := bytes[..n];
      FletcherIsWeighted(front);
      ReduceFirst(Sum(front), bytes[n]);
      ReduceBoth(Weighted(front), Sum(bytes));
    }
  }

  lemma ReduceFirst(a: int, b: int)
    ensures (a % 255 + b) % 255 == (a + b) % 255
  {
  }

  lemma ReduceBoth(a: int, b: int)
    ensures (a % 255 + b % 255) % 255 == (a + b) % 255
  {
  }

  lemma {:induction false} SumUpdate(bytes: seq<Byte>, i: nat, v: Byte)
    requires i < |bytes|
    ensures Sum(bytes[i := v]) == Sum(bytes) + v - bytes[i]
  {
    var n := |bytes| - 1;
    if i < n {
      assert bytes[i := v][..n] == bytes[..n][i := v];
      SumUpdate(bytes[..n], i, v);
    } else {
      assert bytes[i := v][..n] == bytes[..n];
    }
  }

  lemma OneMore(n: int, d: int)
    ensures n * d + d == (n + 1) * d
  {
  }

  lemma {:induction false} WeightedUpdate(bytes: seq<Byte>, i: nat, v: Byte)
    requires i < |bytes|
    ensures Weighted(bytes[i := v]) == Weighted(bytes) + (|bytes| - i) * (v - bytes[i])
  {
    var n := |bytes| - 1;
    SumUpdate(bytes, i, v);
    if i < n {
      assert bytes[i := v][..n] == bytes[..n][i := v];
      WeightedUpdate(bytes[..n], i, v);
      OneMore(n - i, v - bytes[i]);
    } else {
      assert bytes[i := v][..n] == bytes[..n];
    }
  }

  // -------------------------------------------------------------------------- theorem

  lemma TruncationIsCongruent(a: int) returns (k: int)
    ensures TruncatedRemainder(a, 255) == a + 255 * k && -255 < TruncatedRemainder(a, 255) < 255
  {
    if a >= 0 {
      k := -(a / 255);
    } else {
      k := (-a) / 255;
    }
  }

  /** The check bytes are never zero, and both sums come out as multiples of 255. */
  lemma ChecksBalance(length: nat, sums: Sums) returns (j: int, k: int)
    requires 0 <= sums.c0 < 255 && 0 <= sums.c1 < 255 && length >= 18
    ensures var check := Checks(length, sums);
            && 1 <= check.x <= 255 && 1 <= check.y <= 255
            && check.x + check.y == 255 * j - sums.c0
            && (length - 16) * check.x + (length - 17) * check.y == 255 * k - sums.c1
  {
    var m := length - 17;
    var i := TruncationIsCongruent(m * sums.c0 - sums.c1);
    var check := Checks(length, sums);
    var r := TruncatedRemainder(m * sums.c0 - sums.c1, 255);
    if r <= 0 {
      i := i + 1;
    }
    assert check.x == m * sums.c0 - sums.c1 + 255 * i;
    j := if 510 - sums.c0 - check.x > 255 then 1 else 2;
    k := m * j + i;
    Spread(m, check.x, check.y, j, sums.c0);
    assert 255 * (m * j + i) == 255 * (m * j) + 255 * i;
  }

  lemma Spread(m: int, x: int, y: int, j: int, c0: int)
    requires x + y == 255 * j - c0
    ensures (m + 1) * x + m * y == 255 * (m * j) - m * c0 + x
  {
  }

  /** Both sums after the two check bytes of the body are replaced. */
  lemma TwoUpdates(body: seq<Byte>, x: Byte, y: Byte)
    requires |body| >= 16
    ensures var after := body[14 := x][15 := y]; var n := |body| - 14;
            && Sum(after) == Sum(body) + x - body[14] + y - body[15]
            && Weighted(after) == Weighted(body) + n * (x - body[14]) + (n - 1) * (y - body[15])
  {
    var one := body[14 := x];
    SumUpdate(body, 14, x);
    SumUpdate(one, 15, y);
    WeightedUpdate(body, 14, x);
    WeightedUpdate(one, 15, y);
  }

  lemma CombineSum(sum: int, x: int, y: int, a: int, b: int, j: int)
    requires x + y == 255 * j - sum % 255
    ensures sum + x - a + y - b == 255 * (j + sum / 255) - a - b
  {
  }

  lemma CombineWeighted(weighted: int, n: int, x: int, y: int, a: int, b: int, k: int)
    requires n * x + (n - 1) * y == 255 * k - weighted % 255
    ensures weighted + n * (x - a) + (n - 1) * (y - b) == 255 * (k + weighted / 255) - n * a - (n - 1) * b
  {
    Distribute(n, x, a);
    Distribute(n - 1, y, b);
  }

  /** What the two sums become, in terms of the bytes that were overwritten. */
  lemma SumsAfter(bytes: seq<Byte>) returns (j: int, k: int)
    requires |bytes| >= 18
    ensures var after := Inserted(bytes)[2..];
            && Sum(after) == 255 * j - bytes[16] - bytes[17]
            && Weighted(after) == 255 * k - (|bytes| - 16) * bytes[16] - (|bytes| - 17) * bytes[17]
  {
    var body := bytes[2..];
    var sums := Fletcher(body);
    var check := Checks(|bytes|, sums);
    j, k := ChecksBalance(|bytes|, sums);
    FletcherIsWeighted(body);
    TwoUpdates(body, check.x, check.y);
    var one: seq<Byte> := body[14 := check.x];
    assert Inserted(bytes)[2..] == one[15 := check.y];
    CombineSum(Sum(body), check.x, check.y, bytes[16], bytes[17], j);
    CombineWeighted(Weighted(body), |bytes| - 16, check.x, check.y, bytes[16], bytes[17], k);
    j := j + Sum(body) / 255;
    k := k + Weighted(body) / 255;
  }

  lemma Distribute(n: int, a: int, b: int)
    ensures n * (a - b) == n * a - n * b
  {
  }

  lemma MultipleOf255(a: int, b: int, j: int)
    requires a == 255 * j - b
    ensures a % 255 == 0 <==> b % 255 == 0
  {
  }

  /** Modulo 255, both weighted sums of the overwritten bytes vanish only if both bytes do. */
  lemma BothVanish(m: int, a: int, b: int)
    ensures (a + b) % 255 == 0 && ((m + 1) * a + m * b) % 255 == 0 <==> a % 255 == 0 && b % 255 == 0
  {
    assert (m + 1) * a + m * b == m * (a + b) + a;
    ReduceBoth(a, b);
    if (a + b) % 255 == 0 {
      var q := (a + b) / 255;
      assert m * (a + b) == 255 * (m * q);
      MultipleOf255(m * (a + b) + a, -a, m * q);
      NegatedMultiple(a);
      ReduceFirst(a, b);
    }
  }

  lemma NegatedMultiple(a: int)
    ensures (-a) % 255 == 0 <==> a % 255 == 0
  {
  }

  /** A byte is a multiple of 255 only at the ends of its range. */
  lemma ByteVanishes(b: Byte)
    ensures b % 255 == 0 <==> b in {0, 255}
  {
  }

  lemma BalancedExactly(sum: int, weighted: int, j: int, k: int, m: int, a: Byte, b: Byte)
    requires sum == 255 * j - a - b && weighted == 255 * k - (m + 1) * a - m * b
    ensures sum % 255 == 0 && weighted % 255 == 0 <==> a in {0, 255} && b in {0, 255}
  {
    MultipleOf255(sum, a as int + b as int, j);
    MultipleOf255(weighted, (m + 1) * a + m * b, k);
    BothVanish(m, a, b);
    ByteVanishes(a);
    ByteVanishes(b);
  }

  /**
   Inserting always writes check bytes in 1..255 and nothing else. The result passes the
   check, both sums zero modulo 255, exactly when each old check byte was 0 or 255;
   in particular when the field was cleared first.
   */
  lemma InsertedChecks(bytes: seq<Byte>)
    requires |bytes| >= 18
    ensures var r := Inserted(bytes);
            && |r| == |bytes|
            && (forall i :: 0 <= i < |bytes| && i != 16 && i != 17 ==> r[i] == bytes[i])
            && 1 <= r[16] <= 255 && 1 <= r[17] <= 255
            && (Fletcher(r[2..]) == Sums(0, 0) <==> bytes[16] in {0, 255} && bytes[17] in {0, 255})
  {
    var _, _ := ChecksBalance(|bytes|, Fletcher(bytes[2..]));
    var j, k := SumsAfter(bytes);
    var after := Inserted(bytes)[2..];
    FletcherIsWeighted(after);
    BalancedExactly(Sum(after), Weighted(after), j, k, |bytes| - 17, bytes[16], bytes[17]);
  }

  lemma ChangeIsNoticed(sum: int, weighted: int, n: int, v: int, w: int)
    requires sum % 255 == 0 && weighted % 255 == 0
    ensures (sum + v - w) % 255 == 0 && (weighted + n * (v - w)) % 255 == 0 <==> v % 255 == w % 255
  {
    ReduceFirst(sum, v - w);
    ReduceFirst(weighted, n * (v - w));
    SameResidue(v, w, n);
  }

  /** Any single corrupted byte is noticed, except a 0 turned into 255 or back. */
  lemma CorruptionIsNoticed(bytes: seq<Byte>, i: nat, v: Byte)
    requires |bytes| >= 18 && Fletcher(bytes[2..]) == Sums(0, 0) && 2 <= i < |bytes|
    ensures Fletcher(bytes[i := v][2..]) == Sums(0, 0) <==> v % 255 == bytes[i] % 255
  {
    var body := bytes[2..];
    assert bytes[i := v][2..] == body[i - 2 := v];
    FletcherIsWeighted(body);
    FletcherIsWeighted(body[i - 2 := v]);
    SumUpdate(body, i - 2, v);
    WeightedUpdate(body, i - 2, v);
    ChangeIsNoticed(Sum(body), Weighted(body), |body| - (i - 2), v, bytes[i]);
  }

  lemma SameResidue(v: int, w: int, n: int)
    ensures (v - w) % 255 == 0 <==> v % 255 == w % 255
    ensures (v - w) % 255 == 0 ==> (n * (v - w)) % 255 == 0
  {
    var q := (v - w) / 255;
    if (v - w) % 255 == 0 {
      assert n * (v - w) == 255 * (n * q);
    }
  }
}
