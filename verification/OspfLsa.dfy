/**
 Advertisements as the database exchange sees them, and the order of section 13.1
 of RFC 2328 between two instances of one advertisement.
 */
module OspfLsa {
  import opened Prelude

  datatype Ordering = Less | Equal | Greater

  const MAX_AGE: nat := 3600
  const MAX_AGE_DIFF: nat := 900

  /** Advertisement identity; `BTreeMap` order on keys is the order of their encodings. */
  type Key = nat

  datatype LsaHeader = LsaHeader(key: Key, sequence: int, checksum: nat, age: nat)

  /** What encoding an advertisement yields; absent when it cannot be encoded. */
  datatype Encoding = Encoding(sequence: int, checksum: nat, age: nat, length: nat)

  datatype Lsa = Lsa(key: Key, encoding: Option<Encoding>, payload: int) {
    function Header(): (h: Option<LsaHeader>)
      ensures h.Some? ==> h.value.key == key
    {
      if encoding.None? then None
      else Some(LsaHeader(key, encoding.value.sequence, encoding.value.checksum, encoding.value.age))
    }
  }

  type Database = map<Key, Lsa>

  function CompareInt(a: int, b: int): Ordering {
    if a < b then Less else if a == b then Equal else Greater
  }

  function Then(first: Ordering, second: Ordering): Ordering {
    if first == Equal then second else first
  }

  function CompareAges(a: nat, b: nat): Ordering {
    if a == MAX_AGE || b == MAX_AGE then
      CompareInt(if a == MAX_AGE then 1 else 0, if b == MAX_AGE then 1 else 0)
    else if a - b > MAX_AGE_DIFF || b - a > MAX_AGE_DIFF then
      CompareInt(b, a)
    else
      Equal
  }

  function Compare(a: LsaHeader, b: LsaHeader): Ordering {
    Then(CompareInt(a.sequence, b.sequence),
         Then(CompareInt(a.checksum, b.checksum), CompareAges(a.age, b.age)))
  }

  /** `a` is a strictly newer instance than `b`. */
  predicate Newer(a: LsaHeader, b: LsaHeader) {
    Compare(a, b) == Greater
  }

  function Opposite(o: Ordering): Ordering {
    match o
    case Less => Greater
    case Equal => Equal
    case Greater => Less
  }

  /** Swapping the arguments reverses the verdict, and nothing is newer than itself. */
  lemma CompareAntisymmetric(a: LsaHeader, b: LsaHeader)
    ensures Compare(b, a) == Opposite(Compare(a, b))
    ensures Compare(a, a) == Equal
  {
  }

  /**
   The newer instance has the larger sequence number; of equal ones the larger checksum; of equal
   ones the maximum age; and failing that it is more than fifteen minutes younger.
   */
  lemma NewerExactly(a: LsaHeader, b: LsaHeader)
    ensures Newer(a, b) <==>
            || b.sequence < a.sequence
            || (b.sequence == a.sequence && b.checksum < a.checksum)
            || (b.sequence == a.sequence && b.checksum == a.checksum &&
                if a.age == 3600 || b.age == 3600 then b.age != 3600 else a.age + 900 < b.age)
    ensures Compare(a, b) == Less <==> Newer(b, a)
  {
  }

  lemma NewerTransitive(a: LsaHeader, b: LsaHeader, c: LsaHeader)
    requires Newer(a, b) && Newer(b, c)
    ensures Newer(a, c)
  {
  }

  /**
   The semiorder laws. Of two strict pairs, one newer end beats the other older end; and
   any instance is comparable with one end of a strict chain of three.
   */
  lemma NewerSemiorder(a: LsaHeader, b: LsaHeader, c: LsaHeader, d: LsaHeader)
    ensures Newer(a, b) && Newer(c, d) ==> Newer(a, d) || Newer(c, b)
    ensures Newer(a, b) && Newer(b, c) ==> Newer(a, d) || Newer(d, c)
  {
  }

  /** "Same instance" is not transitive: the 900 second window can be crossed in two steps. */
  lemma EqualNotTransitive()
    ensures exists a: LsaHeader, b: LsaHeader, c: LsaHeader ::
              Compare(a, b) == Equal && Compare(b, c) == Equal && Compare(a, c) == Greater
  {
    var a, b, c := LsaHeader(0, 0, 0, 0), LsaHeader(0, 0, 0, 800), LsaHeader(0, 0, 0, 1600);
    assert Compare(a, b) == Equal && Compare(b, c) == Equal && Compare(a, c) == Greater;
  }

  /**
   Exactly when "same instance" does chain: the ends are the same instance unless they
   differ only by age, neither is at MaxAge, and their ages are more than 900 s apart.
   */
  lemma EqualChains(a: LsaHeader, b: LsaHeader, c: LsaHeader)
    requires Compare(a, b) == Equal && Compare(b, c) == Equal
    ensures Compare(a, c) == Equal <==>
            (a.age == MAX_AGE || -900 <= a.age - c.age <= 900)
  {
  }
}
