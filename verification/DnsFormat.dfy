/**
 The format itself: which texts are host names, which bytes spell a name, and which bytes are a
 message, each said without the code that reads or writes them, and met exactly by that code.
 */
module DnsFormat {
  import opened Prelude
  import opened DnsSpec
  import opened DnsRoundTrip

  // ------------------------------------------------------------------------------- names

  predicate HostChar(c: char) {
    'a' <= c <= 'z' || 'A' <= c <= 'Z' || '0' <= c <= '9' || c == '-' || c == '_'
  }

  predicate DotAt(s: Bytes, k: nat)
    requires k < |s|
  {
    s[k] as char == '.'
  }

  predicate CharAt(s: Bytes, k: nat)
    requires k < |s|
  {
    DotAt(s, k) || HostChar(s[k] as char)
  }

  /** Some of the 64 bytes from `w` on is a dot. */
  ghost predicate DotWithin(s: Bytes, w: nat)
    requires w + 64 <= |s|
  {
    exists k :: w <= k < w + 64 && DotAt(s, k)
  }

  /** From `i` on: host characters in labels that are not empty and not longer than 63. */
  ghost predicate Hostname(s: Bytes, i: nat) {
    && i < |s| && !DotAt(s, i) && !DotAt(s, |s| - 1)
    && (forall k {:trigger CharAt(s, k)} :: i <= k < |s| ==> CharAt(s, k))
    && (forall k {:trigger DotAt(s, k)} :: i <= k < |s| - 1 && DotAt(s, k) ==> !DotAt(s, k + 1))
    && (forall w {:trigger DotWithin(s, w)} :: i <= w <= |s| - 64 ==> DotWithin(s, w))
  }

  lemma PartIsLabel(s: Bytes, i: nat, j: nat)
    requires i <= j <= |s| && forall k :: i <= k < j ==> !DotAt(s, k)
    ensures GoodPart(s, i, j) <==> 1 <= j - i <= 63 && forall k :: i <= k < j ==> CharAt(s, k)
  {
    if GoodPart(s, i, j) {
      forall k | i <= k < j ensures CharAt(s, k) {
        assert HostByte(s[k]);
      }
    }
    if 1 <= j - i <= 63 && forall k :: i <= k < j ==> CharAt(s, k) {
      forall k | i <= k < j ensures HostByte(s[k]) {
        assert CharAt(s, k) && !DotAt(s, k);
      }
    }
  }

  lemma LastLabel(s: Bytes, i: nat)
    requires i <= |s| && forall k :: i <= k < |s| ==> !DotAt(s, k)
    ensures Hostname(s, i) <==> 1 <= |s| - i <= 63 && forall k :: i <= k < |s| ==> CharAt(s, k)
  {
    assert Hostname(s, i) && |s| - i >= 64 ==> DotWithin(s, i);
  }

  lemma FirstLabel(s: Bytes, i: nat, j: nat)
    requires i <= j < |s| && DotAt(s, j) && forall k :: i <= k < j ==> !DotAt(s, k)
    ensures Hostname(s, i) <==>
            1 <= j - i <= 63 && (forall k :: i <= k < j ==> CharAt(s, k)) && Hostname(s, j + 1)
  {
    assert Hostname(s, i) && j - i >= 64 ==> DotWithin(s, i);
    if 1 <= j - i <= 63 && (forall k :: i <= k < j ==> CharAt(s, k)) && Hostname(s, j + 1) {
      forall w: nat {:trigger DotWithin(s, w)} | i <= w <= |s| - 64 ensures DotWithin(s, w) {
        if w <= j {
          assert w <= j < w + 64 && DotAt(s, j);
        }
      }
    }
  }

  lemma {:induction false} FindSkips(s: Bytes, i: nat, dot: Byte -> bool)
    requires i <= |s| && dot == IsDot()
    ensures forall k :: i <= k < Find(Text(s), i, dot) ==> !DotAt(s, k)
    decreases |s| - i
  {
    if i < |s| && !dot(s[i]) {
      FindSkips(s, i + 1, dot);
    }
  }

  lemma {:induction false} GoodIsHostname(s: Bytes, i: nat, dot: Byte -> bool)
    requires i <= |s| && dot == IsDot()
    ensures GoodFrom(Text(s), i, dot) <==> Hostname(s, i)
    decreases |s| - i
  {
    var j := Find(Text(s), i, dot);
    FindIs(s, i, dot);
    FindSkips(s, i, dot);
    PartIsLabel(s, i, j);
    if j == |s| {
      LastLabel(s, i);
    } else {
      assert DotAt(s, j);
      FirstLabel(s, i, j);
      GoodIsHostname(s, j + 1, dot);
    }
  }

  /** Upper-case letters become their lower-case counterparts, nothing else changes. */
  predicate LowerCase(s: Bytes, t: Bytes) {
    |s| == |t| && forall i :: 0 <= i < |s| ==>
      var (a, b) := (s[i] as char, t[i] as char);
      if 'A' <= a <= 'Z' then b as int - 'a' as int == a as int - 'A' as int else b == a
  }

  /** A text names a host exactly when, but for one final dot, it is such a name of at most 253 bytes. */
  lemma NameExactly(s: Bytes, name: Bytes)
    requires s == name + [DOT] || (s == name && (name == [] || !DotAt(name, |name| - 1)))
    ensures DnsName(s).Some? <==> |name| <= 253 && Hostname(name, 0)
    ensures DnsName(s).Some? ==> LowerCase(name, DnsName(s).value)
  {
    assert StripDot(s) == name;
    GoodIsHostname(name, 0, IsDot());
  }

  // ----------------------------------------------------------------------- names on the wire

  /** Where a pointer at `at` leads. */
  function Target(bytes: Bytes, at: nat): int
    requires at + 1 < |bytes|
  {
    bytes[at] as int % 64 * 256 + bytes[at + 1] as int
  }

  /** Two bytes, the first with its top two bits set, that lead back to an earlier place after the header. */
  predicate PointerAt(bytes: Bytes, at: nat) {
    at + 1 < |bytes| && 192 <= bytes[at] && 12 <= Target(bytes, at) < at
  }

  predicate LabelAt(bytes: Bytes, at: nat, part: Bytes) {
    && 1 <= |part| <= 63 && at + 1 + |part| <= |bytes|
    && bytes[at] == |part| && bytes[at + 1..at + 1 + |part|] == part
  }

  /** The bytes from `at` on spell the labels, with so many length bytes and pointers on the way. */
  ghost predicate Spells(bytes: Bytes, at: nat, labels: Labels, visited: nat)
    decreases visited
  {
    visited > 0 &&
    if PointerAt(bytes, at) then Spells(bytes, Target(bytes, at), labels, visited - 1)
    else
      match labels
      case Root => at < |bytes| && bytes[at] == 0 && visited == 1
      case Label(first, rest) => LabelAt(bytes, at, first) && Spells(bytes, at + 1 + |first|, rest, visited - 1)
  }

  /** Bytes of the labels with one length byte each. */
  function Span(labels: Labels): nat {
    match labels
    case Root => 0
    case Label(first, rest) => |first| + 1 + Span(rest)
  }

  /** Where reading goes on: after the first pointer, or after the root. */
  ghost function Beyond(bytes: Bytes, at: nat, labels: Labels): nat
    decreases labels
  {
    if PointerAt(bytes, at) then at + 2
    else
      match labels
      case Root => at + 1
      case Label(first, rest) => Beyond(bytes, at + 1 + |first|, rest)
  }

  /** One step of the way: a pointer, a label or the root, and the way that goes on from there. */
  ghost predicate GoesOn(bytes: Bytes, at: nat, length: nat, r: Read<Walked>, on: Option<Read<Walked>>) {
    if PointerAt(bytes, at) then
      && on == Walk(bytes, Target(bytes, at), length) && on.Some?
      && r == Read(Walked(on.value.value.labels, on.value.value.steps + 1), at + 2)
    else
      match r.value.labels
      case Root => at < |bytes| && bytes[at] == 0 && r == Read(Walked(Root, 1), at + 1)
      case Label(first, rest) =>
        && LabelAt(bytes, at, first) && length + |first| + 1 <= 254
        && on == Walk(bytes, at + 1 + |first|, length + |first| + 1) && on.Some?
        && r == Read(Walked(Label(first, on.value.value.labels), on.value.value.steps + 1), on.value.next)
  }

  lemma WalkGoesOn(bytes: Bytes, at: nat, length: nat) returns (on: Option<Read<Walked>>)
    requires Walk(bytes, at, length).Some?
    ensures GoesOn(bytes, at, length, Walk(bytes, at, length).value, on)
  {
    var size: int := bytes[at];
    if size >= 192 {
      on := Walk(bytes, Target(bytes, at), length);
    } else if size > 0 {
      on := Walk(bytes, at + 1 + size, length + size + 1);
    } else {
      on := None;
    }
  }

  lemma PointerGoesOn(bytes: Bytes, at: nat, length: nat, on: Read<Walked>)
    requires PointerAt(bytes, at) && Walk(bytes, Target(bytes, at), length) == Some(on)
    ensures Walk(bytes, at, length) == Some(Read(Walked(on.value.labels, on.value.steps + 1), at + 2))
  {
  }

  lemma LabelGoesOn(bytes: Bytes, at: nat, length: nat, first: Bytes, on: Read<Walked>)
    requires LabelAt(bytes, at, first) && length + |first| + 1 <= 254
    requires Walk(bytes, at + 1 + |first|, length + |first| + 1) == Some(on)
    ensures Walk(bytes, at, length) == Some(Read(Walked(Label(first, on.value.labels), on.value.steps + 1), on.next))
  {
  }

  lemma RootEnds(bytes: Bytes, at: nat, length: nat)
    requires at < |bytes| && bytes[at] == 0
    ensures Walk(bytes, at, length) == Some(Read(Walked(Root, 1), at + 1))
  {
  }

  lemma {:induction false} WalkSpells(bytes: Bytes, at: nat, length: nat)
    requires Walk(bytes, at, length).Some? && length <= 254
    ensures var r := Walk(bytes, at, length).value;
            Spells(bytes, at, r.value.labels, r.value.steps) && length + Span(r.value.labels) <= 254
    decreases 254 - length, at
  {
    var r := Walk(bytes, at, length).value;
    var on := WalkGoesOn(bytes, at, length);
    if PointerAt(bytes, at) {
      WalkSpells(bytes, Target(bytes, at), length);
    } else if r.value.labels.Label? {
      var size := |r.value.labels.first|;
      WalkSpells(bytes, at + 1 + size, length + size + 1);
    }
  }

  lemma {:induction false} WalkEnds(bytes: Bytes, at: nat, length: nat)
    requires Walk(bytes, at, length).Some? && length <= 254
    ensures var r := Walk(bytes, at, length).value; r.next == Beyond(bytes, at, r.value.labels)
    decreases 254 - length
  {
    var r := Walk(bytes, at, length).value;
    var on := WalkGoesOn(bytes, at, length);
    if !PointerAt(bytes, at) && r.value.labels.Label? {
      var size := |r.value.labels.first|;
      WalkEnds(bytes, at + 1 + size, length + size + 1);
    }
  }

  lemma {:induction false} SpelledWalks(bytes: Bytes, at: nat, length: nat, labels: Labels, visited: nat)
    requires Spells(bytes, at, labels, visited) && length + Span(labels) <= 254
    ensures var r := Walk(bytes, at, length); r.Some? && r.value.value == Walked(labels, visited)
    decreases visited
  {
    if PointerAt(bytes, at) {
      SpelledWalks(bytes, Target(bytes, at), length, labels, visited - 1);
      PointerGoesOn(bytes, at, length, Walk(bytes, Target(bytes, at), length).value);
    } else if labels.Label? {
      var next := at + 1 + |labels.first|;
      SpelledWalks(bytes, next, length + |labels.first| + 1, labels.rest, visited - 1);
      LabelGoesOn(bytes, at, length, labels.first, Walk(bytes, next, length + |labels.first| + 1).value);
    } else {
      RootEnds(bytes, at, length);
    }
  }

  /** The bytes at a place spell a host name, within the limits on its length and on the way to it. */
  ghost predicate NameAt(bytes: Bytes, at: nat, name: Bytes, next: nat, labels: Labels, visited: nat) {
    && Spells(bytes, at, labels, visited) && Span(labels) <= 254 && visited <= 128
    && DnsName(Join(labels)) == Some(name) && Beyond(bytes, at, labels) == next
  }

  lemma WalkIsSpelled(bytes: Bytes, at: nat)
    requires Walk(bytes, at, 0).Some?
    ensures var r := Walk(bytes, at, 0).value;
            && Spells(bytes, at, r.value.labels, r.value.steps) && Span(r.value.labels) <= 254
            && Beyond(bytes, at, r.value.labels) == r.next
  {
    WalkSpells(bytes, at, 0);
    WalkEnds(bytes, at, 0);
  }

  lemma SpelledIsWalked(bytes: Bytes, at: nat, labels: Labels, visited: nat)
    requires Spells(bytes, at, labels, visited) && Span(labels) <= 254
    ensures Walk(bytes, at, 0) == Some(Read(Walked(labels, visited), Beyond(bytes, at, labels)))
  {
    SpelledWalks(bytes, at, 0, labels, visited);
    WalkEnds(bytes, at, 0);
  }

  lemma NamedIsRead(bytes: Bytes, at: nat, name: Bytes, next: nat, labels: Labels, visited: nat)
    requires NameAt(bytes, at, name, next, labels, visited)
    ensures ReadName(bytes, at) == Some(Read(name, next))
  {
    SpelledIsWalked(bytes, at, labels, visited);
  }

  lemma ReadIsNamed(bytes: Bytes, at: nat, name: Bytes, next: nat)
    requires ReadName(bytes, at) == Some(Read(name, next))
    ensures exists labels, visited :: NameAt(bytes, at, name, next, labels, visited)
  {
    WalkIsSpelled(bytes, at);
    var r := Walk(bytes, at, 0).value;
    assert NameAt(bytes, at, name, next, r.value.labels, r.value.steps);
  }

  /**
   A name is read at a place exactly when the bytes there spell labels, with at most 128 length
   bytes and pointers on the way, that make a host name of at most 253 bytes.
   */
  lemma ReadsExactly(bytes: Bytes, at: nat, name: Bytes, next: nat)
    ensures ReadName(bytes, at) == Some(Read(name, next)) <==>
            exists labels, visited :: NameAt(bytes, at, name, next, labels, visited)
  {
    if ReadName(bytes, at) == Some(Read(name, next)) {
      ReadIsNamed(bytes, at, name, next);
    }
    forall labels, visited | NameAt(bytes, at, name, next, labels, visited)
      ensures ReadName(bytes, at) == Some(Read(name, next))
    {
      NamedIsRead(bytes, at, name, next, labels, visited);
    }
  }

  // ---------------------------------------------------------------------------- messages

  /** One question, at most 32 answers and nothing else, in at most 512 bytes; no reserved bit is set. */
  predicate Framed(bytes: Bytes) {
    && 12 <= |bytes| <= 512
    && WordAt(bytes, 4) == 1 && WordAt(bytes, 6) <= 32 && WordAt(bytes, 8) == 0 && WordAt(bytes, 10) == 0
    && var flags := WordAt(bytes, 2); flags / 2048 % 16 == 0 && flags / 512 % 2 == 0 && flags / 64 % 2 == 0
  }

  /** One record from `at` to `next`; one of type A and class IN is kept, and must carry four bytes. */
  ghost predicate RecordAt(bytes: Bytes, at: nat, kept: seq<Record>, next: nat) {
    var name := ReadName(bytes, at);
    name.Some? &&
    var n := name.value.next;
    && n + 10 <= |bytes| && next == n + 10 + WordAt(bytes, n + 8) && next <= |bytes|
    && if WordAt(bytes, n) == 1 && WordAt(bytes, n + 2) == 1 then
         && next == n + 14
         && kept == [Record(name.value.value, WordAt(bytes, n + 4) * 0x1_0000 + WordAt(bytes, n + 6),
                            Address(bytes[n + 10], bytes[n + 11], bytes[n + 12], bytes[n + 13]))]
       else kept == []
  }

  ghost function RecordsOf(bytes: Bytes): (nat, seq<Record>, nat) -> bool {
    (at: nat, kept: seq<Record>, next: nat) => RecordAt(bytes, at, kept, next)
  }

  /** So many items stand in a row from `at` to `end`, and these are kept of them. */
  ghost predicate Row(stands: (nat, seq<Record>, nat) -> bool, at: nat, count: nat, end: nat, kept: seq<Record>)
    decreases count
  {
    if count == 0 then at == end && kept == []
    else exists first, next, rest ::
           stands(at, first, next) && Row(stands, next, count - 1, end, rest) && kept == first + rest
  }

  /** The header and the question, whose name has been read. */
  predicate Fields(bytes: Bytes, name: Read<Bytes>, m: Message)
    requires 12 <= |bytes| && name.next + 4 <= |bytes|
  {
    var flags := WordAt(bytes, 2);
    && m.id == WordAt(bytes, 0)
    && m.question == Question(name.value, WordAt(bytes, name.next), WordAt(bytes, name.next + 2))
    && (m.response <==> flags / 32768 % 2 == 1) && (m.authoritative <==> flags / 1024 % 2 == 1)
    && (m.recursionDesired <==> flags / 256 % 2 == 1) && m.rcode == flags % 16
  }

  /** The bytes are this message. */
  ghost predicate MessageAt(bytes: Bytes, m: Message) {
    && Framed(bytes)
    && var name := ReadName(bytes, 12);
       && name.Some? && name.value.next + 4 <= |bytes| && Fields(bytes, name.value, m)
       && Row(RecordsOf(bytes), name.value.next + 4, WordAt(bytes, 6), |bytes|, m.answers)
  }

  lemma AnswerIsRecord(bytes: Bytes, at: nat, kept: seq<Record>, next: nat)
    ensures AnswerAfter(bytes, ReadName(bytes, at)) == Some(Read(kept, next)) <==> RecordAt(bytes, at, kept, next)
  {
  }

  /** Reading finds what stands in each place. */
  ghost predicate Finds(read: nat -> Option<Read<seq<Record>>>, stands: (nat, seq<Record>, nat) -> bool) {
    forall at, kept, next :: read(at) == Some(Read(kept, next)) <==> stands(at, kept, next)
  }

  lemma {:induction false} ReadIsRow(read: nat -> Option<Read<seq<Record>>>, stands: (nat, seq<Record>, nat) -> bool,
                                     at: nat, count: nat, end: nat, kept: seq<Record>)
    requires Finds(read, stands) && ReadAll(read, at, count) == Some(Read(kept, end))
    ensures Row(stands, at, count, end, kept)
    decreases count
  {
    if count > 0 {
      var first := read(at).value;
      var rest := ReadAll(read, first.next, count - 1).value.value;
      assert stands(at, first.value, first.next) && kept == first.value + rest;
      ReadIsRow(read, stands, first.next, count - 1, end, rest);
    }
  }

  lemma {:induction false} RowIsRead(read: nat -> Option<Read<seq<Record>>>, stands: (nat, seq<Record>, nat) -> bool,
                                     at: nat, count: nat, end: nat, kept: seq<Record>)
    requires Finds(read, stands) && Row(stands, at, count, end, kept)
    ensures ReadAll(read, at, count) == Some(Read(kept, end))
    decreases count
  {
    if count > 0 {
      var first, next, rest :|
        stands(at, first, next) && Row(stands, next, count - 1, end, rest) && kept == first + rest;
      RowIsRead(read, stands, next, count - 1, end, rest);
    }
  }

  lemma AnswersAreRow(read: nat -> Option<Read<seq<Record>>>, stands: (nat, seq<Record>, nat) -> bool,
                      at: nat, count: nat, end: nat, kept: seq<Record>)
    requires Finds(read, stands)
    ensures ReadAll(read, at, count) == Some(Read(kept, end)) <==> Row(stands, at, count, end, kept)
  {
    if ReadAll(read, at, count) == Some(Read(kept, end)) {
      ReadIsRow(read, stands, at, count, end, kept);
    }
    if Row(stands, at, count, end, kept) {
      RowIsRead(read, stands, at, count, end, kept);
    }
  }

  lemma FindsRecords(bytes: Bytes, names: nat -> Option<Read<Bytes>>)
    requires names == NameReader(Walker(bytes))
    ensures Finds(AnswerReader(bytes, names), RecordsOf(bytes))
  {
    forall at, kept, next
      ensures AnswerReader(bytes, names)(at) == Some(Read(kept, next)) <==> RecordsOf(bytes)(at, kept, next)
    {
      AnswerIsRecord(bytes, at, kept, next);
    }
  }

  lemma ReservedBits(flags: nat)
    requires flags <= U16_MAX
    ensures Reserved(flags) <==> !(flags / 2048 % 16 == 0 && flags / 512 % 2 == 0 && flags / 64 % 2 == 0)
  {
  }

  /** Decoding, with the name and the row of answers taken from elsewhere. */
  lemma DecodesFrame(bytes: Bytes, names: nat -> Option<Read<Bytes>>, row: Option<Read<seq<Record>>>, m: Message)
    requires 12 <= |bytes| && names(12).Some? && names(12).value.next + 4 <= |bytes|
    requires row == ReadAll(AnswerReader(bytes, names), names(12).value.next + 4, WordAt(bytes, 6))
    ensures DecodeBy(bytes, names) == Some(m) <==>
            Framed(bytes) && row == Some(Read(m.answers, |bytes|)) && Fields(bytes, names(12).value, m)
  {
    ReservedBits(WordAt(bytes, 2));
  }

  /** Bytes decode to a message exactly when they are that message. */
  lemma DecodesExactly(bytes: Bytes, m: Message)
    ensures Decode(bytes) == Some(m) <==> MessageAt(bytes, m)
  {
    var names := NameReader(Walker(bytes));
    var name := ReadName(bytes, 12);
    assert names(12) == name;
    if 12 <= |bytes| && name.Some? && name.value.next + 4 <= |bytes| {
      var at, count := name.value.next + 4, WordAt(bytes, 6);
      FindsRecords(bytes, names);
      AnswersAreRow(AnswerReader(bytes, names), RecordsOf(bytes), at, count, |bytes|, m.answers);
      DecodesFrame(bytes, names, ReadAll(AnswerReader(bytes, names), at, count), m);
    }
  }

  // ----------------------------------------------------------------------------- encoding

  lemma {:induction false} ConvertsEach<T(!new)>(convert: T -> Option<T>, items: seq<T>, out: seq<T>)
    ensures ConvertAll(convert, items) == Some(out) <==>
            |out| == |items| && forall i :: 0 <= i < |items| ==> convert(items[i]) == Some(out[i])
  {
    if items != [] && out != [] {
      ConvertsEach(convert, items[1..], out[1..]);
      assert out == [out[0]] + out[1..];
      if ConvertAll(convert, items) == Some(out) {
        assert out[1..] == ConvertAll(convert, items[1..]).value;
        forall i | 0 <= i < |items| ensures convert(items[i]) == Some(out[i]) {
          if i > 0 {
            assert items[1..][i - 1] == items[i] && out[1..][i - 1] == out[i];
          }
        }
      }
    }
  }

  /** The message with every name replaced by its canonical form. */
  predicate Canonical(m: Message, c: Message) {
    && c == m.(question := m.question.(name := c.question.name), answers := c.answers)
    && DnsName(m.question.name) == Some(c.question.name) && |c.answers| == |m.answers|
    && forall i :: 0 <= i < |m.answers| ==>
         && DnsName(m.answers[i].name) == Some(c.answers[i].name)
         && c.answers[i] == m.answers[i].(name := c.answers[i].name)
  }

  lemma CanonicalExactly(m: Message, c: Message)
    ensures CanonicalMessage(m) == Some(c) <==> Canonical(m, c)
  {
    ConvertsEach(Canonicaliser(), m.answers, c.answers);
    if Canonical(m, c) {
      forall i | 0 <= i < |m.answers| ensures Canonicaliser()(m.answers[i]) == Some(c.answers[i]) {
        assert DnsName(m.answers[i].name) == Some(c.answers[i].name);
      }
    }
  }

  function Sum<T>(size: T -> nat, items: seq<T>): nat {
    if items == [] then 0 else size(items[0]) + Sum(size, items[1..])
  }

  /** Fourteen bytes of data behind a pointer, or behind the name and two bytes more. */
  function AnswerSize(question: Bytes): Record -> nat {
    (r: Record) => if r.name == question then 16 else |r.name| + 16
  }

  /** Header, question and answers. */
  function SizeInBytes(c: Message): nat {
    12 + (|c.question.name| + 6) + Sum(AnswerSize(c.question.name), c.answers)
  }

  lemma NameSize(name: Bytes)
    ensures |NameBytes(name)| == |name| + 2
  {
    JoinSplit(name);
    WireLength(Split(name));
  }

  lemma {:induction false} WritesSum<T(!new)>(write: T -> Bytes, size: T -> nat, items: seq<T>)
    requires forall x {:trigger write(x)} :: |write(x)| == size(x)
    ensures |WriteAll(write, items)| == Sum(size, items)
  {
    if items != [] {
      WritesSum(write, size, items[1..]);
    }
  }

  lemma AnswerIsSized(question: Bytes, r: Record)
    ensures |AnswerWriter(Uncompressed(), question)(r)| == AnswerSize(question)(r)
  {
    DataLength(r);
    NameSize(r.name);
  }

  lemma WireIsSized(c: Message)
    ensures |MessageWire(Uncompressed(), c)| == SizeInBytes(c)
  {
    var question := c.question.name;
    var write := AnswerWriter(Uncompressed(), question);
    forall r {:trigger write(r)} ensures |write(r)| == AnswerSize(question)(r) {
      AnswerIsSized(question, r);
    }
    WritesSum(write, AnswerSize(question), c.answers);
    HeaderLength(c);
    NameSize(question);
  }

  /** A message is encoded exactly when its code fits, its names are host names and its size is at most 512 bytes. */
  lemma EncodesExactly(m: Message, c: Message)
    requires Canonical(m, c)
    ensures Encode(m).Some? <==> m.rcode <= 15 && |m.answers| <= 32 && SizeInBytes(c) <= 512
    ensures Encode(m).Some? ==> |Encode(m).value| == SizeInBytes(c)
  {
    CanonicalExactly(m, c);
    WireIsSized(c);
  }

  lemma UnnamedIsRefused(m: Message)
    requires forall c :: !Canonical(m, c)
    ensures Encode(m).None?
  {
    if CanonicalMessage(m).Some? {
      CanonicalExactly(m, CanonicalMessage(m).value);
    }
  }
}
