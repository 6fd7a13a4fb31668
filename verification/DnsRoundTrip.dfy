/** Names and messages survive the wire, and the one family that does not. */
module DnsRoundTrip {
  import opened Prelude
  import opened DnsSpec

  // ------------------------------------------------------------------------ split, join

  lemma {:induction false} FindIs(s: Bytes, i: nat, test: Byte -> bool)
    requires i <= |s|
    ensures Find(Text(s), i, test) < |s| ==> test(s[Find(Text(s), i, test)])
    decreases |s| - i
  {
    if i < |s| && !test(s[i]) {
      FindIs(s, i + 1, test);
    }
  }

  lemma {:induction false} JoinFrom(s: Bytes, i: nat, dot: Byte -> bool)
    requires i <= |s| && dot == IsDot()
    ensures Join(SplitFrom(Text(s), i, dot)) == s[i..]
    decreases |s| - i
  {
    var j := Find(Text(s), i, dot);
    FindIs(s, i, dot);
    if j < |s| {
      JoinFrom(s, j + 1, dot);
      assert s[i..] == s[i..j] + [DOT] + s[j + 1..];
    }
  }

  lemma JoinSplit(s: Bytes)
    ensures Join(Split(s)) == s
  {
    JoinFrom(s, 0, IsDot());
  }

  ghost predicate NoDot(part: Bytes) {
    forall i :: 0 <= i < |part| ==> part[i] != DOT
  }

  ghost predicate NoDots(labels: Labels) {
    labels.Label? ==> NoDot(labels.first) && NoDots(labels.rest)
  }

  lemma {:induction false} FindsFirst(s: Bytes, i: nat, j: nat, test: Byte -> bool)
    requires i <= j <= |s| && (j < |s| ==> test(s[j])) && forall k :: i <= k < j ==> !test(s[k])
    ensures Find(Text(s), i, test) == j
    decreases j - i
  {
    if i < j {
      FindsFirst(s, i + 1, j, test);
    }
  }

  /** Where the first label of a joined name ends. */
  lemma JoinStarts(s: Bytes, i: nat, labels: Labels)
    requires labels.Label? && i <= |s| && s[i..] == Join(labels)
    ensures var j := i + |labels.first|;
            && j <= |s| && s[i..j] == labels.first && (labels.rest.Root? ==> j == |s|)
            && (labels.rest.Label? ==> j < |s| && s[j] == DOT && s[j + 1..] == Join(labels.rest))
  {
  }

  lemma FirstLabelEnds(s: Bytes, i: nat, labels: Labels, dot: Byte -> bool)
    requires labels.Label? && NoDots(labels) && i <= |s| && s[i..] == Join(labels) && dot == IsDot()
    ensures Find(Text(s), i, dot) == i + |labels.first|
  {
    var j := i + |labels.first|;
    JoinStarts(s, i, labels);
    forall k | i <= k < j ensures !dot(s[k]) {
      assert s[i..j][k - i] == labels.first[k - i];
    }
    FindsFirst(s, i, j, dot);
  }

  lemma {:induction false} SplitFirst(s: Bytes, i: nat, j: nat, dot: Byte -> bool)
    requires i <= |s| && Find(Text(s), i, dot) == j
    ensures i <= j <= |s|
    ensures SplitFrom(Text(s), i, dot) == Label(s[i..j], if j == |s| then Root else SplitFrom(Text(s), j + 1, dot))
  {
  }

  lemma {:induction false} SplitJoinFrom(s: Bytes, i: nat, labels: Labels, dot: Byte -> bool)
    requires labels.Label? && NoDots(labels) && i <= |s| && s[i..] == Join(labels) && dot == IsDot()
    ensures SplitFrom(Text(s), i, dot) == labels
    decreases labels
  {
    var j := i + |labels.first|;
    JoinStarts(s, i, labels);
    FirstLabelEnds(s, i, labels, dot);
    SplitFirst(s, i, j, dot);
    if labels.rest.Label? {
      SplitJoinFrom(s, j + 1, labels.rest, dot);
    }
  }

  lemma SplitJoin(labels: Labels)
    requires labels.Label? && NoDots(labels)
    ensures Split(Join(labels)) == labels
  {
    assert Join(labels)[0..] == Join(labels);
    SplitJoinFrom(Join(labels), 0, labels, IsDot());
  }

  /** The wire form of a name has one byte more than the name at each end. */
  lemma {:induction false} WireLength(labels: Labels)
    requires labels.Label?
    ensures |Wire(labels)| == |Join(labels)| + 2
  {
    if labels.rest.Label? {
      WireLength(labels.rest);
    }
  }

  predicate GoodLabels(labels: Labels) {
    match labels
    case Root => true
    case Label(first, rest) => GoodPart(first, 0, |first|) && GoodLabels(rest)
  }

  lemma {:induction false} LabelCount(labels: Labels)
    requires labels.Label? && GoodLabels(labels)
    ensures 2 * Count(labels) - 1 <= |Join(labels)|
  {
    if labels.rest.Label? {
      LabelCount(labels.rest);
    }
  }

  lemma SliceIsGood(s: Bytes, i: nat, j: nat)
    requires i <= j <= |s|
    ensures GoodPart(s[i..j], 0, j - i) <==> GoodPart(s, i, j)
  {
  }

  /** Checking a name in place is checking its labels. */
  lemma {:induction false} GoodFromIsGoodLabels(s: Bytes, i: nat, dot: Byte -> bool)
    requires i <= |s|
    ensures GoodFrom(Text(s), i, dot) <==> GoodLabels(SplitFrom(Text(s), i, dot))
    decreases |s| - i
  {
    var j := Find(Text(s), i, dot);
    SliceIsGood(s, i, j);
    if j < |s| {
      GoodFromIsGoodLabels(s, j + 1, dot);
    }
  }

  // ------------------------------------------------------------------------ canonicality

  lemma {:induction false} LowerFind(s: Bytes, i: nat, dot: Byte -> bool)
    requires i <= |s| && dot == IsDot()
    ensures Find(Text(Lower(s)), i, dot) == Find(Text(s), i, dot)
    decreases |s| - i
  {
    if i < |s| {
      assert Lower(s)[i] == LowerByte(s[i]);
      LowerFind(s, i + 1, dot);
    }
  }

  lemma LowerPart(s: Bytes, i: nat, j: nat)
    requires i <= j <= |s| && GoodPart(s, i, j)
    ensures GoodPart(Lower(s), i, j)
  {
  }

  lemma {:induction false} LowerGood(s: Bytes, i: nat, dot: Byte -> bool)
    requires i <= |s| && dot == IsDot() && GoodFrom(Text(s), i, dot)
    ensures GoodFrom(Text(Lower(s)), i, dot)
    decreases |s| - i
  {
    var j := Find(Text(s), i, dot);
    LowerFind(s, i, dot);
    LowerPart(s, i, j);
    if j < |s| {
      LowerGood(s, j + 1, dot);
    }
  }

  lemma LowerTwice(s: Bytes)
    ensures Lower(Lower(s)) == Lower(s)
  {
  }

  /** A name that ends in a dot has an empty last label. */
  lemma {:induction false} NoTrailingDot(s: Bytes, i: nat, dot: Byte -> bool)
    requires i <= |s| && GoodFrom(Text(s), i, dot)
    ensures i < |s| && s[|s| - 1] != DOT
    decreases |s| - i
  {
    var j := Find(Text(s), i, dot);
    if j < |s| {
      NoTrailingDot(s, j + 1, dot);
    } else {
      assert HostByte(s[j - 1]);
    }
  }

  /** Canonical names are fixed points, and their labels are good. */
  lemma CanonicalIsStable(s: Bytes)
    requires DnsName(s).Some?
    ensures var c := DnsName(s).value;
            DnsName(c) == Some(c) && c != [] && |c| <= MAX_NAME && GoodFrom(Text(c), 0, IsDot())
  {
    var name := StripDot(s);
    LowerGood(name, 0, IsDot());
    NoTrailingDot(Lower(name), 0, IsDot());
    LowerTwice(name);
  }

  // ------------------------------------------------------------------------ reading back

  ghost predicate ByteAt(bytes: Bytes, at: nat, w: Bytes, i: nat)
    requires at + |w| <= |bytes| && i < |w|
  {
    bytes[at + i] == w[i]
  }

  /** `w` stands in `bytes` at offset `at`. */
  ghost predicate At(bytes: Bytes, at: nat, w: Bytes) {
    at + |w| <= |bytes| && forall i {:trigger ByteAt(bytes, at, w, i)} :: 0 <= i < |w| ==> ByteAt(bytes, at, w, i)
  }

  lemma AtParts(bytes: Bytes, at: nat, w: Bytes, a: Bytes, b: Bytes)
    requires At(bytes, at, w) && w == a + b
    ensures At(bytes, at, a) && At(bytes, at + |a|, b)
  {
    forall i | 0 <= i < |a| ensures ByteAt(bytes, at, a, i) {
      assert ByteAt(bytes, at, w, i);
    }
    forall i: nat {:trigger ByteAt(bytes, at + |a|, b, i)} | 0 <= i < |b| ensures ByteAt(bytes, at + |a|, b, i) {
      assert ByteAt(bytes, at, w, |a| + i);
    }
  }

  lemma AtByte(bytes: Bytes, at: nat, w: Bytes, i: nat)
    requires At(bytes, at, w) && i < |w|
    ensures bytes[at + i] == w[i]
  {
    assert ByteAt(bytes, at, w, i);
  }

  lemma AtSlice(bytes: Bytes, at: nat, w: Bytes)
    requires At(bytes, at, w)
    ensures bytes[at..at + |w|] == w
  {
    forall i | 0 <= i < |w| ensures bytes[at..at + |w|][i] == w[i] {
      assert ByteAt(bytes, at, w, i);
    }
  }

  lemma WalkLabel(bytes: Bytes, at: nat, length: nat, first: Bytes, rest: Labels, steps: nat, next: nat)
    requires GoodPart(first, 0, |first|) && At(bytes, at, [|first|]) && At(bytes, at + 1, first)
             && length + |first| + 1 <= 254
    requires Walk(bytes, at + 1 + |first|, length + |first| + 1) == Some(Read(Walked(rest, steps), next))
    ensures Walk(bytes, at, length) == Some(Read(Walked(Label(first, rest), steps + 1), next))
  {
    AtByte(bytes, at, [|first|], 0);
    AtSlice(bytes, at + 1, first);
  }

  lemma WalkRoot(bytes: Bytes, at: nat, length: nat)
    requires At(bytes, at, [0])
    ensures Walk(bytes, at, length) == Some(Read(Walked(Root, 1), at + 1))
  {
    AtByte(bytes, at, [0], 0);
  }

  lemma LabelThenRest(bytes: Bytes, at: nat, first: Bytes, rest: Labels)
    requires GoodPart(first, 0, |first|) && At(bytes, at, Wire(Label(first, rest)))
    ensures At(bytes, at, [|first|]) && At(bytes, at + 1, first) && At(bytes, at + 1 + |first|, Wire(rest))
  {
    AtParts(bytes, at, Wire(Label(first, rest)), [|first|] + first, Wire(rest));
    AtParts(bytes, at, [|first|] + first, [|first|], first);
  }

  lemma WireIsNotEmpty(labels: Labels)
    ensures |Wire(labels)| >= 1
  {
  }

  /** Walking over an uncompressed name gives its labels back. */
  lemma {:induction false} WalkWire(bytes: Bytes, at: nat, length: nat, labels: Labels)
    requires At(bytes, at, Wire(labels)) && GoodLabels(labels) && length + |Wire(labels)| <= 255
    ensures Walk(bytes, at, length) == Some(Read(Walked(labels, Count(labels) + 1), at + |Wire(labels)|))
    decreases labels
  {
    match labels
    case Root => WalkRoot(bytes, at, length);
    case Label(first, rest) =>
      LabelThenRest(bytes, at, first, rest);
      WireIsNotEmpty(rest);
      WalkWire(bytes, at + 1 + |first|, length + |first| + 1, rest);
      WalkLabel(bytes, at, length, first, rest, Count(rest) + 1, at + |Wire(labels)|);
  }

  lemma CanonicalLabels(name: Bytes)
    requires DnsName(name) == Some(name)
    ensures GoodLabels(Split(name)) && Count(Split(name)) <= 127 && |Wire(Split(name))| <= 255
  {
    CanonicalIsStable(name);
    GoodFromIsGoodLabels(name, 0, IsDot());
    JoinSplit(name);
    WireLength(Split(name));
    LabelCount(Split(name));
  }

  /** The labels of a canonical name make up that name again, if they were reached in time. */
  lemma NameFrom(name: Bytes, steps: nat, next: nat)
    requires DnsName(name) == Some(name)
    ensures NameOf(Some(Read(Walked(Split(name), steps), next))) == if steps <= MAX_STEPS then Some(Read(name, next))
            else None
  {
    JoinSplit(name);
  }

  lemma WalkPointer(bytes: Bytes, at: nat, labels: Labels, steps: nat, next: nat)
    requires Walk(bytes, 12, 0) == Some(Read(Walked(labels, steps), next))
    requires 12 < at && at + 1 < |bytes| && bytes[at] == 0xC0 && bytes[at + 1] == 0x0C
    ensures Walk(bytes, at, 0) == Some(Read(Walked(labels, steps + 1), at + 2))
  {
  }

  lemma PointerBytes(bytes: Bytes, at: nat)
    requires At(bytes, at, [0xC0, 0x0C])
    ensures at + 1 < |bytes| && bytes[at] == 0xC0 && bytes[at + 1] == 0x0C
  {
    AtByte(bytes, at, [0xC0, 0x0C], 0);
    AtByte(bytes, at, [0xC0, 0x0C], 1);
  }

  lemma PointerWalks(bytes: Bytes, at: nat, labels: Labels)
    requires At(bytes, 12, Wire(labels)) && GoodLabels(labels) && |Wire(labels)| <= 255 && at > 12
             && At(bytes, at, [0xC0, 0x0C])
    ensures Walk(bytes, at, 0) == Some(Read(Walked(labels, Count(labels) + 2), at + 2))
  {
    WalkWire(bytes, 12, 0, labels);
    PointerBytes(bytes, at);
    WalkPointer(bytes, at, labels, Count(labels) + 1, 12 + |Wire(labels)|);
  }

  // ------------------------------------------------------------------------- one answer

  lemma WordReads(bytes: Bytes, at: nat, n: nat)
    requires At(bytes, at, Word(n)) && n <= U16_MAX
    ensures WordAt(bytes, at) == n
  {
    AtByte(bytes, at, Word(n), 0);
    AtByte(bytes, at, Word(n), 1);
  }

  /** A word, and what follows it. */
  lemma WordThen(bytes: Bytes, at: nat, w: Bytes, n: nat, rest: Bytes)
    requires At(bytes, at, w) && w == Word(n) + rest && n <= U16_MAX
    ensures at + 2 <= |bytes| && WordAt(bytes, at) == n && At(bytes, at + 2, rest)
  {
    AtParts(bytes, at, w, Word(n), rest);
    WordReads(bytes, at, n);
  }

  lemma OctetsRead(bytes: Bytes, at: nat, a: Address)
    requires At(bytes, at, Octets(a))
    ensures at + 4 <= |bytes| && Address(bytes[at], bytes[at + 1], bytes[at + 2], bytes[at + 3]) == a
  {
    AtByte(bytes, at, Octets(a), 0);
    AtByte(bytes, at, Octets(a), 1);
    AtByte(bytes, at, Octets(a), 2);
    AtByte(bytes, at, Octets(a), 3);
  }

  /** The fixed part of an answer. */
  lemma DataReads(bytes: Bytes, at: nat, r: Record)
    requires At(bytes, at, DataWire(r)) && r.ttl <= U32_MAX
    ensures at + 14 <= |bytes| && WordAt(bytes, at) == 1 && WordAt(bytes, at + 2) == 1 && WordAt(bytes, at + 8) == 4
    ensures WordAt(bytes, at + 4) * 65536 + WordAt(bytes, at + 6) == r.ttl
    ensures Address(bytes[at + 10], bytes[at + 11], bytes[at + 12], bytes[at + 13]) == r.address
  {
    var high, low := r.ttl / 65536, r.ttl % 65536;
    var w10 := Octets(r.address);
    var w8 := Word(4) + w10;
    var w6 := Word(low) + w8;
    var w4 := Word(high) + w6;
    var w2 := Word(1) + w4;
    WordThen(bytes, at, DataWire(r), 1, w2);
    WordThen(bytes, at + 2, w2, 1, w4);
    WordThen(bytes, at + 4, w4, high, w6);
    WordThen(bytes, at + 6, w6, low, w8);
    WordThen(bytes, at + 8, w8, 4, w10);
    OctetsRead(bytes, at + 10, r.address);
  }

  lemma AnswerFrom(bytes: Bytes, at: nat, name: Bytes, r: Record)
    requires At(bytes, at, DataWire(r)) && r.ttl <= U32_MAX
    ensures AnswerAfter(bytes, Some(Read(name, at))) == Some(Read([r.(name := name)], at + 14))
  {
    DataReads(bytes, at, r);
  }

  // ------------------------------------------------------------------------ all answers

  /** Reading gives the item back wherever its wire form stands; a lost item cannot be read. */
  ghost predicate Restored<T(!new)>(bytes: Bytes, write: T -> Bytes, read: nat -> Option<Read<seq<T>>>, item: T,
                                    lost: bool)
  {
    forall at :: at > 12 && At(bytes, at, write(item))
      ==> read(at) == (if lost then None else Some(Read([item], at + |write(item)|)))
  }

  ghost predicate AllRestored<T(!new)>(bytes: Bytes, write: T -> Bytes, read: nat -> Option<Read<seq<T>>>,
                                       items: seq<T>, lost: T -> bool)
  {
    items == [] || (Restored(bytes, write, read, items[0], lost(items[0]))
                    && AllRestored(bytes, write, read, items[1..], lost))
  }

  predicate NoneLost<T>(items: seq<T>, lost: T -> bool) {
    items == [] || (!lost(items[0]) && NoneLost(items[1..], lost))
  }

  lemma FirstThenRest<T>(items: seq<T>)
    requires items != []
    ensures [items[0]] + items[1..] == items
  {
  }

  /** A list reads back as a whole, for any way of writing and reading its items, unless one of them is lost. */
  lemma {:induction false} ListReads<T(!new)>(bytes: Bytes, write: T -> Bytes, read: nat -> Option<Read<seq<T>>>,
                                              at: nat, items: seq<T>,
                                        lost: T -> bool)
    requires at > 12 && At(bytes, at, WriteAll(write, items)) && AllRestored(bytes, write, read, items, lost)
    ensures ReadAll(read, at, |items|)
            == if NoneLost(items, lost) then Some(Read(items, at + |WriteAll(write, items)|)) else None
    decreases |items|
  {
    if items != [] {
      AtParts(bytes, at, WriteAll(write, items), write(items[0]), WriteAll(write, items[1..]));
      ListReads(bytes, write, read, at + |write(items[0])|, items[1..], lost);
      FirstThenRest(items);
    }
  }

  // ------------------------------------------------------------------------ the message

  /** Flags of three distinct weights and a four-bit code do not disturb each other. */
  lemma FlagBits(response: bool, authoritative: bool, recursion: bool, rcode: nat)
    requires rcode <= 15
    ensures var f := Flag(response, 0x8000) + Flag(authoritative, 0x0400) + Flag(recursion, 0x0100) + rcode;
            && f <= U16_MAX && f % 16 == rcode
            && Bit(f, 0x8000) == response && Bit(f, 0x0400) == authoritative && Bit(f, 0x0100) == recursion
  {
  }

  lemma FlagsReserveNothing(response: bool, authoritative: bool, recursion: bool, rcode: nat)
    requires rcode <= 15
    ensures !Reserved(Flag(response, 0x8000) + Flag(authoritative, 0x0400) + Flag(recursion, 0x0100) + rcode)
  {
  }

  lemma FlagsRead(m: Message)
    requires m.rcode <= 15
    ensures var f := Flags(m);
            && f <= U16_MAX && !Reserved(f) && f % 16 == m.rcode
            && Bit(f, 0x8000) == m.response && Bit(f, 0x0400) == m.authoritative && Bit(f, 0x0100) == m.recursionDesired
  {
    FlagBits(m.response, m.authoritative, m.recursionDesired, m.rcode);
    FlagsReserveNothing(m.response, m.authoritative, m.recursionDesired, m.rcode);
  }

  lemma HeaderReads(bytes: Bytes, m: Message)
    requires Typed(m) && m.rcode <= 15 && |m.answers| <= 32 && At(bytes, 0, Header(m))
    ensures |bytes| >= 12 && WordAt(bytes, 0) == m.id && WordAt(bytes, 2) == Flags(m) && WordAt(bytes, 4) == 1
    ensures WordAt(bytes, 6) == |m.answers| && WordAt(bytes, 8) == 0 && WordAt(bytes, 10) == 0
  {
    FlagsRead(m);
    var w10 := Word(0);
    var w8 := Word(0) + w10;
    var w6 := Word(|m.answers|) + w8;
    var w4 := Word(1) + w6;
    var w2 := Word(Flags(m)) + w4;
    WordThen(bytes, 0, Header(m), m.id, w2);
    WordThen(bytes, 2, w2, Flags(m), w4);
    WordThen(bytes, 4, w4, 1, w6);
    WordThen(bytes, 6, w6, |m.answers|, w8);
    WordThen(bytes, 8, w8, 0, w10);
    WordReads(bytes, 10, 0);
  }

  /** Where each part of an assembled message stands. */
  lemma PartsStand(bytes: Bytes, header: Bytes, name: Bytes, kind: Bytes, qclass: Bytes, answers: Bytes)
    requires bytes == Assemble(header, name, kind, qclass, answers)
    ensures var a := |header|;
            var b := a + |name|;
            var c := b + |kind|;
            var d := c + |qclass|;
            && At(bytes, 0, header) && At(bytes, a, name) && At(bytes, b, kind) && At(bytes, c, qclass)
            && At(bytes, d, answers)
            && d + |answers| == |bytes|
  {
  }

  lemma DecodeLands(bytes: Bytes, names: nat -> Option<Read<Bytes>>, m: Message, end: nat,
                                       answers: Option<Read<seq<Record>>>)
    requires Typed(m) && m.rcode <= 15 && |m.answers| <= 32 && 12 <= |bytes| <= MAX_MESSAGE && end + 4 <= |bytes|
    requires At(bytes, 0, Header(m)) && At(bytes, end, Word(m.question.kind))
             && At(bytes, end + 2, Word(m.question.qclass))
    requires names(12) == Some(Read(m.question.name, end))
    requires ReadAll(AnswerReader(bytes, names), end + 4, |m.answers|) == answers
    requires answers.Some? ==> answers.value == Read(m.answers, |bytes|)
    ensures DecodeBy(bytes, names) == if answers.Some? then Some(m) else None
  {
    HeaderReads(bytes, m);
    FlagsRead(m);
    WordReads(bytes, end, m.question.kind);
    WordReads(bytes, end + 2, m.question.qclass);
  }

  /** Wherever a name is written out, it is read back. */
  ghost predicate Spelled(bytes: Bytes, names: nat -> Option<Read<Bytes>>, wire: Bytes -> Bytes, name: Bytes) {
    forall at {:trigger names(at)} :: at >= 12 && At(bytes, at, wire(name))
      ==> names(at) == Some(Read(name, at + |wire(name)|))
  }

  ghost predicate AllSpelled(bytes: Bytes, names: nat -> Option<Read<Bytes>>, wire: Bytes -> Bytes,
                             answers: seq<Record>)
  {
    answers == []
    || (Spelled(bytes, names, wire, answers[0].name) && answers[0].ttl <= U32_MAX
        && AllSpelled(bytes, names, wire, answers[1..]))
  }

  /** Wherever a pointer to the question stands, the question is read, if it is in reach. */
  ghost predicate Pointed(bytes: Bytes, names: nat -> Option<Read<Bytes>>, question: Bytes, reach: bool) {
    forall at {:trigger names(at)} ::
      at > 12 && At(bytes, at, [0xC0, 0x0C]) ==> names(at) == (if reach then Some(Read(question, at + 2)) else None)
  }

  /** An answer is lost when it is written as a pointer that leads out of reach. */
  function Lost(question: Bytes, reach: bool): Record -> bool {
    (r: Record) => r.name == question && !reach
  }

  lemma NameReads(bytes: Bytes, names: nat -> Option<Read<Bytes>>, wire: Bytes -> Bytes, question: Bytes,
                                     reach: bool, at: nat, name: Bytes)
    requires Spelled(bytes, names, wire, name) && Pointed(bytes, names, question, reach)
    requires at > 12 && At(bytes, at, NameWire(wire, question, name))
    ensures names(at)
            == if name == question && !reach then None else Some(Read(name, at + |NameWire(wire, question, name)|))
  {
  }

  lemma DataLength(r: Record)
    ensures |DataWire(r)| == 14
  {
  }

  lemma AnswerReads(bytes: Bytes, names: nat -> Option<Read<Bytes>>, wire: Bytes -> Bytes, question: Bytes,
                                       reach: bool, at: nat, r: Record)
    requires Spelled(bytes, names, wire, r.name) && Pointed(bytes, names, question, reach) && r.ttl <= U32_MAX
    requires at > 12 && At(bytes, at, AnswerWire(wire, question, r))
    ensures AnswerAfter(bytes, names(at))
            == if r.name == question && !reach then None else Some(Read([r], at + |AnswerWire(wire, question, r)|))
  {
    var head := NameWire(wire, question, r.name);
    AtParts(bytes, at, AnswerWire(wire, question, r), head, DataWire(r));
    NameReads(bytes, names, wire, question, reach, at, r.name);
    AnswerFrom(bytes, at + |head|, r.name, r);
    DataLength(r);
  }

  lemma {:induction false} AnswersRestored(bytes: Bytes, names: nat -> Option<Read<Bytes>>, wire: Bytes -> Bytes,
                                           question: Bytes,
                                           reach: bool, answers: seq<Record>)
    requires AllSpelled(bytes, names, wire, answers) && Pointed(bytes, names, question, reach)
    ensures AllRestored(bytes, AnswerWriter(wire, question), AnswerReader(bytes, names), answers, Lost(question, reach))
  {
    if answers != [] {
      var r := answers[0];
      var w := AnswerWriter(wire, question)(r);
      forall at | at > 12 && At(bytes, at, w)
        ensures AnswerReader(bytes, names)(at) == if Lost(question, reach)(r) then None else Some(Read([r], at + |w|))
      {
        AnswerReads(bytes, names, wire, question, reach, at, r);
      }
      AnswersRestored(bytes, names, wire, question, reach, answers[1..]);
    }
  }

  /** The message layer as a whole, over any way of writing and reading names. */
  lemma MessageReads(m: Message, bytes: Bytes, names: nat -> Option<Read<Bytes>>, wire: Bytes -> Bytes, reach: bool)
    requires Typed(m) && m.rcode <= 15 && |m.answers| <= 32 && |bytes| <= MAX_MESSAGE
    requires bytes == MessageWire(wire, m) && wire(m.question.name) != []
    requires Spelled(bytes, names, wire, m.question.name) && AllSpelled(bytes, names, wire, m.answers)
    requires Pointed(bytes, names, m.question.name, reach)
    ensures DecodeBy(bytes, names) == if NoneLost(m.answers, Lost(m.question.name, reach)) then Some(m) else None
  {
    var name, question := wire(m.question.name), m.question.name;
    var answers := WriteAll(AnswerWriter(wire, question), m.answers);
    var end := 12 + |name|;
    HeaderLength(m);
    PartsStand(bytes, Header(m), name, Word(m.question.kind), Word(m.question.qclass), answers);
    AnswersRestored(bytes, names, wire, question, reach, m.answers);
    ListReads(bytes, AnswerWriter(wire, question), AnswerReader(bytes, names), end + 4, m.answers,
              Lost(question, reach));
    DecodeLands(bytes, names, m, end, ReadAll(AnswerReader(bytes, names), end + 4, |m.answers|));
  }

  lemma HeaderLength(m: Message)
    ensures |Header(m)| == 12
  {
  }

  ghost predicate WalksOver(bytes: Bytes, walk: nat -> Option<Read<Walked>>, labels: Labels) {
    forall at: nat {:trigger walk(at)} ::
      At(bytes, at, Wire(labels)) ==> walk(at) == Some(Read(Walked(labels, Count(labels) + 1), at + |Wire(labels)|))
  }

  /** A pointer costs one step more than the name it points to. */
  ghost predicate WalksBack(bytes: Bytes, walk: nat -> Option<Read<Walked>>, labels: Labels) {
    forall at: nat {:trigger walk(at)} ::
      at > 12 && At(bytes, at, [0xC0, 0x0C]) ==> walk(at) == Some(Read(Walked(labels, Count(labels) + 2), at + 2))
  }

  lemma WalkerWalksOver(bytes: Bytes, labels: Labels)
    requires GoodLabels(labels) && |Wire(labels)| <= 255
    ensures WalksOver(bytes, Walker(bytes), labels)
  {
    forall at: nat {:trigger Walker(bytes)(at)} | At(bytes, at, Wire(labels))
      ensures Walker(bytes)(at) == Some(Read(Walked(labels, Count(labels) + 1), at + |Wire(labels)|))
    {
      WalkWire(bytes, at, 0, labels);
    }
  }

  lemma WalkerWalksBack(bytes: Bytes, labels: Labels)
    requires GoodLabels(labels) && |Wire(labels)| <= 255 && At(bytes, 12, Wire(labels))
    ensures WalksBack(bytes, Walker(bytes), labels)
  {
    forall at: nat {:trigger Walker(bytes)(at)} | at > 12 && At(bytes, at, [0xC0, 0x0C])
      ensures Walker(bytes)(at) == Some(Read(Walked(labels, Count(labels) + 2), at + 2))
    {
      PointerWalks(bytes, at, labels);
    }
  }

  /** An uncompressed canonical name reads back as itself. */
  lemma CanonicalSpelled(bytes: Bytes, walk: nat -> Option<Read<Walked>>, name: Bytes)
    requires DnsName(name) == Some(name) && WalksOver(bytes, walk, Split(name)) && Count(Split(name)) <= 127
    ensures Spelled(bytes, NameReader(walk), Uncompressed(), name)
  {
    forall at {:trigger NameReader(walk)(at)} | at >= 12 && At(bytes, at, Uncompressed()(name))
      ensures NameReader(walk)(at) == Some(Read(name, at + |Uncompressed()(name)|))
    {
      assert walk(at).Some?;
      NameFrom(name, Count(Split(name)) + 1, at + |Wire(Split(name))|);
    }
  }

  lemma QuestionPointed(bytes: Bytes, walk: nat -> Option<Read<Walked>>, question: Bytes)
    requires DnsName(question) == Some(question) && WalksBack(bytes, walk, Split(question))
    ensures Pointed(bytes, NameReader(walk), question, Count(Split(question)) <= 126)
  {
    forall at {:trigger NameReader(walk)(at)} | at > 12 && At(bytes, at, [0xC0, 0x0C])
      ensures NameReader(walk)(at) == if Count(Split(question)) <= 126 then Some(Read(question, at + 2)) else None
    {
      assert walk(at).Some?;
      NameFrom(question, Count(Split(question)) + 2, at + 2);
    }
  }

  /** Every pointer leads to a question name the reader can still finish. */
  predicate PointersInReach(c: Message) {
    NoneLost(c.answers, Lost(c.question.name, Count(Split(c.question.name)) <= 126))
  }

  predicate Fits(r: Record) {
    r.ttl <= U32_MAX
  }

  /** The name is canonical and the lifetime fits its field. */
  predicate Stable(r: Record) {
    DnsName(r.name) == Some(r.name) && r.ttl <= U32_MAX
  }

  predicate All<T>(test: T -> bool, items: seq<T>) {
    items == [] || (test(items[0]) && All(test, items[1..]))
  }

  lemma {:induction false} AllIsEach<T>(test: T -> bool, items: seq<T>)
    ensures All(test, items) <==> forall i :: 0 <= i < |items| ==> test(items[i])
  {
    if items != [] {
      AllIsEach(test, items[1..]);
      if All(test, items) {
        forall i | 0 <= i < |items| ensures test(items[i]) {
          if i > 0 {
            assert items[i] == items[1..][i - 1];
          }
        }
      }
    }
  }

  lemma AllWithFirst<T>(test: T -> bool, first: T, rest: seq<T>)
    requires test(first) && All(test, rest)
    ensures All(test, [first] + rest)
  {
  }

  /** If converting makes a good item of every acceptable one, converting a list makes a good list. */
  lemma {:induction false} ConvertedAll<T(!new)>(convert: T -> Option<T>, accept: T -> bool, good: T -> bool,
                                                 items: seq<T>)
    requires ConvertAll(convert, items).Some? && All(accept, items)
    requires forall x :: accept(x) && convert(x).Some? ==> good(convert(x).value)
    ensures |ConvertAll(convert, items).value| == |items| && All(good, ConvertAll(convert, items).value)
  {
    if items != [] {
      ConvertedAll(convert, accept, good, items[1..]);
      AllWithFirst(good, convert(items[0]).value, ConvertAll(convert, items[1..]).value);
    }
  }

  lemma CanonicalRecordsAreStable(answers: seq<Record>)
    requires ConvertAll(Canonicaliser(), answers).Some? && forall i :: 0 <= i < |answers| ==> answers[i].ttl <= U32_MAX
    ensures |ConvertAll(Canonicaliser(), answers).value| == |answers|
    ensures All(Stable, ConvertAll(Canonicaliser(), answers).value)
  {
    forall r: Record | Fits(r) && Canonicaliser()(r).Some? ensures Stable(Canonicaliser()(r).value) {
      CanonicalIsStable(r.name);
    }
    AllIsEach(Fits, answers);
    ConvertedAll(Canonicaliser(), Fits, Stable, answers);
  }

  lemma StableFits(answers: seq<Record>)
    requires All(Stable, answers)
    ensures forall i :: 0 <= i < |answers| ==> answers[i].ttl <= U32_MAX
  {
    AllIsEach(Stable, answers);
  }

  lemma NameSpelled(bytes: Bytes, name: Bytes)
    requires DnsName(name) == Some(name)
    ensures Spelled(bytes, NameReader(Walker(bytes)), Uncompressed(), name)
  {
    CanonicalLabels(name);
    WalkerWalksOver(bytes, Split(name));
    CanonicalSpelled(bytes, Walker(bytes), name);
  }

  lemma {:induction false} StableSpelled(bytes: Bytes, answers: seq<Record>, names: nat -> Option<Read<Bytes>>,
                                         wire: Bytes -> Bytes)
    requires All(Stable, answers) && names == NameReader(Walker(bytes)) && wire == Uncompressed()
    ensures AllSpelled(bytes, names, wire, answers)
  {
    if answers != [] {
      NameSpelled(bytes, answers[0].name);
      StableSpelled(bytes, answers[1..], names, wire);
    }
  }

  /** A message with canonical names decodes to itself, if its pointers are in reach. */
  lemma CanonicalRoundTrip(c: Message, bytes: Bytes)
    requires Typed(c) && c.rcode <= 15 && |c.answers| <= 32 && |bytes| <= MAX_MESSAGE
    requires DnsName(c.question.name) == Some(c.question.name) && All(Stable, c.answers)
    requires bytes == MessageWire(Uncompressed(), c)
    ensures Decode(bytes) == if PointersInReach(c) then Some(c) else None
  {
    var labels := Split(c.question.name);
    QuestionStands(c, bytes);
    CanonicalLabels(c.question.name);
    WalkerWalksBack(bytes, labels);
    QuestionPointed(bytes, Walker(bytes), c.question.name);
    NameSpelled(bytes, c.question.name);
    StableSpelled(bytes, c.answers, NameReader(Walker(bytes)), Uncompressed());
    WireIsNotEmpty(labels);
    MessageReads(c, bytes, NameReader(Walker(bytes)), Uncompressed(), Count(labels) <= 126);
  }

  lemma QuestionStands(c: Message, bytes: Bytes)
    requires bytes == MessageWire(Uncompressed(), c)
    ensures At(bytes, 12, Wire(Split(c.question.name)))
  {
  }

  /**
   Decoding what was encoded gives the message with canonical names, compressed answers
   included, exactly unless some answer is compressed against a question of 127 labels;
   then decoding fails.
   */
  lemma DecodeUndoesEncode(m: Message)
    requires Typed(m) && Encode(m).Some?
    ensures CanonicalMessage(m).Some?
    ensures Decode(Encode(m).value) == if PointersInReach(CanonicalMessage(m).value) then CanonicalMessage(m) else None
  {
    CanonicalIsStable(m.question.name);
    CanonicalRecordsAreStable(m.answers);
    StableFits(CanonicalMessage(m).value.answers);
    CanonicalRoundTrip(CanonicalMessage(m).value, Encode(m).value);
  }

  // --------------------------------------------------------------------- arbitrary bytes

  ghost predicate Settled(r: Record) {
    DnsName(r.name) == Some(r.name) && r.ttl <= U32_MAX
  }

  ghost predicate AllSettled(records: seq<Record>) {
    forall i :: 0 <= i < |records| ==> Settled(records[i])
  }

  /** Whatever bytes arrive, a decoded message has canonical names and at most 32 answers. */
  lemma DecodedIsCanonical(bytes: Bytes)
    requires Decode(bytes).Some?
    ensures var m := Decode(bytes).value;
            DnsName(m.question.name) == Some(m.question.name) && AllSettled(m.answers)
            && |m.answers| <= 32 && m.rcode <= 15 && m.id <= U16_MAX && m.question.kind <= U16_MAX
            && m.question.qclass <= U16_MAX
  {
    ReaderSettles(Walker(bytes));
    DecodedIsSettled(bytes, NameReader(Walker(bytes)));
  }

  ghost predicate CanonicalRead(r: Read<Bytes>) {
    DnsName(r.value) == Some(r.value)
  }

  lemma ReaderSettles(walk: nat -> Option<Read<Walked>>)
    ensures forall at :: NameReader(walk)(at).Some? ==> CanonicalRead(NameReader(walk)(at).value)
  {
    forall at | NameReader(walk)(at).Some? ensures CanonicalRead(NameReader(walk)(at).value) {
      NameIsSettled(walk(at));
    }
  }

  lemma NameIsSettled(walked: Option<Read<Walked>>)
    requires NameOf(walked).Some?
    ensures CanonicalRead(NameOf(walked).value)
  {
    CanonicalIsStable(Join(walked.value.value.labels));
  }

  ghost predicate Settles(read: nat -> Option<Read<seq<Record>>>) {
    forall at :: read(at).Some? ==> |read(at).value.value| <= 1 && AllSettled(read(at).value.value)
  }

  lemma AnswersSettle(bytes: Bytes, names: nat -> Option<Read<Bytes>>)
    requires forall at :: names(at).Some? ==> CanonicalRead(names(at).value)
    ensures Settles(AnswerReader(bytes, names))
  {
    forall at | AnswerReader(bytes, names)(at).Some?
      ensures |AnswerReader(bytes, names)(at).value.value| <= 1
              && AllSettled(AnswerReader(bytes, names)(at).value.value)
    {
      AnswerIsSettled(bytes, names(at));
    }
  }

  lemma DecodedIsSettled(bytes: Bytes, names: nat -> Option<Read<Bytes>>)
    requires DecodeBy(bytes, names).Some? && forall at :: names(at).Some? ==> CanonicalRead(names(at).value)
    ensures var m := DecodeBy(bytes, names).value;
            DnsName(m.question.name) == Some(m.question.name) && AllSettled(m.answers)
            && |m.answers| <= 32 && m.rcode <= 15 && m.id <= U16_MAX && m.question.kind <= U16_MAX
            && m.question.qclass <= U16_MAX
  {
    AnswersSettle(bytes, names);
    AnswersAreSettled(AnswerReader(bytes, names), names(12).value.next + 4, WordAt(bytes, 6));
    MessageIsSettled(bytes, names(12).value,
                     ReadAll(AnswerReader(bytes, names), names(12).value.next + 4, WordAt(bytes, 6)));
  }

  lemma MessageIsSettled(bytes: Bytes, name: Read<Bytes>, answers: Option<Read<seq<Record>>>)
    requires |bytes| >= 12 && name.next + 4 <= |bytes| && MessageFrom(bytes, name, answers).Some?
    ensures var m := MessageFrom(bytes, name, answers).value;
            m.question.name == name.value && m.answers == answers.value.value
            && m.rcode <= 15 && m.id <= U16_MAX && m.question.kind <= U16_MAX && m.question.qclass <= U16_MAX
  {
  }

  lemma AnswerIsSettled(bytes: Bytes, name: Option<Read<Bytes>>)
    requires name.Some? ==> DnsName(name.value.value) == Some(name.value.value)
    ensures var answer := AnswerAfter(bytes, name);
            answer.Some? ==> |answer.value.value| <= 1 && AllSettled(answer.value.value)
  {
  }

  lemma {:induction false} AnswersAreSettled(read: nat -> Option<Read<seq<Record>>>, at: nat, count: nat)
    requires Settles(read) && ReadAll(read, at, count).Some?
    ensures var records := ReadAll(read, at, count).value.value;
            |records| <= count && AllSettled(records)
    decreases count
  {
    if count > 0 {
      AnswersAreSettled(read, read(at).value.next, count - 1);
      SettledTogether(read(at).value.value, ReadAll(read, read(at).value.next, count - 1).value.value);
    }
  }

  lemma SettledTogether(a: seq<Record>, b: seq<Record>)
    requires AllSettled(a) && AllSettled(b)
    ensures AllSettled(a + b)
  {
  }

  // ---------------------------------------------------------------------- counterexample

  function Repeat(n: nat): Labels {
    if n == 0 then Root else Label([97], Repeat(n - 1))
  }

  lemma {:induction false} RepeatLabels(n: nat)
    ensures Count(Repeat(n)) == n && GoodLabels(Repeat(n)) && NoDots(Repeat(n))
            && (n > 0 ==> |Join(Repeat(n))| == 2 * n - 1)
  {
    if n > 0 {
      RepeatLabels(n - 1);
    }
  }

  lemma {:induction false} RepeatBytes(n: nat)
    ensures forall i :: 0 <= i < |Join(Repeat(n))| ==> Join(Repeat(n))[i] in {97, 46}
  {
    if n > 1 {
      RepeatBytes(n - 1);
      assert Join(Repeat(n)) == [97] + [DOT] + Join(Repeat(n - 1));
    }
  }

  lemma LowerIsItself(s: Bytes)
    requires forall i :: 0 <= i < |s| ==> LowerByte(s[i]) == s[i]
    ensures Lower(s) == s
  {
  }

  /** 127 labels of one byte: the longest canonical name. */
  lemma LongestIsCanonical(n: nat)
    requires n == 127
    ensures var name := Join(Repeat(n));
            DnsName(name) == Some(name) && Split(name) == Repeat(n) && |Wire(Split(name))| == 255
  {
    var name := Join(Repeat(n));
    RepeatLabels(n);
    RepeatBytes(n);
    SplitJoin(Repeat(n));
    GoodFromIsGoodLabels(name, 0, IsDot());
    NoTrailingDot(name, 0, IsDot());
    LowerIsItself(name);
    WireLength(Repeat(n));
  }

  lemma OneItem<T>(write: T -> Bytes, item: T)
    ensures WriteAll(write, [item]) == write(item)
  {
  }

  lemma OneConverted<T>(convert: T -> Option<T>, item: T)
    requires convert(item) == Some(item)
    ensures ConvertAll(convert, [item]) == Some([item])
  {
    assert [item][1..] == [];
    assert ConvertAll(convert, [item][1..]) == Some([]) && [item] + [] == [item];
  }

  lemma OneCompressedAnswer(name: Bytes, r: Record)
    requires DnsName(name) == Some(name) && r.name == name
    ensures ConvertAll(Canonicaliser(), [r]) == Some([r]) && |WriteAll(AnswerWriter(Uncompressed(), name), [r])| == 16
  {
    DataLength(r);
    OneItem(AnswerWriter(Uncompressed(), name), r);
    OneConverted(Canonicaliser(), r);
    assert AnswerWriter(Uncompressed(), name)(r) == [0xC0, 0x0C] + DataWire(r);
  }

  lemma LongestEncodes(name: Bytes, m: Message)
    requires DnsName(name) == Some(name) && |Wire(Split(name))| == 255 && m.question == Question(name, 1, 1)
             && m.rcode == 0
    requires |m.answers| == 1 && m.answers[0].name == name
    ensures CanonicalMessage(m) == Some(m) && Encode(m).Some?
  {
    assert m.answers == [m.answers[0]];
    OneCompressedAnswer(name, m.answers[0]);
    HeaderLength(m);
    SizeOf(Header(m), Wire(Split(name)), Word(1), Word(1), WriteAll(AnswerWriter(Uncompressed(), name), m.answers));
  }

  lemma SizeOf(header: Bytes, name: Bytes, kind: Bytes, qclass: Bytes, answers: Bytes)
    ensures |Assemble(header, name, kind, qclass, answers)| == |header| + |name| + |kind| + |qclass| + |answers|
  {
  }

  lemma OneOutOfReach(m: Message)
    requires |m.answers| == 1 && m.answers[0].name == m.question.name && Count(Split(m.question.name)) > 126
    ensures !PointersInReach(m)
  {
  }

  /** A response with the longest chain of labels and one compressed answer encodes, and cannot be decoded. */
  lemma LongestNameFailsToDecode(n: nat, m: Message)
    requires n == 127
    requires var name := Join(Repeat(n));
             m == Message(1, true, true, true, 0, Question(name, 1, 1), [Record(name, 300, Address(192, 0, 2, 1))])
    ensures Typed(m) && Encode(m).Some? && Decode(Encode(m).value) == None
  {
    LongestIsCanonical(n);
    RepeatLabels(n);
    LongestEncodes(m.question.name, m);
    DecodeUndoesEncode(m);
    OneOutOfReach(m);
  }
}
