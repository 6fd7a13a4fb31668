/** DNS names and single-question messages on the wire, with compression pointers. */
module DnsSpec {
  import opened Prelude

  type Bytes = seq<Byte>

  const DOT: Byte := 46
  const MAX_NAME: nat := 253
  const MAX_STEPS: nat := 128
  const MAX_MESSAGE: nat := 512

  /** A value read from the wire and the offset after it. */
  datatype Read<+T> = Read(value: T, next: nat)

  // ----------------------------------------------------------------------------- names

  datatype Text = Text(bytes: Bytes)

  /** The first position from `i` on where the byte passes the test, or the end. */
  function Find(t: Text, i: nat, test: Byte -> bool): (j: nat)
    requires i <= |t.bytes|
    ensures i <= j <= |t.bytes|
    decreases |t.bytes| - i
  {
    if i == |t.bytes| || test(t.bytes[i]) then i else Find(t, i + 1, test)
  }

  function IsDot(): Byte -> bool {
    (b: Byte) => b == DOT
  }

  /** The labels of a name, in order. */
  datatype Labels = Root | Label(first: Bytes, rest: Labels)

  function Count(labels: Labels): nat {
    match labels
    case Root => 0
    case Label(_, rest) => 1 + Count(rest)
  }

  function Append(a: Labels, b: Labels): Labels {
    match a
    case Root => b
    case Label(first, rest) => Label(first, Append(rest, b))
  }

  /** The pieces of what follows `i`, cut at every separator. */
  function SplitFrom(t: Text, i: nat, separator: Byte -> bool): Labels
    requires i <= |t.bytes|
    decreases |t.bytes| - i
  {
    var j := Find(t, i, separator);
    Label(t.bytes[i..j], if j == |t.bytes| then Root else SplitFrom(t, j + 1, separator))
  }

  /** `str::split('.')`: a name with n dots has n + 1 labels. */
  function Split(s: Bytes): Labels {
    SplitFrom(Text(s), 0, IsDot())
  }

  function Join(labels: Labels): Bytes {
    match labels
    case Root => []
    case Label(first, Root) => first
    case Label(first, rest) => first + [DOT] + Join(rest)
  }

  /** ASCII letter, digit, hyphen or underscore. */
  predicate HostByte(b: Byte) {
    48 <= b <= 57 || 65 <= b <= 90 || 97 <= b <= 122 || b == 45 || b == 95
  }

  /** The bytes of `s` from `i` to `j` make an acceptable label. */
  predicate GoodPart(s: Bytes, i: nat, j: nat)
    requires i <= j <= |s|
  {
    1 <= j - i <= 63 && forall k :: i <= k < j ==> HostByte(s[k])
  }

  /** Every piece from `i` on is an acceptable label. */
  predicate GoodFrom(t: Text, i: nat, separator: Byte -> bool)
    requires i <= |t.bytes|
    decreases |t.bytes| - i
  {
    var j := Find(t, i, separator);
    GoodPart(t.bytes, i, j) && (j < |t.bytes| ==> GoodFrom(t, j + 1, separator))
  }

  function LowerByte(b: Byte): Byte {
    if 65 <= b <= 90 then b + 32 else b
  }

  function Lower(s: Bytes): Bytes {
    seq(|s|, i requires 0 <= i < |s| => LowerByte(s[i]))
  }

  function StripDot(s: Bytes): Bytes {
    if s != [] && s[|s| - 1] == DOT then s[..|s| - 1] else s
  }

  /** Validate and canonicalise a host name. */
  function DnsName(s: Bytes): Option<Bytes> {
    var name := StripDot(s);
    if name == [] || |name| > MAX_NAME || !GoodFrom(Text(name), 0, IsDot()) then None else Some(Lower(name))
  }

  /** Length-prefixed labels and the root. */
  function Wire(labels: Labels): Bytes {
    match labels
    case Root => [0]
    case Label(first, rest) => [|first| % 256] + first + Wire(rest)
  }

  // ----------------------------------------------------------------------- reading names

  /** The labels met from one offset on, with every length byte and pointer visited counted. */
  datatype Walked = Walked(labels: Labels, steps: nat)

  /**
   Follow labels and pointers without any bound on their number. Pointers go strictly
   backwards and labels use up the 254 bytes a name may have, so this ends.
   */
  function Walk(bytes: Bytes, at: nat, length: nat): Option<Read<Walked>>
    decreases 254 - length, at
  {
    if at >= |bytes| then None
    else
      var size: int := bytes[at];
      if size >= 0xC0 then
        if at + 1 >= |bytes| then None
        else
          var target := (size - 0xC0) * 256 + bytes[at + 1] as int;
          if target < 12 || target >= at then None
          else
            match Walk(bytes, target, length)
            case None => None
            case Some(r) => Some(Read(Walked(r.value.labels, r.value.steps + 1), at + 2))
      else if size > 63 then None
      else if size == 0 then Some(Read(Walked(Root, 1), at + 1))
      else if at + 1 + size > |bytes| || length + size + 1 > 254 then None
      else
        match Walk(bytes, at + 1 + size, length + size + 1)
        case None => None
        case Some(r) => Some(Read(Walked(Label(bytes[at + 1..at + 1 + size], r.value.labels), r.value.steps + 1),
                                  r.next))
  }

  function ReadName(bytes: Bytes, at: nat): Option<Read<Bytes>> {
    NameOf(Walk(bytes, at, 0))
  }

  /** The reader gives up after 128 length bytes and pointers. */
  function NameOf(walked: Option<Read<Walked>>): Option<Read<Bytes>> {
    match walked
    case None => None
    case Some(r) =>
      if r.value.steps > MAX_STEPS then None
      else
        match DnsName(Join(r.value.labels))
        case None => None
        case Some(name) => Some(Read(name, r.next))
  }

  // -------------------------------------------------------------------------- messages

  datatype Question = Question(name: Bytes, kind: nat, qclass: nat)

  datatype Address = Address(a: Byte, b: Byte, c: Byte, d: Byte)

  datatype Record = Record(name: Bytes, ttl: nat, address: Address)

  datatype Message = Message(
    id: nat,
    response: bool,
    authoritative: bool,
    recursionDesired: bool,
    rcode: nat,
    question: Question,
    answers: seq<Record>)

  /** The integer widths of the fields. */
  predicate Typed(m: Message) {
    && m.id <= U16_MAX && m.question.kind <= U16_MAX && m.question.qclass <= U16_MAX
    && forall i :: 0 <= i < |m.answers| ==> m.answers[i].ttl <= U32_MAX
  }

  function Flag(b: bool, weight: nat): nat {
    if b then weight else 0
  }

  function Flags(m: Message): nat {
    Flag(m.response, 0x8000) + Flag(m.authoritative, 0x0400) + Flag(m.recursionDesired, 0x0100) + m.rcode
  }

  predicate Bit(flags: nat, weight: nat)
    requires weight > 0
  {
    flags / weight % 2 == 1
  }

  /** Operation code, truncation and the must-be-zero bit. */
  predicate Reserved(flags: nat) {
    Bit(flags, 0x4000) || Bit(flags, 0x2000) || Bit(flags, 0x1000) || Bit(flags, 0x0800) || Bit(flags, 0x0200)
      || Bit(flags, 0x0040)
  }

  function Word(n: nat): Bytes {
    [n / 256 % 256, n % 256]
  }

  function WordAt(bytes: Bytes, at: nat): nat
    requires at + 2 <= |bytes|
  {
    bytes[at] as int * 256 + bytes[at + 1] as int
  }

  function Header(m: Message): Bytes {
    Word(m.id) + (Word(Flags(m)) + (Word(1) + (Word(|m.answers|) + (Word(0) + Word(0)))))
  }

  /** A record named like the question points back to it; any other name is written out by `wire`. */
  function NameWire(wire: Bytes -> Bytes, question: Bytes, name: Bytes): Bytes {
    if name == question then [0xC0, 0x0C] else wire(name)
  }

  /** Type A, class IN, the time to live, and four bytes of address. */
  function DataWire(r: Record): Bytes {
    Word(1) + (Word(1) + (Word(r.ttl / 65536) + (Word(r.ttl % 65536) + (Word(4) + Octets(r.address)))))
  }

  function Octets(a: Address): Bytes {
    [a.a, a.b, a.c, a.d]
  }

  function AnswerWire(wire: Bytes -> Bytes, question: Bytes, r: Record): Bytes {
    NameWire(wire, question, r.name) + DataWire(r)
  }

  function AnswerWriter(wire: Bytes -> Bytes, question: Bytes): Record -> Bytes {
    (r: Record) => AnswerWire(wire, question, r)
  }

  function NameBytes(name: Bytes): Bytes {
    Wire(Split(name))
  }

  function Uncompressed(): Bytes -> Bytes {
    (name: Bytes) => NameBytes(name)
  }

  /** Items one after the other. */
  function WriteAll<T>(write: T -> Bytes, items: seq<T>): Bytes {
    if items == [] then [] else write(items[0]) + WriteAll(write, items[1..])
  }

  /** The parts of a message, in order. */
  function Assemble(header: Bytes, name: Bytes, kind: Bytes, qclass: Bytes, answers: Bytes): Bytes {
    header + (name + (kind + (qclass + answers)))
  }

  function CanonicalRecord(r: Record): Option<Record> {
    match DnsName(r.name)
    case None => None
    case Some(name) => Some(r.(name := name))
  }

  function Canonicaliser(): Record -> Option<Record> {
    (r: Record) => CanonicalRecord(r)
  }

  /** Every item converted, or nothing if one of them cannot be. */
  function ConvertAll<T>(convert: T -> Option<T>, items: seq<T>): Option<seq<T>> {
    if items == [] then Some([])
    else
      var first, rest := convert(items[0]), ConvertAll(convert, items[1..]);
      if first.Some? && rest.Some? then Some([first.value] + rest.value) else None
  }

  function CanonicalMessage(m: Message): Option<Message> {
    var name, answers := DnsName(m.question.name), ConvertAll(Canonicaliser(), m.answers);
    if name.Some? && answers.Some? then Some(m.(question := m.question.(name := name.value), answers := answers.value))
      else None
  }

  /** The wire form of a message whose names are canonical. */
  function MessageWire(wire: Bytes -> Bytes, m: Message): Bytes {
    Assemble(Header(m), wire(m.question.name), Word(m.question.kind), Word(m.question.qclass),
             WriteAll(AnswerWriter(wire, m.question.name), m.answers))
  }

  function Encode(m: Message): Option<Bytes> {
    if m.rcode > 15 || |m.answers| > 32 then None
    else
      match CanonicalMessage(m)
      case None => None
      case Some(c) =>
        var out := MessageWire(Uncompressed(), c);
        if |out| > MAX_MESSAGE then None else Some(out)
  }

  /** One answer; records other than IN A are read and not kept. */
  function AnswerAfter(bytes: Bytes, name: Option<Read<Bytes>>): Option<Read<seq<Record>>> {
    match name
    case None => None
    case Some(n) =>
      if n.next + 10 > |bytes| then None
      else
        var kind, rclass := WordAt(bytes, n.next), WordAt(bytes, n.next + 2);
        var ttl := WordAt(bytes, n.next + 4) * 65536 + WordAt(bytes, n.next + 6);
        var length := WordAt(bytes, n.next + 8);
        var data := n.next + 10;
        if data + length > |bytes| then None
        else if kind == 1 && rclass == 1 then
          if length != 4 then None
          else Some(Read([Record(n.value, ttl,
                                 Address(bytes[data], bytes[data + 1], bytes[data + 2], bytes[data + 3]))], data + 4))
        else Some(Read([], data + length))
  }

  /** What walking from each offset yields. */
  function Walker(bytes: Bytes): nat -> Option<Read<Walked>> {
    (at: nat) => Walk(bytes, at, 0)
  }

  function NameReader(walk: nat -> Option<Read<Walked>>): nat -> Option<Read<Bytes>> {
    (at: nat) => NameOf(walk(at))
  }

  function AnswerReader(bytes: Bytes, names: nat -> Option<Read<Bytes>>): nat -> Option<Read<seq<Record>>> {
    (at: nat) => AnswerAfter(bytes, names(at))
  }

  /** `count` items in a row; reading one may keep nothing of it. */
  function ReadAll<T>(read: nat -> Option<Read<seq<T>>>, at: nat, count: nat): Option<Read<seq<T>>>
    decreases count
  {
    if count == 0 then Some(Read([], at))
    else
      match read(at)
      case None => None
      case Some(first) => Prepend(first.value, ReadAll(read, first.next, count - 1))
  }

  function Prepend<T>(items: seq<T>, rest: Option<Read<seq<T>>>): Option<Read<seq<T>>> {
    match rest
    case None => None
    case Some(r) => Some(Read(items + r.value, r.next))
  }

  function Decode(bytes: Bytes): Option<Message> {
    DecodeBy(bytes, NameReader(Walker(bytes)))
  }

  /** Decoding, given what reading a name at each offset yields. */
  function DecodeBy(bytes: Bytes, names: nat -> Option<Read<Bytes>>): Option<Message> {
    if |bytes| > MAX_MESSAGE || |bytes| < 12 then None
    else if Reserved(WordAt(bytes, 2)) || WordAt(bytes, 4) != 1 || WordAt(bytes, 6) > 32
            || WordAt(bytes, 8) != 0 || WordAt(bytes, 10) != 0 then None
    else if names(12).None? || names(12).value.next + 4 > |bytes| then None
    else
      var at := names(12).value.next;
      MessageFrom(bytes, names(12).value, ReadAll(AnswerReader(bytes, names), at + 4, WordAt(bytes, 6)))
  }

  function MessageFrom(bytes: Bytes, name: Read<Bytes>, answers: Option<Read<seq<Record>>>): Option<Message>
    requires |bytes| >= 12 && name.next + 4 <= |bytes|
  {
    if answers.None? || answers.value.next != |bytes| then None
    else
      var flags := WordAt(bytes, 2);
      Some(Message(WordAt(bytes, 0), Bit(flags, 0x8000), Bit(flags, 0x0400), Bit(flags, 0x0100), flags % 16,
                   Question(name.value, WordAt(bytes, name.next), WordAt(bytes, name.next + 2)), answers.value.value))
  }
}
