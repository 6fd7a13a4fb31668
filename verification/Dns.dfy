/** The codec as it runs, cursor and buffer included, proved against `DnsSpec`. */
module DnsCodec {
  import opened Prelude
  import opened DnsSpec

  method EncodeName(name: Bytes) returns (wire: Option<Bytes>)
    ensures wire == match DnsName(name) case None => None case Some(n) => Some(Wire(Split(n)))
  {
    var canonical := DnsName(name);
    if canonical.None? {
      return None;
    }
    var labels := Split(canonical.value);
    var out: Bytes := [];
    while labels.Label?
      invariant out + Wire(labels) == Wire(Split(canonical.value))
      decreases labels
    {
      WireOneMore(out, labels);
      out := out + [|labels.first| % 256] + labels.first;
      labels := labels.rest;
    }
    return Some(out + [0]);
  }

  lemma WireOneMore(out: Bytes, labels: Labels)
    requires labels.Label?
    ensures out + Wire(labels) == out + [|labels.first| % 256] + labels.first + Wire(labels.rest)
  {
  }

  /** What the whole walk yields once the part before the cursor is put back in front. */
  ghost function Resume(labels: Labels, steps: nat, resume: Option<nat>,
                        rest: Option<Read<Walked>>): Option<Read<Walked>>
  {
    match rest
    case None => None
    case Some(r) =>
      Some(Read(Walked(Append(labels, r.value.labels), steps + r.value.steps),
                if resume.Some? then resume.value else r.next))
  }

  lemma AppendOne(labels: Labels, part: Bytes, rest: Labels)
    ensures Append(labels, Label(part, rest)) == Append(Append(labels, Label(part, Root)), rest)
  {
  }

  lemma AppendNothing(labels: Labels)
    ensures Append(labels, Root) == labels
  {
  }

  lemma FollowPointer(bytes: Bytes, at: nat, length: nat, labels: Labels, steps: nat, resume: Option<nat>, target: nat)
    requires at + 1 < |bytes| && bytes[at] >= 0xC0
    requires target == (bytes[at] as int - 0xC0) * 256 + bytes[at + 1] as int && 12 <= target < at
    ensures Resume(labels, steps, resume, Walk(bytes, at, length))
            == Resume(labels, steps + 1, if resume.Some? then resume else Some(at + 2), Walk(bytes, target, length))
  {
  }

  lemma TakeLabel(bytes: Bytes, at: nat, length: nat, labels: Labels, steps: nat, resume: Option<nat>)
    requires at < |bytes| && 1 <= bytes[at] <= 63
    requires at + 1 + bytes[at] as int <= |bytes| && length + bytes[at] as int + 1 <= 254
    ensures var next := at + 1 + bytes[at] as int;
            Resume(labels, steps, resume, Walk(bytes, at, length))
            == Resume(Append(labels, Label(bytes[at + 1..next], Root)), steps + 1, resume,
                      Walk(bytes, next, length + bytes[at] as int + 1))
  {
    var next := at + 1 + bytes[at] as int;
    var rest := Walk(bytes, next, length + bytes[at] as int + 1);
    if rest.Some? {
      AppendOne(labels, bytes[at + 1..next], rest.value.value.labels);
    }
  }

  lemma TakeRoot(bytes: Bytes, at: nat, length: nat, labels: Labels, steps: nat, resume: Option<nat>)
    requires at < |bytes| && bytes[at] == 0
    ensures Resume(labels, steps, resume, Walk(bytes, at, length))
            == Some(Read(Walked(labels, steps + 1), if resume.Some? then resume.value else at + 1))
  {
    AppendNothing(labels);
  }

  lemma ResumeNothing(rest: Option<Read<Walked>>)
    ensures Resume(Root, 0, None, rest) == rest
  {
  }

  /** Read one possibly compressed name. */
  method ReadName(bytes: Bytes, offset: nat) returns (name: Option<Read<Bytes>>)
    ensures name == DnsSpec.ReadName(bytes, offset)
  {
    var at: nat, length: nat := offset, 0;
    var resume: Option<nat> := None;
    var labels := Root;
    ResumeNothing(Walk(bytes, offset, 0));
    for i := 0 to MAX_STEPS
      invariant length <= 254
      invariant Walk(bytes, offset, 0) == Resume(labels, i, resume, Walk(bytes, at, length))
    {
      if at >= |bytes| {
        return None;
      }
      var size: int := bytes[at];
      if size >= 0xC0 {
        if at + 1 >= |bytes| {
          return None;
        }
        var target := (size - 0xC0) * 256 + bytes[at + 1] as int;
        if target < 12 || target >= at {
          return None;
        }
        FollowPointer(bytes, at, length, labels, i, resume, target);
        if resume.None? {
          resume := Some(at + 2);
        }
        at := target;
        continue;
      }
      if size > 63 {
        return None;
      }
      if size == 0 {
        TakeRoot(bytes, at, length, labels, i, resume);
        var joined := DnsName(Join(labels));
        if joined.None? {
          return None;
        }
        return Some(Read(joined.value, if resume.Some? then resume.value else at + 1));
      }
      if at + 1 + size > |bytes| || length + size + 1 > 254 {
        return None;
      }
      TakeLabel(bytes, at, length, labels, i, resume);
      length := length + size + 1;
      labels := Append(labels, Label(bytes[at + 1..at + 1 + size], Root));
      at := at + 1 + size;
    }
    WalkTakesAStep(bytes, at, length);
    return None;
  }

  lemma WalkTakesAStep(bytes: Bytes, at: nat, length: nat)
    ensures Walk(bytes, at, length).Some? ==> Walk(bytes, at, length).value.value.steps >= 1
  {
  }

  /** One answer as it is written, if its name is valid. */
  method EncodeAnswer(question: Bytes, answer: Record) returns (wire: Option<Bytes>)
    ensures wire == match CanonicalRecord(answer)
                    case None => None
                    case Some(r) => Some(AnswerWire(Uncompressed(), question, r))
  {
    var own := DnsName(answer.name);
    if own.None? {
      return None;
    }
    if own.value == question {
      return Some([0xC0, 0x0C] + DataWire(answer));
    }
    var name := EncodeName(answer.name);
    return Some(name.value + DataWire(answer));
  }

  /** The rest of an encoding: what is still to come after `out`, if every remaining item can be converted. */
  ghost function Onward<T>(convert: T -> Option<T>, write: T -> Bytes, out: Bytes, items: seq<T>): Option<Bytes> {
    match ConvertAll(convert, items)
    case None => None
    case Some(converted) => Some(out + WriteAll(write, converted))
  }

  lemma OneOnward<T>(convert: T -> Option<T>, write: T -> Bytes, out: Bytes, items: seq<T>)
    requires items != []
    ensures Onward(convert, write, out, items)
            == match convert(items[0])
               case None => None
               case Some(first) => Onward(convert, write, out + write(first), items[1..])
  {
    var first, rest := convert(items[0]), ConvertAll(convert, items[1..]);
    if first.Some? && rest.Some? {
      FirstOfRest(first.value, rest.value);
      assert out + (write(first.value) + WriteAll(write, rest.value)) == out + write(first.value)
        + WriteAll(write, rest.value);
    }
  }

  lemma FirstOfRest<T>(first: T, rest: seq<T>)
    ensures ([first] + rest)[0] == first && ([first] + rest)[1..] == rest
  {
  }

  method EncodeAnswers(start: Bytes, question: Bytes, answers: seq<Record>, ghost convert: Record -> Option<Record>,
                       ghost write: Record -> Bytes)
    returns (wire: Option<Bytes>)
    requires convert == Canonicaliser() && write == AnswerWriter(Uncompressed(), question)
    ensures wire == Onward(convert, write, start, answers)
  {
    var out := start;
    for i := 0 to |answers|
      invariant Onward(convert, write, out, answers[i..]) == Onward(convert, write, start, answers)
    {
      var answer := EncodeAnswer(question, answers[i]);
      assert answers[i..][1..] == answers[i + 1..];
      OneOnward(convert, write, out, answers[i..]);
      if answer.None? {
        return None;
      }
      out := out + answer.value;
    }
    assert out + [] == out;
    return Some(out);
  }

  method Encode(m: Message) returns (wire: Option<Bytes>)
    ensures wire == DnsSpec.Encode(m)
  {
    if m.rcode > 15 || |m.answers| > 32 {
      return None;
    }
    var question := EncodeName(m.question.name);
    if question.None? {
      return None;
    }
    var name := DnsName(m.question.name).value;
    var start := Header(m) + question.value + Word(m.question.kind) + Word(m.question.qclass);
    var out := EncodeAnswers(start, name, m.answers, Canonicaliser(), AnswerWriter(Uncompressed(), name));
    EncodeIsOnward(m, start);
    if out.None? || |out.value| > MAX_MESSAGE {
      return None;
    }
    return out;
  }

  /** The parts of a canonical message, written one after the other. */
  lemma MessageWireIs(c: Message, header: Bytes, name: Bytes)
    requires Header(c) == header && Wire(Split(c.question.name)) == name
    ensures MessageWire(Uncompressed(), c)
            == header + name + Word(c.question.kind) + Word(c.question.qclass)
               + WriteAll(AnswerWriter(Uncompressed(), c.question.name), c.answers)
  {
  }

  lemma CanonicalHeader(m: Message)
    requires CanonicalMessage(m).Some?
    ensures Header(CanonicalMessage(m).value) == Header(m)
  {
    ConvertKeepsCount(Canonicaliser(), m.answers);
    SameHeader(m, CanonicalMessage(m).value);
  }

  lemma SameHeader(m: Message, c: Message)
    requires c.id == m.id && Flags(c) == Flags(m) && |c.answers| == |m.answers|
    ensures Header(c) == Header(m)
  {
  }

  lemma EncodeIsOnward(m: Message, start: Bytes)
    requires m.rcode <= 15 && |m.answers| <= 32 && DnsName(m.question.name).Some?
    requires start == Header(m) + Wire(Split(DnsName(m.question.name).value)) + Word(m.question.kind)
             + Word(m.question.qclass)
    ensures DnsSpec.Encode(m)
            == match Onward(Canonicaliser(), AnswerWriter(Uncompressed(), DnsName(m.question.name).value), start,
                            m.answers)
               case None => None
               case Some(out) => if |out| > MAX_MESSAGE then None else Some(out)
  {
    if CanonicalMessage(m).Some? {
      CanonicalHeader(m);
      MessageWireIs(CanonicalMessage(m).value, Header(m), Wire(Split(DnsName(m.question.name).value)));
    }
  }

  lemma {:induction false} ConvertKeepsCount<T>(convert: T -> Option<T>, items: seq<T>)
    requires ConvertAll(convert, items).Some?
    ensures |ConvertAll(convert, items).value| == |items|
  {
    if items != [] {
      ConvertKeepsCount(convert, items[1..]);
    }
  }

  method ReadAnswer(bytes: Bytes, at: nat) returns (answer: Option<Read<seq<Record>>>)
    ensures answer == AnswerReader(bytes, NameReader(Walker(bytes)))(at)
  {
    var name := ReadName(bytes, at);
    assert AnswerReader(bytes, NameReader(Walker(bytes)))(at) == AnswerAfter(bytes, NameReader(Walker(bytes))(at));
    if name.None? || name.value.next + 10 > |bytes| {
      return None;
    }
    var here := name.value.next;
    var kind, rclass := WordAt(bytes, here), WordAt(bytes, here + 2);
    var ttl := WordAt(bytes, here + 4) * 65536 + WordAt(bytes, here + 6);
    var length := WordAt(bytes, here + 8);
    var data := here + 10;
    if data + length > |bytes| {
      return None;
    }
    if kind != 1 || rclass != 1 {
      return Some(Read([], data + length));
    }
    if length != 4 {
      return None;
    }
    var address := Address(bytes[data], bytes[data + 1], bytes[data + 2], bytes[data + 3]);
    return Some(Read([Record(name.value.value, ttl, address)], data + 4));
  }

  method Decode(bytes: Bytes) returns (message: Option<Message>)
    ensures message == DnsSpec.Decode(bytes)
  {
    if |bytes| > MAX_MESSAGE || |bytes| < 12 {
      return None;
    }
    var id, flags, count := WordAt(bytes, 0), WordAt(bytes, 2), WordAt(bytes, 6);
    if Reserved(flags) || WordAt(bytes, 4) != 1 || count > 32 || WordAt(bytes, 8) != 0 || WordAt(bytes, 10) != 0 {
      return None;
    }
    var name := ReadName(bytes, 12);
    if name.None? || name.value.next + 4 > |bytes| {
      return None;
    }
    var at := name.value.next;
    var question := Question(name.value.value, WordAt(bytes, at), WordAt(bytes, at + 2));
    var answers := DecodeAnswers(bytes, at + 4, count, AnswerReader(bytes, NameReader(Walker(bytes))));
    if answers.None? || answers.value.next != |bytes| {
      return None;
    }
    return Some(Message(id, Bit(flags, 0x8000), Bit(flags, 0x0400), Bit(flags, 0x0100), flags % 16, question,
                        answers.value.value));
  }

  /** `read` is what reading an answer at each offset yields. */
  ghost predicate Reading(bytes: Bytes, read: nat -> Option<Read<seq<Record>>>) {
    forall at {:trigger AnswerReader(bytes, NameReader(Walker(bytes)))(at)} ::
      read(at) == AnswerReader(bytes, NameReader(Walker(bytes)))(at)
  }

  method DecodeAnswers(bytes: Bytes, start: nat, count: nat, ghost read: nat -> Option<Read<seq<Record>>>)
    returns (records: Option<Read<seq<Record>>>)
    requires Reading(bytes, read)
    ensures records == ReadAll(read, start, count)
  {
    var at, answers := start, [];
    PrependNothing(ReadAll(read, start, count));
    for i := 0 to count
      invariant ReadAll(read, start, count) == Prepend(answers, ReadAll(read, at, count - i))
    {
      var answer := ReadAnswer(bytes, at);
      ReadOneMore(read, answers, at, count - i);
      if answer.None? {
        return None;
      }
      at, answers := answer.value.next, answers + answer.value.value;
    }
    assert answers + [] == answers;
    return Some(Read(answers, at));
  }

  lemma PrependNothing<T>(rest: Option<Read<seq<T>>>)
    ensures Prepend([], rest) == rest
  {
    if rest.Some? {
      assert [] + rest.value.value == rest.value.value;
    }
  }

  lemma ReadOneMore<T>(read: nat -> Option<Read<seq<T>>>, items: seq<T>, at: nat, count: nat)
    requires count > 0
    ensures Prepend(items, ReadAll(read, at, count))
            == match read(at)
               case None => None
               case Some(first) => Prepend(items + first.value, ReadAll(read, first.next, count - 1))
  {
    if read(at).Some? {
      var rest := ReadAll(read, read(at).value.next, count - 1);
      if rest.Some? {
        assert items + (read(at).value.value + rest.value.value) == items + read(at).value.value + rest.value.value;
      }
    }
  }
}
