/**
 Reading DNS messages, after src/wire.rs: the query parser of the server and the decoder of its answers
 (sections 4.1 and 4.1.4 of RFC 1035, section 6.1 of RFC 6891). Every reader is given twice: as a function,
 which is what the theorems speak about, and as the loop of the source, proved equal to it.
 */
module Reading {
  import opened Basics
  import opened Names

  const HEADER_LEN := 12
  const UDP_MAX := 512
  const EDNS_MAX := 1232
  const OPT_LEN := 11

  const TYPE_A: u16 := 1
  const TYPE_CNAME: u16 := 5
  const TYPE_SOA: u16 := 6
  const TYPE_OPT: u16 := 41
  const TYPE_ANY: u16 := 255
  const CLASS_IN: u16 := 1
  const CLASS_ANY: u16 := 255

  datatype Rcode = NoError | FormErr | ServFail | NxDomain | NotImp | Refused {
    function Code(): (r: u16)
      ensures r < 16
    {
      match this
      case NoError => 0
      case FormErr => 1
      case ServFail => 2
      case NxDomain => 3
      case NotImp => 4
      case Refused => 5
    }
  }

  // ---------- Numbers, most significant byte first ----------

  function U16(n: u16): (r: seq<byte>)
    ensures |r| == 2
  {
    [n / 0x100, n % 0x100]
  }

  function U32(n: u32): (r: seq<byte>)
    ensures |r| == 4
  {
    [n / 0x100_0000, n / 0x1_0000 % 0x100, n / 0x100 % 0x100, n % 0x100]
  }

  function Be16(b: seq<byte>, at: nat): Option<u16> {
    if at + 1 < |b| then Some(b[at] as int * 0x100 + b[at + 1]) else None
  }

  function Be32(b: seq<byte>, at: nat): Option<u32> {
    if at + 3 < |b| then
      Some(b[at] as int * 0x100_0000 + b[at + 1] as int * 0x1_0000 + b[at + 2] as int * 0x100 + b[at + 3])
    else None
  }

  lemma Be16Reads(b: seq<byte>, at: nat, n: u16)
    requires at + 2 <= |b| && b[at..at + 2] == U16(n)
    ensures Be16(b, at) == Some(n)
  {
    assert b[at] == b[at..at + 2][0] == n / 0x100 && b[at + 1] == b[at..at + 2][1] == n % 0x100;
  }

  lemma Be32Reads(b: seq<byte>, at: nat, n: u32)
    requires at + 4 <= |b| && b[at..at + 4] == U32(n)
    ensures Be32(b, at) == Some(n)
  {
    assert forall i :: 0 <= i < 4 ==> b[at + i] == U32(n)[i];
    assert b[at + 1] == n / 0x1_0000 % 0x100 && b[at + 2] == n / 0x100 % 0x100 && b[at + 3] == n % 0x100;
    Digits(n);
  }

  lemma Digits(n: u32)
    ensures n == n / 0x100_0000 * 0x100_0000 + n / 0x1_0000 % 0x100 * 0x1_0000 + n / 0x100 % 0x100 * 0x100 + n % 0x100
  {
    var a := n / 0x100;
    var b := a / 0x100;
    assert b == n / 0x1_0000 && b / 0x100 == n / 0x100_0000;
  }

  // ---------- Skipping a name ----------

  /** The end of the pointer-free name at `at`, part of a name that began at `start`. */
  function PlainNameEnd(msg: seq<byte>, at: nat, start: nat): (r: Option<nat>)
    ensures r.Some? ==> at < r.value <= |msg| && r.value - start <= NAME_MAX
    decreases |msg| - at
  {
    if at >= |msg| then None
    else if msg[at] == 0 then if at + 1 - start <= NAME_MAX then Some(at + 1) else None
    else if msg[at] > LABEL_MAX then None
    else PlainNameEnd(msg, at + 1 + msg[at], start)
  }

  method SkipPlainName(msg: seq<byte>, start: nat) returns (r: Option<nat>)
    ensures r == PlainNameEnd(msg, start, start)
  {
    var at: nat := start;
    while at < |msg|
      invariant PlainNameEnd(msg, at, start) == PlainNameEnd(msg, start, start)
      decreases |msg| - at
    {
      var len := msg[at];
      if len == 0 {
        at := at + 1;
        return if at - start <= NAME_MAX then Some(at) else None;
      }
      if len > LABEL_MAX {
        return None;
      }
      at := at + 1 + len;
    }
    return None;
  }

  /** The end of the name at `at`, which may stop in a pointer. */
  function NameEnd(msg: seq<byte>, at: nat): (r: Option<nat>)
    ensures r.Some? ==> at < r.value <= |msg|
    decreases |msg| - at
  {
    if at >= |msg| then None
    else if msg[at] == 0 then Some(at + 1)
    else if msg[at] <= LABEL_MAX then NameEnd(msg, at + 1 + msg[at])
    else if msg[at] >= 0xC0 && at + 1 < |msg| then Some(at + 2)
    else None
  }

  method SkipName(msg: seq<byte>, start: nat) returns (r: Option<nat>)
    ensures r == NameEnd(msg, start)
  {
    var at: nat := start;
    while at < |msg|
      invariant NameEnd(msg, at) == NameEnd(msg, start)
      decreases |msg| - at
    {
      var len := msg[at];
      if len == 0 {
        return Some(at + 1);
      } else if len <= LABEL_MAX {
        at := at + 1 + len;
      } else if len >= 0xC0 && at + 1 < |msg| {
        return Some(at + 2);
      } else {
        return None;
      }
    }
    return None;
  }

  // ---------- Parsing a query ----------

  datatype Query = Query(id: u16, flags: u16, question: seq<byte>, qname: seq<byte>,
                         qtype: u16, qclass: u16, edns: Option<u16>)

  /** `Drop`: nothing goes back. `Bad`: a bare reply with this code goes back. */
  datatype Parsed = Drop | Bad(id: u16, flags: u16, rcode: Rcode) | Good(q: Query)

  /** The QR bit: the message is itself a reply. */
  predicate IsReply(flags: u16) {
    flags >= 0x8000
  }

  function Opcode(flags: u16): u16 {
    flags / 0x800 % 16
  }

  /** The UDP size in the first OPT record among `count` records; a broken tail counts as none. */
  function OptSize(msg: seq<byte>, at: nat, count: nat): Option<u16>
    decreases count
  {
    if count == 0 then None
    else
      match NameEnd(msg, at)
      case None => None
      case Some(e) =>
        var (rtype, size, rdlen) := (Be16(msg, e), Be16(msg, e + 2), Be16(msg, e + 8));
        if rtype.None? || size.None? || rdlen.None? then None
        else if rtype.value == TYPE_OPT then size
        else OptSize(msg, e + 10 + rdlen.value, count - 1)
  }

  method FindOpt(msg: seq<byte>, start: nat, count: nat) returns (r: Option<u16>)
    ensures r == OptSize(msg, start, count)
  {
    var at: nat := start;
    for i := 0 to count
      invariant OptSize(msg, at, count - i) == OptSize(msg, start, count)
    {
      var nameEnd := SkipName(msg, at);
      if nameEnd.None? {
        return None;
      }
      var e := nameEnd.value;
      var rtype, size, rdlen := Be16(msg, e), Be16(msg, e + 2), Be16(msg, e + 8);
      if rtype.None? || size.None? || rdlen.None? {
        return None;
      }
      if rtype.value == TYPE_OPT {
        return size;
      }
      at := e + 10 + rdlen.value;
    }
    return None;
  }

  function Parse(msg: seq<byte>): Parsed {
    if |msg| < HEADER_LEN || IsReply(Be16(msg, 2).value) then Drop
    else
      var (id, flags) := (Be16(msg, 0).value, Be16(msg, 2).value);
      if Opcode(flags) != 0 then Bad(id, flags, NotImp)
      else if Be16(msg, 4) != Some(1) then Bad(id, flags, FormErr)
      else
        match PlainNameEnd(msg, HEADER_LEN, HEADER_LEN)
        case None => Bad(id, flags, FormErr)
        case Some(e) =>
          var (qtype, qclass) := (Be16(msg, e), Be16(msg, e + 2));
          if qtype.None? || qclass.None? then Bad(id, flags, FormErr)
          else
            var rrs := Be16(msg, 6).value as int + Be16(msg, 8).value + Be16(msg, 10).value;
            Good(Query(id, flags, msg[HEADER_LEN..e + 4], msg[HEADER_LEN..e],
                       qtype.value, qclass.value, OptSize(msg, e + 4, rrs)))
  }

  method ParseQuery(msg: seq<byte>) returns (r: Parsed)
    ensures r == Parse(msg)
  {
    var id, flags := Be16(msg, 0), Be16(msg, 2);
    if id.None? || flags.None? || |msg| < HEADER_LEN || IsReply(flags.value) {
      return Drop;
    }
    if Opcode(flags.value) != 0 {
      return Bad(id.value, flags.value, NotImp);
    }
    var qd, an, ns, ar := Be16(msg, 4), Be16(msg, 6), Be16(msg, 8), Be16(msg, 10);
    if qd != Some(1) || an.None? || ns.None? || ar.None? {
      return Bad(id.value, flags.value, FormErr);
    }
    var nameEnd := SkipPlainName(msg, HEADER_LEN);
    if nameEnd.None? {
      return Bad(id.value, flags.value, FormErr);
    }
    var e := nameEnd.value;
    var qtype, qclass := Be16(msg, e), Be16(msg, e + 2);
    if qtype.None? || qclass.None? {
      return Bad(id.value, flags.value, FormErr);
    }
    var edns := FindOpt(msg, e + 4, an.value as int + ns.value + ar.value);
    return Good(Query(id.value, flags.value, msg[HEADER_LEN..e + 4], msg[HEADER_LEN..e],
                      qtype.value, qclass.value, edns));
  }

  // ---------- The name of a question as text ----------

  /** A byte that cannot be in a host name: a dot, or outside the printable ASCII range. */
  predicate Forbidden(b: byte) {
    b < 0x21 || b > 0x7E || b == DOT
  }

  /** The text so far with `l` behind it in lower case, in a scratch buffer of 255 bytes. */
  function AddLabel(text: Text, l: Label): Option<Text>
    decreases |l|
  {
    if l == [] then Some(text)
    else if Forbidden(l[0]) || |text| >= NAME_MAX then None
    else AddLabel(text + [LowerByte(l[0])], l[1..])
  }

  function TextFrom(wire: seq<byte>, at: nat, text: Text): Option<Text>
    decreases |wire| - at
  {
    if at >= |wire| then None
    else if wire[at] == 0 then Some(text)
    else if at + 1 + wire[at] > |wire| || (text != [] && |text| >= NAME_MAX) then None
    else
      match AddLabel(if text == [] then [] else text + [DOT], wire[at + 1..at + 1 + wire[at]])
      case None => None
      case Some(longer) => TextFrom(wire, at + 1 + wire[at], longer)
  }

  /** The wire name as text in lower case without final dot; `None` when it can be no host name. */
  function TextOf(wire: seq<byte>): Option<Text> {
    TextFrom(wire, 0, [])
  }

  method NameText(wire: seq<byte>, buf: array<byte>) returns (r: Option<nat>)
    requires buf.Length == NAME_MAX
    modifies buf
    ensures r.Some? <==> TextOf(wire).Some?
    ensures r.Some? ==> r.value <= NAME_MAX && buf[..r.value] == TextOf(wire).value
  {
    var at, n := 0, 0;
    while at < |wire|
      invariant n <= NAME_MAX && TextFrom(wire, at, buf[..n]) == TextOf(wire)
      decreases |wire| - at
    {
      var len := wire[at];
      if len == 0 {
        return Some(n);
      }
      if at + 1 + len > |wire| {
        return None;
      }
      var l := wire[at + 1..at + 1 + len];
      if n > 0 {
        if n >= NAME_MAX {
          return None;
        }
        ghost var before := buf[..n];
        buf[n] := DOT;
        n := n + 1;
        assert buf[..n] == before + [DOT];
      }
      ghost var base := buf[..n];
      for i := 0 to |l|
        invariant n <= NAME_MAX
        invariant AddLabel(buf[..n], l[i..]) == AddLabel(base, l)
      {
        assert l[i..][1..] == l[i + 1..];
        if Forbidden(l[i]) || n >= NAME_MAX {
          return None;
        }
        ghost var before := buf[..n];
        buf[n] := LowerByte(l[i]);
        n := n + 1;
        assert buf[..n] == before + [LowerByte(l[i])];
      }
      at := at + 1 + len;
    }
    return None;
  }

  // ---------- Decoding: names with pointers ----------

  /**
   The name at `pos`, read on behind `name`; `end` is where it stopped at its own place, once a pointer was
   followed. A pointer must point back, but that alone does not end the reading: labels after the pointer can
   lead to it again. What ends it is the room left in the 255 bytes, and between labels the position.
   */
  function ReadFrom(msg: seq<byte>, pos: nat, name: Text, end: Option<nat>): Result<(Text, nat)>
    requires |name| <= NAME_MAX
    decreases NAME_MAX - |name|, pos
  {
    if pos >= |msg| then Err(Malformed)
    else if msg[pos] == 0 then Ok((if name == [] then [DOT] else name, end.GetOr(pos + 1)))
    else if msg[pos] <= LABEL_MAX then
      if pos + 1 + msg[pos] > |msg| then Err(Malformed)
      else
        var longer := name + Latin1(msg[pos + 1..pos + 1 + msg[pos]]) + [DOT];
        if |longer| > NAME_MAX then Err(Malformed) else ReadFrom(msg, pos + 1 + msg[pos], longer, end)
    else if msg[pos] >= 0xC0 && pos + 1 < |msg| && Target(msg, pos) < pos then
      ReadFrom(msg, Target(msg, pos), name, Some(end.GetOr(pos + 2)))
    else Err(Malformed)
  }

  /** Where the pointer at `pos` points: its lower fourteen bits. */
  function Target(msg: seq<byte>, pos: nat): nat
    requires pos + 1 < |msg|
  {
    (msg[pos] as int * 0x100 + msg[pos + 1]) % 0x4000
  }

  function NameAt(msg: seq<byte>, at: nat): Result<(Text, nat)> {
    ReadFrom(msg, at, [], None)
  }

  method ReadName(msg: seq<byte>, at: nat) returns (r: Result<(Text, nat)>)
    ensures r == NameAt(msg, at)
  {
    var name: Text, pos: nat, end: Option<nat> := [], at, None;
    while pos < |msg|
      invariant |name| <= NAME_MAX && ReadFrom(msg, pos, name, end) == NameAt(msg, at)
      decreases NAME_MAX - |name|, pos
    {
      var len := msg[pos];
      if len == 0 {
        if name == [] {
          name := [DOT];
        }
        return Ok((name, end.GetOr(pos + 1)));
      } else if len <= LABEL_MAX {
        if pos + 1 + len > |msg| {
          return Err(Malformed);
        }
        var longer := name + Latin1(msg[pos + 1..pos + 1 + len]) + [DOT];
        if |longer| > NAME_MAX {
          return Err(Malformed);
        }
        name, pos := longer, pos + 1 + len;
      } else if len >= 0xC0 {
        if pos + 1 >= |msg| || Target(msg, pos) >= pos {
          return Err(Malformed);
        }
        end, pos := Some(end.GetOr(pos + 2)), Target(msg, pos);
      } else {
        return Err(Malformed);
      }
    }
    return Err(Malformed);
  }

  // ---------- Decoding: records and the message ----------

  datatype Rdata =
    | A(ip: Ip)
    | Cname(target: Text)
    | Soa(mname: Text, rname: Text, serial: u32, refresh: u32, retry: u32, expire: u32, minimum: u32)
    | Other(rtype: u16)

  datatype Record = Record(name: Text, rtype: u16, ttl: u32, data: Rdata)

  datatype Message = Message(id: u16, flags: u16, answers: seq<Record>, authority: seq<Record>, additional: u16)

  function SoaAt(msg: seq<byte>, rd: nat): Result<Rdata> {
    match NameAt(msg, rd)
    case Err(e) => Err(e)
    case Ok((mname, p)) =>
      match NameAt(msg, p)
      case Err(e) => Err(e)
      case Ok((rname, n)) =>
        if Be32(msg, n + 16).None? then Err(Malformed)
        else Ok(Soa(mname, rname, Be32(msg, n).value, Be32(msg, n + 4).value, Be32(msg, n + 8).value,
                    Be32(msg, n + 12).value, Be32(msg, n + 16).value))
  }

  function DataAt(msg: seq<byte>, rd: nat, rtype: u16, rdlen: u16): Result<Rdata>
    requires rd + rdlen <= |msg|
  {
    if rtype == TYPE_A then
      if rdlen != 4 then Err(Malformed) else Ok(A(Ip(msg[rd], msg[rd + 1], msg[rd + 2], msg[rd + 3])))
    else if rtype == TYPE_CNAME then
      match NameAt(msg, rd)
      case Err(e) => Err(e)
      case Ok((target, _)) => Ok(Cname(target))
    else if rtype == TYPE_SOA then SoaAt(msg, rd)
    else Ok(Other(rtype))
  }

  /** The record at `at`, and where the next one begins. */
  function RecordAt(msg: seq<byte>, at: nat): Result<(Record, nat)> {
    match NameAt(msg, at)
    case Err(e) => Err(e)
    case Ok((name, n)) =>
      var (rtype, ttl, rdlen) := (Be16(msg, n), Be32(msg, n + 4), Be16(msg, n + 8));
      if rtype.None? || ttl.None? || rdlen.None? || n + 10 + rdlen.value > |msg| then Err(Malformed)
      else
        match DataAt(msg, n + 10, rtype.value, rdlen.value)
        case Err(e) => Err(e)
        case Ok(data) => Ok((Record(name, rtype.value, ttl.value, data), n + 10 + rdlen.value))
  }

  function RecordsAt(msg: seq<byte>, at: nat, count: nat): Result<(seq<Record>, nat)>
    decreases count
  {
    if count == 0 then Ok(([], at))
    else
      match RecordAt(msg, at)
      case Err(e) => Err(e)
      case Ok((rec, next)) => Before([rec], RecordsAt(msg, next, count - 1))
  }

  function Before(recs: seq<Record>, r: Result<(seq<Record>, nat)>): Result<(seq<Record>, nat)> {
    match r
    case Err(e) => Err(e)
    case Ok((more, next)) => Ok((recs + more, next))
  }

  lemma BeforeNothing(r: Result<(seq<Record>, nat)>)
    ensures Before([], r) == r
  {
    if r.Ok? {
      assert [] + r.value.0 == r.value.0;
    }
  }

  function QuestionsEnd(msg: seq<byte>, at: nat, count: nat): Option<nat>
    decreases count
  {
    if count == 0 then Some(at)
    else
      match NameEnd(msg, at)
      case None => None
      case Some(e) => QuestionsEnd(msg, e + 4, count - 1)
  }

  function Decoded(msg: seq<byte>): Result<Message> {
    if |msg| < HEADER_LEN then Err(Malformed)
    else
      match QuestionsEnd(msg, HEADER_LEN, Be16(msg, 4).value)
      case None => Err(Malformed)
      case Some(at) =>
        match RecordsAt(msg, at, Be16(msg, 6).value)
        case Err(e) => Err(e)
        case Ok((answers, at')) =>
          match RecordsAt(msg, at', Be16(msg, 8).value)
          case Err(e) => Err(e)
          case Ok((authority, _)) =>
            Ok(Message(Be16(msg, 0).value, Be16(msg, 2).value, answers, authority, Be16(msg, 10).value))
  }

  method ReadRecord(msg: seq<byte>, start: nat) returns (r: Result<(Record, nat)>)
    ensures r == RecordAt(msg, start)
  {
    var owner := ReadName(msg, start);
    if owner.Err? {
      return Err(owner.error);
    }
    var at := owner.value.1;
    var rtype, ttl, rdlen := Be16(msg, at), Be32(msg, at + 4), Be16(msg, at + 8);
    if rtype.None? || ttl.None? || rdlen.None? || at + 10 + rdlen.value > |msg| {
      return Err(Malformed);
    }
    var data := DataAt(msg, at + 10, rtype.value, rdlen.value);
    return match data
      case Err(e) => Err(e)
      case Ok(d) => Ok((Record(owner.value.0, rtype.value, ttl.value, d), at + 10 + rdlen.value));
  }

  method ReadRecords(msg: seq<byte>, start: nat, count: nat) returns (r: Result<(seq<Record>, nat)>)
    ensures r == RecordsAt(msg, start, count)
  {
    var out: seq<Record>, at: nat := [], start;
    BeforeNothing(RecordsAt(msg, start, count));
    for i := 0 to count
      invariant Before(out, RecordsAt(msg, at, count - i)) == RecordsAt(msg, start, count)
    {
      var rec := ReadRecord(msg, at);
      if rec.Err? {
        return Err(rec.error);
      }
      ghost var rest := RecordsAt(msg, rec.value.1, count - i - 1);
      if rest.Ok? {
        assert out + ([rec.value.0] + rest.value.0) == out + [rec.value.0] + rest.value.0;
      }
      out, at := out + [rec.value.0], rec.value.1;
    }
    assert out + [] == out;
    return Ok((out, at));
  }

  method Decode(msg: seq<byte>) returns (r: Result<Message>)
    ensures r == Decoded(msg)
  {
    if |msg| < HEADER_LEN {
      return Err(Malformed);
    }
    var qd := Be16(msg, 4).value;
    var at: nat := HEADER_LEN;
    for i := 0 to qd
      invariant QuestionsEnd(msg, at, qd - i) == QuestionsEnd(msg, HEADER_LEN, qd)
    {
      var e := SkipName(msg, at);
      if e.None? {
        return Err(Malformed);
      }
      at := e.value + 4;
    }
    var answers := ReadRecords(msg, at, Be16(msg, 6).value);
    if answers.Err? {
      return Err(answers.error);
    }
    var authority := ReadRecords(msg, answers.value.1, Be16(msg, 8).value);
    if authority.Err? {
      return Err(authority.error);
    }
    return Ok(Message(Be16(msg, 0).value, Be16(msg, 2).value, answers.value.0, authority.value.0, Be16(msg, 10).value));
  }
}
