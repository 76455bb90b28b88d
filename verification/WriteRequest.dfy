/**
 A confirmed MMS Write of one named variable, in nested short-form BER (section 8.1 of
 ITU-T X.690), and a reader for it.
 */
module WriteRequest {
  import opened Octets

  datatype Write = Write(invoke: byte, domain: seq<byte>, item: seq<byte>, data: seq<byte>)

  const SHORT: nat := 0x7F

  function Tlv(tag: byte, content: seq<byte>): (r: seq<byte>)
    requires |content| <= SHORT
    ensures |r| == |content| + 2
  {
    [tag, |content|] + content
  }

  function TotalSize(w: Write): nat {
    21 + |w.domain| + |w.item| + |w.data|
  }

  function Name(w: Write): (r: seq<byte>)
    requires TotalSize(w) <= SHORT
    ensures |r| == 4 + |w.domain| + |w.item|
  {
    Tlv(0x1A, w.domain) + Tlv(0x1A, w.item)
  }

  function Variables(w: Write): (r: seq<byte>)
    requires TotalSize(w) <= SHORT
    ensures |r| == 12 + |w.domain| + |w.item|
  {
    Tlv(0xA0, Tlv(0x30, Tlv(0xA0, Tlv(0xA1, Name(w)))))
  }

  function Encoded(w: Write): (r: seq<byte>)
    requires TotalSize(w) <= SHORT
    ensures |r| == TotalSize(w)
  {
    Tlv(0xA0, Tlv(0x02, [w.invoke]) + Tlv(0xA5, Variables(w) + Tlv(0xA0, w.data)))
  }

  // ----- Reading

  datatype Read = Read(content: seq<byte>, rest: seq<byte>) | Malformed

  /** One element with the expected tag and a short-form length that the input can meet. */
  function ReadTlv(s: seq<byte>, tag: byte): Read {
    if |s| < 2 || s[0] != tag || s[1] > SHORT || |s| - 2 < s[1] then Malformed
    else Read(s[2..2 + s[1]], s[2 + s[1]..])
  }

  /** The content of an element that fills its input exactly. */
  function Whole(s: seq<byte>, tag: byte): Option<seq<byte>> {
    match ReadTlv(s, tag)
    case Malformed => None
    case Read(content, rest) => if rest == [] then Some(content) else None
  }

  /** The four values of a Write; a one-octet INTEGER of 128 or more is negative and no invoke id. */
  function Decode(s: seq<byte>): Option<Write> {
    match Whole(s, 0xA0)
    case None => None
    case Some(body) =>
      match ReadTlv(body, 0x02)
      case Malformed => None
      case Read(invoke, service) =>
        if |invoke| != 1 || invoke[0] >= 128 then None
        else
          match Whole(service, 0xA5)
          case None => None
          case Some(write) => DecodeWrite(invoke[0], write)
  }

  function DecodeWrite(invoke: byte, write: seq<byte>): Option<Write> {
    match ReadTlv(write, 0xA0)
    case Malformed => None
    case Read(variables, values) =>
      match DecodeName(variables)
      case None => None
      case Some(name) =>
        match Whole(values, 0xA0)
        case None => None
        case Some(data) => Some(Write(invoke, name.0, name.1, data))
  }

  function DecodeName(variables: seq<byte>): Option<(seq<byte>, seq<byte>)> {
    match Whole(variables, 0x30)
    case None => None
    case Some(a) =>
      match Whole(a, 0xA0)
      case None => None
      case Some(b) =>
        match Whole(b, 0xA1)
        case None => None
        case Some(c) =>
          match ReadTlv(c, 0x1A)
          case Malformed => None
          case Read(domain, rest) =>
            match Whole(rest, 0x1A)
            case None => None
            case Some(item) => Some((domain, item))
  }

  lemma ReadsBack(tag: byte, content: seq<byte>, rest: seq<byte>)
    requires |content| <= SHORT
    ensures ReadTlv(Tlv(tag, content) + rest, tag) == Read(content, rest)
    ensures Whole(Tlv(tag, content), tag) == Some(content)
  {
    var s := Tlv(tag, content);
    assert (s + rest)[2..2 + |content|] == content && (s + rest)[2 + |content|..] == rest;
    assert s[2..2 + |content|] == content && |s[2 + |content|..]| == 0;
  }

  lemma ReadExactly(s: seq<byte>, tag: byte)
    ensures ReadTlv(s, tag).Read? ==>
      var r := ReadTlv(s, tag);
      |r.content| <= SHORT && s == Tlv(tag, r.content) + r.rest
    ensures Whole(s, tag).Some? ==> |Whole(s, tag).value| <= SHORT && s == Tlv(tag, Whole(s, tag).value)
  {
  }

  /** A built request reads back as the four values it was built from, exactly for invoke ids below 128. */
  lemma WriteRoundTrip(w: Write)
    requires TotalSize(w) <= SHORT
    ensures Decode(Encoded(w)) == if w.invoke < 128 then Some(w) else None
  {
    hide Tlv, ReadTlv, Whole;
    var id, service := Tlv(0x02, [w.invoke]), Tlv(0xA5, Variables(w) + Tlv(0xA0, w.data));
    ReadsBack(0xA0, id + service, []);
    ReadsBack(0x02, [w.invoke], service);
    ReadsBack(0xA5, Variables(w) + Tlv(0xA0, w.data), []);
    NameRoundTrip(w);
    ReadsBack(0xA0, Tlv(0x30, Tlv(0xA0, Tlv(0xA1, Name(w)))), Tlv(0xA0, w.data));
    ReadsBack(0xA0, w.data, []);
  }

  lemma NameRoundTrip(w: Write)
    requires TotalSize(w) <= SHORT
    ensures DecodeName(Tlv(0x30, Tlv(0xA0, Tlv(0xA1, Name(w))))) == Some((w.domain, w.item))
  {
    hide Tlv, ReadTlv, Whole;
    ReadsBack(0x30, Tlv(0xA0, Tlv(0xA1, Name(w))), []);
    ReadsBack(0xA0, Tlv(0xA1, Name(w)), []);
    ReadsBack(0xA1, Name(w), []);
    ReadsBack(0x1A, w.domain, Tlv(0x1A, w.item));
    ReadsBack(0x1A, w.item, []);
  }

  /** What is read as a request of at most 127 octets is the one the builder makes of the values read. */
  lemma DecodedIsEncoded(s: seq<byte>)
    requires Decode(s).Some?
    ensures var w := Decode(s).value;
      w.invoke < 128 && |s| == TotalSize(w) && (|s| <= SHORT ==> s == Encoded(w))
  {
    hide Tlv, ReadTlv, Whole, DecodeWrite;
    ReadExactly(s, 0xA0);
    var body := Whole(s, 0xA0).value;
    ReadExactly(body, 0x02);
    var service := ReadTlv(body, 0x02).rest;
    ReadExactly(service, 0xA5);
    assert ReadTlv(body, 0x02).content == [ReadTlv(body, 0x02).content[0]];
    DecodedWrite(ReadTlv(body, 0x02).content[0], Whole(service, 0xA5).value);
  }

  /** The reader goes two octets further than the builder: here is a request of 128 octets. */
  lemma LongerDecodes()
    ensures exists s :: |s| == SHORT + 1 && Decode(s).Some?
  {
    hide Tlv, ReadTlv, Whole;
    var w, data := Write(0, [], [], []), Fill(107, 0);
    var id, service := Tlv(0x02, [0]), Tlv(0xA5, Variables(w) + Tlv(0xA0, data));
    var s := Tlv(0xA0, id + service);
    ReadsBack(0xA0, id + service, []);
    ReadsBack(0x02, [0], service);
    ReadsBack(0xA5, Variables(w) + Tlv(0xA0, data), []);
    NameRoundTrip(w);
    ReadsBack(0xA0, Tlv(0x30, Tlv(0xA0, Tlv(0xA1, Name(w)))), Tlv(0xA0, data));
    ReadsBack(0xA0, data, []);
    assert Decode(s) == Some(Write(0, [], [], data));
  }

  lemma DecodedWrite(invoke: byte, write: seq<byte>)
    requires DecodeWrite(invoke, write).Some?
    ensures var w := DecodeWrite(invoke, write).value;
      && w.invoke == invoke && |write| == 14 + |w.domain| + |w.item| + |w.data|
      && (TotalSize(w) <= SHORT ==> write == Variables(w) + Tlv(0xA0, w.data))
  {
    hide Tlv, ReadTlv, Whole, DecodeName;
    ReadExactly(write, 0xA0);
    var r := ReadTlv(write, 0xA0);
    ReadExactly(r.rest, 0xA0);
    DecodedName(r.content);
  }

  lemma DecodedName(variables: seq<byte>)
    requires DecodeName(variables).Some?
    ensures var (domain, item) := DecodeName(variables).value;
      && |variables| == 10 + |domain| + |item|
      && (|domain| + |item| + 8 <= SHORT ==>
            variables == Tlv(0x30, Tlv(0xA0, Tlv(0xA1, Tlv(0x1A, domain) + Tlv(0x1A, item)))))
  {
    hide Tlv, ReadTlv, Whole;
    ReadExactly(variables, 0x30);
    var a := Whole(variables, 0x30).value;
    ReadExactly(a, 0xA0);
    var b := Whole(a, 0xA0).value;
    ReadExactly(b, 0xA1);
    var c := Whole(b, 0xA1).value;
    ReadExactly(c, 0x1A);
    ReadExactly(ReadTlv(c, 0x1A).rest, 0x1A);
  }

  // ----- Building in place

  /** The put lambda over a run of octets: the destination starts with `done` and goes on as it was. */
  method Put(destination: array<byte>, ghost was: seq<byte>, ghost done: seq<byte>, offset: nat, octets: seq<byte>)
    returns (offset': nat)
    requires offset == |done| && offset + |octets| <= |was| == destination.Length
    requires destination[..] == Splice(was, 0, done)
    modifies destination
    ensures offset' == offset + |octets| && destination[..] == Splice(was, 0, done + octets)
  {
    SpliceNext(was, done, octets);
    CopyInto(destination, offset, octets);
    offset' := offset + |octets|;
  }

  /** build_write_request: zero, or the octets of the request and nothing else touched. */
  method BuildWriteRequest(w: Write, destination: array<byte>) returns (size: nat)
    modifies destination
    ensures size == if TotalSize(w) > destination.Length || TotalSize(w) > SHORT then 0 else TotalSize(w)
    ensures size == 0 ==> destination[..] == old(destination[..])
    ensures size > 0 ==> destination[..] == Splice(old(destination[..]), 0, Encoded(w))
  {
    hide Encoded, Splice;
    if |w.domain| > SHORT || |w.item| > SHORT || |w.data| > SHORT {
      return 0;
    }
    var total := 24 + |w.item| + |w.data| + |w.domain| - 3;
    if total > destination.Length || total > SHORT {
      return 0;
    }
    Lay(w, destination);
    return total;
  }

  method Lay(w: Write, destination: array<byte>)
    requires TotalSize(w) <= destination.Length && TotalSize(w) <= SHORT
    modifies destination
    ensures destination[..] == Splice(old(destination[..]), 0, Encoded(w))
  {
    hide Encoded, Splice;
    ghost var was := destination[..];
    var names := |w.domain| + |w.item|;
    var head: seq<byte> := [
      0xA0, 19 + names + |w.data|, 0x02, 0x01, w.invoke, 0xA5, 14 + names + |w.data|,
      0xA0, 10 + names, 0x30, 8 + names, 0xA0, 6 + names, 0xA1, 4 + names, 0x1A, |w.domain|];
    var second: seq<byte>, third: seq<byte> := [0x1A, |w.item|], [0xA0, |w.data|];
    SpliceNothing(was);
    assert [] + head == head;
    var offset := Put(destination, was, [], 0, head);
    offset := Put(destination, was, head, offset, w.domain);
    offset := Put(destination, was, head + w.domain, offset, second);
    offset := Put(destination, was, head + w.domain + second, offset, w.item);
    offset := Put(destination, was, head + w.domain + second + w.item, offset, third);
    offset := Put(destination, was, head + w.domain + second + w.item + third, offset, w.data);
    EncodedFlat(w, head);
  }

  lemma EncodedFlat(w: Write, head: seq<byte>)
    requires TotalSize(w) <= SHORT
    requires var names := |w.domain| + |w.item|;
      head == [
        0xA0, 19 + names + |w.data|, 0x02, 0x01, w.invoke, 0xA5, 14 + names + |w.data|,
        0xA0, 10 + names, 0x30, 8 + names, 0xA0, 6 + names, 0xA1, 4 + names, 0x1A, |w.domain|]
    ensures Encoded(w) == head + w.domain + [0x1A, |w.item|] + w.item + [0xA0, |w.data|] + w.data
  {
  }
}
