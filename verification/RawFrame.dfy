/**
 Binary frames: a length-prefixed header, a count, that many lengths, then the
 segments. The decoder accepts exactly the encodings, and gives back what was
 encoded.
 */
module RawFrame {

  import opened Wrappers

  type Byte = x: int | 0 <= x < 256

  type Bytes = seq<Byte>

  const U32: int := 0x1_0000_0000

  // ---- the format ---------------------------------------------------------

  /** Four bytes, most significant first, of `uint32(n)`. */
  function Be32(n: nat): (r: Bytes)
    ensures |r| == 4
    ensures (((r[0] as int) * 256 + r[1]) * 256 + r[2]) * 256 + r[3] == n % U32
  {
    var low := n % U32;
    var three := low / 256;
    var two := three / 256;
    var one := two / 256;
    [one, two % 256, three % 256, low % 256]
  }

  function FromBe32(b: Bytes): (n: nat)
    requires |b| >= 4
    ensures n < U32
  {
    (((b[0] as int) * 256 + b[1]) * 256 + b[2]) * 256 + b[3]
  }

  function Lengths(raw: seq<Bytes>): (r: Bytes)
    ensures |r| == 4 * |raw|
  {
    if raw == [] then [] else Be32(|raw[0]|) + Lengths(raw[1..])
  }

  function Concat(raw: seq<Bytes>): Bytes {
    if raw == [] then [] else raw[0] + Concat(raw[1..])
  }

  function Prefix(header: Bytes, raw: seq<Bytes>): Bytes {
    Be32(|header|) + header + Be32(|raw|) + Lengths(raw)
  }

  function Frame(header: Bytes, raw: seq<Bytes>): Bytes {
    Prefix(header, raw) + Concat(raw)
  }

  /** Every length fits its four bytes. */
  predicate Encodable(header: Bytes, raw: seq<Bytes>) {
    |header| < U32 && |raw| < U32 && forall s <- raw :: |s| < U32
  }

  // ---- reading it back ----------------------------------------------------

  /** The segments `lengths` cuts `data` into, if it cuts it up exactly. */
  function Cut(lengths: Bytes, data: Bytes): Option<seq<Bytes>>
    requires |lengths| % 4 == 0
    decreases |lengths|
  {
    if lengths == [] then (if data == [] then Some([]) else None)
    else
      var n := FromBe32(lengths);
      if n > |data| then None
      else
        match Cut(lengths[4..], data[n..])
        case None => None
        case Some(rest) => Some([data[..n]] + rest)
  }

  function Parse(data: Bytes): Option<(Bytes, seq<Bytes>)> {
    if |data| < 4 then None
    else
      var h := FromBe32(data);
      var afterSize := data[4..];
      if h + 4 > |afterSize| then None
      else
        var afterHeader := afterSize[h..];
        var count := FromBe32(afterHeader);
        var body := afterHeader[4..];
        if count * 4 > |body| then None
        else
          match Cut(body[..count * 4], body[count * 4..])
          case None => None
          case Some(raw) => Some((afterSize[..h], raw))
  }

  lemma Be32RoundTrip(n: nat)
    requires n < U32
    ensures FromBe32(Be32(n)) == n
  {
    assert n % U32 == n;
  }

  /** A number has one last digit, and one number before it. */
  lemma OneLastDigit(high: nat, low: Byte, high': nat, low': Byte)
    requires high * 256 + low == high' * 256 + low'
    ensures high == high' && low == low'
  {
  }

  lemma FromBe32RoundTrip(b: Bytes)
    requires |b| == 4
    ensures Be32(FromBe32(b)) == b
  {
    var r := Be32(FromBe32(b));
    var two, three := (b[0] as int) * 256 + b[1], ((b[0] as int) * 256 + b[1]) * 256 + b[2];
    var two', three' := (r[0] as int) * 256 + r[1], ((r[0] as int) * 256 + r[1]) * 256 + r[2];
    OneLastDigit(three, b[3], three', r[3]);
    OneLastDigit(two, b[2], two', r[2]);
    OneLastDigit(b[0], b[1], r[0], r[1]);
  }

  lemma SplitNumber(data: Bytes)
    requires |data| >= 4
    ensures data == Be32(FromBe32(data)) + data[4..]
  {
    FromBe32RoundTrip(data[..4]);
  }

  /** A number at the front of a longer string. */
  lemma FrontNumber(n: nat, rest: Bytes)
    requires n < U32
    ensures FromBe32(Be32(n) + rest) == n && (Be32(n) + rest)[4..] == rest
  {
    Be32RoundTrip(n);
  }

  lemma {:induction false} CutOfConcat(raw: seq<Bytes>)
    requires forall s <- raw :: |s| < U32
    ensures Cut(Lengths(raw), Concat(raw)) == Some(raw)
    decreases |raw|
  {
    if raw != [] {
      FrontNumber(|raw[0]|, Lengths(raw[1..]));
      CutOfConcat(raw[1..]);
      assert [raw[0]] + raw[1..] == raw;
      assert Concat(raw)[..|raw[0]|] == raw[0] && Concat(raw)[|raw[0]|..] == Concat(raw[1..]);
    }
  }

  lemma {:induction false} CutIsConcat(lengths: Bytes, data: Bytes)
    requires |lengths| % 4 == 0 && Cut(lengths, data).Some?
    ensures
      var raw := Cut(lengths, data).value;
      Lengths(raw) == lengths && Concat(raw) == data && 4 * |raw| == |lengths| && forall s <- raw :: |s| < U32
    decreases |lengths|
  {
    if lengths != [] {
      var n := FromBe32(lengths);
      CutIsConcat(lengths[4..], data[n..]);
      SplitNumber(lengths);
      assert data[..n] + data[n..] == data;
      var raw := Cut(lengths, data).value;
      assert raw[1..] == Cut(lengths[4..], data[n..]).value;
    }
  }

  /** Decoding an encoding gives back the header and the segments. */
  lemma ParseOfFrame(header: Bytes, raw: seq<Bytes>)
    requires Encodable(header, raw)
    ensures Parse(Frame(header, raw)) == Some((header, raw))
  {
    var data, body := Frame(header, raw), Lengths(raw) + Concat(raw);
    var afterHeader := Be32(|raw|) + body;
    assert data == Be32(|header|) + (header + afterHeader);
    FrontNumber(|header|, header + afterHeader);
    assert (header + afterHeader)[..|header|] == header && (header + afterHeader)[|header|..] == afterHeader;
    FrontNumber(|raw|, body);
    assert body[..4 * |raw|] == Lengths(raw) && body[4 * |raw|..] == Concat(raw);
    CutOfConcat(raw);
  }

  /** Whatever is accepted is the encoding of what is returned. */
  lemma FrameOfParse(data: Bytes)
    requires Parse(data).Some?
    ensures var (header, raw) := Parse(data).value; Encodable(header, raw) && Frame(header, raw) == data
  {
    var h := FromBe32(data);
    var afterHeader := data[4..][h..];
    SplitNumber(data);
    assert data[4..] == data[4..][..h] + afterHeader;
    var body, n := afterHeader[4..], FromBe32(afterHeader) * 4;
    assert afterHeader == afterHeader[..4] + (body[..n] + body[n..]);
    BodyOfParse(afterHeader[..4], body[..n], body[n..]);
    var (header, raw) := Parse(data).value;
    Reassociate(Be32(|header|), header, Be32(|raw|), Lengths(raw), Concat(raw));
  }

  /** The part behind the header: a count, the lengths, the segments. */
  lemma BodyOfParse(number: Bytes, lengths: Bytes, segments: Bytes)
    requires |number| == 4 && |lengths| == FromBe32(number) * 4 && Cut(lengths, segments).Some?
    ensures
      var raw := Cut(lengths, segments).value;
      && |raw| == FromBe32(number) && (forall s <- raw :: |s| < U32)
      && number + (lengths + segments) == Be32(|raw|) + (Lengths(raw) + Concat(raw))
  {
    CutIsConcat(lengths, segments);
    FromBe32RoundTrip(number);
  }

  lemma Reassociate(a: Bytes, b: Bytes, c: Bytes, d: Bytes, e: Bytes)
    ensures a + (b + (c + (d + e))) == a + b + c + d + e
  {
  }

  /** A byte string is the encoding of at most one header and list of segments. */
  lemma FrameInjective(header: Bytes, raw: seq<Bytes>, header': Bytes, raw': seq<Bytes>)
    requires Encodable(header, raw) && Encodable(header', raw') && Frame(header, raw) == Frame(header', raw')
    ensures header == header' && raw == raw'
  {
    ParseOfFrame(header, raw);
    ParseOfFrame(header', raw');
  }

  // ---- the runtime --------------------------------------------------------

  datatype Decoded = Malformed | Decoded(header: Bytes, raw: seq<Bytes>)

  /** Cuts a frame up in place, and rejects everything that is not an encoding. */
  method DecodeRawFrame(frame: Bytes) returns (r: Decoded)
    ensures r.Decoded? ==> Encodable(r.header, r.raw) && frame == Frame(r.header, r.raw)
    ensures r.Malformed? ==> forall header, raw :: Encodable(header, raw) ==> frame != Frame(header, raw)
  {
    ghost var parsed := Parse(frame);
    if parsed.Some? {
      FrameOfParse(frame);
    }
    forall header, raw | Encodable(header, raw) && frame == Frame(header, raw)
      ensures parsed.Some?
    {
      ParseOfFrame(header, raw);
    }
    var data := frame;
    if |data| < 4 {
      return Malformed;
    }
    var headerLen := FromBe32(data);
    data := data[4..];
    if headerLen + 4 > |data| {
      return Malformed;
    }
    var header := data[..headerLen];
    data := data[headerLen..];
    var count := FromBe32(data);
    data := data[4..];
    if count * 4 > |data| {
      return Malformed;
    }
    var lengths := data[..count * 4];
    data := data[count * 4..];
    var raw := CutSegments(lengths, count, data);
    if raw.None? {
      return Malformed;
    }
    r := Decoded(header, raw.value);
  }

  method CutSegments(lengths: Bytes, count: nat, segments: Bytes) returns (r: Option<seq<Bytes>>)
    requires |lengths| == 4 * count
    ensures r == Cut(lengths, segments)
  {
    var data := segments;
    var raw: seq<Bytes> := [];
    assert lengths[4 * 0..] == lengths;
    PrecededNone(Cut(lengths, data));
    for i := 0 to count
      invariant |raw| == i
      invariant Cut(lengths, segments) == Preceded(raw, Cut(lengths[4 * i..], data))
    {
      var n := FromBe32(lengths[4 * i..]);
      if n > |data| {
        return None;
      }
      assert lengths[4 * i..][4..] == lengths[4 * (i + 1)..];
      PrecededOne(raw, data[..n], Cut(lengths[4 * (i + 1)..], data[n..]));
      raw := raw + [data[..n]];
      data := data[n..];
    }
    assert lengths[4 * count..] == [];
    if |data| != 0 {
      return None;
    }
    assert raw + [] == raw;
    r := Some(raw);
  }

  lemma PrecededNone(rest: Option<seq<Bytes>>)
    ensures Preceded([], rest) == rest
  {
    if rest.Some? {
      assert [] + rest.value == rest.value;
    }
  }

  ghost function Preceded(raw: seq<Bytes>, rest: Option<seq<Bytes>>): Option<seq<Bytes>> {
    if rest.Some? then Some(raw + rest.value) else None
  }

  lemma PrecededOne(raw: seq<Bytes>, s: Bytes, rest: Option<seq<Bytes>>)
    ensures Preceded(raw, Preceded([s], rest)) == Preceded(raw + [s], rest)
  {
    if rest.Some? {
      assert raw + ([s] + rest.value) == raw + [s] + rest.value;
    }
  }

  /** One buffer holding the whole frame. */
  method EncodeRawFrame(header: Bytes, raw: seq<Bytes>) returns (out: Bytes)
    ensures out == Frame(header, raw)
  {
    out := Be32(|header|);
    out := out + header;
    out := out + Be32(|raw|);
    out := AppendLengths(out, raw);
    ghost var prefix := out;
    assert raw[0..] == raw;
    for i := 0 to |raw|
      invariant out + Concat(raw[i..]) == prefix + Concat(raw)
    {
      assert raw[i..][0] == raw[i] && raw[i..][1..] == raw[i + 1..];
      assert out + (raw[i] + Concat(raw[i + 1..])) == out + raw[i] + Concat(raw[i + 1..]);
      out := out + raw[i];
    }
    assert raw[|raw|..] == [] && out + [] == out;
  }

  method AppendLengths(dst: Bytes, raw: seq<Bytes>) returns (out: Bytes)
    ensures out == dst + Lengths(raw)
  {
    out := dst;
    assert raw[0..] == raw;
    for i := 0 to |raw|
      invariant out + Lengths(raw[i..]) == dst + Lengths(raw)
    {
      assert raw[i..][0] == raw[i] && raw[i..][1..] == raw[i + 1..];
      assert out + (Be32(|raw[i]|) + Lengths(raw[i + 1..])) == out + Be32(|raw[i]|) + Lengths(raw[i + 1..]);
      out := out + Be32(|raw[i]|);
    }
    assert raw[|raw|..] == [] && out + [] == out;
  }

  datatype Encoded = Failed | Encoded(isBinary: bool, out: Bytes, trailing: seq<Bytes>)

  /** What is to be sent: the message, and the same message split into a header
      without its raw fields and their segments. Marshalling may fail. */
  datatype Outgoing = Outgoing(whole: Option<Bytes>, header: Option<Bytes>, raw: seq<Bytes>)

  /** Appends to `dst`, patching the header length in once it is known, and leaves
      the segments to be sent behind it. With nothing raw to send, the message goes
      out whole, as text. */
  method EncodeAppend(dst: Bytes, v: Outgoing) returns (r: Encoded)
    ensures Concat(v.raw) != [] && v.header.Some? ==>
              r.Encoded? && r.isBinary && r.trailing == v.raw && r.out + Concat(r.trailing) == dst + Frame(v.header.value, v.raw)
    ensures Concat(v.raw) == [] && v.whole.Some? ==> r == Encoded(false, dst + v.whole.value, [])
    ensures r.Failed? <==> if Concat(v.raw) != [] then v.header.None? else v.whole.None?
  {
    var size := 0;
    assert v.raw[0..] == v.raw;
    for i := 0 to |v.raw|
      invariant size + |Concat(v.raw[i..])| == |Concat(v.raw)|
    {
      assert v.raw[i..][0] == v.raw[i] && v.raw[i..][1..] == v.raw[i + 1..];
      size := size + |v.raw[i]|;
    }
    assert v.raw[|v.raw|..] == [];
    if size > 0 {
      if v.header.None? {
        return Failed;
      }
      var header := v.header.value;
      var out := dst + [0, 0, 0, 0] + header;
      var length := Be32(|out| - |dst| - 4);
      out := out[..|dst|] + length + out[|dst| + 4..];
      assert out == dst + Be32(|header|) + header;
      out := out + Be32(|v.raw|);
      out := AppendLengths(out, v.raw);
      assert out == dst + Prefix(header, v.raw);
      assert out + Concat(v.raw) == dst + Frame(header, v.raw);
      return Encoded(true, out, v.raw);
    }
    if v.whole.None? {
      return Failed;
    }
    r := Encoded(false, dst + v.whole.value, []);
  }
}
