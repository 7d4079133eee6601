/**
 * The wire format read by `MsgPackCodec` in cli/src/msgpack_rpc.rs: section "Formats" of the
 * MessagePack specification. Decoding a buffer yields a value and how many bytes it took, or says
 * that the buffer ends too early, or that no continuation makes it valid.
 */
module MessagePack {
  import opened Prelude

  type Bytes = seq<byte>

  // A map holds its keys and values alternately; a float holds its raw IEEE 754 bytes.
  datatype Value =
    | Nil
    | Bool(b: bool)
    | Int(n: int)
    | Float(raw: Bytes)
    | Str(text: Bytes)
    | Bin(data: Bytes)
    | Ext(kind: byte, payload: Bytes)
    | Array(items: seq<Value>)
    | Map(fields: seq<Value>)

  datatype Decoded = Ok(value: Value, len: nat) | Incomplete | Bad
  datatype DecodedMany = OkMany(values: seq<Value>, len: nat) | IncompleteMany | BadMany

  datatype Kind = UIntK | SIntK | FloatK | StrK | BinK | ExtK | ArrayK | MapK

  // What a marker byte announces: a whole value, a body of known size, or a big-endian size field
  // of `width` bytes before the body.
  datatype Shape = Whole(value: Value) | Reserved | Direct(kind: Kind, size: nat) | Sized(kind: Kind, width: nat)

  function ShapeOf(b: byte): Shape {
    if b < 0x80 then Whole(Int(b))
    else if b < 0x90 then Direct(MapK, b - 0x80)
    else if b < 0xa0 then Direct(ArrayK, b - 0x90)
    else if b < 0xc0 then Direct(StrK, b - 0xa0)
    else if b == 0xc0 then Whole(Nil)
    else if b == 0xc1 then Reserved
    else if b <= 0xc3 then Whole(Bool(b == 0xc3))
    else if b <= 0xc6 then Sized(BinK, Width(b - 0xc4))
    else if b <= 0xc9 then Sized(ExtK, Width(b - 0xc7))
    else if b <= 0xcb then Direct(FloatK, if b == 0xca then 4 else 8)
    else if b <= 0xcf then Direct(UIntK, Width(b - 0xcc))
    else if b <= 0xd3 then Direct(SIntK, Width(b - 0xd0))
    else if b <= 0xd8 then Direct(ExtK, Width(b - 0xd4))
    else if b <= 0xdb then Sized(StrK, Width(b - 0xd9))
    else if b <= 0xdd then Sized(ArrayK, Width(b - 0xdc + 1))
    else if b <= 0xdf then Sized(MapK, Width(b - 0xde + 1))
    else Whole(Int(b - 0x100))
  }

  // Two to the power of `e`, for the five widths there are.
  function Width(e: int): nat {
    if e <= 0 then 1 else if e == 1 then 2 else if e == 2 then 4 else if e == 3 then 8 else 16
  }

  function Limit(width: nat): nat {
    if width == 0 then 1 else 256 * Limit(width - 1)
  }

  function BigEndian(s: Bytes): (n: nat)
    ensures n < Limit(|s|)
  {
    if s == [] then 0 else BigEndian(s[..|s| - 1]) * 256 + s[|s| - 1]
  }

  function ToBigEndian(n: nat, width: nat): (s: Bytes)
    requires n < Limit(width)
    ensures |s| == width && BigEndian(s) == n
  {
    if width == 0 then []
    else
      var front, last := ToBigEndian(n / 256, width - 1), n % 256;
      assert (front + [last])[..width - 1] == front;
      front + [last]
  }

  function Interpret(kind: Kind, body: Bytes): Value
    requires kind != ArrayK && kind != MapK && (kind == ExtK ==> body != [])
  {
    match kind
    case UIntK => Int(BigEndian(body))
    case SIntK => Int(if 2 * BigEndian(body) < Limit(|body|) then BigEndian(body) else BigEndian(body) - Limit(|body|))
    case FloatK => Float(body)
    case StrK => Str(body)
    case BinK => Bin(body)
    case ExtK => Ext(body[0], body[1..])
  }

  function Decode(s: Bytes): (r: Decoded)
    ensures r.Ok? ==> 1 <= r.len <= |s|
    decreases |s|, 0
  {
    if s == [] then Incomplete
    else
      match ShapeOf(s[0])
      case Whole(value) => Ok(value, 1)
      case Reserved => Bad
      case Direct(kind, size) => DecodeBody(kind, size, s, 1)
      case Sized(kind, width) =>
        if |s| < 1 + width then Incomplete else DecodeBody(kind, BigEndian(s[1..1 + width]), s, 1 + width)
  }

  function DecodeBody(kind: Kind, size: nat, s: Bytes, at: nat): (r: Decoded)
    requires 1 <= at <= |s|
    ensures r.Ok? ==> 1 <= r.len <= |s|
    decreases |s| - at, 2
  {
    if kind == ArrayK || kind == MapK then
      match DecodeMany(s[at..], if kind == MapK then 2 * size else size)
      case OkMany(values, len) => Ok(if kind == MapK then Map(values) else Array(values), at + len)
      case IncompleteMany => Incomplete
      case BadMany => Bad
    else
      var end := at + size + if kind == ExtK then 1 else 0;
      if |s| < end then Incomplete else Ok(Interpret(kind, s[at..end]), end)
  }

  function DecodeMany(s: Bytes, count: nat): (r: DecodedMany)
    ensures r.OkMany? ==> r.len <= |s|
    decreases |s|, 1
  {
    if count == 0 then OkMany([], 0)
    else
      match Decode(s)
      case Incomplete => IncompleteMany
      case Bad => BadMany
      case Ok(value, len) =>
        match DecodeMany(s[len..], count - 1)
        case OkMany(values, more) => OkMany([value] + values, len + more)
        case other => other
  }

  // ---------------------------------------------------------------------------------------------
  // Prefix stability

  // A verdict other than "incomplete" is not changed by bytes that arrive later.
  lemma {:induction false} DecodeIsStable(s: Bytes, more: Bytes)
    requires !Decode(s).Incomplete?
    ensures Decode(s + more) == Decode(s)
    decreases |s|, 0
  {
    var all := s + more;
    assert all[0] == s[0];
    match ShapeOf(s[0])
    case Whole(_) =>
    case Reserved =>
    case Direct(kind, size) => BodyIsStable(kind, size, s, 1, more);
    case Sized(kind, width) =>
      assert all[1..1 + width] == s[1..1 + width];
      BodyIsStable(kind, BigEndian(s[1..1 + width]), s, 1 + width, more);
  }

  lemma {:induction false} BodyIsStable(kind: Kind, size: nat, s: Bytes, at: nat, more: Bytes)
    requires 1 <= at <= |s| && !DecodeBody(kind, size, s, at).Incomplete?
    ensures DecodeBody(kind, size, s + more, at) == DecodeBody(kind, size, s, at)
    decreases |s| - at, 2
  {
    if kind == ArrayK || kind == MapK {
      assert (s + more)[at..] == s[at..] + more;
      ManyIsStable(s[at..], if kind == MapK then 2 * size else size, more);
    } else {
      var end := at + size + if kind == ExtK then 1 else 0;
      assert (s + more)[at..end] == s[at..end];
    }
  }

  lemma {:induction false} ManyIsStable(s: Bytes, count: nat, more: Bytes)
    requires !DecodeMany(s, count).IncompleteMany?
    ensures DecodeMany(s + more, count) == DecodeMany(s, count)
    decreases |s|, 1
  {
    if count > 0 {
      DecodeIsStable(s, more);
      if Decode(s).Ok? {
        var len := Decode(s).len;
        assert (s + more)[len..] == s[len..] + more;
        ManyIsStable(s[len..], count - 1, more);
      }
    }
  }

  // Of the bytes of a value, every strict prefix is incomplete: never bad, never a shorter value.
  lemma StrictPrefixIsIncomplete(s: Bytes, cut: nat)
    requires Decode(s).Ok? && cut < Decode(s).len
    ensures Decode(s[..cut]).Incomplete?
  {
    if !Decode(s[..cut]).Incomplete? {
      assert s[..cut] + s[cut..] == s;
      DecodeIsStable(s[..cut], s[cut..]);
    }
  }

  // A value is read from its own bytes only: cutting the buffer after them changes nothing.
  lemma {:induction false} DecodeIsLocal(s: Bytes, cut: nat)
    requires Decode(s).Ok? && Decode(s).len <= cut <= |s|
    ensures Decode(s[..cut]) == Decode(s)
    decreases |s|, 0
  {
    match ShapeOf(s[0])
    case Whole(_) =>
    case Direct(kind, size) => BodyIsLocal(kind, size, s, 1, cut);
    case Sized(kind, width) =>
      var size := BigEndian(s[1..1 + width]);
      BodyStart(kind, size, s, 1 + width);
      assert s[..cut][1..1 + width] == s[1..1 + width];
      BodyIsLocal(kind, size, s, 1 + width, cut);
  }

  lemma BodyStart(kind: Kind, size: nat, s: Bytes, at: nat)
    requires 1 <= at <= |s| && DecodeBody(kind, size, s, at).Ok?
    ensures DecodeBody(kind, size, s, at).len >= at
  {
  }

  lemma {:induction false} BodyIsLocal(kind: Kind, size: nat, s: Bytes, at: nat, cut: nat)
    requires 1 <= at <= cut <= |s|
    requires DecodeBody(kind, size, s, at).Ok? && DecodeBody(kind, size, s, at).len <= cut
    ensures DecodeBody(kind, size, s[..cut], at) == DecodeBody(kind, size, s, at)
    decreases |s| - at, 2
  {
    hide Interpret, DecodeMany;
    if kind == ArrayK || kind == MapK {
      assert s[..cut][at..] == s[at..][..cut - at];
      ManyIsLocal(s[at..], if kind == MapK then 2 * size else size, cut - at);
    } else {
      var end := at + size + if kind == ExtK then 1 else 0;
      assert s[..cut][at..end] == s[at..end];
    }
  }

  lemma {:induction false} ManyIsLocal(s: Bytes, count: nat, cut: nat)
    requires DecodeMany(s, count).OkMany? && DecodeMany(s, count).len <= cut <= |s|
    ensures DecodeMany(s[..cut], count) == DecodeMany(s, count)
    decreases |s|, 1
  {
    if count > 0 {
      var len := Decode(s).len;
      DecodeIsLocal(s, cut);
      assert s[..cut][len..] == s[len..][..cut - len];
      ManyIsLocal(s[len..], count - 1, cut - len);
    }
  }

  // ---------------------------------------------------------------------------------------------
  // Encoding, with the shortest marker for each size as the serializer chooses it

  const MAX32: nat := 0x1_0000_0000

  predicate WellFormed(v: Value) {
    match v
    case Int(n) => -0x8000_0000_0000_0000 <= n < 0x1_0000_0000_0000_0000
    case Float(raw) => |raw| == 4 || |raw| == 8
    case Str(text) => |text| < MAX32
    case Bin(data) => |data| < MAX32
    case Ext(_, payload) => |payload| < MAX32
    case Array(items) => |items| < MAX32 && forall i :: 0 <= i < |items| ==> WellFormed(items[i])
    case Map(fields) =>
      |fields| % 2 == 0 && |fields| < 2 * MAX32 && forall i :: 0 <= i < |fields| ==> WellFormed(fields[i])
    case _ => true
  }

  function Field(marker: byte, n: nat, width: nat): Bytes
    requires n < Limit(width)
  {
    [marker] + ToBigEndian(n, width)
  }

  // The head of a string, binary, extension, array or map with `size` payload bytes or entries.
  function Head(kind: Kind, size: nat): Bytes
    requires kind in {StrK, BinK, ExtK, ArrayK, MapK} && size < MAX32
  {
    Limits();
    var w := if size < 0x100 then 1 else if size < 0x1_0000 then 2 else 4;
    var e := if w == 4 then 2 else w - 1;
    match kind
    case StrK => if size < 32 then [0xa0 + size] else Field(0xd9 + e, size, w)
    case BinK => Field(0xc4 + e, size, w)
    case ExtK =>
      if size == 1 then [0xd4] else if size == 2 then [0xd5] else if size == 4 then [0xd6]
      else if size == 8 then [0xd7] else if size == 16 then [0xd8] else Field(0xc7 + e, size, w)
    case ArrayK =>
      if size < 16 then [0x90 + size] else if size < 0x1_0000 then Field(0xdc, size, 2) else Field(0xdd, size, 4)
    case MapK =>
      if size < 16 then [0x80 + size] else if size < 0x1_0000 then Field(0xde, size, 2) else Field(0xdf, size, 4)
  }

  lemma Limits()
    ensures Limit(1) == 0x100 && Limit(2) == 0x1_0000 && Limit(4) == MAX32 && Limit(8) == 0x1_0000_0000_0000_0000
  {
    assert Limit(3) == 0x100_0000 && Limit(5) == 0x100_0000_0000 && Limit(6) == 0x1_0000_0000_0000;
  }

  function EncodeInt(n: int): Bytes
    requires WellFormed(Int(n))
  {
    Limits();
    if 0 <= n < 0x80 then [n]
    else if 0 <= n < 0x100 then Field(0xcc, n, 1)
    else if 0 <= n < 0x1_0000 then Field(0xcd, n, 2)
    else if 0 <= n < MAX32 then Field(0xce, n, 4)
    else if 0 <= n then Field(0xcf, n, 8)
    else if -32 <= n then [0x100 + n]
    else if -0x80 <= n then Field(0xd0, 0x100 + n, 1)
    else if -0x8000 <= n then Field(0xd1, 0x1_0000 + n, 2)
    else if -0x8000_0000 <= n then Field(0xd2, MAX32 + n, 4)
    else Field(0xd3, 0x1_0000_0000_0000_0000 + n, 8)
  }

  function Encode(v: Value): Bytes
    requires WellFormed(v)
    decreases v, 1
  {
    match v
    case Nil => [0xc0]
    case Bool(b) => [if b then 0xc3 else 0xc2]
    case Int(n) => EncodeInt(n)
    case Float(raw) => [if |raw| == 4 then 0xca else 0xcb] + raw
    case Str(text) => Head(StrK, |text|) + text
    case Bin(data) => Head(BinK, |data|) + data
    case Ext(kind, payload) => Head(ExtK, |payload|) + [kind] + payload
    case Array(items) => Head(ArrayK, |items|) + EncodeMany(items)
    case Map(fields) => Head(MapK, |fields| / 2) + EncodeMany(fields)
  }

  function EncodeMany(values: seq<Value>): Bytes
    requires forall i :: 0 <= i < |values| ==> WellFormed(values[i])
    decreases values, 0
  {
    if values == [] then [] else Encode(values[0]) + EncodeMany(values[1..])
  }

  lemma FieldAnnounces(marker: byte, kind: Kind, n: nat, width: nat, rest: Bytes)
    requires n < Limit(width) && ShapeOf(marker) == Sized(kind, width)
    ensures var h := Field(marker, n, width); Decode(h + rest) == DecodeBody(kind, n, h + rest, |h|)
  {
    hide ToBigEndian, BigEndian, DecodeBody, ShapeOf, Limit;
    var h := Field(marker, n, width);
    assert (h + rest)[1..1 + width] == h[1..] == ToBigEndian(n, width);
  }

  lemma ByteAnnounces(b: byte, kind: Kind, size: nat, rest: Bytes)
    requires ShapeOf(b) == Direct(kind, size)
    ensures Decode([b] + rest) == DecodeBody(kind, size, [b] + rest, 1)
  {
    assert ([b] + rest)[0] == b;
    hide ShapeOf, DecodeBody;
  }

  // A head decodes to its kind and size, whatever follows.
  lemma HeadAnnounces(kind: Kind, size: nat, rest: Bytes)
    requires kind in {StrK, BinK, ExtK, ArrayK, MapK} && size < MAX32
    ensures var h := Head(kind, size); h != [] && Decode(h + rest) == DecodeBody(kind, size, h + rest, |h|)
  {
    ShortHead(kind, size);
    hide Head, Decode, DecodeBody, Field, ShapeOf, Limit;
    var h := Head(kind, size);
    if |h| == 1 {
      ByteAnnounces(h[0], kind, size, rest);
    } else {
      LongHead(kind, size);
      FieldAnnounces(h[0], kind, size, |h| - 1, rest);
    }
  }

  lemma ShortHead(kind: Kind, size: nat)
    requires kind in {StrK, BinK, ExtK, ArrayK, MapK} && size < MAX32
    ensures var h := Head(kind, size);
      h != [] && (|h| == 1 ==> h == [h[0]] && ShapeOf(h[0]) == Direct(kind, size))
  {
    Limits();
    hide Limit, ToBigEndian;
  }

  lemma LongHead(kind: Kind, size: nat)
    requires kind in {StrK, BinK, ExtK, ArrayK, MapK} && size < MAX32 && |Head(kind, size)| > 1
    ensures var h := Head(kind, size);
      size < Limit(|h| - 1) && h == Field(h[0], size, |h| - 1) && ShapeOf(h[0]) == Sized(kind, |h| - 1)
  {
    Limits();
    hide Limit, ToBigEndian;
  }

  lemma FieldHolds(marker: byte, kind: Kind, n: nat, width: nat, rest: Bytes)
    requires n < Limit(width) && ShapeOf(marker) == Direct(kind, width) && (kind == UIntK || kind == SIntK)
    ensures |Field(marker, n, width)| == 1 + width
    ensures Decode(Field(marker, n, width) + rest) == Ok(Interpret(kind, ToBigEndian(n, width)), 1 + width)
  {
    hide ToBigEndian, BigEndian, Interpret, ShapeOf;
    var h := Field(marker, n, width);
    assert (h + rest)[1..1 + width] == h[1..] == ToBigEndian(n, width);
  }

  lemma UnsignedHolds(marker: byte, n: nat, width: nat, rest: Bytes)
    requires n < Limit(width) && ShapeOf(marker) == Direct(UIntK, width)
    ensures var s := Field(marker, n, width); Decode(s + rest) == Ok(Int(n), |s|)
  {
    FieldHolds(marker, UIntK, n, width, rest);
    hide ToBigEndian, BigEndian, Decode, ShapeOf, Field;
  }

  lemma SignedHolds(marker: byte, n: int, width: nat, rest: Bytes)
    requires n < 0 <= 2 * n + Limit(width) && ShapeOf(marker) == Direct(SIntK, width)
    ensures var s := Field(marker, Limit(width) + n, width); Decode(s + rest) == Ok(Int(n), |s|)
  {
    hide ToBigEndian, BigEndian, Decode, ShapeOf, Field, Limit;
    FieldHolds(marker, SIntK, Limit(width) + n, width, rest);
  }

  lemma ByteHolds(b: byte, rest: Bytes)
    requires ShapeOf(b).Whole?
    ensures Decode([b] + rest) == Ok(ShapeOf(b).value, 1)
  {
    assert ([b] + rest)[0] == b;
    hide ShapeOf;
  }

  lemma IntRoundTrip(n: int, rest: Bytes)
    requires WellFormed(Int(n))
    ensures Decode(EncodeInt(n) + rest) == Ok(Int(n), |EncodeInt(n)|)
  {
    Limits();
    hide Limit, Decode, Field;
    if 0 <= n < 0x80 || -32 <= n < 0 { ByteHolds(EncodeInt(n)[0], rest); }
    else if 0 <= n < 0x100 { UnsignedHolds(0xcc, n, 1, rest); }
    else if 0 <= n < 0x1_0000 { UnsignedHolds(0xcd, n, 2, rest); }
    else if 0 <= n < MAX32 { UnsignedHolds(0xce, n, 4, rest); }
    else if 0 <= n { UnsignedHolds(0xcf, n, 8, rest); }
    else if -0x80 <= n { SignedHolds(0xd0, n, 1, rest); }
    else if -0x8000 <= n { SignedHolds(0xd1, n, 2, rest); }
    else if -0x8000_0000 <= n { SignedHolds(0xd2, n, 4, rest); }
    else { SignedHolds(0xd3, n, 8, rest); }
  }

  lemma FloatRoundTrip(raw: Bytes, rest: Bytes)
    requires WellFormed(Float(raw))
    ensures var s := Encode(Float(raw)); Decode(s + rest) == Ok(Float(raw), |s|)
  {
    var s := Encode(Float(raw));
    assert (s + rest)[0] == s[0] && (s + rest)[1..|s|] == raw;
    assert ShapeOf(s[0]) == Direct(FloatK, |raw|);
    hide ShapeOf, BigEndian;
  }

  // Decoding an encoding gives back the value and exactly its bytes, whatever follows.
  lemma {:induction false} RoundTrip(v: Value, rest: Bytes)
    requires WellFormed(v)
    ensures Decode(Encode(v) + rest) == Ok(v, |Encode(v)|)
    decreases v, 1
  {
    hide Decode, EncodeInt, Head, EncodeMany;
    match v
    case Nil => ByteHolds(0xc0, rest);
    case Bool(b) => ByteHolds(if b then 0xc3 else 0xc2, rest);
    case Int(n) => IntRoundTrip(n, rest);
    case Float(raw) => FloatRoundTrip(raw, rest);
    case Str(text) => PayloadRoundTrip(StrK, |text|, text, rest);
    case Bin(data) => PayloadRoundTrip(BinK, |data|, data, rest);
    case Ext(kind, payload) =>
      assert Head(ExtK, |payload|) + [kind] + payload == Head(ExtK, |payload|) + ([kind] + payload);
      PayloadRoundTrip(ExtK, |payload|, [kind] + payload, rest);
    case Array(items) => ChildrenRoundTrip(ArrayK, |items|, items, rest);
    case Map(fields) => ChildrenRoundTrip(MapK, |fields| / 2, fields, rest);
  }

  lemma Payload(h: Bytes, body: Bytes, rest: Bytes)
    ensures h + body + rest == h + (body + rest)
    ensures (h + (body + rest))[|h|..|h| + |body|] == body && (h + (body + rest))[|h|..] == body + rest
  {
  }

  lemma BodyHolds(kind: Kind, size: nat, s: Bytes, at: nat)
    requires kind in {StrK, BinK, ExtK} && 1 <= at && at + size + (if kind == ExtK then 1 else 0) <= |s|
    ensures var end := at + size + if kind == ExtK then 1 else 0;
      DecodeBody(kind, size, s, at) == Ok(Interpret(kind, s[at..end]), end)
  {
    hide Interpret, DecodeMany;
  }

  lemma PayloadRoundTrip(kind: Kind, size: nat, body: Bytes, rest: Bytes)
    requires kind in {StrK, BinK, ExtK} && size < MAX32 && |body| == size + (if kind == ExtK then 1 else 0)
    ensures var h := Head(kind, size); Decode(h + body + rest) == Ok(Interpret(kind, body), |h| + |body|)
  {
    hide Decode, DecodeBody, Head, Interpret;
    var h := Head(kind, size);
    HeadAnnounces(kind, size, body + rest);
    Payload(h, body, rest);
    BodyHolds(kind, size, h + (body + rest), |h|);
  }

  lemma {:induction false} ChildrenRoundTrip(kind: Kind, size: nat, values: seq<Value>, rest: Bytes)
    requires kind in {ArrayK, MapK} && size < MAX32 && |values| == (if kind == MapK then 2 * size else size)
    requires forall i :: 0 <= i < |values| ==> WellFormed(values[i])
    ensures var s := Head(kind, size) + EncodeMany(values);
      Decode(s + rest) == Ok(if kind == MapK then Map(values) else Array(values), |s|)
    decreases values, 1
  {
    hide Decode, DecodeMany, Head, EncodeMany;
    var h, body := Head(kind, size), EncodeMany(values);
    HeadAnnounces(kind, size, body + rest);
    Payload(h, body, rest);
    ManyRoundTrip(values, rest);
  }

  lemma {:induction false} ManyRoundTrip(values: seq<Value>, rest: Bytes)
    requires forall i :: 0 <= i < |values| ==> WellFormed(values[i])
    ensures DecodeMany(EncodeMany(values) + rest, |values|) == OkMany(values, |EncodeMany(values)|)
    decreases values, 0
  {
    if values == [] {
    } else {
      hide Decode, Encode;
      var first, more := Encode(values[0]), EncodeMany(values[1..]);
      RoundTrip(values[0], more + rest);
      Payload(first, more, rest);
      ManyRoundTrip(values[1..], rest);
      assert [values[0]] + values[1..] == values;
    }
  }

  // ---------------------------------------------------------------------------------------------
  // Every format of the specification, whether or not it is the shortest for its value

  // The most significant byte comes first.
  lemma {:induction false} BigEndianFirst(b: byte, s: Bytes)
    ensures BigEndian([b] + s) == b * Limit(|s|) + BigEndian(s)
  {
    if s == [] {
      assert [b] + [] == [b] && [b][..0] == [];
    } else {
      var front, last := s[..|s| - 1], s[|s| - 1];
      BigEndianFirst(b, front);
      assert ([b] + s)[..|s|] == [b] + front;
      Shift(b, Limit(|front|), BigEndian(front));
    }
  }

  lemma Shift(b: int, limit: int, n: int)
    ensures (b * limit + n) * 256 == b * (256 * limit) + n * 256
  {
  }

  // One byte on its own.
  lemma ByteFormats(b: byte, rest: Bytes)
    ensures b < 0x80 ==> Decode([b] + rest) == Ok(Int(b), 1)
    ensures b >= 0xe0 ==> Decode([b] + rest) == Ok(Int(b - 256), 1)
    ensures b == 0xc0 ==> Decode([b] + rest) == Ok(Nil, 1)
    ensures b == 0xc1 ==> Decode([b] + rest) == Bad
    ensures b == 0xc2 ==> Decode([b] + rest) == Ok(Bool(false), 1)
    ensures b == 0xc3 ==> Decode([b] + rest) == Ok(Bool(true), 1)
  {
    if ShapeOf(b).Whole? { ByteHolds(b, rest); }
    assert ([b] + rest)[0] == b;
    hide DecodeBody, BigEndian;
  }

  // Integers of one, two, four and eight bytes.
  lemma UnsignedFormats(marker: byte, width: nat, n: nat, rest: Bytes)
    requires (marker, width) in {(0xcc, 1), (0xcd, 2), (0xce, 4), (0xcf, 8)} && n < Limit(width)
    ensures Decode([marker] + ToBigEndian(n, width) + rest) == Ok(Int(n), 1 + width)
  {
    hide Limit, ToBigEndian, Decode;
    UnsignedHolds(marker, n, width, rest);
  }

  lemma SignedFormats(marker: byte, width: nat, n: int, rest: Bytes)
    requires (marker, width) in {(0xd0, 1), (0xd1, 2), (0xd2, 4), (0xd3, 8)}
    requires -(Limit(width) as int) <= 2 * n < Limit(width)
    ensures Decode([marker] + ToBigEndian(if n < 0 then Limit(width) + n else n, width) + rest) == Ok(Int(n), 1 + width)
  {
    hide Limit, ToBigEndian, Decode;
    if n < 0 {
      SignedHolds(marker, n, width, rest);
    } else {
      FieldHolds(marker, SIntK, n, width, rest);
    }
  }

  lemma FloatFormats(marker: byte, raw: Bytes, rest: Bytes)
    requires (marker, |raw|) in {(0xca, 4), (0xcb, 8)}
    ensures Decode([marker] + raw + rest) == Ok(Float(raw), 1 + |raw|)
  {
    FloatRoundTrip(raw, rest);
    hide Decode;
    assert [marker] + raw + rest == Encode(Float(raw)) + rest;
  }

  predicate SizedHead(head: Bytes, marker: byte, width: nat, size: nat) {
    size < Limit(width) && head == [marker] + ToBigEndian(size, width)
  }

  // The heads of the specification: the size in the marker, or after it.
  predicate IsHead(head: Bytes, kind: Kind, size: nat) {
    match kind
    case StrK =>
      (size < 32 && head == [0xa0 + size])
      || SizedHead(head, 0xd9, 1, size) || SizedHead(head, 0xda, 2, size) || SizedHead(head, 0xdb, 4, size)
    case BinK => SizedHead(head, 0xc4, 1, size) || SizedHead(head, 0xc5, 2, size) || SizedHead(head, 0xc6, 4, size)
    case ExtK =>
      (head, size) in {([0xd4], 1), ([0xd5], 2), ([0xd6], 4), ([0xd7], 8), ([0xd8], 16)}
      || SizedHead(head, 0xc7, 1, size) || SizedHead(head, 0xc8, 2, size) || SizedHead(head, 0xc9, 4, size)
    case ArrayK =>
      (size < 16 && head == [0x90 + size]) || SizedHead(head, 0xdc, 2, size) || SizedHead(head, 0xdd, 4, size)
    case MapK =>
      (size < 16 && head == [0x80 + size]) || SizedHead(head, 0xde, 2, size) || SizedHead(head, 0xdf, 4, size)
    case _ => false
  }

  lemma SizedMarkers()
    ensures ShapeOf(0xd9) == Sized(StrK, 1) && ShapeOf(0xda) == Sized(StrK, 2) && ShapeOf(0xdb) == Sized(StrK, 4)
    ensures ShapeOf(0xc4) == Sized(BinK, 1) && ShapeOf(0xc5) == Sized(BinK, 2) && ShapeOf(0xc6) == Sized(BinK, 4)
    ensures ShapeOf(0xc7) == Sized(ExtK, 1) && ShapeOf(0xc8) == Sized(ExtK, 2) && ShapeOf(0xc9) == Sized(ExtK, 4)
    ensures ShapeOf(0xdc) == Sized(ArrayK, 2) && ShapeOf(0xdd) == Sized(ArrayK, 4)
    ensures ShapeOf(0xde) == Sized(MapK, 2) && ShapeOf(0xdf) == Sized(MapK, 4)
  {
  }

  lemma DirectMarkers(size: nat)
    ensures size < 32 ==> ShapeOf(0xa0 + size) == Direct(StrK, size)
    ensures size < 16 ==> ShapeOf(0x90 + size) == Direct(ArrayK, size) && ShapeOf(0x80 + size) == Direct(MapK, size)
    ensures ShapeOf(0xd4) == Direct(ExtK, 1) && ShapeOf(0xd5) == Direct(ExtK, 2) && ShapeOf(0xd6) == Direct(ExtK, 4)
    ensures ShapeOf(0xd7) == Direct(ExtK, 8) && ShapeOf(0xd8) == Direct(ExtK, 16)
  {
  }

  // The first byte announces the kind, and the size or its width.
  predicate Announces(head: Bytes, kind: Kind, size: nat) {
    && head != []
    && (|head| == 1 ==> ShapeOf(head[0]) == Direct(kind, size))
    && (|head| > 1 ==>
          && size < Limit(|head| - 1) && head == Field(head[0], size, |head| - 1)
          && ShapeOf(head[0]) == Sized(kind, |head| - 1))
  }

  lemma SizedAnnounces(head: Bytes, marker: byte, width: nat, kind: Kind, size: nat)
    requires width > 0 && ShapeOf(marker) == Sized(kind, width)
    ensures SizedHead(head, marker, width, size) ==> Announces(head, kind, size)
  {
    hide Limit, ToBigEndian, ShapeOf;
  }

  lemma DirectAnnounces(marker: byte, kind: Kind, size: nat)
    requires ShapeOf(marker) == Direct(kind, size)
    ensures Announces([marker], kind, size)
  {
    hide ShapeOf;
  }

  lemma HeadAnnouncesShape(head: Bytes, kind: Kind, size: nat)
    requires IsHead(head, kind, size)
    ensures Announces(head, kind, size)
  {
    SizedMarkers();
    DirectMarkers(size);
    hide SizedHead, Announces, ShapeOf;
    match kind
    case StrK =>
      if size < 32 { DirectAnnounces(0xa0 + size, kind, size); }
      SizedAnnounces(head, 0xd9, 1, kind, size);
      SizedAnnounces(head, 0xda, 2, kind, size);
      SizedAnnounces(head, 0xdb, 4, kind, size);
    case BinK =>
      SizedAnnounces(head, 0xc4, 1, kind, size);
      SizedAnnounces(head, 0xc5, 2, kind, size);
      SizedAnnounces(head, 0xc6, 4, kind, size);
    case ExtK =>
      if |head| == 1 && ShapeOf(head[0]) == Direct(ExtK, size) { DirectAnnounces(head[0], kind, size); }
      SizedAnnounces(head, 0xc7, 1, kind, size);
      SizedAnnounces(head, 0xc8, 2, kind, size);
      SizedAnnounces(head, 0xc9, 4, kind, size);
    case ArrayK =>
      if size < 16 { DirectAnnounces(0x90 + size, kind, size); }
      SizedAnnounces(head, 0xdc, 2, kind, size);
      SizedAnnounces(head, 0xdd, 4, kind, size);
    case MapK =>
      if size < 16 { DirectAnnounces(0x80 + size, kind, size); }
      SizedAnnounces(head, 0xde, 2, kind, size);
      SizedAnnounces(head, 0xdf, 4, kind, size);
    case _ =>
  }

  lemma HeadFormats(head: Bytes, kind: Kind, size: nat, rest: Bytes)
    requires IsHead(head, kind, size)
    ensures head != [] && Decode(head + rest) == DecodeBody(kind, size, head + rest, |head|)
  {
    HeadAnnouncesShape(head, kind, size);
    hide ShapeOf, Limit, Field, Decode, DecodeBody, IsHead;
    if |head| == 1 {
      assert head == [head[0]];
      ByteAnnounces(head[0], kind, size, rest);
    } else {
      FieldAnnounces(head[0], kind, size, |head| - 1, rest);
    }
  }

  // Strings, binary data and extensions.
  lemma PayloadFormats(head: Bytes, body: Bytes, rest: Bytes)
    ensures IsHead(head, StrK, |body|) ==> Decode(head + body + rest) == Ok(Str(body), |head| + |body|)
    ensures IsHead(head, BinK, |body|) ==> Decode(head + body + rest) == Ok(Bin(body), |head| + |body|)
    ensures body != [] && IsHead(head, ExtK, |body| - 1) ==>
      Decode(head + body + rest) == Ok(Ext(body[0], body[1..]), |head| + |body|)
  {
    hide IsHead, Decode, DecodeBody;
    Payload(head, body, rest);
    if IsHead(head, StrK, |body|) {
      HeadFormats(head, StrK, |body|, body + rest);
      BodyHolds(StrK, |body|, head + (body + rest), |head|);
    }
    if IsHead(head, BinK, |body|) {
      HeadFormats(head, BinK, |body|, body + rest);
      BodyHolds(BinK, |body|, head + (body + rest), |head|);
    }
    if body != [] && IsHead(head, ExtK, |body| - 1) {
      HeadFormats(head, ExtK, |body| - 1, body + rest);
      BodyHolds(ExtK, |body| - 1, head + (body + rest), |head|);
    }
  }

  // The values of a container follow one another.
  lemma ItemFormats(first: Bytes, value: Value, more: Bytes, values: seq<Value>)
    requires Decode(first) == Ok(value, |first|) && DecodeMany(more, |values|) == OkMany(values, |more|)
    ensures DecodeMany([], 0) == OkMany([], 0)
    ensures DecodeMany(first + more, 1 + |values|) == OkMany([value] + values, |first + more|)
  {
    DecodeIsStable(first, more);
    hide Decode;
    assert (first + more)[|first|..] == more;
  }

  // Arrays, and maps with twice as many values.
  lemma ContainerFormats(head: Bytes, size: nat, items: Bytes, values: seq<Value>, rest: Bytes)
    requires DecodeMany(items, |values|) == OkMany(values, |items|)
    ensures IsHead(head, ArrayK, size) && |values| == size ==>
      Decode(head + items + rest) == Ok(Array(values), |head| + |items|)
    ensures IsHead(head, MapK, size) && |values| == 2 * size ==>
      Decode(head + items + rest) == Ok(Map(values), |head| + |items|)
  {
    hide IsHead, Decode, DecodeMany;
    Payload(head, items, rest);
    ManyIsStable(items, |values|, rest);
    if IsHead(head, ArrayK, size) { HeadFormats(head, ArrayK, size, items + rest); }
    if IsHead(head, MapK, size) { HeadFormats(head, MapK, size, items + rest); }
  }

  // ---------------------------------------------------------------------------------------------
  // Bad data

  // Nothing is bad without the one reserved byte.
  lemma {:induction false} NeverBad(s: Bytes)
    requires 0xc1 !in s
    ensures !Decode(s).Bad?
    decreases |s|, 0
  {
    if s == [] {
    } else {
      assert s[0] in s;
      match ShapeOf(s[0])
      case Direct(kind, size) => BodyNeverBad(kind, size, s, 1);
      case Sized(kind, width) =>
        if |s| >= 1 + width { BodyNeverBad(kind, BigEndian(s[1..1 + width]), s, 1 + width); }
      case _ =>
    }
  }

  lemma {:induction false} BodyNeverBad(kind: Kind, size: nat, s: Bytes, at: nat)
    requires 1 <= at <= |s| && 0xc1 !in s
    ensures !DecodeBody(kind, size, s, at).Bad?
    decreases |s| - at, 2
  {
    if kind == ArrayK || kind == MapK {
      assert forall b :: b in s[at..] ==> b in s;
      ManyNeverBad(s[at..], if kind == MapK then 2 * size else size);
    }
  }

  lemma {:induction false} ManyNeverBad(s: Bytes, count: nat)
    requires 0xc1 !in s
    ensures !DecodeMany(s, count).BadMany?
    decreases |s|, 1
  {
    if count > 0 {
      NeverBad(s);
      if Decode(s).Ok? {
        assert forall b :: b in s[Decode(s).len..] ==> b in s;
        ManyNeverBad(s[Decode(s).len..], count - 1);
      }
    }
  }

  // A container is bad when a value of it is, all before it being whole, and whatever follows.
  lemma BadItem(head: Bytes, kind: Kind, size: nat, items: Bytes, values: seq<Value>, bad: Bytes)
    requires (kind == ArrayK || kind == MapK) && IsHead(head, kind, size)
    requires DecodeMany(items, |values|) == OkMany(values, |items|)
    requires |values| < (if kind == MapK then 2 * size else size) && Decode(bad).Bad?
    ensures Decode(head + items + bad).Bad?
  {
    var count := if kind == MapK then 2 * size else size;
    hide IsHead, Decode, DecodeMany;
    HeadFormats(head, kind, size, items + bad);
    assert head + items + bad == head + (items + bad) && (head + (items + bad))[|head|..] == items + bad;
    BadAfter(items, values, count, bad);
  }

  lemma {:induction false} BadAfter(items: Bytes, values: seq<Value>, count: nat, bad: Bytes)
    requires DecodeMany(items, |values|) == OkMany(values, |items|) && |values| < count && Decode(bad).Bad?
    ensures DecodeMany(items + bad, count).BadMany?
    decreases |values|
  {
    if values == [] {
      assert items + bad == bad;
    } else {
      var len := Decode(items).len;
      DecodeIsStable(items, bad);
      hide Decode;
      assert (items + bad)[len..] == items[len..] + bad;
      assert values[1..] == DecodeMany(items[len..], |values| - 1).values;
      BadAfter(items[len..], values[1..], count - 1, bad);
    }
  }

  // ---------------------------------------------------------------------------------------------
  // Encodings are the shortest there are

  lemma LimitGrows(a: nat, b: nat)
    requires a <= b
    ensures Limit(a) <= Limit(b)
    decreases b
  {
    if a < b { LimitGrows(a, b - 1); }
  }

  lemma WidthOfInt(n: int, width: nat)
    requires width in {1, 2, 4, 8} && (0 <= n < Limit(width) || -(Limit(width) as int) <= 2 * n < 0)
    ensures WellFormed(Int(n)) && |EncodeInt(n)| <= 1 + width
  {
    Limits();
    hide Limit, ToBigEndian;
  }

  lemma HeadLength(kind: Kind, size: nat, width: nat)
    requires kind in {StrK, BinK, ExtK, ArrayK, MapK} && width in {1, 2, 4} && size < Limit(width)
    requires (kind == ArrayK || kind == MapK) ==> width != 1
    ensures size < MAX32 && |Head(kind, size)| <= 1 + width
  {
    Limits();
    hide Limit, ToBigEndian;
  }

  lemma DirectHead(b: byte)
    ensures var shape := ShapeOf(b);
      shape.Direct? && shape.kind in {StrK, ExtK, ArrayK, MapK} ==>
        shape.size < MAX32 && |Head(shape.kind, shape.size)| == 1
  {
    Limits();
    hide Limit, ToBigEndian;
  }

  lemma ShapeFacts(b: byte)
    ensures var shape := ShapeOf(b);
      && (shape.Direct? ==>
            if shape.kind == UIntK || shape.kind == SIntK then shape.size in {1, 2, 4, 8}
            else if shape.kind == FloatK then shape.size in {4, 8}
            else shape.kind in {StrK, ExtK, ArrayK, MapK})
      && (shape.Sized? ==>
            && shape.kind in {StrK, BinK, ExtK, ArrayK, MapK} && shape.width in {1, 2, 4}
            && (shape.kind == ArrayK || shape.kind == MapK ==> shape.width != 1))
  {
  }

  // A value decoded from bytes is one that can be encoded, and in no more bytes than it took.
  ghost predicate Fits(r: Decoded) {
    r.Ok? ==> WellFormed(r.value) && |Encode(r.value)| <= r.len
  }

  lemma WholeFits(b: byte)
    requires ShapeOf(b).Whole?
    ensures Fits(Ok(ShapeOf(b).value, 1))
  {
    hide Limit, ToBigEndian;
  }

  lemma NumberFits(kind: Kind, size: nat, s: Bytes)
    requires s != [] && ((kind in {UIntK, SIntK} && size in {1, 2, 4, 8}) || (kind == FloatK && size in {4, 8}))
    ensures Fits(DecodeBody(kind, size, s, 1))
  {
    if |s| >= 1 + size {
      var body := s[1..1 + size];
      var value := Interpret(kind, body);
      assert DecodeBody(kind, size, s, 1) == Ok(value, 1 + size);
      hide DecodeBody, Limit, EncodeInt;
      if value.Int? { WidthOfInt(value.n, size); }
    }
  }

  lemma PayloadFits(kind: Kind, size: nat, s: Bytes, at: nat)
    requires kind in {StrK, BinK, ExtK} && size < MAX32 && |Head(kind, size)| <= at && 1 <= at <= |s|
    ensures Fits(DecodeBody(kind, size, s, at))
  {
    hide Head;
  }

  lemma ContainerFits(kind: Kind, size: nat, s: Bytes, at: nat)
    requires kind in {ArrayK, MapK} && size < MAX32 && |Head(kind, size)| <= at && 1 <= at <= |s|
    requires ManyFits(DecodeMany(s[at..], if kind == MapK then 2 * size else size))
    requires var r := DecodeMany(s[at..], if kind == MapK then 2 * size else size);
      r.OkMany? ==> |r.values| == (if kind == MapK then 2 * size else size)
    ensures Fits(DecodeBody(kind, size, s, at))
  {
    hide Head, DecodeMany, EncodeMany;
  }

  ghost predicate ManyFits(r: DecodedMany) {
    r.OkMany? ==> (forall i :: 0 <= i < |r.values| ==> WellFormed(r.values[i])) && |EncodeMany(r.values)| <= r.len
  }

  lemma {:induction false} ManyCount(s: Bytes, count: nat)
    ensures DecodeMany(s, count).OkMany? ==> |DecodeMany(s, count).values| == count
    decreases count
  {
    if count > 0 {
      hide Decode;
      if Decode(s).Ok? { ManyCount(s[Decode(s).len..], count - 1); }
    }
  }

  // No encoding of the specification is shorter than the one chosen here.
  lemma {:induction false} EncodingIsShortest(s: Bytes)
    ensures Decode(s).Ok? ==> WellFormed(Decode(s).value) && |Encode(Decode(s).value)| <= Decode(s).len
    decreases |s|, 0
  {
    if s == [] {
    } else {
      ShapeFacts(s[0]);
      DirectHead(s[0]);
      hide Head, DecodeBody, WellFormed, Encode, Limit;
      match ShapeOf(s[0])
      case Whole(_) => WholeFits(s[0]);
      case Reserved =>
      case Direct(kind, size) =>
        if kind in {UIntK, SIntK, FloatK} { NumberFits(kind, size, s); } else { BodyFits(kind, size, s, 1); }
      case Sized(kind, width) =>
        if |s| >= 1 + width {
          HeadLength(kind, BigEndian(s[1..1 + width]), width);
          BodyFits(kind, BigEndian(s[1..1 + width]), s, 1 + width);
        }
    }
  }

  lemma {:induction false} BodyFits(kind: Kind, size: nat, s: Bytes, at: nat)
    requires kind in {StrK, BinK, ExtK, ArrayK, MapK} && size < MAX32 && |Head(kind, size)| <= at && 1 <= at <= |s|
    ensures Fits(DecodeBody(kind, size, s, at))
    decreases |s| - at, 2
  {
    hide Head, DecodeBody, DecodeMany, Fits;
    if kind == ArrayK || kind == MapK {
      var count := if kind == MapK then 2 * size else size;
      ManyShortest(s[at..], count);
      ManyCount(s[at..], count);
      ContainerFits(kind, size, s, at);
    } else {
      PayloadFits(kind, size, s, at);
    }
  }

  lemma {:induction false} ManyShortest(s: Bytes, count: nat)
    ensures ManyFits(DecodeMany(s, count))
    decreases |s|, 1
  {
    if count > 0 {
      EncodingIsShortest(s);
      hide Decode, Encode, WellFormed;
      if Decode(s).Ok? {
        var rest := DecodeMany(s[Decode(s).len..], count - 1);
        ManyShortest(s[Decode(s).len..], count - 1);
        if rest.OkMany? { ManyCons(Decode(s).value, rest.values); }
      }
    }
  }

  lemma ManyCons(first: Value, more: seq<Value>)
    requires WellFormed(first) && forall i :: 0 <= i < |more| ==> WellFormed(more[i])
    ensures forall i :: 0 <= i < |[first] + more| ==> WellFormed(([first] + more)[i])
    ensures EncodeMany([first] + more) == Encode(first) + EncodeMany(more)
  {
    hide Encode, WellFormed;
    assert ([first] + more)[1..] == more;
  }
}
