/**
 The v1 binary envelope: an encoder and a decoder that walk a flag-driven layout.

 Go strings and byte slices are both byte sequences here.
 */
module Wire {
  import opened Common

  newtype byte = x: int | 0 <= x < 256

  type Bytes = seq<byte>

  const VERSION: byte := 0x1

  const FLAG_ID: byte := 0x10
  const FLAG_RESPONSE_TO_ID: byte := 0x20
  const FLAG_ACK_ID: byte := 0x40
  const FLAG_ERROR: byte := 0x80

  const MAX_SHORT_FIELD := 255
  const MAX_ERROR_LEN := 65535

  datatype WireError = ErrFieldTooLong | ErrMalformed | ErrVersion

  datatype Frame = Frame(
    msgType: Bytes,
    controlCode: byte,
    id: Bytes,
    responseToId: Bytes,
    ackId: Bytes,
    error: Bytes,
    binary: Bytes)

  // ----- The layout, as the format document gives it -----

  /** Which optional fields a header byte announces. */
  datatype Flags = Flags(id: bool, responseToId: bool, ackId: bool, error: bool)

  function Bit(on: bool, mask: byte): int { if on then mask as int else 0 }

  /** The header byte: the bits are distinct, so or-ing them is adding them. */
  function Header(fl: Flags): byte {
    (VERSION as int + Bit(fl.id, FLAG_ID) + Bit(fl.responseToId, FLAG_RESPONSE_TO_ID)
      + Bit(fl.ackId, FLAG_ACK_ID) + Bit(fl.error, FLAG_ERROR)) as byte
  }

  /** The low nibble, `header & 0x0F`. */
  function VersionOf(header: byte): byte { header % 16 }

  /** Whether `header & mask` is set, for a mask of one bit. */
  predicate Has(header: byte, mask: byte)
    requires mask != 0
  {
    header / mask % 2 == 1
  }

  function FlagsOf(header: byte): Flags {
    Flags(Has(header, FLAG_ID), Has(header, FLAG_RESPONSE_TO_ID), Has(header, FLAG_ACK_ID), Has(header, FLAG_ERROR))
  }

  /** The arithmetic above is the code's bit arithmetic, header by header ... */
  lemma HeaderIsBitwiseOr(fl: Flags)
    ensures var or: bv8 := 0x01 | ((if fl.id then 0x10 else 0) | (if fl.responseToId then 0x20 else 0)
        | (if fl.ackId then 0x40 else 0) | (if fl.error then 0x80 else 0));
      or as int == Header(fl) as int
  {
  }

  /** ... and byte by byte. */
  lemma MasksAreBitwiseAnd(b: bv8)
    ensures var h := (b as int) as byte;
      && VersionOf(h) as int == (b & 0x0F) as int
      && FlagsOf(h) == Flags((b & 0xF0) & 0x10 != 0, (b & 0xF0) & 0x20 != 0, (b & 0xF0) & 0x40 != 0, (b & 0xF0) & 0x80 != 0)
  {
    assert b == (b >> 4) * 16 + (b & 0x0F);
  }

  /** The flags the encoder sets: exactly the non-empty optional fields. */
  function Needed(f: Frame): Flags {
    Flags(f.id != [], f.responseToId != [], f.ackId != [], f.error != [])
  }

  /** `fl` announces at least the fields that carry something. */
  predicate Covers(fl: Flags, f: Frame) {
    && (f.id != [] ==> fl.id)
    && (f.responseToId != [] ==> fl.responseToId)
    && (f.ackId != [] ==> fl.ackId)
    && (f.error != [] ==> fl.error)
  }

  /** Every field is within its limit on the wire. */
  predicate Fits(f: Frame) {
    && |f.msgType| <= MAX_SHORT_FIELD
    && |f.id| <= MAX_SHORT_FIELD
    && |f.responseToId| <= MAX_SHORT_FIELD
    && |f.ackId| <= MAX_SHORT_FIELD
    && |f.error| <= MAX_ERROR_LEN
  }

  /** The control code means something only in a frame without a message type. */
  function Canonical(f: Frame): Frame {
    if f.msgType == [] then f else f.(controlCode := 0)
  }

  function TypePart(f: Frame): Bytes
    requires Fits(f)
  {
    if f.msgType == [] then [0, f.controlCode] else [|f.msgType| as byte] + f.msgType
  }

  function ShortPart(present: bool, s: Bytes): Bytes
    requires |s| <= MAX_SHORT_FIELD
  {
    if present then [|s| as byte] + s else []
  }

  function ErrorPart(present: bool, s: Bytes): Bytes
    requires |s| <= MAX_ERROR_LEN
  {
    if present then [(|s| / 256) as byte, (|s| % 256) as byte] + s else []
  }

  // What follows each part of the layout.

  function AfterAck(fl: Flags, f: Frame): Bytes
    requires Fits(f)
  {
    ErrorPart(fl.error, f.error) + f.binary
  }

  function AfterResponse(fl: Flags, f: Frame): Bytes
    requires Fits(f)
  {
    ShortPart(fl.ackId, f.ackId) + AfterAck(fl, f)
  }

  function AfterId(fl: Flags, f: Frame): Bytes
    requires Fits(f)
  {
    ShortPart(fl.responseToId, f.responseToId) + AfterResponse(fl, f)
  }

  function AfterType(fl: Flags, f: Frame): Bytes
    requires Fits(f)
  {
    ShortPart(fl.id, f.id) + AfterId(fl, f)
  }

  /** The bytes of `f` under the header `fl`, which may announce fields that are empty. */
  function Layout(fl: Flags, f: Frame): Bytes
    requires Fits(f)
  {
    [Header(fl)] + (TypePart(f) + AfterType(fl, f))
  }

  // ----- The decoder, as a function of the bytes that remain -----

  /** A length byte and that many bytes, with what follows them. */
  function ReadShort(present: bool, rest: Bytes): Option<(Bytes, Bytes)> {
    if !present then Some(([], rest))
    else if |rest| == 0 then None
    else
      var n := rest[0] as int;
      if 1 + n > |rest| then None else Some((rest[1..1 + n], rest[1 + n..]))
  }

  function ReadError(present: bool, rest: Bytes): Option<(Bytes, Bytes)> {
    if !present then Some(([], rest))
    else if |rest| < 2 then None
    else
      var n := rest[0] as int * 256 + rest[1] as int;
      if 2 + n > |rest| then None else Some((rest[2..2 + n], rest[2 + n..]))
  }

  /** Message type, control code, and what follows them. */
  function ReadType(rest: Bytes): Option<(Bytes, byte, Bytes)> {
    if |rest| == 0 then None
    else
      var n := rest[0] as int;
      if n == 0 then
        if |rest| < 2 then None else Some(([], rest[1], rest[2..]))
      else if 1 + n > |rest| then None else Some((rest[1..1 + n], 0, rest[1 + n..]))
  }

  function DecodeFields(fl: Flags, rest: Bytes): Option<Frame> {
    var t := ReadType(rest);
    if t.None? then None else
    var i := ReadShort(fl.id, t.value.2);
    if i.None? then None else
    var r := ReadShort(fl.responseToId, i.value.1);
    if r.None? then None else
    var a := ReadShort(fl.ackId, r.value.1);
    if a.None? then None else
    var e := ReadError(fl.error, a.value.1);
    if e.None? then None else
    Some(Frame(t.value.0, t.value.1, i.value.0, r.value.0, a.value.0, e.value.0, e.value.1))
  }

  function DecodeFrame(data: Bytes): Result<Frame, WireError> {
    if |data| < 2 then Failure(ErrMalformed)
    else if VersionOf(data[0]) != VERSION then Failure(ErrVersion)
    else
      var f := DecodeFields(FlagsOf(data[0]), data[1..]);
      if f.None? then Failure(ErrMalformed) else Success(f.value)
  }

  // ----- The code -----

  lemma Suffix(data: Bytes, i: nat, j: nat, k: nat)
    requires i <= j <= k <= |data|
    ensures data[i..][j - i..k - i] == data[j..k] && data[i..][k - i..] == data[k..]
  {
  }

  /**
   Serialises `f`. `capacity` is the size the code computes up front for its one
   allocation; the bytes appended afterwards fill it exactly.
   */
  method Encode(f: Frame) returns (r: Result<Bytes, WireError>, capacity: nat)
    ensures r.Success? <==> Fits(f)
    ensures r.Failure? ==> r.error == ErrFieldTooLong
    ensures r.Success? ==> r.value == Layout(Needed(f), f) && |r.value| == capacity
  {
    capacity := 0;
    if |f.msgType| > MAX_SHORT_FIELD || |f.id| > MAX_SHORT_FIELD || |f.responseToId| > MAX_SHORT_FIELD
      || |f.ackId| > MAX_SHORT_FIELD {
      return Failure(ErrFieldTooLong), capacity;
    }
    if |f.error| > MAX_ERROR_LEN {
      return Failure(ErrFieldTooLong), capacity;
    }

    var flags: byte := 0;
    if f.id != [] { flags := flags + FLAG_ID; }
    if f.responseToId != [] { flags := flags + FLAG_RESPONSE_TO_ID; }
    if f.ackId != [] { flags := flags + FLAG_ACK_ID; }
    if f.error != [] { flags := flags + FLAG_ERROR; }

    capacity := SizeOf(f);

    assert VERSION + flags == Header(Needed(f));
    var buf := [VERSION + flags];
    buf := AppendType(buf, f);
    buf := AppendShort(buf, f.id, AfterId(Needed(f), f));
    buf := AppendShort(buf, f.responseToId, AfterResponse(Needed(f), f));
    buf := AppendShort(buf, f.ackId, AfterAck(Needed(f), f));
    buf := AppendError(buf, f.error, f.binary);
    buf := buf + f.binary;
    return Success(buf), capacity;
  }

  /** The size computed up front, exactly that of the layout. */
  method SizeOf(f: Frame) returns (size: nat)
    requires Fits(f)
    ensures size == |Layout(Needed(f), f)|
  {
    size := 2 + |f.msgType| + |f.binary|;
    if f.msgType == [] { size := 3 + |f.binary|; }
    if f.id != [] { size := size + 1 + |f.id|; }
    if f.responseToId != [] { size := size + 1 + |f.responseToId|; }
    if f.ackId != [] { size := size + 1 + |f.ackId|; }
    if f.error != [] { size := size + 2 + |f.error|; }
  }

  method AppendType(buf: Bytes, f: Frame) returns (r: Bytes)
    requires Fits(f)
    ensures r + AfterType(Needed(f), f) == buf + (TypePart(f) + AfterType(Needed(f), f))
    ensures |r| == |buf| + |TypePart(f)|
  {
    if f.msgType == [] {
      r := buf + [0, f.controlCode];
    } else {
      r := buf + [|f.msgType| as byte];
      r := r + f.msgType;
    }
    assert r == buf + TypePart(f);
  }

  /** Appends an optional field with a two-byte big-endian length. */
  method AppendError(buf: Bytes, s: Bytes, ghost after: Bytes) returns (r: Bytes)
    requires |s| <= MAX_ERROR_LEN
    ensures r + after == buf + (ErrorPart(s != [], s) + after)
    ensures |r| == |buf| + |ErrorPart(s != [], s)|
  {
    r := buf;
    if s != [] {
      r := r + [(|s| / 256) as byte, (|s| % 256) as byte];
      r := r + s;
    }
    assert r == buf + ErrorPart(s != [], s);
  }

  /** Appends an optional one-byte-length field; an empty one is left out. */
  method AppendShort(buf: Bytes, s: Bytes, ghost after: Bytes) returns (r: Bytes)
    requires |s| <= MAX_SHORT_FIELD
    ensures r + after == buf + (ShortPart(s != [], s) + after)
    ensures |r| == |buf| + |ShortPart(s != [], s)|
  {
    r := buf;
    if s != [] {
      r := r + [|s| as byte];
      r := r + s;
    }
    assert r == buf + ShortPart(s != [], s);
  }

  /** Parses a frame with a cursor; every index and slice below is proved in bounds. */
  method Decode(data: Bytes) returns (r: Result<Frame, WireError>)
    ensures r == DecodeFrame(data)
  {
    if |data| < 2 {
      return Failure(ErrMalformed);
    }
    if VersionOf(data[0]) != VERSION {
      return Failure(ErrVersion);
    }
    var f := DecodeFieldsAt(data, 1, FlagsOf(data[0]));
    return if f.None? then Failure(ErrMalformed) else Success(f.value);
  }

  method DecodeFieldsAt(data: Bytes, start: nat, fl: Flags) returns (r: Option<Frame>)
    requires start < |data|
    ensures r == DecodeFields(fl, data[start..])
  {
    var msgType, code, pos, ok := ReadTypeAt(data, start);
    if !ok { return None; }
    var id, responseToId, ackId, error;
    id, pos, ok := ReadShortAt(data, pos, fl.id);
    if !ok { return None; }
    responseToId, pos, ok := ReadShortAt(data, pos, fl.responseToId);
    if !ok { return None; }
    ackId, pos, ok := ReadShortAt(data, pos, fl.ackId);
    if !ok { return None; }
    error, pos, ok := ReadErrorAt(data, pos, fl.error);
    if !ok { return None; }
    return Some(Frame(msgType, code, id, responseToId, ackId, error, data[pos..]));
  }

  method ReadTypeAt(data: Bytes, pos: nat) returns (s: Bytes, code: byte, next: nat, ok: bool)
    requires pos < |data|
    ensures ok <==> ReadType(data[pos..]).Some?
    ensures next <= |data|
    ensures ok ==> ReadType(data[pos..]) == Some((s, code, data[next..]))
  {
    s, code, next, ok := [], 0, pos, true;
    var n := data[pos] as int;
    next := pos + 1;
    if n == 0 {
      if next >= |data| {
        return [], 0, pos, false;
      }
      code := data[next];
      next := next + 1;
    } else {
      if next + n > |data| {
        return [], 0, pos, false;
      }
      s := data[next..next + n];
      next := next + n;
    }
    Suffix(data, pos, pos + 1, next);
  }

  method ReadShortAt(data: Bytes, pos: nat, present: bool) returns (s: Bytes, next: nat, ok: bool)
    requires pos <= |data|
    ensures ok <==> ReadShort(present, data[pos..]).Some?
    ensures next <= |data|
    ensures ok ==> ReadShort(present, data[pos..]) == Some((s, data[next..]))
  {
    s, next, ok := [], pos, true;
    if present {
      if pos >= |data| {
        return [], pos, false;
      }
      var n := data[pos] as int;
      next := pos + 1;
      if next + n > |data| {
        return [], pos, false;
      }
      s := data[next..next + n];
      next := next + n;
      Suffix(data, pos, pos + 1, next);
    }
  }

  method ReadErrorAt(data: Bytes, pos: nat, present: bool) returns (s: Bytes, next: nat, ok: bool)
    requires pos <= |data|
    ensures ok <==> ReadError(present, data[pos..]).Some?
    ensures next <= |data|
    ensures ok ==> ReadError(present, data[pos..]) == Some((s, data[next..]))
  {
    s, next, ok := [], pos, true;
    if present {
      if pos + 2 > |data| {
        return [], pos, false;
      }
      var n := data[pos] as int * 256 + data[pos + 1] as int;
      next := pos + 2;
      if next + n > |data| {
        return [], pos, false;
      }
      s := data[next..next + n];
      next := next + n;
      Suffix(data, pos, pos + 2, next);
    }
  }

  // ----- Encoding and decoding undo each other -----

  lemma HeaderRoundTrip(fl: Flags)
    ensures VersionOf(Header(fl)) == VERSION && FlagsOf(Header(fl)) == fl
  {
  }

  lemma HeaderOfFlags(h: byte)
    requires VersionOf(h) == VERSION
    ensures Header(FlagsOf(h)) == h
  {
  }

  lemma ReadTypePart(f: Frame, rest: Bytes)
    requires Fits(f)
    ensures ReadType(TypePart(f) + rest) == Some((f.msgType, Canonical(f).controlCode, rest))
  {
    var all := TypePart(f) + rest;
    if f.msgType != [] {
      assert all[1..1 + |f.msgType|] == f.msgType;
      assert all[1 + |f.msgType|..] == rest;
    }
  }

  lemma ReadShortPart(present: bool, s: Bytes, rest: Bytes)
    requires |s| <= MAX_SHORT_FIELD && (s != [] ==> present)
    ensures ReadShort(present, ShortPart(present, s) + rest) == Some((s, rest))
  {
    var all := ShortPart(present, s) + rest;
    if present {
      assert all[1..1 + |s|] == s;
      assert all[1 + |s|..] == rest;
    } else {
      assert all == rest;
    }
  }

  lemma ReadErrorPart(present: bool, s: Bytes, rest: Bytes)
    requires |s| <= MAX_ERROR_LEN && (s != [] ==> present)
    ensures ReadError(present, ErrorPart(present, s) + rest) == Some((s, rest))
  {
    var all := ErrorPart(present, s) + rest;
    if present {
      assert all[2..2 + |s|] == s;
      assert all[2 + |s|..] == rest;
    } else {
      assert all == rest;
    }
  }

  /**
   Every layout of a frame decodes to that frame, also one whose header announces empty
   fields, so the decoder does not insist on the encoder's form.
   */
  lemma DecodesLayout(fl: Flags, f: Frame)
    requires Fits(f) && Covers(fl, f)
    ensures DecodeFrame(Layout(fl, f)) == Success(Canonical(f))
  {
    HeaderRoundTrip(fl);
    DecodesFields(fl, f);
    assert Layout(fl, f)[1..] == TypePart(f) + AfterType(fl, f);
  }

  lemma DecodesFields(fl: Flags, f: Frame)
    requires Fits(f) && Covers(fl, f)
    ensures DecodeFields(fl, TypePart(f) + AfterType(fl, f)) == Some(Canonical(f))
  {
    ReadTypePart(f, AfterType(fl, f));
    ReadShortPart(fl.id, f.id, AfterId(fl, f));
    ReadShortPart(fl.responseToId, f.responseToId, AfterResponse(fl, f));
    ReadShortPart(fl.ackId, f.ackId, AfterAck(fl, f));
    ReadErrorPart(fl.error, f.error, f.binary);
  }

  /** Round trip: what the encoder writes decodes to the frame it was given. */
  lemma RoundTrip(f: Frame)
    requires Fits(f)
    ensures DecodeFrame(Layout(Needed(f), f)) == Success(Canonical(f))
  {
    DecodesLayout(Needed(f), f);
  }

  /** The length of an error goes first, high byte before low byte. */
  lemma ErrorLengthIsBigEndian(s: Bytes, hi: byte, lo: byte)
    requires |s| == 256 * hi as int + lo as int
    ensures ErrorPart(true, s) == [hi, lo] + s
  {
  }

  /** Frames of the format's published vectors, byte for byte: control frames, ... */
  lemma ControlVectors()
    ensures var f := Frame([], 0xCA, [], [], [], [], []); Layout(Needed(f), f) == [0x01, 0x00, 0xCA]
    ensures var f := Frame([], 0xCB, [], [], [], [], [0x61, 0x62]); Layout(Needed(f), f) == [0x01, 0x00, 0xCB, 0x61, 0x62]
  {
  }

  /** ... and all optional fields in their order. */
  lemma OptionalFieldsVector()
    ensures var f := Frame([0x74], 0, [0x69], [0x72], [0x61], [0x65], [0xFF]);
      Layout(Needed(f), f) == [0xF1, 0x01, 0x74, 0x01, 0x69, 0x01, 0x72, 0x01, 0x61, 0x00, 0x01, 0x65, 0xFF]
  {
    var f := Frame([0x74], 0, [0x69], [0x72], [0x61], [0x65], [0xFF]);
    assert AfterAck(Needed(f), f) == [0x00, 0x01, 0x65, 0xFF];
    assert AfterResponse(Needed(f), f) == [0x01, 0x61, 0x00, 0x01, 0x65, 0xFF];
    assert AfterId(Needed(f), f) == [0x01, 0x72, 0x01, 0x61, 0x00, 0x01, 0x65, 0xFF];
  }

  lemma ShortPartBack(present: bool, rest: Bytes)
    requires ReadShort(present, rest).Some?
    ensures var (s, tail) := ReadShort(present, rest).value;
      |s| <= MAX_SHORT_FIELD && (s != [] ==> present) && rest == ShortPart(present, s) + tail
  {
  }

  lemma ErrorPartBack(present: bool, rest: Bytes)
    requires ReadError(present, rest).Some?
    ensures var (s, tail) := ReadError(present, rest).value;
      |s| <= MAX_ERROR_LEN && (s != [] ==> present) && rest == ErrorPart(present, s) + tail
  {
    if present {
      var n := rest[0] as int * 256 + rest[1] as int;
      assert rest == [rest[0], rest[1]] + rest[2..2 + n] + rest[2 + n..];
    }
  }

  lemma TypePartBack(rest: Bytes, f: Frame)
    requires ReadType(rest).Some? && Fits(f.(msgType := []))
    requires f.msgType == ReadType(rest).value.0 && f.controlCode == ReadType(rest).value.1
    ensures Fits(f) && Canonical(f) == f && rest == TypePart(f) + ReadType(rest).value.2
  {
    if rest[0] as int == 0 {
      assert rest == [0, rest[1]] + rest[2..];
    }
  }

  /**
   The decoder accepts nothing but layouts: accepted bytes are the layout of the frame
   they decode to, under their own header.
   */
  lemma AcceptsOnlyLayouts(data: Bytes)
    requires DecodeFrame(data).Success?
    ensures var f := DecodeFrame(data).value;
      && Fits(f) && Canonical(f) == f && Covers(FlagsOf(data[0]), f)
      && data == Layout(FlagsOf(data[0]), f)
  {
    var f := DecodeFrame(data).value;
    var fl := FlagsOf(data[0]);
    HeaderOfFlags(data[0]);
    var p2 := ReadType(data[1..]).value.2;
    var p3 := ReadShort(fl.id, p2).value.1;
    var p4 := ReadShort(fl.responseToId, p3).value.1;
    var p5 := ReadShort(fl.ackId, p4).value.1;
    ShortPartBack(fl.id, p2);
    ShortPartBack(fl.responseToId, p3);
    ShortPartBack(fl.ackId, p4);
    ErrorPartBack(fl.error, p5);
    TypePartBack(data[1..], f);
    assert data == [data[0]] + data[1..];
  }

  /**
   Normal form: an accepted frame re-encodes without error, its encoding decodes to the
   same frame and is no longer than the original, and it is the original exactly when no
   announced field is empty.
   */
  lemma NormalForm(data: Bytes)
    requires DecodeFrame(data).Success?
    ensures var f := DecodeFrame(data).value;
      && Fits(f)
      && DecodeFrame(Layout(Needed(f), f)) == Success(f)
      && |Layout(Needed(f), f)| <= |data|
      && (Layout(Needed(f), f) == data <==> FlagsOf(data[0]) == Needed(f))
  {
    var f := DecodeFrame(data).value;
    AcceptsOnlyLayouts(data);
    RoundTrip(f);
    HeaderRoundTrip(Needed(f));
    assert Layout(Needed(f), f)[0] == Header(Needed(f));
  }

  /** Bytes added at the end of an accepted frame only extend its binary part. */
  lemma TrailingBytesAreBinary(data: Bytes, more: Bytes)
    requires DecodeFrame(data).Success?
    ensures var f := DecodeFrame(data).value;
      DecodeFrame(data + more) == Success(f.(binary := f.binary + more))
  {
    var f := DecodeFrame(data).value;
    var fl := FlagsOf(data[0]);
    var g := f.(binary := f.binary + more);
    AcceptsOnlyLayouts(data);
    LayoutGrows(fl, f, more);
    DecodesLayout(fl, g);
  }

  lemma LayoutGrows(fl: Flags, f: Frame, more: Bytes)
    requires Fits(f)
    ensures Layout(fl, f.(binary := f.binary + more)) == Layout(fl, f) + more
  {
    Assoc(ErrorPart(fl.error, f.error), f.binary, more);
    Assoc(ShortPart(fl.ackId, f.ackId), AfterAck(fl, f), more);
    Assoc(ShortPart(fl.responseToId, f.responseToId), AfterResponse(fl, f), more);
    Assoc(ShortPart(fl.id, f.id), AfterId(fl, f), more);
    Assoc(TypePart(f), AfterType(fl, f), more);
    Assoc([Header(fl)], TypePart(f) + AfterType(fl, f), more);
  }

  /** Cutting an accepted frame anywhere before its binary part is reported as malformed. */
  lemma TruncationIsMalformed(data: Bytes, n: nat)
    requires DecodeFrame(data).Success? && n < |data| - |DecodeFrame(data).value.binary|
    ensures DecodeFrame(data[..n]) == Failure(ErrMalformed)
  {
    var cut := data[..n];
    var rest := data[n..];
    assert cut + rest == data;
    if DecodeFrame(cut).Success? {
      TrailingBytesAreBinary(cut, rest);
    }
  }
}
