/** The header of a crypt15 backup: base-128 varints, protobuf fields and the initialization vector. */
module Crypt15 {
  import opened Prelude

  type Byte = b: int | 0 <= b < 256

  // ----- varints -----

  const MAX_VARINT_BYTES := 10

  function Pow2(n: nat): (p: nat)
    ensures p > 0
  {
    if n == 0 then 1 else 2 * Pow2(n - 1)
  }

  lemma Pow2Seven(n: nat)
    ensures Pow2(n + 7) == 128 * Pow2(n)
  {
    assert Pow2(n + 2) == 4 * Pow2(n);
    assert Pow2(n + 4) == 4 * Pow2(n + 2);
    assert Pow2(n + 6) == 4 * Pow2(n + 4);
  }

  /** The bytes of one varint, minimal or not: continuation bits on all but the last. */
  predicate IsVarint(bytes: seq<Byte>) {
    1 <= |bytes| <= MAX_VARINT_BYTES && bytes[|bytes| - 1] < 128 &&
    forall i | 0 <= i < |bytes| - 1 :: bytes[i] >= 128
  }

  /** Seven bits a byte, least significant group first. */
  function VarintValue(bytes: seq<Byte>): nat {
    if bytes == [] then 0 else bytes[0] % 128 + 128 * VarintValue(bytes[1..])
  }

  /** Reads a varint of which `used` bytes are already behind: its value and how many bytes it takes. */
  function ReadFrom(s: seq<Byte>, used: nat): (r: Option<(nat, nat)>)
    ensures r.Some? ==> 1 <= r.value.1 <= |s| && used + r.value.1 <= MAX_VARINT_BYTES
  {
    if s == [] || used >= MAX_VARINT_BYTES then None
    else if s[0] < 128 then Some((s[0], 1))
    else match ReadFrom(s[1..], used + 1)
      case None => None
      case Some((v, n)) => Some((s[0] % 128 + 128 * v, n + 1))
  }

  /** What is read is a varint, and its value. */
  lemma {:induction false} ReadIsVarint(s: seq<Byte>, used: nat)
    requires ReadFrom(s, used).Some?
    ensures var (v, n) := ReadFrom(s, used).value; IsVarint(s[..n]) && VarintValue(s[..n]) == v
  {
    var (v, n) := ReadFrom(s, used).value;
    if s[0] < 128 {
      assert s[..1] == [s[0]];
    } else {
      ReadIsVarint(s[1..], used + 1);
      assert s[..n] == [s[0]] + s[1..][..n - 1];
      assert s[..n][1..] == s[1..][..n - 1];
    }
  }

  /** Every varint is read, whatever follows. */
  lemma {:induction false} VarintIsRead(bytes: seq<Byte>, rest: seq<Byte>, used: nat)
    requires IsVarint(bytes) && used + |bytes| <= MAX_VARINT_BYTES
    ensures ReadFrom(bytes + rest, used) == Some((VarintValue(bytes), |bytes|))
  {
    assert (bytes + rest)[1..] == bytes[1..] + rest;
    if |bytes| > 1 {
      VarintIsRead(bytes[1..], rest, used + 1);
    } else {
      assert bytes[1..] == [];
    }
  }

  /** The shortest varint of a number. */
  function Encode(n: nat): (bytes: seq<Byte>)
    ensures bytes != [] && VarintValue(bytes) == n
  {
    if n < 128 then [n]
    else
      var tail := Encode(n / 128);
      assert ([128 + n % 128] + tail)[1..] == tail;
      [128 + n % 128] + tail
  }

  lemma {:induction false} EncodeBits(n: nat)
    ensures var b := Encode(n); b[|b| - 1] < 128 && forall i | 0 <= i < |b| - 1 :: b[i] >= 128
  {
    if n >= 128 {
      EncodeBits(n / 128);
      var tail := Encode(n / 128);
      assert forall i | 0 < i < |Encode(n)| :: Encode(n)[i] == tail[i - 1];
    }
  }

  lemma {:induction false} EncodeLength(n: nat, k: nat)
    requires k > 0
    ensures |Encode(n)| <= k <==> n < Pow2(7 * k)
    decreases n
  {
    hide Pow2;
    Pow2Seven(7 * (k - 1));
    if n >= 128 {
      if k == 1 {
        assert Pow2(0) == 1 by { NoShift(); }
      } else {
        EncodeLength(n / 128, k - 1);
      }
    }
  }

  lemma NoShift()
    ensures Pow2(0) == 1
  {
  }

  /** Reading inverts encoding for every number below 2^70, the ten-byte bound, and for no other. */
  lemma VarintRoundTrip(n: nat, rest: seq<Byte>)
    ensures ReadFrom(Encode(n) + rest, 0) == Some((n, |Encode(n)|)) <==> n < Pow2(70)
  {
    EncodeBits(n);
    EncodeLength(n, MAX_VARINT_BYTES);
    if n < Pow2(70) {
      VarintIsRead(Encode(n), rest, 0);
    }
  }

  datatype Varint = Varint(value: nat, offset: nat)

  /** The whole reading, when `value` has been read below `scale` in `used` bytes and `r` is still to come. */
  function Resume(value: nat, scale: nat, used: nat, r: Option<(nat, nat)>): Option<(nat, nat)> {
    match r case None => None case Some((v, n)) => Some((value + scale * v, used + n))
  }

  /** The reading loop. The bits read so far lie below `shift`, so adding the next seven bits is the
      same as or-ing them in. */
  method ReadVarint(input: seq<Byte>, initialOffset: nat) returns (r: Result<Varint>)
    requires initialOffset <= |input|
    ensures r == match ReadFrom(input[initialOffset..], 0)
                 case None => Err(ValidationError)
                 case Some((v, n)) => Ok(Varint(v, initialOffset + n))
  {
    hide Pow2, Resume, ReadFrom;
    var value: nat, shift: nat, offset := 0, 0, initialOffset;
    ghost var used := 0;
    ResumeStart(ReadFrom(input[initialOffset..], 0));
    while offset < |input| && shift <= 63
      invariant offset == initialOffset + used <= |input| && shift == 7 * used && used <= MAX_VARINT_BYTES
      invariant value < Pow2(shift)
      invariant ReadFrom(input[initialOffset..], 0) == Resume(value, Pow2(shift), used, ReadFrom(input[offset..], used))
      decreases |input| - offset
    {
      var byte := input[offset];
      assert input[offset..][1..] == input[offset + 1..];
      ReadStep(value, shift, used, input[offset..]);
      value := value + (byte % 128) * Pow2(shift);
      offset := offset + 1;
      if byte < 128 {
        return Ok(Varint(value, offset));
      }
      shift := shift + 7;
      used := used + 1;
    }
    ReadStops(value, shift, used, input[offset..]);
    return Err(ValidationError);
  }

  lemma ResumeStart(r: Option<(nat, nat)>)
    ensures r == Resume(0, Pow2(0), 0, r) && Pow2(0) == 1
  {
  }

  lemma ReadStops(value: nat, shift: nat, used: nat, s: seq<Byte>)
    requires s == [] || used >= MAX_VARINT_BYTES
    ensures Resume(value, Pow2(shift), used, ReadFrom(s, used)) == None
  {
  }

  /** One turn of the loop. */
  lemma ReadStep(value: nat, shift: nat, used: nat, s: seq<Byte>)
    requires s != [] && used < MAX_VARINT_BYTES && value < Pow2(shift)
    ensures var next := value + (s[0] % 128) * Pow2(shift);
            next < Pow2(shift + 7) &&
            Resume(value, Pow2(shift), used, ReadFrom(s, used)) ==
            if s[0] < 128 then Some((next, used + 1))
            else Resume(next, Pow2(shift + 7), used + 1, ReadFrom(s[1..], used + 1))
  {
    hide Pow2;
    var group, scale := s[0] % 128, Pow2(shift);
    Pow2Seven(shift);
    BelowNext(value, group, scale);
    if s[0] >= 128 && ReadFrom(s[1..], used + 1).Some? {
      AddGroup(value, group, scale, ReadFrom(s[1..], used + 1).value.0);
    }
  }

  lemma BelowNext(value: nat, group: nat, scale: nat)
    requires value < scale && group < 128
    ensures value + group * scale < 128 * scale && group * scale == scale * group
  {
    assert group * scale <= 127 * scale;
  }

  lemma AddGroup(value: nat, group: nat, scale: nat, v: nat)
    ensures value + scale * (group + 128 * v) == value + group * scale + (128 * scale) * v
  {
  }

  // ----- fields -----

  const MAX_SAFE_INTEGER := 9_007_199_254_740_991

  datatype Payload = Number(n: nat) | Bytes(data: seq<Byte>)

  /** A field as returned: wire types 0 and 2 only. */
  datatype Field = Field(number: nat, payload: Payload)

  function Push(f: Field, r: Result<seq<Field>>): Result<seq<Field>> {
    match r case Err(e) => Err(e) case Ok(fs) => Ok([f] + fs)
  }

  /** The fields of a message, in order. */
  function Fields(s: seq<Byte>): Result<seq<Field>>
    decreases |s|
  {
    if s == [] then Ok([])
    else match ReadFrom(s, 0)
      case None => Err(ValidationError)
      case Some((tag, n)) =>
        if tag / 8 < 1 then Err(ValidationError) else FieldBody(tag / 8, tag % 8, s[n..])
  }

  /** The rest of a field whose tag has been read, and the fields after it. */
  function FieldBody(number: nat, wireType: nat, s: seq<Byte>): Result<seq<Field>>
    decreases |s|, 1
  {
    if wireType == 0 then
      match ReadFrom(s, 0)
      case None => Err(ValidationError)
      case Some((value, n)) => Push(Field(number, Number(value)), Fields(s[n..]))
    else if wireType == 2 then
      match ReadFrom(s, 0)
      case None => Err(ValidationError)
      case Some((length, n)) =>
        if length > MAX_SAFE_INTEGER || n + length > |s| then Err(ValidationError)
        else Push(Field(number, Bytes(s[n..n + length])), Fields(s[n + length..]))
    else if wireType == 1 then if 8 > |s| then Err(ValidationError) else Fields(s[8..])
    else if wireType == 5 then if 4 > |s| then Err(ValidationError) else Fields(s[4..])
    else Err(ValidationError)
  }

  /** One record of a message on the wire. */
  datatype Wire =
    | VarintRecord(tag: seq<Byte>, value: seq<Byte>)
    | BytesRecord(tag: seq<Byte>, length: seq<Byte>, data: seq<Byte>)
    | Fixed64Record(tag: seq<Byte>, data: seq<Byte>)
    | Fixed32Record(tag: seq<Byte>, data: seq<Byte>)
  {
    predicate WellFormed() {
      IsVarint(tag) && VarintValue(tag) / 8 >= 1 &&
      match this
      case VarintRecord(_, value) => VarintValue(tag) % 8 == 0 && IsVarint(value)
      case BytesRecord(_, length, data) =>
        VarintValue(tag) % 8 == 2 && IsVarint(length) && VarintValue(length) == |data| <= MAX_SAFE_INTEGER
      case Fixed64Record(_, data) => VarintValue(tag) % 8 == 1 && |data| == 8
      case Fixed32Record(_, data) => VarintValue(tag) % 8 == 5 && |data| == 4
    }

    function Body(): seq<Byte> {
      match this
      case VarintRecord(_, value) => value
      case BytesRecord(_, length, data) => length + data
      case Fixed64Record(_, data) => data
      case Fixed32Record(_, data) => data
    }

    /** The field the record contributes, if its wire type is kept. */
    function Kept(): seq<Field> {
      match this
      case VarintRecord(_, value) => [Field(VarintValue(tag) / 8, Number(VarintValue(value)))]
      case BytesRecord(_, _, data) => [Field(VarintValue(tag) / 8, Bytes(data))]
      case _ => []
    }
  }

  function Message(ws: seq<Wire>): seq<Byte> {
    if ws == [] then [] else ws[0].tag + (ws[0].Body() + Message(ws[1..]))
  }

  function KeptFields(ws: seq<Wire>): seq<Field> {
    if ws == [] then [] else ws[0].Kept() + KeptFields(ws[1..])
  }

  predicate WellFormedMessage(ws: seq<Wire>) {
    forall i | 0 <= i < |ws| :: ws[i].WellFormed()
  }

  lemma BodyIsRead(w: Wire, rest: seq<Byte>)
    requires w.WellFormed()
    ensures FieldBody(VarintValue(w.tag) / 8, VarintValue(w.tag) % 8, w.Body() + rest) ==
            match Fields(rest) case Err(e) => Err(e) case Ok(fs) => Ok(w.Kept() + fs)
  {
    hide VarintValue, ReadFrom, Fields;
    var s := w.Body() + rest;
    match w
    case VarintRecord(_, value) =>
      VarintIsRead(value, rest, 0);
      assert s[|value|..] == rest;
    case BytesRecord(_, length, data) =>
      assert s == length + (data + rest);
      VarintIsRead(length, data + rest, 0);
      assert s[|length|..|length| + |data|] == data && s[|length| + |data|..] == rest;
    case Fixed64Record(_, data) =>
      assert s[8..] == rest;
      PushNothing(Fields(rest));
    case Fixed32Record(_, data) =>
      assert s[4..] == rest;
      PushNothing(Fields(rest));
  }

  lemma PushNothing(r: Result<seq<Field>>)
    ensures r == match r case Err(e) => Err(e) case Ok(fs) => Ok([] + fs)
  {
    if r.Ok? {
      assert [] + r.value == r.value;
    }
  }

  /** Any well-formed message is accepted, and exactly its fields of wire types 0 and 2 come out, in order. */
  lemma {:induction false} MessageIsRead(ws: seq<Wire>)
    requires WellFormedMessage(ws)
    ensures Fields(Message(ws)) == Ok(KeptFields(ws))
  {
    if ws != [] {
      hide VarintValue, ReadFrom, FieldBody, Wire.Kept, Wire.Body, IsVarint;
      var s := ws[0].Body() + Message(ws[1..]);
      MessageIsRead(ws[1..]);
      BodyIsRead(ws[0], Message(ws[1..]));
      assert IsVarint(ws[0].tag) && VarintValue(ws[0].tag) / 8 >= 1 by { assert ws[0].WellFormed(); }
      TagIsRead(ws[0].tag, s);
    }
  }

  lemma TagIsRead(tag: seq<Byte>, s: seq<Byte>)
    requires IsVarint(tag) && VarintValue(tag) / 8 >= 1
    ensures Fields(tag + s) == FieldBody(VarintValue(tag) / 8, VarintValue(tag) % 8, s)
  {
    hide VarintValue, ReadFrom, FieldBody;
    VarintIsRead(tag, s, 0);
    assert tag + s != [] by { assert |tag| >= 1; }
    assert (tag + s)[|tag|..] == s;
  }

  /** Whatever is accepted is a well-formed message, and the result is its kept fields. */
  lemma {:induction false} AcceptedIsMessage(s: seq<Byte>) returns (ws: seq<Wire>)
    requires Fields(s).Ok?
    ensures WellFormedMessage(ws) && Message(ws) == s && Fields(s) == Ok(KeptFields(ws))
    decreases |s|
  {
    hide Fields, Wire.Body, Wire.Kept, Wire.WellFormed;
    if s == [] {
      NoFields();
      ws := [];
    } else {
      var w, rest := FirstRecord(s);
      var tail := AcceptedIsMessage(rest);
      ws := [w] + tail;
      assert ws[0] == w && ws[1..] == tail;
    }
  }

  lemma NoFields()
    ensures Fields([]) == Ok([])
  {
  }

  /** An accepted message begins with a record. */
  lemma FirstRecord(s: seq<Byte>) returns (w: Wire, rest: seq<Byte>)
    requires s != [] && Fields(s).Ok?
    ensures w.WellFormed() && s == w.tag + (w.Body() + rest) && |rest| < |s|
    ensures Fields(rest).Ok? && Fields(s) == Ok(w.Kept() + Fields(rest).value)
  {
    hide VarintValue, ReadFrom, IsVarint, FieldBody, Wire.Body, Wire.Kept, Wire.WellFormed;
    var (v, n) := ReadFrom(s, 0).value;
    ReadIsVarint(s, 0);
    w, rest := AcceptedBody(s[..n], s[n..]);
    assert s == s[..n] + s[n..];
  }

  /** The record at the front of an accepted message, given its tag. */
  lemma AcceptedBody(tag: seq<Byte>, s: seq<Byte>) returns (w: Wire, rest: seq<Byte>)
    requires IsVarint(tag) && VarintValue(tag) / 8 >= 1
    requires FieldBody(VarintValue(tag) / 8, VarintValue(tag) % 8, s).Ok?
    ensures w.WellFormed() && w.tag == tag && s == w.Body() + rest && |rest| <= |s|
    ensures Fields(rest).Ok?
    ensures FieldBody(VarintValue(tag) / 8, VarintValue(tag) % 8, s) == Ok(w.Kept() + Fields(rest).value)
  {
    hide VarintValue, ReadFrom, IsVarint, Fields, PushAll;
    var wireType := VarintValue(tag) % 8;
    if wireType == 0 {
      var (v, n) := ReadFrom(s, 0).value;
      ReadIsVarint(s, 0);
      w, rest := VarintRecord(tag, s[..n]), s[n..];
    } else if wireType == 2 {
      var (length, n) := ReadFrom(s, 0).value;
      ReadIsVarint(s, 0);
      w, rest := BytesRecord(tag, s[..n], s[n..n + length]), s[n + length..];
      ThreeParts(s, n, n + length);
    } else {
      var size := if wireType == 1 then 8 else 4;
      w := if wireType == 1 then Fixed64Record(tag, s[..8]) else Fixed32Record(tag, s[..4]);
      rest := s[size..];
      PushNothing(Fields(rest));
    }
  }

  lemma ThreeParts(s: seq<Byte>, a: nat, b: nat)
    requires a <= b <= |s|
    ensures s == s[..a] + s[a..b] + s[b..]
  {
  }

  ghost predicate Spells(ws: seq<Wire>, s: seq<Byte>, fs: seq<Field>) {
    WellFormedMessage(ws) && Message(ws) == s && KeptFields(ws) == fs
  }

  /** Acceptance, exactly: the bytes split into well-formed records whose kept fields are the result. */
  lemma FieldsExactly(s: seq<Byte>, fs: seq<Field>)
    ensures Fields(s) == Ok(fs) <==> exists ws :: Spells(ws, s, fs)
  {
    if Fields(s) == Ok(fs) {
      var ws := AcceptedIsMessage(s);
      assert Spells(ws, s, fs);
    }
    if ws :| Spells(ws, s, fs) {
      MessageIsRead(ws);
    }
  }

  function PushAll(fs: seq<Field>, r: Result<seq<Field>>): Result<seq<Field>> {
    match r case Err(e) => Err(e) case Ok(more) => Ok(fs + more)
  }

  lemma PushAllTwice(fs: seq<Field>, more: seq<Field>, r: Result<seq<Field>>)
    ensures PushAll(fs, PushAll(more, r)) == PushAll(fs + more, r)
  {
    if r.Ok? {
      assert fs + (more + r.value) == fs + more + r.value;
    }
  }

  lemma PushAllNothing(r: Result<seq<Field>>)
    ensures PushAll([], r) == r
  {
    PushNothing(r);
  }

  lemma SliceOfSlice(input: seq<Byte>, start: nat, a: nat, b: nat)
    requires start <= a <= b <= |input|
    ensures input[start..][a - start..b - start] == input[a..b] && input[start..][b - start..] == input[b..]
  {
  }

  /** What the loop does after a tag: the fields it appends and where it goes on. */
  method ReadField(input: seq<Byte>, start: nat, fieldNumber: nat, wireType: nat)
    returns (r: Result<(seq<Field>, nat)>)
    requires start <= |input|
    ensures match r
            case Err(e) => FieldBody(fieldNumber, wireType, input[start..]) == Err(e)
            case Ok((kept, end)) =>
              start <= end <= |input| &&
              FieldBody(fieldNumber, wireType, input[start..]) == PushAll(kept, Fields(input[end..]))
  {
    hide ReadFrom, Fields;
    if wireType == 0 || wireType == 2 {
      var number := ReadVarint(input, start);
      if number.Err? {
        return Err(ValidationError);
      }
      var offset, value := number.value.offset, number.value.value;
      if wireType == 0 {
        SliceOfSlice(input, start, offset, offset);
        return Ok(([Field(fieldNumber, Number(value))], offset));
      }
      var end := offset + value;
      if value > MAX_SAFE_INTEGER || end > |input| {
        return Err(ValidationError);
      }
      SliceOfSlice(input, start, offset, end);
      return Ok(([Field(fieldNumber, Bytes(input[offset..end]))], end));
    }
    if wireType != 1 && wireType != 5 {
      return Err(ValidationError);
    }
    var end := start + if wireType == 1 then 8 else 4;
    if end > |input| {
      return Err(ValidationError);
    }
    SliceOfSlice(input, start, end, end);
    PushAllNothing(Fields(input[end..]));
    return Ok(([], end));
  }

  /** The loop over the fields. */
  method ProtobufFields(input: seq<Byte>) returns (r: Result<seq<Field>>)
    ensures r == Fields(input)
  {
    hide ReadFrom, FieldBody, PushAll;
    var fields: seq<Field> := [];
    var offset := 0;
    assert input[0..] == input;
    PushAllNothing(Fields(input));
    while offset < |input|
      invariant 0 <= offset <= |input|
      invariant Fields(input) == PushAll(fields, Fields(input[offset..]))
    {
      PushAllError(fields, ValidationError);
      var tag := ReadVarint(input, offset);
      if tag.Err? {
        return Err(ValidationError);
      }
      SliceOfSlice(input, offset, tag.value.offset, tag.value.offset);
      var fieldNumber, wireType := tag.value.value / 8, tag.value.value % 8;
      if fieldNumber < 1 {
        return Err(ValidationError);
      }
      var field := ReadField(input, tag.value.offset, fieldNumber, wireType);
      if field.Err? {
        PushAllError(fields, field.error);
        return Err(field.error);
      }
      var (kept, end) := field.value;
      PushAllTwice(fields, kept, Fields(input[end..]));
      fields := fields + kept;
      offset := end;
    }
    assert input[offset..] == [];
    PushAllLast(fields);
    return Ok(fields);
  }

  lemma PushAllError(fs: seq<Field>, e: AppError)
    ensures PushAll(fs, Err(e)) == Err(e)
  {
  }

  lemma PushAllLast(fs: seq<Field>)
    ensures PushAll(fs, Ok([])) == Ok(fs)
  {
    assert fs + [] == fs;
  }

  // ----- the header -----

  const IV_BYTES := 16

  datatype Header = Header(iv: seq<Byte>, encryptedDataOffset: nat)

  /** The first field with the given number that holds bytes. */
  function FindBytes(fs: seq<Field>, number: nat): Option<seq<Byte>> {
    if fs == [] then None
    else if fs[0].number == number && fs[0].payload.Bytes? then Some(fs[0].payload.data)
    else FindBytes(fs[1..], number)
  }

  /** The initialization vector inside the header's message. */
  function VectorOf(message: seq<Byte>): Result<seq<Byte>> {
    match Fields(message)
    case Err(e) => Err(e)
    case Ok(prefix) =>
      match FindBytes(prefix, 3)
      case None => Err(ValidationError)
      case Some(c15) =>
        match Fields(c15)
        case Err(e) => Err(e)
        case Ok(fs) =>
          match FindBytes(fs, 1)
          case None => Err(ValidationError)
          case Some(iv) => if |iv| == IV_BYTES then Ok(iv) else Err(ValidationError)
  }

  function ParseHeader(input: seq<Byte>): Result<Header> {
    if |input| < 4 then Err(ValidationError)
    else
      var protobufLength := input[0];
      var featureFlagBytes := if input[1] == 1 then 1 else 0;
      var start := 1 + featureFlagBytes;
      var end := start + protobufLength;
      if protobufLength < 1 || end > |input| then Err(ValidationError)
      else match VectorOf(input[start..end]) case Err(e) => Err(e) case Ok(iv) => Ok(Header(iv, end))
  }

  /** A header as written: the message's length, an optional feature flag of 1, the message. */
  function WriteHeader(flag: bool, message: seq<Byte>): seq<Byte>
    requires |message| < 256
  {
    [|message|] + (if flag then [1] else []) + message
  }

  /** No message that can be read starts with the byte that announces a feature flag. */
  lemma MessageIsNotFlag(message: seq<Byte>)
    requires message != [] && message[0] == 1
    ensures VectorOf(message) == Err(ValidationError)
  {
    assert ReadFrom(message, 0) == Some((1, 1));
  }

  /** A written header is read back, with or without the flag, and the data starts right after it:
      a header without the flag is never taken for one that has it. */
  lemma HeaderRoundTrip(flag: bool, message: seq<Byte>, data: seq<Byte>)
    requires 1 <= |message| < 256 && |WriteHeader(flag, message) + data| >= 4
    requires VectorOf(message).Ok?
    ensures ParseHeader(WriteHeader(flag, message) + data) ==
            Ok(Header(VectorOf(message).value, |WriteHeader(flag, message)|))
  {
    hide VectorOf;
    var input := WriteHeader(flag, message) + data;
    var start := if flag then 2 else 1;
    assert input[start..start + |message|] == message;
    if !flag {
      assert input[1] == message[0];
      if message[0] == 1 {
        MessageIsNotFlag(message);
      }
    }
  }

  /** A message whose first bytes field numbered 3 wraps a message that starts with a 16-byte field
      numbered 1 carries that field as its vector. */
  lemma VectorIsFound(outer: Wire, vector: Wire, before: seq<Wire>, after: seq<Wire>, within: seq<Wire>)
    requires outer.BytesRecord? && outer.WellFormed() && VarintValue(outer.tag) / 8 == 3
    requires vector.BytesRecord? && vector.WellFormed() && VarintValue(vector.tag) / 8 == 1 && |vector.data| == IV_BYTES
    requires WellFormedMessage(before) && WellFormedMessage(after) && WellFormedMessage(within)
    requires outer.data == Message([vector] + within) && FindBytes(KeptFields(before), 3) == None
    ensures VectorOf(Message(before + ([outer] + after))) == Ok(vector.data)
  {
    hide VarintValue, Message, Wire.WellFormed, Wire.Kept, Fields, KeptFields, FindBytes;
    MessageIsRead(before + ([outer] + after));
    KeptAppend(before, [outer] + after);
    FindAppend(KeptFields(before), KeptFields([outer] + after), 3);
    FirstIsFound(outer, after);
    MessageIsRead([vector] + within);
    FirstIsFound(vector, within);
  }

  lemma FirstIsFound(w: Wire, more: seq<Wire>)
    requires w.BytesRecord?
    ensures FindBytes(KeptFields([w] + more), VarintValue(w.tag) / 8) == Some(w.data)
  {
    hide VarintValue;
    assert ([w] + more)[1..] == more;
  }

  lemma {:induction false} KeptAppend(a: seq<Wire>, b: seq<Wire>)
    ensures KeptFields(a + b) == KeptFields(a) + KeptFields(b)
  {
    if a == [] {
      assert a + b == b;
    } else {
      assert (a + b)[1..] == a[1..] + b;
      KeptAppend(a[1..], b);
    }
  }

  lemma {:induction false} FindAppend(a: seq<Field>, b: seq<Field>, number: nat)
    requires FindBytes(a, number) == None
    ensures FindBytes(a + b, number) == FindBytes(b, number)
  {
    if a == [] {
      assert a + b == b;
    } else {
      assert (a + b)[1..] == a[1..] + b;
      FindAppend(a[1..], b, number);
    }
  }
}
