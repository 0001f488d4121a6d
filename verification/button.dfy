/** Inline-button data and its serialisation (src/models/button.cpp).

    The source writes a `proto::ButtonData` protobuf message and base64-encodes
    it. Here the message is a datatype with presence bits, and its encoding is a
    stand-in wire format: each present field is one tag byte followed by its
    value as four little-endian two's-complement bytes (protobuf's sfixed32
    encoding); base64 is the identity. Only the field-presence logic around the
    encoding is the source's own. */
module ButtonModel {
  import opened Wrappers
  import opened BirthdayModel

  newtype Int32 = x: int | -0x8000_0000 <= x < 0x8000_0000

  /** `enum class ButtonType : int32_t`; a decoded value is cast without a
      range check, so every int32 is a possible value. */
  newtype ButtonType = x: int | -0x8000_0000 <= x < 0x8000_0000
  const EditBirthday: ButtonType := 0
  const DeleteBirthday: ButtonType := 1
  const Cancel: ButtonType := 2

  /** `enum class ButtonContext : int32_t`, cast the same way. */
  newtype ButtonContext = x: int | -0x8000_0000 <= x < 0x8000_0000
  const NextBirthdays: ButtonContext := 0
  const NextBirthdaysEditBirthday: ButtonContext := 1

  datatype ButtonData = ButtonData(buttonType: ButtonType, context: ButtonContext, birthdayId: Option<BirthdayId>)

  /** `Button(title, type, context, birthday_id)` stores its arguments as they are. */
  datatype Button = Button(title: string, data: ButtonData)

  datatype SerializedButton = SerializedButton(title: string, data: string)

  /** `proto::ButtonData`: three optional int32 fields. */
  datatype ProtoButtonData = ProtoButtonData(buttonType: Option<Int32>, context: Option<Int32>, bdId: Option<Int32>)

  const EmptyProto := ProtoButtonData(None, None, None)

  /** `SerializedButton(title, data)`: throws unless the data is 1 to 64 bytes long. */
  function MakeSerializedButton(title: string, data: string): (r: Result<SerializedButton>)
    ensures r.Ok? <==> 1 <= |data| <= 64
    ensures r.Ok? ==> r.value.title == title && r.value.data == data
  {
    if |data| == 0 || |data| > 64 then Err("Button data must be 1-64 bytes long")
    else Ok(SerializedButton(title, data))
  }

  /** `ToProto`: type and context are always set, `bd_id` only when present. */
  function ToProto(bd: ButtonData): ProtoButtonData {
    ProtoButtonData(
      Some(bd.buttonType as Int32),
      Some(bd.context as Int32),
      if bd.birthdayId.Some? then Some(bd.birthdayId.value as Int32) else None)
  }

  /** The presence checks of `ButtonData::FromBase64Serialized` on a parsed
      message. */
  function FromProto(p: ProtoButtonData): Result<ButtonData> {
    if p.buttonType.None? then Err("Missing button_type field in message")
    else if p.context.None? then Err("Missing context field in message")
    else Ok(ButtonData(
      p.buttonType.value as ButtonType,
      p.context.value as ButtonContext,
      if p.bdId.Some? then Some(p.bdId.value as BirthdayId) else None))
  }

  // ---------------------------------------------------------------------
  // Stand-in wire format

  const TypeTag: char := 0x0D as char
  const ContextTag: char := 0x15 as char
  const BirthdayIdTag: char := 0x1D as char

  predicate IsByte(c: char) {
    c as int < 256
  }

  function EncodeInt32(v: Int32): (s: string)
    ensures |s| == 4
    ensures forall i :: 0 <= i < 4 ==> IsByte(s[i])
  {
    var u := if v < 0 then v as int + 0x1_0000_0000 else v as int;
    var q1 := u / 256;
    var q2 := q1 / 256;
    [(u % 256) as char, (q1 % 256) as char, (q2 % 256) as char, (q2 / 256) as char]
  }

  function DecodeInt32(s: string): Int32
    requires |s| == 4
    requires forall i :: 0 <= i < 4 ==> IsByte(s[i])
  {
    assert IsByte(s[0]) && IsByte(s[1]) && IsByte(s[2]) && IsByte(s[3]);
    var u := s[0] as int + 256 * (s[1] as int + 256 * (s[2] as int + 256 * (s[3] as int)));
    if u >= 0x8000_0000 then (u - 0x1_0000_0000) as Int32 else u as Int32
  }

  function FieldRecord(tag: char, v: Option<Int32>): string {
    if v.Some? then [tag] + EncodeInt32(v.value) else ""
  }

  /** `SerializeToString` in the stand-in format. */
  function SerializeToString(p: ProtoButtonData): string {
    FieldRecord(TypeTag, p.buttonType) + FieldRecord(ContextTag, p.context) + FieldRecord(BirthdayIdTag, p.bdId)
  }

  /** `ParseFromString` in the stand-in format: records are read in order, a
      later value of a field replaces an earlier one, and reading stops at the
      first record that is truncated or carries an unknown tag, keeping what
      was read so far (the source ignores the parser's status). */
  function ParseRecords(s: string, acc: ProtoButtonData): ProtoButtonData
    decreases |s|
  {
    if |s| < 5 || !(forall i :: 1 <= i < 5 ==> IsByte(s[i])) then acc
    else
      var v := DecodeInt32(s[1..5]);
      if s[0] == TypeTag then ParseRecords(s[5..], acc.(buttonType := Some(v)))
      else if s[0] == ContextTag then ParseRecords(s[5..], acc.(context := Some(v)))
      else if s[0] == BirthdayIdTag then ParseRecords(s[5..], acc.(bdId := Some(v)))
      else acc
  }

  function ParseFromString(s: string): ProtoButtonData {
    ParseRecords(s, EmptyProto)
  }

  /** The callback data of a button: `Base64Encode(ToProto(data))`. */
  function Serialize(bd: ButtonData): string {
    SerializeToString(ToProto(bd))
  }

  /** `ButtonData::FromBase64Serialized`. */
  function FromBase64Serialized(data: string): Result<ButtonData> {
    FromProto(ParseFromString(data))
  }

  /** `SerializedButton(Button)`. */
  function SerializeButton(b: Button): Result<SerializedButton> {
    MakeSerializedButton(b.title, Serialize(b.data))
  }

  // ---------------------------------------------------------------------

  lemma Int32RoundTrip(v: Int32)
    ensures DecodeInt32(EncodeInt32(v)) == v
  {
    var u := if v < 0 then v as int + 0x1_0000_0000 else v as int;
    var q1 := u / 256;
    var q2 := q1 / 256;
    assert u == u % 256 + 256 * (q1 % 256 + 256 * (q2 % 256 + 256 * (q2 / 256)));
  }

  lemma RecordRoundTrip(tag: char, v: Int32, rest: string, acc: ProtoButtonData)
    requires tag == TypeTag || tag == ContextTag || tag == BirthdayIdTag
    ensures ParseRecords([tag] + EncodeInt32(v) + rest, acc) ==
            ParseRecords(rest,
              if tag == TypeTag then acc.(buttonType := Some(v))
              else if tag == ContextTag then acc.(context := Some(v))
              else acc.(bdId := Some(v)))
  {
    var s := [tag] + EncodeInt32(v) + rest;
    assert s[1..5] == EncodeInt32(v);
    assert s[5..] == rest;
    Int32RoundTrip(v);
  }

  /** Reading one optional field record: an absent field leaves nothing to read. */
  lemma FieldStep(tag: char, v: Option<Int32>, rest: string, acc: ProtoButtonData)
    requires tag == TypeTag || tag == ContextTag || tag == BirthdayIdTag
    ensures ParseRecords(FieldRecord(tag, v) + rest, acc) ==
            ParseRecords(rest,
              if v.None? then acc
              else if tag == TypeTag then acc.(buttonType := v)
              else if tag == ContextTag then acc.(context := v)
              else acc.(bdId := v))
  {
    if v.Some? {
      assert FieldRecord(tag, v) + rest == [tag] + EncodeInt32(v.value) + rest;
      RecordRoundTrip(tag, v.value, rest, acc);
    } else {
      assert FieldRecord(tag, v) + rest == rest;
    }
  }

  /** Parsing a serialised message gives back the message. */
  lemma ParseSerialize(p: ProtoButtonData)
    ensures ParseFromString(SerializeToString(p)) == p
  {
    var r1 := FieldRecord(TypeTag, p.buttonType);
    var r2 := FieldRecord(ContextTag, p.context);
    var r3 := FieldRecord(BirthdayIdTag, p.bdId);
    var a1 := EmptyProto.(buttonType := p.buttonType);
    var a2 := a1.(context := p.context);
    assert SerializeToString(p) == r1 + (r2 + r3);
    FieldStep(TypeTag, p.buttonType, r2 + r3, EmptyProto);
    FieldStep(ContextTag, p.context, r3, a1);
    FieldStep(BirthdayIdTag, p.bdId, "", a2);
    assert r3 + "" == r3;
  }

  /** Decoding the callback data of a button gives back its type, context and
      birthday id. */
  lemma ButtonDataRoundTrip(bd: ButtonData)
    ensures FromBase64Serialized(Serialize(bd)) == Ok(bd)
  {
    ParseSerialize(ToProto(bd));
  }

  /** Encoded button data always fits the 1..64-byte bound, so building a
      serialised button from a `Button` never throws. */
  lemma SerializeButtonSucceeds(b: Button)
    ensures SerializeButton(b).Ok?
    ensures SerializeButton(b).value == SerializedButton(b.title, Serialize(b.data))
  {
    assert 10 <= |Serialize(b.data)| <= 15;
  }

  /** A message without `button_type` is rejected whatever else it holds. */
  lemma MissingTypeRejected(data: string)
    requires ParseFromString(data).buttonType.None?
    ensures FromBase64Serialized(data) == Err("Missing button_type field in message")
  {
  }

  /** A message with `button_type` but without `context` is rejected. */
  lemma MissingContextRejected(data: string)
    requires ParseFromString(data).buttonType.Some?
    requires ParseFromString(data).context.None?
    ensures FromBase64Serialized(data) == Err("Missing context field in message")
  {
  }

  /** An absent `bd_id` decodes to no birthday id, a present one to exactly its value. */
  lemma BirthdayIdPresence(data: string)
    requires FromBase64Serialized(data).Ok?
    ensures ParseFromString(data).bdId.None? ==> FromBase64Serialized(data).value.birthdayId.None?
    ensures ParseFromString(data).bdId.Some? ==>
            FromBase64Serialized(data).value.birthdayId == Some(ParseFromString(data).bdId.value as BirthdayId)
  {
  }
}
