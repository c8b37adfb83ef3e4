/** `Common::Color` and its three external forms: the binary serializer (a
    type tag followed by the four channels), the string converter and the
    JSON serializer. Streams are modelled at the level of the items the
    serializers write (a type tag, a byte, a float), not as raw bytes; a
    type tag is the hash of the type's name, modelled by the name itself.
    `LinearColor` holds floats and is kept only as far as its tag goes. */
module ColorModel {
  import opened Wrappers
  import Text

  const Uint8Limit: nat := 0x100
  const Uint32Limit: nat := 0x1_0000_0000

  type Byte = x: nat | x < Uint8Limit

  datatype Color = Color(r: Byte, g: Byte, b: Byte, a: Byte)

  /** A float channel, left uninterpreted. */
  datatype Float = Float(bits: nat)

  datatype LinearColor = LinearColor(r: Float, g: Float, b: Float, a: Float)

  /** `Serializer<T>::typeId`, the CRC-32 of the type's qualified name. */
  datatype TypeId = TypeId(name: string)

  const ColorTypeId: TypeId := TypeId("Common::Color")
  const LinearColorTypeId: TypeId := TypeId("Common::LinearColor")

  /** One item of a serialize stream. */
  datatype Item = Tag(id: TypeId) | ByteItem(byte: Byte) | FloatItem(float: Float)

  // ---------------------------------------------------------------------
  // Stream readers

  /** `TypeIdSerializer<T>::Deserialize`: consumes the leading tag and tells
      whether it is `expected`; a stream not starting with a tag is a
      mismatch. */
  function ReadTag(s: seq<Item>, expected: TypeId): (r: (bool, seq<Item>))
    ensures r.0 <==> |s| > 0 && s[0] == Tag(expected)
    ensures r.0 ==> r.1 == s[1..]
  {
    if |s| > 0 && s[0].Tag? then (s[0].id == expected, s[1..]) else (false, s)
  }

  /** `Serializer<uint8_t>::Deserialize`: takes the next byte into the
      channel; when the next item is not a byte the channel keeps its value
      and nothing is consumed. */
  function ReadByte(s: seq<Item>, channel: Byte): (r: (Byte, seq<Item>))
    ensures |s| > 0 && s[0].ByteItem? ==> r == (s[0].byte, s[1..])
    ensures !(|s| > 0 && s[0].ByteItem?) ==> r == (channel, s)
  {
    if |s| > 0 && s[0].ByteItem? then (s[0].byte, s[1..]) else (channel, s)
  }

  /** The four bytes `s` starts with, when it starts with four bytes. */
  predicate StartsWithBytes(s: seq<Item>, c: Color) {
    |s| >= 4 && s[0] == ByteItem(c.r) && s[1] == ByteItem(c.g) && s[2] == ByteItem(c.b) && s[3] == ByteItem(c.a)
  }

  // ---------------------------------------------------------------------
  // Binary form

  /** `Serializer<Color>::Serialize`: appends Color's tag, then r, g, b, a. */
  function Serialize(stream: seq<Item>, c: Color): (s: seq<Item>)
    ensures |s| == |stream| + 5 && s[..|stream|] == stream
    ensures s[|stream|] == Tag(ColorTypeId) && StartsWithBytes(s[|stream| + 1..], c)
  {
    stream + [Tag(ColorTypeId), ByteItem(c.r), ByteItem(c.g), ByteItem(c.b), ByteItem(c.a)]
  }

  datatype Decoded = Decoded(ok: bool, value: Color, rest: seq<Item>)

  /** `Serializer<Color>::Deserialize`: false, with `value` untouched, unless
      the stream starts with Color's tag; once it does, true, whatever the
      four channel reads find. */
  function Deserialize(s: seq<Item>, value: Color): (d: Decoded)
    ensures d.ok <==> |s| > 0 && s[0] == Tag(ColorTypeId)
    ensures !d.ok ==> d.value == value
    ensures d.ok && StartsWithBytes(s[1..], d.value) ==> d.rest == s[5..]
    ensures d.ok ==> forall c :: StartsWithBytes(s[1..], c) ==> d.value == c
  {
    var (matched, s0) := ReadTag(s, ColorTypeId);
    if !matched then Decoded(false, value, s)
    else
      var (r, s1) := ReadByte(s0, value.r);
      var (g, s2) := ReadByte(s1, value.g);
      var (b, s3) := ReadByte(s2, value.b);
      var (a, s4) := ReadByte(s3, value.a);
      Decoded(true, Color(r, g, b, a), s4)
  }

  /** Reading back what was written yields the colour, whatever the target
      held before, and leaves the stream just after it. */
  lemma SerializeRoundTrip(c: Color, before: Color, rest: seq<Item>)
    ensures Deserialize(Serialize([], c) + rest, before) == Decoded(true, c, rest)
  {
    var s := Serialize([], c) + rest;
    assert s[1..] == [ByteItem(c.r), ByteItem(c.g), ByteItem(c.b), ByteItem(c.a)] + rest;
    assert s[5..] == rest;
  }

  /** Successive colours written to one stream are read back in order. */
  lemma SerializeTwiceRoundTrip(c1: Color, c2: Color, before: Color)
    ensures var s := Serialize(Serialize([], c1), c2);
            var d1 := Deserialize(s, before);
            d1 == Decoded(true, c1, Serialize([], c2)) && Deserialize(d1.rest, before) == Decoded(true, c2, [])
  {
    assert Serialize(Serialize([], c1), c2) == Serialize([], c1) + Serialize([], c2);
    SerializeRoundTrip(c1, before, Serialize([], c2));
    SerializeRoundTrip(c2, before, []);
    assert Serialize([], c2) + [] == Serialize([], c2);
  }

  /** The channel reads are not checked: a stream holding Color's tag and
      nothing else is accepted and leaves the target as it was. */
  lemma TruncatedStreamIsAccepted(before: Color)
    ensures Deserialize([Tag(ColorTypeId)], before) == Decoded(true, before, [])
  {
    assert [Tag(ColorTypeId)][1..] == [];
  }

  // ---------------------------------------------------------------------
  // LinearColor tags

  /** `Serializer<LinearColor>::Serialize` as written: it writes Color's tag,
      not its own, before the four floats. */
  function SerializeLinearAsWritten(stream: seq<Item>, c: LinearColor): (s: seq<Item>)
    ensures |s| == |stream| + 5 && s[..|stream|] == stream
    ensures s[|stream|] == Tag(ColorTypeId)
  {
    stream + [Tag(ColorTypeId), FloatItem(c.r), FloatItem(c.g), FloatItem(c.b), FloatItem(c.a)]
  }

  /** As written, the Color reader accepts a LinearColor stream: the tag,
      whose purpose is to tell the types apart, cannot. */
  lemma ColorReaderAcceptsLinearStream(c: LinearColor, before: Color)
    ensures Deserialize(SerializeLinearAsWritten([], c), before).ok
  {
  }

  /** The LinearColor serializer with its own tag. */
  function SerializeLinear(stream: seq<Item>, c: LinearColor): (s: seq<Item>)
    ensures |s| == |stream| + 5 && s[..|stream|] == stream
    ensures s[|stream|] == Tag(LinearColorTypeId)
  {
    stream + [Tag(LinearColorTypeId), FloatItem(c.r), FloatItem(c.g), FloatItem(c.b), FloatItem(c.a)]
  }

  datatype DecodedLinear = DecodedLinear(ok: bool, value: LinearColor, rest: seq<Item>)

  /** The float channel read, with the same leniency as `ReadByte`. */
  function ReadFloat(s: seq<Item>, channel: Float): (r: (Float, seq<Item>))
    ensures |s| > 0 && s[0].FloatItem? ==> r == (s[0].float, s[1..])
    ensures !(|s| > 0 && s[0].FloatItem?) ==> r == (channel, s)
  {
    if |s| > 0 && s[0].FloatItem? then (s[0].float, s[1..]) else (channel, s)
  }

  /** The LinearColor reader checking its own tag. */
  function DeserializeLinear(s: seq<Item>, value: LinearColor): (d: DecodedLinear)
    ensures d.ok <==> |s| > 0 && s[0] == Tag(LinearColorTypeId)
    ensures !d.ok ==> d.value == value
  {
    var (matched, s0) := ReadTag(s, LinearColorTypeId);
    if !matched then DecodedLinear(false, value, s)
    else
      var (r, s1) := ReadFloat(s0, value.r);
      var (g, s2) := ReadFloat(s1, value.g);
      var (b, s3) := ReadFloat(s2, value.b);
      var (a, s4) := ReadFloat(s3, value.a);
      DecodedLinear(true, LinearColor(r, g, b, a), s4)
  }

  /** With distinct tags each reader accepts its own type's stream and
      rejects the other's, and a LinearColor still reads back whole. */
  lemma DistinctTagsSeparateTheTypes(c: Color, l: LinearColor, cBefore: Color, lBefore: LinearColor)
    ensures !Deserialize(SerializeLinear([], l), cBefore).ok
    ensures !DeserializeLinear(Serialize([], c), lBefore).ok
    ensures DeserializeLinear(SerializeLinear([], l), lBefore) == DecodedLinear(true, l, [])
  {
    assert ColorTypeId != LinearColorTypeId by {
      assert ColorTypeId.name == "Common::Color" && LinearColorTypeId.name == "Common::LinearColor";
      assert ColorTypeId.name[8] == 'C' && LinearColorTypeId.name[8] == 'L';
    }
    var s := SerializeLinear([], l);
    assert s[1..][1..][1..][1..][1..] == [];
  }

  // ---------------------------------------------------------------------
  // String form

  /** `StringConverter<uint8_t>::ToString`: the decimal value. */
  function ByteString(v: Byte): string {
    Text.ToDecimal(v)
  }

  /** `StringConverter<Color>::ToString`: `{r=R, g=G, b=B, a=A}`. */
  function ColorString(c: Color): (s: string)
    ensures |s| > 0 && s[0] == '{' && s[|s| - 1] == '}'
  {
    "{r=" + ByteString(c.r) + ", g=" + ByteString(c.g) + ", b=" + ByteString(c.b)
      + ", a=" + ByteString(c.a) + "}"
  }

  /** Reads `field`, then a decimal byte, and returns what follows it. */
  function ParseField(s: string, field: string): (r: Option<(Byte, string)>)
    ensures r.Some? ==> Text.IsPrefix(field, s) && |r.value.1| < |s| - |field|
    ensures r.Some? ==> s[|s| - |r.value.1|..] == r.value.1
  {
    if !Text.IsPrefix(field, s) then None
    else
      var t := s[|field|..];
      var k := Text.DigitRun(t);
      if k == 0 then None
      else
        var v := Text.ParseDecimal(t[..k]);
        if v < Uint8Limit then Some((v, t[k..])) else None
  }

  /** Reads the string form back: the four fields in order, each followed by
      a decimal byte, and a closing brace. */
  function ParseColorString(s: string): (r: Option<Color>)
    ensures r.Some? ==> |s| > 0 && s[|s| - 1] == '}'
  {
    var (r, s1) :- ParseField(s, "{r=");
    var (g, s2) :- ParseField(s1, ", g=");
    var (b, s3) :- ParseField(s2, ", b=");
    var (a, s4) :- ParseField(s3, ", a=");
    if s4 == "}" then Some(Color(r, g, b, a)) else None
  }

  /** A field written as `field` and a decimal byte, followed by text that
      does not start with a digit, reads back as that byte. */
  lemma ParseFieldOfWritten(field: string, v: Byte, rest: string)
    requires rest == [] || !Text.IsDigit(rest[0])
    ensures ParseField(field + ByteString(v) + rest, field) == Some((v, rest))
  {
    var s := field + ByteString(v) + rest;
    var d := ByteString(v);
    assert s[..|field|] == field;
    assert s[|field|..] == d + rest;
    Text.DigitRunStopsAtNonDigit(d, rest);
    assert (d + rest)[..|d|] == d;
    assert (d + rest)[|d|..] == rest;
    Text.ParseInvertsToDecimal(v);
  }

  /** The string form reads back as the colour it was made from. */
  lemma ColorStringRoundTrip(c: Color)
    ensures ParseColorString(ColorString(c)) == Some(c)
  {
    var tail3 := ", a=" + ByteString(c.a) + "}";
    var tail2 := ", b=" + ByteString(c.b) + tail3;
    var tail1 := ", g=" + ByteString(c.g) + tail2;
    assert ColorString(c) == "{r=" + ByteString(c.r) + tail1;
    ParseFieldOfWritten("{r=", c.r, tail1);
    ParseFieldOfWritten(", g=", c.g, tail2);
    ParseFieldOfWritten(", b=", c.b, tail3);
    ParseFieldOfWritten(", a=", c.a, "}");
  }

  /** Distinct colours have distinct string forms. */
  lemma ColorStringIsInjective(c1: Color, c2: Color)
    requires ColorString(c1) == ColorString(c2)
    ensures c1 == c2
  {
    ColorStringRoundTrip(c1);
    ColorStringRoundTrip(c2);
  }

  // ---------------------------------------------------------------------
  // JSON form

  /** The JSON values the serializer meets: numbers, strings and objects
      whose members keep their insertion order. */
  datatype Json = Number(n: nat) | JsonString(s: string) | Object(members: seq<(string, Json)>)

  datatype JsonError = NotAnObject | MissingMember(key: string) | NotAnUnsigned(key: string)

  /** `Value::operator[]` on an object: the first member with that name. */
  function FindMember(members: seq<(string, Json)>, key: string): (r: Option<Json>)
    ensures r.Some? ==> exists i :: 0 <= i < |members| && members[i] == (key, r.value)
    ensures r.None? <==> forall i :: 0 <= i < |members| ==> members[i].0 != key
  {
    if |members| == 0 then None
    else if members[0].0 == key then Some(members[0].1)
    else
      var r := FindMember(members[1..], key);
      assert forall i :: 1 <= i < |members| ==> members[i] == members[1..][i - 1];
      r
  }

  /** With several members of one name, the first one is found. */
  lemma FindsTheFirst(members: seq<(string, Json)>, key: string, k: nat)
    requires k < |members| && members[k].0 == key
    requires forall j :: 0 <= j < k ==> members[j].0 != key
    ensures FindMember(members, key) == Some(members[k].1)
  {
    FindAfterOthers(members, key, k);
  }

  /** `inJsonValue[key].GetUint()` cast to `uint8_t`: the member must exist
      and hold an unsigned 32-bit number, which is truncated to its low
      byte. */
  function ChannelOf(j: Json, key: string): (r: Result<Byte, JsonError>)
    requires j.Object?
    ensures r.Success? <==> FindMember(j.members, key).Some? && FindMember(j.members, key).value.Number?
                            && FindMember(j.members, key).value.n < Uint32Limit
    ensures r.Success? ==> r.value == FindMember(j.members, key).value.n % Uint8Limit
  {
    match FindMember(j.members, key)
    case None => Failure(MissingMember(key))
    case Some(v) =>
      if v.Number? && v.n < Uint32Limit then Success(v.n % Uint8Limit) else Failure(NotAnUnsigned(key))
  }

  /** The members `r`, `g`, `b`, `a`, in that order, are found under their
      own names whatever they hold. */
  lemma FindInChannelOrder(vr: Json, vg: Json, vb: Json, va: Json)
    ensures var m := [("r", vr), ("g", vg), ("b", vb), ("a", va)];
            && FindMember(m, "r") == Some(vr) && FindMember(m, "g") == Some(vg)
            && FindMember(m, "b") == Some(vb) && FindMember(m, "a") == Some(va)
  {
    var m := [("r", vr), ("g", vg), ("b", vb), ("a", va)];
    assert m[1..][1..][1..] == [("a", va)];
    FindAfterOthers(m, "b", 2);
    FindAfterOthers(m, "a", 3);
  }

  /** Members before index `k` with other names are skipped. */
  lemma {:induction false} FindAfterOthers(members: seq<(string, Json)>, key: string, k: nat)
    requires k <= |members|
    requires forall j :: 0 <= j < k ==> members[j].0 != key
    ensures FindMember(members, key) == FindMember(members[k..], key)
    decreases k
  {
    if k > 0 {
      assert members[1..][k - 1..] == members[k..];
      FindAfterOthers(members[1..], key, k - 1);
    }
  }

  /** `JsonSerializer<Color>::JsonSerialize`: an object with members r, g,
      b, a in that order. */
  function JsonSerialize(c: Color): (j: Json)
    ensures j.Object? && |j.members| == 4
    ensures FindMember(j.members, "r") == Some(Number(c.r)) && FindMember(j.members, "g") == Some(Number(c.g))
    ensures FindMember(j.members, "b") == Some(Number(c.b)) && FindMember(j.members, "a") == Some(Number(c.a))
  {
    FindInChannelOrder(Number(c.r), Number(c.g), Number(c.b), Number(c.a));
    Object([("r", Number(c.r)), ("g", Number(c.g)), ("b", Number(c.b)), ("a", Number(c.a))])
  }

  /** `JsonSerializer<Color>::JsonDeserialize`: the four channels read by
      name, each truncated to a byte; a value that is not an object, a
      missing member or a non-unsigned member is an error. */
  function JsonDeserialize(j: Json): (r: Result<Color, JsonError>)
    ensures r.Success? <==> j.Object? && ChannelOf(j, "r").Success? && ChannelOf(j, "g").Success?
                            && ChannelOf(j, "b").Success? && ChannelOf(j, "a").Success?
    ensures r.Success? ==> r.value == Color(ChannelOf(j, "r").value, ChannelOf(j, "g").value,
                                            ChannelOf(j, "b").value, ChannelOf(j, "a").value)
  {
    if !j.Object? then Failure(NotAnObject)
    else
      var r :- ChannelOf(j, "r");
      var g :- ChannelOf(j, "g");
      var b :- ChannelOf(j, "b");
      var a :- ChannelOf(j, "a");
      Success(Color(r, g, b, a))
  }

  /** Reading back what was written is the identity. */
  lemma JsonRoundTrip(c: Color)
    ensures JsonDeserialize(JsonSerialize(c)) == Success(c)
  {
    var j := JsonSerialize(c);
    assert ChannelOf(j, "r") == Success(c.r);
    assert ChannelOf(j, "g") == Success(c.g);
    assert ChannelOf(j, "b") == Success(c.b);
    assert ChannelOf(j, "a") == Success(c.a);
  }

  /** Wider unsigned values are cut to their low byte, and the member order
      of the object does not matter. */
  lemma JsonTruncatesToLowByte(r: nat, g: nat, b: nat, a: nat)
    requires r < Uint32Limit && g < Uint32Limit && b < Uint32Limit && a < Uint32Limit
    ensures JsonDeserialize(Object([("a", Number(a)), ("b", Number(b)), ("g", Number(g)), ("r", Number(r))]))
            == Success(Color(r % Uint8Limit, g % Uint8Limit, b % Uint8Limit, a % Uint8Limit))
  {
    var m := [("a", Number(a)), ("b", Number(b)), ("g", Number(g)), ("r", Number(r))];
    assert m[3..] == [("r", Number(r))];
    FindAfterOthers(m, "b", 1);
    FindAfterOthers(m, "g", 2);
    FindAfterOthers(m, "r", 3);
  }
}
