/** Messages as SQS bodies and attributes, and which of them survive the way there and back. */
module AwsMarshaling {
  import opened Options
  import opened Messages
  import Utf8
  import Base64
  import Rfc4648

  // ---- the body ----------------------------------------------------------------------------------

  function EncodeBody(payload: seq<Byte>): string {
    match Utf8.Decode(payload)
    case Some(text) => text
    case None => Base64.Encode(payload)
  }

  function DecodeBody(body: string): seq<Byte> {
    match Base64.Decode(body)
    case Some(decoded) => if Base64.Encode(decoded) == body then decoded else Utf8.Encode(body)
    case None => Utf8.Encode(body)
  }

  /** The payload is text that could also be the base64 encoding of something. */
  predicate LooksEncoded(payload: seq<Byte>) {
    && payload != []
    && Utf8.Decode(payload).Some?
    && Base64.Canonical(Utf8.Decode(payload).value)
  }

  /** Decoding undoes base64 for every body that is an encoding, and is the UTF-8 encoding of every other body. */
  lemma DecodeBodyOf(body: string)
    ensures forall b :: body == Base64.Encode(b) ==> DecodeBody(body) == b
    ensures !Base64.Canonical(body) ==> DecodeBody(body) == Utf8.Encode(body)
  {
    forall b | body == Base64.Encode(b) ensures DecodeBody(body) == b {
      Base64.EncodeThenDecode(b);
    }
    Base64.CanonicalIff(body);
  }

  /** The body stands for these bytes by the table of RFC 4648, with no bit left over. */
  ghost predicate StandsFor(body: string, b: seq<Byte>) {
    Rfc4648.Spells(Rfc4648.TABLE, body, b, true)
  }

  /** What decoding yields, by the tables of the two standards and without the codecs. */
  lemma DecodeBodyIff(body: string, p: seq<Byte>)
    ensures DecodeBody(body) == p <==> StandsFor(body, p) || (Utf8.IsText(body, p) && forall b :: !StandsFor(body, b))
  {
    DecodeBodyOf(body);
    Base64.CanonicalIff(body);
    Utf8.EncodesExactly(body, p);
    forall b ensures StandsFor(body, b) <==> Base64.Encode(b) == body { Rfc4648.EncodesExactly(b, body); }
  }

  /** What a payload is sent as, likewise: as the text that it is, or else as its base64 text. */
  lemma EncodeBodyIff(payload: seq<Byte>, body: string)
    ensures EncodeBody(payload) == body <==>
            Utf8.IsText(body, payload) || (StandsFor(body, payload) && forall s :: !Utf8.IsText(s, payload))
  {
    Rfc4648.EncodesExactly(payload, body);
    forall s ensures Utf8.IsText(s, payload) <==> Utf8.Decode(payload) == Some(s) {
      Utf8.EncodesExactly(s, payload);
      Utf8.DecodesExactly(payload, s);
    }
    assert Utf8.Decode(payload).Some? ==> Utf8.IsText(Utf8.Decode(payload).value, payload);
  }

  /** The payloads that come back are exactly those that do not look encoded already. */
  lemma RoundTripIff(payload: seq<Byte>)
    ensures DecodeBody(EncodeBody(payload)) == payload <==> !LooksEncoded(payload)
  {
    var body := EncodeBody(payload);
    DecodeBodyOf(body);
    if Utf8.Decode(payload).Some? {
      Utf8.DecodeThenEncode(payload);
      Base64.CanonicalIff(body);
      if Base64.Canonical(body) {
        var b :| body == Base64.Encode(b);
        Base64.EncodingGrows(b);
        Utf8.EncodeThenDecode(body);
        TextIsLonger(body);
      }
    }
  }

  /** Such payloads exist: the base64 text of any bytes at all, sent as a text, comes back as those bytes. */
  lemma EncodingsAreDecoded(b: seq<Byte>)
    requires b != []
    ensures var payload := Utf8.Encode(Base64.Encode(b));
      LooksEncoded(payload) && DecodeBody(EncodeBody(payload)) == b && b != payload
  {
    var body := Base64.Encode(b);
    Utf8.EncodeThenDecode(body);
    DecodeBodyOf(body);
    Base64.CanonicalIff(body);
    Base64.EncodingGrows(b);
    TextIsLonger(body);
  }

  /** So does every text of base64 letters whose length is a multiple of four, such as "true" or "AAAA". */
  lemma WordsLookEncoded(text: string)
    requires text != "" && |text| % 4 == 0 && Rfc4648.InTable(Rfc4648.TABLE, text)
    ensures LooksEncoded(Utf8.Encode(text))
    ensures DecodeBody(EncodeBody(Utf8.Encode(text))) != Utf8.Encode(text)
  {
    forall i | 0 <= i < |text| ensures Base64.Read(text[i]).Digit? { Rfc4648.AgreesWithTable(text[i]); }
    Utf8.EncodeThenDecode(text);
    TextIsLonger(text);
    RoundTripIff(Utf8.Encode(text));
  }

  /** UTF-8 never shortens a text. */
  lemma {:induction false} TextIsLonger(s: string)
    ensures |s| <= |Utf8.Encode(s)|
  {
    if s != [] { TextIsLonger(s[1..]); }
  }

  /** `text` is the payload whose UTF-8 text is the base64 encoding of the binary payload. */
  ghost predicate Shadows(text: seq<Byte>, binary: seq<Byte>) {
    Utf8.Decode(binary).None? && text == Utf8.Encode(Base64.Encode(binary))
  }

  /**
   Two different payloads share a body exactly when one of them is binary and the other is its base64
   text, and then the decoder returns the binary one.
   */
  lemma CollisionIff(p: seq<Byte>, q: seq<Byte>)
    ensures EncodeBody(p) == EncodeBody(q) && p != q <==> Shadows(p, q) || Shadows(q, p)
    ensures Shadows(p, q) ==> DecodeBody(EncodeBody(p)) == q
    ensures Shadows(q, p) ==> DecodeBody(EncodeBody(p)) == p
  {
    if Shadows(p, q) { BodyOfShadow(p, q); }
    if Shadows(q, p) { BodyOfShadow(q, p); }
    if EncodeBody(p) == EncodeBody(q) && p != q { CollisionIsShadow(p, q); }
  }

  lemma CollisionIsShadow(p: seq<Byte>, q: seq<Byte>)
    requires EncodeBody(p) == EncodeBody(q) && p != q
    ensures Shadows(p, q) || Shadows(q, p)
  {
    match (Utf8.Decode(p), Utf8.Decode(q))
    case (Some(s), Some(t)) =>
      Utf8.DecodeThenEncode(p);
      Utf8.DecodeThenEncode(q);
    case (Some(s), None) =>
      Utf8.DecodeThenEncode(p);
    case (None, Some(t)) =>
      Utf8.DecodeThenEncode(q);
    case (None, None) =>
      Base64.EncodeThenDecode(p);
      Base64.EncodeThenDecode(q);
  }

  lemma BodyOfShadow(text: seq<Byte>, binary: seq<Byte>)
    requires Shadows(text, binary)
    ensures EncodeBody(text) == EncodeBody(binary) && text != binary
    ensures DecodeBody(EncodeBody(text)) == binary
  {
    Utf8.EncodeThenDecode(Base64.Encode(binary));
    DecodeBodyOf(Base64.Encode(binary));
  }

  // ---- the attributes ----------------------------------------------------------------------------

  const DEDUPLICATION_ID := "MessageDeduplicationId"
  const GROUP_ID := "MessageGroupId"

  /** `str(uuid)` and `UUID(text)`; parsing fails on text that is not a UUID. */
  datatype UuidText = UuidText(show: Uuid -> string, parse: string -> Option<Uuid>) {
    ghost predicate Lossless() {
      forall u: Uuid :: show(u) != "" && parse(show(u)) == Some(u)
    }
  }

  datatype Sent = Sent(
    body: string,
    attributes: map<string, string>,
    deduplicationId: Option<string>,
    groupId: Option<string>)

  /** `BadUuid` stands for the exception of a uuid attribute that is not a UUID. */
  datatype Receipt = Received(message: Message) | BadUuid

  function Find(m: map<string, string>, key: string): Option<string> {
    if key in m then Some(m[key]) else None
  }

  /** What a message is sent as: metadata that names the uuid attribute replaces the uuid. */
  function ToSqs(m: Message, t: UuidText, uuidKey: string): Sent {
    Sent(EncodeBody(m.payload),
         map[uuidKey := t.show(m.uuid)] + (m.metadata - {DEDUPLICATION_ID, GROUP_ID}),
         Find(m.metadata, DEDUPLICATION_ID),
         Find(m.metadata, GROUP_ID))
  }

  /** The `StringValue` of each attribute, which other types of attribute lack. */
  type Attributes = map<string, Option<string>>

  /** What arrives of attributes that are all strings. */
  function Arrived(attributes: map<string, string>): Attributes {
    map k | k in attributes :: Some(attributes[k])
  }

  function Strings(attributes: Attributes): map<string, string> {
    map k | k in attributes && attributes[k].Some? :: attributes[k].value
  }

  /** What is made of a body and the attributes; a missing or empty uuid is replaced by a fresh one. */
  function FromSqs(body: string, attributes: Attributes, t: UuidText, uuidKey: string, random: Uuid): Receipt {
    var text := if uuidKey in attributes && attributes[uuidKey].Some? then attributes[uuidKey].value else "";
    var uuid := if text == "" then Some(random) else t.parse(text);
    match uuid
    case None => BadUuid
    case Some(u) => Received(Message(u, DecodeBody(body), Strings(attributes) - {uuidKey}))
  }

  /** There is a uuid attribute, with a text in it. */
  predicate HasUuid(attributes: Attributes, uuidKey: string) {
    uuidKey in attributes && attributes[uuidKey].Some? && attributes[uuidKey].value != ""
  }

  /** The loop over the metadata, in any order of its keys. */
  method ToMessageAttributes(m: Message, t: UuidText, uuidKey: string)
    returns (attributes: map<string, string>, deduplicationId: Option<string>, groupId: Option<string>)
    ensures attributes == ToSqs(m, t, uuidKey).attributes
    ensures deduplicationId == ToSqs(m, t, uuidKey).deduplicationId
    ensures groupId == ToSqs(m, t, uuidKey).groupId
    ensures deduplicationId == if "MessageDeduplicationId" in m.metadata then Some(m.metadata["MessageDeduplicationId"])
                               else None
    ensures groupId == if "MessageGroupId" in m.metadata then Some(m.metadata["MessageGroupId"]) else None
    ensures forall key ::
      if key in m.metadata && key != "MessageDeduplicationId" && key != "MessageGroupId"
      then key in attributes && attributes[key] == m.metadata[key]
      else if key == uuidKey then key in attributes && attributes[key] == t.show(m.uuid)
      else key !in attributes
  {
    attributes := map[uuidKey := t.show(m.uuid)];
    deduplicationId, groupId := None, None;
    var todo := m.metadata.Keys;
    while todo != {}
      invariant todo <= m.metadata.Keys
      invariant var done := m.metadata - todo;
        && attributes == map[uuidKey := t.show(m.uuid)] + (done - {DEDUPLICATION_ID, GROUP_ID})
        && deduplicationId == Find(done, DEDUPLICATION_ID)
        && groupId == Find(done, GROUP_ID)
      decreases todo
    {
      var key :| key in todo;
      ghost var done := m.metadata - todo;
      todo := todo - {key};
      assert m.metadata - todo == done[key := m.metadata[key]];
      if key == DEDUPLICATION_ID {
        deduplicationId := Some(m.metadata[key]);
      } else if key == GROUP_ID {
        groupId := Some(m.metadata[key]);
      } else {
        attributes := attributes[key := m.metadata[key]];
      }
    }
    assert m.metadata - {} == m.metadata;
  }

  /** The loop over the attributes, in any order of their keys. */
  method FromSqsMessage(body: string, attributes: Attributes, t: UuidText, uuidKey: string, random: Uuid)
    returns (r: Receipt)
    ensures r == FromSqs(body, attributes, t, uuidKey, random)
    ensures r.BadUuid? <==> HasUuid(attributes, uuidKey) && t.parse(attributes[uuidKey].value) == None
    ensures r.Received? ==>
      && r.message.payload == DecodeBody(body)
      && (if HasUuid(attributes, uuidKey) then t.parse(attributes[uuidKey].value) == Some(r.message.uuid)
          else r.message.uuid == random)
      && forall key ::
           if key in attributes && attributes[key].Some? && key != uuidKey
           then key in r.message.metadata && r.message.metadata[key] == attributes[key].value
           else key !in r.message.metadata
  {
    var text := if uuidKey in attributes && attributes[uuidKey].Some? then attributes[uuidKey].value else "";
    var uuid := if text == "" then Some(random) else t.parse(text);
    if uuid.None? {
      return BadUuid;
    }
    var metadata: map<string, string> := map[];
    var todo := attributes.Keys;
    while todo != {}
      invariant todo <= attributes.Keys
      invariant metadata == Strings(attributes - todo) - {uuidKey}
      decreases todo
    {
      var key :| key in todo;
      ghost var done := attributes - todo;
      todo := todo - {key};
      assert attributes - todo == done[key := attributes[key]];
      if key != uuidKey && attributes[key].Some? {
        metadata := metadata[key := attributes[key].value];
      }
    }
    assert attributes - {} == attributes;
    return Received(Message(uuid.value, DecodeBody(body), metadata));
  }

  /**
   A message comes back as it was sent exactly when its payload does not look encoded already and its
   metadata uses none of the three reserved keys.
   */
  lemma MessageRoundTripIff(m: Message, t: UuidText, uuidKey: string, random: Uuid)
    requires t.Lossless()
    ensures var sent := ToSqs(m, t, uuidKey);
            FromSqs(sent.body, Arrived(sent.attributes), t, uuidKey, random) == Received(m) <==>
            !LooksEncoded(m.payload) && m.metadata.Keys !! {uuidKey, DEDUPLICATION_ID, GROUP_ID}
  {
    RoundTripIff(m.payload);
    MetadataRoundTripIff(m, t, uuidKey);
    assert Strings(Arrived(ToSqs(m, t, uuidKey).attributes)) == ToSqs(m, t, uuidKey).attributes;
    if m.metadata.Keys !! {uuidKey, DEDUPLICATION_ID, GROUP_ID} {
      assert ToSqs(m, t, uuidKey).attributes[uuidKey] == t.show(m.uuid);
    }
  }

  lemma MetadataRoundTripIff(m: Message, t: UuidText, uuidKey: string)
    ensures ToSqs(m, t, uuidKey).attributes - {uuidKey} == m.metadata <==>
            m.metadata.Keys !! {uuidKey, DEDUPLICATION_ID, GROUP_ID}
  {
  }
}
