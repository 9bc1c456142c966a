/** The strict v1 codec: payload, challenge and response messages. */
module Wire {
  import opened Base
  import opened Encoding
  import opened Utf8
  import opened Attest
  import opened Json

  const MAX_MESSAGE_SIZE := 65536
  const GUEST_CLAIMS := "incus-guest-claims"
  const CONFIG_NONCE := "incus-config-nonce"
  const UUID_LEN := 36

  /** The parts of the Go libraries that the codec relies on and that this model leaves abstract. */
  datatype Library = Library(
    parseUUID: UuidParser,
    folded: (set<string>, string) -> Option<string>)     // case-insensitive field lookup, tried after the exact one

  predicate IsPlain(c: char) {
    Sextet(c).Some? || c == '.'
  }

  /** ASCII text that JSON writes as it is. */
  predicate Plain(s: string) {
    forall i :: 0 <= i < |s| ==> IsPlain(s[i])
  }

  ghost predicate Contract(lib: Library) {
    && UuidContract(lib.parseUUID)
    && (forall s :: lib.parseUUID(s).Some? ==> Plain(lib.parseUUID(s).value) && |lib.parseUUID(s).value| == UUID_LEN)
  }

  lemma PlainSurvives(s: string)
    requires Plain(s)
    ensures ValidUtf8(s) && Coerce(s) == s
  {
    AsciiIsValid(s);
    CoerceKeepsValid(s);
  }

  /** The bytes of a message: what the size, UTF-8 and syntax checks and the token reader see of them. */
  datatype Message = Message(size: nat, validUtf8: bool, tokens: seq<Token>, clean: bool)

  // ---------------------------------------------------------------- writing

  function Digits(n: int): nat
    decreases if n < 0 then 1 - n else n
  {
    if n < 0 then 1 + Digits(-n) else if n < 10 then 1 else 1 + Digits(n / 10)
  }

  function ScalarSize(s: Scalar): nat {
    match s
    case Null => 4
    case Bool(b) => if b then 4 else 5
    case Num(Integer(n)) => Digits(n)
    case Num(Fractional) => 3
  }

  /** Bytes of the front of a string, up to the first character or invalid byte, inside a JSON literal. */
  function EscapedHead(s: string): nat
    requires s != ""
  {
    var c := s[0] as int;
    if c >= 0x80 then
      if RuneLen(s) == 0 || IsLineSeparator(s) then 6 else RuneLen(s)
    else if s[0] in {'"', '\\', '\n', '\r', '\t'} || c in {8, 12} then 2
    else if c < 0x20 || s[0] in {'<', '>', '&'} then 6
    else 1
  }

  /** U+2028 and U+2029, which json.Marshal escapes. */
  predicate IsLineSeparator(s: string) {
    |s| >= 3 && s[0] as int == 0xE2 && s[1] as int == 0x80 && s[2] as int in {0xA8, 0xA9}
  }

  function Escaped(s: string): nat {
    if s == "" then 0
    else EscapedHead(s) + Escaped(s[if RuneLen(s) == 0 then 1 else RuneLen(s)..])
  }

  /** Bytes of a string as json.Marshal writes it. */
  function Quoted(s: string): nat { 2 + Escaped(s) }

  /** Bytes of the compact encoding. */
  function Size(v: Value): nat
    decreases v
  {
    match v
    case Lit(s) => ScalarSize(s)
    case Str(s) => Quoted(s)
    case Arr(items) => 2 + ItemsSize(items)
    case Obj(members) => 2 + MembersSize(members)
  }

  function ItemsSize(vs: seq<Value>): nat
    decreases vs
  {
    if vs == [] then 0
    else Size(vs[0]) + (if |vs| > 1 then 1 else 0) + ItemsSize(vs[1..])
  }

  function MembersSize(ms: seq<Member>): nat
    decreases ms
  {
    if ms == [] then 0
    else Quoted(ms[0].name) + 1 + Size(ms[0].value)
         + (if |ms| > 1 then 1 else 0) + MembersSize(ms[1..])
  }

  /** The value whose tokens json.Marshal writes: every text as it will be read back. */
  function Marshalled(v: Value): Value
    decreases v
  {
    match v
    case Lit(_) => v
    case Str(s) => Str(Coerce(s))
    case Arr(items) => Arr(seq(|items|, i requires 0 <= i < |items| => Marshalled(items[i])))
    case Obj(ms) => Obj(seq(|ms|, i requires 0 <= i < |ms| => Member(ms[i].name, Marshalled(ms[i].value))))
  }

  function EncodeMessage(v: Value): Result<Message, Error> {
    if Size(v) > MAX_MESSAGE_SIZE then Err(Fail(Invalid)) else Ok(Message(Size(v), true, Tokens(Marshalled(v)), true))
  }

  // ---------------------------------------------------------------- strict reading

  /** decodeRaw and the read that follows: one bounded, duplicate-free value and nothing else. */
  function ReadMessage(m: Message): Result<Value, Error> {
    if m.size > MAX_MESSAGE_SIZE || !m.validUtf8 then Err(Fail(Invalid))
    else if !m.clean || WalkValue(m.tokens) != Some([]) then Err(Fail(Invalid))
    else
      WalkReads(m.tokens);
      Ok(ReadValue(m.tokens).value.0)
  }

  /** decodeRaw, with the walker's own loops, and the read that follows. */
  method DecodeMessage(m: Message) returns (r: Result<Value, Error>)
    ensures r == ReadMessage(m)
  {
    if m.size > MAX_MESSAGE_SIZE {
      return Err(Fail(Invalid));
    }
    if !m.validUtf8 {
      return Err(Fail(Invalid));
    }
    var ok := RejectDuplicateNames(m.tokens, m.clean);
    if !ok {
      return Err(Fail(Invalid));
    }
    WalkReads(m.tokens);
    return Ok(ReadValue(m.tokens).value.0);
  }

  /** The Go types a struct field may have. */
  datatype Kind = Text | TextRef | IntRef | Raw

  type Schema = map<string, Kind>

  predicate FitsInt64(n: int) { -0x8000_0000_0000_0000 <= n < 0x8000_0000_0000_0000 }

  /** Whether a value can be stored in a field of this kind. */
  predicate Storable(kind: Kind, v: Value) {
    v == Lit(Null) ||
    match kind
    case Text => v.Str?
    case TextRef => v.Str?
    case IntRef => v.Lit? && v.scalar.Num? && v.scalar.num.Integer? && FitsInt64(v.scalar.num.n)
    case Raw => true
  }

  function FieldFor(lib: Library, schema: Schema, name: string): Option<string> {
    if name in schema then Some(name)
    else
      match lib.folded(schema.Keys, name)
      case Some(f) => if f in schema then Some(f) else None
      case None => None
  }

  /** One member after the other, later ones overwriting; null leaves a plain string field alone. */
  function Store(lib: Library, schema: Schema, ms: seq<Member>, into: map<string, Value>)
    : (r: Result<map<string, Value>, Error>)
    requires Typed(schema, into)
    ensures r.Ok? ==> Typed(schema, r.value)
    decreases ms
  {
    if ms == [] then Ok(into)
    else
      match FieldFor(lib, schema, ms[0].name)
      case None => Err(Fail(Invalid))
      case Some(f) =>
        if !Storable(schema[f], ms[0].value) then Err(Fail(Invalid))
        else if schema[f] == Text && ms[0].value == Lit(Null) then Store(lib, schema, ms[1..], into)
        else Store(lib, schema, ms[1..], into[f := ms[0].value])
  }

  ghost predicate Typed(schema: Schema, fields: map<string, Value>) {
    forall f :: f in fields ==> f in schema && Storable(schema[f], fields[f])
                                && (schema[f] == Text ==> fields[f].Str?)
  }

  /** decodeStrict into a struct. */
  function DecodeStruct(lib: Library, schema: Schema, v: Value): (r: Result<map<string, Value>, Error>)
    ensures r.Ok? ==> Typed(schema, r.value)
  {
    match v
    case Obj(members) => Store(lib, schema, members, map[])
    case Lit(Null) => Ok(map[])
    case _ => Err(Fail(Invalid))
  }

  /** decodeStrict into a string. */
  function DecodeText(v: Value): Result<string, Error> {
    match v
    case Str(s) => Ok(s)
    case Lit(Null) => Ok("")
    case _ => Err(Fail(Invalid))
  }

  /** decodeStrict into a list of raw values. */
  function DecodeList(v: Value): Result<seq<Value>, Error> {
    match v
    case Arr(items) => Ok(items)
    case Lit(Null) => Ok([])
    case _ => Err(Fail(Invalid))
  }

  function Field(fields: map<string, Value>, name: string): Option<Value> {
    if name in fields then Some(fields[name]) else None
  }

  function TextField(fields: map<string, Value>, name: string): string {
    if name in fields && fields[name].Str? then fields[name].text else ""
  }

  function RequireVersion(v: Option<Value>): Option<Error> {
    if v.None? || v.value == Lit(Null) then Some(Fail(Invalid))
    else if v.value != Lit(Num(Integer(1))) then Some(Fail(Unsupported)) else None
  }

  function RequireType(v: Option<Value>, want: string): Option<Error> {
    if v.None? || v.value == Lit(Null) || v.value == Str("") then Some(Fail(Invalid))
    else if v.value != Str(want) then Some(Fail(Unsupported)) else None
  }

  const TYPED_SCHEMA: Schema := map["type" := TextRef, "version" := IntRef, "data" := Raw]

  /** decodeTypedObject: the data of a type/version wrapper. */
  function DecodeTyped(lib: Library, v: Option<Value>, want: string): Result<Value, Error> {
    if v.None? then Err(Fail(Invalid))
    else
      match DecodeStruct(lib, TYPED_SCHEMA, v.value)
      case Err(e) => Err(e)
      case Ok(fields) => TypedData(Field(fields, "type"), Field(fields, "version"), Field(fields, "data"), want)
  }

  function TypedData(kind: Option<Value>, version: Option<Value>, data: Option<Value>, want: string)
    : Result<Value, Error>
  {
    match (RequireType(kind, want), RequireVersion(version), data)
    case (Some(e), _, _) => Err(e)
    case (None, Some(e), _) => Err(e)
    case (None, None, None) => Err(Fail(Invalid))
    case (None, None, Some(d)) => Ok(d)
  }

  /** The outer envelope with its one body field. */
  function DecodeEnvelope(lib: Library, m: Message, body: string): Result<Option<Value>, Error> {
    match ReadMessage(m)
    case Err(e) => Err(e)
    case Ok(v) =>
      match DecodeStruct(lib, map["version" := IntRef][body := Raw], v)
      case Err(e) => Err(e)
      case Ok(fields) =>
        match RequireVersion(Field(fields, "version"))
        case Some(e) => Err(e)
        case None => Ok(Field(fields, body))
  }

  // ---------------------------------------------------------------- challenge and response

  const ONE := Lit(Num(Integer(1)))

  function Wrap(kind: string, data: Value): Value {
    Obj([Member("type", Str(kind)), Member("version", ONE), Member("data", data)])
  }

  function Envelope(body: string, v: Value): Value {
    Obj([Member("version", ONE), Member(body, v)])
  }

  /** An envelope whose wrapped body holds one text field; the challenge and the response have this shape. */
  function OneField(body: string, field: string, text: string): Value {
    Envelope(body, Wrap(CONFIG_NONCE, Obj([Member(field, Str(text))])))
  }

  function DecodeOneField(lib: Library, m: Message, body: string, field: string): Result<string, Error> {
    match DecodeEnvelope(lib, m, body)
    case Err(e) => Err(e)
    case Ok(v) =>
      match DecodeTyped(lib, v, CONFIG_NONCE)
      case Err(e) => Err(e)
      case Ok(data) =>
        match DecodeStruct(lib, map[field := Text], data)
        case Err(e) => Err(e)
        case Ok(fields) =>
          var text := TextField(fields, field);
          if text == "" then Err(Fail(Invalid)) else Ok(text)
  }

  function EncodeChallenge(key: string): Result<Message, Error> {
    if !IsConfigKey(key) then Err(Fail(Invalid))
    else EncodeMessage(OneField("challenge", "config_key", key))
  }

  function DecodeChallenge(lib: Library, m: Message): Result<string, Error> {
    match DecodeOneField(lib, m, "challenge", "config_key")
    case Err(e) => Err(e)
    case Ok(key) => if IsConfigKey(key) then Ok(key) else Err(Fail(Invalid))
  }

  function NonceText(nonce: Nonce): string { Base64Encode(nonce) }

  function EncodeResponse(nonce: Nonce): Result<Message, Error> {
    EncodeMessage(OneField("response", "nonce", NonceText(nonce)))
  }

  function DecodeResponse(lib: Library, m: Message): Result<Nonce, Error> {
    match DecodeOneField(lib, m, "response", "nonce")
    case Err(e) => Err(e)
    case Ok(text) => ParseNonce(text)
  }

  /** ParseNonce: the length check, the strict decoder, then the exact byte count. */
  function ParseNonce(raw: string): Result<Nonce, Error> {
    if |raw| != EncodedLen(NONCE_SIZE) then Err(Fail(Invalid))
    else
      match Base64Decode(raw)
      case None => Err(Fail(Invalid))
      case Some(bs) =>
        match NewNonce(bs)
        case None => Err(Fail(Invalid))
        case Some(nonce) => Ok(nonce)
  }

  /** ParseNonce accepts exactly the image of the encoder on 16 bytes, and inverts it. */
  lemma ParseNonceExact(s: string, nonce: Nonce)
    ensures ParseNonce(s) == Ok(nonce) <==> s == NonceText(nonce)
  {
    EncodedLength(nonce);
    if |s| == EncodedLen(NONCE_SIZE) {
      Base64Exact(s, nonce);
    }
  }

  // ---------------------------------------------------------------- payload

  const DATA_SCHEMA: Schema :=
    map["instance_name" := Text, "project" := Raw, "instance_type" := Text,
        "uuid" := Text, "location" := Text, "cloud_init_id" := Text]

  function PayloadUUID(lib: Library, raw: string): Result<string, Error> {
    if raw == "" then Err(Fail(Invalid))
    else
      match lib.parseUUID(raw)
      case Some(id) => Ok(id)
      case None => Err(Fail(Invalid))
  }

  /** The members of a claims object; project,omitempty: an empty hint is not written. */
  function ClaimsList(c: Claims, id: string): seq<Member> {
    [Member("instance_name", Str(c.name))]
    + (if c.project == "" then [] else [Member("project", Str(c.project))])
    + [Member("instance_type", Str(c.kind)), Member("uuid", Str(id)),
       Member("location", Str(c.location)), Member("cloud_init_id", Str(c.cloudInitID))]
  }

  function PayloadTree(c: Claims, id: string): Value {
    Envelope("evidence", Arr([Wrap(GUEST_CLAIMS, Obj(ClaimsList(c, id)))]))
  }

  function EncodePayload(lib: Library, c: Claims): Result<Message, Error> {
    match PayloadUUID(lib, c.uuid)
    case Err(e) => Err(e)
    case Ok(id) =>
      if c.name == "" || c.kind == "" || c.location == "" || c.cloudInitID == "" then Err(Fail(Invalid))
      else EncodeMessage(PayloadTree(c, id))
  }

  function DecodeClaims(lib: Library, data: Value): Result<Claims, Error> {
    match DecodeStruct(lib, DATA_SCHEMA, data)
    case Err(e) => Err(e)
    case Ok(fields) => ClaimsFromFields(lib, fields)
  }

  function ClaimsFromFields(lib: Library, fields: map<string, Value>): Result<Claims, Error> {
    var name, kind := TextField(fields, "instance_name"), TextField(fields, "instance_type");
    var location, cloud := TextField(fields, "location"), TextField(fields, "cloud_init_id");
    if name == "" || kind == "" || location == "" || cloud == "" then Err(Fail(Invalid))
    else
      match PayloadUUID(lib, TextField(fields, "uuid"))
      case Err(e) => Err(e)
      case Ok(id) =>
        match Field(fields, "project")
        case None => Ok(Claims("", name, id, kind, location, cloud))
        case Some(p) =>
          match DecodeText(p)
          case Err(e) => Err(e)
          case Ok(project) =>
            if project == "" then Err(Fail(Invalid))
            else Ok(Claims(project, name, id, kind, location, cloud))
  }

  function DecodePayload(lib: Library, m: Message): Result<Claims, Error> {
    match DecodeEnvelope(lib, m, "evidence")
    case Err(e) => Err(e)
    case Ok(None) => Err(Fail(Invalid))
    case Ok(Some(evidence)) =>
      match DecodeList(evidence)
      case Err(e) => Err(e)
      case Ok(items) =>
        if |items| != 1 then Err(Fail(Invalid))
        else
          match DecodeTyped(lib, Some(items[0]), GUEST_CLAIMS)
          case Err(e) => Err(e)
          case Ok(data) => DecodeClaims(lib, data)
  }

  /** How json.Marshal writes the front of a text: two bytes, an escape of six, or the character as it is. */
  lemma EscapesExactly(s: string)
    requires s != ""
    ensures var (c, n) := (s[0] as int, EscapedHead(s));
      && (c in {8, 9, 10, 12, 13, 34, 92} ==> n == 2)
      && (c < 32 && c !in {8, 9, 10, 12, 13} ==> n == 6)
      && (c in {38, 60, 62} ==> n == 6)
      && (32 <= c < 128 && c !in {34, 38, 60, 62, 92} ==> n == 1)
      && (c >= 128 && RuneLen(s) == 0 ==> n == 6)
      && (c >= 128 && RuneLen(s) > 0 && s[..RuneLen(s)] !in {EncodeRune(0x2028), EncodeRune(0x2029)} ==>
            n == RuneLen(s))
      && (|s| >= 3 && s[..3] in {EncodeRune(0x2028), EncodeRune(0x2029)} ==> n == 6)
  {
    assert EncodeRune(0x2028) == [0xE2 as char, 0x80 as char, 0xA8 as char];
    assert EncodeRune(0x2029) == [0xE2 as char, 0x80 as char, 0xA9 as char];
    if |s| >= 3 {
      assert s[..3] == [s[0], s[1], s[2]];
    }
  }
}
