/** Round trips of the wire codec: what the encoders write has the shape the decoders accept. */
module WireProofs {
  import opened Base
  import opened Encoding
  import opened Utf8
  import opened Attest
  import opened Json
  import opened Wire
  import opened Structs
  import opened WireAccepts

  // ---------------------------------------------------------------- what the encoders write

  /** A message made from a duplicate-free value reads back as json.Marshal wrote it. */
  lemma ReadEncoded(v: Value)
    requires DupFree(Marshalled(v)) && EncodeMessage(v).Ok?
    ensures ReadMessage(EncodeMessage(v).value) == Ok(Marshalled(v))
  {
    WalkWritten(Marshalled(v), []);
    ReadWritten(Marshalled(v), []);
  }

  /** An object that is written with its expected members has their shape, whatever case folding does. */
  lemma WrittenStruct(lib: Library, schema: Schema, ms: seq<Member>)
    requires Expected(schema, ms) && DistinctNames(ms)
    ensures IsStruct(lib, schema, Obj(ms), ms)
  {
    forall i | 0 <= i < |ms| ensures ms[i].name in schema {
      assert ms[i] in ms;
    }
    ExactShape(lib, schema, ms, ms);
  }

  lemma WrittenWrap(lib: Library, kind: string, data: Value)
    requires DupFree(data)
    ensures IsWrap(lib, Wrap(kind, data), kind, data) && DupFree(Wrap(kind, data))
  {
    hide GivesAll;
    var ms := Wrap(kind, data).members;
    assert ms[0].name == "type" && ms[1].name == "version" && ms[2].name == "data";
    assert DistinctNames(ms);
    WrittenStruct(lib, TYPED_SCHEMA, ms);
    assert DupFree(ms[0].value) && DupFree(ms[1].value);
  }

  lemma WrittenEnvelope(lib: Library, body: string, v: Value)
    requires body != "version" && DupFree(v)
    ensures IsEnvelope(lib, Envelope(body, v), body, v) && DupFree(Envelope(body, v))
  {
    hide GivesAll;
    var ms := Envelope(body, v).members;
    assert ms[0].name == "version" && ms[1].name == body;
    WrittenStruct(lib, EnvelopeSchema(body), ms);
    assert DupFree(ONE);
  }

  lemma MarshalledMembers(ms: seq<Member>)
    ensures Marshalled(Obj(ms)).Obj? && |Marshalled(Obj(ms)).members| == |ms|
    ensures forall i :: 0 <= i < |ms| ==>
              Marshalled(Obj(ms)).members[i] == Member(ms[i].name, Marshalled(ms[i].value))
  {
  }

  lemma MarshalledWrap(kind: string, data: Value)
    requires Plain(kind)
    ensures Marshalled(Wrap(kind, data)) == Wrap(kind, Marshalled(data))
  {
    PlainSurvives(kind);
    MarshalledMembers(Wrap(kind, data).members);
    assert Marshalled(Wrap(kind, data)).members == Wrap(kind, Marshalled(data)).members;
  }

  lemma MarshalledEnvelope(body: string, v: Value)
    ensures Marshalled(Envelope(body, v)) == Envelope(body, Marshalled(v))
  {
    MarshalledMembers(Envelope(body, v).members);
    assert Marshalled(Envelope(body, v)).members == Envelope(body, Marshalled(v)).members;
  }

  lemma MarshalledOneField(body: string, field: string, text: string)
    ensures Marshalled(OneField(body, field, text)) == OneField(body, field, Coerce(text))
  {
    var ms := [Member(field, Str(text))];
    MarshalledMembers(ms);
    assert Marshalled(Obj(ms)).members == [Member(field, Str(Coerce(text)))];
    MarshalledWrap(CONFIG_NONCE, Obj(ms));
    MarshalledEnvelope(body, Wrap(CONFIG_NONCE, Obj(ms)));
  }

  /** A one-field message decodes to the text that was put in, as json.Marshal writes it. */
  lemma OneFieldRoundTrip(lib: Library, body: string, field: string, text: string)
    requires body != "version" && text != ""
    requires EncodeMessage(OneField(body, field, text)).Ok?
    ensures DecodeOneField(lib, EncodeMessage(OneField(body, field, text)).value, body, field) == Ok(Coerce(text))
  {
    hide IsEnvelope, IsWrap, DecodeOneField, Marshalled;
    var data := Obj([Member(field, Str(Coerce(text)))]);
    var wrap := Wrap(CONFIG_NONCE, data);
    MarshalledOneField(body, field, text);
    WrittenStruct(lib, map[field := Text], data.members);
    WrittenWrap(lib, CONFIG_NONCE, data);
    WrittenEnvelope(lib, body, wrap);
    ReadEncoded(OneField(body, field, text));
    assert IsText(lib, data, field, Coerce(text));
    assert IsOneField(lib, OneField(body, field, Coerce(text)), body, field, Coerce(text));
    OneFieldAccepts(lib, EncodeMessage(OneField(body, field, text)).value, body, field, Coerce(text));
  }

  // ---------------------------------------------------------------- sizes

  lemma MembersSizeCons(m: Member, ms: seq<Member>)
    ensures MembersSize([m] + ms)
         == Quoted(m.name) + 1 + Size(m.value) + (if ms == [] then 0 else 1) + MembersSize(ms)
  {
    assert ([m] + ms)[1..] == ms;
  }

  lemma PairSize(a: Member, b: Member)
    ensures Size(Obj([a, b]))
         == 5 + Quoted(a.name) + Size(a.value) + Quoted(b.name) + Size(b.value)
  {
    MembersSizeCons(a, [b]);
    MembersSizeCons(b, []);
    assert [a] + [b] == [a, b] && [b] + [] == [b];
  }

  lemma TripleSize(a: Member, b: Member, c: Member)
    ensures Size(Obj([a, b, c]))
         == 7 + Quoted(a.name) + Size(a.value) + Quoted(b.name) + Size(b.value)
              + Quoted(c.name) + Size(c.value)
  {
    MembersSizeCons(a, [b, c]);
    MembersSizeCons(b, [c]);
    MembersSizeCons(c, []);
    assert [a] + [b, c] == [a, b, c] && [b] + [c] == [b, c] && [c] + [] == [c];
  }

  lemma {:induction false} PlainQuoted(s: string)
    requires Plain(s)
    ensures Quoted(s) == |s| + 2
  {
    if s != "" {
      assert IsPlain(s[0]);
      PlainQuoted(s[1..]);
    }
  }

  lemma FixedTextsQuoted()
    ensures Quoted("type") == 6 && Quoted("version") == 9 && Quoted("data") == 6
    ensures Quoted(CONFIG_NONCE) == 20 && Quoted(GUEST_CLAIMS) == 20
  {
    hide Quoted;
    PlainQuoted("type");
    PlainQuoted("version");
    PlainQuoted("data");
    PlainQuoted(CONFIG_NONCE);
    PlainQuoted(GUEST_CLAIMS);
  }

  /** The exact size of a one-field message around plain text. */
  lemma OneFieldSize(body: string, field: string, text: string)
    requires Plain(body) && Plain(field) && Plain(text)
    ensures Size(OneField(body, field, text)) == 73 + |body| + |field| + |text|
  {
    var data := Obj([Member(field, Str(text))]);
    MembersSizeCons(Member(field, Str(text)), []);
    assert [Member(field, Str(text))] + [] == [Member(field, Str(text))];
    PlainQuoted(body);
    PlainQuoted(field);
    PlainQuoted(text);
    FixedTextsQuoted();
    TripleSize(Member("type", Str(CONFIG_NONCE)), Member("version", ONE), Member("data", data));
    PairSize(Member("version", ONE), Member(body, Wrap(CONFIG_NONCE, data)));
  }

  // ---------------------------------------------------------------- challenge and response

  lemma KeyIsPlain(key: string)
    requires IsConfigKey(key)
    ensures Plain(key) && |key| == 58
  {
    assert |KEY_PREFIX| == 26 && Plain(KEY_PREFIX);
    forall i | 0 <= i < |key| ensures IsPlain(key[i]) {
      if i < |KEY_PREFIX| {
        assert key[i] == key[..|KEY_PREFIX|][i] == KEY_PREFIX[i];
      }
    }
  }

  /**
   * EncodeChallenge fails on the key grammar and on nothing else, never on size, and the challenge
   * decodes to the key.
   */
  lemma ChallengeRoundTrip(lib: Library, key: string)
    ensures EncodeChallenge(key).Ok? <==> IsConfigKey(key)
    ensures IsConfigKey(key) ==> DecodeChallenge(lib, EncodeChallenge(key).value) == Ok(key)
  {
    if IsConfigKey(key) {
      hide Size, OneField, Marshalled, DecodeOneField, IsConfigKey, Coerce;
      KeyIsPlain(key);
      PlainSurvives(key);
      assert Plain("challenge") && Plain("config_key");
      OneFieldSize("challenge", "config_key", key);
      OneFieldRoundTrip(lib, "challenge", "config_key", key);
    }
  }

  lemma NonceIsPlain(nonce: Nonce)
    ensures Plain(NonceText(nonce)) && |NonceText(nonce)| == 22
    ensures Plain("response") && Plain("nonce")
  {
    EncodedLength(nonce);
    EncodeIsPlain(nonce);
  }

  /** Every nonce has a response message, and it decodes to that nonce. */
  lemma ResponseRoundTrip(lib: Library, nonce: Nonce)
    ensures EncodeResponse(nonce).Ok?
    ensures DecodeResponse(lib, EncodeResponse(nonce).value) == Ok(nonce)
  {
    hide Size, OneField, Marshalled, DecodeOneField, Coerce, NonceText, ParseNonce, Plain;
    var text := NonceText(nonce);
    NonceIsPlain(nonce);
    PlainSurvives(text);
    OneFieldSize("response", "nonce", text);
    OneFieldRoundTrip(lib, "response", "nonce", text);
    ParseNonceExact(text, nonce);
  }

  // ---------------------------------------------------------------- payload

  /** The claims as they come out at the other end: canonical UUID, every text as json.Marshal wrote it. */
  function Carried(c: Claims, id: string): Claims {
    Claims(Coerce(c.project), Coerce(c.name), id, Coerce(c.kind), Coerce(c.location), Coerce(c.cloudInitID))
  }

  /** Every text of the claims is valid UTF-8. */
  predicate ValidTexts(c: Claims) {
    ValidUtf8(c.project) && ValidUtf8(c.name) && ValidUtf8(c.kind) && ValidUtf8(c.location) && ValidUtf8(c.cloudInitID)
  }

  lemma ListExpected(c: Claims, raw: string)
    ensures Expected(DATA_SCHEMA, ClaimsList(c, raw)) && DistinctNames(ClaimsList(c, raw))
    ensures DupFree(Obj(ClaimsList(c, raw)))
  {
    var ms := ClaimsList(c, raw);
    forall m ensures m in ms ==> m.name in DATA_SCHEMA && Storable(DATA_SCHEMA[m.name], m.value) && m.value.Str? {
      InClaimsList(c, raw, m);
    }
    forall name | name in DATA_SCHEMA && DATA_SCHEMA[name] == Text ensures exists m :: m in ms && m.name == name {
      var v := if name == "instance_name" then c.name else if name == "instance_type" then c.kind
               else if name == "uuid" then raw else if name == "location" then c.location else c.cloudInitID;
      InClaimsList(c, raw, Member(name, Str(v)));
      assert Member(name, Str(v)) in ms;
    }
    ListNames(c, raw);
    forall i | 0 <= i < |ms| ensures DupFree(ms[i].value) {
      assert ms[i] in ms;
    }
  }

  lemma ListNames(c: Claims, raw: string)
    ensures DistinctNames(ClaimsList(c, raw))
  {
    var ms := ClaimsList(c, raw);
    var n := |ms|;
    assert ms[0].name == "instance_name" && ms[n - 4].name == "instance_type" && ms[n - 3].name == "uuid"
        && ms[n - 2].name == "location" && ms[n - 1].name == "cloud_init_id";
    assert c.project != "" ==> ms[1].name == "project";
  }

  lemma MarshalledClaims(c: Claims, id: string)
    requires Plain(id)
    ensures Marshalled(Obj(ClaimsList(c, id))) == Obj(ClaimsList(Carried(c, id), id))
  {
    PlainSurvives(id);
    MarshalledMembers(ClaimsList(c, id));
    assert Marshalled(Obj(ClaimsList(c, id))).members == ClaimsList(Carried(c, id), id);
  }

  /** What the server reads of a payload. */
  lemma MarshalledPayload(c: Claims, id: string)
    requires Plain(id)
    ensures Marshalled(PayloadTree(c, id)) == PayloadTree(Carried(c, id), id)
  {
    var data := Obj(ClaimsList(c, id));
    var item := Wrap(GUEST_CLAIMS, data);
    MarshalledClaims(c, id);
    MarshalledWrap(GUEST_CLAIMS, data);
    assert Marshalled(Arr([item])).items == [Marshalled(item)];
    MarshalledEnvelope("evidence", Arr([item]));
  }

  /** EncodePayload succeeds exactly on claims with a UUID, the four required texts, and a size in bounds. */
  lemma PayloadEncodes(lib: Library, c: Claims)
    requires Contract(lib)
    ensures EncodePayload(lib, c).Ok? <==>
              && c.uuid != "" && lib.parseUUID(c.uuid).Some?
              && c.name != "" && c.kind != "" && c.location != "" && c.cloudInitID != ""
              && Size(PayloadTree(c, lib.parseUUID(c.uuid).value)) <= 65536
    ensures EncodePayload(lib, c).Err? ==> EncodePayload(lib, c) == Err(Error({Invalid}))
  {
  }

  lemma CarriedUnchanged(c: Claims, id: string)
    ensures Carried(c, id) == c.(uuid := id) <==> ValidTexts(c)
  {
    CoerceKeepsValid(c.project);
    CoerceKeepsValid(c.name);
    CoerceKeepsValid(c.kind);
    CoerceKeepsValid(c.location);
    CoerceKeepsValid(c.cloudInitID);
  }

  /** A payload tree has the shape of a payload with its claims. */
  lemma WrittenPayload(lib: Library, c: Claims, id: string)
    requires id != "" && lib.parseUUID(id) == Some(c.uuid)
    requires c.name != "" && c.kind != "" && c.location != "" && c.cloudInitID != ""
    ensures IsPayload(lib, PayloadTree(c, id), c) && DupFree(PayloadTree(c, id))
  {
    hide IsEnvelope, IsWrap, ClaimsList, GivesAll;
    var data := Obj(ClaimsList(c, id));
    var item := Wrap(GUEST_CLAIMS, data);
    var evidence := Arr([item]);
    ListExpected(c, id);
    WrittenStruct(lib, DATA_SCHEMA, data.members);
    WrittenWrap(lib, GUEST_CLAIMS, data);
    assert DupFree(evidence);
    WrittenEnvelope(lib, "evidence", evidence);
    assert IsClaims(lib, data, c, id);
  }

  /**
   * An encoded payload always decodes, with the canonical UUID and an empty project as absent. The
   * claims are otherwise the original ones exactly when all their texts are valid UTF-8.
   */
  lemma PayloadRoundTrip(lib: Library, c: Claims)
    requires Contract(lib) && EncodePayload(lib, c).Ok?
    ensures var id := lib.parseUUID(c.uuid).value;
            var decoded := DecodePayload(lib, EncodePayload(lib, c).value);
      && decoded == Ok(Carried(c, id))
      && (decoded == Ok(c.(uuid := id)) <==> ValidTexts(c))
      && (c.project == "" ==> decoded.value.project == "")
  {
    hide IsPayload, DecodePayload, Coerce, ValidTexts, Marshalled;
    var id := lib.parseUUID(c.uuid).value;
    MarshalledPayload(c, id);
    WrittenPayload(lib, Carried(c, id), id);
    ReadEncoded(PayloadTree(c, id));
    PayloadAccepts(lib, EncodePayload(lib, c).value, Carried(c, id));
    CarriedUnchanged(c, id);
  }

  /** Claims of a VM with this name, the rest being fixed. */
  function Named(name: string, uuid: string): Claims {
    Claims("", name, uuid, VIRTUAL_MACHINE, "none", "i-1")
  }

  /** A name that does not come back: the single byte 0xFF. */
  function Latin(uuid: string): Claims { Named([0xFF as char], uuid) }

  /** They are encoded, whatever the UUID, and decode to another name. */
  lemma InvalidUtf8DoesNotComeBack(lib: Library, uuid: string)
    requires Contract(lib) && uuid != "" && lib.parseUUID(uuid).Some?
    ensures EncodePayload(lib, Latin(uuid)).Ok?
    ensures var id := lib.parseUUID(uuid).value;
            var decoded := DecodePayload(lib, EncodePayload(lib, Latin(uuid)).value);
      decoded.Ok? && decoded.value.name == REPLACEMENT && decoded != Ok(Latin(uuid).(uuid := id))
  {
    var c, id := Latin(uuid), lib.parseUUID(uuid).value;
    LatinByte();
    NamedSize([0xFF as char], uuid, id);
    PayloadEncodes(lib, c);
    hide DecodePayload, EncodePayload;
    PayloadRoundTrip(lib, c);
  }

  lemma LatinByte()
    ensures Quoted([0xFF as char]) == 8
    ensures Coerce([0xFF as char]) == REPLACEMENT
  {
    var s := [0xFF as char];
    assert RuneLen(s) == 0 && s[1..] == "";
    assert Escaped(s) == 6 + Escaped(s[1..]);
    assert Coerce(s) == REPLACEMENT + Coerce(s[1..]);
  }

  lemma NamedSize(name: string, uuid: string, id: string)
    requires Plain(id) && |id| == UUID_LEN
    ensures Size(PayloadTree(Named(name, uuid), id)) == 214 + Quoted(name)
  {
    hide Size, Quoted;
    PayloadSize(Named(name, uuid), id);
    PlainQuoted(VIRTUAL_MACHINE);
    PlainQuoted("none");
    PlainQuoted("i-1");
    PlainQuoted(id);
  }

  lemma ClaimNamesQuoted()
    ensures Quoted("instance_name") == 15 && Quoted("project") == 9 && Quoted("instance_type") == 15
    ensures Quoted("uuid") == 6 && Quoted("location") == 10 && Quoted("cloud_init_id") == 15
    ensures Quoted("evidence") == 10
  {
    hide Quoted;
    PlainQuoted("instance_name");
    PlainQuoted("project");
    PlainQuoted("instance_type");
    PlainQuoted("uuid");
    PlainQuoted("location");
    PlainQuoted("cloud_init_id");
    PlainQuoted("evidence");
  }

  lemma ClaimsSize(c: Claims, id: string)
    ensures Size(Obj(ClaimsList(c, id)))
         == 72 + Quoted(c.name) + Quoted(c.kind) + Quoted(id) + Quoted(c.location) + Quoted(c.cloudInitID)
            + (if c.project == "" then 0 else 11 + Quoted(c.project))
  {
    hide Quoted;
    ClaimNamesQuoted();
    var name, kind := Member("instance_name", Str(c.name)), Member("instance_type", Str(c.kind));
    var uuid, location := Member("uuid", Str(id)), Member("location", Str(c.location));
    var cloud, project := Member("cloud_init_id", Str(c.cloudInitID)), Member("project", Str(c.project));
    MembersSizeCons(cloud, []);
    MembersSizeCons(location, [cloud] + []);
    MembersSizeCons(uuid, [location] + ([cloud] + []));
    var rest := [kind] + ([uuid] + ([location] + ([cloud] + [])));
    MembersSizeCons(kind, [uuid] + ([location] + ([cloud] + [])));
    if c.project == "" {
      MembersSizeCons(name, rest);
      assert ClaimsList(c, id) == [name] + rest;
    } else {
      MembersSizeCons(project, rest);
      MembersSizeCons(name, [project] + rest);
      assert ClaimsList(c, id) == [name] + ([project] + rest);
    }
  }

  /** The exact size of a payload: whether claims fit depends on the quoted length of their texts alone. */
  lemma PayloadSize(c: Claims, id: string)
    ensures Size(PayloadTree(c, id))
         == 148 + Quoted(c.name) + Quoted(c.kind) + Quoted(id) + Quoted(c.location) + Quoted(c.cloudInitID)
            + (if c.project == "" then 0 else 11 + Quoted(c.project))
  {
    hide Quoted, ClaimsList;
    ClaimsSize(c, id);
    FixedTextsQuoted();
    ClaimNamesQuoted();
    var data := Obj(ClaimsList(c, id));
    TripleSize(Member("type", Str(GUEST_CLAIMS)), Member("version", ONE), Member("data", data));
    var item := Wrap(GUEST_CLAIMS, data);
    assert Size(Arr([item])) == 2 + Size(item) by {
      assert [item][1..] == [];
      assert ItemsSize([item]) == Size(item) + ItemsSize([]);
    }
    PairSize(Member("version", ONE), Member("evidence", Arr([item])));
  }

  // ---------------------------------------------------------------- decoding and encoding again

  /** json.Decoder's contract on the texts it returns: whatever was escaped or invalid, they are valid UTF-8. */
  predicate TokensUtf8(ts: seq<Token>) {
    forall i :: 0 <= i < |ts| ==> ts[i].StringTok? ==> ValidUtf8(ts[i].s)
  }

  predicate TreeUtf8(v: Value)
    decreases v
  {
    match v
    case Lit(_) => true
    case Str(s) => ValidUtf8(s)
    case Arr(items) => forall i :: 0 <= i < |items| ==> TreeUtf8(items[i])
    case Obj(ms) => forall i :: 0 <= i < |ms| ==> TreeUtf8(ms[i].value)
  }

  lemma {:induction false} TreeTexts(v: Value, rest: seq<Token>)
    requires TokensUtf8(Write(v, rest))
    ensures TreeUtf8(v) && TokensUtf8(rest)
    decreases v
  {
    var ts := Write(v, rest);
    match v
    case Lit(_) => forall i | 0 <= i < |rest| ensures rest[i] == ts[i + 1] {}
    case Str(s) => assert ts[0] == StringTok(s); forall i | 0 <= i < |rest| ensures rest[i] == ts[i + 1] {}
    case Arr(items) =>
      var tail := WriteItems(items, rest);
      forall i | 0 <= i < |tail| ensures tail[i] == ts[i + 1] {}
      ItemsTexts(items, rest);
    case Obj(ms) =>
      var tail := WriteMembers(ms, rest);
      forall i | 0 <= i < |tail| ensures tail[i] == ts[i + 1] {}
      MembersTexts(ms, rest);
  }

  lemma {:induction false} ItemsTexts(vs: seq<Value>, rest: seq<Token>)
    requires TokensUtf8(WriteItems(vs, rest))
    ensures (forall i :: 0 <= i < |vs| ==> TreeUtf8(vs[i])) && TokensUtf8(rest)
    decreases vs
  {
    var ts := WriteItems(vs, rest);
    if vs == [] {
      forall i | 0 <= i < |rest| ensures rest[i] == ts[i + 1] {}
    } else {
      TreeTexts(vs[0], WriteItems(vs[1..], rest));
      ItemsTexts(vs[1..], rest);
      forall i | 0 < i < |vs| ensures vs[i] == vs[1..][i - 1] {}
    }
  }

  lemma {:induction false} MembersTexts(ms: seq<Member>, rest: seq<Token>)
    requires TokensUtf8(WriteMembers(ms, rest))
    ensures (forall i :: 0 <= i < |ms| ==> TreeUtf8(ms[i].value)) && TokensUtf8(rest)
    decreases ms
  {
    var ts := WriteMembers(ms, rest);
    if ms == [] {
      forall i | 0 <= i < |rest| ensures rest[i] == ts[i + 1] {}
    } else {
      var tail := Write(ms[0].value, WriteMembers(ms[1..], rest));
      forall i | 0 <= i < |tail| ensures tail[i] == ts[i + 1] {}
      TreeTexts(ms[0].value, WriteMembers(ms[1..], rest));
      MembersTexts(ms[1..], rest);
      forall i | 0 < i < |ms| ensures ms[i] == ms[1..][i - 1] {}
    }
  }

  lemma GivenTexts(lib: Library, schema: Schema, v: Value, expected: seq<Member>)
    requires IsStruct(lib, schema, v, expected) && TreeUtf8(v)
    ensures forall m :: m in expected ==> TreeUtf8(m.value)
  {
    hide GivesAll;
    forall m | m in expected ensures TreeUtf8(m.value) {
      GivenText(lib, schema, v, expected, m);
    }
  }

  lemma GivenText(lib: Library, schema: Schema, v: Value, expected: seq<Member>, m: Member)
    requires IsStruct(lib, schema, v, expected) && TreeUtf8(v) && m in expected
    ensures TreeUtf8(m.value)
  {
    assert Gives(lib, schema, v.members, m.name, m.value);
  }

  lemma ClaimsTexts(lib: Library, data: Value, c: Claims, raw: string)
    requires IsStruct(lib, DATA_SCHEMA, data, ClaimsList(c, raw)) && TreeUtf8(data)
    ensures ValidTexts(c)
  {
    hide GivesAll, ValidUtf8, ClaimsList, IsStruct;
    GivenTexts(lib, DATA_SCHEMA, data, ClaimsList(c, raw));
    InClaimsList(c, raw, Member("instance_name", Str(c.name)));
    InClaimsList(c, raw, Member("instance_type", Str(c.kind)));
    InClaimsList(c, raw, Member("location", Str(c.location)));
    InClaimsList(c, raw, Member("cloud_init_id", Str(c.cloudInitID)));
    InClaimsList(c, raw, Member("project", Str(c.project)));
    assert TreeUtf8(Str(c.name)) && TreeUtf8(Str(c.kind)) && TreeUtf8(Str(c.location)) && TreeUtf8(Str(c.cloudInitID));
    EmptyIsValid();
    assert c.project != "" ==> TreeUtf8(Str(c.project));
  }

  /** The claims of a payload whose texts are valid are valid. */
  lemma PayloadTexts(lib: Library, v: Value, c: Claims)
    requires IsPayload(lib, v, c) && TreeUtf8(v)
    ensures ValidTexts(c)
    ensures c.name != "" && c.kind != "" && c.location != "" && c.cloudInitID != ""
    ensures exists raw :: raw != "" && lib.parseUUID(raw) == Some(c.uuid)
  {
    hide GivesAll, ValidTexts, ClaimsList;
    var item, data, raw :|
      IsEnvelope(lib, v, "evidence", Arr([item])) && IsWrap(lib, item, GUEST_CLAIMS, data)
      && IsClaims(lib, data, c, raw);
    var envelope, wrap := Envelope("evidence", Arr([item])).members, Wrap(GUEST_CLAIMS, data).members;
    assert envelope[1] in envelope && wrap[2] in wrap;
    GivenText(lib, EnvelopeSchema("evidence"), v, envelope, envelope[1]);
    assert TreeUtf8(Arr([item]).items[0]);
    GivenText(lib, TYPED_SCHEMA, item, wrap, wrap[2]);
    ClaimsTexts(lib, data, c, raw);
  }

  lemma EmptyIsValid()
    ensures ValidUtf8("")
  {
  }

  /**
   * Whatever DecodePayload accepts is a strict message and carries every required claim, a canonical
   * UUID and valid texts. It can be encoded again exactly when it still fits, the size then being that
   * of PayloadSize, and decoding that gives the same claims.
   */
  lemma DecodedPayload(lib: Library, m: Message)
    requires Contract(lib) && DecodePayload(lib, m).Ok? && TokensUtf8(m.tokens)
    ensures var c := DecodePayload(lib, m).value;
      && Strict(m) && ValidTexts(c)
      && c.name != "" && c.kind != "" && c.location != "" && c.cloudInitID != ""
      && lib.parseUUID(c.uuid) == Some(c.uuid)
      && (EncodePayload(lib, c).Ok? <==> Size(PayloadTree(c, c.uuid)) <= 65536)
      && (EncodePayload(lib, c).Ok? ==> DecodePayload(lib, EncodePayload(lib, c).value) == Ok(c))
  {
    hide DecodePayload, IsPayload, ReadMessage, ValidTexts, Size, Marshalled;
    var c := DecodePayload(lib, m).value;
    PayloadAccepts(lib, m, c);
    ReadIsStrict(m);
    TreeTexts(ReadMessage(m).value, []);
    PayloadTexts(lib, ReadMessage(m).value, c);
    PayloadEncodes(lib, c);
    if EncodePayload(lib, c).Ok? {
      PayloadRoundTrip(lib, c);
    }
  }

  /** A text that takes one byte a character in a message and six when it is written by json.Marshal. */
  function Brackets(n: nat): (s: string)
    ensures |s| == n
  {
    if n == 0 then "" else "<" + Brackets(n - 1)
  }

  lemma {:induction false} BracketsEscaped(n: nat)
    ensures Escaped(Brackets(n)) == 6 * n
  {
    if n > 0 {
      assert Brackets(n)[1..] == Brackets(n - 1);
      BracketsEscaped(n - 1);
    }
  }

  /** A payload named by n brackets that are written as they are: 214 bytes, two quotes, and one for each. */
  function BracketMessage(uuid: string, n: nat): Message {
    Message(216 + n, true, Tokens(PayloadTree(Named(Brackets(n), uuid), uuid)), true)
  }

  /** It is accepted, within the bound, and what it says cannot be encoded within the bound. */
  lemma AcceptedButTooLarge(lib: Library, uuid: string, n: nat)
    requires Contract(lib) && uuid != "" && lib.parseUUID(uuid) == Some(uuid)
    requires 10887 <= n <= 65320
    ensures DecodePayload(lib, BracketMessage(uuid, n)) == Ok(Named(Brackets(n), uuid))
    ensures EncodePayload(lib, Named(Brackets(n), uuid)) == Err(Error({Invalid}))
  {
    var c, m := Named(Brackets(n), uuid), BracketMessage(uuid, n);
    BracketsEscaped(n);
    hide Brackets, IsPayload, DecodePayload, DupFree, Size, Tokens, Plain;
    NamedSize(Brackets(n), uuid, uuid);
    WrittenPayload(lib, c, uuid);
    TreeIsRead(m, PayloadTree(c, uuid));
    PayloadAccepts(lib, m, c);
  }

  /** The tokens of a duplicate-free tree in a message within bounds read as that tree. */
  lemma TreeIsRead(m: Message, v: Value)
    requires m.size <= 65536 && m.validUtf8 && m.clean && m.tokens == Tokens(v) && DupFree(v)
    ensures ReadMessage(m) == Ok(v)
  {
    WalkWritten(v, []);
    ReadWritten(v, []);
  }

  /** A response whose data gives the nonce twice: under its own name, and under another one. */
  function TwiceGiven(name: string, first: Nonce, second: Nonce): Value {
    Envelope("response", Wrap(CONFIG_NONCE,
                              Obj([Member("nonce", Str(NonceText(first))), Member(name, Str(NonceText(second)))])))
  }

  /** If the other name folds to the field, the message is accepted, and the nonce given last counts. */
  lemma LastVariantCounts(lib: Library, m: Message, name: string, first: Nonce, second: Nonce)
    requires name != "nonce" && lib.folded({"nonce"}, name) == Some("nonce")
    requires m.size <= 65536 && m.validUtf8 && m.clean && m.tokens == Tokens(TwiceGiven(name, first, second))
    ensures DecodeResponse(lib, m) == Ok(second)
  {
    hide NonceText, DecodeResponse, IsEnvelope, IsWrap, Tokens;
    var data := Obj([Member("nonce", Str(NonceText(first))), Member(name, Str(NonceText(second)))]);
    assert DupFree(data);
    WrittenWrap(lib, CONFIG_NONCE, data);
    WrittenEnvelope(lib, "response", Wrap(CONFIG_NONCE, data));
    TwiceIsText(lib, name, NonceText(first), NonceText(second));
    assert IsOneField(lib, TwiceGiven(name, first, second), "response", "nonce", NonceText(second));
    TreeIsRead(m, TwiceGiven(name, first, second));
    ResponseAccepts(lib, m, second);
  }

  lemma TwiceIsText(lib: Library, name: string, first: string, second: string)
    requires name != "nonce" && lib.folded({"nonce"}, name) == Some("nonce")
    ensures IsText(lib, Obj([Member("nonce", Str(first)), Member(name, Str(second))]), "nonce", second)
  {
    var ms, schema: Schema := [Member("nonce", Str(first)), Member(name, Str(second))], map["nonce" := Text];
    assert schema.Keys == {"nonce"};
    assert FieldFor(lib, schema, ms[1].name) == Some("nonce");
    assert LastUnder(lib, schema, ms, "nonce", 1);
    assert Gives(lib, schema, ms, "nonce", Str(second));
  }

  /** Whatever the other two decoders accept is strict, and encoding it again gives a message that agrees. */
  lemma DecodedOthers(lib: Library, m: Message)
    ensures DecodeChallenge(lib, m).Ok? ==>
      var key := DecodeChallenge(lib, m).value;
      && Strict(m) && EncodeChallenge(key).Ok?
      && DecodeChallenge(lib, EncodeChallenge(key).value) == DecodeChallenge(lib, m)
    ensures DecodeResponse(lib, m).Ok? ==>
      var nonce := DecodeResponse(lib, m).value;
      && Strict(m) && EncodeResponse(nonce).Ok?
      && DecodeResponse(lib, EncodeResponse(nonce).value) == DecodeResponse(lib, m)
  {
    hide DecodeChallenge, DecodeResponse, EncodeChallenge, EncodeResponse, ReadMessage, IsConfigKey, IsOneField;
    ReadIsStrict(m);
    if DecodeChallenge(lib, m).Ok? {
      ChallengeAccepts(lib, m, DecodeChallenge(lib, m).value);
      ChallengeRoundTrip(lib, DecodeChallenge(lib, m).value);
    }
    if DecodeResponse(lib, m).Ok? {
      ResponseAccepts(lib, m, DecodeResponse(lib, m).value);
      ResponseRoundTrip(lib, DecodeResponse(lib, m).value);
    }
  }

  // ---------------------------------------------------------------- the messages, token by token

  lemma WriteText(s: string, rest: seq<Token>)
    ensures Write(Str(s), rest) == [StringTok(s)] + rest && Write(ONE, rest) == [ScalarTok(Num(Integer(1)))] + rest
  {
  }

  lemma WriteMember(m: Member, ms: seq<Member>, rest: seq<Token>)
    ensures WriteMembers([m] + ms, rest) == [StringTok(m.name)] + Write(m.value, WriteMembers(ms, rest))
    ensures WriteMembers([], rest) == [CloseObject] + rest
  {
    assert ([m] + ms)[1..] == ms;
  }

  /** The tokens of a wrapper, spelled out, around those of its data. */
  function WrapTokens(kind: string, data: seq<Token>): seq<Token> {
    [OpenObject, StringTok("type"), StringTok(kind), StringTok("version"), ScalarTok(Num(Integer(1))),
     StringTok("data")]
    + data + [CloseObject]
  }

  lemma WriteObject(ms: seq<Member>, rest: seq<Token>)
    ensures Write(Obj(ms), rest) == [OpenObject] + WriteMembers(ms, rest)
  {
  }

  lemma WrapIsSpelled(kind: string, data: Value, rest: seq<Token>)
    ensures Write(Wrap(kind, data), rest) == WrapTokens(kind, Tokens(data)) + rest
  {
    hide Write, WriteMembers;
    var a, b, c := Member("type", Str(kind)), Member("version", ONE), Member("data", data);
    assert Wrap(kind, data) == Obj([a] + ([b] + ([c] + [])));
    WriteObject([a] + ([b] + ([c] + [])), rest);
    WriteMember(a, [b] + ([c] + []), rest);
    WriteMember(b, [c] + [], rest);
    WriteMember(c, [], rest);
    WriteText(kind, WriteMembers([b] + ([c] + []), rest));
    WriteText("", WriteMembers([c] + [], rest));
    WriteConcatenates(data, [], [CloseObject] + rest);
    assert [] + ([CloseObject] + rest) == [CloseObject] + rest;
  }

  function EnvelopeTokens(body: string, inner: seq<Token>): seq<Token> {
    [OpenObject, StringTok("version"), ScalarTok(Num(Integer(1))), StringTok(body)] + inner + [CloseObject]
  }

  lemma EnvelopeIsSpelled(body: string, v: Value)
    ensures Tokens(Envelope(body, v)) == EnvelopeTokens(body, Tokens(v))
  {
    var a, b := Member("version", ONE), Member(body, v);
    assert Envelope(body, v).members == [a] + ([b] + []);
    WriteMember(a, [b] + [], []);
    WriteMember(b, [], []);
    WriteText("", WriteMembers([b] + [], []));
    WriteConcatenates(v, [], [CloseObject] + []);
    assert [] + ([CloseObject] + []) == [CloseObject] + [];
  }

  lemma FieldIsSpelled(field: string, text: string)
    ensures Tokens(Obj([Member(field, Str(text))])) == [OpenObject, StringTok(field), StringTok(text), CloseObject]
  {
    var m := Member(field, Str(text));
    assert [m] == [m] + [];
    WriteMember(m, [], []);
    WriteText(text, WriteMembers([], []));
  }

  lemma OneFieldIsSpelled(body: string, field: string, text: string)
    ensures Tokens(OneField(body, field, text))
         == EnvelopeTokens(body, WrapTokens("incus-config-nonce",
                                            [OpenObject, StringTok(field), StringTok(text), CloseObject]))
  {
    hide Write;
    var data := Obj([Member(field, Str(text))]);
    FieldIsSpelled(field, text);
    WrapIsSpelled(CONFIG_NONCE, data, []);
    EnvelopeIsSpelled(body, Wrap(CONFIG_NONCE, data));
  }

  /** A challenge, token by token: every name and constant of the format, spelled out. */
  lemma ChallengeIsSpelled(key: string)
    requires IsConfigKey(key)
    ensures EncodeChallenge(key).Ok?
    ensures EncodeChallenge(key).value.tokens
         == EnvelopeTokens("challenge", WrapTokens("incus-config-nonce",
                                                   [OpenObject, StringTok("config_key"), StringTok(key), CloseObject]))
  {
    hide Size, OneField, Marshalled, Write, IsConfigKey, Coerce;
    KeyIsPlain(key);
    PlainSurvives(key);
    assert Plain("challenge") && Plain("config_key");
    OneFieldSize("challenge", "config_key", key);
    MarshalledOneField("challenge", "config_key", key);
    OneFieldIsSpelled("challenge", "config_key", key);
  }

  /** And a response. */
  lemma ResponseIsSpelled(nonce: Nonce)
    ensures EncodeResponse(nonce).Ok?
    ensures EncodeResponse(nonce).value.tokens
         == EnvelopeTokens("response", WrapTokens("incus-config-nonce",
                             [OpenObject, StringTok("nonce"), StringTok(Base64Encode(nonce)), CloseObject]))
  {
    hide Size, OneField, Marshalled, Write, Coerce, Plain, Base64Encode;
    NonceIsPlain(nonce);
    PlainSurvives(NonceText(nonce));
    OneFieldSize("response", "nonce", NonceText(nonce));
    MarshalledOneField("response", "nonce", NonceText(nonce));
    OneFieldIsSpelled("response", "nonce", NonceText(nonce));
  }

  /** The tokens of a claims object. */
  function ClaimsTokens(c: Claims, id: string): seq<Token> {
    [OpenObject, StringTok("instance_name"), StringTok(c.name)]
    + (if c.project == "" then [] else [StringTok("project"), StringTok(c.project)])
    + [StringTok("instance_type"), StringTok(c.kind), StringTok("uuid"), StringTok(id),
       StringTok("location"), StringTok(c.location), StringTok("cloud_init_id"), StringTok(c.cloudInitID), CloseObject]
  }

  lemma ClaimsAreSpelled(c: Claims, id: string)
    ensures Tokens(Obj(ClaimsList(c, id))) == ClaimsTokens(c, id)
  {
    var name, project := Member("instance_name", Str(c.name)), Member("project", Str(c.project));
    var rest := [Member("instance_type", Str(c.kind)), Member("uuid", Str(id)),
                 Member("location", Str(c.location)), Member("cloud_init_id", Str(c.cloudInitID))];
    RestIsSpelled(c, id);
    hide WriteMembers;
    if c.project == "" {
      TextIsWritten("instance_name", c.name, rest);
      assert ClaimsList(c, id) == [name] + rest;
    } else {
      TextIsWritten("project", c.project, rest);
      TextIsWritten("instance_name", c.name, [project] + rest);
      assert ClaimsList(c, id) == [name] + ([project] + rest);
    }
  }

  lemma RestIsSpelled(c: Claims, id: string)
    ensures WriteMembers([Member("instance_type", Str(c.kind)), Member("uuid", Str(id)),
                          Member("location", Str(c.location)), Member("cloud_init_id", Str(c.cloudInitID))], [])
         == [StringTok("instance_type"), StringTok(c.kind), StringTok("uuid"), StringTok(id), StringTok("location"),
             StringTok(c.location), StringTok("cloud_init_id"), StringTok(c.cloudInitID), CloseObject]
  {
    hide WriteMembers, Write;
    var kind, uuid := Member("instance_type", Str(c.kind)), Member("uuid", Str(id));
    var location, cloud := Member("location", Str(c.location)), Member("cloud_init_id", Str(c.cloudInitID));
    assert [kind, uuid, location, cloud] == [kind] + ([uuid] + ([location] + ([cloud] + [])));
    TextIsWritten("cloud_init_id", c.cloudInitID, []);
    TextIsWritten("location", c.location, [cloud] + []);
    TextIsWritten("uuid", id, [location] + ([cloud] + []));
    TextIsWritten("instance_type", c.kind, [uuid] + ([location] + ([cloud] + [])));
    WriteMember(cloud, [], []);
  }

  lemma TextIsWritten(name: string, text: string, ms: seq<Member>)
    ensures WriteMembers([Member(name, Str(text))] + ms, [])
         == [StringTok(name), StringTok(text)] + WriteMembers(ms, [])
  {
    WriteMember(Member(name, Str(text)), ms, []);
    WriteText(text, WriteMembers(ms, []));
  }

  /** A payload, token by token, around the claims as json.Marshal writes them. */
  lemma PayloadIsSpelled(lib: Library, c: Claims)
    requires Contract(lib) && EncodePayload(lib, c).Ok?
    ensures var id := lib.parseUUID(c.uuid).value;
      EncodePayload(lib, c).value.tokens
      == EnvelopeTokens("evidence",
           [OpenArray] + WrapTokens("incus-guest-claims", ClaimsTokens(Carried(c, id), id)) + [CloseArray])
  {
    var id := lib.parseUUID(c.uuid).value;
    var w := Carried(c, id);
    var data := Obj(ClaimsList(w, id));
    var item := Wrap(GUEST_CLAIMS, data);
    assert PayloadTree(w, id) == Envelope("evidence", Arr([item]));
    hide Write, Size, Coerce, Marshalled, ClaimsTokens, EnvelopeTokens, WrapTokens, ClaimsList, Wrap, Envelope;
    MarshalledPayload(c, id);
    ClaimsAreSpelled(w, id);
    WrapIsSpelled(GUEST_CLAIMS, data, []);
    ItemIsSpelled(item);
    EnvelopeIsSpelled("evidence", Arr([item]));
  }

  lemma ItemIsSpelled(item: Value)
    ensures Tokens(Arr([item])) == [OpenArray] + Tokens(item) + [CloseArray]
  {
    assert [item][1..] == [];
    assert WriteItems([item], []) == Write(item, WriteItems([], []));
    assert WriteItems([], []) == [] + [CloseArray];
    WriteConcatenates(item, [], [CloseArray]);
  }
}
