/**
 * Exactly which messages the strict decoders accept, the case variants of field names included: each
 * struct gives its expected fields, later members over earlier ones, and nothing else fits in.
 */
module WireAccepts {
  import opened Base
  import opened Encoding
  import opened Attest
  import opened Json
  import opened Wire
  import opened Structs

  // ---------------------------------------------------------------- strict reading

  /** The message is within bounds and is one duplicate-free JSON value and nothing else. */
  ghost predicate Strict(m: Message) {
    && m.size <= 65536 && m.validUtf8 && m.clean
    && exists v :: DupFree(v) && m.tokens == Tokens(v)
  }

  lemma ReadIsStrict(m: Message)
    ensures ReadMessage(m).Ok? <==> Strict(m)
    ensures ReadMessage(m).Ok? ==> DupFree(ReadMessage(m).value) && m.tokens == Tokens(ReadMessage(m).value)
    ensures ReadMessage(m).Err? ==> ReadMessage(m) == Err(Error({Invalid}))
  {
    WalkerAccepts(m.tokens, []);
    assert forall v :: Tokens(v) + [] == Tokens(v);
    if ReadMessage(m).Ok? {
      WalkReads(m.tokens);
      ReadConsumes(m.tokens);
      WalkWritten(ReadMessage(m).value, []);
    }
  }

  /** The object gives exactly the expected fields of the struct. */
  ghost predicate IsStruct(lib: Library, schema: Schema, v: Value, expected: seq<Member>) {
    v.Obj? && GivesAll(lib, schema, v.members, expected)
  }

  /** Without case variants that means: exactly the expected members, in some order. */
  lemma ExactStruct(lib: Library, schema: Schema, v: Value, expected: seq<Member>)
    requires DupFree(v) && Expected(schema, expected) && (v.Obj? ==> ExactFor(lib, schema, v.members))
    ensures IsStruct(lib, schema, v, expected) <==> v.Obj? && SameMembers(v.members, expected)
  {
    if v.Obj? {
      ExactShape(lib, schema, v.members, expected);
    }
  }

  // ---------------------------------------------------------------- the type/version wrapper

  ghost predicate IsWrap(lib: Library, v: Value, kind: string, data: Value) {
    IsStruct(lib, TYPED_SCHEMA, v, Wrap(kind, data).members)
  }

  lemma WrapGives(lib: Library, ms: seq<Member>, kind: string, data: Value)
    ensures GivesAll(lib, TYPED_SCHEMA, ms, Wrap(kind, data).members) <==>
              && AllStorable(lib, TYPED_SCHEMA, ms)
              && Gives(lib, TYPED_SCHEMA, ms, "type", Str(kind)) && Gives(lib, TYPED_SCHEMA, ms, "version", ONE)
              && Gives(lib, TYPED_SCHEMA, ms, "data", data)
  {
    hide AllStorable, Gives, Omits;
    var expected := Wrap(kind, data).members;
    assert expected[0] in expected && expected[1] in expected && expected[2] in expected;
  }

  /** decodeTypedObject returns data exactly on a wrapper of the wanted type and version 1 around it. */
  lemma TypedAccepts(lib: Library, v: Value, kind: string, data: Value)
    requires kind != ""
    ensures DecodeTyped(lib, Some(v), kind) == Ok(data) <==> IsWrap(lib, v, kind, data)
  {
    hide AllStorable, Gives, Omits, KeptFields, GivesAll;
    if v.Obj? {
      StructAccepts(lib, TYPED_SCHEMA, v.members);
      WrapGives(lib, v.members, kind, data);
    }
  }

  /** It reports unsupported exactly for a nonempty other type, or the right type with another version. */
  lemma TypedUnsupported(lib: Library, v: Value, kind: string)
    requires kind != ""
    ensures DecodeTyped(lib, Some(v), kind) == Err(Error({Unsupported})) <==>
              && v.Obj? && AllStorable(lib, TYPED_SCHEMA, v.members)
              && ((exists k :: k != "" && k != kind && Gives(lib, TYPED_SCHEMA, v.members, "type", Str(k)))
                  || (Gives(lib, TYPED_SCHEMA, v.members, "type", Str(kind))
                      && exists n :: n != 1 && Gives(lib, TYPED_SCHEMA, v.members, "version", Lit(Num(Integer(n))))))
    ensures DecodeTyped(lib, Some(v), kind).Err? ==>
              DecodeTyped(lib, Some(v), kind).error in {Error({Invalid}), Error({Unsupported})}
  {
    hide AllStorable, Gives, Omits, KeptFields;
    if v.Obj? {
      var ms := v.members;
      StructAccepts(lib, TYPED_SCHEMA, ms);
      if AllStorable(lib, TYPED_SCHEMA, ms) {
        var fields := KeptFields(lib, TYPED_SCHEMA, ms);
        var type', version := Field(fields, "type"), Field(fields, "version");
        assert Typed(TYPED_SCHEMA, fields);
        assert type'.Some? && type'.value.Str? ==> Gives(lib, TYPED_SCHEMA, ms, "type", Str(type'.value.text));
        assert version.Some? && version.value != Lit(Null) ==>
          Gives(lib, TYPED_SCHEMA, ms, "version", Lit(Num(Integer(version.value.scalar.num.n))));
      }
    }
  }

  // ---------------------------------------------------------------- the envelope

  function EnvelopeSchema(body: string): Schema { map["version" := IntRef][body := Raw] }

  ghost predicate IsEnvelope(lib: Library, v: Value, body: string, inner: Value) {
    IsStruct(lib, EnvelopeSchema(body), v, Envelope(body, inner).members)
  }

  lemma EnvelopeGives(lib: Library, ms: seq<Member>, body: string, inner: Value)
    requires body != "version"
    ensures var schema := EnvelopeSchema(body);
            GivesAll(lib, schema, ms, Envelope(body, inner).members) <==>
              && AllStorable(lib, schema, ms)
              && Gives(lib, schema, ms, "version", ONE) && Gives(lib, schema, ms, body, inner)
  {
    hide AllStorable, Gives, Omits;
    var expected := Envelope(body, inner).members;
    assert expected[0] in expected && expected[1] in expected;
  }

  /** The envelope is accepted with a body exactly when it gives version 1 and that body. */
  lemma EnvelopeAccepts(lib: Library, m: Message, body: string, inner: Value)
    requires body != "version"
    ensures DecodeEnvelope(lib, m, body) == Ok(Some(inner)) <==>
              ReadMessage(m).Ok? && IsEnvelope(lib, ReadMessage(m).value, body, inner)
  {
    hide AllStorable, Gives, Omits, KeptFields, GivesAll, ReadMessage;
    if ReadMessage(m).Ok? && ReadMessage(m).value.Obj? {
      var ms := ReadMessage(m).value.members;
      StructAccepts(lib, EnvelopeSchema(body), ms);
      EnvelopeGives(lib, ms, body, inner);
    }
  }

  /** It is unsupported exactly when it is strict and fits but gives another version number. */
  lemma EnvelopeUnsupported(lib: Library, m: Message, body: string)
    requires body != "version"
    ensures DecodeEnvelope(lib, m, body) == Err(Error({Unsupported})) <==>
              && ReadMessage(m).Ok? && ReadMessage(m).value.Obj?
              && AllStorable(lib, EnvelopeSchema(body), ReadMessage(m).value.members)
              && exists n :: n != 1 && Gives(lib, EnvelopeSchema(body), ReadMessage(m).value.members,
                                             "version", Lit(Num(Integer(n))))
    ensures DecodeEnvelope(lib, m, body).Err? ==>
              DecodeEnvelope(lib, m, body).error in {Error({Invalid}), Error({Unsupported})}
  {
    hide AllStorable, Gives, Omits, KeptFields, ReadMessage;
    ReadIsStrict(m);
    if ReadMessage(m).Ok? && ReadMessage(m).value.Obj? {
      var ms, schema := ReadMessage(m).value.members, EnvelopeSchema(body);
      StructAccepts(lib, schema, ms);
      if AllStorable(lib, schema, ms) {
        var version := Field(KeptFields(lib, schema, ms), "version");
        assert Typed(schema, KeptFields(lib, schema, ms));
        assert version.Some? && version.value != Lit(Null) ==>
          Gives(lib, schema, ms, "version", Lit(Num(Integer(version.value.scalar.num.n))));
      }
    }
  }

  // ---------------------------------------------------------------- challenge and response

  ghost predicate IsText(lib: Library, v: Value, field: string, text: string) {
    IsStruct(lib, map[field := Text], v, [Member(field, Str(text))])
  }

  lemma TextAccepts(lib: Library, v: Value, field: string, text: string)
    requires text != ""
    ensures DecodeStruct(lib, map[field := Text], v).Ok?
            && TextField(DecodeStruct(lib, map[field := Text], v).value, field) == text
       <==> IsText(lib, v, field, text)
  {
    hide AllStorable, Gives, Omits, KeptFields;
    if v.Obj? {
      StructAccepts(lib, map[field := Text], v.members);
      assert [Member(field, Str(text))][0] in [Member(field, Str(text))];
    }
  }

  /** The envelope around the config-nonce wrapper around the one text. */
  ghost predicate IsOneField(lib: Library, v: Value, body: string, field: string, text: string) {
    exists wrap, data ::
      IsEnvelope(lib, v, body, wrap) && IsWrap(lib, wrap, CONFIG_NONCE, data) && IsText(lib, data, field, text)
  }

  /** A text is decoded exactly from the strict messages of that shape. */
  lemma OneFieldAccepts(lib: Library, m: Message, body: string, field: string, text: string)
    requires body != "version" && text != ""
    ensures DecodeOneField(lib, m, body, field) == Ok(text) <==>
              ReadMessage(m).Ok? && IsOneField(lib, ReadMessage(m).value, body, field, text)
  {
    hide DecodeEnvelope, DecodeTyped, DecodeStruct, IsEnvelope, IsWrap, IsText, ReadMessage;
    forall wrap ensures DecodeEnvelope(lib, m, body) == Ok(Some(wrap)) <==>
                          ReadMessage(m).Ok? && IsEnvelope(lib, ReadMessage(m).value, body, wrap) {
      EnvelopeAccepts(lib, m, body, wrap);
    }
    forall wrap, data ensures DecodeTyped(lib, Some(wrap), CONFIG_NONCE) == Ok(data) <==>
                                IsWrap(lib, wrap, CONFIG_NONCE, data) {
      TypedAccepts(lib, wrap, CONFIG_NONCE, data);
    }
    forall data ensures DecodeStruct(lib, map[field := Text], data).Ok?
                        && TextField(DecodeStruct(lib, map[field := Text], data).value, field) == text
                   <==> IsText(lib, data, field, text) {
      TextAccepts(lib, data, field, text);
    }
    NoBody(lib);
    if DecodeOneField(lib, m, body, field) == Ok(text) {
      var wrap := DecodeEnvelope(lib, m, body).value.value;
      var data := DecodeTyped(lib, Some(wrap), CONFIG_NONCE).value;
      assert IsText(lib, data, field, text);
    }
    if ReadMessage(m).Ok? && IsOneField(lib, ReadMessage(m).value, body, field, text) {
      var wrap, data :| IsEnvelope(lib, ReadMessage(m).value, body, wrap) && IsWrap(lib, wrap, CONFIG_NONCE, data)
                        && IsText(lib, data, field, text);
      assert DecodeEnvelope(lib, m, body) == Ok(Some(wrap)) && DecodeTyped(lib, Some(wrap), CONFIG_NONCE) == Ok(data);
    }
  }

  lemma NoBody(lib: Library)
    ensures DecodeTyped(lib, None, CONFIG_NONCE).Err?
  {
  }

  /** DecodeChallenge accepts exactly the strict messages of this shape whose text is a challenge key. */
  lemma ChallengeAccepts(lib: Library, m: Message, key: string)
    ensures DecodeChallenge(lib, m) == Ok(key) <==>
              && IsConfigKey(key) && ReadMessage(m).Ok?
              && IsOneField(lib, ReadMessage(m).value, "challenge", "config_key", key)
  {
    hide DecodeOneField, ReadMessage, IsOneField;
    if key != "" {
      OneFieldAccepts(lib, m, "challenge", "config_key", key);
    }
  }

  /** DecodeResponse accepts exactly the strict messages of this shape whose text encodes the nonce. */
  lemma ResponseAccepts(lib: Library, m: Message, nonce: Nonce)
    ensures DecodeResponse(lib, m) == Ok(nonce) <==>
              ReadMessage(m).Ok? && IsOneField(lib, ReadMessage(m).value, "response", "nonce", NonceText(nonce))
  {
    hide DecodeOneField, ReadMessage, IsOneField, ParseNonce;
    NonceTextNonempty(nonce);
    OneFieldAccepts(lib, m, "response", "nonce", NonceText(nonce));
    if DecodeResponse(lib, m) == Ok(nonce) {
      ParseNonceExact(DecodeOneField(lib, m, "response", "nonce").value, nonce);
    }
    ParseNonceExact(NonceText(nonce), nonce);
  }

  lemma NonceTextNonempty(nonce: Nonce)
    ensures NonceText(nonce) != ""
  {
    EncodedLength(nonce);
  }

  // ---------------------------------------------------------------- payload

  lemma InClaimsList(c: Claims, raw: string, m: Member)
    ensures m in ClaimsList(c, raw) <==>
      || m == Member("instance_name", Str(c.name)) || m == Member("instance_type", Str(c.kind))
      || m == Member("uuid", Str(raw)) || m == Member("location", Str(c.location))
      || m == Member("cloud_init_id", Str(c.cloudInitID))
      || (c.project != "" && m == Member("project", Str(c.project)))
  {
    var name := [Member("instance_name", Str(c.name))];
    var hint := if c.project == "" then [] else [Member("project", Str(c.project))];
    var texts := [Member("instance_type", Str(c.kind)), Member("uuid", Str(raw)),
                  Member("location", Str(c.location)), Member("cloud_init_id", Str(c.cloudInitID))];
    assert m in name + hint + texts <==> m in name || m in hint || m in texts;
  }

  /** A claims object for c, whose UUID is written as raw. */
  ghost predicate IsClaims(lib: Library, v: Value, c: Claims, raw: string) {
    && IsStruct(lib, DATA_SCHEMA, v, ClaimsList(c, raw))
    && c.name != "" && c.kind != "" && c.location != "" && c.cloudInitID != ""
    && raw != "" && lib.parseUUID(raw) == Some(c.uuid)
  }

  lemma ClaimsGive(lib: Library, ms: seq<Member>, c: Claims, raw: string)
    ensures GivesAll(lib, DATA_SCHEMA, ms, ClaimsList(c, raw)) <==>
              && AllStorable(lib, DATA_SCHEMA, ms)
              && Gives(lib, DATA_SCHEMA, ms, "instance_name", Str(c.name))
              && Gives(lib, DATA_SCHEMA, ms, "instance_type", Str(c.kind))
              && Gives(lib, DATA_SCHEMA, ms, "uuid", Str(raw))
              && Gives(lib, DATA_SCHEMA, ms, "location", Str(c.location))
              && Gives(lib, DATA_SCHEMA, ms, "cloud_init_id", Str(c.cloudInitID))
              && (if c.project == "" then Omits(lib, DATA_SCHEMA, ms, "project")
                  else Gives(lib, DATA_SCHEMA, ms, "project", Str(c.project)))
  {
    hide AllStorable, Gives, Omits, ClaimsList;
    forall m ensures m in ClaimsList(c, raw) <==>
      || m == Member("instance_name", Str(c.name)) || m == Member("instance_type", Str(c.kind))
      || m == Member("uuid", Str(raw)) || m == Member("location", Str(c.location))
      || m == Member("cloud_init_id", Str(c.cloudInitID))
      || (c.project != "" && m == Member("project", Str(c.project))) {
      InClaimsList(c, raw, m);
    }
    assert Member("instance_name", Str(c.name)) in ClaimsList(c, raw);
    assert Member("instance_type", Str(c.kind)) in ClaimsList(c, raw);
    assert Member("uuid", Str(raw)) in ClaimsList(c, raw);
    assert Member("location", Str(c.location)) in ClaimsList(c, raw);
    assert Member("cloud_init_id", Str(c.cloudInitID)) in ClaimsList(c, raw);
    assert c.project != "" ==> Member("project", Str(c.project)) in ClaimsList(c, raw);
    assert forall name :: name in DATA_SCHEMA <==>
      name in {"instance_name", "project", "instance_type", "uuid", "location", "cloud_init_id"};
  }

  lemma ClaimsAccept(lib: Library, v: Value, c: Claims)
    ensures DecodeClaims(lib, v) == Ok(c) <==> exists raw :: IsClaims(lib, v, c, raw)
  {
    if v.Obj? {
      ClaimsOnlyIf(lib, v.members, c);
      forall raw | IsClaims(lib, v, c, raw) ensures DecodeClaims(lib, v) == Ok(c) {
        ClaimsIf(lib, v.members, c, raw);
      }
    }
  }

  lemma ClaimsOnlyIf(lib: Library, ms: seq<Member>, c: Claims)
    ensures DecodeClaims(lib, Obj(ms)) == Ok(c) ==> exists raw :: IsClaims(lib, Obj(ms), c, raw)
  {
    hide AllStorable, Gives, Omits, KeptFields, GivesAll;
    StructAccepts(lib, DATA_SCHEMA, ms);
    if DecodeClaims(lib, Obj(ms)) == Ok(c) {
      var raw := TextField(KeptFields(lib, DATA_SCHEMA, ms), "uuid");
      ClaimsGive(lib, ms, c, raw);
      assert IsClaims(lib, Obj(ms), c, raw);
    }
  }

  lemma ClaimsIf(lib: Library, ms: seq<Member>, c: Claims, raw: string)
    requires IsClaims(lib, Obj(ms), c, raw)
    ensures DecodeClaims(lib, Obj(ms)) == Ok(c)
  {
    hide AllStorable, Gives, Omits, KeptFields, GivesAll;
    StructAccepts(lib, DATA_SCHEMA, ms);
    ClaimsGive(lib, ms, c, raw);
  }

  /** The envelope around exactly one evidence item, which wraps one claims object. */
  ghost predicate IsPayload(lib: Library, v: Value, c: Claims) {
    exists item, data, raw ::
      IsEnvelope(lib, v, "evidence", Arr([item])) && IsWrap(lib, item, GUEST_CLAIMS, data)
      && IsClaims(lib, data, c, raw)
  }

  /**
   * DecodePayload accepts exactly the strict messages of this shape: version 1, one evidence item of
   * the guest-claims type and version 1, the five required texts, and a nonempty project or none.
   */
  lemma PayloadAccepts(lib: Library, m: Message, c: Claims)
    ensures DecodePayload(lib, m) == Ok(c) <==> ReadMessage(m).Ok? && IsPayload(lib, ReadMessage(m).value, c)
  {
    hide DecodeEnvelope, DecodeTyped, DecodeClaims, IsEnvelope, IsWrap, IsClaims, ReadMessage;
    forall inner ensures DecodeEnvelope(lib, m, "evidence") == Ok(Some(inner)) <==>
                           ReadMessage(m).Ok? && IsEnvelope(lib, ReadMessage(m).value, "evidence", inner) {
      EnvelopeAccepts(lib, m, "evidence", inner);
    }
    forall item, data ensures DecodeTyped(lib, Some(item), GUEST_CLAIMS) == Ok(data) <==>
                                IsWrap(lib, item, GUEST_CLAIMS, data) {
      TypedAccepts(lib, item, GUEST_CLAIMS, data);
    }
    forall data ensures DecodeClaims(lib, data) == Ok(c) <==> exists raw :: IsClaims(lib, data, c, raw) {
      ClaimsAccept(lib, data, c);
    }
    if DecodePayload(lib, m) == Ok(c) {
      var evidence := DecodeEnvelope(lib, m, "evidence").value.value;
      assert evidence == Arr([evidence.items[0]]);
    }
  }

  // ---------------------------------------------------------------- errors

  /** What fits a field, kind by kind; an integer field takes the integers of 64 bits. */
  lemma FitsExactly(kind: Kind, v: Value)
    ensures kind == Raw ==> Storable(kind, v)
    ensures kind == Text || kind == TextRef ==> (Storable(kind, v) <==> v == Lit(Null) || exists s :: v == Str(s))
    ensures kind == IntRef ==>
      (Storable(kind, v) <==> v == Lit(Null) || exists n :: v == Lit(Num(Integer(n)))
                                                         && -9223372036854775808 <= n <= 9223372036854775807)
  {
    if v.Lit? && v.scalar.Num? && v.scalar.num.Integer? {
      assert v == Lit(Num(Integer(v.scalar.num.n)));
    }
    if v.Str? {
      assert v == Str(v.text);
    }
  }

  lemma StructErr(lib: Library, schema: Schema, v: Value)
    ensures DecodeStruct(lib, schema, v).Err? ==> DecodeStruct(lib, schema, v) == Err(Error({Invalid}))
  {
    if v.Obj? {
      StructAccepts(lib, schema, v.members);
    }
  }

  /** A nonce that cannot be parsed is the invalid class, and so are claims that are not complete. */
  lemma PartsErr(lib: Library, raw: string, data: Value)
    ensures ParseNonce(raw).Err? ==> ParseNonce(raw) == Err(Error({Invalid}))
    ensures DecodeClaims(lib, data).Err? ==> DecodeClaims(lib, data) == Err(Error({Invalid}))
  {
    StructErr(lib, DATA_SCHEMA, data);
    hide DecodeStruct, Base64Decode;
  }

  /** A one-field message is unsupported exactly if its envelope or its wrapper is; every other error is invalid. */
  lemma OneFieldErrors(lib: Library, m: Message, body: string, field: string)
    requires body != "version"
    ensures var r := DecodeOneField(lib, m, body, field);
      && (r.Err? ==> r.error in {Error({Invalid}), Error({Unsupported})})
      && (r == Err(Error({Unsupported})) <==>
            || DecodeEnvelope(lib, m, body) == Err(Error({Unsupported}))
            || exists v :: DecodeEnvelope(lib, m, body) == Ok(Some(v))
                           && DecodeTyped(lib, Some(v), CONFIG_NONCE) == Err(Error({Unsupported})))
  {
    EnvelopeUnsupported(lib, m, body);
    NoBodyErr(lib);
    hide DecodeEnvelope, DecodeTyped, DecodeStruct;
    if DecodeEnvelope(lib, m, body).Ok? && DecodeEnvelope(lib, m, body).value.Some? {
      var v := DecodeEnvelope(lib, m, body).value.value;
      TypedUnsupported(lib, v, CONFIG_NONCE);
      if DecodeTyped(lib, Some(v), CONFIG_NONCE).Ok? {
        StructErr(lib, map[field := Text], DecodeTyped(lib, Some(v), CONFIG_NONCE).value);
      }
    }
  }

  lemma NoBodyErr(lib: Library)
    ensures DecodeTyped(lib, None, CONFIG_NONCE) == Err(Error({Invalid}))
  {
  }

  /** The errors of the three decoders: unsupported exactly for another version or type, invalid otherwise. */
  lemma DecoderErrors(lib: Library, m: Message)
    ensures DecodeChallenge(lib, m).Err? ==> DecodeChallenge(lib, m).error in {Error({Invalid}), Error({Unsupported})}
    ensures DecodeChallenge(lib, m) == Err(Error({Unsupported}))
       <==> DecodeOneField(lib, m, "challenge", "config_key") == Err(Error({Unsupported}))
    ensures DecodeResponse(lib, m).Err? ==> DecodeResponse(lib, m).error in {Error({Invalid}), Error({Unsupported})}
    ensures DecodeResponse(lib, m) == Err(Error({Unsupported}))
       <==> DecodeOneField(lib, m, "response", "nonce") == Err(Error({Unsupported}))
  {
    OneFieldErrors(lib, m, "challenge", "config_key");
    OneFieldErrors(lib, m, "response", "nonce");
    hide DecodeOneField;
    if DecodeOneField(lib, m, "response", "nonce").Ok? {
      PartsErr(lib, DecodeOneField(lib, m, "response", "nonce").value, Lit(Null));
    }
  }

  lemma PayloadErrors(lib: Library, m: Message)
    ensures var r := DecodePayload(lib, m);
      && (r.Err? ==> r.error in {Error({Invalid}), Error({Unsupported})})
      && (r == Err(Error({Unsupported})) <==>
            || DecodeEnvelope(lib, m, "evidence") == Err(Error({Unsupported}))
            || exists item :: DecodeEnvelope(lib, m, "evidence") == Ok(Some(Arr([item])))
                              && DecodeTyped(lib, Some(item), GUEST_CLAIMS) == Err(Error({Unsupported})))
  {
    hide ReadMessage;
    EnvelopeUnsupported(lib, m, "evidence");
    var envelope := DecodeEnvelope(lib, m, "evidence");
    if envelope.Ok? && envelope.value.Some? && DecodeList(envelope.value.value).Ok?
       && |DecodeList(envelope.value.value).value| == 1 {
      var item := DecodeList(envelope.value.value).value[0];
      assert envelope.value.value == Arr([item]);
      TypedUnsupported(lib, item, GUEST_CLAIMS);
      if DecodeTyped(lib, Some(item), GUEST_CLAIMS).Ok? {
        PartsErr(lib, "", DecodeTyped(lib, Some(item), GUEST_CLAIMS).value);
      }
    }
    hide DecodeEnvelope, DecodeTyped, DecodeClaims;
  }
}
