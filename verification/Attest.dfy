/** Domain values of the attestation protocol: claims, instances, challenge keys and nonces. */
module Attest {
  import opened Base
  import opened Encoding

  const VIRTUAL_MACHINE := "virtual-machine"

  /** Guest-supplied locators; an empty project means the guest gave no hint. */
  datatype Claims = Claims(project: string, name: string, uuid: string, kind: string,
                           location: string, cloudInitID: string)

  /** The authoritative API snapshot of one instance. */
  datatype Instance = Instance(project: string, name: string, uuid: string, kind: string,
                               location: string, cloudInitID: string,
                               profiles: seq<string>, expandedConfig: map<string, string>)

  datatype Attributes = Attributes(agentID: string, canReattest: bool, selectors: seq<string>)

  // ---------------------------------------------------------------- UUIDs and claims

  /** uuid.Parse followed by String: the canonical text of every text the library accepts. */
  type UuidParser = string -> Option<string>

  /** What the model needs of the UUID library: canonical text parses to itself and is not empty. */
  ghost predicate UuidContract(parse: UuidParser) {
    forall s :: parse(s).Some? ==> parse(s).value != "" && parse(parse(s).value) == parse(s)
  }

  function RequireVirtualMachine(kind: string): Option<Error> {
    if kind != VIRTUAL_MACHINE then Some(Fail(Denied)) else None
  }

  function CanonicalUUID(parse: UuidParser, raw: string): Result<string, Error> {
    match parse(raw)
    case Some(id) => Ok(id)
    case None => Err(Fail(Denied))
  }

  /** The canonical guest UUID when every claim but the project is present and names a VM. */
  function ValidateClaims(parse: UuidParser, c: Claims): Result<string, Error> {
    if c.name == "" || c.location == "" || c.cloudInitID == "" then Err(Fail(Denied))
    else if RequireVirtualMachine(c.kind).Some? then Err(Fail(Denied))
    else CanonicalUUID(parse, c.uuid)
  }

  function ValidateInstance(parse: UuidParser, i: Instance): Result<string, Error> {
    if i.project == "" || i.name == "" || i.location == "" || i.cloudInitID == "" then Err(Fail(Denied))
    else if RequireVirtualMachine(i.kind).Some? then Err(Fail(Denied))
    else CanonicalUUID(parse, i.uuid)
  }

  /** Whether claims describe the same allowed VM as the instance. */
  function MatchClaims(parse: UuidParser, c: Claims, i: Instance): Option<Error> {
    match (ValidateClaims(parse, c), ValidateInstance(parse, i))
    case (Ok(claimed), Ok(actual)) =>
      if (c.project != "" && c.project != i.project) || c.name != i.name || c.kind != i.kind
         || c.location != i.location || c.cloudInitID != i.cloudInitID || claimed != actual
      then Some(Fail(Denied)) else None
    case _ => Some(Fail(Denied))
  }

  // ---------------------------------------------------------------- nonces

  const NONCE_SIZE := 16

  type Nonce = bs: seq<Byte> | |bs| == NONCE_SIZE witness seq(NONCE_SIZE, _ => 0)

  function NewNonce(raw: seq<Byte>): Option<Nonce> {
    if |raw| != NONCE_SIZE then None else Some(raw)
  }

  function VerifyNonce(expected: Nonce, got: seq<Byte>): Option<Error> {
    if |got| != NONCE_SIZE || expected != got then Some(Fail(Denied)) else None
  }

  // ---------------------------------------------------------------- challenge keys

  const KEY_PREFIX := "user.spire.attestor.nonce."
  const KEY_SUFFIX_LEN := 32

  type AttemptID = bs: seq<Byte> | |bs| == 16 witness seq(16, _ => 0)

  /** The exact challenge-key grammar: the reserved prefix and 32 lower-case hex digits. */
  predicate IsConfigKey(s: string) {
    && |s| == |KEY_PREFIX| + KEY_SUFFIX_LEN
    && HasPrefix(s, KEY_PREFIX)
    && forall i :: |KEY_PREFIX| <= i < |s| ==> IsLowerHex(s[i])
  }

  /** NewConfigKey: scans the suffix and stops at the first character that is not lower-case hex. */
  method NewConfigKey(raw: string) returns (ok: bool)
    ensures ok <==> IsConfigKey(raw)
  {
    if |raw| != |KEY_PREFIX| + KEY_SUFFIX_LEN {
      return false;
    }
    if raw[..|KEY_PREFIX|] != KEY_PREFIX {
      return false;
    }
    var i := |KEY_PREFIX|;
    while i < |raw|
      invariant |KEY_PREFIX| <= i <= |raw|
      invariant forall j :: |KEY_PREFIX| <= j < i ==> IsLowerHex(raw[j])
    {
      if !IsLowerHex(raw[i]) {
        return false;
      }
      i := i + 1;
    }
    return true;
  }

  /** NewConfigKeyFromAttemptID. */
  function KeyOf(id: AttemptID): string {
    KEY_PREFIX + HexEncode(id)
  }

  /** Keys and attempt IDs are in bijection: an accepted key is the key of one attempt ID and no other. */
  lemma KeyBijection(s: string)
    ensures IsConfigKey(s) <==> exists id: AttemptID :: KeyOf(id) == s
    ensures forall a: AttemptID, b: AttemptID :: KeyOf(a) == s && KeyOf(b) == s ==> a == b
  {
    forall id: AttemptID | KeyOf(id) == s
      ensures IsConfigKey(s) && id == HexDecode(s[|KEY_PREFIX|..])
    {
      HexDecodeEncode(id);
      assert s[|KEY_PREFIX|..] == HexEncode(id);
    }
    if IsConfigKey(s) {
      var suffix := s[|KEY_PREFIX|..];
      var id: AttemptID := HexDecode(suffix);
      HexEncodeDecode(suffix);
      assert KeyOf(id) == s;
    }
  }

  /** Every attempt's key is well formed, and distinct attempts have distinct keys. */
  lemma KeysAreDistinct(a: AttemptID, b: AttemptID)
    ensures IsConfigKey(KeyOf(a)) && HasPrefix(KeyOf(a), KEY_PREFIX)
    ensures KeyOf(a) == KeyOf(b) ==> a == b
  {
    KeyBijection(KeyOf(a));
  }

  /** The text of a key: the reserved prefix, spelled out, and the attempt ID in hex. */
  lemma KeyIsSpelled(id: AttemptID)
    ensures KeyOf(id) == "user.spire.attestor.nonce." + HexEncode(id) && |KeyOf(id)| == 58
  {
  }

  /** Only the nonce that was expected passes; anything else is a denial. */
  lemma VerifyExactly(expected: Nonce, got: seq<Byte>)
    ensures VerifyNonce(expected, got) == if got == expected then None else Some(Error({Denied}))
    ensures |expected| == 16
  {
  }

  /** Valid claims: the four texts are there, the kind is a VM's, the UUID is one; otherwise a denial. */
  lemma ValidClaimsExactly(parse: UuidParser, c: Claims)
    ensures ValidateClaims(parse, c).Ok? <==>
              && c.name != "" && c.location != "" && c.cloudInitID != "" && c.kind == "virtual-machine"
              && parse(c.uuid).Some?
    ensures ValidateClaims(parse, c).Ok? ==> parse(c.uuid) == Some(ValidateClaims(parse, c).value)
    ensures ValidateClaims(parse, c).Err? ==> ValidateClaims(parse, c) == Err(Error({Denied}))
  {
  }

  lemma ValidInstanceExactly(parse: UuidParser, i: Instance)
    ensures ValidateInstance(parse, i).Ok? <==>
              && i.project != "" && i.name != "" && i.location != "" && i.cloudInitID != ""
              && i.kind == "virtual-machine" && parse(i.uuid).Some?
    ensures ValidateInstance(parse, i).Ok? ==> parse(i.uuid) == Some(ValidateInstance(parse, i).value)
    ensures ValidateInstance(parse, i).Err? ==> ValidateInstance(parse, i) == Err(Error({Denied}))
  {
  }
}
