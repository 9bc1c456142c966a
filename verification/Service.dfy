/**
 * The server's attestation run over ports with arbitrary results: an ordered sequence of effects
 * with a cleanup that runs exactly once on every path after the set.
 */
module Service {
  import opened Base
  import opened Attest
  import opened Selectors
  import opened Config
  import opened Json
  import opened Wire
  import opened Structs
  import opened WireAccepts
  import opened WireProofs
  import opened Resolve

  /** The replies of the ports in one run; any value of this type is a possible port behaviour. */
  datatype Script = Script(
    payload: Result<Message, Error>,
    lookup: Lookup,
    random: Result<(AttemptID, Nonce), Error>,
    setErr: Option<Error>,
    challengeErr: Option<Error>,
    response: Result<Message, Error>,
    unsetErr: Option<Error>,
    attributesErr: Option<Error>)

  /** The effects, with their arguments. */
  datatype Effect =
    | ReceivePayload
    | Lookup(project: string, name: string)
    | ReadRandom
    | SetNonce(instance: Instance, key: string, text: string)
    | SendChallenge(challenge: Message)
    | ReceiveResponse
    | UnsetNonce(instance: Instance, key: string)
    | SendAttributes(attributes: Attributes)

  // ---------------------------------------------------------------- ports

  class Ports {
    const script: Script
    var trace: seq<Effect>

    constructor (script: Script)
      ensures this.script == script && trace == []
    {
      this.script, trace := script, [];
    }

    /** Performs one effect. */
    method Do(e: Effect)
      modifies this`trace
      ensures trace == old(trace) + [e]
    {
      trace := trace + [e];
    }
  }

  /** annotateCleanup: the primary error keeps its class, the cleanup error only adds text to it. */
  function Annotate(primary: Option<Error>, clean: Option<Error>): Option<Error> {
    if primary.Some? then primary else clean
  }

  /** The armed cleanup; run unsets the key the first time and remembers the result. */
  class Cleanup {
    const ports: Ports
    const instance: Instance
    const key: string
    var once: bool
    var err: Option<Error>

    constructor (ports: Ports, instance: Instance, key: string)
      ensures this.ports == ports && this.instance == instance && this.key == key && !once && err == None
    {
      this.ports, this.instance, this.key, once, err := ports, instance, key, false, None;
    }

    method Run() returns (r: Option<Error>)
      modifies this, ports`trace
      ensures once && r == err
      ensures !old(once) ==> r == ports.script.unsetErr && ports.trace == old(ports.trace) + [UnsetNonce(instance, key)]
      ensures old(once) ==> r == old(err) && ports.trace == old(ports.trace)
    {
      if !once {
        once := true;
        ports.Do(UnsetNonce(instance, key));
        err := ports.script.unsetErr;
      }
      return err;
    }
  }

  // ---------------------------------------------------------------- the run as a function of its replies

  /** What one attempt draws: its key, and its nonce with the text to store. */
  datatype Secret = Secret(key: string, nonce: Nonce, text: string)

  /** The results of the steps between the ports: each is an error or the value the next step uses. */
  datatype Steps = Steps(
    claims: Result<Claims, Error>,          // received, decoded and validated
    asked: seq<string>,                     // the projects looked up
    instance: Result<Instance, Error>,      // resolved
    secret: Result<Secret, Error>,          // drawn
    challenge: Result<Message, Error>,      // encoded
    got: Result<Nonce, Error>,              // received and decoded
    attributes: Result<Attributes, Error>)  // built

  function ClaimsStep(lib: Library, s: Script): Result<Claims, Error> {
    match s.payload
    case Err(e) => Err(e)
    case Ok(m) =>
      match DecodePayload(lib, m)
      case Err(e) => Err(e)
      case Ok(claims) =>
        match ValidateClaims(lib.parseUUID, claims)
        case Err(e) => Err(e)
        case Ok(_) => Ok(claims)
  }

  function InstanceStep(lib: Library, cfg: Config.Server, s: Script): Result<Instance, Error> {
    match ClaimsStep(lib, s)
    case Err(e) => Err(e)
    case Ok(claims) => Resolved(lib.parseUUID, cfg.projects, s.lookup, claims)
  }

  function AskedStep(lib: Library, cfg: Config.Server, s: Script): seq<string> {
    match ClaimsStep(lib, s)
    case Err(_) => []
    case Ok(claims) =>
      if claims.project == "" then Asked(cfg.projects, s.lookup)
      else if claims.project in cfg.projects then [claims.project] else []
  }

  function SecretStep(s: Script): Result<Secret, Error> {
    match s.random
    case Err(e) => Err(e)
    case Ok((id, nonce)) => Ok(Secret(KeyOf(id), nonce, NonceText(nonce)))
  }

  function ChallengeStep(s: Script): Result<Message, Error> {
    match s.random
    case Err(e) => Err(e)
    case Ok((id, _)) => EncodeChallenge(KeyOf(id))
  }

  function ResponseStep(lib: Library, s: Script): Result<Nonce, Error> {
    match s.response
    case Err(e) => Err(e)
    case Ok(m) => DecodeResponse(lib, m)
  }

  function AttributesStep(lib: Library, cfg: Config.Server, domain: string, s: Script): Result<Attributes, Error> {
    match InstanceStep(lib, cfg, s)
    case Err(e) => Err(e)
    case Ok(i) => AttributesOf(lib.parseUUID, domain, i, cfg.userSelectors)
  }

  function StepsOf(lib: Library, cfg: Config.Server, domain: string, s: Script): Steps {
    Steps(ClaimsStep(lib, s), AskedStep(lib, cfg, s), InstanceStep(lib, cfg, s), SecretStep(s), ChallengeStep(s),
          ResponseStep(lib, s), AttributesStep(lib, cfg, domain, s))
  }

  /** Effects and the error, if any. */
  datatype Outcome = Outcome(trace: seq<Effect>, err: Option<Error>)

  function Lookups(projects: seq<string>, name: string): (es: seq<Effect>)
    ensures |es| == |projects| && forall a :: 0 <= a < |es| ==> es[a] == Lookup(projects[a], name)
  {
    seq(|projects|, a requires 0 <= a < |projects| => Lookup(projects[a], name))
  }

  lemma StartEmpty(parse: UuidParser, projects: seq<string>, lookup: string -> LookupReply, claims: Claims)
    ensures Scan(parse, projects[..0], lookup, claims) == Ok([]) && Lookups(projects[..0], claims.name) == []
  {
  }

  lemma AskedNothing(lookup: string -> LookupReply)
    ensures Asked([], lookup) == []
  {
  }

  lemma LookupsNext(projects: seq<string>, n: nat, name: string)
    requires n < |projects|
    ensures Lookups(projects[..n + 1], name) == Lookups(projects[..n], name) + [Lookup(projects[n], name)]
  {
  }

  /** The effects before the set. */
  function Prelude(p: Steps): seq<Effect> {
    match p.claims
    case Err(_) => [ReceivePayload]
    case Ok(claims) =>
      [ReceivePayload] + Lookups(p.asked, claims.name) + (if p.instance.Err? then [] else [ReadRandom])
  }

  /** Set, encode, send, receive, decode, verify: the effects, and the error of the step that failed. */
  function Exchanged(s: Script, p: Steps, i: Instance, x: Secret): Outcome {
    var store := SetNonce(i, x.key, x.text);
    if s.setErr.Some? then Outcome([store], s.setErr)
    else
      match p.challenge
      case Err(e) => Outcome([store], Some(e))
      case Ok(challenge) =>
        if s.challengeErr.Some? then Outcome([store, SendChallenge(challenge)], s.challengeErr)
        else
          var effects := [store, SendChallenge(challenge), ReceiveResponse];
          match p.got
          case Err(e) => Outcome(effects, Some(e))
          case Ok(got) => Outcome(effects, VerifyNonce(x.nonce, got))
  }

  /** From the set to the end. */
  function Attempted(s: Script, p: Steps, i: Instance, x: Secret): Outcome {
    var done := Exchanged(s, p, i, x);
    var cleaned := done.trace + [UnsetNonce(i, x.key)];
    if done.err.Some? || s.unsetErr.Some? then Outcome(cleaned, Annotate(done.err, s.unsetErr))
    else
      match p.attributes
      case Err(e) => Outcome(cleaned, Some(e))
      case Ok(attrs) => Outcome(cleaned + [SendAttributes(attrs)], s.attributesErr)
  }

  function RunOf(s: Script, p: Steps): Outcome {
    match (p.claims, p.instance, p.secret)
    case (Err(e), _, _) => Outcome(Prelude(p), Some(e))
    case (Ok(_), Err(e), _) => Outcome(Prelude(p), Some(e))
    case (Ok(_), Ok(_), Err(e)) => Outcome(Prelude(p), Some(e))
    case (Ok(_), Ok(i), Ok(x)) =>
      var tail := Attempted(s, p, i, x);
      Outcome(Prelude(p) + tail.trace, tail.err)
  }

  /** Whether a run gets as far as calling SetNonce. */
  predicate Arms(p: Steps) { p.claims.Ok? && p.instance.Ok? && p.secret.Ok? }

  // ---------------------------------------------------------------- the run as it is programmed

  class HostService {
    const lib: Library
    const cfg: Config.Server
    const domain: string

    constructor (lib: Library, cfg: Config.Server, domain: string)
      ensures this.lib == lib && this.cfg == cfg && this.domain == domain
    {
      this.lib, this.cfg, this.domain := lib, cfg, domain;
    }

    /** What the steps of a run on these ports come to. */
    function Plan(s: Script): Steps { StepsOf(lib, cfg, domain, s) }

    /** ReceivePayload, decode, validate. */
    method ReadClaims(ports: Ports) returns (r: Result<Claims, Error>)
      modifies ports`trace
      ensures r == Plan(ports.script).claims && ports.trace == old(ports.trace) + [ReceivePayload]
    {
      ports.Do(ReceivePayload);
      if ports.script.payload.Err? {
        return Err(ports.script.payload.error);
      }
      var claims := DecodePayload(lib, ports.script.payload.value);
      if claims.Err? {
        return claims;
      }
      var valid := ValidateClaims(lib.parseUUID, claims.value);
      if valid.Err? {
        return Err(valid.error);
      }
      return claims;
    }

    /** resolveHinted. */
    method ResolveHinted(ports: Ports, claims: Claims) returns (r: Result<Instance, Error>)
      modifies ports`trace
      ensures r == Hinted(lib.parseUUID, cfg.projects, ports.script.lookup, claims)
      ensures ports.trace == old(ports.trace)
        + Lookups(if claims.project in cfg.projects then [claims.project] else [], claims.name)
    {
      if claims.project !in cfg.projects {
        return Err(Fail(Denied));
      }
      ports.Do(Lookup(claims.project, claims.name));
      match ports.script.lookup(claims.project) {
        case LookupFault(e) => return Err(e);
        case NotFound => return Err(Fail(Denied));
        case Found(i) =>
          var mismatch := MatchClaims(lib.parseUUID, claims, i);
          if mismatch.Some? {
            return Err(mismatch.value);
          }
          return Ok(i);
      }
    }

    /** resolveUnhinted: one pass over the allowlist, counting the matches and keeping the last one. */
    method ResolveUnhinted(ports: Ports, claims: Claims) returns (r: Result<Instance, Error>)
      modifies ports`trace
      ensures r == Unhinted(lib.parseUUID, cfg.projects, ports.script.lookup, claims)
      ensures ports.trace == old(ports.trace) + Lookups(Asked(cfg.projects, ports.script.lookup), claims.name)
    {
      hide Lookups, MatchClaims, Scan, Asked;
      var parse, projects, lookup := lib.parseUUID, cfg.projects, ports.script.lookup;
      var matched := Instance("", "", "", "", "", "", [], map[]);
      var matches := 0;
      var n := 0;
      ghost var found: seq<string> := [];
      StartEmpty(parse, projects, lookup, claims);
      while n < |projects|
        invariant 0 <= n <= |projects|
        invariant Faultless(projects[..n], lookup)
        invariant ports.trace == old(ports.trace) + Lookups(projects[..n], claims.name)
        invariant Scan(parse, projects[..n], lookup, claims) == Ok(found) && |found| == matches
        invariant matches > 0 ==> lookup(found[matches - 1]) == Found(matched)
      {
        LookupsNext(projects, n, claims.name);
        ScanNext(parse, projects, lookup, claims, n);
        assert projects[..n + 1] == projects[..n] + [projects[n]];
        ports.Do(Lookup(projects[n], claims.name));
        var reply := lookup(projects[n]);
        n := n + 1;
        if reply.LookupFault? {
          AskedUpTo(projects, lookup, n);
          return Err(reply.error);
        }
        if reply.NotFound? {
          continue;
        }
        var mismatch := MatchClaims(parse, claims, reply.instance);
        if mismatch.Some? {
          continue;
        }
        matched := reply.instance;
        matches := matches + 1;
        found := found + [projects[n - 1]];
      }
      assert projects[..n] == projects;
      if n > 0 { AskedUpTo(projects, lookup, n); } else { AskedNothing(lookup); }
      if matches == 1 {
        return Ok(matched);
      }
      return Err(Fail(Denied));
    }

    /** resolveInstance. */
    method Locate(ports: Ports, claims: Claims) returns (r: Result<Instance, Error>)
      requires Plan(ports.script).claims == Ok(claims)
      modifies ports`trace
      ensures var p := Plan(ports.script);
        r == p.instance && ports.trace == old(ports.trace) + Lookups(p.asked, claims.name)
    {
      if claims.project != "" {
        r := ResolveHinted(ports, claims);
      } else {
        r := ResolveUnhinted(ports, claims);
      }
    }

    /** readRandomPair, the key and the stored text. */
    method Draw(ports: Ports) returns (r: Result<Secret, Error>)
      modifies ports`trace
      ensures r == Plan(ports.script).secret && ports.trace == old(ports.trace) + [ReadRandom]
    {
      ports.Do(ReadRandom);
      if ports.script.random.Err? {
        return Err(ports.script.random.error);
      }
      var (id, nonce) := ports.script.random.value;
      return Ok(Secret(KeyOf(id), nonce, NonceText(nonce)));
    }

    method Encode(ports: Ports, x: Secret) returns (r: Result<Message, Error>)
      requires Plan(ports.script).secret == Ok(x)
      ensures r == Plan(ports.script).challenge
    {
      r := EncodeChallenge(x.key);
    }

    /** ReceiveResponse and decode. */
    method Receive(ports: Ports) returns (r: Result<Nonce, Error>)
      modifies ports`trace
      ensures r == Plan(ports.script).got && ports.trace == old(ports.trace) + [ReceiveResponse]
    {
      ports.Do(ReceiveResponse);
      if ports.script.response.Err? {
        return Err(ports.script.response.error);
      }
      r := DecodeResponse(lib, ports.script.response.value);
    }

    /** attest.BuildAttributes. */
    method BuildAttributes(ports: Ports, i: Instance) returns (r: Result<Attributes, Error>)
      requires Plan(ports.script).instance == Ok(i)
      ensures r == Plan(ports.script).attributes
    {
      var id := ValidateInstance(lib.parseUUID, i);
      if id.Err? {
        return Err(id.error);
      }
      var selectors := BuildSelectors(i, id.value, cfg.userSelectors);
      if selectors.Err? {
        return Err(selectors.error);
      }
      return Ok(Attributes(AgentID(domain, id.value), true, selectors.value));
    }

    /** The part of Attest under the deferred cleanup. */
    method Challenge(ports: Ports, armed: Cleanup, x: Secret, ghost p: Steps) returns (err: Option<Error>)
      requires p == Plan(ports.script) && p.instance == Ok(armed.instance) && p.secret == Ok(x)
      requires armed.ports == ports && !armed.once && armed.key == x.key
      modifies armed, ports`trace
      ensures var o := Attempted(ports.script, p, armed.instance, x);
        ports.trace == old(ports.trace) + o.trace && err == o.err
      ensures armed.once && armed.err == ports.script.unsetErr
    {
      hide Plan;
      var s := ports.script;
      ghost var done := Exchanged(s, p, armed.instance, x);
      ports.Do(SetNonce(armed.instance, x.key, x.text));
      if s.setErr.Some? {
        var clean := armed.Run();
        return Annotate(s.setErr, clean);
      }
      var challenge := Encode(ports, x);
      if challenge.Err? {
        var clean := armed.Run();
        return Annotate(Some(challenge.error), clean);
      }
      ports.Do(SendChallenge(challenge.value));
      if s.challengeErr.Some? {
        var clean := armed.Run();
        return Annotate(s.challengeErr, clean);
      }
      var got := Receive(ports);
      assert ports.trace == old(ports.trace) + done.trace;
      if got.Err? {
        var clean := armed.Run();
        return Annotate(Some(got.error), clean);
      }
      var mismatch := VerifyNonce(x.nonce, got.value);
      if mismatch.Some? {
        var clean := armed.Run();
        return Annotate(mismatch, clean);
      }
      var clean := armed.Run();
      if clean.Some? {
        return Annotate(None, clean);
      }
      var attrs := BuildAttributes(ports, armed.instance);
      if attrs.Err? {
        return Some(attrs.error);
      }
      ports.Do(SendAttributes(attrs.value));
      return s.attributesErr;
    }

    /** Service.Attest; the deferred cleanup runs once more at the end and does nothing. */
    method Attest(ports: Ports) returns (err: Option<Error>)
      modifies ports`trace
      ensures var o := RunOf(ports.script, Plan(ports.script));
        ports.trace == old(ports.trace) + o.trace && err == o.err
    {
      hide Plan;
      ghost var p := Plan(ports.script);
      var claims := ReadClaims(ports);
      if claims.Err? {
        return Some(claims.error);
      }
      var instance := Locate(ports, claims.value);
      if instance.Err? {
        assert ports.trace == old(ports.trace) + Prelude(p);
        return Some(instance.error);
      }
      var secret := Draw(ports);
      assert ports.trace == old(ports.trace) + Prelude(p);
      if secret.Err? {
        return Some(secret.error);
      }
      var armed := new Cleanup(ports, instance.value, secret.value.key);
      err := Challenge(ports, armed, secret.value, p);
      var _ := armed.Run();
    }
  }

  // ---------------------------------------------------------------- trace safety

  /** Set, unset and attributes occur at most once each. */
  ghost predicate OnceEach(trace: seq<Effect>) {
    && (forall a, b :: 0 <= a < b < |trace| ==> !(trace[a].SetNonce? && trace[b].SetNonce?))
    && (forall a, b :: 0 <= a < b < |trace| ==> !(trace[a].UnsetNonce? && trace[b].UnsetNonce?))
    && (forall a, b :: 0 <= a < b < |trace| ==> !(trace[a].SendAttributes? && trace[b].SendAttributes?))
  }

  /** Every set is followed by the unset of the same key on the same instance, and no other unset occurs. */
  ghost predicate UnsetAfterSet(trace: seq<Effect>) {
    && (forall a :: 0 <= a < |trace| && trace[a].SetNonce? ==>
          exists b :: a < b < |trace| && trace[b] == UnsetNonce(trace[a].instance, trace[a].key))
    && (forall b :: 0 <= b < |trace| && trace[b].UnsetNonce? ==>
          exists a :: 0 <= a < b && trace[a].SetNonce?
                      && trace[a].instance == trace[b].instance && trace[a].key == trace[b].key)
  }

  /** Only lookups come between the first effect and the random read. */
  predicate Early(e: Effect) { e.ReceivePayload? || e.Lookup? || e.ReadRandom? }

  lemma PreludeIsEarly(p: Steps)
    ensures forall a :: 0 <= a < |Prelude(p)| ==> Early(Prelude(p)[a])
  {
  }

  /** The places of the effects in a run that calls SetNonce. */
  lemma Layout(s: Script, p: Steps)
    requires Arms(p)
    ensures var t := RunOf(s, p).trace;
            var (i, x) := (p.instance.value, p.secret.value);
            var k := |Prelude(p)|;
            var m := k + |Exchanged(s, p, i, x).trace|;
      && k + 1 <= m <= k + 3 && m < |t| <= m + 2
      && (forall a :: 0 <= a < k ==> t[a] == Prelude(p)[a] && Early(t[a]))
      && (forall a :: k <= a < m ==> t[a] == Exchanged(s, p, i, x).trace[a - k])
      && (forall a :: k < a < m ==> t[a].SendChallenge? || t[a].ReceiveResponse?)
      && t[k] == SetNonce(i, x.key, x.text)
      && t[m] == UnsetNonce(i, x.key)
      && (|t| == m + 2 ==> t[m + 1].SendAttributes?)
  {
    PreludeIsEarly(p);
    hide Prelude;
    var done := Exchanged(s, p, p.instance.value, p.secret.value);
    assert forall a :: 1 <= a < |done.trace| ==> done.trace[a].SendChallenge? || done.trace[a].ReceiveResponse?;
  }

  /**
   * For every behaviour of every port: UnsetNonce is called exactly once, after SetNonce, with the
   * same instance and key, if and only if SetNonce was called; attributes are sent at most once.
   */
  lemma CleanupExactlyOnce(s: Script, p: Steps)
    ensures OnceEach(RunOf(s, p).trace) && UnsetAfterSet(RunOf(s, p).trace)
  {
    PreludeIsEarly(p);
    if Arms(p) {
      Layout(s, p);
      hide Prelude, Exchanged;
      var t, k := RunOf(s, p).trace, |Prelude(p)|;
      var m := k + |Exchanged(s, p, p.instance.value, p.secret.value).trace|;
      assert t[k].SetNonce? && t[m] == UnsetNonce(t[k].instance, t[k].key);
      forall a | 0 <= a < |t| ensures t[a].SetNonce? ==> a == k {}
      forall a | 0 <= a < |t| ensures t[a].UnsetNonce? ==> a == m {}
      forall a | 0 <= a < |t| ensures t[a].SendAttributes? ==> a == m + 1 {}
    }
  }

  /**
   * Attributes are sent only as the last effect of a run whose set, challenge, response and unset
   * all succeeded, in that order, on this attempt's key, with a response that carries this
   * attempt's nonce; and they are the attributes that were built.
   */
  lemma AttributesOnlyAfterProof(s: Script, p: Steps, n: nat)
    requires n < |RunOf(s, p).trace| && RunOf(s, p).trace[n].SendAttributes?
    ensures Arms(p)
    ensures var t := RunOf(s, p).trace;
            var (i, x) := (p.instance.value, p.secret.value);
      && n == |t| - 1 && n >= 5
      && t[n - 4] == SetNonce(i, x.key, x.text) && s.setErr.None?
      && p.challenge.Ok? && t[n - 3] == SendChallenge(p.challenge.value) && s.challengeErr.None?
      && t[n - 2] == ReceiveResponse && p.got == Ok(x.nonce)
      && t[n - 1] == UnsetNonce(i, x.key) && s.unsetErr.None?
      && p.attributes == Ok(t[n].attributes)
  {
    PreludeIsEarly(p);
    assert Arms(p);
    Layout(s, p);
    hide Prelude;
    var done := Exchanged(s, p, p.instance.value, p.secret.value);
    assert n == |Prelude(p)| + |done.trace| + 1;
    assert done.err.None? && s.unsetErr.None? && p.attributes.Ok?;
    assert |done.trace| == 3;
  }

  /**
   * The cleanup result never replaces the error of a failed step: whatever the unset returns, a
   * failed exchange returns its own error. Only when every step succeeded does a failed cleanup
   * decide, and then its own error is returned; in both cases no attributes are sent.
   */
  lemma FailedStepKeepsItsClass(s: Script, p: Steps, unset: Option<Error>)
    requires Arms(p)
    ensures var failed := Exchanged(s, p, p.instance.value, p.secret.value).err;
            var r := RunOf(s.(unsetErr := unset), p);
      && (failed.Some? ==> r.err == failed)
      && (failed.None? && unset.Some? ==> r.err == unset)
      && (failed.Some? || unset.Some? ==> forall a :: 0 <= a < |r.trace| ==> !r.trace[a].SendAttributes?)
  {
    var s' := s.(unsetErr := unset);
    Layout(s', p);
    assert Exchanged(s', p, p.instance.value, p.secret.value) == Exchanged(s, p, p.instance.value, p.secret.value);
  }

  /** A run that succeeds has sent attributes, and they carry the identity of an allowed, matching VM. */
  lemma SuccessIsProven(lib: Library, cfg: Config.Server, domain: string, s: Script)
    requires ProjectScoped(cfg.projects, s.lookup) && RunOf(s, StepsOf(lib, cfg, domain, s)).err.None?
    ensures s.setErr.None? && s.challengeErr.None? && s.unsetErr.None? && s.attributesErr.None?
    ensures var p := StepsOf(lib, cfg, domain, s);
            var t := RunOf(s, p).trace;
      && Arms(p) && t != [] && t[|t| - 1].SendAttributes?
      && p.got == Ok(p.secret.value.nonce)
      && var i := p.instance.value;
      && i.project in cfg.projects && i.kind == VIRTUAL_MACHINE
      && MatchClaims(lib.parseUUID, p.claims.value, i).None?
      && ValidateInstance(lib.parseUUID, i).Ok?
      && var (sent, uuid) := (t[|t| - 1].attributes, ValidateInstance(lib.parseUUID, i).value);
      && sent.agentID == "spiffe://" + domain + "/spire/agent/incus/" + uuid && sent.canReattest
      && SelectorsOf(i, uuid, cfg.userSelectors) == Ok(sent.selectors)
  {
    hide StepsOf, ClaimsStep, SecretStep, ChallengeStep, ResponseStep;
    var p := StepsOf(lib, cfg, domain, s);
    SuccessHasSent(s, p);
    AttributesOnlyAfterProof(s, p, |RunOf(s, p).trace| - 1);
    StepsAgree(lib, cfg, domain, s);
    ResolvedIsAllowed(lib.parseUUID, cfg.projects, s.lookup, p.claims.value);
  }

  /** Nil is returned exactly if attributes were sent, last, and the sending succeeded. */
  lemma SuccessHasSent(s: Script, p: Steps)
    ensures RunOf(s, p).err.None? <==>
              && s.attributesErr.None?
              && RunOf(s, p).trace != [] && RunOf(s, p).trace[|RunOf(s, p).trace| - 1].SendAttributes?
    ensures RunOf(s, p).err.None? ==> Arms(p)
  {
    PreludeIsEarly(p);
    if Arms(p) {
      Layout(s, p);
    }
  }

  lemma StepsAgree(lib: Library, cfg: Config.Server, domain: string, s: Script)
    requires Arms(StepsOf(lib, cfg, domain, s))
    ensures var p := StepsOf(lib, cfg, domain, s);
      && p.instance == Resolved(lib.parseUUID, cfg.projects, s.lookup, p.claims.value)
      && p.attributes == AttributesOf(lib.parseUUID, domain, p.instance.value, cfg.userSelectors)
  {
    hide DecodePayload, ValidateClaims, Resolved, AttributesOf, EncodeChallenge, DecodeResponse;
  }

  // ---------------------------------------------------------------- what the effects carry

  /**
   * The server looks an instance up only for a strict payload with valid claims, only under the
   * claimed name, only in allowed projects, only in the hinted one if there is a hint, and in none
   * twice; so nothing at all is asked or stored for any other payload.
   */
  lemma LookupsStayAllowed(lib: Library, cfg: Config.Server, domain: string, s: Script, a: nat)
    requires Contract(lib) && Distinct(cfg.projects)
    requires a < |RunOf(s, StepsOf(lib, cfg, domain, s)).trace|
    requires RunOf(s, StepsOf(lib, cfg, domain, s)).trace[a].Lookup?
    ensures var t := RunOf(s, StepsOf(lib, cfg, domain, s)).trace;
      && s.payload.Ok? && Strict(s.payload.value) && DecodePayload(lib, s.payload.value).Ok?
      && var c := DecodePayload(lib, s.payload.value).value;
      && c.kind == VIRTUAL_MACHINE && c.name != "" && c.location != "" && c.cloudInitID != ""
      && lib.parseUUID(c.uuid) == Some(c.uuid)
      && t[a].name == c.name && t[a].project in cfg.projects && (c.project != "" ==> t[a].project == c.project)
      && forall b :: 0 <= b < |t| && b != a && t[b].Lookup? ==> t[b].project != t[a].project
  {
    var p := StepsOf(lib, cfg, domain, s);
    LookupsInPrelude(s, p, a);
    ClaimsAreValid(lib, s);
    AskedAreAllowed(lib, cfg, s);
    hide StepsOf, RunOf, Strict, DecodePayload;
    assert p.claims == ClaimsStep(lib, s) && p.asked == AskedStep(lib, cfg, s) by { StepsFields(lib, cfg, domain, s); }
    forall b | 0 <= b < |RunOf(s, p).trace| && b != a && RunOf(s, p).trace[b].Lookup?
      ensures RunOf(s, p).trace[b].project != RunOf(s, p).trace[a].project {
      LookupsInPrelude(s, p, b);
    }
  }

  lemma StepsFields(lib: Library, cfg: Config.Server, domain: string, s: Script)
    ensures StepsOf(lib, cfg, domain, s).claims == ClaimsStep(lib, s)
    ensures StepsOf(lib, cfg, domain, s).asked == AskedStep(lib, cfg, s)
  {
  }

  lemma LookupsInPrelude(s: Script, p: Steps, a: nat)
    requires a < |RunOf(s, p).trace| && RunOf(s, p).trace[a].Lookup?
    ensures p.claims.Ok? && 1 <= a <= |p.asked|
    ensures RunOf(s, p).trace[a] == Lookup(p.asked[a - 1], p.claims.value.name)
  {
    if Arms(p) {
      Layout(s, p);
    }
  }

  lemma ClaimsAreValid(lib: Library, s: Script)
    requires Contract(lib) && ClaimsStep(lib, s).Ok?
    ensures s.payload.Ok? && Strict(s.payload.value) && DecodePayload(lib, s.payload.value) == ClaimsStep(lib, s)
    ensures var c := ClaimsStep(lib, s).value;
      && c.kind == VIRTUAL_MACHINE && c.name != "" && c.location != "" && c.cloudInitID != ""
      && lib.parseUUID(c.uuid) == Some(c.uuid)
  {
    hide DecodePayload, IsPayload, ReadMessage;
    var m, c := s.payload.value, ClaimsStep(lib, s).value;
    PayloadAccepts(lib, m, c);
    ReadIsStrict(m);
    PayloadIsCanonical(lib, ReadMessage(m).value, c);
  }

  lemma PayloadIsCanonical(lib: Library, v: Value, c: Claims)
    requires Contract(lib) && IsPayload(lib, v, c)
    ensures lib.parseUUID(c.uuid) == Some(c.uuid)
  {
    hide IsStruct;
  }

  lemma {:induction false} AskedPrefix(projects: seq<string>, lookup: string -> LookupReply)
    ensures |Asked(projects, lookup)| <= |projects| && Asked(projects, lookup) == projects[..|Asked(projects, lookup)|]
  {
    if projects != [] {
      AskedPrefix(projects[..|projects| - 1], lookup);
    }
  }

  lemma AskedAreAllowed(lib: Library, cfg: Config.Server, s: Script)
    requires ClaimsStep(lib, s).Ok? && Distinct(cfg.projects)
    ensures var (c, asked) := (ClaimsStep(lib, s).value, AskedStep(lib, cfg, s));
      && Distinct(asked)
      && forall p :: p in asked ==> p in cfg.projects && (c.project != "" ==> p == c.project)
  {
    hide ClaimsStep, Asked;
    AskedPrefix(cfg.projects, s.lookup);
  }

  /**
   * The challenge names the key under which the nonce was stored: it is sent right after the set,
   * decodes to that key, which is well formed, and the stored text is the one encoding of a nonce.
   */
  lemma ChallengeMatchesSet(lib: Library, cfg: Config.Server, domain: string, s: Script, a: nat)
    requires a < |RunOf(s, StepsOf(lib, cfg, domain, s)).trace|
    requires RunOf(s, StepsOf(lib, cfg, domain, s)).trace[a].SendChallenge?
    ensures var t := RunOf(s, StepsOf(lib, cfg, domain, s)).trace;
      && a > 0 && t[a - 1].SetNonce?
      && DecodeChallenge(lib, t[a].challenge) == Ok(t[a - 1].key)
      && (exists id: AttemptID :: t[a - 1].key == KeyOf(id))
      && (exists nonce: Nonce :: t[a - 1].text == NonceText(nonce) && ParseNonce(t[a - 1].text) == Ok(nonce))
  {
    var p := StepsOf(lib, cfg, domain, s);
    ChallengePlace(s, p, a);
    hide StepsOf, RunOf, EncodeChallenge, DecodeChallenge, NonceText, ParseNonce, KeyOf;
    SecretIsDrawn(lib, cfg, domain, s);
    var (id, nonce) := s.random.value;
    KeysAreDistinct(id, id);
    ChallengeRoundTrip(lib, KeyOf(id));
    ParseNonceExact(NonceText(nonce), nonce);
  }

  lemma ChallengePlace(s: Script, p: Steps, a: nat)
    requires a < |RunOf(s, p).trace| && RunOf(s, p).trace[a].SendChallenge?
    ensures Arms(p) && p.challenge.Ok? && a > 0
    ensures var (t, x) := (RunOf(s, p).trace, p.secret.value);
      t[a - 1] == SetNonce(p.instance.value, x.key, x.text) && t[a] == SendChallenge(p.challenge.value)
  {
    PreludeIsEarly(p);
    assert Arms(p);
    Layout(s, p);
    hide Prelude;
  }

  lemma SecretIsDrawn(lib: Library, cfg: Config.Server, domain: string, s: Script)
    requires StepsOf(lib, cfg, domain, s).secret.Ok?
    ensures s.random.Ok?
    ensures var (p, (id, nonce)) := (StepsOf(lib, cfg, domain, s), s.random.value);
      p.secret.value == Secret(KeyOf(id), nonce, NonceText(nonce)) && p.challenge == EncodeChallenge(KeyOf(id))
  {
    hide EncodeChallenge, KeyOf, NonceText;
  }

  /**
   * Attributes are sent only if the response was a strict message of the exact shape around the very text
   * that was stored.
   */
  lemma AttributesNeedTheStoredText(lib: Library, cfg: Config.Server, domain: string, s: Script, n: nat)
    requires n < |RunOf(s, StepsOf(lib, cfg, domain, s)).trace|
    requires RunOf(s, StepsOf(lib, cfg, domain, s)).trace[n].SendAttributes?
    ensures var t := RunOf(s, StepsOf(lib, cfg, domain, s)).trace;
      && n >= 4 && t[n - 4].SetNonce? && s.response.Ok?
      && ReadMessage(s.response.value).Ok?
      && IsOneField(lib, ReadMessage(s.response.value).value, "response", "nonce", t[n - 4].text)
  {
    var p := StepsOf(lib, cfg, domain, s);
    AttributesOnlyAfterProof(s, p, n);
    SecretIsDrawn(lib, cfg, domain, s);
    ResponseIsDecoded(lib, cfg, domain, s);
    ResponseAccepts(lib, s.response.value, p.secret.value.nonce);
  }

  lemma ResponseIsDecoded(lib: Library, cfg: Config.Server, domain: string, s: Script)
    requires StepsOf(lib, cfg, domain, s).got.Ok?
    ensures s.response.Ok? && StepsOf(lib, cfg, domain, s).got == DecodeResponse(lib, s.response.value)
  {
    hide DecodeResponse;
  }

  // ---------------------------------------------------------------- the first failure decides

  /** The fourteen steps of a run, in order, each with its own failure if it came to it. */
  function Failures(lib: Library, cfg: Config.Server, domain: string, s: Script): seq<Option<Error>> {
    var claims := match s.payload case Ok(m) => DecodePayload(lib, m) case Err(e) => Err(e);
    var instance := InstanceStep(lib, cfg, s);
    var response := match s.response case Ok(m) => DecodeResponse(lib, m) case Err(e) => Err(e);
    [ErrorIn(s.payload),
     ErrorIn(claims),
     if claims.Ok? then ErrorIn(ValidateClaims(lib.parseUUID, claims.value)) else None,
     ErrorIn(instance),
     ErrorIn(s.random),
     s.setErr,
     if s.random.Ok? then ErrorIn(EncodeChallenge(KeyOf(s.random.value.0))) else None,
     s.challengeErr,
     ErrorIn(s.response),
     ErrorIn(response),
     if s.random.Ok? && response.Ok? && response.value != s.random.value.1 then Some(Error({Denied})) else None,
     s.unsetErr,
     if instance.Ok? then ErrorIn(AttributesOf(lib.parseUUID, domain, instance.value, cfg.userSelectors)) else None,
     s.attributesErr]
  }

  /** The effects of the run before the set, with this many lookups, if step k is the first to fail. */
  function PreludeUpTo(k: nat, lookups: nat): nat {
    if k <= 2 then 1 else if k == 3 then 1 + lookups else 2 + lookups
  }

  /** And those from the set to the verification of the response. */
  function ExchangedUpTo(k: nat): nat {
    if k <= 6 then 1 else if k == 7 then 2 else 3
  }

  function EffectsUpTo(k: nat, lookups: nat): nat {
    PreludeUpTo(k, lookups) + (if k <= 4 then 0 else ExchangedUpTo(k) + 1 + (if k <= 12 then 0 else 1))
  }

  lemma PreludeFails(lib: Library, cfg: Config.Server, domain: string, s: Script, k: nat)
    requires k <= 4 && Failures(lib, cfg, domain, s)[k].Some?
    requires forall j :: 0 <= j < k ==> Failures(lib, cfg, domain, s)[j].None?
    ensures var p := StepsOf(lib, cfg, domain, s);
      RunOf(s, p) == Outcome(Prelude(p), Failures(lib, cfg, domain, s)[k]) && |Prelude(p)| == PreludeUpTo(k, |p.asked|)
  {
    hide DecodePayload, DecodeResponse, ValidateClaims, EncodeChallenge, AttributesOf, Resolved, KeyOf, NonceText,
         Asked;
    var fs := Failures(lib, cfg, domain, s);
    assert k > 0 ==> fs[0].None?;
    assert k > 1 ==> fs[1].None?;
    assert k > 2 ==> fs[2].None?;
    assert k > 3 ==> fs[3].None?;
  }

  /** The steps of a run that gets as far as the set. */
  lemma SetIsReached(lib: Library, cfg: Config.Server, domain: string, s: Script)
    requires forall j :: 0 <= j <= 4 ==> Failures(lib, cfg, domain, s)[j].None?
    ensures var (p, fs) := (StepsOf(lib, cfg, domain, s), Failures(lib, cfg, domain, s));
      && Arms(p) && |Prelude(p)| == 2 + |p.asked|
      && ErrorIn(p.challenge) == fs[6] && ErrorIn(p.attributes) == fs[12]
      && ErrorIn(p.got) == (if fs[8].Some? then fs[8] else fs[9])
      && (p.got.Ok? ==> VerifyNonce(p.secret.value.nonce, p.got.value) == fs[10])
      && s.setErr == fs[5] && s.challengeErr == fs[7] && s.unsetErr == fs[11] && s.attributesErr == fs[13]
  {
    hide DecodePayload, DecodeResponse, ValidateClaims, EncodeChallenge, AttributesOf, Resolved, KeyOf, NonceText,
         Asked, VerifyNonce;
    var p, fs := StepsOf(lib, cfg, domain, s), Failures(lib, cfg, domain, s);
    assert fs[0].None? && fs[1].None? && fs[2].None? && fs[3].None? && fs[4].None?;
    if p.got.Ok? {
      VerifyExactly(p.secret.value.nonce, p.got.value);
    }
  }

  lemma ExchangeFails(lib: Library, cfg: Config.Server, domain: string, s: Script, k: nat)
    requires 5 <= k <= 14 && (k < 14 ==> Failures(lib, cfg, domain, s)[k].Some?)
    requires forall j :: 0 <= j < k ==> Failures(lib, cfg, domain, s)[j].None?
    ensures Arms(StepsOf(lib, cfg, domain, s))
    ensures var p := StepsOf(lib, cfg, domain, s);
            var done := Exchanged(s, p, p.instance.value, p.secret.value);
      && done.err == (if k <= 10 then Failures(lib, cfg, domain, s)[k] else None) && |done.trace| == ExchangedUpTo(k)
  {
    SetIsReached(lib, cfg, domain, s);
    var fs := Failures(lib, cfg, domain, s);
    hide Failures, StepsOf, VerifyNonce, Prelude;
    assert k > 5 ==> fs[5].None?;
    assert k > 6 ==> fs[6].None?;
    assert k > 7 ==> fs[7].None?;
    assert k > 8 ==> fs[8].None?;
    assert k > 9 ==> fs[9].None?;
    assert k > 10 ==> fs[10].None?;
  }

  /**
   * A run returns the error of the first step that failed, whatever the later ones, the cleanup among
   * them, return; it returns nil if and only if none failed, the sending of the attributes included.
   * Its effects are those of the steps before and its own, and the unset once the set was reached.
   */
  lemma FirstFailureDecides(lib: Library, cfg: Config.Server, domain: string, s: Script)
    ensures var (p, fs) := (StepsOf(lib, cfg, domain, s), Failures(lib, cfg, domain, s));
            var (r, k) := (RunOf(s, p), FirstFailed(fs));
      && r.err == FirstError(fs) && (r.err.None? <==> k == 14)
      && |r.trace| == EffectsUpTo(k, |p.asked|)
      && (k >= 5 ==> r.trace[2 + |p.asked| + ExchangedUpTo(k)].UnsetNonce?)
      && (k >= 13 ==> r.trace[|r.trace| - 1].SendAttributes?)
  {
    hide *;
    var p, fs := StepsOf(lib, cfg, domain, s), Failures(lib, cfg, domain, s);
    var k := FirstFailed(fs);
    FailuresAre(lib, cfg, domain, s);
    FirstErrorIs(fs);
    if k <= 4 {
      PreludeFails(lib, cfg, domain, s, k);
      NothingArmed(k, |p.asked|);
    } else {
      SetIsReached(lib, cfg, domain, s);
      ExchangeFails(lib, cfg, domain, s, k);
      AttemptEnds(s, p, fs, k);
      AllArmed(k, |p.asked|);
    }
  }

  lemma FailuresAre(lib: Library, cfg: Config.Server, domain: string, s: Script)
    ensures |Failures(lib, cfg, domain, s)| == 14
  {
  }

  lemma NothingArmed(k: nat, lookups: nat)
    requires k <= 4
    ensures EffectsUpTo(k, lookups) == PreludeUpTo(k, lookups)
  {
  }

  lemma AllArmed(k: nat, lookups: nat)
    requires k >= 5
    ensures EffectsUpTo(k, lookups) == 2 + lookups + ExchangedUpTo(k) + 1 + (if k <= 12 then 0 else 1)
  {
  }

  lemma AttemptEnds(s: Script, p: Steps, fs: seq<Option<Error>>, k: nat)
    requires Arms(p) && |fs| == 14 && 5 <= k <= 14 && (k < 14 ==> fs[k].Some?)
    requires forall j :: 0 <= j < k ==> fs[j].None?
    requires fs[11] == s.unsetErr && fs[12] == ErrorIn(p.attributes) && fs[13] == s.attributesErr
    requires var done := Exchanged(s, p, p.instance.value, p.secret.value);
      done.err == (if k <= 10 then fs[k] else None) && |done.trace| == ExchangedUpTo(k)
    ensures var (r, before) := (RunOf(s, p), |Prelude(p)|);
      && r.err == (if k < 14 then fs[k] else None)
      && |r.trace| == before + ExchangedUpTo(k) + 1 + (if k <= 12 then 0 else 1)
      && r.trace[before + ExchangedUpTo(k)].UnsetNonce?
      && (k >= 13 ==> r.trace[|r.trace| - 1].SendAttributes?)
  {
    hide Exchanged, Prelude;
    assert k > 11 ==> fs[11].None?;
    assert k > 12 ==> fs[12].None?;
    assert k > 13 ==> fs[13].None?;
  }
}
