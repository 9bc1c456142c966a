/**
 * The guest, the server and the store composed: what a nil from the server proves whatever guest and
 * network do, and that a run without faults ends in attributes.
 */
module HonestRun {
  import opened Base
  import opened Strings
  import opened Utf8
  import opened Attest
  import opened Selectors
  import opened Incus
  import opened Wire
  import opened WireProofs
  import opened Mutation
  import opened Interleaving
  import opened Ownership
  import opened Walkthroughs
  import Config
  import Resolve
  import Service
  import Guest

  // ---------------------------------------------------------------- the messages

  /** The claims the server makes of a guest's: texts as json.Marshal writes them, canonical UUID. */
  function ServerClaims(lib: Library, c: Claims): Claims {
    match lib.parseUUID(c.uuid)
    case Some(id) => Carried(c, id)
    case None => c
  }

  lemma VirtualMachineSurvives()
    ensures Coerce(VIRTUAL_MACHINE) == VIRTUAL_MACHINE
  {
    PlainSurvives(VIRTUAL_MACHINE);
  }

  /** What the server makes of the payload a guest sends: the guest's claims, canonical, and valid. */
  lemma ServerReadsGuestClaims(lib: Library, g: Guest.Script, s: Service.Script)
    requires Contract(lib) && Guest.PayloadStep(lib, g).Ok?
    requires s.payload == Guest.PayloadStep(lib, g)
    ensures g.claims.Ok? && lib.parseUUID(g.claims.value.uuid).Some?
    ensures Service.ClaimsStep(lib, s) == Ok(ServerClaims(lib, g.claims.value))
  {
    hide EncodePayload, DecodePayload, Coerce, ValidTexts, Plain;
    var c := g.claims.value;
    assert EncodePayload(lib, c) == s.payload;
    var id := lib.parseUUID(c.uuid).value;
    PayloadRoundTrip(lib, c);
    VirtualMachineSurvives();
    assert ValidateClaims(lib.parseUUID, Carried(c, id)) == Ok(id);
  }

  /**
   * The guest that receives the server's challenge and reads the stored text answers with a response
   * that the server decodes to the very nonce it stored.
   */
  lemma GuestAnswers(lib: Library, id: AttemptID, nonce: Nonce)
    ensures EncodeChallenge(KeyOf(id)).Ok?
    ensures DecodeChallenge(lib, EncodeChallenge(KeyOf(id)).value) == Ok(KeyOf(id))
    ensures Guest.ResponseStep(lib, Ok(NonceText(nonce))).Ok?
    ensures DecodeResponse(lib, Guest.ResponseStep(lib, Ok(NonceText(nonce))).value) == Ok(nonce)
  {
    hide EncodeChallenge, DecodeChallenge, EncodeResponse, DecodeResponse, ParseNonce;
    KeysAreDistinct(id, id);
    ChallengeRoundTrip(lib, KeyOf(id));
    ParseNonceExact(NonceText(nonce), nonce);
    ResponseRoundTrip(lib, nonce);
  }

  // ---------------------------------------------------------------- the store's answers

  /** A GET without fault. */
  function Answer(tag: Tagger, s: Store, at: Location): (reply: GetReply)
    ensures Truthful(tag, s, at, reply)
  {
    if at in s then GetRecord(Some(s[at]), tag(s[at])) else GetFault(PLAIN_FAULT.(status := Some(404)))
  }

  /** The lookups of the host client on a store. */
  function StoreLookup(parse: UuidParser, tag: Tagger, standalone: string, s: Store, name: string): Resolve.Lookup {
    p => Resolve.HostLookup(parse, standalone, Location(p, name), Answer(tag, s, Location(p, name)))
  }

  /** The record, seen from its project, is the VM that the claims describe. */
  predicate Describes(parse: UuidParser, standalone: string, c: Claims, at: Location, r: Record) {
    && MapInstance(parse, at, Some(r), standalone).Ok?
    && MatchClaims(parse, c, MapInstance(parse, at, Some(r), standalone).value).None?
  }

  /**
   * Exactly one allowed project has, under the claimed name, the VM of the claims; no record under that name
   * is unusable.
   */
  ghost predicate OneRecord(parse: UuidParser, standalone: string, s: Store, projects: seq<string>, c: Claims,
                            project: string) {
    && project in projects && Location(project, c.name) in s
    && Describes(parse, standalone, c, Location(project, c.name), s[Location(project, c.name)])
    && forall q :: q in projects && Location(q, c.name) in s ==>
         && MapInstance(parse, Location(q, c.name), Some(s[Location(q, c.name)]), standalone).Ok?
         && (Describes(parse, standalone, c, Location(q, c.name), s[Location(q, c.name)]) ==> q == project)
  }

  /** The snapshot of a record, field by field. */
  function Snapshot(parse: UuidParser, standalone: string, project: string, r: Record): Instance {
    var uuid := match parse(UuidOf(r)) case Some(id) => id case None => "";
    Instance(project, r.name, uuid, r.kind, if r.location == STANDALONE then standalone else r.location,
             ConfigValue(Expanded(r), CLOUD_INIT_KEY), r.writable.profiles, Expanded(r))
  }

  lemma SnapshotOfRecord(parse: UuidParser, standalone: string, c: Claims, project: string, r: Record)
    requires UuidContract(parse) && Describes(parse, standalone, c, Location(project, c.name), r)
    ensures var i := Snapshot(parse, standalone, project, r);
      && MapInstance(parse, Location(project, c.name), Some(r), standalone) == Ok(i)
      && i.project == project && i.name == c.name && parse(i.uuid) == Some(i.uuid)
      && IsTarget(parse, i, Some(r))
  {
    SnapshotIsTarget(parse, Location(project, c.name), r, standalone);
  }

  /** The server resolves to the snapshot of the one matching record, with a project hint and without. */
  lemma OneRecordResolves(parse: UuidParser, tag: Tagger, standalone: string, s: Store, projects: seq<string>,
                          c: Claims, project: string, lookup: Resolve.Lookup)
    requires UuidContract(parse) && Config.Distinct(projects) && "" !in projects
    requires OneRecord(parse, standalone, s, projects, c, project)
    requires forall p :: lookup(p) == StoreLookup(parse, tag, standalone, s, c.name)(p)
    ensures Resolve.Resolved(parse, projects, lookup, c)
         == Ok(Snapshot(parse, standalone, project, s[Location(project, c.name)]))
  {
    var r := s[Location(project, c.name)];
    SnapshotOfRecord(parse, standalone, c, project, r);
    var i := Snapshot(parse, standalone, project, r);
    forall p ensures lookup(p).Found? ==> lookup(p).instance.project == p {
      LookupIsScoped(parse, tag, standalone, s, c.name, p);
    }
    hide MatchClaims, MapInstance, Snapshot;
    assert lookup(project) == Resolve.Found(i);
    forall p | p in projects
      ensures !lookup(p).LookupFault? && (Resolve.IsMatch(parse, lookup, c, p) <==> p == project) {
      assert lookup(p) == StoreLookup(parse, tag, standalone, s, c.name)(p);
    }
    Resolve.OneMatchResolves(parse, projects, lookup, c, i);
  }

  lemma LookupIsScoped(parse: UuidParser, tag: Tagger, standalone: string, s: Store, name: string, p: string)
    ensures var reply := StoreLookup(parse, tag, standalone, s, name)(p);
      reply.Found? ==> reply.instance.project == p
  {
    Resolve.HostLookupIsScoped(parse, standalone, Location(p, name), Answer(tag, s, Location(p, name)));
  }

  lemma FoundIsSnapshot(parse: UuidParser, tag: Tagger, standalone: string, s: Store, at: Location, get: GetReply,
                        i: Instance)
    requires Truthful(tag, s, at, get) && Resolve.HostLookup(parse, standalone, at, get) == Resolve.Found(i)
    ensures at in s && i == Snapshot(parse, standalone, at.project, s[at])
    ensures IsTarget(parse, i, Some(s[at])) <==> i.kind == VIRTUAL_MACHINE
  {
    SnapshotIsTarget(parse, at, s[at], standalone);
  }

  // ---------------------------------------------------------------- the server on a store

  function Returned(f: Option<Fault>): Option<Error> {
    match f
    case None => None
    case Some(fault) => Some(Resolve.ErrorOf(fault))
  }

  /** At instant n of the run, before the attempt began, the server answered this GET truthfully. */
  ghost predicate AnsweredAt(parse: UuidParser, tag: Tagger, w0: World, es: seq<Event>, id: AttemptID, at: Location,
                             n: nat, get: GetReply) {
    && n <= |es| && Run(parse, tag, w0, es[..n]).Some?
    && var m := Run(parse, tag, w0, es[..n]).value;
    && id !in m.attempts && Truthful(tag, m.store, at, get)
  }

  ghost predicate LookedUpFrom(parse: UuidParser, tag: Tagger, standalone: string, w0: World, es: seq<Event>,
                               id: AttemptID, at: Location, reply: Resolve.LookupReply) {
    exists n: nat, get ::
      AnsweredAt(parse, tag, w0, es, id, at, n, get) && reply == Resolve.HostLookup(parse, standalone, at, get)
  }

  /**
   * What the server is told about the store is true of one run of it: each lookup was answered at
   * some instant before the attempt, with any fault; the attempt is for what was resolved, with what
   * was drawn, and ends closed; SetNonce and UnsetNonce return what the attempt's calls returned.
   * Nothing is said of the guest or of the messages.
   */
  ghost predicate OnStore(lib: Library, tag: Tagger, standalone: string, cfg: Config.Server,
                          w0: World, es: seq<Event>, w: World, id: AttemptID, s: Service.Script) {
    && Initial(w0) && Reaches(lib.parseUUID, tag, w0, es, w) && id in w.attempts && w.attempts[id].stage.Closed?
    && s.random == Ok((id, w.attempts[id].nonce))
    && s.setErr == Returned(w.attempts[id].stage.setErr)
    && s.unsetErr == Returned(w.attempts[id].stage.unsetErr)
    && (Service.InstanceStep(lib, cfg, s).Ok? ==> Service.InstanceStep(lib, cfg, s).value == w.attempts[id].target)
    && (Service.ClaimsStep(lib, s).Ok? ==>
          forall p :: p in cfg.projects ==>
            LookedUpFrom(lib.parseUUID, tag, standalone, w0, es, id,
                         Location(p, Service.ClaimsStep(lib, s).value.name), s.lookup(p)))
  }

  /** What a nil from the server says of its own replies. */
  lemma NilSteps(lib: Library, cfg: Config.Server, domain: string, s: Service.Script)
    requires Service.RunOf(s, Service.StepsOf(lib, cfg, domain, s)).err.None?
    ensures s.setErr.None? && s.unsetErr.None? && s.attributesErr.None? && s.random.Ok?
    ensures Service.ClaimsStep(lib, s).Ok? && Service.InstanceStep(lib, cfg, s).Ok?
    ensures Service.ResponseStep(lib, s) == Ok(s.random.value.1)
    ensures var (i, t) := (Service.InstanceStep(lib, cfg, s).value,
                           Service.RunOf(s, Service.StepsOf(lib, cfg, domain, s)).trace);
      && t != [] && t[|t| - 1].SendAttributes?
      && AttributesOf(lib.parseUUID, domain, i, cfg.userSelectors) == Ok(t[|t| - 1].attributes)
  {
    var p := Service.StepsOf(lib, cfg, domain, s);
    Service.SuccessHasSent(s, p);
    Service.AttributesOnlyAfterProof(s, p, |Service.RunOf(s, p).trace| - 1);
    hide Service.RunOf, Service.ClaimsStep, Service.InstanceStep, Service.ChallengeStep, Service.ResponseStep,
         Service.AskedStep, AttributesOf;
  }

  /** The instance the server resolved was, at an instant before the attempt, this record of this project. */
  ghost predicate SeenInStore(lib: Library, tag: Tagger, standalone: string, w0: World, es: seq<Event>, id: AttemptID,
                              i: Instance, n: nat) {
    && n <= |es| && Run(lib.parseUUID, tag, w0, es[..n]).Some?
    && var m := Run(lib.parseUUID, tag, w0, es[..n]).value;
    && id !in m.attempts && Place(i) in m.store
    && i == Snapshot(lib.parseUUID, standalone, i.project, m.store[Place(i)])
    && IsTarget(lib.parseUUID, i, Some(m.store[Place(i)]))
  }

  lemma ResolvedWasSeen(lib: Library, tag: Tagger, standalone: string, cfg: Config.Server,
                        w0: World, es: seq<Event>, w: World, id: AttemptID, s: Service.Script)
    requires OnStore(lib, tag, standalone, cfg, w0, es, w, id, s)
    requires Service.ClaimsStep(lib, s).Ok? && Service.InstanceStep(lib, cfg, s).Ok?
    ensures var i := Service.InstanceStep(lib, cfg, s).value;
      && i.project in cfg.projects && i.kind == VIRTUAL_MACHINE
      && MatchClaims(lib.parseUUID, Service.ClaimsStep(lib, s).value, i).None?
      && exists n: nat :: SeenInStore(lib, tag, standalone, w0, es, id, i, n)
  {
    var c, i := Service.ClaimsStep(lib, s).value, Service.InstanceStep(lib, cfg, s).value;
    ResolvedIsInstance(lib, cfg, s);
    hide Run, MapInstance, Snapshot, Service.ClaimsStep, Service.InstanceStep, MatchClaims, IsTarget, Truthful;
    forall p | p in cfg.projects && s.lookup(p).Found?
      ensures s.lookup(p).instance.project == p && s.lookup(p).instance.name == c.name {
      var n: nat, get :| AnsweredAt(lib.parseUUID, tag, w0, es, id, Location(p, c.name), n, get)
                         && s.lookup(p) == Resolve.HostLookup(lib.parseUUID, standalone, Location(p, c.name), get);
      Resolve.HostLookupIsScoped(lib.parseUUID, standalone, Location(p, c.name), get);
    }
    Resolve.ResolvedIsAllowed(lib.parseUUID, cfg.projects, s.lookup, c);
    var at := Location(i.project, c.name);
    var n: nat, get :| AnsweredAt(lib.parseUUID, tag, w0, es, id, at, n, get)
                       && s.lookup(i.project) == Resolve.HostLookup(lib.parseUUID, standalone, at, get);
    var m := Run(lib.parseUUID, tag, w0, es[..n]).value;
    FoundIsSnapshot(lib.parseUUID, tag, standalone, m.store, at, get, i);
    assert SeenInStore(lib, tag, standalone, w0, es, id, i, n);
  }

  /** At the instant it was asked, this project had no record under the name, or one that does not match. */
  ghost predicate RuledOut(lib: Library, tag: Tagger, standalone: string, w0: World, es: seq<Event>, id: AttemptID,
                           c: Claims, q: string, n: nat) {
    && n <= |es| && Run(lib.parseUUID, tag, w0, es[..n]).Some?
    && var m := Run(lib.parseUUID, tag, w0, es[..n]).value;
    && id !in m.attempts
    && (Location(q, c.name) in m.store ==>
          var r := m.store[Location(q, c.name)];
          && MapInstance(lib.parseUUID, Location(q, c.name), Some(r), standalone).Ok?
          && MatchClaims(lib.parseUUID, c, Snapshot(lib.parseUUID, standalone, q, r)).Some?)
  }

  /** Without a hint, every other allowed project was asked, and was ruled out. */
  lemma OthersRuledOut(lib: Library, tag: Tagger, standalone: string, cfg: Config.Server,
                       w0: World, es: seq<Event>, w: World, id: AttemptID, s: Service.Script, q: string)
    requires OnStore(lib, tag, standalone, cfg, w0, es, w, id, s) && Config.Distinct(cfg.projects)
    requires Service.ClaimsStep(lib, s).Ok? && Service.InstanceStep(lib, cfg, s).Ok?
    requires Service.ClaimsStep(lib, s).value.project == ""
    requires q in cfg.projects && q != Service.InstanceStep(lib, cfg, s).value.project
    ensures exists n: nat :: RuledOut(lib, tag, standalone, w0, es, id, Service.ClaimsStep(lib, s).value, q, n)
  {
    var c, i := Service.ClaimsStep(lib, s).value, Service.InstanceStep(lib, cfg, s).value;
    ResolvedIsInstance(lib, cfg, s);
    ResolvedWasSeen(lib, tag, standalone, cfg, w0, es, w, id, s);
    OtherDoesNotMatch(lib, tag, standalone, cfg, w0, es, w, id, s, q);
    hide Run, MapInstance, Snapshot, Service.ClaimsStep, Service.InstanceStep, MatchClaims, Resolve.HostLookup;
    var at := Location(q, c.name);
    var n: nat, get :| AnsweredAt(lib.parseUUID, tag, w0, es, id, at, n, get)
                       && s.lookup(q) == Resolve.HostLookup(lib.parseUUID, standalone, at, get);
    var m := Run(lib.parseUUID, tag, w0, es[..n]).value;
    Resolve.LookupExactly(lib.parseUUID, standalone, at, get);
    if s.lookup(q).Found? {
      FoundIsSnapshot(lib.parseUUID, tag, standalone, m.store, at, get, s.lookup(q).instance);
    }
    assert RuledOut(lib, tag, standalone, w0, es, id, c, q, n);
  }

  lemma OtherDoesNotMatch(lib: Library, tag: Tagger, standalone: string, cfg: Config.Server,
                          w0: World, es: seq<Event>, w: World, id: AttemptID, s: Service.Script, q: string)
    requires OnStore(lib, tag, standalone, cfg, w0, es, w, id, s) && Config.Distinct(cfg.projects)
    requires Service.ClaimsStep(lib, s).Ok? && Service.InstanceStep(lib, cfg, s).Ok?
    requires Service.ClaimsStep(lib, s).value.project == ""
    requires q in cfg.projects && q != Service.InstanceStep(lib, cfg, s).value.project
    ensures s.lookup(q).NotFound?
            || (s.lookup(q).Found?
                && MatchClaims(lib.parseUUID, Service.ClaimsStep(lib, s).value, s.lookup(q).instance).Some?)
  {
    var c, i := Service.ClaimsStep(lib, s).value, Service.InstanceStep(lib, cfg, s).value;
    ResolvedIsInstance(lib, cfg, s);
    hide Run, MapInstance, Service.ClaimsStep, Service.InstanceStep, MatchClaims, Truthful;
    Resolve.ScanContents(lib.parseUUID, cfg.projects, s.lookup, c);
    Resolve.UnhintedExactly(lib.parseUUID, cfg.projects, s.lookup, c);
    var p :| Resolve.OnlyMatch(lib.parseUUID, cfg.projects, s.lookup, c, p) && i == s.lookup(p).instance;
    var n: nat, get :| AnsweredAt(lib.parseUUID, tag, w0, es, id, Location(p, c.name), n, get)
                       && s.lookup(p) == Resolve.HostLookup(lib.parseUUID, standalone, Location(p, c.name), get);
    Resolve.HostLookupIsScoped(lib.parseUUID, standalone, Location(p, c.name), get);
    assert p == i.project;
  }

  predicate WasSet(a: Attempt) {
    match a.stage
    case Setting(_) => false
    case Holding => true
    case Cleaning(setErr, _) => setErr.None?
    case Closed(setErr, _) => setErr.None?
  }

  lemma WasSetStep(parse: UuidParser, tag: Tagger, w: World, e: Event, id: AttemptID)
    requires Allowed(tag, w, e) && id in Apply(parse, tag, w, e).attempts
    ensures var a := Apply(parse, tag, w, e).attempts[id];
      && (id in w.attempts && WasSet(w.attempts[id]) ==> WasSet(a))
      && (WasSet(a) ==> a.stage.Holding? || (id in w.attempts && WasSet(w.attempts[id])))
      && (id in w.attempts ==> id in Apply(parse, tag, w, e).attempts)
  {
  }

  lemma StillDuring(parse: UuidParser, tag: Tagger, w0: World, es: seq<Event>, id: AttemptID, call: Call)
    requires es != [] && AchievedDuring(parse, tag, w0, es[..|es| - 1], id, call)
    ensures AchievedDuring(parse, tag, w0, es, id, call)
  {
    hide AchievedNow, Run;
    var init := es[..|es| - 1];
    var n: nat :| n <= |init| && Run(parse, tag, w0, init[..n]).Some?
                  && AchievedNow(parse, Run(parse, tag, w0, init[..n]).value, id, call);
    assert init[..n] == es[..n];
  }

  /** An attempt whose SetNonce has returned nil, at any later time: its target held the nonce during that call. */
  lemma {:induction false} SetWasAchieved(parse: UuidParser, tag: Tagger, w0: World, es: seq<Event>, w: World,
                                          id: AttemptID)
    requires TagContract(tag) && Initial(w0) && Reaches(parse, tag, w0, es, w)
    requires id in w.attempts && WasSet(w.attempts[id])
    ensures AchievedDuring(parse, tag, w0, es, id, SetCall(id, w.attempts[id]))
    decreases |es|
  {
    hide AchievedDuring;
    if w.attempts[id].stage.Holding? {
      SuccessMeansAchieved(parse, tag, w0, es, w, id);
    } else {
      var init := es[..|es| - 1];
      var before := Run(parse, tag, w0, init).value;
      hide Allowed, Apply;
      WasSetStep(parse, tag, before, es[|es| - 1], id);
      AttemptsStay(parse, tag, before, es[|es| - 1]);
      SetWasAchieved(parse, tag, w0, init, before, id);
      StillDuring(parse, tag, w0, es, id, SetCall(id, w.attempts[id]));
    }
  }

  /**
   * What a nil from the server proves, for every guest, every network and every other writer: the
   * attributes sent are those of an instance that, before the attempt, was the record of a VM in an
   * allowed project and matched the claims, no other allowed project having a match if there was no
   * hint; while the attempt was set, that VM held the nonce; the
   * response was strict and carried exactly that nonce; and the attempt ended without error, the key
   * having been gone from the VM at an instant of the cleanup.
   */
  lemma NilIsProven(lib: Library, tag: Tagger, standalone: string, cfg: Config.Server, domain: string,
                    w0: World, es: seq<Event>, w: World, id: AttemptID, s: Service.Script)
    requires TagContract(tag) && OnStore(lib, tag, standalone, cfg, w0, es, w, id, s)
    requires Service.RunOf(s, Service.StepsOf(lib, cfg, domain, s)).err.None?
    ensures var (a, t) := (w.attempts[id], Service.RunOf(s, Service.StepsOf(lib, cfg, domain, s)).trace);
      && Service.ClaimsStep(lib, s).Ok? && a.target.project in cfg.projects && a.target.kind == VIRTUAL_MACHINE
      && MatchClaims(lib.parseUUID, Service.ClaimsStep(lib, s).value, a.target).None?
      && (exists n: nat :: SeenInStore(lib, tag, standalone, w0, es, id, a.target, n))
      && (Service.ClaimsStep(lib, s).value.project == "" && Config.Distinct(cfg.projects) ==>
            forall q :: q in cfg.projects && q != a.target.project ==>
              exists n: nat :: RuledOut(lib, tag, standalone, w0, es, id, Service.ClaimsStep(lib, s).value, q, n))
      && s.attributesErr.None? && t != [] && t[|t| - 1].SendAttributes?
      && AttributesOf(lib.parseUUID, domain, a.target, cfg.userSelectors) == Ok(t[|t| - 1].attributes)
      && s.response.Ok? && DecodeResponse(lib, s.response.value) == Ok(a.nonce)
      && AchievedDuring(lib.parseUUID, tag, w0, es, id, SetCall(id, a))
      && a.stage == Closed(None, None)
      && AchievedDuring(lib.parseUUID, tag, w0, es, id, UnsetCall(id, a))
  {
    NilSteps(lib, cfg, domain, s);
    OnStoreParts(lib, tag, standalone, cfg, w0, es, w, id, s);
    ResponseReceived(lib, s);
    hide *;
    ResolvedWasSeen(lib, tag, standalone, cfg, w0, es, w, id, s);
    SetWasAchieved(lib.parseUUID, tag, w0, es, w, id);
    SuccessMeansAchieved(lib.parseUUID, tag, w0, es, w, id);
    if Service.ClaimsStep(lib, s).value.project == "" && Config.Distinct(cfg.projects) {
      forall q | q in cfg.projects && q != w.attempts[id].target.project
        ensures exists n: nat :: RuledOut(lib, tag, standalone, w0, es, id, Service.ClaimsStep(lib, s).value, q, n) {
        OthersRuledOut(lib, tag, standalone, cfg, w0, es, w, id, s, q);
      }
    }
  }

  lemma OnStoreParts(lib: Library, tag: Tagger, standalone: string, cfg: Config.Server,
                     w0: World, es: seq<Event>, w: World, id: AttemptID, s: Service.Script)
    requires OnStore(lib, tag, standalone, cfg, w0, es, w, id, s)
    ensures Initial(w0) && Reaches(lib.parseUUID, tag, w0, es, w) && id in w.attempts
    ensures s.random == Ok((id, w.attempts[id].nonce))
    ensures s.setErr == Returned(w.attempts[id].stage.setErr) && s.unsetErr == Returned(w.attempts[id].stage.unsetErr)
    ensures Service.InstanceStep(lib, cfg, s).Ok? ==> Service.InstanceStep(lib, cfg, s).value == w.attempts[id].target
    ensures s.setErr.None? ==> WasSet(w.attempts[id])
    ensures s.setErr.None? && s.unsetErr.None? ==>
              w.attempts[id].stage == Closed(None, None) && UnsetDone(w.attempts[id])
  {
    hide Reaches, Service.ClaimsStep, Service.InstanceStep;
  }

  lemma ResponseReceived(lib: Library, s: Service.Script)
    requires Service.ResponseStep(lib, s).Ok?
    ensures s.response.Ok? && Service.ResponseStep(lib, s) == DecodeResponse(lib, s.response.value)
  {
    hide DecodeResponse;
  }

  // ---------------------------------------------------------------- three parties, one run

  /**
   * One attestation: what guest and server met, when in the run of the store the server looked and at
   * what, and the guest's reads with the instants at which they were made.
   */
  datatype Episode = Episode(id: AttemptID, g: Guest.Script, s: Service.Script, polled: Result<string, Error>,
                             looked: nat, seen: Store, polls: seq<Guest.ReadReply>, instants: seq<nat>)

  /** No message is lost or changed between guest and server. */
  ghost predicate Delivered(lib: Library, x: Episode) {
    && Guest.PayloadStep(lib, x.g).Ok? && x.s.payload == Guest.PayloadStep(lib, x.g)
    && x.g.challenge == EncodeChallenge(KeyOf(x.id))
    && x.s.response == Guest.ResponseStep(lib, x.polled)
    && x.g.payloadErr.None? && x.s.challengeErr.None? && x.g.responseErr.None? && x.s.attributesErr.None?
    && x.g.claims.Ok?
  }

  /**
   * The replies that guest and server get are those of one run of the store, and no message is lost:
   * the server's lookups are made at one instant without fault, and the guest polls while the nonce
   * is held.
   */
  ghost predicate Joined(lib: Library, tag: Tagger, standalone: string, cfg: Config.Server,
                         w0: World, es: seq<Event>, w: World, x: Episode) {
    && OnStore(lib, tag, standalone, cfg, w0, es, w, x.id, x.s)
    && Delivered(lib, x)
    && LookedUp(lib, tag, standalone, w0, es, x)
    && ReadBack(lib, tag, w0, es, w, x)
  }

  ghost predicate LookedUp(lib: Library, tag: Tagger, standalone: string, w0: World, es: seq<Event>, x: Episode)
    requires Delivered(lib, x)
  {
    && x.looked <= |es| && Run(lib.parseUUID, tag, w0, es[..x.looked]).Some?
    && x.seen == Run(lib.parseUUID, tag, w0, es[..x.looked]).value.store
    && forall p :: x.s.lookup(p) ==
         StoreLookup(lib.parseUUID, tag, standalone, x.seen, ServerClaims(lib, x.g.claims.value).name)(p)
  }

  /** What the guest channel may answer: the truth, or a fault. */
  predicate TruthfulRead(s: Store, at: Location, key: string, reply: Guest.ReadReply) {
    match reply
    case Value(text) => GuestRead(s, at, key) == Some(text)
    case Hidden => GuestRead(s, at, key) == None
    case ReadFault(_, _, _) => true
  }

  /** The k-th read shows the store as it was at its instant, at any stage of the attempt, or is a fault. */
  ghost predicate ReadAt(lib: Library, tag: Tagger, w0: World, es: seq<Event>, w: World, x: Episode, k: nat)
    requires x.id in w.attempts && k < |x.polls| == |x.instants|
  {
    && x.instants[k] <= |es| && Run(lib.parseUUID, tag, w0, es[..x.instants[k]]).Some?
    && var m := Run(lib.parseUUID, tag, w0, es[..x.instants[k]]).value;
    && TruthfulRead(m.store, At(SetCall(x.id, w.attempts[x.id])), KeyOf(x.id), x.polls[k])
  }

  /** And it shows the store while the nonce was held. */
  ghost predicate HeldAt(lib: Library, tag: Tagger, w0: World, es: seq<Event>, x: Episode, k: nat)
    requires k < |x.polls| == |x.instants|
  {
    && x.instants[k] <= |es| && Run(lib.parseUUID, tag, w0, es[..x.instants[k]]).Some?
    && var m := Run(lib.parseUUID, tag, w0, es[..x.instants[k]]).value;
    && x.id in m.attempts && m.attempts[x.id].stage.Holding?
  }

  /**
   * The guest's polling is any sequence of such reads, hidden keys and faults among them, that reaches
   * one without fault that shows the store while the nonce was held; and it ends as it does.
   */
  ghost predicate ReadBack(lib: Library, tag: Tagger, w0: World, es: seq<Event>, w: World, x: Episode)
    requires x.id in w.attempts
  {
    && |x.polls| == |x.instants| && Guest.PolledTo(x.polls, x.polled)
    && (forall k :: 0 <= k < |x.polls| ==> ReadAt(lib, tag, w0, es, w, x, k))
    && (exists k :: 0 <= k < |x.polls| && !x.polls[k].ReadFault? && HeldAt(lib, tag, w0, es, x, k))
  }

  /** A read without fault while the nonce is held finds exactly the stored text. */
  lemma ReadFindsNonce(lib: Library, tag: Tagger, w0: World, es: seq<Event>, w: World, x: Episode, k: nat)
    requires TagContract(tag) && Initial(w0) && Reaches(lib.parseUUID, tag, w0, es, w) && x.id in w.attempts
    requires k < |x.polls| == |x.instants| && ReadAt(lib, tag, w0, es, w, x, k)
    requires !x.polls[k].ReadFault? && HeldAt(lib, tag, w0, es, x, k)
    requires GentleRun(lib.parseUUID, tag, w0, es, x.id)
    ensures x.polls[k] == Guest.Value(NonceText(w.attempts[x.id].nonce))
  {
    var n := x.instants[k];
    var m := Run(lib.parseUUID, tag, w0, es[..n]).value;
    TargetStays(lib.parseUUID, tag, w0, es, w, x.id, n);
    GentlePrefix(lib.parseUUID, tag, w0, es, x.id, n);
    hide Run, NonceText, GuestRead;
    PresentWhileHolding(lib.parseUUID, tag, w0, es[..n], m, x.id);
  }

  /** However often the key was hidden or a read failed before it, the polling returns exactly the stored text. */
  lemma GuestReadsNonce(lib: Library, tag: Tagger, w0: World, es: seq<Event>, w: World, x: Episode)
    requires TagContract(tag) && Initial(w0) && Reaches(lib.parseUUID, tag, w0, es, w) && x.id in w.attempts
    requires ReadBack(lib, tag, w0, es, w, x) && GentleRun(lib.parseUUID, tag, w0, es, x.id)
    ensures x.polled == Ok(NonceText(w.attempts[x.id].nonce)) && WasSet(w.attempts[x.id])
  {
    var k :| 0 <= k < |x.polls| && !x.polls[k].ReadFault? && HeldAt(lib, tag, w0, es, x, k);
    assert ReadAt(lib, tag, w0, es, w, x, k);
    HeldThenSet(lib.parseUUID, tag, w0, es, w, x.id, x.instants[k]);
    hide *;
    ReadFindsNonce(lib, tag, w0, es, w, x, k);
    Guest.ValueEndsPolling(x.polls, x.polled, k, NonceText(w.attempts[x.id].nonce));
  }

  /** Once the nonce was held, SetNonce had returned nil. */
  lemma {:induction false} HeldThenSet(parse: UuidParser, tag: Tagger, w0: World, es: seq<Event>, w: World,
                                       id: AttemptID, n: nat)
    requires Reaches(parse, tag, w0, es, w) && n <= |es| && Run(parse, tag, w0, es[..n]).Some?
    requires var m := Run(parse, tag, w0, es[..n]).value; id in m.attempts && m.attempts[id].stage.Holding?
    ensures id in w.attempts && WasSet(w.attempts[id])
    decreases |es|
  {
    if n == |es| {
      assert es[..n] == es;
    } else {
      var init := es[..|es| - 1];
      assert init[..n] == es[..n];
      var before := Run(parse, tag, w0, init).value;
      HeldThenSet(parse, tag, w0, init, before, id, n);
      AttemptsStay(parse, tag, before, es[|es| - 1]);
      WasSetStep(parse, tag, before, es[|es| - 1], id);
    }
  }

  lemma {:induction false} GentlePrefix(parse: UuidParser, tag: Tagger, w0: World, es: seq<Event>, id: AttemptID,
                                        n: nat)
    requires n <= |es| && Run(parse, tag, w0, es).Some? && GentleRun(parse, tag, w0, es, id)
    ensures Run(parse, tag, w0, es[..n]).Some? && GentleRun(parse, tag, w0, es[..n], id)
    decreases |es|
  {
    if n == |es| {
      assert es[..n] == es;
    } else {
      var init := es[..|es| - 1];
      assert init[..n] == es[..n];
      GentlePrefix(parse, tag, w0, init, id, n);
    }
  }

  // ---------------------------------------------------------------- the whole promise

  /** The attributes are the identity of this instance and exactly its selectors. */
  ghost predicate Attests(sent: Attributes, domain: string, cfg: Config.Server, i: Instance) {
    && sent.agentID == "spiffe://" + domain + "/spire/agent/incus/" + i.uuid && sent.canReattest
    && StrictlyIncreasing(sent.selectors)
    && Elements(sent.selectors) == SelectorSet(i, i.uuid, Elements(cfg.userSelectors), Elements(i.profiles))
  }

  /** At most 64 distinct profiles, and selector values within the byte budget. */
  ghost predicate WithinBounds(cfg: Config.Server, i: Instance) {
    && |Elements(i.profiles)| <= 64
    && TotalValueBytes(SelectorSet(i, i.uuid, Elements(cfg.userSelectors), Elements(i.profiles))) <= 32768
  }

  lemma AttributesAttest(parse: UuidParser, cfg: Config.Server, domain: string, c: Claims, i: Instance)
    requires Config.Accepted(cfg, domain) && WithinBounds(cfg, i)
    requires MatchClaims(parse, c, i).None? && parse(i.uuid) == Some(i.uuid)
    ensures AttributesOf(parse, domain, i, cfg.userSelectors).Ok?
    ensures Attests(AttributesOf(parse, domain, i, cfg.userSelectors).value, domain, cfg, i)
  {
    hide SelectorsOf, Config.Accepted, SelectorSet;
    Config.AcceptedConfigIsSafe(cfg, domain, i, i.uuid);
    SelectorsRefineSet(i, i.uuid, cfg.userSelectors);
  }

  /** How a server run ends that was told of no fault but, perhaps, that of the unset. */
  lemma ServerEnds(lib: Library, cfg: Config.Server, domain: string, s: Service.Script, nonce: Nonce, i: Instance,
                   attrs: Attributes)
    requires Service.ClaimsStep(lib, s).Ok? && Service.InstanceStep(lib, cfg, s) == Ok(i)
    requires s.random.Ok? && s.random.value.1 == nonce
    requires Service.ChallengeStep(s).Ok? && Service.ResponseStep(lib, s) == Ok(nonce)
    requires s.setErr.None? && s.challengeErr.None? && s.attributesErr.None?
    requires AttributesOf(lib.parseUUID, domain, i, cfg.userSelectors) == Ok(attrs)
    ensures var r := Service.RunOf(s, Service.StepsOf(lib, cfg, domain, s));
      && r.err == s.unsetErr
      && r.trace != [] && r.trace[|r.trace| - 1] ==
           if s.unsetErr.None? then Service.SendAttributes(attrs) else Service.UnsetNonce(i, KeyOf(s.random.value.0))
  {
    hide Service.ClaimsStep, Service.InstanceStep, Service.ChallengeStep, Service.ResponseStep, AttributesOf,
        Service.AskedStep;
  }

  lemma SnapshotMatches(parse: UuidParser, standalone: string, s: Store, projects: seq<string>, c: Claims,
                        project: string)
    requires UuidContract(parse) && OneRecord(parse, standalone, s, projects, c, project)
    ensures var r := s[Location(project, c.name)];
      && var i := Snapshot(parse, standalone, project, r);
      && MatchClaims(parse, c, i).None? && parse(i.uuid) == Some(i.uuid)
      && i.project == project && i.name == c.name && IsTarget(parse, i, Some(r))
  {
    hide MatchClaims, MapInstance, Snapshot, IsTarget;
    SnapshotOfRecord(parse, standalone, c, project, s[Location(project, c.name)]);
  }

  /** The server resolves to the snapshot of the record, and the attempt is for it. */
  lemma ServerResolves(lib: Library, tag: Tagger, standalone: string, cfg: Config.Server, domain: string,
                       w0: World, es: seq<Event>, w: World, x: Episode, c: Claims, project: string)
    requires Contract(lib) && Config.Accepted(cfg, domain) && x.id in w.attempts && Delivered(lib, x)
    requires LookedUp(lib, tag, standalone, w0, es, x)
    requires Service.InstanceStep(lib, cfg, x.s).Ok? ==>
               Service.InstanceStep(lib, cfg, x.s).value == w.attempts[x.id].target
    requires c == ServerClaims(lib, x.g.claims.value)
    requires OneRecord(lib.parseUUID, standalone, x.seen, cfg.projects, c, project)
    ensures Service.ClaimsStep(lib, x.s) == Ok(c)
    ensures var i := Snapshot(lib.parseUUID, standalone, project, x.seen[Location(project, c.name)]);
      Service.InstanceStep(lib, cfg, x.s) == Ok(i) && w.attempts[x.id].target == i
  {
    hide Run, OneRecord, Snapshot, ServerClaims, Guest.PayloadStep, StoreLookup;
    Config.AcceptedProjects(cfg.projects);
    ServerReadsGuestClaims(lib, x.g, x.s);
    OneRecordResolves(lib.parseUUID, tag, standalone, x.seen, cfg.projects, c, project, x.s.lookup);
    ResolvedIsInstance(lib, cfg, x.s);
  }

  lemma ResolvedIsInstance(lib: Library, cfg: Config.Server, s: Service.Script)
    requires Service.ClaimsStep(lib, s).Ok?
    ensures Service.InstanceStep(lib, cfg, s)
         == Resolve.Resolved(lib.parseUUID, cfg.projects, s.lookup, Service.ClaimsStep(lib, s).value)
  {
    hide Service.ClaimsStep;
  }

  /** The guest that read the stored text finishes, and its response carries the nonce. */
  lemma GuestFinishes(lib: Library, x: Episode, nonce: Nonce)
    requires Delivered(lib, x) && x.polled == Ok(NonceText(nonce))
    ensures Guest.RunOf(lib, x.g, |x.polls|, x.polled).err.None?
    ensures Service.ResponseStep(lib, x.s) == Ok(nonce)
  {
    hide Guest.PayloadStep, Guest.ResponseStep, EncodeChallenge, DecodeChallenge, DecodeResponse, NonceText,
        Guest.Opening;
    GuestAnswers(lib, x.id, nonce);
  }

  /** What Joined says of the server's other replies. */
  lemma ServerReplies(lib: Library, tag: Tagger, standalone: string, cfg: Config.Server,
                      w0: World, es: seq<Event>, w: World, x: Episode)
    requires Joined(lib, tag, standalone, cfg, w0, es, w, x) && WasSet(w.attempts[x.id])
    ensures x.s.setErr.None? && x.s.challengeErr.None? && x.s.attributesErr.None?
    ensures x.s.unsetErr == Returned(w.attempts[x.id].stage.unsetErr)
    ensures Service.ChallengeStep(x.s) == EncodeChallenge(KeyOf(x.id))
  {
    hide EncodeChallenge, LookedUp, ReadBack, Guest.PayloadStep, Guest.ResponseStep, Reaches, Service.InstanceStep,
         Service.ClaimsStep;
  }

  /**
   * The whole promise, from the store up. On any run of the store, with any other attempts and with
   * operators who are gentle to this attempt: if the configuration is accepted, exactly one allowed
   * record is the VM of the guest's claims when the server looks, its selectors are in bounds, and
   * messages arrive, then the guest finishes without error and the server returns what UnsetNonce
   * returned. If that is nil, its last effect attests that record; and with operators careful about
   * the key, the key is then nowhere.
   */
  lemma HonestRunSucceeds(lib: Library, tag: Tagger, standalone: string, cfg: Config.Server, domain: string,
                          w0: World, es: seq<Event>, w: World, x: Episode, c: Claims, project: string, i: Instance)
    requires Contract(lib) && TagContract(tag) && Config.Accepted(cfg, domain)
    requires Joined(lib, tag, standalone, cfg, w0, es, w, x) && GentleRun(lib.parseUUID, tag, w0, es, x.id)
    requires c == ServerClaims(lib, x.g.claims.value)
    requires OneRecord(lib.parseUUID, standalone, x.seen, cfg.projects, c, project)
    requires i == Snapshot(lib.parseUUID, standalone, project, x.seen[Location(project, c.name)])
    requires WithinBounds(cfg, i)
    ensures Guest.RunOf(lib, x.g, |x.polls|, x.polled).err.None?
    ensures var r := Service.RunOf(x.s, Service.StepsOf(lib, cfg, domain, x.s));
      && r.err == Returned(w.attempts[x.id].stage.unsetErr)
      && r.trace != []
      && (r.err.None? ==> r.trace[|r.trace| - 1].SendAttributes?
                          && Attests(r.trace[|r.trace| - 1].attributes, domain, cfg, i))
    ensures w.attempts[x.id].stage.unsetErr.None? && CarefulRun(lib.parseUUID, tag, w0, es, x.id) ==>
              forall l :: !Present(w.store, l, KeyOf(x.id))
  {
    hide *;
    JoinedParts(lib, tag, standalone, cfg, w0, es, w, x);
    var parse, a := lib.parseUUID, w.attempts[x.id];
    GuestReadsNonce(lib, tag, w0, es, w, x);
    if a.stage.unsetErr.None? && CarefulRun(parse, tag, w0, es, x.id) {
      OwnedAlways(parse, tag, w0, es, w, x.id);
      NowhereLeft(parse, w, x.id);
    }
    ServerResolves(lib, tag, standalone, cfg, domain, w0, es, w, x, c, project);
    ServerReplies(lib, tag, standalone, cfg, w0, es, w, x);
    RecordAttests(lib, cfg, domain, x.seen, c, project, standalone, i);
    GuestAnswers(lib, x.id, a.nonce);
    GuestFinishes(lib, x, a.nonce);
    ServerEnds(lib, cfg, domain, x.s, a.nonce, i, AttributesOf(parse, domain, i, cfg.userSelectors).value);
  }

  lemma JoinedParts(lib: Library, tag: Tagger, standalone: string, cfg: Config.Server,
                    w0: World, es: seq<Event>, w: World, x: Episode)
    requires Joined(lib, tag, standalone, cfg, w0, es, w, x)
    ensures Initial(w0) && Reaches(lib.parseUUID, tag, w0, es, w) && x.id in w.attempts && Delivered(lib, x)
    ensures Run(lib.parseUUID, tag, w0, es) == Some(w)
    ensures LookedUp(lib, tag, standalone, w0, es, x) && ReadBack(lib, tag, w0, es, w, x)
    ensures w.attempts[x.id].stage.Closed? && x.s.random == Ok((x.id, w.attempts[x.id].nonce))
    ensures Service.InstanceStep(lib, cfg, x.s).Ok? ==>
              Service.InstanceStep(lib, cfg, x.s).value == w.attempts[x.id].target
  {
    hide LookedUp, ReadBack, Delivered, Initial, Run, Service.InstanceStep, Service.ClaimsStep;
  }

  lemma NowhereLeft(parse: UuidParser, w: World, id: AttemptID)
    requires id in w.attempts && w.attempts[id].stage.Closed? && w.attempts[id].stage.unsetErr.None?
             && Owned(parse, w, id)
    ensures forall l :: !Present(w.store, l, KeyOf(id))
  {
    hide IsTarget, KeyOf;
  }

  lemma RecordAttests(lib: Library, cfg: Config.Server, domain: string, s: Store, c: Claims, project: string,
                      standalone: string, i: Instance)
    requires Contract(lib) && Config.Accepted(cfg, domain) && WithinBounds(cfg, i)
    requires OneRecord(lib.parseUUID, standalone, s, cfg.projects, c, project)
    requires i == Snapshot(lib.parseUUID, standalone, project, s[Location(project, c.name)])
    ensures AttributesOf(lib.parseUUID, domain, i, cfg.userSelectors).Ok?
    ensures Attests(AttributesOf(lib.parseUUID, domain, i, cfg.userSelectors).value, domain, cfg, i)
  {
    SnapshotMatches(lib.parseUUID, standalone, s, cfg.projects, c, project);
    hide Snapshot, WithinBounds, AttributesOf, Attests, MatchClaims, IsTarget;
    AttributesAttest(lib.parseUUID, cfg, domain, c, i);
  }

  // ---------------------------------------------------------------- such a run exists

  /** The scripts of an episode that follows the undisturbed run. */
  function Undisturbed(lib: Library, tag: Tagger, standalone: string, s: Store, id: AttemptID, nonce: Nonce,
                       c: Claims): Episode
  {
    var text := Ok(NonceText(nonce));
    Episode(id,
            Guest.Script(Ok(c), None, EncodeChallenge(KeyOf(id)), None),
            Service.Script(EncodePayload(lib, c),
                           StoreLookup(lib.parseUUID, tag, standalone, s, ServerClaims(lib, c).name),
                           Ok((id, nonce)), None, None, Guest.ResponseStep(lib, text), None, None),
            text, 0, s, [Guest.Hidden, Guest.Value(NonceText(nonce))], [0, 4])
  }

  /** Both sides succeed, the record is attested, and the store is as it was. */
  ghost predicate Success(lib: Library, tag: Tagger, standalone: string, cfg: Config.Server, domain: string,
                          w0: World, es: seq<Event>, w: World, x: Episode, i: Instance) {
    && Joined(lib, tag, standalone, cfg, w0, es, w, x)
    && GentleRun(lib.parseUUID, tag, w0, es, x.id) && CarefulRun(lib.parseUUID, tag, w0, es, x.id)
    && w.attempts[x.id].stage == Closed(None, None) && w.store == w0.store
    && Guest.RunOf(lib, x.g, |x.polls|, x.polled).err.None?
    && var r := Service.RunOf(x.s, Service.StepsOf(lib, cfg, domain, x.s));
    && r.err.None? && r.trace != [] && r.trace[|r.trace| - 1].SendAttributes?
    && Attests(r.trace[|r.trace| - 1].attributes, domain, cfg, i)
  }

  lemma UndisturbedIsRead(lib: Library, tag: Tagger, w0: World, id: AttemptID, target: Instance, nonce: Nonce,
                          x: Episode)
    requires Fresh(lib.parseUUID, w0, id, target) && x.id == id && x.polled == Ok(NonceText(nonce))
    requires x.polls == [Guest.Hidden, Guest.Value(NonceText(nonce))] && x.instants == [0, 4]
    requires KeyOf(id) !in Expanded(w0.store[Place(target)])
    ensures ReadBack(lib, tag, w0, WholeRun(tag, w0.store, id, target, nonce),
                     Alone(w0.store, id, target, nonce, Closed(None, None)), x)
  {
    var s1 := WithNonce(w0.store, id, target, nonce);
    var first, rest := SetEvents(tag, w0.store, id, target, nonce), UnsetEvents(tag, s1, id, target);
    SetCanSucceed(lib.parseUUID, tag, w0, id, target, nonce);
    assert (first + rest)[..4] == first;
    hide Run, NonceText, KeyOf;
    assert GuestRead(s1, Place(target), KeyOf(id)) == Some(NonceText(nonce));
    var es, w := first + rest, Alone(w0.store, id, target, nonce, Closed(None, None));
    assert es[..0] == [];
    RunNothing(lib.parseUUID, tag, w0);
    assert ReadAt(lib, tag, w0, es, w, x, 0);
    assert ReadAt(lib, tag, w0, es, w, x, 1) && HeldAt(lib, tag, w0, es, x, 1);
  }

  /**
   * The promise can be kept: from a store alone in which one allowed record is the VM of some claims
   * that can be sent, with the key not yet there and the selectors in bounds, there is a run and there
   * are replies with which both sides succeed, that record is attested, and the store is left as it was.
   */
  lemma AttestationCanSucceed(lib: Library, tag: Tagger, standalone: string, cfg: Config.Server, domain: string,
                              w0: World, id: AttemptID, nonce: Nonce, c: Claims, project: string, i: Instance)
    requires Contract(lib) && TagContract(tag) && Config.Accepted(cfg, domain)
    requires ValidateClaims(lib.parseUUID, c).Ok? && EncodePayload(lib, c).Ok?
    requires Initial(w0) && forall l :: l in w0.store ==> KeyOf(id) !in Expanded(w0.store[l])
    requires OneRecord(lib.parseUUID, standalone, w0.store, cfg.projects, ServerClaims(lib, c), project)
    requires i == Snapshot(lib.parseUUID, standalone, project, w0.store[Location(project, ServerClaims(lib, c).name)])
    requires WithinBounds(cfg, i)
    ensures exists es, w, x :: Success(lib, tag, standalone, cfg, domain, w0, es, w, x, i) && x.g.claims == Ok(c)
  {
    var c', x := ServerClaims(lib, c), Undisturbed(lib, tag, standalone, w0.store, id, nonce, c);
    hide *;
    RecordIsFresh(lib, standalone, w0, cfg.projects, c', project, id, i);
    var es, w := WholeRun(tag, w0.store, id, i, nonce), Alone(w0.store, id, i, nonce, Closed(None, None));
    WholeRunIsSpared(lib.parseUUID, tag, w0, id, i, nonce);
    UndisturbedFields(lib, tag, standalone, w0.store, id, nonce, c);
    UndisturbedIsRead(lib, tag, w0, id, i, nonce, x);
    UndisturbedResolves(lib, tag, standalone, cfg, domain, w0.store, id, nonce, c, project);
    UndisturbedIsJoined(lib, tag, standalone, cfg, domain, w0, id, nonce, c, i, es, w);
    HonestRunSucceeds(lib, tag, standalone, cfg, domain, w0, es, w, x, c', project, i);
    NothingReturned();
    Succeeds(lib, tag, standalone, cfg, domain, w0, es, w, x, i);
  }

  lemma NothingReturned()
    ensures Returned(None) == None
  {
  }

  lemma RecordIsFresh(lib: Library, standalone: string, w0: World, projects: seq<string>, c: Claims,
                      project: string, id: AttemptID, i: Instance)
    requires Contract(lib) && Initial(w0) && forall l :: l in w0.store ==> KeyOf(id) !in Expanded(w0.store[l])
    requires OneRecord(lib.parseUUID, standalone, w0.store, projects, c, project)
    requires i == Snapshot(lib.parseUUID, standalone, project, w0.store[Location(project, c.name)])
    ensures Fresh(lib.parseUUID, w0, id, i) && Place(i) in w0.store
  {
    SnapshotMatches(lib.parseUUID, standalone, w0.store, projects, c, project);
    hide IsTarget, Snapshot;
  }

  lemma Succeeds(lib: Library, tag: Tagger, standalone: string, cfg: Config.Server, domain: string,
                 w0: World, es: seq<Event>, w: World, x: Episode, i: Instance)
    requires Joined(lib, tag, standalone, cfg, w0, es, w, x)
    requires GentleRun(lib.parseUUID, tag, w0, es, x.id) && CarefulRun(lib.parseUUID, tag, w0, es, x.id)
    requires w.attempts[x.id].stage == Closed(None, None) && w.store == w0.store
    requires Guest.RunOf(lib, x.g, |x.polls|, x.polled).err.None?
    requires var r := Service.RunOf(x.s, Service.StepsOf(lib, cfg, domain, x.s));
      && r.err.None? && r.trace != [] && r.trace[|r.trace| - 1].SendAttributes?
      && Attests(r.trace[|r.trace| - 1].attributes, domain, cfg, i)
    ensures Success(lib, tag, standalone, cfg, domain, w0, es, w, x, i)
  {
    hide Joined, GentleRun, CarefulRun, Guest.RunOf, Service.RunOf, Service.StepsOf, Attests;
  }

  lemma UndisturbedIsDelivered(lib: Library, tag: Tagger, standalone: string, s: Store, id: AttemptID, nonce: Nonce,
                               c: Claims)
    requires ValidateClaims(lib.parseUUID, c).Ok? && EncodePayload(lib, c).Ok?
    ensures Delivered(lib, Undisturbed(lib, tag, standalone, s, id, nonce, c))
  {
    hide StoreLookup, EncodePayload, EncodeChallenge, Guest.ResponseStep, NonceText, KeyOf;
  }

  lemma UndisturbedResolves(lib: Library, tag: Tagger, standalone: string, cfg: Config.Server, domain: string,
                            s: Store, id: AttemptID, nonce: Nonce, c: Claims, project: string)
    requires Contract(lib) && Config.Accepted(cfg, domain)
    requires ValidateClaims(lib.parseUUID, c).Ok? && EncodePayload(lib, c).Ok?
    requires OneRecord(lib.parseUUID, standalone, s, cfg.projects, ServerClaims(lib, c), project)
    ensures Service.InstanceStep(lib, cfg, Undisturbed(lib, tag, standalone, s, id, nonce, c).s)
         == Ok(Snapshot(lib.parseUUID, standalone, project, s[Location(project, ServerClaims(lib, c).name)]))
  {
    var x, c' := Undisturbed(lib, tag, standalone, s, id, nonce, c), ServerClaims(lib, c);
    UndisturbedIsDelivered(lib, tag, standalone, s, id, nonce, c);
    hide OneRecord, Snapshot, ServerClaims, StoreLookup, EncodePayload, EncodeChallenge, Guest.PayloadStep,
        Guest.ResponseStep;
    ServerReadsGuestClaims(lib, x.g, x.s);
    Config.AcceptedProjects(cfg.projects);
    OneRecordResolves(lib.parseUUID, tag, standalone, s, cfg.projects, c', project, x.s.lookup);
    ResolvedIsInstance(lib, cfg, x.s);
  }

  lemma UndisturbedFields(lib: Library, tag: Tagger, standalone: string, s: Store, id: AttemptID, nonce: Nonce,
                          c: Claims)
    ensures var x := Undisturbed(lib, tag, standalone, s, id, nonce, c);
      && x.id == id && x.looked == 0 && x.seen == s && x.polled == Ok(NonceText(nonce))
      && x.polls == [Guest.Hidden, Guest.Value(NonceText(nonce))] && x.instants == [0, 4]
      && x.g.claims == Ok(c) && x.s.random == Ok((id, nonce)) && x.s.setErr.None? && x.s.unsetErr.None?
      && x.s.lookup == StoreLookup(lib.parseUUID, tag, standalone, s, ServerClaims(lib, c).name)
  {
    hide StoreLookup, EncodePayload, EncodeChallenge, Guest.ResponseStep, NonceText, KeyOf, ServerClaims;
  }

  /** Lookups before the first event. */
  lemma LookedUpFirst(lib: Library, tag: Tagger, standalone: string, w0: World, es: seq<Event>, x: Episode)
    requires Delivered(lib, x) && Initial(w0) && x.looked == 0 && x.seen == w0.store
    requires x.s.lookup
          == StoreLookup(lib.parseUUID, tag, standalone, w0.store, ServerClaims(lib, x.g.claims.value).name)
    ensures LookedUp(lib, tag, standalone, w0, es, x)
    ensures forall p :: LookedUpFrom(lib.parseUUID, tag, standalone, w0, es, x.id,
                                     Location(p, ServerClaims(lib, x.g.claims.value).name), x.s.lookup(p))
  {
    var name := ServerClaims(lib, x.g.claims.value).name;
    hide Delivered, ServerClaims, Run;
    assert es[..0] == [];
    RunNothing(lib.parseUUID, tag, w0);
    forall p ensures LookedUpFrom(lib.parseUUID, tag, standalone, w0, es, x.id, Location(p, name), x.s.lookup(p)) {
      var at := Location(p, name);
      var get := Answer(tag, w0.store, at);
      hide Truthful, Answer;
      assert AnsweredAt(lib.parseUUID, tag, w0, es, x.id, at, 0, get);
    }
  }

  lemma UndisturbedIsJoined(lib: Library, tag: Tagger, standalone: string, cfg: Config.Server, domain: string,
                            w0: World, id: AttemptID, nonce: Nonce, c: Claims, i: Instance, es: seq<Event>, w: World)
    requires Contract(lib) && ValidateClaims(lib.parseUUID, c).Ok? && EncodePayload(lib, c).Ok?
    requires Initial(w0) && Reaches(lib.parseUUID, tag, w0, es, w)
    requires id in w.attempts && w.attempts[id] == Attempt(i, nonce, Closed(None, None))
    requires var x := Undisturbed(lib, tag, standalone, w0.store, id, nonce, c);
      && ReadBack(lib, tag, w0, es, w, x) && Service.InstanceStep(lib, cfg, x.s) == Ok(i)
    ensures Joined(lib, tag, standalone, cfg, w0, es, w, Undisturbed(lib, tag, standalone, w0.store, id, nonce, c))
  {
    var x := Undisturbed(lib, tag, standalone, w0.store, id, nonce, c);
    UndisturbedIsDelivered(lib, tag, standalone, w0.store, id, nonce, c);
    UndisturbedFields(lib, tag, standalone, w0.store, id, nonce, c);
    DeliveredClaims(lib, x);
    hide *;
    LookedUpFirst(lib, tag, standalone, w0, es, x);
    NothingReturned();
    JoinedFrom(lib, tag, standalone, cfg, w0, es, w, x);
  }

  lemma DeliveredClaims(lib: Library, x: Episode)
    requires Contract(lib) && Delivered(lib, x)
    ensures x.g.claims.Ok? && Service.ClaimsStep(lib, x.s) == Ok(ServerClaims(lib, x.g.claims.value))
  {
    hide Guest.PayloadStep, Service.ClaimsStep, ServerClaims;
    ServerReadsGuestClaims(lib, x.g, x.s);
  }

  lemma JoinedFrom(lib: Library, tag: Tagger, standalone: string, cfg: Config.Server,
                   w0: World, es: seq<Event>, w: World, x: Episode)
    requires Initial(w0) && Reaches(lib.parseUUID, tag, w0, es, w) && x.id in w.attempts
    requires x.s.random == Ok((x.id, w.attempts[x.id].nonce)) && w.attempts[x.id].stage == Closed(None, None)
    requires x.s.setErr.None? && x.s.unsetErr.None? && Returned(None) == None
    requires Service.InstanceStep(lib, cfg, x.s) == Ok(w.attempts[x.id].target)
    requires Delivered(lib, x) && LookedUp(lib, tag, standalone, w0, es, x) && ReadBack(lib, tag, w0, es, w, x)
    requires Service.ClaimsStep(lib, x.s).Ok?
    requires forall p :: LookedUpFrom(lib.parseUUID, tag, standalone, w0, es, x.id,
                                      Location(p, Service.ClaimsStep(lib, x.s).value.name), x.s.lookup(p))
    ensures Joined(lib, tag, standalone, cfg, w0, es, w, x)
  {
    hide Reaches, Initial, Service.InstanceStep, Service.ClaimsStep, Delivered, LookedUp, LookedUpFrom, ReadBack,
         Returned;
  }
}
