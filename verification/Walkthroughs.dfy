/**
 * Runs of one attempt from an initial world, reply by reply: the undisturbed one, and two in which
 * operators bring the nonce back to a target that was cleaned.
 */
module Walkthroughs {
  import opened Base
  import opened Attest
  import opened Incus
  import opened Wire
  import opened Backoff
  import opened Mutation
  import opened Interleaving
  import opened Ownership

  /** A world with one attempt. */
  function Alone(s: Store, id: AttemptID, target: Instance, nonce: Nonce, stage: Stage): World {
    World(s, map[id := Attempt(target, nonce, stage)])
  }

  function Place(target: Instance): Location { Location(target.project, target.name) }

  /** The store while the nonce is set. */
  function WithNonce(s: Store, id: AttemptID, target: Instance, nonce: Nonce): Store
    requires Place(target) in s
  {
    s[Place(target) := Edited(Call(target, KeyOf(id), Some(NonceText(nonce))), s[Place(target)])]
  }

  // ---------------------------------------------------------------- single events

  /** The replies of a round in which nothing goes wrong. */
  function Fetched(tag: Tagger, id: AttemptID, r: Record): Event {
    Step(id, Got(GetRecord(Some(r), tag(r))), false)
  }

  function Committed(id: AttemptID): Event { Step(id, Put(PutStarted), true) }

  function Finished(id: AttemptID): Event { Step(id, Waited(None), false) }

  lemma BeginAlone(parse: UuidParser, tag: Tagger, w0: World, id: AttemptID, target: Instance, nonce: Nonce)
    requires Initial(w0) && forall l :: !Present(w0.store, l, KeyOf(id))
    ensures var e := Begin(id, target, nonce);
      Allowed(tag, w0, e) && Apply(parse, tag, w0, e) == Alone(w0.store, id, target, nonce, Setting(START))
  {
  }

  /** The stage of a set or an unset in this phase. */
  function StageAt(setting: bool, p: Phase): Stage { if setting then Setting(p) else Cleaning(None, p) }

  /** The fetch of a set, or of an unset that finds its key. */
  lemma GetAlone(parse: UuidParser, tag: Tagger, s: Store, id: AttemptID, target: Instance, nonce: Nonce,
                 setting: bool, delay: nat)
    requires Place(target) in s && IsTarget(parse, target, Some(s[Place(target)]))
    requires setting || KeyOf(id) in s[Place(target)].writable.config
    ensures var r := s[Place(target)];
            var w := Alone(s, id, target, nonce, StageAt(setting, AtGet(delay)));
            var e := Fetched(tag, id, r);
      && Allowed(tag, w, e)
      && Apply(parse, tag, w, e) == Alone(s, id, target, nonce, StageAt(setting, AtPut(delay, r, tag(r))))
  {
    hide IsTarget;
  }

  lemma PutAlone(parse: UuidParser, tag: Tagger, s: Store, id: AttemptID, target: Instance, nonce: Nonce,
                 setting: bool, delay: nat)
    requires Place(target) in s
    ensures var r := s[Place(target)];
            var call := Call(target, KeyOf(id), if setting then Some(NonceText(nonce)) else None);
            var w := Alone(s, id, target, nonce, StageAt(setting, AtPut(delay, r, tag(r))));
            var e := Committed(id);
      && Allowed(tag, w, e)
      && Apply(parse, tag, w, e)
         == Alone(s[Place(target) := Edited(call, r)], id, target, nonce, StageAt(setting, AtWait(delay)))
  {
  }

  lemma WaitAlone(parse: UuidParser, tag: Tagger, s: Store, id: AttemptID, target: Instance, nonce: Nonce,
                  setting: bool, delay: nat)
    ensures var w := Alone(s, id, target, nonce, StageAt(setting, AtWait(delay)));
            var e := Finished(id);
      && Allowed(tag, w, e)
      && Apply(parse, tag, w, e) == Alone(s, id, target, nonce, if setting then Holding else Closed(None, None))
  {
  }

  /** The three replies of a set, or of an unset that finds its key. */
  lemma RoundAlone(parse: UuidParser, tag: Tagger, w0: World, es: seq<Event>, s: Store, id: AttemptID,
                   target: Instance, nonce: Nonce, setting: bool, delay: nat)
    requires Place(target) in s && IsTarget(parse, target, Some(s[Place(target)]))
    requires setting || KeyOf(id) in s[Place(target)].writable.config
    requires Reaches(parse, tag, w0, es, Alone(s, id, target, nonce, StageAt(setting, AtGet(delay))))
    ensures var r := s[Place(target)];
            var call := Call(target, KeyOf(id), if setting then Some(NonceText(nonce)) else None);
      Reaches(parse, tag, w0, es + [Fetched(tag, id, r)] + [Committed(id)] + [Finished(id)],
              Alone(s[Place(target) := Edited(call, r)], id, target, nonce,
                    if setting then Holding else Closed(None, None)))
  {
    var r := s[Place(target)];
    var call := Call(target, KeyOf(id), if setting then Some(NonceText(nonce)) else None);
    var s' := s[Place(target) := Edited(call, r)];
    var e1, e2, e3 := Fetched(tag, id, r), Committed(id), Finished(id);
    hide *;
    GetAlone(parse, tag, s, id, target, nonce, setting, delay);
    RunThen(parse, tag, w0, es, Alone(s, id, target, nonce, StageAt(setting, AtGet(delay))), e1);
    PutAlone(parse, tag, s, id, target, nonce, setting, delay);
    var w2 := Alone(s, id, target, nonce, StageAt(setting, AtPut(delay, r, tag(r))));
    RunThen(parse, tag, w0, es + [e1], w2, e2);
    WaitAlone(parse, tag, s', id, target, nonce, setting, delay);
    RunThen(parse, tag, w0, es + [e1] + [e2], Alone(s', id, target, nonce, StageAt(setting, AtWait(delay))), e3);
  }

  lemma ReleaseAlone(parse: UuidParser, tag: Tagger, s: Store, id: AttemptID, target: Instance, nonce: Nonce)
    ensures var w := Alone(s, id, target, nonce, Holding);
      Allowed(tag, w, Release(id))
      && Apply(parse, tag, w, Release(id)) == Alone(s, id, target, nonce, Cleaning(None, START))
  {
  }

  // ---------------------------------------------------------------- the undisturbed run

  function SetEvents(tag: Tagger, s: Store, id: AttemptID, target: Instance, nonce: Nonce): seq<Event>
    requires Place(target) in s
  {
    [Begin(id, target, nonce)]
    + [Fetched(tag, id, s[Place(target)])]
    + [Committed(id)] + [Finished(id)]
  }

  function UnsetEvents(tag: Tagger, s: Store, id: AttemptID, target: Instance): seq<Event>
    requires Place(target) in s
  {
    [Release(id)]
    + [Fetched(tag, id, s[Place(target)])]
    + [Committed(id)] + [Finished(id)]
  }

  ghost predicate Fresh(parse: UuidParser, w0: World, id: AttemptID, target: Instance) {
    && Initial(w0) && Place(target) in w0.store && IsTarget(parse, target, Some(w0.store[Place(target)]))
    && forall l :: !Present(w0.store, l, KeyOf(id))
  }

  /** On any store that holds the target and not the key, one round of replies sets the nonce. */
  lemma SetCanSucceed(parse: UuidParser, tag: Tagger, w0: World, id: AttemptID, target: Instance, nonce: Nonce)
    requires Fresh(parse, w0, id, target)
    ensures Reaches(parse, tag, w0, SetEvents(tag, w0.store, id, target, nonce),
                    Alone(WithNonce(w0.store, id, target, nonce), id, target, nonce, Holding))
  {
    ReachSet(parse, tag, w0, id, target, nonce);
    RoundAlone(parse, tag, w0, [Begin(id, target, nonce)], w0.store, id, target, nonce, true, INITIAL_DELAY);
  }

  /** The world in which the set begins. */
  lemma ReachSet(parse: UuidParser, tag: Tagger, w0: World, id: AttemptID, target: Instance, nonce: Nonce)
    requires Fresh(parse, w0, id, target)
    ensures Reaches(parse, tag, w0, [Begin(id, target, nonce)],
                    Alone(w0.store, id, target, nonce, StageAt(true, AtGet(INITIAL_DELAY))))
  {
    hide Run, Apply, Allowed;
    RunNothing(parse, tag, w0);
    BeginAlone(parse, tag, w0, id, target, nonce);
    RunThen(parse, tag, w0, [], w0, Begin(id, target, nonce));
    assert [] + [Begin(id, target, nonce)] == [Begin(id, target, nonce)];
  }

  lemma NonceIsSet(parse: UuidParser, s: Store, id: AttemptID, target: Instance, nonce: Nonce)
    requires Place(target) in s && IsTarget(parse, target, Some(s[Place(target)]))
    ensures var s1 := WithNonce(s, id, target, nonce);
      && Holds(parse, Call(target, KeyOf(id), Some(NonceText(nonce))), s1)
      && IsTarget(parse, target, Some(s1[Place(target)]))
  {
    KeysAreDistinct(id, id);
    KeyIsNotUUID(KeyOf(id));
    EditKeepsTarget(parse, Call(target, KeyOf(id), Some(NonceText(nonce))), s[Place(target)], target);
  }

  /** Removing a nonce that was set leaves the store as it was. */
  lemma UnsetRestores(s: Store, id: AttemptID, target: Instance, nonce: Nonce)
    requires Place(target) in s && KeyOf(id) !in s[Place(target)].writable.config
    ensures var s1 := WithNonce(s, id, target, nonce);
      s1[Place(target) := Edited(Call(target, KeyOf(id), None), s1[Place(target)])] == s
  {
    var r := s[Place(target)];
    var r1 := Edited(Call(target, KeyOf(id), Some(NonceText(nonce))), r);
    assert r1.writable.config - {KeyOf(id)} == r.writable.config;
    assert Edited(Call(target, KeyOf(id), None), r1) == r;
  }

  /**
   * The whole undisturbed run: from the holding world on, release and one round of replies close the
   * attempt without error, and the store is again exactly what it was before the attempt.
   */
  lemma UnsetCanSucceed(parse: UuidParser, tag: Tagger, w0: World, id: AttemptID, target: Instance, nonce: Nonce)
    requires Fresh(parse, w0, id, target)
    ensures Reaches(parse, tag, w0, SetEvents(tag, w0.store, id, target, nonce)
                                    + UnsetEvents(tag, WithNonce(w0.store, id, target, nonce), id, target),
                    Alone(w0.store, id, target, nonce, Closed(None, None)))
  {
    var s, s1, at := w0.store, WithNonce(w0.store, id, target, nonce), Place(target);
    assert KeyOf(id) !in s[at].writable.config by { assert !Present(s, at, KeyOf(id)); }
    assert KeyOf(id) in s1[at].writable.config;
    NonceIsSet(parse, s, id, target, nonce);
    UnsetRestores(s, id, target, nonce);
    ReachCleanup(parse, tag, w0, id, target, nonce);
    var es := SetEvents(tag, s, id, target, nonce);
    hide Reaches, Edited, IsTarget, Holds, WithNonce, SetEvents;
    RoundAlone(parse, tag, w0, es + [Release(id)], s1, id, target, nonce, false, INITIAL_DELAY);
    var r := s1[at];
    assert es + [Release(id)] + [Fetched(tag, id, r)] + [Committed(id)]
           + [Finished(id)] == es + UnsetEvents(tag, s1, id, target);
  }

  // ---------------------------------------------------------------- a conflict

  /** The server refuses a PUT whose tag is no longer that of the record. */
  function Refused(id: AttemptID): Event { Step(id, Put(PutFault(PLAIN_FAULT.(status := Some(412)))), false) }

  function Retried(id: AttemptID): Event { Step(id, Slept(None), false) }

  lemma RefusedAlone(parse: UuidParser, tag: Tagger, s: Store, id: AttemptID, target: Instance, nonce: Nonce,
                     base: Record, etag: string, delay: nat)
    ensures var w := Alone(s, id, target, nonce, Setting(AtPut(delay, base, etag)));
      && Allowed(tag, w, Refused(id))
      && Apply(parse, tag, w, Refused(id)) == Alone(s, id, target, nonce, Setting(AtSleep(delay)))
  {
  }

  lemma RetriedAlone(parse: UuidParser, tag: Tagger, s: Store, id: AttemptID, target: Instance, nonce: Nonce,
                     delay: nat)
    ensures var w := Alone(s, id, target, nonce, Setting(AtSleep(delay)));
      && Allowed(tag, w, Retried(id))
      && Apply(parse, tag, w, Retried(id)) == Alone(s, id, target, nonce, StageAt(true, AtGet(NextDelay(delay))))
  {
  }

  function ConflictEvents(tag: Tagger, s: Store, id: AttemptID, target: Instance, nonce: Nonce,
                          op: Operation): seq<Event>
    requires Place(target) in s
  {
    [Begin(id, target, nonce)] + [Fetched(tag, id, s[Place(target)])] + [Operator(Place(target), op)]
    + [Refused(id)] + [Retried(id)]
  }

  /**
   * A conflict is retried: an operator edits the target between the fetch and the update, so that the
   * server cannot accept the update; after one backoff wait the record is fetched again, and the set
   * succeeds on it. The operator's edit is kept, and the attempt holds its nonce.
   */
  lemma ConflictIsRetried(parse: UuidParser, tag: Tagger, w0: World, id: AttemptID, target: Instance, nonce: Nonce,
                          op: Operation)
    requires TagContract(tag) && Fresh(parse, w0, id, target)
    requires var r := w0.store[Place(target)];
      Edit(Some(r), op).Some? && Edit(Some(r), op) != Some(r) && IsTarget(parse, target, Edit(Some(r), op))
    ensures var r := w0.store[Place(target)];
            var s' := Operate(w0.store, Place(target), op);
      && !Matches(tag, s', Place(target), tag(r))
      && Reaches(parse, tag, w0,
                 ConflictEvents(tag, w0.store, id, target, nonce, op)
                 + [Fetched(tag, id, s'[Place(target)])] + [Committed(id)] + [Finished(id)],
                 Alone(WithNonce(s', id, target, nonce), id, target, nonce, Holding))
  {
    var s, at, r := w0.store, Place(target), w0.store[Place(target)];
    var s' := Operate(s, at, op);
    assert s'[at] == Edit(Some(r), op).value;
    var es := [Begin(id, target, nonce)];
    ReachSet(parse, tag, w0, id, target, nonce);
    hide Reaches, Apply, Allowed, Operate, IsTarget, Edit, NextDelay, Fetched, Refused, Retried, Committed, Finished;
    GetAlone(parse, tag, s, id, target, nonce, true, INITIAL_DELAY);
    RunThen(parse, tag, w0, es, Alone(s, id, target, nonce, StageAt(true, AtGet(INITIAL_DELAY))), Fetched(tag, id, r));
    es := es + [Fetched(tag, id, r)];
    var w1 := Alone(s, id, target, nonce, Setting(AtPut(INITIAL_DELAY, r, tag(r))));
    OperatorAlone(parse, tag, w1, at, op);
    RunThen(parse, tag, w0, es, w1, Operator(at, op));
    es := es + [Operator(at, op)];
    RefusedAlone(parse, tag, s', id, target, nonce, r, tag(r), INITIAL_DELAY);
    RunThen(parse, tag, w0, es, Alone(s', id, target, nonce, Setting(AtPut(INITIAL_DELAY, r, tag(r)))), Refused(id));
    es := es + [Refused(id)];
    RetriedAlone(parse, tag, s', id, target, nonce, INITIAL_DELAY);
    RunThen(parse, tag, w0, es, Alone(s', id, target, nonce, Setting(AtSleep(INITIAL_DELAY))), Retried(id));
    es := es + [Retried(id)];
    RoundAlone(parse, tag, w0, es, s', id, target, nonce, true, NextDelay(INITIAL_DELAY));
  }

  // ---------------------------------------------------------------- two ways for a nonce to come back

  /** The world in which cleanup begins. */
  lemma ReachCleanup(parse: UuidParser, tag: Tagger, w0: World, id: AttemptID, target: Instance, nonce: Nonce)
    requires Fresh(parse, w0, id, target)
    ensures Reaches(parse, tag, w0, SetEvents(tag, w0.store, id, target, nonce) + [Release(id)],
                    Alone(WithNonce(w0.store, id, target, nonce), id, target, nonce, Cleaning(None, START)))
  {
    var s1 := WithNonce(w0.store, id, target, nonce);
    SetCanSucceed(parse, tag, w0, id, target, nonce);
    ReleaseAlone(parse, tag, s1, id, target, nonce);
    hide Reaches, Apply, Allowed, WithNonce;
    var es, w := SetEvents(tag, w0.store, id, target, nonce), Alone(s1, id, target, nonce, Holding);
    RunThen(parse, tag, w0, es, w, Release(id));
  }

  /** A fetch that finds the purpose of the unset achieved closes the attempt. */
  lemma GetClosesAlone(parse: UuidParser, tag: Tagger, s: Store, id: AttemptID, target: Instance, nonce: Nonce,
                       get: GetReply)
    requires Truthful(tag, s, Place(target), get)
    requires match get
             case GetFault(f) => f.status == Some(404)
             case GetRecord(current, _) => !IsTarget(parse, target, current)
    ensures var w, e := Alone(s, id, target, nonce, Cleaning(None, START)), Step(id, Got(get), false);
      Allowed(tag, w, e) && Apply(parse, tag, w, e) == Alone(s, id, target, nonce, Closed(None, None))
  {
    hide IsTarget;
  }

  lemma OperatorAlone(parse: UuidParser, tag: Tagger, w: World, at: Location, op: Operation)
    ensures Allowed(tag, w, Operator(at, op))
    ensures Apply(parse, tag, w, Operator(at, op)) == w.(store := Operate(w.store, at, op))
  {
  }

  /**
   * The nonce is back on the target after a cleanup that returned nil. It takes only the edits of
   * that instance: no attempt is involved but the one that was cleaned.
   */
  ghost predicate NonceIsBack(parse: UuidParser, tag: Tagger, w0: World, es: seq<Event>, id: AttemptID) {
    && Run(parse, tag, w0, es).Some?
    && var w := Run(parse, tag, w0, es).value;
    && id in w.attempts && w.attempts[id].stage == Closed(None, None)
    && Holds(parse, SetCall(id, w.attempts[id]), w.store)
  }

  /** The set, the operator's edit, the fetch that closes the attempt, and the edit that undoes the first. */
  function AwayEvents(tag: Tagger, s: Store, id: AttemptID, target: Instance, nonce: Nonce,
                      away: Operation, get: GetReply, back: Operation): seq<Event>
    requires Place(target) in s
  {
    SetEvents(tag, s, id, target, nonce) + [Release(id)]
    + [Operator(Place(target), away)] + [Step(id, Got(get), false)] + [Operator(Place(target), back)]
  }

  lemma AwayAndBack(parse: UuidParser, tag: Tagger, w0: World, id: AttemptID, target: Instance, nonce: Nonce,
                    away: Operation, get: GetReply, back: Operation)
    requires Fresh(parse, w0, id, target)
    requires Truthful(tag, Operate(WithNonce(w0.store, id, target, nonce), Place(target), away), Place(target), get)
    requires match get
             case GetFault(f) => f.status == Some(404)
             case GetRecord(current, _) => !IsTarget(parse, target, current)
    ensures var s1, at := WithNonce(w0.store, id, target, nonce), Place(target);
            var s3 := Operate(Operate(s1, at, away), at, back);
      Holds(parse, Call(target, KeyOf(id), Some(NonceText(nonce))), s3) ==>
        NonceIsBack(parse, tag, w0, AwayEvents(tag, w0.store, id, target, nonce, away, get, back), id)
  {
    var s1, at := WithNonce(w0.store, id, target, nonce), Place(target);
    var s2 := Operate(s1, at, away);
    var es := SetEvents(tag, w0.store, id, target, nonce) + [Release(id)];
    ReachCleanup(parse, tag, w0, id, target, nonce);
    var w1 := Alone(s1, id, target, nonce, Cleaning(None, START));
    var w3 := Alone(s2, id, target, nonce, Closed(None, None));
    hide Run, Apply, Allowed, WithNonce, Operate, IsTarget, Holds;
    OperatorAlone(parse, tag, w1, at, away);
    RunThen(parse, tag, w0, es, w1, Operator(at, away));
    GetClosesAlone(parse, tag, s2, id, target, nonce, get);
    var w2 := Alone(s2, id, target, nonce, Cleaning(None, START));
    RunThen(parse, tag, w0, es + [Operator(at, away)], w2, Step(id, Got(get), false));
    OperatorAlone(parse, tag, w3, at, back);
    RunThen(parse, tag, w0, es + [Operator(at, away)] + [Step(id, Got(get), false)], w3, Operator(at, back));
  }

  /** All that operators do is write the UUID key of instances. */
  ghost predicate OnlyUuidEdits(es: seq<Event>) {
    forall i :: 0 <= i < |es| && es[i].Operator? ==> es[i].op.PutConfig? && es[i].op.key == UUID_KEY
  }

  /** From any store with the target: the instance renamed away while cleanup looks for it, and back afterwards. */
  lemma RenamedAwayAndBack(parse: UuidParser, tag: Tagger, w0: World, id: AttemptID, target: Instance, nonce: Nonce)
    requires Fresh(parse, w0, id, target)
    ensures exists es :: NonceIsBack(parse, tag, w0, es, id)
  {
    var s1, at := WithNonce(w0.store, id, target, nonce), Place(target);
    var get, back := GetFault(PLAIN_FAULT.(status := Some(404))), Replace(Some(s1[at]));
    NonceIsSet(parse, w0.store, id, target, nonce);
    assert Operate(Operate(s1, at, Replace(None)), at, back) == s1;
    AwayAndBack(parse, tag, w0, id, target, nonce, Replace(None), get, back);
    hide NonceIsBack;
    assert NonceIsBack(parse, tag, w0, AwayEvents(tag, w0.store, id, target, nonce, Replace(None), get, back), id);
  }

  /**
   * From any store with the target: its UUID changed while cleanup looks at it, and back afterwards.
   * Nobody replaced the instance or touched the reserved namespace; what is back is the attempt's own nonce.
   */
  lemma UuidChangedAndBack(parse: UuidParser, tag: Tagger, w0: World, id: AttemptID, target: Instance, nonce: Nonce,
                           u: string)
    requires Fresh(parse, w0, id, target) && parse(u) != Some(target.uuid)
    ensures exists es :: NonceIsBack(parse, tag, w0, es, id) && OnlyUuidEdits(es)
  {
    var s1, at := WithNonce(w0.store, id, target, nonce), Place(target);
    var call := Call(target, KeyOf(id), Some(NonceText(nonce)));
    var r := s1[at];
    var away, back := PutConfig(UUID_KEY, u), PutConfig(UUID_KEY, UuidOf(r));
    var r2 := EditRecord(r, away);
    var get := GetRecord(Some(r2), tag(r2));
    KeysAreDistinct(id, id);
    NonceIsSet(parse, w0.store, id, target, nonce);
    var s3 := Operate(Operate(s1, at, away), at, back);
    assert s3[at] == EditRecord(r2, back);
    assert Truthful(tag, Operate(s1, at, away), at, get);
    assert OnlyUuidEdits(AwayEvents(tag, w0.store, id, target, nonce, away, get, back));
    hide *;
    UuidThereAndBack(parse, call, r, u);
    HoldsAt(parse, call, s1);
    HoldsAt(parse, call, s3);
    assert RecordAt(s1, at) == Some(r);
    AwayAndBack(parse, tag, w0, id, target, nonce, away, get, back);
    assert NonceIsBack(parse, tag, w0, AwayEvents(tag, w0.store, id, target, nonce, away, get, back), id);
  }

  lemma UuidThereAndBack(parse: UuidParser, call: Call, r: Record, u: string)
    requires IsConfigKey(call.key) && parse(u) != Some(call.target.uuid)
    ensures var r2 := EditRecord(r, PutConfig(UUID_KEY, u));
      && !IsTarget(parse, call.target, Some(r2))
      && (HoldsIn(parse, call, Some(r)) ==>
            HoldsIn(parse, call, Some(EditRecord(r2, PutConfig(UUID_KEY, UuidOf(r))))))
  {
    var away, back := PutConfig(UUID_KEY, u), PutConfig(UUID_KEY, UuidOf(r));
    var r2 := EditRecord(r, away);
    KeyIsNotUUID(call.key);
    EditedUuid(r, away);
    EditedUuid(r2, back);
    hide IsTarget, IsConfigKey;
    TargetByUuid(parse, call.target, r);
    TargetByUuid(parse, call.target, r2);
    TargetByUuid(parse, call.target, EditRecord(r2, back));
  }

  // ---------------------------------------------------------------- runs without operators

  ghost predicate NoOperators(es: seq<Event>) { forall e :: e in es ==> !e.Operator? }

  /** They are careful, gentle and sparing. */
  lemma {:induction false} NoOperatorsSpare(parse: UuidParser, tag: Tagger, w0: World, es: seq<Event>, id: AttemptID)
    requires Run(parse, tag, w0, es).Some? && NoOperators(es)
    ensures CarefulRun(parse, tag, w0, es, id) && GentleRun(parse, tag, w0, es, id)
            && SparedSince(parse, tag, w0, es, id)
  {
    if es != [] {
      hide Allowed, Apply;
      assert es[|es| - 1] in es;
      NoOperatorsSpare(parse, tag, w0, es[..|es| - 1], id);
    }
  }

  function WholeRun(tag: Tagger, s: Store, id: AttemptID, target: Instance, nonce: Nonce): seq<Event>
    requires Place(target) in s
  {
    SetEvents(tag, s, id, target, nonce) + UnsetEvents(tag, WithNonce(s, id, target, nonce), id, target)
  }

  lemma WholeRunIsSpared(parse: UuidParser, tag: Tagger, w0: World, id: AttemptID, target: Instance, nonce: Nonce)
    requires Fresh(parse, w0, id, target)
    ensures var es := WholeRun(tag, w0.store, id, target, nonce);
            var w := Alone(w0.store, id, target, nonce, Closed(None, None));
      && Reaches(parse, tag, w0, es, w) && id in w.attempts
      && w.attempts[id] == Attempt(target, nonce, Closed(None, None)) && w.store == w0.store
      && CarefulRun(parse, tag, w0, es, id) && GentleRun(parse, tag, w0, es, id)
  {
    var es := WholeRun(tag, w0.store, id, target, nonce);
    assert NoOperators(es);
    UnsetCanSucceed(parse, tag, w0, id, target, nonce);
    hide Run, Fresh, WithNonce, SetEvents, UnsetEvents;
    NoOperatorsSpare(parse, tag, w0, es, id);
  }
}
