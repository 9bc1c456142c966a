/**
 * Who owns an attempt key over whole runs. First what holds with operators who do anything at all,
 * with the exact condition under which a key survives its cleanup; then what operators who spare one
 * attempt's key and target are guaranteed, whatever they do elsewhere.
 */
module Ownership {
  import opened Base
  import opened Attest
  import opened Incus
  import opened Wire
  import opened Mutation
  import opened Interleaving

  // ---------------------------------------------------------------- one instance

  /** A set call wants its nonce under the key; for an unset call any value counts. */
  predicate Wanted(call: Call, v: string) { call.nonce.Some? ==> v == call.nonce.value }

  predicate HasValue(call: Call, r: Record) {
    call.key in r.writable.config && Wanted(call, r.writable.config[call.key])
  }

  /** The record is the target and has a wanted value under the key. */
  predicate HoldsIn(parse: UuidParser, call: Call, r: Option<Record>) {
    r.Some? && IsTarget(parse, call.target, r) && HasValue(call, r.value)
  }

  predicate GoneFrom(parse: UuidParser, call: Call, r: Option<Record>) {
    r.None? || !IsTarget(parse, call.target, r) || call.key !in r.value.writable.config
  }

  lemma HoldsAt(parse: UuidParser, call: Call, s: Store)
    ensures call.nonce.Some? ==> (Holds(parse, call, s) <==> HoldsIn(parse, call, RecordAt(s, At(call))))
    ensures call.nonce.None? ==> (Gone(parse, call, s) <==> !HoldsIn(parse, call, RecordAt(s, At(call))))
    ensures Gone(parse, call, s) <==> GoneFrom(parse, call, RecordAt(s, At(call)))
  {
  }

  function UuidOf(r: Record): string { ConfigValue(Expanded(r), UUID_KEY) }

  /** Identity and key are in the view of the key. */
  lemma HoldsInView(parse: UuidParser, call: Call, r: Option<Record>, t: Option<Record>)
    requires View(r, call.key) == View(t, call.key)
    ensures HoldsIn(parse, call, r) <==> HoldsIn(parse, call, t)
    ensures GoneFrom(parse, call, r) <==> GoneFrom(parse, call, t)
  {
    if r.Some? {
      InViewAlike(r.value, t.value, call.key, UUID_KEY);
      InViewAlike(r.value, t.value, call.key, call.key);
      ViewKeepsFields(r.value, call.key);
      ViewKeepsFields(t.value, call.key);
      assert UuidOf(r.value) == UuidOf(t.value);
    }
  }

  lemma InViewAlike(r: Record, t: Record, key: string, k: string)
    requires View(Some(r), key) == View(Some(t), key) && InView(k, key)
    ensures k in r.writable.config <==> k in t.writable.config
    ensures k in r.writable.config ==> r.writable.config[k] == t.writable.config[k]
  {
    var c, d := ConfigView(r.writable.config, key), ConfigView(t.writable.config, key);
    assert c == View(Some(r), key).value.writable.config && d == View(Some(t), key).value.writable.config;
    assert (k in c <==> k in d) && (k in r.writable.config <==> k in c) && (k in t.writable.config <==> k in d);
  }

  lemma ViewKeepsFields(r: Record, key: string)
    ensures var t := View(Some(r), key).value;
      t.name == r.name && t.project == r.project && t.kind == r.kind && t.inherited == r.inherited
  {
  }

  // ---------------------------------------------------------------- the edits that bring a value back

  /** Everything about the target but its UUID. */
  predicate NamedAs(target: Instance, r: Record) {
    (r.project == "" || r.project == target.project) && r.name == target.name && r.kind == VIRTUAL_MACHINE
  }

  /** The record has a wanted value and is the target but for its UUID. */
  predicate LacksOnlyUuid(call: Call, r: Record) { NamedAs(call.target, r) && HasValue(call, r) }

  /**
   * The edits by which an instance comes to hold a wanted value it did not hold: the record is put
   * back, the key is written on the target, or the UUID of a record that still has such a value
   * becomes the target's.
   */
  predicate Restores(parse: UuidParser, call: Call, r: Option<Record>, op: Operation) {
    match op
    case Replace(r') => HoldsIn(parse, call, r')
    case PutConfig(k, v) =>
      && r.Some?
      && ((k == call.key && Wanted(call, v) && IsTarget(parse, call.target, r))
          || (k == UUID_KEY && parse(v) == Some(call.target.uuid) && LacksOnlyUuid(call, r.value)))
    case DropConfig(k) =>
      && r.Some? && k == UUID_KEY && LacksOnlyUuid(call, r.value)
      && parse(ConfigValue(r.value.inherited, UUID_KEY)) == Some(call.target.uuid)
    case Reshape(_, _, inherited) =>
      && r.Some? && UUID_KEY !in r.value.writable.config && LacksOnlyUuid(call, r.value)
      && parse(ConfigValue(inherited, UUID_KEY)) == Some(call.target.uuid)
  }

  /** The edits by which an instance ceases to hold one. */
  predicate Removes(parse: UuidParser, call: Call, r: Option<Record>, op: Operation) {
    match op
    case Replace(r') => !HoldsIn(parse, call, r')
    case PutConfig(k, v) =>
      || (k == call.key && !Wanted(call, v))
      || (k == UUID_KEY && parse(v) != Some(call.target.uuid))
    case DropConfig(k) =>
      || k == call.key
      || (k == UUID_KEY && r.Some? && parse(ConfigValue(r.value.inherited, UUID_KEY)) != Some(call.target.uuid))
    case Reshape(_, _, inherited) =>
      && r.Some? && UUID_KEY !in r.value.writable.config
      && parse(ConfigValue(inherited, UUID_KEY)) != Some(call.target.uuid)
  }

  lemma EditedUuid(r: Record, op: Operation)
    requires !op.Replace?
    ensures var r' := EditRecord(r, op);
      && r'.name == r.name && r'.project == r.project && r'.kind == r.kind
      && UuidOf(r') == match op
         case PutConfig(k, v) => if k == UUID_KEY then v else UuidOf(r)
         case DropConfig(k) => if k == UUID_KEY then ConfigValue(r.inherited, UUID_KEY) else UuidOf(r)
         case Reshape(_, _, inherited) =>
           if UUID_KEY in r.writable.config then UuidOf(r) else ConfigValue(inherited, UUID_KEY)
         case Replace(_) => ""
  {
  }

  lemma TargetByUuid(parse: UuidParser, target: Instance, r: Record)
    ensures IsTarget(parse, target, Some(r)) <==> NamedAs(target, r) && parse(UuidOf(r)) == Some(target.uuid)
  {
  }

  /**
   * After one edit, the instance holds a wanted value exactly if the edit restored one, or it held
   * one and the edit did not remove it.
   */
  lemma HoldsAfterEdit(parse: UuidParser, call: Call, r: Option<Record>, op: Operation)
    requires IsConfigKey(call.key)
    ensures HoldsIn(parse, call, Edit(r, op)) <==>
              if HoldsIn(parse, call, r) then !Removes(parse, call, r, op) else Restores(parse, call, r, op)
  {
    KeyIsNotUUID(call.key);
    if r.Some? && !op.Replace? {
      hide IsTarget, IsConfigKey;
      EditedUuid(r.value, op);
      TargetByUuid(parse, call.target, r.value);
      TargetByUuid(parse, call.target, EditRecord(r.value, op));
    }
  }

  /** Edit k restores a wanted value and no later edit removes it. */
  ghost predicate LastRestored(parse: UuidParser, call: Call, r: Option<Record>, ops: seq<Operation>, k: nat) {
    && k < |ops| && !HoldsIn(parse, call, After(r, ops[..k])) && Restores(parse, call, After(r, ops[..k]), ops[k])
    && forall j :: k < j < |ops| ==> !Removes(parse, call, After(r, ops[..j]), ops[j])
  }

  lemma AfterPrefix(r: Option<Record>, ops: seq<Operation>, j: nat)
    requires j < |ops|
    ensures After(r, ops[..j + 1]) == Edit(After(r, ops[..j]), ops[j])
  {
    assert ops[..j + 1][..j] == ops[..j];
  }

  lemma {:induction false} HoldsFrom(parse: UuidParser, call: Call, r: Option<Record>, ops: seq<Operation>,
                                    k: nat, j: nat)
    requires IsConfigKey(call.key) && LastRestored(parse, call, r, ops, k) && k < j <= |ops|
    ensures HoldsIn(parse, call, After(r, ops[..j]))
    decreases j
  {
    hide HoldsIn, Removes, Restores;
    AfterPrefix(r, ops, j - 1);
    HoldsAfterEdit(parse, call, After(r, ops[..j - 1]), ops[j - 1]);
    if k < j - 1 {
      HoldsFrom(parse, call, r, ops, k, j - 1);
    }
  }

  lemma {:induction false} SomethingRestored(parse: UuidParser, call: Call, r: Option<Record>, ops: seq<Operation>)
    requires IsConfigKey(call.key) && !HoldsIn(parse, call, r) && HoldsIn(parse, call, After(r, ops))
    ensures exists k: nat :: LastRestored(parse, call, r, ops, k)
    decreases |ops|
  {
    hide HoldsIn, Removes, Restores;
    assert ops != [];
    var n := |ops| - 1;
    var init := ops[..n];
    HoldsAfterEdit(parse, call, After(r, init), ops[n]);
    if HoldsIn(parse, call, After(r, init)) {
      SomethingRestored(parse, call, r, init);
      var k: nat :| LastRestored(parse, call, r, init, k);
      assert init[..k] == ops[..k];
      forall j | k < j < |ops| ensures !Removes(parse, call, After(r, ops[..j]), ops[j]) {
        if j < n { assert init[..j] == ops[..j] && init[j] == ops[j]; }
      }
      assert LastRestored(parse, call, r, ops, k);
    } else {
      assert LastRestored(parse, call, r, ops, n);
    }
  }

  /**
   * An instance that held no wanted value does so after some edits exactly if one restored it and
   * none removed it since.
   */
  lemma HoldsAfter(parse: UuidParser, call: Call, r: Option<Record>, ops: seq<Operation>)
    requires IsConfigKey(call.key) && !HoldsIn(parse, call, r)
    ensures HoldsIn(parse, call, After(r, ops)) <==> exists k: nat :: LastRestored(parse, call, r, ops, k)
  {
    hide HoldsIn, Removes, Restores;
    if HoldsIn(parse, call, After(r, ops)) {
      SomethingRestored(parse, call, r, ops);
    }
    if k: nat :| LastRestored(parse, call, r, ops, k) {
      HoldsFrom(parse, call, r, ops, k, |ops|);
      assert ops[..|ops|] == ops;
    }
  }

  // ---------------------------------------------------------------- operators who do anything

  /** At instant n of the run, during cleanup, the instance was absent, not the target, or without the key. */
  ghost predicate GoneDuring(parse: UuidParser, tag: Tagger, w0: World, es: seq<Event>, id: AttemptID,
                             call: Call, n: nat) {
    && n <= |es| && Run(parse, tag, w0, es[..n]).Some?
    && var m := Run(parse, tag, w0, es[..n]).value;
    && id in m.attempts && m.attempts[id].stage.Cleaning? && Gone(parse, call, m.store)
  }

  /** The operators' edits of the target since instant n brought a wanted value back, and none removed it again. */
  ghost predicate BroughtBack(parse: UuidParser, tag: Tagger, w0: World, es: seq<Event>, call: Call, n: nat)
    requires n <= |es| && Run(parse, tag, w0, es[..n]).Some?
  {
    var r := RecordAt(Run(parse, tag, w0, es[..n]).value.store, At(call));
    exists k: nat :: LastRestored(parse, call, r, OpsAt(es[n..], At(call)), k)
  }

  /** The key was gone at instant n, and it and the nonce are back exactly as far as operators brought them back. */
  ghost predicate BackOnlyByOperators(parse: UuidParser, tag: Tagger, w0: World, es: seq<Event>, w: World,
                                      id: AttemptID, n: nat)
    requires id in w.attempts
  {
    var withNonce, withKey := SetCall(id, w.attempts[id]), UnsetCall(id, w.attempts[id]);
    && GoneDuring(parse, tag, w0, es, id, withKey, n)
    && (Holds(parse, withNonce, w.store) <==> BroughtBack(parse, tag, w0, es, withNonce, n))
    && (!Gone(parse, withKey, w.store) <==> BroughtBack(parse, tag, w0, es, withKey, n))
  }

  /**
   * When a cleanup that returned nil keeps key and nonce off its target, in every run and with
   * operators who do anything: there is an instant of the cleanup at which the key was gone, and from
   * then on the target has the key, or even the nonce, again if and only if an operator's later edit
   * of that instance put the record back, wrote the key, or made its UUID the target's again, and no
   * edit since undid that.
   */
  lemma NonceComesBack(parse: UuidParser, tag: Tagger, w0: World, es: seq<Event>, w: World, id: AttemptID)
    requires TagContract(tag) && Initial(w0) && Reaches(parse, tag, w0, es, w)
    requires id in w.attempts && UnsetDone(w.attempts[id])
    ensures exists n: nat :: BackOnlyByOperators(parse, tag, w0, es, w, id, n)
  {
    DoneIsSettled(parse, tag, w0, es, w, id);
    hide SettledAt, BackOnlyByOperators;
    var n: nat :| SettledAt(parse, tag, w0, es, w, id, UnsetCall(id, w.attempts[id]), n);
    BackFrom(parse, tag, w0, es, w, id, n);
  }

  lemma BackFrom(parse: UuidParser, tag: Tagger, w0: World, es: seq<Event>, w: World, id: AttemptID, n: nat)
    requires id in w.attempts && SettledAt(parse, tag, w0, es, w, id, UnsetCall(id, w.attempts[id]), n)
    ensures BackOnlyByOperators(parse, tag, w0, es, w, id, n)
  {
    var withNonce, withKey := SetCall(id, w.attempts[id]), UnsetCall(id, w.attempts[id]);
    var m := Run(parse, tag, w0, es[..n]).value;
    KeysAreDistinct(id, id);
    hide Run, LastRestored, IsConfigKey, HoldsIn, View, IsTarget, Holds;
    assert GoneDuring(parse, tag, w0, es, id, withKey, n);
    BackSince(parse, withNonce, m.store, es[n..], w.store);
    BackSince(parse, withKey, m.store, es[n..], w.store);
    HoldsAt(parse, withNonce, w.store);
    HoldsAt(parse, withKey, w.store);
  }

  /** On an instance that only operators have edited since it was without the key. */
  lemma BackSince(parse: UuidParser, call: Call, was: Store, es: seq<Event>, now: Store)
    requires IsConfigKey(call.key) && Gone(parse, call, was)
    requires View(RecordAt(now, At(call)), call.key)
          == View(After(RecordAt(was, At(call)), OpsAt(es, At(call))), call.key)
    ensures HoldsIn(parse, call, RecordAt(now, At(call))) <==>
              exists k: nat :: LastRestored(parse, call, RecordAt(was, At(call)), OpsAt(es, At(call)), k)
  {
    hide View, LastRestored, IsConfigKey;
    var r, ops := RecordAt(was, At(call)), OpsAt(es, At(call));
    HoldsAfter(parse, call, r, ops);
    HoldsInView(parse, call, RecordAt(now, At(call)), After(r, ops));
  }

  lemma {:induction false} TargetStays(parse: UuidParser, tag: Tagger, w0: World, es: seq<Event>, w: World,
                                       id: AttemptID, n: nat)
    requires Reaches(parse, tag, w0, es, w)
    requires n <= |es| && Run(parse, tag, w0, es[..n]).Some? && id in Run(parse, tag, w0, es[..n]).value.attempts
    ensures var m := Run(parse, tag, w0, es[..n]).value;
      id in w.attempts && w.attempts[id].target == m.attempts[id].target && w.attempts[id].nonce == m.attempts[id].nonce
    decreases |es|
  {
    if n == |es| {
      assert es[..n] == es;
    } else {
      var init := es[..|es| - 1];
      assert init[..n] == es[..n];
      var before := Run(parse, tag, w0, init).value;
      TargetStays(parse, tag, w0, init, before, id, n);
      AttemptsStay(parse, tag, before, es[|es| - 1]);
    }
  }

  ghost predicate IsClosed(w: World, id: AttemptID) { id in w.attempts && w.attempts[id].stage.Closed? }

  lemma {:induction false} InvariantAlong(parse: UuidParser, tag: Tagger, w: World, es: seq<Event>, w': World)
    requires AllArmed(parse, tag, w) && Reaches(parse, tag, w, es, w')
    ensures AllArmed(parse, tag, w')
    decreases |es|
  {
    if es != [] {
      var before := Run(parse, tag, w, es[..|es| - 1]).value;
      InvariantAlong(parse, tag, w, es[..|es| - 1], before);
      ArmedStep(parse, tag, before, es[|es| - 1]);
    }
  }

  /**
   * Once an attempt is closed, whether or not its cleanup succeeded, no attempt ever touches its key
   * again: in every later run each instance, its identity and the key included, is what the
   * operators' edits made of what it was when the attempt closed.
   */
  lemma {:induction false} ClosedKeyIsTheOperators(parse: UuidParser, tag: Tagger, w: World, es: seq<Event>,
                                                   w': World, id: AttemptID, l: Location)
    requires TagContract(tag) && AllArmed(parse, tag, w) && IsClosed(w, id) && Reaches(parse, tag, w, es, w')
    ensures IsClosed(w', id) && w'.attempts[id] == w.attempts[id]
    ensures View(RecordAt(w'.store, l), KeyOf(id)) == View(After(RecordAt(w.store, l), OpsAt(es, l)), KeyOf(id))
    decreases |es|
  {
    if es != [] {
      hide View, Edit;
      var init, e := es[..|es| - 1], es[|es| - 1];
      var before := Run(parse, tag, w, init).value;
      ClosedKeyIsTheOperators(parse, tag, w, init, before, id, l);
      InvariantAlong(parse, tag, w, init, before);
      SettledEvent(parse, tag, before, e, w, init, es, l, id);
    }
  }

  // ---------------------------------------------------------------- operators who spare one target

  /** An edit that neither brings the key to an instance nor gives it another UUID; removing the key is fine. */
  predicate Spares(r: Option<Record>, op: Operation, key: string) {
    match op
    case PutConfig(k, _) => k != key && k != UUID_KEY
    case DropConfig(k) => k != UUID_KEY
    case Reshape(_, _, inherited) =>
      r.Some? ==> ConfigValue(inherited, UUID_KEY) == ConfigValue(r.value.inherited, UUID_KEY)
    case Replace(r') => r'.Some? ==> key !in r'.value.writable.config
  }

  lemma SparedEdit(parse: UuidParser, call: Call, r: Option<Record>, op: Operation)
    requires Spares(r, op, call.key)
    ensures GoneFrom(parse, call, r) ==> GoneFrom(parse, call, Edit(r, op))
    ensures Edit(r, op).Some? && call.key in Edit(r, op).value.writable.config ==>
              r.Some? && call.key in r.value.writable.config
              && (IsTarget(parse, call.target, Edit(r, op)) <==> IsTarget(parse, call.target, r))
  {
    if r.Some? && !op.Replace? {
      EditedUuid(r.value, op);
      assert UuidOf(EditRecord(r.value, op)) == UuidOf(r.value);
    }
  }

  /**
   * From the moment its unset is done, operators spare the attempt's target; before, and elsewhere, they do
   * anything.
   */
  ghost predicate SparedSince(parse: UuidParser, tag: Tagger, w0: World, es: seq<Event>, id: AttemptID)
    requires Run(parse, tag, w0, es).Some?
  {
    es == [] || (
      && SparedSince(parse, tag, w0, es[..|es| - 1], id)
      && var w, e := Run(parse, tag, w0, es[..|es| - 1]).value, es[|es| - 1];
      (id in w.attempts && UnsetDone(w.attempts[id]) && e.Operator? && e.at == At(UnsetCall(id, w.attempts[id])) ==>
        Spares(RecordAt(w.store, e.at), e.op, KeyOf(id))))
  }

  lemma GoneStays(parse: UuidParser, tag: Tagger, w: World, e: Event, id: AttemptID)
    requires TagContract(tag) && AllArmed(parse, tag, w) && Allowed(tag, w, e)
    requires id in w.attempts && !(e.Step? && e.committed && e.id == id)
    requires var call := UnsetCall(id, w.attempts[id]);
      && Gone(parse, call, w.store)
      && (e.Operator? && e.at == At(call) ==> Spares(RecordAt(w.store, e.at), e.op, KeyOf(id)))
    ensures Gone(parse, UnsetCall(id, w.attempts[id]), Apply(parse, tag, w, e).store)
  {
    var call := UnsetCall(id, w.attempts[id]);
    var s' := Apply(parse, tag, w, e).store;
    HoldsAt(parse, call, w.store);
    HoldsAt(parse, call, s');
    if e.Operator? {
      if e.at == At(call) {
        SparedEdit(parse, call, RecordAt(w.store, e.at), e.op);
      }
    } else {
      if e.Step? { KeysAreDistinct(e.id, id); }
      StepView(parse, tag, w, e, At(call), KeyOf(id));
      hide View;
      HoldsInView(parse, call, RecordAt(s', At(call)), RecordAt(w.store, At(call)));
    }
  }

  /**
   * A cleanup that returned nil is for good as long as operators, from then on, spare that one
   * instance: in every continuation the target is absent, another VM, or without the key.
   */
  lemma {:induction false} CleanedForGood(parse: UuidParser, tag: Tagger, w0: World, es: seq<Event>, w: World,
                                          id: AttemptID)
    requires TagContract(tag) && Initial(w0) && Reaches(parse, tag, w0, es, w)
    requires id in w.attempts && UnsetDone(w.attempts[id]) && SparedSince(parse, tag, w0, es, id)
    ensures Gone(parse, UnsetCall(id, w.attempts[id]), w.store)
    decreases |es|
  {
    if es != [] {
      hide Gone, Spares, AllArmed;
      var init, e := es[..|es| - 1], es[|es| - 1];
      var before := Run(parse, tag, w0, init).value;
      ArmedAlways(parse, tag, w0, init, before);
      DoneStep(parse, tag, before, e, id);
      if id in before.attempts && !(e.Step? && e.committed && e.id == id) && UnsetDone(before.attempts[id]) {
        CleanedForGood(parse, tag, w0, init, before, id);
        GoneStays(parse, tag, before, e, id);
      } else if id in before.attempts && !(e.Step? && e.committed && e.id == id)
                && AchievedNow(parse, before, id, UnsetCall(id, w.attempts[id])) {
        OwnStep(parse, tag, before, e, id);
        GoneStays(parse, tag, before, e, id);
      }
    }
  }

  /** Only the attempt's own reply gets its unset done. */
  lemma OwnStep(parse: UuidParser, tag: Tagger, w: World, e: Event, id: AttemptID)
    requires Allowed(tag, w, e) && id in w.attempts && !UnsetDone(w.attempts[id])
    requires UnsetDone(Apply(parse, tag, w, e).attempts[id])
    ensures e.Step? && e.id == id
  {
  }

  // ---------------------------------------------------------------- ownership

  /** No edit brings the attempt's key to any instance, and none changes the UUID of its target. */
  ghost predicate Careful(w: World, e: Event, id: AttemptID) {
    id in w.attempts && e.Operator? ==>
      if e.at == At(SetCall(id, w.attempts[id])) then Spares(RecordAt(w.store, e.at), e.op, KeyOf(id))
      else !Brings(e.op, KeyOf(id))
  }

  predicate Brings(op: Operation, key: string) {
    match op
    case PutConfig(k, _) => k == key
    case Replace(Some(r)) => key in r.writable.config
    case _ => false
  }

  /** Operators are careful about one attempt, from its beginning on. */
  ghost predicate CarefulRun(parse: UuidParser, tag: Tagger, w: World, es: seq<Event>, id: AttemptID)
    requires Run(parse, tag, w, es).Some?
  {
    es == [] || (
      && CarefulRun(parse, tag, w, es[..|es| - 1], id)
      && Careful(Run(parse, tag, w, es[..|es| - 1]).value, es[|es| - 1], id))
  }

  /** The key is present only on its attempt's target, and only until its unset is done. */
  ghost predicate Owned(parse: UuidParser, w: World, id: AttemptID) {
    id in w.attempts ==>
      forall l :: Present(w.store, l, KeyOf(id)) ==>
        && l == At(SetCall(id, w.attempts[id]))
        && IsTarget(parse, w.attempts[id].target, Some(w.store[l]))
        && !UnsetDone(w.attempts[id])
  }

  lemma EditKeepsTarget(parse: UuidParser, call: Call, r: Record, target: Instance)
    requires call.key != UUID_KEY
    ensures IsTarget(parse, target, Some(Edited(call, r))) <==> IsTarget(parse, target, Some(r))
  {
    assert UuidOf(Edited(call, r)) == UuidOf(r);
  }

  lemma OwnedByOperator(parse: UuidParser, tag: Tagger, w: World, e: Event, id: AttemptID)
    requires e.Operator? && Careful(w, e, id) && Owned(parse, w, id)
    ensures Owned(parse, w.(store := Operate(w.store, e.at, e.op)), id)
  {
    var s' := Operate(w.store, e.at, e.op);
    if id in w.attempts {
      var call := SetCall(id, w.attempts[id]);
      forall l | Present(s', l, KeyOf(id))
        ensures Present(w.store, l, KeyOf(id)) && l == At(call)
        ensures IsTarget(parse, call.target, Some(s'[l])) && !UnsetDone(w.attempts[id]) {
        if l == e.at {
          if l == At(call) {
            SparedEdit(parse, call, RecordAt(w.store, l), e.op);
          } else {
            assert Present(w.store, l, KeyOf(id));
          }
        }
      }
    }
  }

  lemma OwnedByOthers(parse: UuidParser, tag: Tagger, w: World, e: Event, id: AttemptID)
    requires TagContract(tag) && AllArmed(parse, tag, w) && Allowed(tag, w, e)
    requires !e.Operator? && id in w.attempts && e.id != id && Owned(parse, w, id)
    ensures Owned(parse, Apply(parse, tag, w, e), id)
  {
    if e.Step? && e.committed {
      var call, own := Current(e.id, w.attempts[e.id]), SetCall(id, w.attempts[id]);
      var s' := Apply(parse, tag, w, e).store;
      CommitEdits(parse, tag, w, e);
      KeysAreDistinct(id, e.id);
      KeyIsNotUUID(call.key);
      var r := w.store[At(call)];
      EditKeepsTarget(parse, call, r, own.target);
      assert KeyOf(id) in Edited(call, r).writable.config <==> KeyOf(id) in r.writable.config;
      forall l ensures Present(s', l, KeyOf(id)) <==> Present(w.store, l, KeyOf(id)) {}
    }
  }

  lemma OwnedByItself(parse: UuidParser, tag: Tagger, w: World, e: Event, id: AttemptID)
    requires TagContract(tag) && AllArmed(parse, tag, w) && Allowed(tag, w, e)
    requires id in w.attempts && Owned(parse, w, id)
    requires !e.Operator? && e.id == id
    ensures Owned(parse, Apply(parse, tag, w, e), id)
  {
    var w' := Apply(parse, tag, w, e);
    KeysAreDistinct(id, id);
    KeyIsNotUUID(KeyOf(id));
    if e.Step? && e.committed {
      var call := Current(id, w.attempts[id]);
      CommitEdits(parse, tag, w, e);
      EditKeepsTarget(parse, call, w.store[At(call)], w.attempts[id].target);
      forall l | l != At(call) ensures Present(w'.store, l, KeyOf(id)) <==> Present(w.store, l, KeyOf(id)) {}
    } else {
      assert w'.store == w.store;
    }
  }

  lemma {:induction false} OwnedAlways(parse: UuidParser, tag: Tagger, w0: World, es: seq<Event>, w: World,
                                       id: AttemptID)
    requires TagContract(tag) && Initial(w0) && Reaches(parse, tag, w0, es, w)
    requires CarefulRun(parse, tag, w0, es, id)
    ensures Owned(parse, w, id)
    decreases |es|
  {
    if es != [] {
      hide AllArmed, Owned, Careful;
      var init, e := es[..|es| - 1], es[|es| - 1];
      var before := Run(parse, tag, w0, init).value;
      OwnedAlways(parse, tag, w0, init, before, id);
      ArmedAlways(parse, tag, w0, init, before);
      if e.Operator? {
        OwnedByOperator(parse, tag, before, e, id);
      } else if id in before.attempts {
        if e.id == id { OwnedByItself(parse, tag, before, e, id); } else { OwnedByOthers(parse, tag, before, e, id); }
      } else {
        OwnedAtBegin(parse, tag, before, e, id);
      }
    }
  }

  lemma OwnedAtBegin(parse: UuidParser, tag: Tagger, w: World, e: Event, id: AttemptID)
    requires Allowed(tag, w, e) && !e.Operator? && id !in w.attempts
    ensures Owned(parse, Apply(parse, tag, w, e), id)
  {
  }

  /**
   * Key ownership over whole runs. A key present on an instance that no attempt has as target with
   * that key is there exactly as the operators' own edits left it; with operators careful about one
   * attempt, its key is present only on its target, which still is the same VM, and only while the
   * attempt's unset is not done: between its set and the end of its cleanup, or after a failed one.
   */
  lemma KeyOwnership(parse: UuidParser, tag: Tagger, w0: World, es: seq<Event>, w: World, l: Location, key: string)
    requires TagContract(tag) && Initial(w0) && Reaches(parse, tag, w0, es, w)
    requires Present(w.store, l, key)
    ensures Unclaimed(w, l, key) ==>
      var r := After(RecordAt(w0.store, l), OpsAt(es, l));
      r.Some? && key in r.value.writable.config && r.value.writable.config[key] == w.store[l].writable.config[key]
    ensures forall id :: id in w.attempts && KeyOf(id) == key && CarefulRun(parse, tag, w0, es, id) ==>
      && l == At(SetCall(id, w.attempts[id]))
      && IsTarget(parse, w.attempts[id].target, Some(w.store[l]))
      && !UnsetDone(w.attempts[id])
  {
    if Unclaimed(w, l, key) {
      OperatorEditsIntact(parse, tag, w0, es, w, l, key);
      InViewAlike(w.store[l], After(RecordAt(w0.store, l), OpsAt(es, l)).value, key, key);
    }
    forall id | id in w.attempts && KeyOf(id) == key && CarefulRun(parse, tag, w0, es, id)
      ensures && l == At(SetCall(id, w.attempts[id]))
              && IsTarget(parse, w.attempts[id].target, Some(w.store[l]))
              && !UnsetDone(w.attempts[id])
    {
      OwnedAlways(parse, tag, w0, es, w, id);
    }
  }

  // ---------------------------------------------------------------- presence while a challenge is out

  /** While the attempt holds its nonce, edits of its target leave its key and its UUID alone and do not replace it. */
  ghost predicate Gentle(w: World, e: Event, id: AttemptID) {
    id in w.attempts && SetDone(w.attempts[id]) && e.Operator? && e.at == At(SetCall(id, w.attempts[id])) ==>
      !e.op.Replace? && e.op != DropConfig(KeyOf(id)) && Spares(RecordAt(w.store, e.at), e.op, KeyOf(id))
  }

  ghost predicate GentleRun(parse: UuidParser, tag: Tagger, w: World, es: seq<Event>, id: AttemptID)
    requires Run(parse, tag, w, es).Some?
  {
    es == [] || (
      && GentleRun(parse, tag, w, es[..|es| - 1], id)
      && Gentle(Run(parse, tag, w, es[..|es| - 1]).value, es[|es| - 1], id))
  }

  ghost predicate Visible(parse: UuidParser, w: World, id: AttemptID) {
    id in w.attempts && SetDone(w.attempts[id]) ==> Holds(parse, SetCall(id, w.attempts[id]), w.store)
  }

  lemma GentleEdit(parse: UuidParser, call: Call, r: Option<Record>, op: Operation)
    requires HoldsIn(parse, call, r) && !op.Replace? && op != DropConfig(call.key) && Spares(r, op, call.key)
    ensures HoldsIn(parse, call, Edit(r, op))
  {
    EditedUuid(r.value, op);
    assert UuidOf(EditRecord(r.value, op)) == UuidOf(r.value);
  }

  lemma VisibleStep(parse: UuidParser, tag: Tagger, w: World, e: Event, id: AttemptID)
    requires TagContract(tag) && AllArmed(parse, tag, w) && Allowed(tag, w, e) && Gentle(w, e, id)
    requires Visible(parse, w, id) && id in w.attempts && SetDone(w.attempts[id])
    requires !(e.Step? && e.committed && e.id == id)
    ensures Holds(parse, SetCall(id, w.attempts[id]), Apply(parse, tag, w, e).store)
  {
    var call := SetCall(id, w.attempts[id]);
    var s' := Apply(parse, tag, w, e).store;
    HoldsAt(parse, call, w.store);
    HoldsAt(parse, call, s');
    if e.Operator? {
      if e.at == At(call) {
        GentleEdit(parse, call, RecordAt(w.store, e.at), e.op);
      }
    } else {
      if e.Step? { KeysAreDistinct(e.id, id); }
      StepView(parse, tag, w, e, At(call), KeyOf(id));
      hide View;
      HoldsInView(parse, call, RecordAt(s', At(call)), RecordAt(w.store, At(call)));
    }
  }

  lemma {:induction false} VisibleAlways(parse: UuidParser, tag: Tagger, w0: World, es: seq<Event>, w: World,
                                         id: AttemptID)
    requires TagContract(tag) && Initial(w0) && Reaches(parse, tag, w0, es, w)
    requires GentleRun(parse, tag, w0, es, id)
    ensures Visible(parse, w, id)
    decreases |es|
  {
    if es != [] {
      hide AllArmed, Gentle, Holds;
      var init, e := es[..|es| - 1], es[|es| - 1];
      var before := Run(parse, tag, w0, init).value;
      VisibleAlways(parse, tag, w0, init, before, id);
      ArmedAlways(parse, tag, w0, init, before);
      if id in w.attempts {
        DoneStep(parse, tag, before, e, id);
        if id in before.attempts && SetDone(before.attempts[id]) && !(e.Step? && e.committed && e.id == id) {
          VisibleStep(parse, tag, before, e, id);
        }
      }
    }
  }

  /** What a fault-free read of the guest configuration channel returns for a key. */
  function GuestRead(s: Store, at: Location, key: string): Option<string> {
    if at in s && key in Expanded(s[at]) then Some(Expanded(s[at])[key]) else None
  }

  /**
   * Presence: from the moment SetNonce has returned nil until cleanup begins, and so while the
   * challenge is out, the key holds the attempt's nonce on the target and the guest reads exactly it.
   */
  lemma PresentWhileHolding(parse: UuidParser, tag: Tagger, w0: World, es: seq<Event>, w: World, id: AttemptID)
    requires TagContract(tag) && Initial(w0) && Reaches(parse, tag, w0, es, w)
    requires GentleRun(parse, tag, w0, es, id)
    requires id in w.attempts && w.attempts[id].stage.Holding?
    ensures Holds(parse, SetCall(id, w.attempts[id]), w.store)
    ensures GuestRead(w.store, At(SetCall(id, w.attempts[id])), KeyOf(id)) == Some(NonceText(w.attempts[id].nonce))
  {
    VisibleAlways(parse, tag, w0, es, w, id);
  }
}
