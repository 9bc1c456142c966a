/**
 * Any number of attempts, each one a set call, a period of holding the nonce and an unset call,
 * interleaved reply by reply with each other and with operators who edit the same instances.
 */
module Interleaving {
  import opened Base
  import opened Attest
  import opened Incus
  import opened Wire
  import opened Mutation

  /**
   * Where one attempt stands; Holding lasts from the successful set until cleanup begins. Cleaning
   * and Closed remember what SetNonce returned, and Closed what UnsetNonce returned.
   */
  datatype Stage =
    | Setting(p: Phase)
    | Holding
    | Cleaning(setErr: Option<Fault>, p: Phase)
    | Closed(setErr: Option<Fault>, unsetErr: Option<Fault>)

  datatype Attempt = Attempt(target: Instance, nonce: Nonce, stage: Stage)

  datatype World = World(store: Store, attempts: map<AttemptID, Attempt>)

  /** What operators do to an instance; Replace is every way to create, delete, rename or restore one. */
  datatype Operation =
    | PutConfig(key: string, value: string)
    | DropConfig(key: string)
    | Reshape(profiles: seq<string>, other: string, inherited: Config)
    | Replace(record: Option<Record>)

  datatype Event =
    | Operator(at: Location, op: Operation)
    | Begin(id: AttemptID, target: Instance, nonce: Nonce)
    | Step(id: AttemptID, reply: Reply, committed: bool)
    | Release(id: AttemptID)

  // ---------------------------------------------------------------- steps

  function RecordAt(s: Store, l: Location): Option<Record> { if l in s then Some(s[l]) else None }

  /** One edit of one instance, which may be absent. */
  function Edit(r: Option<Record>, op: Operation): Option<Record> {
    match op
    case Replace(r') => r'
    case _ => if r.Some? then Some(EditRecord(r.value, op)) else None
  }

  function EditRecord(r: Record, op: Operation): Record {
    match op
    case PutConfig(k, v) => r.(writable := r.writable.(config := r.writable.config[k := v]))
    case DropConfig(k) => r.(writable := r.writable.(config := r.writable.config - {k}))
    case Reshape(ps, o, inherited) =>
      r.(inherited := inherited, writable := r.writable.(profiles := ps, other := o))
    case Replace(_) => r
  }

  function Operate(s: Store, at: Location, op: Operation): Store {
    match Edit(RecordAt(s, at), op)
    case None => s - {at}
    case Some(r) => s[at := r]
  }

  function SetCall(id: AttemptID, a: Attempt): Call { Call(a.target, KeyOf(id), Some(NonceText(a.nonce))) }

  function UnsetCall(id: AttemptID, a: Attempt): Call { Call(a.target, KeyOf(id), None) }

  function Current(id: AttemptID, a: Attempt): Call {
    if a.stage.Setting? then SetCall(id, a) else UnsetCall(id, a)
  }

  predicate Running(a: Attempt) { a.stage.Setting? || a.stage.Cleaning? }

  predicate Present(s: Store, at: Location, key: string) { at in s && key in s[at].writable.config }

  /** What may happen next. Attempt IDs are fresh; replies obey the store contract. */
  ghost predicate Allowed(tag: Tagger, w: World, e: Event) {
    match e
    case Operator(_, _) => true
    case Begin(id, _, _) => id !in w.attempts && forall l :: !Present(w.store, l, KeyOf(id))
    case Step(id, reply, committed) =>
      && id in w.attempts && Running(w.attempts[id])
      && Lawful(tag, Current(id, w.attempts[id]), w.attempts[id].stage.p, Exchange(w.store, reply, committed))
    case Release(id) => id in w.attempts && w.attempts[id].stage.Holding?
  }

  /** The stage a call's new phase leads to: a failed set goes straight to cleanup. */
  function Settle(stage: Stage, p: Phase): Stage
    requires stage.Setting? || stage.Cleaning?
  {
    if stage.Setting? then
      match p
      case Done(None) => Holding
      case Done(Some(f)) => Cleaning(Some(f), START)
      case _ => Setting(p)
    else
      match p
      case Done(err) => Closed(stage.setErr, err)
      case _ => Cleaning(stage.setErr, p)
  }

  ghost function Apply(parse: UuidParser, tag: Tagger, w: World, e: Event): World
    requires Allowed(tag, w, e)
  {
    match e
    case Operator(at, op) => w.(store := Operate(w.store, at, op))
    case Begin(id, target, nonce) => w.(attempts := w.attempts[id := Attempt(target, nonce, Setting(START))])
    case Step(id, reply, committed) =>
      var a := w.attempts[id];
      var call := Current(id, a);
      World(if committed then Commit(call, w.store, a.stage.p.base) else w.store,
            w.attempts[id := a.(stage := Settle(a.stage, Next(parse, call, a.stage.p, reply)))])
    case Release(id) => w.(attempts := w.attempts[id := w.attempts[id].(stage := Cleaning(None, START))])
  }

  // ---------------------------------------------------------------- runs

  /** The world after the events, one by one; None if one of them may not happen. */
  ghost function Run(parse: UuidParser, tag: Tagger, w: World, es: seq<Event>): Option<World> {
    if es == [] then Some(w)
    else
      match Run(parse, tag, w, es[..|es| - 1])
      case None => None
      case Some(m) =>
        if Allowed(tag, m, es[|es| - 1]) then Some(Apply(parse, tag, m, es[|es| - 1])) else None
  }

  ghost predicate Reaches(parse: UuidParser, tag: Tagger, w: World, es: seq<Event>, w': World) {
    Run(parse, tag, w, es) == Some(w')
  }

  lemma RunNothing(parse: UuidParser, tag: Tagger, w: World)
    ensures Run(parse, tag, w, []) == Some(w)
  {
  }

  lemma RunThen(parse: UuidParser, tag: Tagger, w0: World, es: seq<Event>, w: World, e: Event)
    requires Reaches(parse, tag, w0, es, w) && Allowed(tag, w, e)
    ensures Reaches(parse, tag, w0, es + [e], Apply(parse, tag, w, e))
  {
    assert (es + [e])[..|es|] == es;
  }

  ghost predicate Initial(w: World) { w.attempts == map[] }

  // ---------------------------------------------------------------- no lost update

  /** A call about to PUT holds a base that is the target, and the tag of that base. */
  ghost predicate Armed(parse: UuidParser, tag: Tagger, id: AttemptID, a: Attempt) {
    Running(a) && a.stage.p.AtPut? ==>
      && a.stage.p.etag == tag(a.stage.p.base) && IsTarget(parse, a.target, Some(a.stage.p.base))
      && (a.stage.Cleaning? ==> KeyOf(id) in a.stage.p.base.writable.config)
  }

  ghost predicate AllArmed(parse: UuidParser, tag: Tagger, w: World) {
    forall id :: id in w.attempts ==> Armed(parse, tag, id, w.attempts[id])
  }

  lemma ArmedStep(parse: UuidParser, tag: Tagger, w: World, e: Event)
    requires AllArmed(parse, tag, w) && Allowed(tag, w, e)
    ensures AllArmed(parse, tag, Apply(parse, tag, w, e))
  {
    if e.Step? {
      var a := w.attempts[e.id];
      assert a.stage.p.AtGet? && e.reply.get.GetRecord? ==> e.reply.get.etag == tag(e.reply.get.current.value);
    }
  }

  lemma {:induction false} ArmedAlways(parse: UuidParser, tag: Tagger, w0: World, es: seq<Event>, w: World)
    requires Initial(w0) && Reaches(parse, tag, w0, es, w)
    ensures AllArmed(parse, tag, w)
    decreases |es|
  {
    if es != [] {
      var before := Run(parse, tag, w0, es[..|es| - 1]).value;
      ArmedAlways(parse, tag, w0, es[..|es| - 1], before);
      ArmedStep(parse, tag, before, es[|es| - 1]);
    }
  }

  /**
   * No lost update: in every run, a step that commits changes exactly the attempt's own key of the
   * record current at that instant, which is the target; every other attempt step changes nothing.
   */
  lemma NoLostUpdate(parse: UuidParser, tag: Tagger, w0: World, es: seq<Event>, w: World, e: Event)
    requires TagContract(tag) && Initial(w0) && Reaches(parse, tag, w0, es, w)
    requires Allowed(tag, w, e) && !e.Operator?
    ensures var w' := Apply(parse, tag, w, e);
            if e.Step? && e.committed
            then OneKeyEdit(parse, Current(e.id, w.attempts[e.id]), w.store, w'.store)
            else w'.store == w.store
  {
    ArmedAlways(parse, tag, w0, es, w);
    if e.Step? && e.committed {
      CommitEdits(parse, tag, w, e);
    }
  }

  lemma CommitEdits(parse: UuidParser, tag: Tagger, w: World, e: Event)
    requires TagContract(tag) && AllArmed(parse, tag, w) && Allowed(tag, w, e) && e.Step? && e.committed
    ensures OneKeyEdit(parse, Current(e.id, w.attempts[e.id]), w.store, Apply(parse, tag, w, e).store)
  {
    var a := w.attempts[e.id];
    GuardedPut(parse, tag, Current(e.id, a), w.store, a.stage.p.base, a.stage.p.etag);
  }

  /**
   * The outcome of a failed update is unknown: the same fault may follow a commit or none, the
   * attempt goes on in the same way, and only the store tells the two apart.
   */
  lemma FailedUpdateTellsNothing(parse: UuidParser, tag: Tagger, w: World, id: AttemptID, f: Fault)
    requires TagContract(tag) && AllArmed(parse, tag, w)
    requires id in w.attempts && w.attempts[id].stage.Setting? && w.attempts[id].stage.p.AtPut?
    requires Matches(tag, w.store, At(SetCall(id, w.attempts[id])), w.attempts[id].stage.p.etag)
    ensures var call, reply := SetCall(id, w.attempts[id]), Put(PutFault(f));
      && Allowed(tag, w, Step(id, reply, true)) && Allowed(tag, w, Step(id, reply, false))
      && var (done, not) := (Apply(parse, tag, w, Step(id, reply, true)), Apply(parse, tag, w, Step(id, reply, false)));
      && done.attempts == not.attempts && not.store == w.store
      && Holds(parse, call, done.store)
  {
    var call := SetCall(id, w.attempts[id]);
    CommitEdits(parse, tag, w, Step(id, Put(PutFault(f)), true));
    KeysAreDistinct(id, id);
    KeyIsNotUUID(call.key);
    OneKeyEditKeepsTheRest(parse, call, w.store, Commit(call, w.store, w.attempts[id].stage.p.base));
  }

  // ---------------------------------------------------------------- what success means

  /** The call is running and the store satisfies its purpose. */
  ghost predicate AchievedNow(parse: UuidParser, w: World, id: AttemptID, call: Call) {
    && id in w.attempts
    && (if call.nonce.Some? then w.attempts[id].stage.Setting? else w.attempts[id].stage.Cleaning?)
    && Achieved(parse, call, w.store)
  }

  /** At some instant of the call the store satisfied its purpose. */
  ghost predicate AchievedDuring(parse: UuidParser, tag: Tagger, w0: World, es: seq<Event>, id: AttemptID, call: Call) {
    exists n: nat :: n <= |es| && Run(parse, tag, w0, es[..n]).Some?
                     && AchievedNow(parse, Run(parse, tag, w0, es[..n]).value, id, call)
  }

  /** The set of this attempt has committed and its operation was reported. */
  predicate SetDone(a: Attempt) { a.stage.Holding? || (a.stage.Setting? && a.stage.p.AtWait?) }

  /** The unset of this attempt has committed and its operation was reported, or the cleanup returned nil. */
  predicate UnsetDone(a: Attempt) {
    (a.stage.Closed? && a.stage.unsetErr.None?) || (a.stage.Cleaning? && a.stage.p.AtWait?)
  }

  /** A step by which a call gets done achieves its purpose, just before or just after the step. */
  lemma DoneStep(parse: UuidParser, tag: Tagger, w: World, e: Event, id: AttemptID)
    requires TagContract(tag) && AllArmed(parse, tag, w) && Allowed(tag, w, e)
    requires id in Apply(parse, tag, w, e).attempts
    ensures var a := Apply(parse, tag, w, e).attempts[id];
      && (id in w.attempts ==> a.target == w.attempts[id].target && a.nonce == w.attempts[id].nonce)
      && var own := e.Step? && e.committed && e.id == id;
      && (SetDone(a) ==>
            (!own && id in w.attempts && SetDone(w.attempts[id]))
            || AchievedNow(parse, Apply(parse, tag, w, e), id, SetCall(id, a)))
      && (UnsetDone(a) ==>
            (!own && id in w.attempts && UnsetDone(w.attempts[id]))
            || (!own && AchievedNow(parse, w, id, UnsetCall(id, a)))
            || AchievedNow(parse, Apply(parse, tag, w, e), id, UnsetCall(id, a)))
  {
    if e.Step? && e.id == id {
      if e.committed {
        CommitAchieves(parse, tag, w, e);
        hide TagContract, AllArmed, IsTarget, Achieved, Truthful, Matches, Commit, KeyOf, NonceText;
      } else {
        hide TagContract, AllArmed, IsTarget, Matches, KeyOf, NonceText, Commit;
      }
    } else {
      hide TagContract, AllArmed, Achieved, Lawful, Next, Commit, Operate, Present;
    }
  }

  lemma CommitAchieves(parse: UuidParser, tag: Tagger, w: World, e: Event)
    requires TagContract(tag) && AllArmed(parse, tag, w) && Allowed(tag, w, e) && e.Step? && e.committed
    ensures Achieved(parse, Current(e.id, w.attempts[e.id]), Apply(parse, tag, w, e).store)
  {
    var call := Current(e.id, w.attempts[e.id]);
    CommitEdits(parse, tag, w, e);
    KeysAreDistinct(e.id, e.id);
    KeyIsNotUUID(call.key);
    OneKeyEditKeepsTheRest(parse, call, w.store, Apply(parse, tag, w, e).store);
  }

  // ---------------------------------------------------------------- what the operators alone would have done

  /** The operators' edits of one instance, in order. */
  function OpsAt(es: seq<Event>, l: Location): seq<Operation> {
    if es == [] then []
    else
      var before := OpsAt(es[..|es| - 1], l);
      var e := es[|es| - 1];
      if e.Operator? && e.at == l then before + [e.op] else before
  }

  /** An instance after a number of edits. */
  function After(r: Option<Record>, ops: seq<Operation>): Option<Record> {
    if ops == [] then r else Edit(After(r, ops[..|ops| - 1]), ops[|ops| - 1])
  }

  predicate InView(k: string, key: string) { !HasPrefix(k, KEY_PREFIX) || k == key }

  function ConfigView(c: Config, key: string): Config { map k | k in c && InView(k, key) :: c[k] }

  /** An instance without the keys of the reserved namespace, except one. */
  function View(r: Option<Record>, key: string): Option<Record> {
    match r
    case None => None
    case Some(t) => Some(t.(writable := t.writable.(config := ConfigView(t.writable.config, key))))
  }

  lemma ConfigViewPut(c: Config, k: string, v: string, key: string)
    ensures ConfigView(c[k := v], key) == if InView(k, key) then ConfigView(c, key)[k := v] else ConfigView(c, key)
    ensures ConfigView(c - {k}, key) == ConfigView(c, key) - {k}
  {
  }

  lemma EditView(r: Option<Record>, t: Option<Record>, op: Operation, key: string)
    requires View(r, key) == View(t, key)
    ensures View(Edit(r, op), key) == View(Edit(t, op), key)
  {
    if r.Some? && !op.Replace? {
      hide ConfigView;
      var c, d := r.value.writable.config, t.value.writable.config;
      assert ConfigView(c, key) == View(r, key).value.writable.config;
      assert r.value.(writable := r.value.writable.(config := map[]))
          == t.value.(writable := t.value.writable.(config := map[])) by {
        assert r.value.(writable := r.value.writable.(config := map[]))
            == View(r, key).value.(writable := View(r, key).value.writable.(config := map[]));
        assert t.value.(writable := t.value.writable.(config := map[]))
            == View(t, key).value.(writable := View(t, key).value.writable.(config := map[]));
      }
      match op
      case PutConfig(k, v) => ConfigViewPut(c, k, v, key); ConfigViewPut(d, k, v, key);
      case DropConfig(k) => ConfigViewPut(c, k, "", key); ConfigViewPut(d, k, "", key);
      case Reshape(_, _, _) =>
      case Replace(_) =>
    }
  }

  lemma EditedView(call: Call, r: Record, key: string)
    requires HasPrefix(call.key, KEY_PREFIX) && call.key != key
    ensures View(Some(Edited(call, r)), key) == View(Some(r), key)
  {
    assert ConfigView(Edited(call, r).writable.config, key) == ConfigView(r.writable.config, key);
  }

  /** A step of an attempt shows in the view of no key but its own, and at no instance but its target. */
  lemma StepView(parse: UuidParser, tag: Tagger, w: World, e: Event, l: Location, key: string)
    requires TagContract(tag) && AllArmed(parse, tag, w) && Allowed(tag, w, e) && !e.Operator?
    requires e.Step? && e.committed ==> KeyOf(e.id) != key || At(Current(e.id, w.attempts[e.id])) != l
    ensures View(RecordAt(Apply(parse, tag, w, e).store, l), key) == View(RecordAt(w.store, l), key)
  {
    if e.Step? && e.committed {
      var call := Current(e.id, w.attempts[e.id]);
      CommitEdits(parse, tag, w, e);
      if At(call) == l {
        KeysAreDistinct(e.id, e.id);
        EditedView(call, w.store[l], key);
      }
    }
  }

  lemma OperatorView(w: World, e: Event, r: Option<Record>, l: Location, key: string)
    requires e.Operator? && View(RecordAt(w.store, l), key) == View(r, key)
    ensures View(RecordAt(Operate(w.store, e.at, e.op), l), key) == View(if e.at == l then Edit(r, e.op) else r, key)
  {
    if e.at == l {
      EditView(RecordAt(w.store, l), r, e.op, key);
    }
  }

  lemma AfterOne(r: Option<Record>, es: seq<Event>, l: Location)
    requires es != []
    ensures var e := es[|es| - 1];
      After(r, OpsAt(es, l)) == if e.Operator? && e.at == l then Edit(After(r, OpsAt(es[..|es| - 1], l)), e.op)
                                else After(r, OpsAt(es[..|es| - 1], l))
  {
    var e, before := es[|es| - 1], OpsAt(es[..|es| - 1], l);
    if e.Operator? && e.at == l {
      assert (before + [e.op])[..|before|] == before;
    }
  }

  /** Attempts never leave, and never change what they are for. */
  lemma AttemptsStay(parse: UuidParser, tag: Tagger, w: World, e: Event)
    requires Allowed(tag, w, e)
    ensures forall id :: id in w.attempts ==>
      var w' := Apply(parse, tag, w, e);
      id in w'.attempts && w'.attempts[id].target == w.attempts[id].target && w'.attempts[id].nonce
          == w.attempts[id].nonce
  {
  }

  /** No attempt of the world has this key on this instance. */
  ghost predicate Unclaimed(w: World, l: Location, key: string) {
    forall id :: id in w.attempts && KeyOf(id) == key ==> At(SetCall(id, w.attempts[id])) != l
  }

  /**
   * Over every run, whatever the attempts do and however their calls fail: outside the reserved
   * namespace, and under every key that no attempt uses there, each instance is exactly what the
   * operators' edits alone would have made of it.
   */
  lemma {:induction false} OperatorEditsIntact(parse: UuidParser, tag: Tagger, w0: World, es: seq<Event>, w: World,
                                               l: Location, key: string)
    requires TagContract(tag) && Initial(w0) && Reaches(parse, tag, w0, es, w) && Unclaimed(w, l, key)
    ensures View(RecordAt(w.store, l), key) == View(After(RecordAt(w0.store, l), OpsAt(es, l)), key)
    decreases |es|
  {
    if es != [] {
      hide View, Edit;
      var init, e := es[..|es| - 1], es[|es| - 1];
      var before := Run(parse, tag, w0, init).value;
      AttemptsStay(parse, tag, before, e);
      OperatorEditsIntact(parse, tag, w0, init, before, l, key);
      AfterOne(RecordAt(w0.store, l), es, l);
      if e.Operator? {
        OperatorView(before, e, After(RecordAt(w0.store, l), OpsAt(init, l)), l, key);
      } else {
        ArmedAlways(parse, tag, w0, init, before);
        StepView(parse, tag, before, e, l, key);
      }
    }
  }

  // ---------------------------------------------------------------- what nil means

  /**
   * The call achieved its purpose at instant n of the run; and since then every instance is, in the
   * view of the attempt's key, exactly what the operators' edits made of it.
   */
  ghost predicate SettledAt(parse: UuidParser, tag: Tagger, w0: World, es: seq<Event>, w: World,
                            id: AttemptID, call: Call, n: nat) {
    && n <= |es| && Run(parse, tag, w0, es[..n]).Some?
    && var m := Run(parse, tag, w0, es[..n]).value;
    && AchievedNow(parse, m, id, call)
    && forall l :: View(RecordAt(w.store, l), KeyOf(id))
                == View(After(RecordAt(m.store, l), OpsAt(es[n..], l)), KeyOf(id))
  }

  ghost predicate Settled(parse: UuidParser, tag: Tagger, w0: World, es: seq<Event>, w: World, id: AttemptID,
                          call: Call) {
    exists n: nat :: SettledAt(parse, tag, w0, es, w, id, call, n)
  }

  lemma SettledNow(parse: UuidParser, tag: Tagger, w0: World, es: seq<Event>, w: World, id: AttemptID, call: Call)
    requires Reaches(parse, tag, w0, es, w) && AchievedNow(parse, w, id, call)
    ensures Settled(parse, tag, w0, es, w, id, call)
  {
    assert es[..|es|] == es && es[|es|..] == [];
    assert SettledAt(parse, tag, w0, es, w, id, call, |es|);
  }

  /** One more event, not a commit of the attempt, keeps a call settled. */
  lemma SettledLater(parse: UuidParser, tag: Tagger, w0: World, es: seq<Event>, before: World, w: World,
                     id: AttemptID, call: Call)
    requires TagContract(tag) && es != [] && Reaches(parse, tag, w0, es[..|es| - 1], before)
    requires AllArmed(parse, tag, before) && Reaches(parse, tag, w0, es, w)
    requires !(es[|es| - 1].Step? && es[|es| - 1].committed && es[|es| - 1].id == id)
    requires Settled(parse, tag, w0, es[..|es| - 1], before, id, call)
    ensures Settled(parse, tag, w0, es, w, id, call)
  {
    var init, e := es[..|es| - 1], es[|es| - 1];
    assert w == Apply(parse, tag, before, e);
    hide View, Edit, AchievedNow, Run, Apply, Allowed;
    var n: nat :| SettledAt(parse, tag, w0, init, before, id, call, n);
    assert init[..n] == es[..n];
    var m := Run(parse, tag, w0, es[..n]).value;
    forall l ensures View(RecordAt(w.store, l), KeyOf(id))
                  == View(After(RecordAt(m.store, l), OpsAt(es[n..], l)), KeyOf(id)) {
      SettledEvent(parse, tag, before, e, m, init[n..], es[n..], l, id);
    }
    assert SettledAt(parse, tag, w0, es, w, id, call, n);
  }

  lemma SettledEvent(parse: UuidParser, tag: Tagger, before: World, e: Event, m: World, init: seq<Event>,
                     es: seq<Event>,
                     l: Location, id: AttemptID)
    requires TagContract(tag) && AllArmed(parse, tag, before) && Allowed(tag, before, e)
    requires !(e.Step? && e.committed && e.id == id) && es == init + [e]
    requires View(RecordAt(before.store, l), KeyOf(id)) == View(After(RecordAt(m.store, l), OpsAt(init, l)), KeyOf(id))
    ensures View(RecordAt(Apply(parse, tag, before, e).store, l), KeyOf(id))
         == View(After(RecordAt(m.store, l), OpsAt(es, l)), KeyOf(id))
  {
    hide View, Edit;
    assert es[..|es| - 1] == init;
    AfterOne(RecordAt(m.store, l), es, l);
    if e.Operator? {
      OperatorView(before, e, After(RecordAt(m.store, l), OpsAt(init, l)), l, KeyOf(id));
    } else {
      if e.Step? { KeysAreDistinct(e.id, id); }
      StepView(parse, tag, before, e, l, KeyOf(id));
    }
  }

  /** A call that is done is settled: no attempt writes its key after the instant that achieved its purpose. */
  lemma {:induction false} DoneIsSettled(parse: UuidParser, tag: Tagger, w0: World, es: seq<Event>,
                                         w: World, id: AttemptID)
    requires TagContract(tag) && Initial(w0) && Reaches(parse, tag, w0, es, w) && id in w.attempts
    ensures SetDone(w.attempts[id]) ==> Settled(parse, tag, w0, es, w, id, SetCall(id, w.attempts[id]))
    ensures UnsetDone(w.attempts[id]) ==> Settled(parse, tag, w0, es, w, id, UnsetCall(id, w.attempts[id]))
    decreases |es|
  {
    if es != [] {
      hide AllArmed, AchievedNow, Settled;
      var init, e := es[..|es| - 1], es[|es| - 1];
      var before := Run(parse, tag, w0, init).value;
      ArmedAlways(parse, tag, w0, init, before);
      DoneStep(parse, tag, before, e, id);
      if id in before.attempts {
        DoneIsSettled(parse, tag, w0, init, before, id);
      }
      var a := w.attempts[id];
      if SetDone(a) {
        DoneOrSettled(parse, tag, w0, es, before, w, id, SetCall(id, a));
      }
      if UnsetDone(a) {
        DoneOrSettled(parse, tag, w0, es, before, w, id, UnsetCall(id, a));
      }
    }
  }

  /** The two cases of one event: it is the achieving one, or the call was settled before it. */
  lemma DoneOrSettled(parse: UuidParser, tag: Tagger, w0: World, es: seq<Event>, before: World, w: World,
                      id: AttemptID, call: Call)
    requires TagContract(tag) && es != [] && Reaches(parse, tag, w0, es[..|es| - 1], before)
    requires AllArmed(parse, tag, before) && Reaches(parse, tag, w0, es, w)
    requires var e := es[|es| - 1];
      || AchievedNow(parse, w, id, call)
      || (!(e.Step? && e.committed && e.id == id)
          && (AchievedNow(parse, before, id, call) || Settled(parse, tag, w0, es[..|es| - 1], before, id, call)))
    ensures Settled(parse, tag, w0, es, w, id, call)
  {
    if AchievedNow(parse, w, id, call) {
      SettledNow(parse, tag, w0, es, w, id, call);
    } else {
      if AchievedNow(parse, before, id, call) {
        SettledNow(parse, tag, w0, es[..|es| - 1], before, id, call);
      }
      SettledLater(parse, tag, w0, es, before, w, id, call);
    }
  }

  /**
   * What nil means, over every run and with operators who do anything: when SetNonce has returned
   * nil, at some instant of that call the target held the nonce under the key; when UnsetNonce has
   * returned nil, at some instant of that call the instance was absent, was not the target, or
   * lacked the key.
   */
  lemma SuccessMeansAchieved(parse: UuidParser, tag: Tagger, w0: World, es: seq<Event>, w: World, id: AttemptID)
    requires TagContract(tag) && Initial(w0) && Reaches(parse, tag, w0, es, w) && id in w.attempts
    ensures SetDone(w.attempts[id]) ==> AchievedDuring(parse, tag, w0, es, id, SetCall(id, w.attempts[id]))
    ensures UnsetDone(w.attempts[id]) ==> AchievedDuring(parse, tag, w0, es, id, UnsetCall(id, w.attempts[id]))
  {
    hide AchievedNow;
    DoneIsSettled(parse, tag, w0, es, w, id);
  }

  /** The attempt began its cleanup at instant n. */
  ghost predicate CleanedFrom(parse: UuidParser, tag: Tagger, w0: World, es: seq<Event>, id: AttemptID,
                              setErr: Option<Fault>, n: nat) {
    && n <= |es| && Run(parse, tag, w0, es[..n]).Some?
    && var m := Run(parse, tag, w0, es[..n]).value;
    && id in m.attempts && m.attempts[id].stage == Cleaning(setErr, START)
  }

  /** No attempt ends without its cleanup having begun, whether its set succeeded or failed. */
  lemma {:induction false} EveryAttemptIsCleaned(parse: UuidParser, tag: Tagger, w0: World, es: seq<Event>, w: World,
                                                 id: AttemptID)
    requires Initial(w0) && Reaches(parse, tag, w0, es, w)
    requires id in w.attempts && (w.attempts[id].stage.Cleaning? || w.attempts[id].stage.Closed?)
    ensures exists n: nat :: CleanedFrom(parse, tag, w0, es, id, w.attempts[id].stage.setErr, n)
    decreases |es|
  {
    var stage := w.attempts[id].stage;
    if stage == Cleaning(stage.setErr, START) {
      assert es[..|es|] == es;
      assert CleanedFrom(parse, tag, w0, es, id, stage.setErr, |es|);
    } else {
      var init := es[..|es| - 1];
      var before := Run(parse, tag, w0, init).value;
      CleaningGoesOn(parse, tag, before, es[|es| - 1], id);
      EveryAttemptIsCleaned(parse, tag, w0, init, before, id);
      hide Run;
      var n: nat :| CleanedFrom(parse, tag, w0, init, id, stage.setErr, n);
      assert init[..n] == es[..n];
      assert CleanedFrom(parse, tag, w0, es, id, stage.setErr, n);
    }
  }

  lemma CleaningGoesOn(parse: UuidParser, tag: Tagger, w: World, e: Event, id: AttemptID)
    requires Allowed(tag, w, e) && id in Apply(parse, tag, w, e).attempts
    requires var stage := Apply(parse, tag, w, e).attempts[id].stage;
      (stage.Cleaning? || stage.Closed?) && stage != Cleaning(stage.setErr, START)
    ensures id in w.attempts && (w.attempts[id].stage.Cleaning? || w.attempts[id].stage.Closed?)
    ensures w.attempts[id].stage.setErr == Apply(parse, tag, w, e).attempts[id].stage.setErr
  {
  }
}
