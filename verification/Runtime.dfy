/**
 * Publication and retirement of server runtimes: concurrent Configure calls under one mutex, an
 * atomic pointer that attestations load, and the idle connections of every client ever connected.
 */
module Runtime {
  import opened Base
  import Service

  type Client = nat
  type Thread = nat

  /** What a Configure call finds when it gets the mutex. */
  datatype Snapshot = Snapshot(current: Option<Client>, closes: map<Client, nat>)

  /** A Configure call that holds or has released the mutex. */
  datatype Progress =
    | Locked(found: Snapshot)
    | Connected(found: Snapshot, client: Client)
    | Built(found: Snapshot, client: Client)
    | Swapped(found: Snapshot, client: Client, previous: Option<Client>)
    | Returned(found: Snapshot, ok: bool)

  /** closes counts the CloseIdleConnections calls of every client ever connected. */
  datatype State = State(mutex: Option<Thread>, current: Option<Client>, closes: map<Client, nat>,
                         configures: map<Thread, Progress>, attestations: map<Thread, Option<Client>>)

  datatype Event =
    | Lock(t: Thread)
    | Refuse(t: Thread)                     // bad request, or a build that fails before connecting
    | Connect(t: Thread, client: Client)
    | FailBuild(t: Thread)                  // a build that fails after connecting closes its own client
    | FinishBuild(t: Thread)
    | Swap(t: Thread)
    | Retire(t: Thread)
    | Load(a: Thread)                       // an attestation loads the pointer

  const INITIAL := State(None, None, map[], map[], map[])

  predicate Allowed(s: State, e: Event) {
    match e
    case Lock(t) => s.mutex == None && t !in s.configures
    case Refuse(t) => t in s.configures && s.configures[t].Locked?
    case Connect(t, c) => t in s.configures && s.configures[t].Locked? && c !in s.closes
    case FailBuild(t) => t in s.configures && s.configures[t].Connected? && s.configures[t].client in s.closes
    case FinishBuild(t) => t in s.configures && s.configures[t].Connected?
    case Swap(t) => t in s.configures && s.configures[t].Built?
    case Retire(t) =>
      t in s.configures && s.configures[t].Swapped?
      && (s.configures[t].previous.Some? ==> s.configures[t].previous.value in s.closes)
    case Load(a) => a !in s.attestations
  }

  function Close(closes: map<Client, nat>, c: Client): map<Client, nat>
    requires c in closes
  {
    closes[c := closes[c] + 1]
  }

  function Apply(s: State, e: Event): State
    requires Allowed(s, e)
  {
    match e
    case Lock(t) => s.(mutex := Some(t), configures := s.configures[t := Locked(Snapshot(s.current, s.closes))])
    case Refuse(t) => Leave(s, t, false)
    case Connect(t, c) =>
      s.(closes := s.closes[c := 0], configures := s.configures[t := Connected(s.configures[t].found, c)])
    case FailBuild(t) => Leave(s.(closes := Close(s.closes, s.configures[t].client)), t, false)
    case FinishBuild(t) =>
      s.(configures := s.configures[t := Built(s.configures[t].found, s.configures[t].client)])
    case Swap(t) =>
      var p := s.configures[t];
      s.(current := Some(p.client), configures := s.configures[t := Swapped(p.found, p.client, s.current)])
    case Retire(t) =>
      var last := s.configures[t].previous;
      Leave(if last.Some? then s.(closes := Close(s.closes, last.value)) else s, t, true)
    case Load(a) => s.(attestations := s.attestations[a := s.current])
  }

  function Leave(s: State, t: Thread, ok: bool): State
    requires t in s.configures
  {
    s.(mutex := None, configures := s.configures[t := Returned(s.configures[t].found, ok)])
  }

  function Run(s: State, es: seq<Event>): Option<State> {
    if es == [] then Some(s)
    else
      match Run(s, es[..|es| - 1])
      case None => None
      case Some(m) => if Allowed(m, es[|es| - 1]) then Some(Apply(m, es[|es| - 1])) else None
  }

  // ---------------------------------------------------------------- invariant

  predicate Active(p: Progress) { !p.Returned? }

  /** Every client is current and never closed, or not current and closed exactly once. */
  ghost predicate Conserved(current: Option<Client>, closes: map<Client, nat>) {
    && (current.Some? ==> current.value in closes)
    && (forall c :: c in closes ==> closes[c] == if current == Some(c) then 0 else 1)
  }

  /** What one active Configure has done so far to the state it found, which was conserved. */
  ghost predicate Consistent(s: State, p: Progress) {
    && Conserved(p.found.current, p.found.closes)
    && match p
       case Locked(f) => s.current == f.current && s.closes == f.closes
       case Connected(f, c) => s.current == f.current && c !in f.closes && s.closes == f.closes[c := 0]
       case Built(f, c) => s.current == f.current && c !in f.closes && s.closes == f.closes[c := 0]
       case Swapped(f, c, last) =>
         s.current == Some(c) && last == f.current && c !in f.closes && s.closes == f.closes[c := 0]
       case Returned(_, _) => true
  }

  ghost predicate Inv(s: State) {
    && (forall t :: t in s.configures && Active(s.configures[t]) ==> s.mutex == Some(t))
    && (forall t :: t in s.configures && Active(s.configures[t]) ==> Consistent(s, s.configures[t]))
    && (s.mutex.Some? ==> s.mutex.value in s.configures && Active(s.configures[s.mutex.value]))
    && (s.mutex.None? ==> Conserved(s.current, s.closes))
  }

  lemma InvStep(s: State, e: Event)
    requires Inv(s) && Allowed(s, e)
    ensures Inv(Apply(s, e))
  {
    if e.Retire? {
      var p := s.configures[e.t];
      assert Consistent(s, p);
      assert Conserved(Apply(s, e).current, Apply(s, e).closes);
    }
  }

  lemma {:induction false} InvAlong(s: State, es: seq<Event>, s': State)
    requires Inv(s) && Run(s, es) == Some(s')
    ensures Inv(s')
    decreases |es|
  {
    if es != [] {
      var before := Run(s, es[..|es| - 1]).value;
      InvAlong(s, es[..|es| - 1], before);
      InvStep(before, es[|es| - 1]);
    }
  }

  lemma InvAlways(es: seq<Event>, s: State)
    requires Run(INITIAL, es) == Some(s)
    ensures Inv(s)
  {
    InvAlong(INITIAL, es, s);
  }

  /** Builds never overlap: at most one Configure is between its lock and its return. */
  lemma BuildsNeverOverlap(es: seq<Event>, s: State, t: Thread, u: Thread)
    requires Run(INITIAL, es) == Some(s)
    requires t in s.configures && Active(s.configures[t]) && u in s.configures && Active(s.configures[u])
    ensures t == u
  {
    InvAlways(es, s);
  }

  /**
   * Conservation: over all interleavings, whenever no Configure is in progress every client ever
   * connected is the current one and was never closed, or was idle-closed exactly once.
   */
  lemma ClientsConserved(es: seq<Event>, s: State)
    requires Run(INITIAL, es) == Some(s)
    requires forall t :: t in s.configures ==> !Active(s.configures[t])
    ensures Conserved(s.current, s.closes)
  {
    InvAlways(es, s);
  }

  /** The state a Configure found: what the pointer and the counts were when it took the mutex. */
  ghost predicate FoundBy(s: State, t: Thread, found: Snapshot) {
    t in s.configures && s.configures[t].found == found
  }

  lemma FoundStep(s: State, e: Event, t: Thread, found: Snapshot)
    requires Allowed(s, e) && FoundBy(s, t, found)
    ensures FoundBy(Apply(s, e), t, found)
  {
  }

  lemma {:induction false} FoundAtLock(s: State, t: Thread, es: seq<Event>, s': State)
    requires Allowed(s, Lock(t)) && Run(Apply(s, Lock(t)), es) == Some(s')
    ensures FoundBy(s', t, Snapshot(s.current, s.closes))
    decreases |es|
  {
    if es != [] {
      var before := Run(Apply(s, Lock(t)), es[..|es| - 1]).value;
      FoundAtLock(s, t, es[..|es| - 1], before);
      hide Allowed, Apply;
      FoundStep(before, es[|es| - 1], t, Snapshot(s.current, s.closes));
    }
  }

  /**
   * A Configure that fails, whatever ran beside it since its lock, leaves the pointer and every
   * client as they were before the lock; at most it connected one new client, which it closed once.
   */
  lemma FailedConfigureChangesNothing(es0: seq<Event>, s: State, t: Thread, es: seq<Event>, m: State, e: Event)
    requires Run(INITIAL, es0) == Some(s) && Allowed(s, Lock(t))
    requires Run(Apply(s, Lock(t)), es) == Some(m) && Allowed(m, e)
    requires e == Refuse(t) || e == FailBuild(t)
    ensures var s' := Apply(m, e);
      && s'.current == s.current
      && (forall c :: c in s.closes ==> c in s'.closes && s'.closes[c] == s.closes[c])
      && (forall c :: c in s'.closes && c !in s.closes ==> e.FailBuild? && c == m.configures[t].client
                                                            && s'.closes[c] == 1)
  {
    InvAlways(es0, s);
    InvStep(s, Lock(t));
    InvAlong(Apply(s, Lock(t)), es, m);
    FoundAtLock(s, t, es, m);
    assert Consistent(m, m.configures[t]);
  }

  /** The current client is never closed, and nobody is closed twice, even in the middle of a Configure. */
  lemma CurrentIsLive(s: State)
    requires Inv(s)
    ensures s.current.Some? ==> s.current.value in s.closes && s.closes[s.current.value] == 0
    ensures forall c :: c in s.closes ==> s.closes[c] <= 1
  {
    if s.mutex.Some? {
      assert Consistent(s, s.configures[s.mutex.value]);
    }
  }

  lemma {:induction false} LoadedStays(s: State, a: Thread, es: seq<Event>, s': State)
    requires Allowed(s, Load(a)) && Run(Apply(s, Load(a)), es) == Some(s')
    ensures a in s'.attestations && s'.attestations[a] == s.current
    ensures forall c :: c in s.closes ==> c in s'.closes
    decreases |es|
  {
    if es != [] {
      LoadedStays(s, a, es[..|es| - 1], Run(Apply(s, Load(a)), es[..|es| - 1]).value);
    }
  }

  /**
   * An attestation works to its end with the one runtime that was current when it loaded the
   * pointer. At that moment its client had never been closed; later it is closed at most once, not
   * while it is current, and, when no Configure is in progress, exactly if it was superseded.
   */
  lemma AttestationKeepsItsRuntime(es0: seq<Event>, s: State, a: Thread, es: seq<Event>, s': State)
    requires Run(INITIAL, es0) == Some(s)
    requires Allowed(s, Load(a)) && Run(Apply(s, Load(a)), es) == Some(s')
    ensures a in s'.attestations && s'.attestations[a] == s.current
    ensures s.current.Some? ==>
      var c := s.current.value;
      && c in s.closes && s.closes[c] == 0
      && c in s'.closes && s'.closes[c] <= 1
      && (s'.current == Some(c) ==> s'.closes[c] == 0)
      && (s'.mutex.None? ==> (s'.closes[c] == 1 <==> s'.current != Some(c)))
  {
    InvAlways(es0, s);
    InvStep(s, Load(a));
    InvAlong(Apply(s, Load(a)), es, s');
    LoadedStays(s, a, es, s');
    CurrentIsLive(s);
    CurrentIsLive(s');
  }

  // ---------------------------------------------------------------- Configure as it is programmed

  /** What decoding, validating and building come to; a client, where there is one, is new. */
  datatype Build = Refused | Failed(client: Client) | Complete(client: Client)

  /** The steps of one Configure that is not interrupted by another, which the mutex excludes. */
  function StepsOf(t: Thread, b: Build): seq<Event> {
    match b
    case Refused => [Lock(t), Refuse(t)]
    case Failed(c) => [Lock(t), Connect(t, c), FailBuild(t)]
    case Complete(c) => [Lock(t), Connect(t, c), FinishBuild(t), Swap(t), Retire(t)]
  }

  /** What one Configure makes of an idle plugin. */
  ghost predicate Configured(b: Build, was: Option<Client>, before: map<Client, nat>,
                             current: Option<Client>, closes: map<Client, nat>) {
    && Conserved(current, closes)
    && current == (if b.Complete? then Some(b.client) else was)
    && closes.Keys == before.Keys + (if b.Refused? then {} else {b.client})
    && forall c :: c in before ==> closes[c] == before[c] + if b.Complete? && was == Some(c) then 1 else 0
  }

  class ServerPlugin {
    var runtime: Option<Client>
    var closes: map<Client, nat>

    constructor ()
      ensures runtime == None && closes == map[]
    {
      runtime, closes := None, map[];
    }

    method CloseIdle(c: Client)
      requires c in closes
      modifies this`closes
      ensures closes == Close(old(closes), c)
    {
      closes := closes[c := closes[c] + 1];
    }

    /** Configure between taking and releasing the mutex. */
    method Configure(b: Build) returns (ok: bool)
      requires !b.Refused? ==> b.client !in closes
      requires Conserved(runtime, closes)
      modifies this
      ensures Configured(b, old(runtime), old(closes), runtime, closes) && ok == b.Complete?
    {
      if b.Refused? {
        return false;
      }
      closes := closes[b.client := 0];
      if b.Failed? {
        CloseIdle(b.client);
        return false;
      }
      var previous := runtime;
      runtime := Some(b.client);
      if previous.Some? {
        CloseIdle(previous.value);
      }
      return true;
    }
  }

  lemma FailedSteps(s: State, t: Thread, c: Client)
    requires s.mutex.None? && t !in s.configures && c !in s.closes
    ensures var end := Run(s, StepsOf(t, Failed(c)));
      && end.Some? && end.value.mutex.None?
      && end.value.current == s.current && end.value.closes == s.closes[c := 1]
  {
    hide Run;
    RunOne(s, Lock(t));
    RunThen(s, [Lock(t)], Connect(t, c));
    RunThen(s, [Lock(t)] + [Connect(t, c)], FailBuild(t));
    assert StepsOf(t, Failed(c)) == [Lock(t)] + [Connect(t, c)] + [FailBuild(t)];
    assert s.closes[c := 0][c := 1] == s.closes[c := 1];
  }

  lemma CompleteSteps(s: State, t: Thread, c: Client)
    requires s.mutex.None? && t !in s.configures && c !in s.closes
    requires s.current.Some? ==> s.current.value in s.closes
    ensures var end := Run(s, StepsOf(t, Complete(c)));
      && end.Some? && end.value.mutex.None? && end.value.current == Some(c)
      && end.value.closes == if s.current.Some? then Close(s.closes[c := 0], s.current.value) else s.closes[c := 0]
  {
    hide Run;
    RunOne(s, Lock(t));
    RunThen(s, [Lock(t)], Connect(t, c));
    RunThen(s, [Lock(t)] + [Connect(t, c)], FinishBuild(t));
    RunThen(s, [Lock(t)] + [Connect(t, c)] + [FinishBuild(t)], Swap(t));
    RunThen(s, [Lock(t)] + [Connect(t, c)] + [FinishBuild(t)] + [Swap(t)], Retire(t));
    assert StepsOf(t, Complete(c)) == [Lock(t)] + [Connect(t, c)] + [FinishBuild(t)] + [Swap(t)] + [Retire(t)];
  }

  lemma RefusedSteps(s: State, t: Thread)
    requires s.mutex.None? && t !in s.configures
    ensures var end := Run(s, StepsOf(t, Refused));
      end.Some? && end.value.mutex.None? && end.value.current == s.current && end.value.closes == s.closes
  {
    hide Run;
    RunOne(s, Lock(t));
    RunThen(s, [Lock(t)], Refuse(t));
    assert StepsOf(t, Refused) == [Lock(t)] + [Refuse(t)];
  }

  /** The steps of one Configure take any idle state to the state its method leaves behind. */
  lemma ConfigureRefines(s: State, t: Thread, b: Build)
    requires Inv(s) && s.mutex.None? && t !in s.configures && (!b.Refused? ==> b.client !in s.closes)
    ensures Run(s, StepsOf(t, b)).Some?
    ensures var s' := Run(s, StepsOf(t, b)).value;
      s'.mutex.None? && Configured(b, s.current, s.closes, s'.current, s'.closes)
  {
    hide Run, StepsOf;
    match b
    case Refused => RefusedSteps(s, t);
    case Failed(c) => FailedSteps(s, t, c);
    case Complete(c) => CompleteSteps(s, t, c);
  }

  lemma RunOne(s: State, e: Event)
    requires Allowed(s, e)
    ensures Run(s, [e]) == Some(Apply(s, e))
  {
    assert [e][..0] == [];
  }

  lemma RunThen(s: State, es: seq<Event>, e: Event)
    requires Run(s, es).Some? && Allowed(Run(s, es).value, e)
    ensures Run(s, es + [e]) == Some(Apply(Run(s, es).value, e))
  {
    assert (es + [e])[..|es|] == es;
  }

  // ---------------------------------------------------------------- status codes

  datatype Code = CanceledCode | DeadlineExceeded | InvalidArgument | PermissionDenied | Unknown

  /** mapRPCError on a non-nil error. */
  function RpcCode(e: Error): Code {
    if Canceled in e.classes then CanceledCode
    else if Deadline in e.classes then DeadlineExceeded
    else if BadConfig in e.classes || Invalid in e.classes || Unsupported in e.classes then InvalidArgument
    else if Denied in e.classes then PermissionDenied
    else Unknown
  }

  /** The status of a failed step is the same whatever the cleanup returned, even a cancellation. */
  lemma CleanupNeverChangesTheCode(s: Service.Script, p: Service.Steps, unset: Option<Error>)
    requires Service.Arms(p)
    requires Service.Exchanged(s, p, p.instance.value, p.secret.value).err.Some?
    ensures var r := Service.RunOf(s.(unsetErr := unset), p);
            var failed := Service.Exchanged(s, p, p.instance.value, p.secret.value);
      r.err.Some? && RpcCode(r.err.value) == RpcCode(failed.err.value)
  {
    Service.FailedStepKeepsItsClass(s, p, unset);
  }

  /** The status of an error, class by class: its context first, then a bad request, then a denial. */
  lemma CodeExactly(e: Error)
    ensures var (context, bad) := (Canceled in e.classes || Deadline in e.classes,
                                   BadConfig in e.classes || Invalid in e.classes || Unsupported in e.classes);
      && (RpcCode(e).CanceledCode? <==> Canceled in e.classes)
      && (RpcCode(e).DeadlineExceeded? <==> Deadline in e.classes && Canceled !in e.classes)
      && (RpcCode(e).InvalidArgument? <==> bad && !context)
      && (RpcCode(e).PermissionDenied? <==> Denied in e.classes && !bad && !context)
      && (RpcCode(e).Unknown? <==> Denied !in e.classes && !bad && !context)
  {
  }
}
