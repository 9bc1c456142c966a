/**
 * The ETag-guarded one-key mutation: one call as an automaton over the replies it gets, and the
 * retry loop that follows the automaton against a remote store that others edit at the same time.
 */
module Mutation {
  import opened Base
  import opened Attest
  import opened Incus
  import opened Backoff

  // ---------------------------------------------------------------- one call as an automaton

  /** SetNonce stores nonce under key; UnsetNonce, with no nonce, removes the key. */
  datatype Call = Call(target: Instance, key: string, nonce: Option<string>)

  function At(call: Call): Location { Location(call.target.project, call.target.name) }

  datatype GetReply = GetFault(fault: Fault) | GetRecord(current: Option<Record>, etag: string)
  datatype PutReply = PutFault(fault: Fault) | PutNoOperation | PutStarted

  /** One reply: to a GET, to a PUT, to the wait for the operation, or to a backoff wait. */
  datatype Reply =
    | Got(get: GetReply)
    | Put(put: PutReply)
    | Waited(outcome: Option<Fault>)
    | Slept(expired: Option<Fault>)

  /** Where a call stands; delay is the next backoff wait. */
  datatype Phase =
    | AtGet(delay: nat)
    | AtPut(delay: nat, base: Record, etag: string)
    | AtWait(delay: nat)
    | AtSleep(delay: nat)
    | Done(err: Option<Fault>)

  const START := AtGet(INITIAL_DELAY)

  predicate Fits(p: Phase, r: Reply) {
    match p
    case AtGet(_) => r.Got?
    case AtPut(_, _, _) => r.Put?
    case AtWait(_) => r.Waited?
    case AtSleep(_) => r.Slept?
    case Done(_) => false
  }

  /** The record with exactly the key of the call set or removed. */
  function Edited(call: Call, r: Record): Record {
    var config := r.writable.config;
    var config' := if call.nonce.Some? then config[call.key := call.nonce.value] else config - {call.key};
    r.(writable := r.writable.(config := config'))
  }

  /** mutate's verdict on the outcome of one attempt. */
  function AfterOnce(outcome: Option<Fault>, delay: nat): Phase {
    match outcome
    case None => Done(None)
    case Some(f) => if f.replaced || !IsRetryable(f) then Done(Some(f)) else AtSleep(delay)
  }

  function AfterGet(parse: UuidParser, call: Call, delay: nat, get: GetReply): Phase {
    match get
    case GetFault(f) =>
      if call.nonce.None? && f.status == Some(404) then Done(None) else AfterOnce(Some(f), delay)
    case GetRecord(current, etag) =>
      if !IsTarget(parse, call.target, current) then
        AfterOnce(if call.nonce.None? then None else Some(REPLACED), delay)
      else if call.nonce.None? && call.key !in current.value.writable.config then Done(None)
      else AtPut(delay, current.value, etag)
  }

  function Next(parse: UuidParser, call: Call, p: Phase, r: Reply): Phase
    requires Fits(p, r)
  {
    match p
    case AtGet(delay) => AfterGet(parse, call, delay, r.get)
    case AtPut(delay, _, _) =>
      (match r.put
       case PutFault(f) => AfterOnce(Some(f), delay)
       case PutNoOperation => AfterOnce(Some(PLAIN_FAULT), delay)
       case PutStarted => AtWait(delay))
    case AtWait(delay) => AfterOnce(r.outcome, delay)
    case AtSleep(delay) => if r.expired.Some? then Done(r.expired) else AtGet(NextDelay(delay))
  }

  // ---------------------------------------------------------------- the store contract

  /** A GET reply tells the truth about the instant it is given; a fault other than 404 tells nothing. */
  predicate Truthful(tag: Tagger, s: Store, at: Location, g: GetReply) {
    match g
    case GetFault(f) => f.status == Some(404) ==> at !in s
    case GetRecord(current, etag) => at in s && current == Some(s[at]) && etag == tag(s[at])
  }

  /** One reply, the store at the instant it was given, and whether a PUT was committed with it. */
  datatype Exchange = Exchange(store: Store, reply: Reply, committed: bool)

  /**
   * What the server may answer: the truth to a GET; a commit to a PUT only under its If-Match
   * condition, and always if it reports an operation; a fault after a commit or without one. A wait
   * that is cut short returns the context's error.
   */
  predicate Lawful(tag: Tagger, call: Call, p: Phase, x: Exchange) {
    && Fits(p, x.reply)
    && (x.reply.Got? ==> Truthful(tag, x.store, At(call), x.reply.get))
    && (x.committed ==> x.reply.Put? && Matches(tag, x.store, At(call), p.etag))
    && (x.reply.Put? && !x.committed ==> x.reply.put.PutFault?)
    && (x.reply.Slept? && x.reply.expired.Some? ==> x.reply.expired.value.canceled || x.reply.expired.value.deadline)
  }

  /** An accepted PUT of the edited base replaces the writable part of the current record. */
  function Commit(call: Call, s: Store, base: Record): Store
    requires At(call) in s
  {
    s[At(call) := s[At(call)].(writable := Edited(call, base).writable)]
  }

  /** The phase that the exchanges, one after the other, lead to from p; None if one of them is not lawful. */
  function PhaseAfter(parse: UuidParser, tag: Tagger, call: Call, p: Phase, log: seq<Exchange>): Option<Phase> {
    if log == [] then Some(p)
    else
      match PhaseAfter(parse, tag, call, p, log[..|log| - 1])
      case None => None
      case Some(m) =>
        if Lawful(tag, call, m, log[|log| - 1]) then Some(Next(parse, call, m, log[|log| - 1].reply)) else None
  }

  predicate Follows(parse: UuidParser, tag: Tagger, call: Call, p: Phase, log: seq<Exchange>, q: Phase) {
    PhaseAfter(parse, tag, call, p, log) == Some(q)
  }

  // ---------------------------------------------------------------- what a call is for

  /** The target holds the nonce under the key. */
  predicate Holds(parse: UuidParser, call: Call, s: Store) {
    && At(call) in s && IsTarget(parse, call.target, Some(s[At(call)]))
    && call.key in s[At(call)].writable.config
    && call.nonce == Some(s[At(call)].writable.config[call.key])
  }

  /** The instance is absent, is no longer the target, or lacks the key. */
  predicate Gone(parse: UuidParser, call: Call, s: Store) {
    At(call) !in s || !IsTarget(parse, call.target, Some(s[At(call)]))
    || call.key !in s[At(call)].writable.config
  }

  predicate Achieved(parse: UuidParser, call: Call, s: Store) {
    if call.nonce.Some? then Holds(parse, call, s) else Gone(parse, call, s)
  }

  /** The write sets the key, or removes it where it is, on a record that is the target, and nothing else anywhere. */
  predicate OneKeyEdit(parse: UuidParser, call: Call, before: Store, after: Store) {
    && At(call) in before
    && IsTarget(parse, call.target, Some(before[At(call)]))
    && (call.nonce.None? ==> call.key in before[At(call)].writable.config)
    && after == before[At(call) := Edited(call, before[At(call)])]
  }

  /** A one-key edit spelled out: every other key, every other field and every other record is kept. */
  lemma OneKeyEditKeepsTheRest(parse: UuidParser, call: Call, before: Store, after: Store)
    requires OneKeyEdit(parse, call, before, after) && call.key != UUID_KEY
    ensures after.Keys == before.Keys
    ensures forall l :: l in before && l != At(call) ==> after[l] == before[l]
    ensures var r, r' := before[At(call)], after[At(call)];
      && r'.(writable := r.writable) == r
      && r'.writable.profiles == r.writable.profiles && r'.writable.other == r.writable.other
      && (forall k :: k != call.key ==>
            (k in r'.writable.config <==> k in r.writable.config)
            && (k in r.writable.config ==> r'.writable.config[k] == r.writable.config[k]))
      && Achieved(parse, call, after) && IsTarget(parse, call.target, Some(r'))
      && r.name == call.target.name && r.kind == VIRTUAL_MACHINE
      && parse(ConfigValue(Expanded(r), UUID_KEY)) == Some(call.target.uuid)
  {
    var r, r' := before[At(call)], after[At(call)];
    assert ConfigValue(Expanded(r'), UUID_KEY) == ConfigValue(Expanded(r), UUID_KEY);
  }

  // ---------------------------------------------------------------- the server as an object

  datatype Write = Write(before: Store, after: Store)

  /** A record fetched earlier that still carries the tag is the current record. */
  lemma GuardedPut(parse: UuidParser, tag: Tagger, call: Call, s: Store, base: Record, etag: string)
    requires TagContract(tag) && etag == tag(base) && IsTarget(parse, call.target, Some(base))
    requires call.nonce.None? ==> call.key in base.writable.config
    requires Matches(tag, s, At(call), etag)
    ensures s[At(call)] == base
    ensures OneKeyEdit(parse, call, s, Commit(call, s, base))
  {
  }

  /**
   * The Incus server during one call, together with everyone else who edits it. Every method may
   * first let others change the store in any way and let time pass. Trusted contract: an accepted
   * PUT commits at once and replaces only the writable part; a fault reply may follow a commit, and
   * a PUT that reports an operation has committed.
   */
  class Remote {
    const tag: Tagger
    const clock: Clock
    var store: Store
    ghost var history: seq<Store>   // every state of the store so far, the current one last
    ghost var writes: seq<Write>    // the commits of this client

    ghost predicate Valid() reads this {
      history != [] && history[|history| - 1] == store
    }

    ghost function SoFar(): (past: Past)
      reads this
      ensures past == Past(history, writes)
    {
      Past(history, writes)
    }

    lemma LastIsNow()
      requires Valid()
      ensures history != [] && history[|history| - 1] == store
    {
    }

    constructor (tag: Tagger, clock: Clock, store: Store)
      ensures Valid() && this.tag == tag && this.clock == clock && history == [store] && writes == []
    {
      this.tag, this.clock, this.store, this.history, this.writes := tag, clock, store, [store], [];
    }

    method Interference()
      requires Valid()
      modifies this, clock`now
      ensures Valid() && old(history) <= history && writes == old(writes)
      ensures clock.now >= old(clock.now)
    {
      clock.Pass();
      var later: seq<Store> := *;
      history := history + later;
      if later != [] {
        store := later[|later| - 1];
      }
    }

    method GetInstance(at: Location) returns (reply: GetReply)
      requires Valid()
      modifies this, clock`now
      ensures Valid() && old(history) <= history && writes == old(writes)
      ensures clock.now >= old(clock.now)
      ensures Truthful(tag, store, at, reply)
    {
      Interference();
      reply := *;
      if !Truthful(tag, store, at, reply) {
        reply := if at in store then GetRecord(Some(store[at]), tag(store[at])) else GetFault(PLAIN_FAULT);
      }
    }

    method UpdateInstance(at: Location, w: Writable, etag: string) returns (reply: PutReply)
      requires Valid()
      modifies this, clock`now
      ensures Valid() && old(history) <= history
      ensures clock.now >= old(clock.now)
      ensures writes == old(writes) || (
        && |writes| == |old(writes)| + 1 && old(writes) < writes
        && var last := writes[|old(writes)|];
        && last.before in history[|old(history)| - 1..]
        && Matches(tag, last.before, at, etag)
        && last.after == store == last.before[at := last.before[at].(writable := w)])
      ensures !reply.PutFault? ==> writes != old(writes)
    {
      Interference();
      var reached: bool := *;
      if reached && Matches(tag, store, at, etag) {
        ghost var before := store;
        store := store[at := store[at].(writable := w)];
        assert history[|old(history)| - 1..][|history| - |old(history)|] == before;
        ghost var h := history;
        history := history + [store];
        assert history[|old(history)| - 1..][|h| - |old(history)|] == before;
        writes := writes + [Write(before, store)];
        reply := *;
      } else {
        var fault: Fault := *;
        reply := PutFault(fault);
      }
    }

    method WaitOperation() returns (outcome: Option<Fault>)
      requires Valid()
      modifies this, clock`now
      ensures Valid() && old(history) <= history && writes == old(writes)
      ensures clock.now >= old(clock.now)
    {
      Interference();
      outcome := *;
    }

    method Sleep(delay: nat) returns (expired: Option<Fault>)
      requires Valid()
      modifies this, clock`now, clock`waits
      ensures Valid() && old(history) <= history && writes == old(writes)
      ensures clock.now >= old(clock.now)
      ensures expired.None? ==> old(clock.now) < clock.deadline && clock.now >= old(clock.now) + delay
      ensures expired.Some? ==> expired.value.canceled || expired.value.deadline
      ensures clock.waits == old(clock.waits) + [delay]
    {
      var later: seq<Store> := *;
      history := history + later;
      if later != [] {
        store := later[|later| - 1];
      }
      var completed := clock.Wait(delay);
      var canceled: bool := *;
      expired := if completed then None else Some(EXPIRED.(canceled := canceled, deadline := !canceled));
    }
  }

  // ---------------------------------------------------------------- the loop

  /** The store states of the call so far include one in which its purpose was achieved. */
  ghost predicate AchievedSince(parse: UuidParser, call: Call, history: seq<Store>, start: nat) {
    exists i :: start <= i < |history| && Achieved(parse, call, history[i])
  }

  ghost predicate OnlyKeyEdits(parse: UuidParser, call: Call, writes: seq<Write>, start: nat) {
    forall i :: start <= i < |writes| ==> OneKeyEdit(parse, call, writes[i].before, writes[i].after)
  }

  lemma EditsNothing(parse: UuidParser, call: Call, writes: seq<Write>)
    ensures OnlyKeyEdits(parse, call, writes, |writes|)
  {
  }

  lemma EditsAppend(parse: UuidParser, call: Call, start: nat, a: seq<Write>, b: seq<Write>)
    requires a <= b && OnlyKeyEdits(parse, call, a, start) && OnlyKeyEdits(parse, call, b, |a|)
    ensures OnlyKeyEdits(parse, call, b, start)
  {
    hide OneKeyEdit;
    forall i | start <= i < |a| ensures b[i] == a[i] {}
  }

  lemma AchievedEarlier(parse: UuidParser, call: Call, history: seq<Store>, start: nat, earlier: nat)
    requires earlier <= start && AchievedSince(parse, call, history, start)
    ensures AchievedSince(parse, call, history, earlier)
  {
  }

  /** The stores to which the commits of a log were made. */
  function Commits(log: seq<Exchange>): seq<Store> {
    if log == [] then []
    else
      var last := log[|log| - 1];
      Commits(log[..|log| - 1]) + (if last.committed then [last.store] else [])
  }

  /** Every state of the store and every commit of this client, up to some instant. */
  datatype Past = Past(states: seq<Store>, writes: seq<Write>)

  /** Between two instants: the log tells of the commits, no more and no less, and only of states the store was in. */
  ghost predicate Logged(was: Past, now: Past, log: seq<Exchange>) {
    && was.states != [] && was.states <= now.states && was.writes <= now.writes
    && |now.writes| == |was.writes| + |Commits(log)|
    && (forall i :: 0 <= i < |Commits(log)| ==> now.writes[|was.writes| + i].before == Commits(log)[i])
    && (forall k :: 0 <= k < |log| ==> log[k].store in now.states[|was.states| - 1..])
  }

  lemma LoggedReply(was: Past, now: Past, x: Exchange)
    requires was.states != [] && was.states <= now.states && was.writes == now.writes
    requires !x.committed && x.store == now.states[|now.states| - 1]
    ensures Logged(was, now, [x])
  {
    assert [x][..0] == [];
    assert now.states[|was.states| - 1..][|now.states| - |was.states|] == x.store;
  }

  lemma LoggedCommit(was: Past, now: Past, x: Exchange)
    requires was.states != [] && was.states <= now.states && was.writes < now.writes
    requires |now.writes| == |was.writes| + 1 && x.committed && x.store == now.writes[|was.writes|].before
    requires x.store in now.states[|was.states| - 1..]
    ensures Logged(was, now, [x])
  {
    assert [x][..0] == [];
    assert Commits([x]) == [x.store];
  }

  lemma {:induction false} CommitsAppend(a: seq<Exchange>, b: seq<Exchange>)
    ensures Commits(a + b) == Commits(a) + Commits(b)
  {
    if b == [] {
      assert a + b == a;
    } else {
      CommitsAppend(a, b[..|b| - 1]);
      assert (a + b)[..|a + b| - 1] == a + b[..|b| - 1];
    }
  }

  lemma Earlier(a: seq<Store>, b: seq<Store>, n: nat, s: Store)
    requires a <= b && n <= |a| && s in a[n..]
    ensures s in b[n..]
  {
    var i :| 0 <= i < |a[n..]| && a[n..][i] == s;
    assert b[n..][i] == s;
  }

  lemma Later(a: seq<Store>, m: nat, n: nat, s: Store)
    requires n <= m <= |a| && s in a[m..]
    ensures s in a[n..]
  {
    var i :| 0 <= i < |a[m..]| && a[m..][i] == s;
    assert a[n..][i + m - n] == s;
  }

  lemma LoggedAppend(was: Past, mid: Past, now: Past, a: seq<Exchange>, b: seq<Exchange>)
    requires Logged(was, mid, a) && Logged(mid, now, b)
    ensures Logged(was, now, a + b)
  {
    CommitsAppend(a, b);
    forall k | 0 <= k < |a + b| ensures (a + b)[k].store in now.states[|was.states| - 1..] {
      if k < |a| {
        Earlier(mid.states, now.states, |was.states| - 1, a[k].store);
      } else {
        Later(now.states, |mid.states| - 1, |was.states| - 1, b[k - |a|].store);
      }
    }
  }

  /** The PUT of the edited base under its own tag: a commit achieves the purpose of the call. */
  method GuardedUpdate(parse: UuidParser, remote: Remote, call: Call, current: Record, etag: string)
    returns (put: PutReply, ghost x: Exchange)
    requires remote.Valid() && TagContract(remote.tag) && IsConfigKey(call.key)
    requires etag == remote.tag(current) && IsTarget(parse, call.target, Some(current))
    requires call.nonce.None? ==> call.key in current.writable.config
    modifies remote, remote.clock`now, remote.clock`waits
    ensures remote.Valid() && old(remote.history) <= remote.history && old(remote.writes) <= remote.writes
    ensures remote.clock.now >= old(remote.clock.now) && remote.clock.waits == old(remote.clock.waits)
    ensures OnlyKeyEdits(parse, call, remote.writes, |old(remote.writes)|)
    ensures forall delay :: Lawful(remote.tag, call, AtPut(delay, current, etag), x)
    ensures x.reply == Put(put) && Logged(old(remote.SoFar()), remote.SoFar(), [x])
    ensures !put.PutFault? ==> Achieved(parse, call, remote.store)
  {
    hide *;
    KeyIsNotUUID(call.key);
    remote.LastIsNow();
    var config := current.writable.config;
    if call.nonce.None? {
      config := config - {call.key};
    } else {
      config := config[call.key := call.nonce.value];
    }
    EditedWritable(call, current);
    ghost var was := remote.SoFar();
    put := remote.UpdateInstance(At(call), current.writable.(config := config), etag);
    remote.LastIsNow();
    x := Exchange(remote.store, Put(put), false);
    EditsNothing(parse, call, was.writes);
    if remote.writes != was.writes {
      ghost var last := remote.writes[|was.writes|];
      x := Exchange(last.before, Put(put), true);
      LoggedCommit(was, remote.SoFar(), x);
      MatchingPut(parse, remote.tag, call, last, current, etag);
      EditsOne(parse, call, was.writes, remote.writes);
    } else {
      LoggedReply(was, remote.SoFar(), x);
    }
    PutIsLawful(remote.tag, call, current, etag, x);
  }

  lemma EditedWritable(call: Call, r: Record)
    ensures Edited(call, r).writable == r.writable.(config :=
              if call.nonce.None? then r.writable.config - {call.key}
              else r.writable.config[call.key := call.nonce.value])
  {
  }

  /** A commit under the tag of a revalidated record is a one-key edit that achieves the purpose of the call. */
  lemma MatchingPut(parse: UuidParser, tag: Tagger, call: Call, w: Write, current: Record, etag: string)
    requires TagContract(tag) && etag == tag(current) && IsTarget(parse, call.target, Some(current))
    requires call.nonce.None? ==> call.key in current.writable.config
    requires call.key != UUID_KEY && Matches(tag, w.before, At(call), etag)
    requires w.after == w.before[At(call) := w.before[At(call)].(writable := Edited(call, current).writable)]
    ensures OneKeyEdit(parse, call, w.before, w.after) && Achieved(parse, call, w.after)
  {
    hide IsTarget;
    GuardedPut(parse, tag, call, w.before, current, etag);
    OneKeyEditKeepsTheRest(parse, call, w.before, w.after);
  }

  lemma EditsOne(parse: UuidParser, call: Call, was: seq<Write>, now: seq<Write>)
    requires was <= now && |now| == |was| + 1
    requires OneKeyEdit(parse, call, now[|was|].before, now[|was|].after)
    ensures OnlyKeyEdits(parse, call, now, |was|)
  {
    hide OneKeyEdit;
  }

  lemma PutIsLawful(tag: Tagger, call: Call, current: Record, etag: string, x: Exchange)
    requires x.reply.Put? && (x.committed ==> Matches(tag, x.store, At(call), etag))
    requires !x.committed ==> x.reply.put.PutFault?
    ensures forall delay :: Lawful(tag, call, AtPut(delay, current, etag), x)
  {
    hide Matches;
  }

  /** The rest of mutateOnce once the target was fetched: the PUT and the wait for its operation. */
  method PutAndWait(parse: UuidParser, remote: Remote, call: Call, current: Record, etag: string, ghost delay: nat)
    returns (outcome: Option<Fault>, ghost log: seq<Exchange>)
    requires remote.Valid() && TagContract(remote.tag) && IsConfigKey(call.key)
    requires etag == remote.tag(current) && IsTarget(parse, call.target, Some(current))
    requires call.nonce.None? ==> call.key in current.writable.config
    modifies remote, remote.clock`now, remote.clock`waits
    ensures remote.Valid() && old(remote.history) <= remote.history && old(remote.writes) <= remote.writes
    ensures Logged(old(remote.SoFar()), remote.SoFar(), log)
    ensures remote.clock.now >= old(remote.clock.now) && remote.clock.waits == old(remote.clock.waits)
    ensures Follows(parse, remote.tag, call, AtPut(delay, current, etag), log, AfterOnce(outcome, delay))
    ensures Sleeps(log) == 0
    ensures OnlyKeyEdits(parse, call, remote.writes, |old(remote.writes)|)
    ensures outcome.None? ==> AchievedSince(parse, call, remote.history, |old(remote.history)| - 1)
  {
    hide Logged, Follows, Sleeps, OneKeyEdit, IsTarget, Lawful, IsConfigKey, TagContract, Achieved, IsRetryable,
         OnlyKeyEdits;
    ghost var from := AtPut(delay, current, etag);
    var put, x := GuardedUpdate(parse, remote, call, current, etag);
    ghost var written := |remote.history| - 1;
    log := [x];
    FollowsOne(parse, remote.tag, call, from, x);
    SleepsOne(x);
    if put.PutFault? {
      return Some(put.fault), log;
    }
    if put.PutNoOperation? {
      return Some(PLAIN_FAULT), log;
    }
    ghost var mid := remote.SoFar();
    outcome := remote.WaitOperation();
    assert Achieved(parse, call, remote.history[written]);
    x := Exchange(remote.store, Waited(outcome), false);
    SleepsOne(x);
    SleepsAppend(log, [x]);
    WaitIsLawful(remote.tag, call, delay, x);
    FollowsThen(parse, remote.tag, call, from, log, AtWait(delay), x);
    LoggedReply(mid, remote.SoFar(), x);
    LoggedAppend(old(remote.SoFar()), mid, remote.SoFar(), log, [x]);
    log := log + [x];
  }

  /** mutateOnce: refetch, revalidate, and apply one exact-key change. */
  method MutateOnce(parse: UuidParser, remote: Remote, call: Call, ghost delay: nat)
    returns (outcome: Option<Fault>, ghost log: seq<Exchange>)
    requires remote.Valid() && TagContract(remote.tag) && IsConfigKey(call.key)
    modifies remote, remote.clock`now, remote.clock`waits
    ensures remote.Valid() && old(remote.history) <= remote.history && old(remote.writes) <= remote.writes
    ensures Logged(old(remote.SoFar()), remote.SoFar(), log)
    ensures remote.clock.now >= old(remote.clock.now) && remote.clock.waits == old(remote.clock.waits)
    ensures Follows(parse, remote.tag, call, AtGet(delay), log, AfterOnce(outcome, delay))
    ensures Sleeps(log) == 0
    ensures OnlyKeyEdits(parse, call, remote.writes, |old(remote.writes)|)
    ensures outcome.None? ==> AchievedSince(parse, call, remote.history, |old(remote.history)| - 1)
  {
    hide Logged, Follows, Sleeps;
    ghost var from := AtGet(delay);
    var get := remote.GetInstance(At(call));
    ghost var seen := |remote.history| - 1;
    ghost var x := Exchange(remote.store, Got(get), false);
    log := [x];
    FollowsOne(parse, remote.tag, call, from, x);
    SleepsOne(x);
    LoggedReply(old(remote.SoFar()), remote.SoFar(), x);
    if get.GetFault? {
      if call.nonce.None? && get.fault.status == Some(404) {
        assert Achieved(parse, call, remote.history[seen]);
        return None, log;
      }
      return Some(get.fault), log;
    }
    if !IsTarget(parse, call.target, get.current) {
      if call.nonce.None? {
        assert Achieved(parse, call, remote.history[seen]);
        return None, log;
      }
      return Some(REPLACED), log;
    }
    var current := get.current.value;
    if call.nonce.None? && call.key !in current.writable.config {
      assert Achieved(parse, call, remote.history[seen]);
      return None, log;
    }
    ghost var mid := remote.SoFar();
    ghost var tail;
    outcome, tail := PutAndWait(parse, remote, call, current, get.etag, delay);
    FollowsAppend(parse, remote.tag, call, from, log, AtPut(delay, current, get.etag), tail,
                  AfterOnce(outcome, delay));
    LoggedAppend(old(remote.SoFar()), mid, remote.SoFar(), log, tail);
    SleepsAppend(log, tail);
    log := log + tail;
  }

  lemma KeyIsNotUUID(key: string)
    requires IsConfigKey(key)
    ensures key != UUID_KEY
  {
    assert |UUID_KEY| == 13;
  }

  lemma StartOfCall()
    ensures START == AtGet(INITIAL_DELAY) && Delay(0) == INITIAL_DELAY > 0 && TotalWait(0) == 0
  {
  }

  lemma Verdict(parse: UuidParser, call: Call, outcome: Option<Fault>, delay: nat)
    ensures outcome.None? ==> AfterOnce(outcome, delay) == Done(None)
    ensures outcome.Some? ==>
              AfterOnce(outcome, delay) == if outcome.value.replaced || !IsRetryable(outcome.value) then Done(outcome)
                                           else AtSleep(delay)
    ensures forall expired :: Next(parse, call, AtSleep(delay), Slept(expired))
                           == if expired.Some? then Done(expired) else AtGet(NextDelay(delay))
  {
  }

  lemma WaitIsLawful(tag: Tagger, call: Call, delay: nat, x: Exchange)
    requires x.reply.Waited? && !x.committed
    ensures Lawful(tag, call, AtWait(delay), x)
  {
  }

  lemma FollowsOne(parse: UuidParser, tag: Tagger, call: Call, p: Phase, x: Exchange)
    requires Lawful(tag, call, p, x)
    ensures Follows(parse, tag, call, p, [x], Next(parse, call, p, x.reply))
  {
    assert [x][..0] == [];
  }

  lemma FollowsThen(parse: UuidParser, tag: Tagger, call: Call, p: Phase, log: seq<Exchange>, m: Phase, x: Exchange)
    requires Follows(parse, tag, call, p, log, m) && Lawful(tag, call, m, x)
    ensures Follows(parse, tag, call, p, log + [x], Next(parse, call, m, x.reply))
  {
    assert (log + [x])[..|log|] == log;
  }

  lemma {:induction false} FollowsAppend(parse: UuidParser, tag: Tagger, call: Call, p: Phase, a: seq<Exchange>,
                                         m: Phase, b: seq<Exchange>, q: Phase)
    requires Follows(parse, tag, call, p, a, m) && Follows(parse, tag, call, m, b, q)
    ensures Follows(parse, tag, call, p, a + b, q)
    decreases |b|
  {
    if b == [] {
      assert a + b == a;
    } else {
      var init := b[..|b| - 1];
      FollowsAppend(parse, tag, call, p, a, m, init, PhaseAfter(parse, tag, call, m, init).value);
      assert (a + b)[..|a + b| - 1] == a + init;
    }
  }

  // ---------------------------------------------------------------- what the replies mean for the call

  /** Worth another try: the server was busy or the record changed, and nobody called the attempt off. */
  predicate Worth(f: Fault) {
    && !f.canceled && !f.deadline && !f.replaced
    && (f.status == Some(408) || f.status == Some(412) || f.status == Some(429) || f.status == Some(500)
        || f.status == Some(502) || f.status == Some(503) || f.status == Some(504)
        || f.timeout || f.temporary || f.opError)
  }

  /** The target was fetched, and the call has something to change on it. */
  predicate HasWork(parse: UuidParser, call: Call, get: GetReply) {
    && get.GetRecord? && IsTarget(parse, call.target, get.current)
    && (call.nonce.None? ==> call.key in get.current.value.writable.config)
  }

  predicate IsAbsent(call: Call, get: GetReply) {
    call.nonce.None? && get.GetFault? && get.fault.status == Some(404)
  }

  /** After reply x the call goes on, and waits for a reply like y. */
  predicate GoesOn(parse: UuidParser, call: Call, x: Reply, y: Reply) {
    match x
    case Got(GetFault(f)) => !IsAbsent(call, x.get) && Worth(f) && y.Slept?
    case Got(GetRecord(_, _)) => HasWork(parse, call, x.get) && y.Put?
    case Put(PutFault(f)) => Worth(f) && y.Slept?
    case Put(PutNoOperation) => false
    case Put(PutStarted) => y.Waited?
    case Waited(None) => false
    case Waited(Some(f)) => Worth(f) && y.Slept?
    case Slept(expired) => expired.None? && y.Got?
  }

  /** With reply x the call ends, and this is what it returns. */
  predicate Ends(parse: UuidParser, call: Call, x: Reply, err: Option<Fault>) {
    match x
    case Got(GetFault(f)) => if IsAbsent(call, x.get) then err == None else err == Some(f) && !Worth(f)
    case Got(GetRecord(current, _)) =>
      && !HasWork(parse, call, x.get)
      && (call.nonce.None? ==> err == None)
      && (call.nonce.Some? ==> !IsTarget(parse, call.target, current) && err.Some? && err.value.replaced)
    case Put(PutFault(f)) => err == Some(f) && !Worth(f)
    case Put(PutNoOperation) => err.Some? && !Worth(err.value)
    case Put(PutStarted) => false
    case Waited(None) => err == None
    case Waited(Some(f)) => err == Some(f) && !Worth(f)
    case Slept(expired) => expired.Some? && err == expired
  }

  /** The call starts with a fetch, goes on as long as each reply says so, and ends with the last. */
  ghost predicate Explained(parse: UuidParser, call: Call, log: seq<Exchange>, err: Option<Fault>) {
    && log != [] && log[0].reply.Got?
    && (forall k :: 0 <= k < |log| - 1 ==> GoesOn(parse, call, log[k].reply, log[k + 1].reply))
    && Ends(parse, call, log[|log| - 1].reply, err)
  }

  /** One reply decides what the automaton says it decides. */
  lemma NextExplained(parse: UuidParser, tag: Tagger, call: Call, p: Phase, x: Exchange)
    requires Lawful(tag, call, p, x)
    ensures var q := Next(parse, call, p, x.reply);
      && (q.Done? ==> Ends(parse, call, x.reply, q.err))
      && (!q.Done? ==> forall y :: Fits(q, y) <==> GoesOn(parse, call, x.reply, y))
  {
    hide IsTarget, Truthful, Matches;
  }

  lemma {:induction false} PrefixExplained(parse: UuidParser, tag: Tagger, call: Call, log: seq<Exchange>, q: Phase)
    requires Follows(parse, tag, call, START, log, q)
    ensures log == [] ==> q == START
    ensures log != [] ==> log[0].reply.Got?
    ensures forall k :: 0 <= k < |log| - 1 ==> GoesOn(parse, call, log[k].reply, log[k + 1].reply)
    ensures log != [] && q.Done? ==> Ends(parse, call, log[|log| - 1].reply, q.err)
    ensures log != [] && !q.Done? ==> forall y :: Fits(q, y) <==> GoesOn(parse, call, log[|log| - 1].reply, y)
  {
    if log != [] {
      var init, x := log[..|log| - 1], log[|log| - 1];
      var m := PhaseAfter(parse, tag, call, START, init).value;
      PrefixExplained(parse, tag, call, init, m);
      assert Fits(m, x.reply);
      hide Next, GoesOn, Ends;
      NextExplained(parse, tag, call, m, x);
    }
  }

  lemma LastWait(parse: UuidParser, tag: Tagger, call: Call, log: seq<Exchange>, q: Phase)
    requires Follows(parse, tag, call, START, log, q) && log != []
    ensures var last := log[|log| - 1].reply;
      last.Slept? && last.expired.Some? ==> !Worth(last.expired.value)
  {
    assert Lawful(tag, call, PhaseAfter(parse, tag, call, START, log[..|log| - 1]).value, log[|log| - 1]);
  }

  /** How many backoff waits were asked for. */
  function Sleeps(log: seq<Exchange>): nat {
    if log == [] then 0 else Sleeps(log[..|log| - 1]) + if log[|log| - 1].reply.Slept? then 1 else 0
  }

  lemma SleepsOne(x: Exchange)
    ensures Sleeps([x]) == if x.reply.Slept? then 1 else 0
  {
    assert [x][..0] == [];
  }

  lemma {:induction false} SleepsAppend(a: seq<Exchange>, b: seq<Exchange>)
    ensures Sleeps(a + b) == Sleeps(a) + Sleeps(b)
  {
    if b == [] {
      assert a + b == a;
    } else {
      SleepsAppend(a, b[..|b| - 1]);
      assert (a + b)[..|a + b| - 1] == a + b[..|b| - 1];
    }
  }

  // ---------------------------------------------------------------- the story of a call

  /** Between two instants the call has come from its start to phase q, with this log and this many backoff waits. */
  ghost predicate Told(parse: UuidParser, tag: Tagger, call: Call, was: Past, now: Past, log: seq<Exchange>, q: Phase,
                       sleeps: nat) {
    && Logged(was, now, log) && Follows(parse, tag, call, START, log, q) && Sleeps(log) == sleeps
    && OnlyKeyEdits(parse, call, now.writes, |was.writes|)
  }

  lemma ToldNothing(parse: UuidParser, tag: Tagger, call: Call, past: Past)
    requires past.states != []
    ensures Told(parse, tag, call, past, past, [], AtGet(INITIAL_DELAY), 0)
  {
  }

  lemma ToldOnce(parse: UuidParser, tag: Tagger, call: Call, was: Past, mid: Past, now: Past, log: seq<Exchange>,
                 delay: nat, sleeps: nat, once: seq<Exchange>, outcome: Option<Fault>)
    requires Told(parse, tag, call, was, mid, log, AtGet(delay), sleeps) && Logged(mid, now, once)
    requires Follows(parse, tag, call, AtGet(delay), once, AfterOnce(outcome, delay)) && Sleeps(once) == 0
    requires mid.writes <= now.writes && OnlyKeyEdits(parse, call, now.writes, |mid.writes|)
    ensures Told(parse, tag, call, was, now, log + once, AfterOnce(outcome, delay), sleeps)
  {
    hide Logged, Follows, Sleeps, OnlyKeyEdits, AfterOnce;
    FollowsAppend(parse, tag, call, START, log, AtGet(delay), once, AfterOnce(outcome, delay));
    LoggedAppend(was, mid, now, log, once);
    SleepsAppend(log, once);
    EditsAppend(parse, call, |was.writes|, mid.writes, now.writes);
  }

  lemma ToldSleep(parse: UuidParser, tag: Tagger, call: Call, was: Past, mid: Past, now: Past, log: seq<Exchange>,
                  delay: nat, sleeps: nat, expired: Option<Fault>)
    requires Told(parse, tag, call, was, mid, log, AtSleep(delay), sleeps)
    requires mid.states != [] && mid.states <= now.states && mid.writes == now.writes
    requires expired.Some? ==> expired.value.canceled || expired.value.deadline
    ensures var x := Exchange(now.states[|now.states| - 1], Slept(expired), false);
      Told(parse, tag, call, was, now, log + [x],
           if expired.Some? then Done(expired) else AtGet(NextDelay(delay)), sleeps + 1)
  {
    hide Logged, Follows, Sleeps, OnlyKeyEdits;
    var x := Exchange(now.states[|now.states| - 1], Slept(expired), false);
    FollowsThen(parse, tag, call, START, log, AtSleep(delay), x);
    LoggedReply(mid, now, x);
    LoggedAppend(was, mid, now, log, [x]);
    SleepsOne(x);
    SleepsAppend(log, [x]);
  }

  /** Every completed call of the automaton is explained by its replies, and its fault by the fault's own fields. */
  lemma CallIsExplained(parse: UuidParser, tag: Tagger, call: Call, was: Past, now: Past, log: seq<Exchange>,
                        err: Option<Fault>, sleeps: nat)
    requires Told(parse, tag, call, was, now, log, Done(err), sleeps)
    ensures Logged(was, now, log) && Follows(parse, tag, call, START, log, Done(err)) && Sleeps(log) == sleeps
    ensures OnlyKeyEdits(parse, call, now.writes, |was.writes|)
    ensures Explained(parse, call, log, err)
    ensures err.Some? ==>
      var f := err.value;
      || f.canceled || f.deadline || f.replaced
      || (f.status != Some(408) && f.status != Some(412) && f.status != Some(429) && f.status != Some(500)
          && f.status != Some(502) && f.status != Some(503) && f.status != Some(504)
          && !f.timeout && !f.temporary && !f.opError)
  {
    hide Logged, OnlyKeyEdits, Sleeps;
    PrefixExplained(parse, tag, call, log, Done(err));
    LastWait(parse, tag, call, log, Done(err));
  }

  /**
   * mutate, whatever the environment does during the call:
   * it follows the call automaton with lawful replies, and its log tells of all its commits and only
   * of states the store was in; each commit is a one-key edit of the record current at that instant,
   * which is the target; if it returns nil its purpose was achieved at some instant of the call. It
   * goes on exactly while the replies are worth it: a conflict, a busy server or a network fault is
   * never its result. Its waits are the first delays in order, and it ends after a number of them
   * that the time left bounds.
   */
  method Mutate(parse: UuidParser, remote: Remote, call: Call)
    returns (err: Option<Fault>, ghost log: seq<Exchange>, ghost waits: nat)
    requires remote.Valid() && TagContract(remote.tag) && IsConfigKey(call.key)
    modifies remote, remote.clock`now, remote.clock`waits
    ensures remote.Valid() && old(remote.history) <= remote.history && old(remote.writes) <= remote.writes
    ensures Logged(old(remote.SoFar()), remote.SoFar(), log)
    ensures Follows(parse, remote.tag, call, START, log, Done(err))
    ensures OnlyKeyEdits(parse, call, remote.writes, |old(remote.writes)|)
    ensures err.None? ==> AchievedSince(parse, call, remote.history, |old(remote.history)| - 1)
    ensures Explained(parse, call, log, err)
    ensures err.Some? ==>
      var f := err.value;
      || f.canceled || f.deadline || f.replaced
      || (f.status != Some(408) && f.status != Some(412) && f.status != Some(429) && f.status != Some(500)
          && f.status != Some(502) && f.status != Some(503) && f.status != Some(504)
          && !f.timeout && !f.temporary && !f.opError)
    ensures remote.clock.waits == old(remote.clock.waits) + Delays(Sleeps(log))
    ensures remote.clock.now >= old(remote.clock.now) + TotalWait(waits)
    ensures waits <= MaxWaits(remote.clock.deadline - old(remote.clock.now))
  {
    hide *;
    remote.LastIsNow();
    ToldNothing(parse, remote.tag, call, remote.SoFar());
    DelaysNothing();
    StartOfCall();
    var delay := INITIAL_DELAY;
    log, waits := [], 0;
    while true
      invariant remote.Valid() && old(remote.history) <= remote.history && old(remote.writes) <= remote.writes
      invariant Told(parse, remote.tag, call, old(remote.SoFar()), remote.SoFar(), log, AtGet(delay), waits)
      invariant delay == Delay(waits) && delay > 0
      invariant remote.clock.waits == old(remote.clock.waits) + Delays(waits)
      invariant remote.clock.now >= old(remote.clock.now) + TotalWait(waits)
      invariant waits <= MaxWaits(remote.clock.deadline - old(remote.clock.now))
      decreases remote.clock.deadline - remote.clock.now
    {
      remote.LastIsNow();
      ghost var mid := remote.SoFar();
      var outcome, once := MutateOnce(parse, remote, call, delay);
      ToldOnce(parse, remote.tag, call, old(remote.SoFar()), mid, remote.SoFar(), log, delay, waits, once, outcome);
      Verdict(parse, call, outcome, delay);
      log := log + once;
      if outcome.None? {
        AchievedEarlier(parse, call, remote.history, |mid.states| - 1, |old(remote.history)| - 1);
        CallIsExplained(parse, remote.tag, call, old(remote.SoFar()), remote.SoFar(), log, None, waits);
        return None, log, waits;
      }
      if outcome.value.replaced || !IsRetryable(outcome.value) {
        CallIsExplained(parse, remote.tag, call, old(remote.SoFar()), remote.SoFar(), log, outcome, waits);
        return outcome, log, waits;
      }
      mid := remote.SoFar();
      var expired := remote.Sleep(delay);
      remote.LastIsNow();
      ToldSleep(parse, remote.tag, call, old(remote.SoFar()), mid, remote.SoFar(), log, delay, waits, expired);
      DelaysNext(waits);
      log := log + [Exchange(remote.store, Slept(expired), false)];
      if expired.Some? {
        CallIsExplained(parse, remote.tag, call, old(remote.SoFar()), remote.SoFar(), log, expired, waits + 1);
        return expired, log, waits;
      }
      waits := waits + 1;
      DelayNext(waits);
      WaitsBeforeDeadline(waits, remote.clock.deadline - old(remote.clock.now));
      delay := NextDelay(delay);
    }
  }
}
