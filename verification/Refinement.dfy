/**
 * The retry loop as it is programmed against the step system: whatever a call of mutate did to the
 * store, and whoever else wrote meanwhile, is a run of one attempt among operators.
 */
module Refinement {
  import opened Base
  import opened Attest
  import opened Incus
  import opened Mutation
  import opened Interleaving

  // ---------------------------------------------------------------- runs

  lemma {:induction false} RunAppend(parse: UuidParser, tag: Tagger, w: World, a: seq<Event>, m: World, b: seq<Event>,
                                     n: World)
    requires Reaches(parse, tag, w, a, m) && Reaches(parse, tag, m, b, n)
    ensures Reaches(parse, tag, w, a + b, n)
    decreases |b|
  {
    hide Allowed, Apply;
    if b == [] {
      assert a + b == a;
    } else {
      var init := b[..|b| - 1];
      RunAppend(parse, tag, w, a, m, init, Run(parse, tag, m, init).value);
      assert (a + b)[..|a + b| - 1] == a + init;
    }
  }

  /** The events that are not edits of operators. */
  function Steps(es: seq<Event>): seq<Event> {
    if es == [] then []
    else
      var before := Steps(es[..|es| - 1]);
      if es[|es| - 1].Operator? then before else before + [es[|es| - 1]]
  }

  lemma {:induction false} StepsAppend(a: seq<Event>, b: seq<Event>)
    ensures Steps(a + b) == Steps(a) + Steps(b)
  {
    if b == [] {
      assert a + b == a;
    } else {
      StepsAppend(a, b[..|b| - 1]);
      assert (a + b)[..|a + b| - 1] == a + b[..|b| - 1];
    }
  }

  // ---------------------------------------------------------------- operators can do anything to a store

  ghost function Differences(s: Store, t: Store): set<Location> {
    set l | l in s.Keys + t.Keys && RecordAt(s, l) != RecordAt(t, l)
  }

  /** Between any two stores there are edits of operators that lead from one to the other. */
  lemma {:induction false} OperatorsReach(parse: UuidParser, tag: Tagger, w: World, t: Store)
    ensures exists es :: Reaches(parse, tag, w, es, w.(store := t)) && Steps(es) == []
    decreases |Differences(w.store, t)|
  {
    var d := Differences(w.store, t);
    if d == {} {
      SameStore(w.store, t);
      RunNothing(parse, tag, w);
      assert w.(store := t) == w;
      assert Reaches(parse, tag, w, [], w) && Steps([]) == [];
    } else {
      var l :| l in d;
      var e := Operator(l, Replace(RecordAt(t, l)));
      var m := w.(store := Operate(w.store, l, e.op));
      OneLess(w.store, t, l);
      OperatorsReach(parse, tag, m, t);
      var rest :| Reaches(parse, tag, m, rest, m.(store := t)) && Steps(rest) == [];
      RunNothing(parse, tag, w);
      RunThen(parse, tag, w, [], w, e);
      assert [] + [e] == [e] && [e][..0] == [];
      RunAppend(parse, tag, w, [e], m, rest, m.(store := t));
      StepsAppend([e], rest);
      assert Steps([e]) == [];
    }
  }

  lemma SameStore(s: Store, t: Store)
    requires Differences(s, t) == {}
    ensures s == t
  {
    forall l ensures RecordAt(s, l) == RecordAt(t, l) {
      assert l !in Differences(s, t);
    }
    forall l ensures l in s <==> l in t {
      assert RecordAt(s, l) == RecordAt(t, l);
    }
    forall l | l in s ensures s[l] == t[l] {
      assert RecordAt(s, l) == RecordAt(t, l);
    }
  }

  lemma OneLess(s: Store, t: Store, l: Location)
    requires l in Differences(s, t)
    ensures |Differences(Operate(s, l, Replace(RecordAt(t, l))), t)| < |Differences(s, t)|
  {
    var s' := Operate(s, l, Replace(RecordAt(t, l)));
    assert RecordAt(s', l) == RecordAt(t, l);
    assert forall k :: k != l ==> RecordAt(s', k) == RecordAt(s, k);
    assert Differences(s', t) == Differences(s, t) - {l};
  }

  // ---------------------------------------------------------------- a call is a run

  /** The events of a call: one step for each exchange, on the store of the exchange. */
  function StepOf(id: AttemptID, x: Exchange): Event { Step(id, x.reply, x.committed) }

  function StepsOf(id: AttemptID, log: seq<Exchange>): seq<Event> {
    seq(|log|, k requires 0 <= k < |log| => StepOf(id, log[k]))
  }

  /** The attempt in the phase of its call. */
  ghost predicate InPhase(w: World, w': World, id: AttemptID, q: Phase) {
    && id in w.attempts && Running(w.attempts[id])
    && w'.attempts == w.attempts[id := w.attempts[id].(stage := Settle(w.attempts[id].stage, q))]
  }

  /** One exchange is one allowed step, once operators have brought about the store it saw. */
  lemma ExchangeIsStep(parse: UuidParser, tag: Tagger, w: World, m: World, id: AttemptID, q: Phase, x: Exchange)
    requires InPhase(w, m, id, q) && m.store == x.store
    requires Lawful(tag, Current(id, w.attempts[id]), q, x)
    ensures Allowed(tag, m, StepOf(id, x))
    ensures InPhase(w, Apply(parse, tag, m, StepOf(id, x)), id, Next(parse, Current(id, w.attempts[id]), q, x.reply))
  {
    assert !q.Done?;
    hide Truthful, Matches, Next;
    var a := m.attempts[id];
    assert a.stage.p == q && Current(id, a) == Current(id, w.attempts[id]);
    assert x == Exchange(m.store, x.reply, x.committed);
  }

  lemma {:induction false} LogIsRun(parse: UuidParser, tag: Tagger, w: World, id: AttemptID, log: seq<Exchange>,
                                    q: Phase)
    requires id in w.attempts && Running(w.attempts[id]) && w.attempts[id].stage.p == START
    requires Follows(parse, tag, Current(id, w.attempts[id]), START, log, q)
    ensures exists es, m :: Reaches(parse, tag, w, es, m) && InPhase(w, m, id, q) && Steps(es) == StepsOf(id, log)
    decreases |log|
  {
    hide *;
    if log == [] {
      NothingLogged(parse, tag, w, id, q);
    } else {
      var call, init, x := Current(id, w.attempts[id]), log[..|log| - 1], log[|log| - 1];
      LastLogged(parse, tag, call, log, q);
      var q0 := PhaseAfter(parse, tag, call, START, init).value;
      LogIsRun(parse, tag, w, id, init, q0);
      var es, m :| Reaches(parse, tag, w, es, m) && InPhase(w, m, id, q0) && Steps(es) == StepsOf(id, init);
      LogStep(parse, tag, w, es, m, id, q0, init, x);
      assert log == init + [x];
    }
  }

  lemma NothingLogged(parse: UuidParser, tag: Tagger, w: World, id: AttemptID, q: Phase)
    requires id in w.attempts && Running(w.attempts[id]) && w.attempts[id].stage.p == START
    requires Follows(parse, tag, Current(id, w.attempts[id]), START, [], q)
    ensures Reaches(parse, tag, w, [], w) && InPhase(w, w, id, q) && Steps([]) == StepsOf(id, [])
  {
  }

  lemma LastLogged(parse: UuidParser, tag: Tagger, call: Call, log: seq<Exchange>, q: Phase)
    requires Follows(parse, tag, call, START, log, q) && log != []
    ensures var (init, x) := (log[..|log| - 1], log[|log| - 1]);
      && PhaseAfter(parse, tag, call, START, init).Some?
      && var q0 := PhaseAfter(parse, tag, call, START, init).value;
      && Follows(parse, tag, call, START, init, q0) && Lawful(tag, call, q0, x) && q == Next(parse, call, q0, x.reply)
  {
    hide Lawful, Next;
  }

  lemma LogStep(parse: UuidParser, tag: Tagger, w: World, es: seq<Event>, m: World, id: AttemptID, q: Phase,
                log: seq<Exchange>, x: Exchange)
    requires Reaches(parse, tag, w, es, m) && InPhase(w, m, id, q) && Steps(es) == StepsOf(id, log)
    requires Lawful(tag, Current(id, w.attempts[id]), q, x)
    ensures exists es', m' :: Reaches(parse, tag, w, es', m') && Steps(es') == StepsOf(id, log + [x])
                              && InPhase(w, m', id, Next(parse, Current(id, w.attempts[id]), q, x.reply))
  {
    var e := StepOf(id, x);
    OperatorsReach(parse, tag, m, x.store);
    var ops :| Reaches(parse, tag, m, ops, m.(store := x.store)) && Steps(ops) == [];
    var m1 := m.(store := x.store);
    assert InPhase(w, m1, id, q);
    ExchangeIsStep(parse, tag, w, m1, id, q, x);
    hide Lawful, Next, InPhase, Reaches, Allowed, Apply, StepOf;
    RunAppend(parse, tag, w, es, m, ops, m1);
    RunThen(parse, tag, w, es + ops, m1, e);
    StepsAppend(es, ops);
    StepsThen(es + ops, e);
    assert StepsOf(id, log + [x]) == StepsOf(id, log) + [e];
    assert Reaches(parse, tag, w, es + ops + [e], Apply(parse, tag, m1, e));
  }

  lemma StepsThen(es: seq<Event>, e: Event)
    requires !e.Operator?
    ensures Steps(es + [e]) == Steps(es) + [e]
  {
    assert (es + [e])[..|es|] == es;
  }

  /**
   * Every call of mutate is a run: from any world in which the attempt begins that call, with the log
   * that the method returns and the store it leaves, there is a run whose steps are exactly the
   * exchanges of the log, commits included, between edits of operators that stand for everyone else;
   * it ends in that store, with the attempt where the result of the call takes it. So whatever is
   * proved of all runs holds of the loop.
   */
  lemma MutateIsARun(parse: UuidParser, tag: Tagger, w: World, id: AttemptID, log: seq<Exchange>, err: Option<Fault>,
                     after: Store)
    requires id in w.attempts && Running(w.attempts[id]) && w.attempts[id].stage.p == START
    requires Follows(parse, tag, Current(id, w.attempts[id]), START, log, Done(err))
    ensures exists es, w' ::
      && Reaches(parse, tag, w, es, w') && Steps(es) == StepsOf(id, log) && w'.store == after
      && w'.attempts == w.attempts[id := w.attempts[id].(stage := Settle(w.attempts[id].stage, Done(err)))]
  {
    LogIsRun(parse, tag, w, id, log, Done(err));
    var es, m :| Reaches(parse, tag, w, es, m) && InPhase(w, m, id, Done(err)) && Steps(es) == StepsOf(id, log);
    OperatorsReach(parse, tag, m, after);
    var ops :| Reaches(parse, tag, m, ops, m.(store := after)) && Steps(ops) == [];
    hide Reaches;
    RunAppend(parse, tag, w, es, m, ops, m.(store := after));
    StepsAppend(es, ops);
    assert Reaches(parse, tag, w, es + ops, m.(store := after));
  }
}
