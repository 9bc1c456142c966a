/**
 * The shared random source: one attempt's two consecutive 16-byte reads under a lock, and the
 * windows of the byte stream that any number of concurrent attempts end up with.
 */
module Random {
  import opened Base
  import opened Encoding
  import opened Attest

  const HALF: nat := 16

  type Stream = nat -> Byte

  function Slice(s: Stream, from: nat, to: nat): (bs: seq<Byte>)
    requires from <= to
    ensures |bs| == to - from && forall i :: 0 <= i < |bs| ==> bs[i] == s(from + i)
  {
    seq(to - from, i requires 0 <= i < to - from => s(from + i))
  }

  lemma SliceExtends(s: Stream, from: nat, mid: nat, to: nat)
    requires from <= mid <= to
    ensures Slice(s, from, mid) + Slice(s, mid, to) == Slice(s, from, to)
  {
  }

  // ---------------------------------------------------------------- any number of attempts

  /** One attempt's progress: waiting to lock is not represented; buf holds what it has read so far. */
  datatype Progress =
    | Reading(start: nat, buf: seq<Byte>)
    | Success(start: nat, id: seq<Byte>, nonce: seq<Byte>)
    | Failure(start: nat, end: nat)

  datatype State = State(pos: nat, holder: Option<nat>, attempts: map<nat, Progress>)

  datatype Event = Lock(who: nat) | Chunk(who: nat, count: nat, failed: bool)

  function Limit(got: nat): nat
    requires got < 2 * HALF
  {
    if got < HALF then HALF - got else 2 * HALF - got
  }

  predicate Allowed(s: State, e: Event) {
    match e
    case Lock(t) => s.holder == None && t !in s.attempts
    case Chunk(t, count, _) =>
      && s.holder == Some(t) && t in s.attempts && s.attempts[t].Reading?
      && |s.attempts[t].buf| < 2 * HALF && count <= Limit(|s.attempts[t].buf|)
  }

  /** A chunk that completes a half drops its error; completing the second half releases the lock. */
  function Apply(stream: Stream, s: State, e: Event): State
    requires Allowed(s, e)
  {
    match e
    case Lock(t) => s.(holder := Some(t), attempts := s.attempts[t := Reading(s.pos, [])])
    case Chunk(t, count, failed) =>
      var p := s.attempts[t];
      var buf := p.buf + Slice(stream, s.pos, s.pos + count);
      var pos := s.pos + count;
      if |buf| == 2 * HALF then
        State(pos, None, s.attempts[t := Success(p.start, buf[..HALF], buf[HALF..])])
      else if failed && !(|buf| == HALF && count > 0) then
        State(pos, None, s.attempts[t := Failure(p.start, pos)])
      else
        State(pos, s.holder, s.attempts[t := Reading(p.start, buf)])
  }

  function Run(stream: Stream, s: State, es: seq<Event>): Option<State> {
    if es == [] then Some(s)
    else
      match Run(stream, s, es[..|es| - 1])
      case None => None
      case Some(m) => if Allowed(m, es[|es| - 1]) then Some(Apply(stream, m, es[|es| - 1])) else None
  }

  function EndOf(p: Progress): nat {
    match p
    case Reading(start, buf) => start + |buf|
    case Success(start, _, _) => start + 2 * HALF
    case Failure(_, end) => end
  }

  predicate Disjoint(p: Progress, q: Progress) {
    EndOf(p) <= q.start || EndOf(q) <= p.start
  }

  /** The two reads of a successful attempt, in order, are the halves of one window of the stream. */
  predicate IsWindow(stream: Stream, p: Progress) {
    p.Success? ==>
      && p.id == Slice(stream, p.start, p.start + HALF)
      && p.nonce == Slice(stream, p.start + HALF, p.start + 2 * HALF)
  }

  type Attempts = map<nat, Progress>

  ghost predicate Bounded(ts: Attempts, pos: nat) {
    forall t :: t in ts ==> ts[t].start <= EndOf(ts[t]) <= pos
  }

  ghost predicate Windows(stream: Stream, ts: Attempts) {
    forall t :: t in ts ==> IsWindow(stream, ts[t])
  }

  ghost predicate Separate(ts: Attempts) {
    forall t, u :: t in ts && u in ts && t != u ==> Disjoint(ts[t], ts[u])
  }

  /** Every other attempt ended before this one started. */
  ghost predicate Latest(ts: Attempts, t: nat, start: nat) {
    forall u :: u in ts && u != t ==> EndOf(ts[u]) <= start && !ts[u].Reading?
  }

  /** The attempt that reads holds the lock, has the newest bytes and comes after all others. */
  ghost predicate Newest(stream: Stream, s: State, t: nat, p: Progress) {
    && s.holder == Some(t) && p.Reading? && EndOf(p) == s.pos && |p.buf| < 2 * HALF
    && p.buf == Slice(stream, p.start, s.pos) && Latest(s.attempts, t, p.start)
  }

  ghost predicate Inv(stream: Stream, s: State) {
    && Bounded(s.attempts, s.pos) && Windows(stream, s.attempts) && Separate(s.attempts)
    && (forall t :: t in s.attempts && s.attempts[t].Reading? ==> Newest(stream, s, t, s.attempts[t]))
  }

  lemma ChunkStep(stream: Stream, s: State, e: Event)
    requires Inv(stream, s) && Allowed(s, e) && e.Chunk?
    ensures var p, s' := s.attempts[e.who], Apply(stream, s, e);
      && s'.attempts.Keys == s.attempts.Keys && s'.pos == s.pos + e.count
      && s'.attempts == s.attempts[e.who := s'.attempts[e.who]]
      && s'.attempts[e.who].start == p.start && EndOf(s'.attempts[e.who]) == s'.pos
      && IsWindow(stream, s'.attempts[e.who])
      && (s'.attempts[e.who].Reading? ==>
            s'.holder == Some(e.who) && |s'.attempts[e.who].buf| < 2 * HALF
            && s'.attempts[e.who].buf == Slice(stream, p.start, s'.pos))
  {
    var p := s.attempts[e.who];
    SliceExtends(stream, p.start, s.pos, s.pos + e.count);
  }

  /** The progress of the latest attempt may be replaced by any that starts at the same place. */
  lemma ReplaceLatest(stream: Stream, ts: Attempts, t: nat, q: Progress, pos: nat)
    requires Windows(stream, ts) && Separate(ts) && Latest(ts, t, q.start) && IsWindow(stream, q)
    requires (forall u :: u in ts ==> ts[u].start <= EndOf(ts[u])) && q.start <= EndOf(q) == pos
    ensures Bounded(ts[t := q], pos) && Windows(stream, ts[t := q]) && Separate(ts[t := q])
            && Latest(ts[t := q], t, q.start)
  {
    hide IsWindow;
  }

  lemma LockStep(stream: Stream, s: State, t: nat)
    requires Inv(stream, s) && Allowed(s, Lock(t))
    ensures Inv(stream, Apply(stream, s, Lock(t)))
  {
    ReplaceLatest(stream, s.attempts, t, Reading(s.pos, []), s.pos);
  }

  lemma InvStep(stream: Stream, s: State, e: Event)
    requires Inv(stream, s) && Allowed(s, e)
    ensures Inv(stream, Apply(stream, s, e))
  {
    if e.Lock? {
      LockStep(stream, s, e.who);
    } else {
      ChunkStep(stream, s, e);
      hide Apply, IsWindow, Separate, Windows;
      var s' := Apply(stream, s, e);
      ReplaceLatest(stream, s.attempts, e.who, s'.attempts[e.who], s'.pos);
    }
  }

  lemma {:induction false} InvAlways(stream: Stream, s: State, es: seq<Event>)
    requires Inv(stream, s) && Run(stream, s, es).Some?
    ensures Inv(stream, Run(stream, s, es).value)
  {
    if es != [] {
      InvAlways(stream, s, es[..|es| - 1]);
      InvStep(stream, Run(stream, s, es[..|es| - 1]).value, es[|es| - 1]);
    }
  }

  /**
   * For every interleaving and every pattern of short reads and errors: a successful attempt has one
   * contiguous 32-byte window, attempt ID first; no two attempts, failed ones included, share a byte.
   */
  lemma RandomWindows(stream: Stream, pos: nat, es: seq<Event>, s: State)
    requires Run(stream, State(pos, None, map[]), es) == Some(s)
    ensures forall t :: t in s.attempts ==> IsWindow(stream, s.attempts[t])
    ensures forall t, u :: t in s.attempts && u in s.attempts && t != u ==> Disjoint(s.attempts[t], s.attempts[u])
  {
    InvAlways(stream, State(pos, None, map[]), es);
  }

  // ---------------------------------------------------------------- one attempt as it is programmed

  /** The n-th event is a read of attempt t that fails and does not complete the half it reads for. */
  ghost predicate FailedAt(stream: Stream, s0: State, es: seq<Event>, t: nat, n: nat) {
    && n < |es| && es[n].Chunk? && es[n].who == t && es[n].failed
    && Run(stream, s0, es[..n]).Some?
    && var m := Run(stream, s0, es[..n]).value;
    && t in m.attempts && m.attempts[t].Reading?
    && var (had, count) := (|m.attempts[t].buf|, es[n].count);
    && (had < 16 ==> had + count < 16) && had + count < 32
  }

  /** An attempt fails if and only if one of its reads failed before its half was full. */
  lemma {:induction false} FailureIsFault(stream: Stream, s0: State, es: seq<Event>, s: State, t: nat)
    requires t !in s0.attempts && Run(stream, s0, es) == Some(s)
    ensures t in s.attempts && s.attempts[t].Failure? <==> exists n: nat :: FailedAt(stream, s0, es, t, n)
    decreases |es|
  {
    if es != [] {
      var k := |es| - 1;
      var m := Run(stream, s0, es[..k]).value;
      FailureIsFault(stream, s0, es[..k], m, t);
      forall n: nat | n < k
        ensures FailedAt(stream, s0, es, t, n) <==> FailedAt(stream, s0, es[..k], t, n)
      {
        assert es[..k][..n] == es[..n];
      }
      assert FailedAt(stream, s0, es, t, k) || (t in m.attempts && m.attempts[t].Failure?)
        <==> t in s.attempts && s.attempts[t].Failure?;
    }
  }

  /** Where attempt t stands after reading buf of the half that follows got, at position pos. */
  function Midway(m: State, t: nat, got: seq<Byte>, start: nat, buf: seq<Byte>, pos: nat): State {
    State(pos, Some(t), m.attempts[t := Reading(start, got + buf)])
  }

  /** Where it stands after the half: full, and then either half way or successful; or failed. */
  function AfterHalf(m: State, t: nat, got: seq<Byte>, start: nat, half: Option<seq<Byte>>, pos: nat): State {
    match half
    case None => State(pos, None, m.attempts[t := Failure(start, pos)])
    case Some(buf) =>
      if got == [] then Midway(m, t, got, start, buf, pos)
      else State(pos, None, m.attempts[t := Success(start, got, buf)])
  }

  /** One chunk takes the state inside a half to the next one, or ends the half. */
  lemma ChunkOfHalf(stream: Stream, m: State, t: nat, got: seq<Byte>, start: nat, buf: seq<Byte>, pos: nat,
                    more: seq<Byte>, failed: bool)
    requires |got| in {0, HALF} && |buf| < HALF && |buf + more| <= HALF
    requires more == Slice(stream, pos, pos + |more|)
    ensures var s, e := Midway(m, t, got, start, buf, pos), Chunk(t, |more|, failed);
            var all, end := buf + more, pos + |more|;
      && Allowed(s, e)
      && Apply(stream, s, e) ==
           if |all| == HALF then AfterHalf(m, t, got, start, Some(all), end)
           else if failed then AfterHalf(m, t, got, start, None, end)
           else Midway(m, t, got, start, all, end)
  {
    assert got + buf + more == got + (buf + more);
    assert |got| == HALF ==> (got + buf + more)[..HALF] == got && (got + buf + more)[HALF..] == buf + more;
  }

  lemma RunThen(stream: Stream, s: State, es: seq<Event>, e: Event)
    requires Run(stream, s, es).Some? && Allowed(Run(stream, s, es).value, e)
    ensures Run(stream, s, es + [e]) == Some(Apply(stream, Run(stream, s, es).value, e))
  {
    assert (es + [e])[..|es|] == es;
  }

  /** An io.Reader over the stream: it may return short, and may fail with or without bytes. */
  class Reader {
    const stream: Stream
    var pos: nat
    var patience: nat      // reads that may still come back empty-handed without an error
    ghost var faults: nat  // reads that came back with an error

    constructor (stream: Stream, pos: nat, patience: nat)
      ensures this.stream == stream && this.pos == pos && this.patience == patience
      ensures faults == 0
    {
      this.stream, this.pos, this.patience, faults := stream, pos, patience, 0;
    }

    method Read(want: nat) returns (bs: seq<Byte>, failed: bool)
      modifies this
      ensures |bs| <= want && pos == old(pos) + |bs| && bs == Slice(stream, old(pos), pos)
      ensures bs == [] && !failed && want > 0 ==> patience < old(patience)
      ensures patience <= old(patience)
      ensures faults == old(faults) + if failed then 1 else 0
    {
      var n: int := *;
      failed := *;
      if n < 0 { n := 0; }
      if n > want { n := want; }
      bs := Slice(stream, pos, pos + n);
      pos := pos + n;
      if n == 0 && !failed {
        if patience == 0 {
          failed := true;
        } else {
          patience := patience - 1;
        }
      }
      faults := faults + if failed then 1 else 0;
    }

    /**
     * io.ReadFull into one 16-byte array: reads until it is full; an error that comes with the last
     * byte is dropped. Its reads are chunks of the attempt t in the state machine.
     */
    method ReadFull(ghost m: State, ghost t: nat, ghost got: seq<Byte>, ghost start: nat,
                    ghost from: State, ghost es: seq<Event>)
      returns (r: Option<seq<Byte>>, ghost log: seq<Event>)
      requires |got| in {0, HALF} && Run(stream, from, es) == Some(Midway(m, t, got, start, [], pos))
      modifies this
      ensures old(pos) <= pos <= old(pos) + HALF
      ensures r.Some? ==> pos == old(pos) + HALF && r.value == Slice(stream, old(pos), pos)
      ensures r.None? ==> pos < old(pos) + HALF && faults == old(faults) + 1
      ensures r.Some? ==> old(faults) <= faults <= old(faults) + 1
      ensures Run(stream, from, log) == Some(AfterHalf(m, t, got, start, r, pos))
    {
      hide Run, Apply, Allowed;
      var buf: seq<Byte> := [];
      var failed := false;
      log := es;
      while |buf| < HALF && !failed
        invariant |buf| <= HALF && pos == old(pos) + |buf| && buf == Slice(stream, old(pos), pos)
        invariant faults == old(faults) + if failed then 1 else 0
        invariant Run(stream, from, log) == Some(
          if |buf| == HALF then AfterHalf(m, t, got, start, Some(buf), pos)
          else if failed then AfterHalf(m, t, got, start, None, pos)
          else Midway(m, t, got, start, buf, pos))
        decreases HALF - |buf|, patience, !failed
      {
        ghost var mid := pos;
        var more, broken := Read(HALF - |buf|);
        SliceExtends(stream, old(pos), mid, pos);
        ChunkOfHalf(stream, m, t, got, start, buf, mid, more, broken);
        RunThen(stream, from, log, Chunk(t, |more|, broken));
        log := log + [Chunk(t, |more|, broken)];
        buf := buf + more;
        failed := broken;
      }
      return if |buf| >= HALF then Some(buf) else None, log;
    }

    /**
     * readRandomPair: on success the attempt ID and the nonce are the two halves of one contiguous
     * 32-byte window that starts where the reader stood; on failure fewer than 32 bytes are consumed.
     * From any state of the other attempts with the lock free, its steps are a run of the machine.
     */
    method ReadRandomPair(ghost s: State, ghost t: nat)
      returns (r: Option<(AttemptID, Nonce)>, ghost log: seq<Event>)
      requires s.pos == pos && s.holder == None && t !in s.attempts
      modifies this
      ensures r.Some? ==> pos == old(pos) + 2 * HALF
                          && r.value.0 == Slice(stream, old(pos), old(pos) + HALF)
                          && r.value.1 == Slice(stream, old(pos) + HALF, old(pos) + 2 * HALF)
      ensures r.None? ==> old(pos) <= pos < old(pos) + 2 * HALF && faults > old(faults)
      ensures Run(stream, s, log) == Some(State(pos, None, s.attempts[t :=
                if r.Some? then Success(old(pos), r.value.0, r.value.1) else Failure(old(pos), pos)]))
    {
      assert Run(stream, s, []) == Some(s);
      RunThen(stream, s, [], Lock(t));
      ghost var none: seq<Byte> := [];
      assert Apply(stream, s, Lock(t)) == Midway(s, t, none, pos, none, pos) by {
        assert none + none == none;
      }
      hide Run;
      ghost var start := pos;
      var id, first := ReadFull(s, t, [], start, s, [] + [Lock(t)]);
      if id.None? {
        return None, first;
      }
      assert Midway(s, t, id.value, start, [], pos) == Midway(s, t, [], start, id.value, pos) by {
        assert id.value + [] == [] + id.value;
      }
      var raw, second := ReadFull(s, t, id.value, start, s, first);
      if raw.None? {
        return None, second;
      }
      var nonce := NewNonce(raw.value);
      if nonce.None? {
        return None, second;
      }
      return Some((id.value, nonce.value)), second;
    }
  }
}
