/** The guest's half of the protocol: claims, payload, challenge, polled read, response. */
module Guest {
  import opened Base
  import opened Attest
  import opened Backoff
  import opened Wire
  import opened WireProofs

  /** The reply to one read of the challenged config value. */
  datatype ReadReply =
    | ReadFault(error: Error, timeout: bool, temporary: bool)
    | Hidden
    | Value(text: string)

  /** The replies of the other ports in one run. */
  datatype Script = Script(
    claims: Result<Claims, Error>,
    payloadErr: Option<Error>,
    challenge: Result<Message, Error>,
    responseErr: Option<Error>)

  datatype Effect =
    | ReadClaims
    | SendPayload(payload: Message)
    | ReceiveChallenge
    | ReadConfig(key: string)
    | SendResponse(response: Message)

  class Ports {
    const script: Script
    const clock: Clock
    var trace: seq<Effect>

    constructor (script: Script, clock: Clock)
      ensures this.script == script && this.clock == clock && trace == []
    {
      this.script, this.clock, trace := script, clock, [];
    }

    method Do(e: Effect)
      modifies this`trace
      ensures trace == old(trace) + [e]
    {
      trace := trace + [e];
    }

    /** One read; any reply may come, and time passes. */
    method Read(key: string) returns (reply: ReadReply)
      modifies this`trace, clock`now
      ensures trace == old(trace) + [ReadConfig(key)] && clock.now >= old(clock.now)
    {
      trace := trace + [ReadConfig(key)];
      clock.Pass();
      reply := *;
    }
  }

  // ---------------------------------------------------------------- polling

  predicate IsContextError(e: Error) { Canceled in e.classes || Deadline in e.classes }

  /** The polling goes on after a hidden key, and after a fault that says it is temporary and is not the context's. */
  predicate Pollable(reply: ReadReply) {
    match reply
    case Value(_) => false
    case Hidden => true
    case ReadFault(e, timeout, temporary) => !IsContextError(e) && (timeout || temporary)
  }

  /**
   * The outcome of polling after these reads. All but the last were polled on. A last value is the
   * result; a last fault that is not polled on is; otherwise a wait was cut short by the context.
   */
  ghost predicate PolledTo(polls: seq<ReadReply>, r: Result<string, Error>) {
    && polls != []
    && (forall i :: 0 <= i < |polls| - 1 ==> Pollable(polls[i]))
    && var last := polls[|polls| - 1];
    && (last.Value? ==> r == Ok(last.text))
    && (last.ReadFault? && !Pollable(last) ==> r == Err(last.error))
    && (Pollable(last) ==> r.Err? && IsContextError(r.error))
  }

  /** The first value read is the outcome, and no read follows it. */
  lemma ValueEndsPolling(polls: seq<ReadReply>, r: Result<string, Error>, k: nat, text: string)
    requires PolledTo(polls, r) && k < |polls| && polls[k] == Value(text)
    ensures k == |polls| - 1 && r == Ok(text)
  {
  }

  function Reads(key: string, n: nat): seq<Effect> { seq(n, i => ReadConfig(key)) }

  /** PolledTo, reply by reply and field by field. */
  lemma PolledMeans(polls: seq<ReadReply>, r: Result<string, Error>)
    requires PolledTo(polls, r)
    ensures polls != []
    ensures forall i :: 0 <= i < |polls| - 1 ==>
              || polls[i] == Hidden
              || (polls[i].ReadFault? && (polls[i].timeout || polls[i].temporary)
                  && Canceled !in polls[i].error.classes && Deadline !in polls[i].error.classes)
    ensures var last := polls[|polls| - 1];
      && (last.Value? ==> r == Ok(last.text))
      && (last == Hidden ==> r.Err? && (Canceled in r.error.classes || Deadline in r.error.classes))
      && (last.ReadFault? ==>
            && r.Err?
            && (r == Err(last.error) || Canceled in r.error.classes || Deadline in r.error.classes)
            && (!last.timeout && !last.temporary ==> r == Err(last.error))
            && (Canceled in last.error.classes || Deadline in last.error.classes ==> r == Err(last.error)))
  {
    forall i | 0 <= i < |polls| - 1 ensures Pollable(polls[i]) {}
  }

  /**
   * pollConfig, whatever the reads return: it polls on after exactly the hidden and the temporary
   * replies, with the first delays in order, and stops at the first other one and returns it, or
   * returns the context's error when a wait is cut short; and it ends, after a number of reads that the time
   * left bounds.
   */
  method PollConfig(ports: Ports, key: string) returns (r: Result<string, Error>, ghost polls: seq<ReadReply>)
    modifies ports`trace, ports.clock`now, ports.clock`waits
    ensures PolledTo(polls, r)
    ensures forall i :: 0 <= i < |polls| - 1 ==>
              || polls[i] == Hidden
              || (polls[i].ReadFault? && (polls[i].timeout || polls[i].temporary)
                  && Canceled !in polls[i].error.classes && Deadline !in polls[i].error.classes)
    ensures var last := polls[|polls| - 1];
      && (last.Value? ==> r == Ok(last.text))
      && (last == Hidden ==> r.Err? && (Canceled in r.error.classes || Deadline in r.error.classes))
      && (last.ReadFault? ==>
            && r.Err?
            && (r == Err(last.error) || Canceled in r.error.classes || Deadline in r.error.classes)
            && (!last.timeout && !last.temporary ==> r == Err(last.error))
            && (Canceled in last.error.classes || Deadline in last.error.classes ==> r == Err(last.error)))
    ensures ports.clock.waits == old(ports.clock.waits)
              + Delays(if Pollable(polls[|polls| - 1]) then |polls| else |polls| - 1)
    ensures ports.trace == old(ports.trace) + Reads(key, |polls|)
    ensures ports.clock.now >= old(ports.clock.now) + TotalWait(|polls| - 1)
    ensures |polls| - 1 <= MaxWaits(ports.clock.deadline - old(ports.clock.now))
  {
    var delay := INITIAL_DELAY;
    polls := [];
    DelaysNothing();
    while true
      invariant delay == Delay(|polls|) && delay > 0
      invariant forall i :: 0 <= i < |polls| ==> Pollable(polls[i])
      invariant ports.clock.waits == old(ports.clock.waits) + Delays(|polls|)
      invariant ports.trace == old(ports.trace) + Reads(key, |polls|)
      invariant ports.clock.now >= old(ports.clock.now) + TotalWait(|polls|)
      invariant |polls| <= MaxWaits(ports.clock.deadline - old(ports.clock.now))
      decreases ports.clock.deadline - ports.clock.now
    {
      var reply := ports.Read(key);
      polls := polls + [reply];
      assert Reads(key, |polls|) == Reads(key, |polls| - 1) + [ReadConfig(key)];
      match reply {
        case ReadFault(e, timeout, temporary) =>
          if IsContextError(e) {
            return Err(e), polls;
          }
          if !(timeout || temporary) {
            return Err(e), polls;
          }
        case Hidden =>
        case Value(text) =>
          return Ok(text), polls;
      }
      DelaysNext(|polls| - 1);
      var completed := ports.clock.Wait(delay);
      if !completed {
        var canceled: bool := *;
        return Err(Fail(if canceled then Canceled else Deadline)), polls;
      }
      WaitsBeforeDeadline(|polls|, ports.clock.deadline - old(ports.clock.now));
      delay := NextDelay(delay);
    }
  }

  // ---------------------------------------------------------------- the run

  /** The key to poll, or the error that ends the run before any config is read. */
  function KeyStep(lib: Library, s: Script): Result<string, Error> {
    match PayloadStep(lib, s)
    case Err(e) => Err(e)
    case Ok(_) =>
      if s.payloadErr.Some? then Err(s.payloadErr.value)
      else
        match s.challenge
        case Err(e) => Err(e)
        case Ok(m) => DecodeChallenge(lib, m)
  }

  /** The payload to send: validated claims, encoded. */
  function PayloadStep(lib: Library, s: Script): Result<Message, Error> {
    match s.claims
    case Err(e) => Err(e)
    case Ok(c) =>
      match ValidateClaims(lib.parseUUID, c)
      case Err(e) => Err(e)
      case Ok(_) => EncodePayload(lib, c)
  }

  /** The effects before polling. */
  function Opening(lib: Library, s: Script): seq<Effect> {
    match PayloadStep(lib, s)
    case Err(_) => [ReadClaims]
    case Ok(m) =>
      if s.payloadErr.Some? then [ReadClaims, SendPayload(m)]
      else [ReadClaims, SendPayload(m), ReceiveChallenge]
  }

  /** The response to what the polling returned. */
  function ResponseStep(lib: Library, polled: Result<string, Error>): Result<Message, Error> {
    match polled
    case Err(e) => Err(e)
    case Ok(text) =>
      match ParseNonce(text)
      case Err(e) => Err(e)
      case Ok(nonce) => EncodeResponse(nonce)
  }

  datatype Outcome = Outcome(trace: seq<Effect>, err: Option<Error>)

  /** The whole run, given how many reads the polling took and what it returned. */
  function RunOf(lib: Library, s: Script, polls: nat, polled: Result<string, Error>): Outcome {
    match KeyStep(lib, s)
    case Err(e) => Outcome(Opening(lib, s), Some(e))
    case Ok(key) =>
      var polling := Opening(lib, s) + Reads(key, polls);
      match ResponseStep(lib, polled)
      case Err(e) => Outcome(polling, Some(e))
      case Ok(m) => Outcome(polling + [SendResponse(m)], s.responseErr)
  }

  class GuestService {
    const lib: Library

    constructor (lib: Library)
      ensures this.lib == lib
    {
      this.lib := lib;
    }

    /** Claims, validation, payload. */
    method Open(ports: Ports) returns (r: Result<Message, Error>)
      modifies ports`trace
      ensures r == PayloadStep(lib, ports.script) && ports.trace == old(ports.trace) + [ReadClaims]
    {
      ports.Do(ReadClaims);
      if ports.script.claims.Err? {
        return Err(ports.script.claims.error);
      }
      var valid := ValidateClaims(lib.parseUUID, ports.script.claims.value);
      if valid.Err? {
        return Err(valid.error);
      }
      r := EncodePayload(lib, ports.script.claims.value);
    }

    /** Up to the key: sends the payload and takes one challenge. */
    method AwaitKey(ports: Ports) returns (r: Result<string, Error>)
      modifies ports`trace
      ensures r == KeyStep(lib, ports.script) && ports.trace == old(ports.trace) + Opening(lib, ports.script)
    {
      hide PayloadStep, DecodeChallenge;
      var payload := Open(ports);
      if payload.Err? {
        return Err(payload.error);
      }
      ports.Do(SendPayload(payload.value));
      if ports.script.payloadErr.Some? {
        return Err(ports.script.payloadErr.value);
      }
      ports.Do(ReceiveChallenge);
      if ports.script.challenge.Err? {
        return Err(ports.script.challenge.error);
      }
      r := DecodeChallenge(lib, ports.script.challenge.value);
    }

    /** agent.Service.Attest. */
    method Attest(ports: Ports)
      returns (err: Option<Error>, ghost polls: seq<ReadReply>, ghost polled: Result<string, Error>)
      modifies ports`trace, ports.clock`now, ports.clock`waits
      ensures KeyStep(lib, ports.script).Ok? ==> PolledTo(polls, polled)
      ensures var o := RunOf(lib, ports.script, |polls|, polled);
        ports.trace == old(ports.trace) + o.trace && err == o.err
    {
      hide KeyStep, Opening, ParseNonce, EncodeResponse;
      polls, polled := [], Err(PlainError);
      var key := AwaitKey(ports);
      if key.Err? {
        return Some(key.error), polls, polled;
      }
      var value;
      value, polls := PollConfig(ports, key.value);
      polled := value;
      if value.Err? {
        return Some(value.error), polls, polled;
      }
      var nonce := ParseNonce(value.value);
      if nonce.Err? {
        return Some(nonce.error), polls, polled;
      }
      var response := EncodeResponse(nonce.value);
      if response.Err? {
        return Some(response.error), polls, polled;
      }
      ports.Do(SendResponse(response.value));
      return ports.script.responseErr, polls, polled;
    }
  }

  // ---------------------------------------------------------------- what the guest never does

  lemma KeyStepIsKey(lib: Library, s: Script)
    requires KeyStep(lib, s).Ok?
    ensures IsConfigKey(KeyStep(lib, s).value)
    ensures s.challenge.Ok? && DecodeChallenge(lib, s.challenge.value) == KeyStep(lib, s)
    ensures |Opening(lib, s)| == 3
  {
    hide PayloadStep;
  }

  lemma OpeningReadsNothing(lib: Library, s: Script)
    ensures forall a :: 0 <= a < |Opening(lib, s)| ==>
              !Opening(lib, s)[a].ReadConfig? && !Opening(lib, s)[a].SendResponse?
  {
    hide PayloadStep;
  }

  /**
   * Whatever the ports do: config is read only after a challenge that decodes to a well-formed key
   * has been received, only under that key, and only before the one response; a response is sent
   * last, at most once, and only when the polled text was the encoding of a nonce, which it carries.
   */
  lemma GuestDiscipline(lib: Library, s: Script, polls: nat, polled: Result<string, Error>, a: nat)
    requires a < |RunOf(lib, s, polls, polled).trace|
    ensures var e, t := RunOf(lib, s, polls, polled).trace[a], RunOf(lib, s, polls, polled).trace;
      && (e.ReadConfig? ==>
            && s.challenge.Ok? && DecodeChallenge(lib, s.challenge.value) == Ok(e.key) && IsConfigKey(e.key)
            && 3 <= a < 3 + polls && t[2].ReceiveChallenge?)
      && (e.SendResponse? ==>
            && a == |t| - 1 && a == 3 + polls && polled.Ok?
            && exists nonce: Nonce :: polled.value == NonceText(nonce) && EncodeResponse(nonce) == Ok(e.response))
  {
    hide DecodeChallenge, PayloadStep, ParseNonce, EncodeResponse, NonceText, IsConfigKey, KeyStep, ResponseStep;
    OpeningReadsNothing(lib, s);
    if KeyStep(lib, s).Ok? {
      KeyStepIsKey(lib, s);
      var open, key := Opening(lib, s), KeyStep(lib, s).value;
      assert a < 3 ==> RunOf(lib, s, polls, polled).trace[a] == open[a];
      assert 3 <= a < 3 + polls ==> RunOf(lib, s, polls, polled).trace[a] == ReadConfig(key);
      if ResponseStep(lib, polled).Ok? {
        ResponseCarriesPolled(lib, polled);
      }
    }
  }

  lemma ResponseCarriesPolled(lib: Library, polled: Result<string, Error>)
    requires ResponseStep(lib, polled).Ok?
    ensures polled.Ok?
    ensures exists nonce: Nonce :: polled.value == NonceText(nonce)
                                   && EncodeResponse(nonce) == ResponseStep(lib, polled)
  {
    hide EncodeResponse;
    var nonce := ParseNonce(polled.value).value;
    ParseNonceExact(polled.value, nonce);
  }

  /** What the server gets to decode: the claims as json.Marshal wrote them, with the canonical UUID. */
  lemma SentPayloadDecodes(lib: Library, s: Script, polls: nat, polled: Result<string, Error>, a: nat)
    requires Contract(lib) && a < |RunOf(lib, s, polls, polled).trace|
    requires RunOf(lib, s, polls, polled).trace[a].SendPayload?
    ensures a == 1 && s.claims.Ok?
    ensures var (c, m) := (s.claims.value, RunOf(lib, s, polls, polled).trace[a].payload);
      && ValidateClaims(lib.parseUUID, c).Ok? && lib.parseUUID(c.uuid).Some?
      && DecodePayload(lib, m) == Ok(Carried(c, lib.parseUUID(c.uuid).value))
  {
    PayloadPlace(lib, s, polls, polled, a);
    hide RunOf, DecodePayload, Carried;
    PayloadRoundTrip(lib, s.claims.value);
  }

  lemma PayloadPlace(lib: Library, s: Script, polls: nat, polled: Result<string, Error>, a: nat)
    requires a < |RunOf(lib, s, polls, polled).trace| && RunOf(lib, s, polls, polled).trace[a].SendPayload?
    ensures a == 1 && s.claims.Ok? && PayloadStep(lib, s).Ok?
    ensures ValidateClaims(lib.parseUUID, s.claims.value).Ok? && EncodePayload(lib, s.claims.value)
        == PayloadStep(lib, s)
    ensures RunOf(lib, s, polls, polled).trace[a] == SendPayload(PayloadStep(lib, s).value)
  {
    hide DecodeChallenge, ResponseStep, EncodePayload;
  }

  // ---------------------------------------------------------------- the first failure decides

  /** The steps of a run, in order, each with its own failure if it came to it. */
  function Failures(lib: Library, s: Script, polled: Result<string, Error>): seq<Option<Error>> {
    [ErrorIn(s.claims),
     if s.claims.Ok? then ErrorIn(ValidateClaims(lib.parseUUID, s.claims.value)) else None,
     if s.claims.Ok? then ErrorIn(EncodePayload(lib, s.claims.value)) else None,
     s.payloadErr,
     ErrorIn(s.challenge),
     if s.challenge.Ok? then ErrorIn(DecodeChallenge(lib, s.challenge.value)) else None,
     ErrorIn(polled),
     if polled.Ok? then ErrorIn(ParseNonce(polled.value)) else None,
     if polled.Ok? && ParseNonce(polled.value).Ok? then ErrorIn(EncodeResponse(ParseNonce(polled.value).value))
     else None,
     s.responseErr]
  }

  /** The number of effects of a run whose first failure is step k, of ten, with this many reads. */
  function EffectsUpTo(k: nat, polls: nat): nat {
    if k <= 2 then 1 else if k == 3 then 2 else if k <= 5 then 3 else if k <= 8 then 3 + polls else 4 + polls
  }

  /**
   * A run returns the error of the first step that failed, with the effects of the steps before it and
   * its own; it returns nil if and only if none failed, the sending of the response included.
   */
  lemma FirstFailureDecides(lib: Library, s: Script, polls: nat, polled: Result<string, Error>)
    ensures var (r, fs) := (RunOf(lib, s, polls, polled), Failures(lib, s, polled));
      && r.err == FirstError(fs)
      && (r.err.None? <==> FirstFailed(fs) == |fs|)
      && |r.trace| == EffectsUpTo(FirstFailed(fs), polls)
      && (FirstFailed(fs) >= 9 ==> r.trace[3 + polls].SendResponse?)
  {
    hide *;
    var fs := Failures(lib, s, polled);
    var k := FirstFailed(fs);
    FailuresAre(lib, s, polled);
    FirstErrorIs(fs);
    if k <= 5 {
      OpeningFails(lib, s, polled, k);
      RunFails(lib, s, polls, polled);
    } else {
      OpeningWorks(lib, s, polled);
      AnswerFails(lib, s, polled, k);
      RunAnswers(lib, s, polls, polled);
    }
    EffectsAre(k, polls);
  }

  lemma FailuresAre(lib: Library, s: Script, polled: Result<string, Error>)
    ensures |Failures(lib, s, polled)| == 10 && Failures(lib, s, polled)[9] == s.responseErr
  {
  }

  lemma EffectsAre(k: nat, polls: nat)
    ensures EffectsUpTo(k, polls) == if k <= 5 then EffectsUpTo(k, 0) else if k <= 8 then 3 + polls else 4 + polls
  {
  }

  lemma RunFails(lib: Library, s: Script, polls: nat, polled: Result<string, Error>)
    requires KeyStep(lib, s).Err?
    ensures RunOf(lib, s, polls, polled) == Outcome(Opening(lib, s), Some(KeyStep(lib, s).error))
  {
    hide KeyStep, Opening;
  }

  lemma RunAnswers(lib: Library, s: Script, polls: nat, polled: Result<string, Error>)
    requires KeyStep(lib, s).Ok? && |Opening(lib, s)| == 3
    ensures var (r, answer) := (RunOf(lib, s, polls, polled), ResponseStep(lib, polled));
      && (answer.Err? ==> r.err == Some(answer.error) && |r.trace| == 3 + polls)
      && (answer.Ok? ==> r.err == s.responseErr && |r.trace| == 4 + polls && r.trace[3 + polls].SendResponse?)
  {
    hide KeyStep, Opening, ResponseStep;
  }

  lemma OpeningFails(lib: Library, s: Script, polled: Result<string, Error>, k: nat)
    requires k <= 5 && Failures(lib, s, polled)[k].Some?
    requires forall j :: 0 <= j < k ==> Failures(lib, s, polled)[j].None?
    ensures KeyStep(lib, s) == Err(Failures(lib, s, polled)[k].value) && |Opening(lib, s)| == EffectsUpTo(k, 0)
  {
    hide ValidateClaims, EncodePayload, DecodeChallenge, ParseNonce, EncodeResponse;
    var fs := Failures(lib, s, polled);
    assert k > 0 ==> fs[0].None?;
    assert k > 1 ==> fs[1].None?;
    assert k > 2 ==> fs[2].None?;
    assert k > 3 ==> fs[3].None?;
    assert k > 4 ==> fs[4].None?;
  }

  lemma OpeningWorks(lib: Library, s: Script, polled: Result<string, Error>)
    requires forall j :: 0 <= j <= 5 ==> Failures(lib, s, polled)[j].None?
    ensures KeyStep(lib, s).Ok? && |Opening(lib, s)| == 3
  {
    hide ValidateClaims, EncodePayload, DecodeChallenge, ParseNonce, EncodeResponse;
    var fs := Failures(lib, s, polled);
    assert fs[0].None? && fs[1].None? && fs[2].None? && fs[3].None? && fs[4].None? && fs[5].None?;
  }

  lemma AnswerFails(lib: Library, s: Script, polled: Result<string, Error>, k: nat)
    requires 6 <= k <= 10 && (k < 10 ==> Failures(lib, s, polled)[k].Some?)
    requires forall j :: 6 <= j < k ==> Failures(lib, s, polled)[j].None?
    ensures k < 9 ==> ResponseStep(lib, polled) == Err(Failures(lib, s, polled)[k].value)
    ensures k >= 9 ==>
      && ResponseStep(lib, polled).Ok?
      && s.responseErr == (if k == 9 then Failures(lib, s, polled)[9] else None)
  {
    hide ValidateClaims, EncodePayload, DecodeChallenge, ParseNonce, EncodeResponse;
    var fs := Failures(lib, s, polled);
    assert k > 6 ==> fs[6].None?;
    assert k > 7 ==> fs[7].None?;
    assert k > 8 ==> fs[8].None?;
    assert k > 9 ==> fs[9].None?;
  }
}
