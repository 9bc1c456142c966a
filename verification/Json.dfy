/**
 * JSON values (RFC 8259) as trees and as token streams, the reader of encoding/json, and the
 * recursive walker that rejects repeated member names.
 */
module Json {
  import opened Base

  /** A number literal: an integer, or anything with a fraction or an exponent. */
  datatype Number = Integer(n: int) | Fractional

  datatype Scalar = Null | Bool(b: bool) | Num(num: Number)

  datatype Value =
    | Lit(scalar: Scalar)
    | Str(text: string)
    | Arr(items: seq<Value>)
    | Obj(members: seq<Member>)

  datatype Member = Member(name: string, value: Value)

  /** What json.Decoder.Token returns; commas and colons never surface. */
  datatype Token = OpenObject | CloseObject | OpenArray | CloseArray | StringTok(s: string) | ScalarTok(v: Scalar)

  // ---------------------------------------------------------------- writing

  /** The tokens of a value, followed by rest. */
  function Write(v: Value, rest: seq<Token>): (ts: seq<Token>)
    ensures |ts| > |rest| && ts[0] != CloseArray && ts[0] != CloseObject
    decreases v
  {
    match v
    case Lit(s) => [ScalarTok(s)] + rest
    case Str(s) => [StringTok(s)] + rest
    case Arr(items) => [OpenArray] + WriteItems(items, rest)
    case Obj(members) => [OpenObject] + WriteMembers(members, rest)
  }

  function WriteItems(vs: seq<Value>, rest: seq<Token>): (ts: seq<Token>)
    ensures |ts| > |rest|
    decreases vs
  {
    if vs == [] then [CloseArray] + rest else Write(vs[0], WriteItems(vs[1..], rest))
  }

  function WriteMembers(ms: seq<Member>, rest: seq<Token>): (ts: seq<Token>)
    ensures |ts| > |rest|
    decreases ms
  {
    if ms == [] then [CloseObject] + rest
    else [StringTok(ms[0].name)] + Write(ms[0].value, WriteMembers(ms[1..], rest))
  }

  function Tokens(v: Value): seq<Token> { Write(v, []) }

  /** Write puts the tokens of the value in front of rest and changes neither. */
  lemma {:induction false} WriteConcatenates(v: Value, front: seq<Token>, rest: seq<Token>)
    ensures Write(v, front + rest) == Write(v, front) + rest
    decreases v
  {
    match v
    case Lit(s) => assert [ScalarTok(s)] + (front + rest) == [ScalarTok(s)] + front + rest;
    case Str(s) => assert [StringTok(s)] + (front + rest) == [StringTok(s)] + front + rest;
    case Arr(items) => WriteItemsConcatenates(items, front, rest);
    case Obj(members) => WriteMembersConcatenates(members, front, rest);
  }

  lemma {:induction false} WriteItemsConcatenates(vs: seq<Value>, front: seq<Token>, rest: seq<Token>)
    ensures WriteItems(vs, front + rest) == WriteItems(vs, front) + rest
    decreases vs
  {
    if vs == [] {
      assert [CloseArray] + (front + rest) == [CloseArray] + front + rest;
    } else {
      WriteItemsConcatenates(vs[1..], front, rest);
      WriteConcatenates(vs[0], WriteItems(vs[1..], front), rest);
    }
  }

  lemma {:induction false} WriteMembersConcatenates(ms: seq<Member>, front: seq<Token>, rest: seq<Token>)
    ensures WriteMembers(ms, front + rest) == WriteMembers(ms, front) + rest
    decreases ms
  {
    if ms == [] {
      assert [CloseObject] + (front + rest) == [CloseObject] + front + rest;
    } else {
      WriteMembersConcatenates(ms[1..], front, rest);
      WriteConcatenates(ms[0].value, WriteMembers(ms[1..], front), rest);
    }
  }

  // ---------------------------------------------------------------- reading

  /** One value from the front of a stream, and what is left. None: the decoder reports an error. */
  function ReadValue(ts: seq<Token>): (r: Option<(Value, seq<Token>)>)
    ensures r.Some? ==> |r.value.1| < |ts|
    decreases |ts|, 0
  {
    if ts == [] then None
    else
      match ts[0]
      case ScalarTok(s) => Some((Lit(s), ts[1..]))
      case StringTok(s) => Some((Str(s), ts[1..]))
      case OpenArray =>
        (match ReadItems(ts[1..])
         case None => None
         case Some((items, rest)) => Some((Arr(items), rest)))
      case OpenObject =>
        (match ReadMembers(ts[1..])
         case None => None
         case Some((members, rest)) => Some((Obj(members), rest)))
      case _ => None
  }

  function ReadItems(ts: seq<Token>): (r: Option<(seq<Value>, seq<Token>)>)
    ensures r.Some? ==> |r.value.1| < |ts|
    decreases |ts|, 1
  {
    if ts == [] then None
    else if ts[0] == CloseArray then Some(([], ts[1..]))
    else
      match ReadValue(ts)
      case None => None
      case Some((v, rest)) =>
        match ReadItems(rest)
        case None => None
        case Some((vs, rest')) => Some(([v] + vs, rest'))
  }

  function ReadMembers(ts: seq<Token>): (r: Option<(seq<Member>, seq<Token>)>)
    ensures r.Some? ==> |r.value.1| < |ts|
    decreases |ts|, 1
  {
    if ts == [] then None
    else if ts[0] == CloseObject then Some(([], ts[1..]))
    else if !ts[0].StringTok? then None
    else
      match ReadValue(ts[1..])
      case None => None
      case Some((v, rest)) =>
        match ReadMembers(rest)
        case None => None
        case Some((ms, rest')) => Some(([Member(ts[0].s, v)] + ms, rest'))
  }

  lemma {:induction false} ReadWritten(v: Value, rest: seq<Token>)
    ensures ReadValue(Write(v, rest)) == Some((v, rest))
    decreases v
  {
    match v
    case Lit(s) =>
    case Str(s) =>
    case Arr(items) => ReadWrittenItems(items, rest);
    case Obj(members) => ReadWrittenMembers(members, rest);
  }

  lemma {:induction false} ReadWrittenItems(vs: seq<Value>, rest: seq<Token>)
    ensures ReadItems(WriteItems(vs, rest)) == Some((vs, rest))
    decreases vs
  {
    if vs != [] {
      ReadWritten(vs[0], WriteItems(vs[1..], rest));
      ReadWrittenItems(vs[1..], rest);
      assert vs == [vs[0]] + vs[1..];
    }
  }

  lemma {:induction false} ReadWrittenMembers(ms: seq<Member>, rest: seq<Token>)
    ensures ReadMembers(WriteMembers(ms, rest)) == Some((ms, rest))
    decreases ms
  {
    if ms != [] {
      ReadWritten(ms[0].value, WriteMembers(ms[1..], rest));
      ReadWrittenMembers(ms[1..], rest);
      assert ms == [Member(ms[0].name, ms[0].value)] + ms[1..];
    }
  }

  /** What the reader consumes are the tokens of the value it returns. */
  lemma {:induction false} ReadConsumes(ts: seq<Token>)
    requires ReadValue(ts).Some?
    ensures ts == Write(ReadValue(ts).value.0, ReadValue(ts).value.1)
    decreases |ts|, 0
  {
    assert ts == [ts[0]] + ts[1..];
    if ts[0] == OpenArray {
      ReadItemsConsumes(ts[1..]);
    } else if ts[0] == OpenObject {
      ReadMembersConsumes(ts[1..]);
    }
  }

  lemma {:induction false} ReadItemsConsumes(ts: seq<Token>)
    requires ReadItems(ts).Some?
    ensures ts == WriteItems(ReadItems(ts).value.0, ReadItems(ts).value.1)
    decreases |ts|, 1
  {
    if ts[0] == CloseArray {
      assert ts == [CloseArray] + ts[1..];
    } else {
      var (v, rest) := ReadValue(ts).value;
      var (vs, rest') := ReadItems(rest).value;
      ReadConsumes(ts);
      ReadItemsConsumes(rest);
      assert ([v] + vs)[1..] == vs;
    }
  }

  lemma {:induction false} ReadMembersConsumes(ts: seq<Token>)
    requires ReadMembers(ts).Some?
    ensures ts == WriteMembers(ReadMembers(ts).value.0, ReadMembers(ts).value.1)
    decreases |ts|, 1
  {
    assert ts == [ts[0]] + ts[1..];
    if ts[0] != CloseObject {
      var (v, rest) := ReadValue(ts[1..]).value;
      var (ms, rest') := ReadMembers(rest).value;
      ReadConsumes(ts[1..]);
      ReadMembersConsumes(rest);
      assert ([Member(ts[0].s, v)] + ms)[1..] == ms;
    }
  }

  // ---------------------------------------------------------------- duplicate names

  /** No object at any depth repeats a member name. */
  predicate DupFree(v: Value)
    decreases v
  {
    match v
    case Lit(_) => true
    case Str(_) => true
    case Arr(items) => forall i :: 0 <= i < |items| ==> DupFree(items[i])
    case Obj(members) =>
      && (forall i, j :: 0 <= i < j < |members| ==> members[i].name != members[j].name)
      && (forall i :: 0 <= i < |members| ==> DupFree(members[i].value))
  }

  /** The walker on a stream: the rest after one value, or None when it reports an error. */
  function WalkValue(ts: seq<Token>): (r: Option<seq<Token>>)
    ensures r.Some? ==> |r.value| < |ts|
    decreases |ts|, 0
  {
    if ts == [] then None
    else
      match ts[0]
      case ScalarTok(_) => Some(ts[1..])
      case StringTok(_) => Some(ts[1..])
      case OpenArray => WalkItems(ts[1..])
      case OpenObject => WalkMembers(ts[1..], {})
      case _ => None
  }

  function WalkItems(ts: seq<Token>): (r: Option<seq<Token>>)
    ensures r.Some? ==> |r.value| < |ts|
    decreases |ts|, 1
  {
    if ts == [] then None
    else if ts[0] == CloseArray then Some(ts[1..])
    else
      match WalkValue(ts)
      case None => None
      case Some(rest) => WalkItems(rest)
  }

  function WalkMembers(ts: seq<Token>, seen: set<string>): (r: Option<seq<Token>>)
    ensures r.Some? ==> |r.value| < |ts|
    decreases |ts|, 1
  {
    if ts == [] then None
    else if ts[0] == CloseObject then Some(ts[1..])
    else if !ts[0].StringTok? || ts[0].s in seen then None
    else
      match WalkValue(ts[1..])
      case None => None
      case Some(rest) => WalkMembers(rest, seen + {ts[0].s})
  }

  /** Distinct from each other and from the names already seen, with duplicate-free values. */
  predicate FreshMembers(ms: seq<Member>, seen: set<string>) {
    && (forall i, j :: 0 <= i < j < |ms| ==> ms[i].name != ms[j].name)
    && (forall i :: 0 <= i < |ms| ==> ms[i].name !in seen && DupFree(ms[i].value))
  }

  lemma FreshStep(ms: seq<Member>, seen: set<string>)
    requires ms != []
    ensures FreshMembers(ms, seen) <==>
            ms[0].name !in seen && DupFree(ms[0].value) && FreshMembers(ms[1..], seen + {ms[0].name})
  {
    var tail := ms[1..];
    if FreshMembers(tail, seen + {ms[0].name}) && ms[0].name !in seen && DupFree(ms[0].value) {
      forall i, j | 0 <= i < j < |ms| ensures ms[i].name != ms[j].name {
        assert ms[j] == tail[j - 1];
        if i > 0 { assert ms[i] == tail[i - 1]; }
      }
      forall i | 0 <= i < |ms| ensures ms[i].name !in seen && DupFree(ms[i].value) {
        if i > 0 { assert ms[i] == tail[i - 1]; }
      }
    }
    if FreshMembers(ms, seen) {
      forall i | 0 <= i < |tail| ensures tail[i].name !in seen + {ms[0].name} && DupFree(tail[i].value) {
        assert tail[i] == ms[i + 1];
      }
      forall i, j | 0 <= i < j < |tail| ensures tail[i].name != tail[j].name {
        assert tail[i] == ms[i + 1] && tail[j] == ms[j + 1];
      }
    }
  }

  /**
   * The walker on the tokens of any value followed by anything: it succeeds exactly when no object
   * at any depth repeats a name, and then leaves exactly what follows.
   */
  lemma {:induction false} WalkWritten(v: Value, rest: seq<Token>)
    ensures WalkValue(Write(v, rest)) == if DupFree(v) then Some(rest) else None
    decreases v
  {
    match v
    case Lit(s) =>
    case Str(s) =>
    case Arr(items) => WalkWrittenItems(items, rest);
    case Obj(members) =>
      WalkWrittenMembers(members, {}, rest);
      assert DupFree(v) <==> FreshMembers(members, {});
  }

  lemma {:induction false} WalkWrittenItems(vs: seq<Value>, rest: seq<Token>)
    ensures WalkItems(WriteItems(vs, rest))
         == if forall i :: 0 <= i < |vs| ==> DupFree(vs[i]) then Some(rest) else None
    decreases vs
  {
    if vs != [] {
      var tail := vs[1..];
      WalkWritten(vs[0], WriteItems(tail, rest));
      WalkWrittenItems(tail, rest);
      assert forall i :: 0 < i < |vs| ==> vs[i] == tail[i - 1];
      assert forall i :: 0 <= i < |tail| ==> tail[i] == vs[i + 1];
    }
  }

  lemma {:induction false} WalkWrittenMembers(ms: seq<Member>, seen: set<string>, rest: seq<Token>)
    ensures WalkMembers(WriteMembers(ms, rest), seen) == if FreshMembers(ms, seen) then Some(rest) else None
    decreases ms
  {
    if ms != [] {
      WalkWritten(ms[0].value, WriteMembers(ms[1..], rest));
      WalkWrittenMembers(ms[1..], seen + {ms[0].name}, rest);
      FreshStep(ms, seen);
    }
  }

  /** A stream the walker gets through is one the reader gets through, with the same rest. */
  lemma {:induction false} WalkReads(ts: seq<Token>)
    requires WalkValue(ts).Some?
    ensures ReadValue(ts).Some? && ReadValue(ts).value.1 == WalkValue(ts).value
    decreases |ts|, 0
  {
    if ts[0] == OpenArray {
      WalkItemsReads(ts[1..]);
    } else if ts[0] == OpenObject {
      WalkMembersReads(ts[1..], {});
    }
  }

  lemma {:induction false} WalkItemsReads(ts: seq<Token>)
    requires WalkItems(ts).Some?
    ensures ReadItems(ts).Some? && ReadItems(ts).value.1 == WalkItems(ts).value
    decreases |ts|, 1
  {
    if ts[0] != CloseArray {
      WalkReads(ts);
      WalkItemsReads(WalkValue(ts).value);
    }
  }

  lemma {:induction false} WalkMembersReads(ts: seq<Token>, seen: set<string>)
    requires WalkMembers(ts, seen).Some?
    ensures ReadMembers(ts).Some? && ReadMembers(ts).value.1 == WalkMembers(ts, seen).value
    decreases |ts|, 1
  {
    if ts[0] != CloseObject {
      WalkReads(ts[1..]);
      WalkMembersReads(WalkValue(ts[1..]).value, seen + {ts[0].s});
    }
  }

  /** On every stream at all: the walker accepts exactly the duplicate-free values, tokens first, rest after. */
  lemma WalkerAccepts(ts: seq<Token>, rest: seq<Token>)
    ensures WalkValue(ts) == Some(rest) <==> exists v :: DupFree(v) && ts == Tokens(v) + rest
  {
    forall v ensures Tokens(v) + rest == Write(v, rest) {
      assert [] + rest == rest;
      WriteConcatenates(v, [], rest);
    }
    if WalkValue(ts) == Some(rest) {
      WalkReads(ts);
      ReadConsumes(ts);
      var v := ReadValue(ts).value.0;
      WalkWritten(v, rest);
      assert DupFree(v) && ts == Tokens(v) + rest;
    }
    if v :| DupFree(v) && ts == Tokens(v) + rest {
      WalkWritten(v, rest);
    }
  }

  // ---------------------------------------------------------------- the decoder and the loops

  /** Where the decoder stands inside the innermost open delimiter. */
  datatype Frame = InArray | AtName | AtValue

  /**
   * json.Decoder over the tokens of one message. Its contract: Token returns delimiters properly
   * nested and matched, and only a string in the position of a member name.
   */
  class Decoder {
    const tokens: seq<Token>
    var pos: nat
    var frames: seq<Frame>

    constructor (tokens: seq<Token>)
      ensures this.tokens == tokens && pos == 0 && frames == []
    {
      this.tokens, pos, frames := tokens, 0, [];
    }

    ghost predicate Valid() reads this { pos <= |tokens| }

    function Left(): seq<Token>
      requires pos <= |tokens|
      reads this
    {
      tokens[pos..]
    }

    /** A value may start here. */
    ghost predicate AwaitsValue() reads this {
      frames == [] || frames[|frames| - 1] != AtName
    }

    /** Whether another element or member follows before the closing delimiter. */
    method More() returns (more: bool)
      requires Valid()
      ensures more <==> Left() != [] && Left()[0] != CloseArray && Left()[0] != CloseObject
    {
      more := pos < |tokens| && tokens[pos] != CloseArray && tokens[pos] != CloseObject;
    }

    static function AfterValue(frames: seq<Frame>): seq<Frame> {
      if frames != [] && frames[|frames| - 1] == AtValue then frames[..|frames| - 1] + [AtName] else frames
    }

    /** The frames after one token; None when the token may not stand here. */
    static function Advance(frames: seq<Frame>, t: Token): Option<seq<Frame>> {
      var top := if frames == [] then AtValue else frames[|frames| - 1];
      match t
      case CloseArray => if frames != [] && top == InArray then Some(frames[..|frames| - 1]) else None
      case CloseObject => if frames != [] && top == AtName then Some(frames[..|frames| - 1]) else None
      case StringTok(_) =>
        if top == AtName then Some(frames[..|frames| - 1] + [AtValue]) else Some(AfterValue(frames))
      case ScalarTok(_) => if top != AtName then Some(AfterValue(frames)) else None
      case OpenArray => if top != AtName then Some(AfterValue(frames) + [InArray]) else None
      case OpenObject => if top != AtName then Some(AfterValue(frames) + [AtName]) else None
    }

    /** The next token; None is an error, after which the decoder is not used again. */
    method Token() returns (tok: Option<Token>)
      requires Valid()
      modifies this`pos, this`frames
      ensures Valid()
      ensures tok.Some? <==> old(Left()) != [] && Advance(old(frames), old(Left())[0]).Some?
      ensures tok.Some? ==> tok.value == old(Left())[0] && Left() == old(Left())[1..]
                            && frames == Advance(old(frames), tok.value).value
    {
      if pos == |tokens| {
        return None;
      }
      var t := tokens[pos];
      var next := Advance(frames, t);
      if next.None? {
        return None;
      }
      frames := next.value;
      pos := pos + 1;
      return Some(t);
    }
  }

  /** rejectDuplicateValue. */
  method RejectDuplicateValue(dec: Decoder) returns (ok: bool)
    requires dec.Valid() && dec.AwaitsValue()
    modifies dec`pos, dec`frames
    ensures dec.Valid()
    ensures ok <==> WalkValue(old(dec.Left())).Some?
    ensures ok ==> dec.Left() == WalkValue(old(dec.Left())).value
                   && dec.frames == Decoder.AfterValue(old(dec.frames))
    decreases |dec.Left()|, 0
  {
    var tok := dec.Token();
    if tok.None? {
      return false;
    }
    match tok.value
    case ScalarTok(_) => ok := true;
    case StringTok(_) => ok := true;
    case OpenObject => ok := RejectDuplicateObject(dec);
    case OpenArray => ok := RejectDuplicateArray(dec);
    case _ => ok := false;   // a closing delimiter is not a value
  }

  /** rejectDuplicateObject: grows the set of names seen in this object. */
  method RejectDuplicateObject(dec: Decoder) returns (ok: bool)
    requires dec.Valid() && dec.frames != [] && dec.frames[|dec.frames| - 1] == AtName
    modifies dec`pos, dec`frames
    ensures dec.Valid()
    ensures ok <==> WalkMembers(old(dec.Left()), {}).Some?
    ensures ok ==> dec.Left() == WalkMembers(old(dec.Left()), {}).value
                   && dec.frames == old(dec.frames[..|dec.frames| - 1])
    decreases |dec.Left()|, 1
  {
    ghost var start, outer := dec.Left(), dec.frames;
    var seen: set<string> := {};
    var more := dec.More();
    while more
      invariant dec.Valid() && dec.frames == outer && |dec.Left()| <= |start|
      invariant WalkMembers(start, {}) == WalkMembers(dec.Left(), seen)
      invariant more <==> dec.Left() != [] && dec.Left()[0] != CloseArray && dec.Left()[0] != CloseObject
      decreases |dec.Left()|
    {
      var keyTok := dec.Token();
      if keyTok.None? || !keyTok.value.StringTok? {
        return false;
      }
      var key := keyTok.value.s;
      if key in seen {
        return false;
      }
      seen := seen + {key};
      var inner := RejectDuplicateValue(dec);
      if !inner {
        return false;
      }
      assert dec.frames == outer;
      more := dec.More();
    }
    var tok := dec.Token();
    return tok.Some?;
  }

  /** rejectDuplicateArray. */
  method RejectDuplicateArray(dec: Decoder) returns (ok: bool)
    requires dec.Valid() && dec.frames != [] && dec.frames[|dec.frames| - 1] == InArray
    modifies dec`pos, dec`frames
    ensures dec.Valid()
    ensures ok <==> WalkItems(old(dec.Left())).Some?
    ensures ok ==> dec.Left() == WalkItems(old(dec.Left())).value
                   && dec.frames == old(dec.frames[..|dec.frames| - 1])
    decreases |dec.Left()|, 1
  {
    ghost var start, outer := dec.Left(), dec.frames;
    var more := dec.More();
    while more
      invariant dec.Valid() && dec.frames == outer && |dec.Left()| <= |start|
      invariant WalkItems(start) == WalkItems(dec.Left())
      invariant more <==> dec.Left() != [] && dec.Left()[0] != CloseArray && dec.Left()[0] != CloseObject
      decreases |dec.Left()|
    {
      var inner := RejectDuplicateValue(dec);
      if !inner {
        return false;
      }
      more := dec.More();
    }
    var tok := dec.Token();
    return tok.Some?;
  }

  /**
   * rejectDuplicateNames over a whole message: accepted exactly when the message is one
   * duplicate-free value and nothing else. clean is false when the bytes after the last token are
   * not white space; the decoder then reports a syntax error instead of the end of the input.
   */
  method RejectDuplicateNames(tokens: seq<Token>, clean: bool) returns (ok: bool)
    ensures ok <==> clean && WalkValue(tokens) == Some([])
    ensures ok <==> clean && exists v :: DupFree(v) && tokens == Tokens(v)
  {
    var dec := new Decoder(tokens);
    assert dec.Left() == tokens;
    var walked := RejectDuplicateValue(dec);
    ok := walked && dec.pos == |tokens| && clean;
    WalkerAccepts(tokens, []);
    assert forall v :: Tokens(v) + [] == Tokens(v);
  }
}
