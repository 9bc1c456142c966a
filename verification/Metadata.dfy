/** The guest's cloud-init metadata: the first value of each of the two keys wins. */
module Metadata {
  import opened Base

  /** The two generated values; None is a key that never occurred. */
  datatype Meta = Meta(instanceID: Option<string>, hostname: Option<string>)

  const NOTHING := Meta(None, None)

  /** strings.TrimSpace; which characters count as space does not matter here. */
  type Trimmer = string -> string

  /** strings.SplitSeq on line feeds: always at least one line. */
  function Lines(raw: string): (ls: seq<string>)
    ensures |ls| > 0
  {
    if raw == "" then [""]
    else
      var tail := Lines(raw[1..]);
      if raw[0] == '\n' then [""] + tail else [[raw[0]] + tail[0]] + tail[1..]
  }

  /** strings.Cut at the first colon. */
  function Cut(s: string): Option<(string, string)> {
    if s == "" then None
    else if s[0] == ':' then Some(("", s[1..]))
    else
      match Cut(s[1..])
      case None => None
      case Some((key, value)) => Some(([s[0]] + key, value))
  }

  /** What one line says. */
  function LineMeta(trim: Trimmer, line: string): Meta {
    match Cut(trim(line))
    case None => NOTHING
    case Some((key, value)) =>
      if trim(key) == "instance-id" then Meta(Some(trim(value)), None)
      else if trim(key) == "local-hostname" then Meta(None, Some(trim(value)))
      else NOTHING
  }

  function Or<T>(first: Option<T>, second: Option<T>): Option<T> { if first.Some? then first else second }

  /** a, with b for whichever keys a never mentions. */
  function FilledBy(a: Meta, b: Meta): Meta {
    Meta(Or(a.instanceID, b.instanceID), Or(a.hostname, b.hostname))
  }

  function LinesMeta(trim: Trimmer, lines: seq<string>): Meta {
    if lines == [] then NOTHING else FilledBy(LineMeta(trim, lines[0]), LinesMeta(trim, lines[1..]))
  }

  function MetaOf(trim: Trimmer, raw: string): Meta { LinesMeta(trim, Lines(raw)) }

  lemma {:induction false} LinesMetaConcat(trim: Trimmer, a: seq<string>, b: seq<string>)
    ensures LinesMeta(trim, a + b) == FilledBy(LinesMeta(trim, a), LinesMeta(trim, b))
  {
    if a == [] {
      assert a + b == b;
    } else {
      LinesMetaConcat(trim, a[1..], b);
      assert (a + b)[1..] == a[1..] + b;
    }
  }

  /** parseMetadata: one pass over the lines with a flag for each key seen. */
  method ParseMetadata(trim: Trimmer, raw: string) returns (instanceID: string, hostname: string)
    ensures forall v :: IsFirst(trim, Lines(raw), false, v) ==> instanceID == v
    ensures forall v :: IsFirst(trim, Lines(raw), true, v) ==> hostname == v
    ensures (forall v :: !IsFirst(trim, Lines(raw), false, v)) ==> instanceID == ""
    ensures (forall v :: !IsFirst(trim, Lines(raw), true, v)) ==> hostname == ""
    ensures var m := MetaOf(trim, raw);
      && instanceID == (if m.instanceID.Some? then m.instanceID.value else "")
      && hostname == (if m.hostname.Some? then m.hostname.value else "")
  {
    instanceID, hostname := "", "";
    var sawID, sawHost := false, false;
    var lines := Lines(raw);
    var n := 0;
    while n < |lines|
      invariant 0 <= n <= |lines|
      invariant var m := LinesMeta(trim, lines[..n]);
        && sawID == m.instanceID.Some? && sawHost == m.hostname.Some?
        && instanceID == (if sawID then m.instanceID.value else "")
        && hostname == (if sawHost then m.hostname.value else "")
    {
      var line := lines[n];
      assert lines[..n + 1] == lines[..n] + [line];
      LinesMetaConcat(trim, lines[..n], [line]);
      assert LinesMeta(trim, [line]) == LineMeta(trim, line);
      n := n + 1;
      var cut := Cut(trim(line));
      if cut.None? {
        continue;
      }
      var key, value := trim(cut.value.0), cut.value.1;
      if key == "instance-id" {
        if !sawID {
          instanceID, sawID := trim(value), true;
        }
      } else if key == "local-hostname" {
        if !sawHost {
          hostname, sawHost := trim(value), true;
        }
      }
    }
    assert lines[..n] == lines;
    MetaIsFirst(trim, lines);
  }

  /** Puts one character in front of the text. */
  function Push(c: char, ls: seq<string>): seq<string>
    requires |ls| > 0
  {
    if c == '\n' then [""] + ls else [[c] + ls[0]] + ls[1..]
  }

  lemma LinesCons(c: char, s: string)
    ensures Lines([c] + s) == Push(c, Lines(s))
  {
    assert ([c] + s)[1..] == s;
  }

  lemma PushConcat(c: char, a: seq<string>, b: seq<string>)
    requires |a| > 0
    ensures Push(c, a + b) == Push(c, a) + b
  {
    assert (a + b)[1..] == a[1..] + b;
  }

  lemma {:induction false} LinesConcat(a: string, b: string)
    ensures Lines(a + "\n" + b) == Lines(a) + Lines(b)
    decreases a, 1
  {
    if a == "" {
      LinesCons('\n', b);
      assert a + "\n" + b == ['\n'] + b;
    } else {
      LinesStep(a, b);
    }
  }

  lemma {:induction false} LinesStep(a: string, b: string)
    requires a != ""
    ensures Lines(a + "\n" + b) == Lines(a) + Lines(b)
    decreases a, 0
  {
    hide Lines, Push;
    var rest := a[1..] + "\n" + b;
    LinesConcat(a[1..], b);
    LinesCons(a[0], rest);
    LinesCons(a[0], a[1..]);
    PushConcat(a[0], Lines(a[1..]), Lines(b));
    assert a == [a[0]] + a[1..];
    assert a + "\n" + b == [a[0]] + rest;
  }

  /**
   * Parsing is compositional: a followed by b means a, filled in by b for the keys a never mentions.
   * So what operators append never changes an identity that was generated before it.
   */
  lemma FirstWins(trim: Trimmer, a: string, b: string)
    ensures MetaOf(trim, a + "\n" + b) == FilledBy(MetaOf(trim, a), MetaOf(trim, b))
  {
    LinesConcat(a, b);
    LinesMetaConcat(trim, Lines(a), Lines(b));
  }

  // ---------------------------------------------------------------- what a line says

  /** The first colon of a line is at i. */
  ghost predicate ColonAt(s: string, i: nat) { i < |s| && s[i] == ':' && ':' !in s[..i] }

  lemma {:induction false} CutExactly(s: string, i: nat)
    ensures ':' !in s <==> Cut(s) == None
    ensures ColonAt(s, i) ==> Cut(s) == Some((s[..i], s[i + 1..]))
  {
    if s != "" && s[0] != ':' {
      CutExactly(s[1..], if i > 0 then i - 1 else 0);
      if ColonAt(s, i) {
        assert s[..i] == [s[0]] + s[1..][..i - 1];
        assert s[1..][i..] == s[i + 1..];
      }
    }
  }

  /**
   * A line without a colon says nothing. With its first colon at i, the trimmed line gives the
   * instance ID or the hostname if the trimmed key is exactly that, and the value is trimmed.
   */
  lemma LineExactly(trim: Trimmer, line: string, i: nat)
    ensures ':' !in trim(line) ==> LineMeta(trim, line) == Meta(None, None)
    ensures ColonAt(trim(line), i) ==>
      var (m, key, value) := (LineMeta(trim, line), trim(trim(line)[..i]), trim(trim(line)[i + 1..]));
      && m.instanceID == (if key == "instance-id" then Some(value) else None)
      && m.hostname == (if key == "local-hostname" then Some(value) else None)
  {
    CutExactly(trim(line), i);
  }

  /** What line says for one of the keys. */
  function Said(trim: Trimmer, line: string, host: bool): Option<string> {
    if host then LineMeta(trim, line).hostname else LineMeta(trim, line).instanceID
  }

  /** Line n is the first that has the key, and this is its value. */
  ghost predicate FirstAt(trim: Trimmer, lines: seq<string>, host: bool, n: nat, value: string) {
    && n < |lines| && Said(trim, lines[n], host) == Some(value)
    && forall k :: 0 <= k < n ==> Said(trim, lines[k], host) == None
  }

  ghost predicate IsFirst(trim: Trimmer, lines: seq<string>, host: bool, value: string) {
    exists n: nat :: FirstAt(trim, lines, host, n, value)
  }

  /** The metadata are, for each key, what the first line that has it says. */
  lemma {:induction false} MetaIsFirst(trim: Trimmer, lines: seq<string>)
    ensures forall v :: LinesMeta(trim, lines).instanceID == Some(v) <==> IsFirst(trim, lines, false, v)
    ensures forall v :: LinesMeta(trim, lines).hostname == Some(v) <==> IsFirst(trim, lines, true, v)
  {
    if lines != [] {
      hide LineMeta;
      MetaIsFirst(trim, lines[1..]);
      forall v, host ensures IsFirst(trim, lines, host, v) <==>
                               if Said(trim, lines[0], host).Some? then Said(trim, lines[0], host).value == v
                               else IsFirst(trim, lines[1..], host, v) {
        FirstShift(trim, lines, host, v);
      }
    }
  }

  lemma FirstShift(trim: Trimmer, lines: seq<string>, host: bool, v: string)
    requires lines != []
    ensures IsFirst(trim, lines, host, v) <==>
              if Said(trim, lines[0], host).Some? then Said(trim, lines[0], host).value == v
              else IsFirst(trim, lines[1..], host, v)
  {
    hide Said;
    var tail := lines[1..];
    assert forall k :: 0 <= k < |tail| ==> tail[k] == lines[k + 1];
    if Said(trim, lines[0], host) == Some(v) {
      assert FirstAt(trim, lines, host, 0, v);
    }
    if n: nat :| FirstAt(trim, tail, host, n, v) && Said(trim, lines[0], host).None? {
      assert forall k :: 0 < k < n + 1 ==> lines[k] == tail[k - 1];
      assert FirstAt(trim, lines, host, n + 1, v);
    }
    if n: nat :| FirstAt(trim, lines, host, n, v) && n > 0 {
      assert FirstAt(trim, tail, host, n - 1, v);
    }
  }

  /** The lines joined by line feeds. */
  function Joined(lines: seq<string>): string
    requires |lines| > 0
  {
    if |lines| == 1 then lines[0] else lines[0] + "\n" + Joined(lines[1..])
  }

  /** The lines are the text cut at exactly its line feeds. */
  lemma {:induction false} LinesExactly(raw: string)
    ensures Joined(Lines(raw)) == raw
    ensures forall k :: 0 <= k < |Lines(raw)| ==> '\n' !in Lines(raw)[k]
  {
    if raw != "" {
      LinesExactly(raw[1..]);
      var tail := Lines(raw[1..]);
      assert raw == [raw[0]] + raw[1..];
      if raw[0] == '\n' {
        assert ([""] + tail)[1..] == tail;
      } else {
        assert ([[raw[0]] + tail[0]] + tail[1..])[1..] == tail[1..];
      }
    }
  }
}
