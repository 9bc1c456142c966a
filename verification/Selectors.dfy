/** Selector construction from an API snapshot, tied to a set-level specification. */
module Selectors {
  import opened Base
  import opened Strings
  import opened Attest

  const MAX_SELECTORS := 100
  const MAX_VALUE_BYTES := 32768

  /** The UTF-8 byte length after the first colon; 0 when there is none. */
  function ValueLen(selector: string): nat {
    if selector == "" then 0
    else if selector[0] == ':' then |selector| - 1
    else ValueLen(selector[1..])
  }

  function ValueBytes(xs: seq<string>): nat {
    if xs == [] then 0 else ValueBytes(xs[..|xs| - 1]) + ValueLen(xs[|xs| - 1])
  }

  function ProfileSelectors(profiles: seq<string>): seq<string> {
    if profiles == [] then []
    else ProfileSelectors(profiles[..|profiles| - 1]) + ["profile:" + profiles[|profiles| - 1]]
  }

  function UserSelectors(keys: seq<string>, config: map<string, string>): seq<string> {
    if keys == [] then []
    else
      var before := UserSelectors(keys[..|keys| - 1], config);
      var key := keys[|keys| - 1];
      if key in config then before + [key + ":" + config[key]] else before
  }

  function IdentitySelectors(i: Instance, id: string): seq<string> {
    ["project:" + i.project, "name:" + i.name, "location:" + i.location, "uuid:" + id]
  }

  /** Every selector the loops append, in order and with repetitions. */
  function Generated(i: Instance, id: string, keys: seq<string>): seq<string> {
    IdentitySelectors(i, id) + ProfileSelectors(i.profiles) + UserSelectors(keys, i.expandedConfig)
  }

  predicate Reserved(keys: seq<string>) {
    exists k :: k in keys && HasPrefix(k, KEY_PREFIX)
  }

  function SelectorsOf(i: Instance, id: string, keys: seq<string>): Result<seq<string>, Error> {
    if Reserved(keys) then Err(Fail(Denied))
    else
      var selectors := Compact(Sort(Generated(i, id, keys)));
      if |selectors| > MAX_SELECTORS || ValueBytes(selectors) > MAX_VALUE_BYTES then Err(Fail(Denied))
      else Ok(selectors)
  }

  lemma {:induction false} ValueBytesMonotone(xs: seq<string>, n: nat)
    requires n <= |xs|
    ensures ValueBytes(xs[..n]) <= ValueBytes(xs)
    decreases |xs| - n
  {
    if n < |xs| {
      assert xs[..n + 1][..n] == xs[..n];
      ValueBytesMonotone(xs, n + 1);
    } else {
      assert xs[..n] == xs;
    }
  }

  /** The summing loop: stops at the first selector that takes the sum over the bound. */
  method WithinBytes(selectors: seq<string>) returns (ok: bool)
    ensures ok <==> ValueBytes(selectors) <= 32768
  {
    var valueBytes := 0;
    var n := 0;
    while n < |selectors|
      invariant 0 <= n <= |selectors|
      invariant valueBytes == ValueBytes(selectors[..n]) <= MAX_VALUE_BYTES
    {
      assert selectors[..n + 1][..n] == selectors[..n];
      valueBytes := valueBytes + ValueLen(selectors[n]);
      if valueBytes > MAX_VALUE_BYTES {
        ValueBytesMonotone(selectors, n + 1);
        return false;
      }
      n := n + 1;
    }
    assert selectors[..n] == selectors;
    return true;
  }

  /** The appending loops; they stop at the first reserved key. */
  method Generate(i: Instance, id: string, userSelectors: seq<string>) returns (r: Option<seq<string>>)
    ensures r == if Reserved(userSelectors) then None else Some(Generated(i, id, userSelectors))
  {
    var selectors := IdentitySelectors(i, id);
    var n := 0;
    while n < |i.profiles|
      invariant 0 <= n <= |i.profiles|
      invariant selectors == IdentitySelectors(i, id) + ProfileSelectors(i.profiles[..n])
    {
      assert i.profiles[..n + 1][..n] == i.profiles[..n];
      selectors := selectors + ["profile:" + i.profiles[n]];
      n := n + 1;
    }
    assert i.profiles[..n] == i.profiles;
    ghost var identity := selectors;
    n := 0;
    while n < |userSelectors|
      invariant 0 <= n <= |userSelectors|
      invariant !Reserved(userSelectors[..n])
      invariant selectors == identity + UserSelectors(userSelectors[..n], i.expandedConfig)
    {
      var key := userSelectors[n];
      assert userSelectors[..n + 1][..n] == userSelectors[..n];
      if HasPrefix(key, KEY_PREFIX) {
        assert key in userSelectors;
        return None;
      }
      if key in i.expandedConfig {
        selectors := selectors + [key + ":" + i.expandedConfig[key]];
      }
      n := n + 1;
    }
    assert userSelectors[..n] == userSelectors;
    return Some(selectors);
  }

  /** buildSelectors: append, sort, compact, bound the count, then sum with an early exit. */
  method BuildSelectors(i: Instance, id: string, userSelectors: seq<string>)
    returns (r: Result<seq<string>, Error>)
    ensures r == SelectorsOf(i, id, userSelectors)
  {
    var generated := Generate(i, id, userSelectors);
    if generated.None? {
      return Err(Fail(Denied));
    }
    var selectors := Compact(Sort(generated.value));
    if |selectors| > MAX_SELECTORS {
      return Err(Fail(Denied));
    }
    var fits := WithinBytes(selectors);
    if !fits {
      return Err(Fail(Denied));
    }
    return Ok(selectors);
  }

  // ---------------------------------------------------------------- the set-level specification

  /** The selectors an instance has, as a set: order and repetition of the inputs do not appear. */
  ghost function SelectorSet(i: Instance, id: string, keys: set<string>, profiles: set<string>): set<string> {
    {"project:" + i.project, "name:" + i.name, "location:" + i.location, "uuid:" + id}
    + (set p | p in profiles :: "profile:" + p)
    + (set k | k in keys && k in i.expandedConfig :: k + ":" + i.expandedConfig[k])
  }

  /** The first colon of a selector is at i. */
  ghost predicate IsFirstColon(s: string, i: nat) { i < |s| && s[i] == ':' && ':' !in s[..i] }

  lemma {:induction false} FirstColonExists(s: string)
    requires ':' in s
    ensures exists i: nat :: IsFirstColon(s, i)
  {
    if s[0] == ':' {
      assert IsFirstColon(s, 0);
    } else {
      FirstColonExists(s[1..]);
      var i: nat :| IsFirstColon(s[1..], i);
      assert s[..i + 1] == [s[0]] + s[1..][..i];
      assert IsFirstColon(s, i + 1);
    }
  }

  /** The value of a selector: what follows its first colon. */
  ghost function ValueOf(s: string): string {
    if ':' in s then
      FirstColonExists(s);
      var i: nat :| IsFirstColon(s, i);
      s[i + 1..]
    else ""
  }

  /** What is counted is the value after the first colon, and nothing without one. */
  lemma {:induction false} ValueLenExactly(s: string, i: nat)
    ensures IsFirstColon(s, i) ==> ValueLen(s) == |s| - i - 1
    ensures ':' !in s ==> ValueLen(s) == 0
  {
    if s != "" && s[0] != ':' {
      ValueLenExactly(s[1..], if i > 0 then i - 1 else 0);
      if IsFirstColon(s, i) {
        assert s[..i] == [s[0]] + s[1..][..i - 1];
      }
    }
  }

  lemma CountsValue(s: string)
    ensures ValueLen(s) == |ValueOf(s)|
  {
    ValueLenExactly(s, 0);
    if ':' in s {
      FirstColonExists(s);
      var i: nat :| IsFirstColon(s, i) && ValueOf(s) == s[i + 1..];
      ValueLenExactly(s, i);
    }
  }

  /** Total value bytes of a set of selectors. */
  ghost function TotalValueBytes(s: set<string>): nat {
    if s == {} then 0
    else
      var x :| x in s;
      |ValueOf(x)| + TotalValueBytes(s - {x})
  }

  lemma {:induction false} TotalByAnyElement(s: set<string>, x: string)
    requires x in s
    ensures TotalValueBytes(s) == |ValueOf(x)| + TotalValueBytes(s - {x})
    decreases s
  {
    var y :| y in s && TotalValueBytes(s) == |ValueOf(y)| + TotalValueBytes(s - {y});
    if x != y {
      TotalByAnyElement(s - {y}, x);
      TotalByAnyElement(s - {x}, y);
      assert s - {y} - {x} == s - {x} - {y};
    }
  }

  lemma InitElements(xs: seq<string>)
    requires |xs| > 0 && StrictlyIncreasing(xs)
    ensures StrictlyIncreasing(xs[..|xs| - 1])
    ensures xs[|xs| - 1] in Elements(xs)
    ensures Elements(xs[..|xs| - 1]) == Elements(xs) - {xs[|xs| - 1]}
  {
    var init, last := xs[..|xs| - 1], xs[|xs| - 1];
    assert xs == init + [last];
    forall x | x in init ensures x != last {
      var k :| 0 <= k < |init| && init[k] == x;
      assert Less(xs[k], xs[|xs| - 1]);
    }
  }

  lemma {:induction false} BytesOfIncreasing(xs: seq<string>)
    requires StrictlyIncreasing(xs)
    ensures ValueBytes(xs) == TotalValueBytes(Elements(xs))
  {
    if xs != [] {
      InitElements(xs);
      BytesOfIncreasing(xs[..|xs| - 1]);
      TotalByAnyElement(Elements(xs), xs[|xs| - 1]);
      CountsValue(xs[|xs| - 1]);
    }
  }

  lemma {:induction false} ProfileElements(ps: seq<string>)
    ensures Elements(ProfileSelectors(ps)) == set p | p in ps :: "profile:" + p
  {
    if ps != [] {
      var init, last := ps[..|ps| - 1], ps[|ps| - 1];
      ProfileElements(init);
      assert ps == init + [last];
      assert (set p | p in ps :: "profile:" + p) == (set p | p in init :: "profile:" + p) + {"profile:" + last};
      assert Elements(ProfileSelectors(ps)) == Elements(ProfileSelectors(init)) + {"profile:" + last};
    }
  }

  lemma {:induction false} UserElements(ks: seq<string>, config: map<string, string>)
    ensures Elements(UserSelectors(ks, config)) == set k | k in ks && k in config :: k + ":" + config[k]
  {
    if ks != [] {
      var init, last := ks[..|ks| - 1], ks[|ks| - 1];
      UserElements(init, config);
      assert ks == init + [last];
      var before := set k | k in init && k in config :: k + ":" + config[k];
      var after := set k | k in ks && k in config :: k + ":" + config[k];
      if last in config {
        var entry := last + ":" + config[last];
        assert after == before + {entry};
        assert UserSelectors(ks, config) == UserSelectors(init, config) + [entry];
        assert Elements(UserSelectors(ks, config)) == Elements(UserSelectors(init, config)) + {entry};
      } else {
        assert after == before;
      }
    }
  }

  lemma GeneratedElements(i: Instance, id: string, keys: seq<string>)
    ensures Elements(Generated(i, id, keys)) == SelectorSet(i, id, Elements(keys), Elements(i.profiles))
  {
    ProfileElements(i.profiles);
    UserElements(keys, i.expandedConfig);
    var a, b, c := IdentitySelectors(i, id), ProfileSelectors(i.profiles), UserSelectors(keys, i.expandedConfig);
    assert Elements(a + b + c) == Elements(a) + Elements(b) + Elements(c);
    assert Elements(a) == {"project:" + i.project, "name:" + i.name, "location:" + i.location, "uuid:" + id};
    assert (set p | p in Elements(i.profiles) :: "profile:" + p) == (set p | p in i.profiles :: "profile:" + p);
    assert (set k | k in Elements(keys) && k in i.expandedConfig :: k + ":" + i.expandedConfig[k])
        == (set k | k in keys && k in i.expandedConfig :: k + ":" + i.expandedConfig[k]);
  }

  /** The sorted and compacted list against the set, for any list. */
  lemma SortedCompacted(g: seq<string>)
    ensures var xs := Compact(Sort(g));
      StrictlyIncreasing(xs) && Elements(xs) == Elements(g)
      && |xs| == |Elements(g)| && ValueBytes(xs) == TotalValueBytes(Elements(g))
  {
    var xs := Compact(Sort(g));
    SortSorts(g);
    CompactKeepsElements(Sort(g));
    CompactIncreases(Sort(g));
    IncreasingSize(xs);
    BytesOfIncreasing(xs);
  }

  /**
   * The result refines the set: it is the strictly increasing listing of SelectorSet, and for
   * non-reserved keys it is an error exactly when that set is over one of the two bounds, so
   * neither compaction nor the early exit of the byte count changes the verdict.
   */
  lemma SelectorsRefineSet(i: Instance, id: string, keys: seq<string>)
    ensures var r, s := SelectorsOf(i, id, keys), SelectorSet(i, id, Elements(keys), Elements(i.profiles));
      && (r.Err? <==> Reserved(keys) || |s| > 100 || TotalValueBytes(s) > 32768)
      && (r.Err? ==> r.error == Error({Denied}))
      && (r.Ok? ==> StrictlyIncreasing(r.value) && Elements(r.value) == s)
  {
    SortedCompacted(Generated(i, id, keys));
    GeneratedElements(i, id, keys);
  }

  /** A key is reserved exactly if it lies in the namespace of attempt keys, spelled out. */
  lemma ReservedExactly(keys: seq<string>)
    ensures Reserved(keys) <==> exists tail :: "user.spire.attestor.nonce." + tail in keys
  {
    if k :| k in keys && HasPrefix(k, KEY_PREFIX) {
      assert k == "user.spire.attestor.nonce." + k[|KEY_PREFIX|..];
    }
    forall tail | "user.spire.attestor.nonce." + tail in keys ensures Reserved(keys) {
      assert HasPrefix("user.spire.attestor.nonce." + tail, KEY_PREFIX);
    }
  }

  /** Permuting or repeating profiles and user keys changes nothing. */
  lemma SelectorsIgnoreOrder(i: Instance, j: Instance, id: string, keys: seq<string>, keys': seq<string>)
    requires j == i.(profiles := j.profiles)
    requires Elements(i.profiles) == Elements(j.profiles) && Elements(keys) == Elements(keys')
    ensures SelectorsOf(i, id, keys) == SelectorsOf(j, id, keys')
  {
    SelectorsRefineSet(i, id, keys);
    SelectorsRefineSet(j, id, keys');
    assert forall k :: k in keys <==> k in Elements(keys);
    assert forall k :: k in keys' <==> k in Elements(keys');
    if SelectorsOf(i, id, keys).Ok? {
      IncreasingUnique(SelectorsOf(i, id, keys).value, SelectorsOf(j, id, keys').value);
    }
  }

  // ---------------------------------------------------------------- BuildAttributes

  function AgentID(trustDomain: string, id: string): string {
    "spiffe://" + trustDomain + "/spire/agent/incus/" + id
  }

  /** BuildAttributes: identity and selectors come from the API snapshot only. */
  function AttributesOf(parse: UuidParser, trustDomain: string, i: Instance, keys: seq<string>)
    : Result<Attributes, Error>
  {
    match ValidateInstance(parse, i)
    case Err(e) => Err(e)
    case Ok(id) =>
      match SelectorsOf(i, id, keys)
      case Err(e) => Err(e)
      case Ok(selectors) => Ok(Attributes(AgentID(trustDomain, id), true, selectors))
  }

  /** The attributes of an instance: the ID of its UUID in the trust domain, and its selectors; or a denial. */
  lemma AttributesExactly(parse: UuidParser, trustDomain: string, i: Instance, keys: seq<string>)
    ensures var r := AttributesOf(parse, trustDomain, i, keys);
      && (r.Err? ==> r == Err(Error({Denied})))
      && (r.Ok? <==> ValidateInstance(parse, i).Ok? && SelectorsOf(i, ValidateInstance(parse, i).value, keys).Ok?)
      && (r.Ok? ==>
            && parse(i.uuid).Some?
            && r.value.agentID == "spiffe://" + trustDomain + "/spire/agent/incus/" + parse(i.uuid).value
            && r.value.canReattest
            && SelectorsOf(i, parse(i.uuid).value, keys) == Ok(r.value.selectors))
  {
    hide SelectorsOf;
    ValidInstanceExactly(parse, i);
    if ValidateInstance(parse, i).Ok? {
      SelectorsRefineSet(i, ValidateInstance(parse, i).value, keys);
    }
  }
}
