/** Pure validation of the server configuration, and what it guarantees to selector construction. */
module Config {
  import opened Base
  import opened Strings
  import opened Attest
  import opened Selectors

  const MAX_PROJECTS := 32
  const MAX_USER_SELECTORS := 32
  const USER_PREFIX := "user."
  const RESERVED_KEY := "user.spire.attestor.nonce"

  datatype Server = Server(endpoint: string, caPath: string, certPath: string, keyPath: string,
                           projects: seq<string>, userSelectors: seq<string>,
                           incusTimeout: int, challengeTimeout: int, cleanupTimeout: int)

  /** One collected violation of a list attribute. */
  datatype Violation = Empty | TooMany | BadEntry(index: nat) | Duplicate(index: nat)

  predicate AllowedSelector(key: string) {
    && HasPrefix(key, USER_PREFIX) && key != USER_PREFIX
    && key != RESERVED_KEY && !HasPrefix(key, KEY_PREFIX)
  }

  predicate ProjectViolation(projects: seq<string>, v: Violation) {
    match v
    case Empty => projects == []
    case TooMany => |projects| > MAX_PROJECTS
    case BadEntry(i) => i < |projects| && projects[i] == ""
    case Duplicate(i) => i < |projects| && projects[i] != "" && projects[i] in projects[..i]
  }

  predicate SelectorViolation(keys: seq<string>, v: Violation) {
    match v
    case Empty => false
    case TooMany => |keys| > MAX_USER_SELECTORS
    case BadEntry(i) => i < |keys| && !AllowedSelector(keys[i])
    case Duplicate(i) => i < |keys| && AllowedSelector(keys[i]) && keys[i] in keys[..i]
  }

  /** validateProjects: collects every violation and nothing else. */
  method ValidateProjects(projects: seq<string>) returns (errs: seq<Violation>)
    ensures forall v :: v in errs <==> ProjectViolation(projects, v)
  {
    errs := [];
    if |projects| == 0 { errs := errs + [Empty]; }
    if |projects| > MAX_PROJECTS { errs := errs + [TooMany]; }
    var seen: set<string> := {};
    var n := 0;
    while n < |projects|
      invariant 0 <= n <= |projects|
      invariant forall p :: p in seen <==> p != "" && p in projects[..n]
      invariant forall v :: v in errs <==> ProjectViolation(projects, v)
                                           && (v.BadEntry? || v.Duplicate? ==> v.index < n)
    {
      var project := projects[n];
      assert projects[..n + 1] == projects[..n] + [project];
      if project == "" {
        errs := errs + [BadEntry(n)];
      } else if project in seen {
        errs := errs + [Duplicate(n)];
      } else {
        seen := seen + {project};
      }
      n := n + 1;
    }
  }

  /** validateUserSelectors: collects every violation and nothing else. */
  method ValidateUserSelectors(keys: seq<string>) returns (errs: seq<Violation>)
    ensures forall v :: v in errs <==> SelectorViolation(keys, v)
  {
    errs := [];
    if |keys| > MAX_USER_SELECTORS { errs := errs + [TooMany]; }
    var seen: set<string> := {};
    var n := 0;
    while n < |keys|
      invariant 0 <= n <= |keys|
      invariant forall k :: k in seen <==> AllowedSelector(k) && k in keys[..n]
      invariant forall v :: v in errs <==> SelectorViolation(keys, v)
                                           && (v.BadEntry? || v.Duplicate? ==> v.index < n)
    {
      var key := keys[n];
      assert keys[..n + 1] == keys[..n] + [key];
      if !AllowedSelector(key) {
        errs := errs + [BadEntry(n)];
      } else if key in seen {
        errs := errs + [Duplicate(n)];
      } else {
        seen := seen + {key};
      }
      n := n + 1;
    }
  }

  /** ValidateServer accepts: no attribute has a violation. */
  ghost predicate Accepted(cfg: Server, trustDomain: string) {
    && trustDomain != "" && cfg.endpoint != ""
    && cfg.caPath != "" && cfg.certPath != "" && cfg.keyPath != ""
    && cfg.incusTimeout > 0 && cfg.challengeTimeout > 0 && cfg.cleanupTimeout > 0
    && (forall v :: !ProjectViolation(cfg.projects, v))
    && (forall v :: !SelectorViolation(cfg.userSelectors, v))
  }

  /** ValidateServer, by every attribute. */
  method ValidateServer(cfg: Server, trustDomain: string) returns (ok: bool)
    ensures ok <==> Accepted(cfg, trustDomain)
    ensures ok <==>
              && trustDomain != "" && cfg.endpoint != ""
              && cfg.caPath != "" && cfg.certPath != "" && cfg.keyPath != ""
              && cfg.incusTimeout > 0 && cfg.challengeTimeout > 0 && cfg.cleanupTimeout > 0
              && 1 <= |cfg.projects| <= 32 && Distinct(cfg.projects) && "" !in cfg.projects
              && |cfg.userSelectors| <= 32 && Distinct(cfg.userSelectors)
              && forall k :: k in cfg.userSelectors ==> AllowedSelector(k)
  {
    var projectErrs := ValidateProjects(cfg.projects);
    var selectorErrs := ValidateUserSelectors(cfg.userSelectors);
    assert projectErrs != [] ==> projectErrs[0] in projectErrs;
    assert selectorErrs != [] ==> selectorErrs[0] in selectorErrs;
    AcceptedProjects(cfg.projects);
    AcceptedSelectors(cfg.userSelectors);
    ok := trustDomain != "" && cfg.endpoint != ""
          && cfg.caPath != "" && cfg.certPath != "" && cfg.keyPath != ""
          && cfg.incusTimeout > 0 && cfg.challengeTimeout > 0 && cfg.cleanupTimeout > 0
          && projectErrs == [] && selectorErrs == [];
  }

  /** A selector key is "user." and something more, but neither the nonce key nor in its namespace. */
  lemma AllowedExactly(key: string)
    ensures AllowedSelector(key) <==>
              && (exists tail :: tail != "" && key == "user." + tail)
              && key != "user.spire.attestor.nonce"
              && !(exists tail :: key == "user.spire.attestor.nonce." + tail)
  {
    if HasPrefix(key, "user.") {
      assert key == "user." + key[|"user."|..];
    }
    if HasPrefix(key, KEY_PREFIX) {
      assert key == "user.spire.attestor.nonce." + key[|KEY_PREFIX|..];
    }
  }

  ghost predicate Distinct(xs: seq<string>) {
    forall i, j :: 0 <= i < j < |xs| ==> xs[i] != xs[j]
  }

  /** An allowlist has no violation exactly when it has one to 32 distinct nonempty projects. */
  lemma AcceptedProjects(ps: seq<string>)
    ensures (forall v :: !ProjectViolation(ps, v)) <==> 1 <= |ps| <= 32 && Distinct(ps) && "" !in ps
  {
    if forall v :: !ProjectViolation(ps, v) {
      assert !ProjectViolation(ps, Empty) && !ProjectViolation(ps, TooMany);
      forall i | 0 <= i < |ps| ensures ps[i] != "" {
        assert !ProjectViolation(ps, BadEntry(i));
      }
      forall i, j | 0 <= i < j < |ps| ensures ps[i] != ps[j] {
        assert !ProjectViolation(ps, Duplicate(j)) && ps[i] == ps[..j][i];
      }
    }
  }

  /** User selectors have no violation exactly when they are at most 32 distinct user.* keys outside the namespace. */
  lemma AcceptedSelectors(keys: seq<string>)
    ensures (forall v :: !SelectorViolation(keys, v)) <==>
              |keys| <= 32 && Distinct(keys) && forall k :: k in keys ==> AllowedSelector(k)
  {
    if forall v :: !SelectorViolation(keys, v) {
      assert !SelectorViolation(keys, TooMany);
      forall i | 0 <= i < |keys| ensures AllowedSelector(keys[i]) {
        assert !SelectorViolation(keys, BadEntry(i));
      }
      forall i, j | 0 <= i < j < |keys| ensures keys[i] != keys[j] {
        assert !SelectorViolation(keys, Duplicate(j)) && keys[i] == keys[..j][i];
      }
    }
  }

  lemma {:induction false} ImageSize(s: set<string>, f: string -> string)
    ensures |set x | x in s :: f(x)| <= |s|
    decreases s
  {
    if s != {} {
      var x :| x in s;
      ImageSize(s - {x}, f);
      assert (set y | y in s :: f(y)) == (set y | y in s - {x} :: f(y)) + {f(x)};
    } else {
      assert (set x | x in s :: f(x)) == {};
    }
  }

  lemma {:induction false} ElementsSize<T>(xs: seq<T>)
    ensures |Elements(xs)| <= |xs|
  {
    if xs != [] {
      ElementsSize(xs[1..]);
      assert xs == [xs[0]] + xs[1..];
      assert Elements(xs) == Elements(xs[1..]) + {xs[0]};
    }
  }

  lemma UnionSize(w: string, x: string, y: string, z: string, b: set<string>, c: set<string>)
    ensures |{w, x, y, z} + b + c| <= 4 + |b| + |c|
  {
    var a := {w, x, y, z};
    assert |a| <= 4;
    assert |a + b| <= |a| + |b| && |a + b + c| <= |a + b| + |c|;
  }

  lemma UserEntriesSize(keys: set<string>, config: map<string, string>)
    ensures |set k | k in keys && k in config :: k + ":" + config[k]| <= |keys|
  {
    var f := (k: string) => if k in config then k + ":" + config[k] else "";
    var entries := set k | k in keys && k in config :: k + ":" + config[k];
    ImageSize(keys, f);
    forall x | x in entries ensures x in set k | k in keys :: f(k) {
      var k :| k in keys && k in config && k + ":" + config[k] == x;
      assert f(k) == x;
    }
    SubsetSize(entries, set k | k in keys :: f(k));
  }

  lemma ProfileEntriesSize(profiles: set<string>)
    ensures |set p | p in profiles :: "profile:" + p| <= |profiles|
  {
    var f := (p: string) => "profile:" + p;
    ImageSize(profiles, f);
    assert (set p | p in profiles :: "profile:" + p) == set p | p in profiles :: f(p);
  }

  lemma SelectorSetSize(i: Instance, id: string, keys: set<string>, profiles: set<string>)
    ensures |SelectorSet(i, id, keys, profiles)| <= 4 + |profiles| + |keys|
  {
    ProfileEntriesSize(profiles);
    UserEntriesSize(keys, i.expandedConfig);
    UnionSize("project:" + i.project, "name:" + i.name, "location:" + i.location, "uuid:" + id,
              set p | p in profiles :: "profile:" + p,
              set k | k in keys && k in i.expandedConfig :: k + ":" + i.expandedConfig[k]);
  }

  lemma {:induction false} SubsetSize(a: set<string>, b: set<string>)
    requires a <= b
    ensures |a| <= |b|
  {
    if a != {} {
      var x :| x in a;
      SubsetSize(a - {x}, b - {x});
    }
  }

  /** A key outside the reserved namespace cannot reach it by having ":value" appended. */
  lemma EntryNotReserved(key: string, value: string)
    requires !HasPrefix(key, KEY_PREFIX)
    ensures !HasPrefix(key + ":" + value, KEY_PREFIX)
  {
    var entry := key + ":" + value;
    if |key| >= |KEY_PREFIX| {
      assert entry[..|KEY_PREFIX|] == key[..|KEY_PREFIX|];
    } else if |entry| >= |KEY_PREFIX| {
      assert entry[..|KEY_PREFIX|][|key|] == ':' && KEY_PREFIX[|key|] != ':';
    }
  }

  lemma FixedNotReserved(head: string, tail: string)
    requires head in {"project:", "name:", "location:", "uuid:", "profile:"}
    ensures !HasPrefix(head + tail, KEY_PREFIX)
  {
    var x := head + tail;
    assert (head[0] != 'u' || head[1] != 's') && x[0] == head[0] && x[1] == head[1];
    assert |x| >= |KEY_PREFIX| ==> x[..|KEY_PREFIX|][0] == x[0] && x[..|KEY_PREFIX|][1] == x[1];
    assert KEY_PREFIX[0] == 'u' && KEY_PREFIX[1] == 's';
  }

  lemma SelectorsNotReserved(i: Instance, id: string, keys: set<string>, profiles: set<string>, x: string)
    requires forall k :: k in keys ==> !HasPrefix(k, KEY_PREFIX)
    requires x in SelectorSet(i, id, keys, profiles)
    ensures !HasPrefix(x, KEY_PREFIX)
  {
    if k :| k in keys && k in i.expandedConfig && k + ":" + i.expandedConfig[k] == x {
      EntryNotReserved(k, i.expandedConfig[k]);
    } else if p :| p in profiles && "profile:" + p == x {
      FixedNotReserved("profile:", p);
    } else {
      FixedNotReserved("project:", i.project);
      FixedNotReserved("name:", i.name);
      FixedNotReserved("location:", i.location);
      FixedNotReserved("uuid:", id);
    }
  }

  /**
   * An accepted configuration never triggers the reserved-key denial, no selector it emits lies in
   * the nonce namespace, and the count bound cannot be hit by an instance with at most 64 profiles.
   */
  lemma AcceptedConfigIsSafe(cfg: Server, trustDomain: string, i: Instance, id: string)
    requires Accepted(cfg, trustDomain)
    ensures !Reserved(cfg.userSelectors)
    ensures var s := SelectorSet(i, id, Elements(cfg.userSelectors), Elements(i.profiles));
      && (forall x :: x in s ==> !HasPrefix(x, KEY_PREFIX))
      && (|Elements(i.profiles)| <= 64 ==>
            |s| <= 100
            && (SelectorsOf(i, id, cfg.userSelectors).Ok? <==> TotalValueBytes(s) <= 32768))
  {
    var keys := cfg.userSelectors;
    AcceptedSelectors(keys);
    ElementsSize(keys);
    var s := SelectorSet(i, id, Elements(keys), Elements(i.profiles));
    forall x | x in s ensures !HasPrefix(x, KEY_PREFIX) {
      SelectorsNotReserved(i, id, Elements(keys), Elements(i.profiles), x);
    }
    SelectorSetSize(i, id, Elements(keys), Elements(i.profiles));
    SelectorsRefineSet(i, id, keys);
  }
}
