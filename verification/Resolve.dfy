/** Locating the one allowed VM that the claims describe. */
module Resolve {
  import opened Base
  import opened Attest
  import opened Incus
  import opened Mutation
  import opened Config

  datatype LookupReply = LookupFault(error: Error) | NotFound | Found(instance: Instance)

  /** Lookups by project; within one search the replies do not change. */
  type Lookup = string -> LookupReply

  function ErrorOf(f: Fault): Error {
    Error((if f.canceled then {Canceled} else {}) + (if f.deadline then {Deadline} else {}))
  }

  /** The host client's Lookup on the reply to its GET. */
  function HostLookup(parse: UuidParser, standalone: string, at: Location, get: GetReply): LookupReply {
    match get
    case GetFault(f) => if f.status == Some(404) then NotFound else LookupFault(ErrorOf(f))
    case GetRecord(current, _) =>
      match MapInstance(parse, at, current, standalone)
      case Err(e) => LookupFault(e)
      case Ok(i) => Found(i)
  }

  /** An instance found in one of the projects belongs to the project that was asked. */
  ghost predicate ProjectScoped(projects: seq<string>, lookup: Lookup) {
    forall p :: p in projects && lookup(p).Found? ==> lookup(p).instance.project == p
  }

  /** Whatever the server answers, an instance found by the host client is in the project and has the name asked for. */
  lemma HostLookupIsScoped(parse: UuidParser, standalone: string, at: Location, get: GetReply)
    ensures var reply := HostLookup(parse, standalone, at, get);
      reply.Found? ==> reply.instance.project == at.project && reply.instance.name == at.name
  {
    match get
    case GetFault(_) =>
    case GetRecord(current, _) =>
      if current.Some? && MapInstance(parse, at, current, standalone).Ok? {
        SnapshotIsTarget(parse, at, current.value, standalone);
      }
  }

  /** An instance's identity in the form of claims. */
  function AsClaims(i: Instance): Claims {
    Claims(i.project, i.name, i.uuid, i.kind, i.location, i.cloudInitID)
  }

  function Canonical(parse: UuidParser, c: Claims): Claims {
    match parse(c.uuid)
    case Some(id) => c.(uuid := id)
    case None => c
  }

  /**
   * Claims match an instance exactly when they are its identity: equal in every field once UUIDs are
   * canonical, except that the project may be left out; and that identity is complete and a VM's.
   */
  lemma MatchIsIdentity(parse: UuidParser, c: Claims, i: Instance)
    ensures MatchClaims(parse, c, i).None? <==>
              && parse(c.uuid).Some? && parse(i.uuid).Some?
              && Canonical(parse, c).(project := i.project) == Canonical(parse, AsClaims(i))
              && (c.project == "" || c.project == i.project)
              && i.kind == VIRTUAL_MACHINE
              && i.project != "" && i.name != "" && i.location != "" && i.cloudInitID != ""
    ensures MatchClaims(parse, c, i).Some? ==> MatchClaims(parse, c, i) == Some(Fail(Denied))
  {
  }

  // ---------------------------------------------------------------- the two searches

  /** resolveHinted. */
  function Hinted(parse: UuidParser, projects: seq<string>, lookup: Lookup, c: Claims): Result<Instance, Error> {
    if c.project !in projects then Err(Fail(Denied))
    else
      match lookup(c.project)
      case LookupFault(e) => Err(e)
      case NotFound => Err(Fail(Denied))
      case Found(i) =>
        match MatchClaims(parse, c, i)
        case Some(e) => Err(e)
        case None => Ok(i)
  }

  predicate IsMatch(parse: UuidParser, lookup: Lookup, c: Claims, project: string) {
    lookup(project).Found? && MatchClaims(parse, c, lookup(project).instance).None?
  }

  /** The matching projects of a prefix of the list, or the first lookup fault in it. */
  function Scan(parse: UuidParser, projects: seq<string>, lookup: Lookup, c: Claims)
    : (r: Result<seq<string>, Error>)
    ensures r.Ok? ==> forall p :: p in r.value ==> p in projects && IsMatch(parse, lookup, c, p)
  {
    if projects == [] then Ok([])
    else
      var last := projects[|projects| - 1];
      match Scan(parse, projects[..|projects| - 1], lookup, c)
      case Err(e) => Err(e)
      case Ok(found) =>
        if lookup(last).LookupFault? then Err(lookup(last).error)
        else if IsMatch(parse, lookup, c, last) then Ok(found + [last]) else Ok(found)
  }

  function Unhinted(parse: UuidParser, projects: seq<string>, lookup: Lookup, c: Claims): Result<Instance, Error> {
    match Scan(parse, projects, lookup, c)
    case Err(e) => Err(e)
    case Ok(found) =>
      assert |found| == 1 ==> found[0] in found;
      if |found| == 1 then Ok(lookup(found[0]).instance) else Err(Fail(Denied))
  }

  lemma {:induction false} ScanFaultEarly(parse: UuidParser, projects: seq<string>, lookup: Lookup, c: Claims, n: nat)
    requires n <= |projects| && Scan(parse, projects[..n], lookup, c).Err?
    ensures Scan(parse, projects, lookup, c) == Scan(parse, projects[..n], lookup, c)
    decreases |projects|
  {
    if n == |projects| {
      assert projects[..n] == projects;
    } else {
      var init := projects[..|projects| - 1];
      assert init[..n] == projects[..n];
      ScanFaultEarly(parse, init, lookup, c, n);
    }
  }

  predicate Faultless(projects: seq<string>, lookup: Lookup) {
    forall p :: p in projects ==> !lookup(p).LookupFault?
  }

  /** The projects that the unhinted search asks: all of them, or up to the first lookup that fails. */
  function Asked(projects: seq<string>, lookup: Lookup): seq<string> {
    if projects == [] || Faultless(projects[..|projects| - 1], lookup) then projects
    else Asked(projects[..|projects| - 1], lookup)
  }

  lemma {:induction false} AskedUpTo(projects: seq<string>, lookup: Lookup, n: nat)
    requires 0 < n <= |projects| && Faultless(projects[..n - 1], lookup)
    requires n == |projects| || lookup(projects[n - 1]).LookupFault?
    ensures Asked(projects, lookup) == projects[..n]
    decreases |projects|
  {
    if n == |projects| {
      assert projects[..n] == projects;
    } else {
      var init := projects[..|projects| - 1];
      assert init[..n] == projects[..n] && init[..n - 1] == projects[..n - 1];
      assert init[n - 1] in init;
      AskedUpTo(init, lookup, n);
    }
  }

  /** One more project scanned. */
  lemma ScanNext(parse: UuidParser, projects: seq<string>, lookup: Lookup, c: Claims, n: nat)
    requires n < |projects| && Scan(parse, projects[..n], lookup, c).Ok?
    ensures var p, found := projects[n], Scan(parse, projects[..n], lookup, c).value;
      && (lookup(p).LookupFault? ==> Scan(parse, projects, lookup, c) == Err(lookup(p).error))
      && (!lookup(p).LookupFault? ==>
            Scan(parse, projects[..n + 1], lookup, c)
            == Ok(if IsMatch(parse, lookup, c, p) then found + [p] else found))
  {
    assert projects[..n + 1][..n] == projects[..n];
    if lookup(projects[n]).LookupFault? {
      ScanFaultEarly(parse, projects, lookup, c, n + 1);
    }
  }

  // ---------------------------------------------------------------- agreement

  lemma {:induction false} ScanContents(parse: UuidParser, projects: seq<string>, lookup: Lookup, c: Claims)
    ensures Scan(parse, projects, lookup, c).Ok? <==> forall p :: p in projects ==> !lookup(p).LookupFault?
    ensures Scan(parse, projects, lookup, c).Ok? ==>
      forall p :: p in projects && IsMatch(parse, lookup, c, p) ==> p in Scan(parse, projects, lookup, c).value
    ensures Scan(parse, projects, lookup, c).Ok? && Distinct(projects) ==>
              Distinct(Scan(parse, projects, lookup, c).value)
  {
    if projects != [] {
      var init, last := projects[..|projects| - 1], projects[|projects| - 1];
      ScanContents(parse, init, lookup, c);
      assert projects == init + [last];
      if Scan(parse, init, lookup, c).Ok? && Distinct(projects) {
        var found := Scan(parse, init, lookup, c).value;
        forall i | 0 <= i < |found| ensures found[i] != last {
          assert found[i] in init;
          var j :| 0 <= j < |init| && init[j] == found[i];
          assert projects[j] == found[i];
        }
      }
    }
  }

  lemma HintedIsMatch(parse: UuidParser, projects: seq<string>, lookup: Lookup, c: Claims, p: string)
    requires ProjectScoped(projects, lookup) && c.project == "" && p != "" && p in projects
    ensures Hinted(parse, projects, lookup, c.(project := p)).Ok? <==> IsMatch(parse, lookup, c, p)
    ensures IsMatch(parse, lookup, c, p) ==>
              Hinted(parse, projects, lookup, c.(project := p)) == Ok(lookup(p).instance)
  {
    if lookup(p).Found? {
      var i := lookup(p).instance;
      assert MatchClaims(parse, c.(project := p), i).None? <==> MatchClaims(parse, c, i).None?;
    }
  }

  lemma SecondOne(xs: seq<string>, x: string)
    requires Distinct(xs) && |xs| > 1
    ensures exists y :: y in xs && y != x
  {
    if xs[0] != x {
      assert xs[0] in xs;
    } else {
      assert xs[1] in xs;
    }
  }

  /** Given as hint, project p succeeds, and no other allowed project does. */
  ghost predicate OnlyHint(parse: UuidParser, projects: seq<string>, lookup: Lookup, c: Claims, p: string) {
    && p in projects && Hinted(parse, projects, lookup, c.(project := p)).Ok?
    && forall q :: q in projects && q != p ==> Hinted(parse, projects, lookup, c.(project := q)).Err?
  }

  /**
   * The unhinted search returns I exactly when no lookup failed and exactly one allowed project,
   * given as a hint, would succeed, and that one yields I; and I is in that project.
   */
  lemma UnhintedAgrees(parse: UuidParser, projects: seq<string>, lookup: Lookup, c: Claims, i: Instance)
    requires Distinct(projects) && "" !in projects && c.project == "" && ProjectScoped(projects, lookup)
    ensures Unhinted(parse, projects, lookup, c) == Ok(i) <==>
              && (forall p :: p in projects ==> !lookup(p).LookupFault?)
              && exists p :: OnlyHint(parse, projects, lookup, c, p)
                             && Hinted(parse, projects, lookup, c.(project := p)) == Ok(i)
    ensures Unhinted(parse, projects, lookup, c) == Ok(i) ==> i.project in projects
  {
    ScanContents(parse, projects, lookup, c);
    forall p | p in projects
      ensures Hinted(parse, projects, lookup, c.(project := p)).Ok? <==> IsMatch(parse, lookup, c, p)
      ensures IsMatch(parse, lookup, c, p) ==>
                Hinted(parse, projects, lookup, c.(project := p)) == Ok(lookup(p).instance)
    {
      HintedIsMatch(parse, projects, lookup, c, p);
    }
    if Scan(parse, projects, lookup, c).Ok? {
      var found := Scan(parse, projects, lookup, c).value;
      if |found| == 1 {
        var p := found[0];
        assert forall q :: q in found ==> q == p;
        assert OnlyHint(parse, projects, lookup, c, p);
        forall p' | OnlyHint(parse, projects, lookup, c, p') ensures p' == p {
          assert p' in found;
        }
      } else if p :| OnlyHint(parse, projects, lookup, c, p) {
        assert p in found;
        forall q | q in found ensures q == p {
          assert q in projects && Hinted(parse, projects, lookup, c.(project := q)).Ok?;
        }
        if |found| > 1 {
          SecondOne(found, p);
        }
      }
    }
  }

  /** resolveInstance. */
  function Resolved(parse: UuidParser, projects: seq<string>, lookup: Lookup, c: Claims): Result<Instance, Error> {
    if c.project != "" then Hinted(parse, projects, lookup, c) else Unhinted(parse, projects, lookup, c)
  }

  /** Whatever the search returns is an allowed VM that matches the claims, with or without a hint. */
  lemma ResolvedIsAllowed(parse: UuidParser, projects: seq<string>, lookup: Lookup, c: Claims)
    requires ProjectScoped(projects, lookup) && Resolved(parse, projects, lookup, c).Ok?
    ensures var i := Resolved(parse, projects, lookup, c).value;
      && MatchClaims(parse, c, i).None? && i.project in projects && i.kind == VIRTUAL_MACHINE
      && lookup(i.project) == Found(i) && ValidateInstance(parse, i).Ok?
  {
    var i := Resolved(parse, projects, lookup, c).value;
    if c.project == "" {
      var found := Scan(parse, projects, lookup, c).value;
      assert found[0] in found;
    }
    assert MatchClaims(parse, c, i).None?;
  }

  /** Every lookup works, and instance i of one allowed project is the only match. */
  ghost predicate OneMatch(parse: UuidParser, projects: seq<string>, lookup: Lookup, c: Claims, i: Instance) {
    && ProjectScoped(projects, lookup) && (forall p :: p in projects ==> !lookup(p).LookupFault?)
    && i.project in projects && lookup(i.project) == Found(i)
    && forall p :: p in projects ==> (IsMatch(parse, lookup, c, p) <==> p == i.project)
  }

  /** A single match is found, whether or not the claims name its project. */
  lemma OneMatchResolves(parse: UuidParser, projects: seq<string>, lookup: Lookup, c: Claims, i: Instance)
    requires Distinct(projects) && "" !in projects && OneMatch(parse, projects, lookup, c, i)
    ensures Resolved(parse, projects, lookup, c) == Ok(i)
  {
    assert IsMatch(parse, lookup, c, i.project);
    if c.project == "" {
      forall p | p in projects
        ensures Hinted(parse, projects, lookup, c.(project := p)).Ok? <==> p == i.project {
        HintedIsMatch(parse, projects, lookup, c, p);
      }
      HintedIsMatch(parse, projects, lookup, c, i.project);
      assert OnlyHint(parse, projects, lookup, c, i.project);
      UnhintedAgrees(parse, projects, lookup, c, i);
    }
  }

  // ---------------------------------------------------------------- what goes wrong

  /** A fault keeps its cancellation and its deadline, and nothing else makes either. */
  lemma ErrorKeepsContext(f: Fault)
    ensures Canceled in ErrorOf(f).classes <==> f.canceled
    ensures Deadline in ErrorOf(f).classes <==> f.deadline
    ensures ErrorOf(f).classes <= {Canceled, Deadline}
  {
  }

  /**
   * A lookup finds nothing exactly on a fault with status 404; every other fault ends it with the
   * fault's own error, and a record that cannot be used with a denial.
   */
  lemma LookupExactly(parse: UuidParser, standalone: string, at: Location, get: GetReply)
    ensures var reply := HostLookup(parse, standalone, at, get);
      && (reply.NotFound? <==> get.GetFault? && get.fault.status == Some(404))
      && (get.GetFault? && get.fault.status != Some(404) ==> reply == LookupFault(ErrorOf(get.fault)))
      && (get.GetRecord? ==>
            var mapped := MapInstance(parse, at, get.current, standalone);
            if mapped.Ok? then reply == Found(mapped.value) else reply == LookupFault(Error({Denied})))
  {
    if get.GetRecord? {
      MapsExactly(parse, at, get.current, standalone);
    }
  }

  /** The hinted search: the lookup's own error, or a denial for a project or an instance that will not do. */
  lemma HintedExactly(parse: UuidParser, projects: seq<string>, lookup: Lookup, c: Claims)
    ensures var (r, reply) := (Hinted(parse, projects, lookup, c), lookup(c.project));
      && (c.project !in projects ==> r == Err(Error({Denied})))
      && (c.project in projects && reply.LookupFault? ==> r == Err(reply.error))
      && (c.project in projects && reply.NotFound? ==> r == Err(Error({Denied})))
      && (c.project in projects && reply.Found? ==>
            r == if IsMatch(parse, lookup, c, c.project) then Ok(reply.instance) else Err(Error({Denied})))
  {
    if lookup(c.project).Found? {
      MatchIsIdentity(parse, c, lookup(c.project).instance);
    }
  }

  /** Of all the projects, this one alone has a match. */
  ghost predicate OnlyMatch(parse: UuidParser, projects: seq<string>, lookup: Lookup, c: Claims, p: string) {
    && p in projects && IsMatch(parse, lookup, c, p)
    && forall q :: q in projects && IsMatch(parse, lookup, c, q) ==> q == p
  }

  /** Project n is the first whose lookup failed. */
  ghost predicate FirstFault(projects: seq<string>, lookup: Lookup, n: nat) {
    && n < |projects| && lookup(projects[n]).LookupFault?
    && forall k :: 0 <= k < n ==> !lookup(projects[k]).LookupFault?
  }

  /**
   * The unhinted search: the error of the first lookup that failed; a denial if none failed and no
   * project or more than one has a match; and otherwise the instance of the one match.
   */
  lemma UnhintedExactly(parse: UuidParser, projects: seq<string>, lookup: Lookup, c: Claims)
    requires Distinct(projects)
    ensures forall n: nat :: FirstFault(projects, lookup, n) ==>
              Unhinted(parse, projects, lookup, c) == Err(lookup(projects[n]).error)
    ensures Faultless(projects, lookup) ==>
      var r := Unhinted(parse, projects, lookup, c);
      && (r.Err? ==> r == Err(Error({Denied})))
      && (forall p :: OnlyMatch(parse, projects, lookup, c, p) ==> r == Ok(lookup(p).instance))
      && (r.Ok? ==> exists p :: OnlyMatch(parse, projects, lookup, c, p) && r == Ok(lookup(p).instance))
  {
    forall n: nat | FirstFault(projects, lookup, n)
      ensures Unhinted(parse, projects, lookup, c) == Err(lookup(projects[n]).error) {
      FaultEndsSearch(parse, projects, lookup, c, n);
    }
    if Faultless(projects, lookup) {
      OneMatchOrDenied(parse, projects, lookup, c);
    }
  }

  lemma FaultEndsSearch(parse: UuidParser, projects: seq<string>, lookup: Lookup, c: Claims, n: nat)
    requires FirstFault(projects, lookup, n)
    ensures Unhinted(parse, projects, lookup, c) == Err(lookup(projects[n]).error)
  {
    ScanContents(parse, projects[..n], lookup, c);
    assert forall p :: p in projects[..n] ==> !lookup(p).LookupFault?;
    ScanNext(parse, projects, lookup, c, n);
  }

  lemma OneMatchOrDenied(parse: UuidParser, projects: seq<string>, lookup: Lookup, c: Claims)
    requires Distinct(projects) && Faultless(projects, lookup)
    ensures var r := Unhinted(parse, projects, lookup, c);
      && (r.Err? ==> r == Err(Error({Denied})))
      && (forall p :: OnlyMatch(parse, projects, lookup, c, p) ==> r == Ok(lookup(p).instance))
      && (r.Ok? ==> exists p :: OnlyMatch(parse, projects, lookup, c, p) && r == Ok(lookup(p).instance))
  {
    hide Scan, IsMatch;
    ScanContents(parse, projects, lookup, c);
    ScanMatches(parse, projects, lookup, c);
    var found := Scan(parse, projects, lookup, c).value;
    if |found| == 1 {
      OneFound(parse, projects, lookup, c, found);
    }
    forall p | OnlyMatch(parse, projects, lookup, c, p) ensures |found| == 1 && found[0] == p {
      Singleton(found, p);
    }
    MatchIsFound(parse, projects, lookup, c);
  }

  lemma MatchIsFound(parse: UuidParser, projects: seq<string>, lookup: Lookup, c: Claims)
    ensures forall p :: OnlyMatch(parse, projects, lookup, c, p) ==> lookup(p).Found?
  {
  }

  lemma Singleton(xs: seq<string>, x: string)
    requires Distinct(xs) && x in xs && forall y :: y in xs ==> y == x
    ensures |xs| == 1 && xs[0] == x
  {
    if |xs| > 1 {
      SecondOne(xs, x);
    }
    assert xs[0] in xs;
  }

  lemma OneFound(parse: UuidParser, projects: seq<string>, lookup: Lookup, c: Claims, found: seq<string>)
    requires |found| == 1
    requires forall p :: p in found <==> p in projects && IsMatch(parse, lookup, c, p)
    ensures OnlyMatch(parse, projects, lookup, c, found[0])
  {
    hide IsMatch;
    assert found[0] in found;
    forall q | q in projects && IsMatch(parse, lookup, c, q) ensures q == found[0] {
      assert q in found;
    }
  }

  lemma ScanMatches(parse: UuidParser, projects: seq<string>, lookup: Lookup, c: Claims)
    ensures Scan(parse, projects, lookup, c).Ok? ==>
              forall p :: p in Scan(parse, projects, lookup, c).value ==> p in projects && IsMatch(parse, lookup, c, p)
  {
  }

  /** Without a fault every project is asked; otherwise those up to the first that fails, and no other. */
  lemma AskedExactly(projects: seq<string>, lookup: Lookup)
    ensures Faultless(projects, lookup) ==> Asked(projects, lookup) == projects
    ensures forall n: nat :: FirstFault(projects, lookup, n) ==> Asked(projects, lookup) == projects[..n + 1]
  {
    if Faultless(projects, lookup) && projects != [] {
      var init := projects[..|projects| - 1];
      assert forall p :: p in init ==> p in projects;
    }
    forall n: nat | FirstFault(projects, lookup, n) ensures Asked(projects, lookup) == projects[..n + 1] {
      assert projects[..n + 1][..n] == projects[..n];
      AskedUpTo(projects, lookup, n + 1);
    }
  }
}
