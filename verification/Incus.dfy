/**
 * The Incus API as the attestor sees it: instance records, ETags, faults, and how a record becomes a
 * domain snapshot.
 */
module Incus {
  import opened Base
  import opened Attest

  const UUID_KEY := "volatile.uuid"
  const CLOUD_INIT_KEY := "volatile.cloud-init.instance-id"
  const STANDALONE := "none"

  type Config = map<string, string>

  /** The part of a record that a PUT replaces; other stands for every field the attestor never edits. */
  datatype Writable = Writable(config: Config, profiles: seq<string>, other: string)

  /** One instance; inherited is what its profiles contribute to the expanded configuration. */
  datatype Record = Record(project: string, name: string, kind: string, location: string,
                           inherited: Config, writable: Writable)

  datatype Location = Location(project: string, name: string)

  type Store = map<Location, Record>

  function Expanded(r: Record): Config { r.inherited + r.writable.config }

  function ConfigValue(c: Config, key: string): string { if key in c then c[key] else "" }

  /** The ETag of a record. */
  type Tagger = Record -> string

  /** The trusted ETag contract: never empty, and it determines the whole record. */
  ghost predicate TagContract(tag: Tagger) {
    && (forall r :: tag(r) != "")
    && (forall r, s :: tag(r) == tag(s) ==> r == s)
  }

  /** The If-Match condition of a PUT, section 13.1.1 of RFC 9110; without a tag there is no condition. */
  predicate Matches(tag: Tagger, store: Store, at: Location, etag: string) {
    at in store && (etag == "" || etag == tag(store[at]))
  }

  // ---------------------------------------------------------------- faults

  /** An error of the client library, reduced to the answers it gives to inspection. */
  datatype Fault = Fault(canceled: bool, deadline: bool, status: Option<int>, replaced: bool,
                         timeout: bool, temporary: bool, opError: bool)

  const PLAIN_FAULT := Fault(false, false, None, false, false, false, false)
  const REPLACED := PLAIN_FAULT.(replaced := true)
  const EXPIRED := PLAIN_FAULT.(deadline := true)

  predicate IsConflict(f: Fault) { f.status == Some(412) }

  predicate IsRetryable(f: Fault) {
    && !f.canceled && !f.deadline
    && (IsConflict(f) || f.status in {Some(408), Some(429), Some(500), Some(502), Some(503), Some(504)}
        || f.timeout || f.temporary || f.opError)
  }

  // ---------------------------------------------------------------- identity

  /** matchResolvedTarget: whether current still identifies the resolved VM. */
  predicate IsTarget(parse: UuidParser, target: Instance, current: Option<Record>) {
    match current
    case None => false
    case Some(r) =>
      && (r.project == "" || r.project == target.project)
      && r.name == target.name
      && r.kind == VIRTUAL_MACHINE
      && parse(ConfigValue(Expanded(r), UUID_KEY)) == Some(target.uuid)
  }

  /** mapInstance: the domain snapshot of a record looked up under (project, name). */
  function MapInstance(parse: UuidParser, at: Location, current: Option<Record>, standalone: string)
    : Result<Instance, Error>
  {
    match current
    case None => Err(Fail(Denied))
    case Some(r) =>
      if r.name == "" || r.name != at.name then Err(Fail(Denied))
      else if r.project != "" && r.project != at.project then Err(Fail(Denied))
      else
        match parse(ConfigValue(Expanded(r), UUID_KEY))
        case None => Err(Fail(Denied))
        case Some(id) =>
          var location := if r.location == STANDALONE then standalone else r.location;
          if location == "" then Err(Fail(Denied))
          else Ok(Instance(at.project, at.name, id, r.kind, location,
                           ConfigValue(Expanded(r), CLOUD_INIT_KEY), r.writable.profiles, Expanded(r)))
  }

  /** A looked-up VM is the target of its own snapshot: the first revalidation before a write succeeds. */
  lemma SnapshotIsTarget(parse: UuidParser, at: Location, r: Record, standalone: string)
    requires MapInstance(parse, at, Some(r), standalone).Ok?
    ensures var i := MapInstance(parse, at, Some(r), standalone).value;
      && i.project == at.project && i.name == at.name
      && (IsTarget(parse, i, Some(r)) <==> i.kind == VIRTUAL_MACHINE)
  {
  }

  /**
   * A record is mapped exactly if it is there under the name and project asked for, has a UUID, and a
   * location once a standalone server's "none" is replaced; then field by field, and otherwise it is denied.
   */
  lemma MapsExactly(parse: UuidParser, at: Location, current: Option<Record>, standalone: string)
    ensures MapInstance(parse, at, current, standalone).Ok? <==>
              && current.Some? && at.name != "" && current.value.name == at.name
              && (current.value.project == at.project || current.value.project == "")
              && parse(ConfigValue(Expanded(current.value), "volatile.uuid")).Some?
              && current.value.location != "" && (current.value.location == "none" ==> standalone != "")
    ensures MapInstance(parse, at, current, standalone).Ok? ==>
      var (i, r) := (MapInstance(parse, at, current, standalone).value, current.value);
      && i.project == at.project && i.name == r.name && i.kind == r.kind
      && parse(ConfigValue(Expanded(r), "volatile.uuid")) == Some(i.uuid)
      && (r.location != "none" ==> i.location == r.location) && (r.location == "none" ==> i.location == standalone)
      && i.cloudInitID == ConfigValue(Expanded(r), "volatile.cloud-init.instance-id")
      && i.profiles == r.writable.profiles
      && (forall k :: k in i.expandedConfig <==> k in r.writable.config || k in r.inherited)
      && (forall k :: k in r.writable.config ==> i.expandedConfig[k] == r.writable.config[k])
      && (forall k :: k in r.inherited && k !in r.writable.config ==> i.expandedConfig[k] == r.inherited[k])
    ensures MapInstance(parse, at, current, standalone).Err? ==>
              MapInstance(parse, at, current, standalone) == Err(Error({Denied}))
  {
  }

  /** The target, field by field. */
  lemma TargetExactly(parse: UuidParser, target: Instance, current: Option<Record>)
    ensures IsTarget(parse, target, current) <==>
              && current.Some? && current.value.name == target.name && current.value.kind == "virtual-machine"
              && (current.value.project == "" || current.value.project == target.project)
              && parse(ConfigValue(Expanded(current.value), "volatile.uuid")) == Some(target.uuid)
  {
  }
}
