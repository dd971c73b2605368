/** The optional value used for the transient `destination_id` tag and for `due_on`. */
module Wrappers {
  datatype Option<+T> = None | Some(value: T)
}

/**
 * The records exchanged with the test-management service: milestones and
 * suites, the two kind-specific equality predicates and the field projection
 * that is posted when a record is created in the destination project.
 */
module Records {
  import opened Wrappers

  /** The two kinds of record the one-level reconciliation runs over. */
  datatype Kind = MilestoneKind | SuiteKind

  /**
   * A milestone or suite as fetched from the service. `others` stands for the
   * remaining fields the service returns (url, project_id, is_completed, ...),
   * which the synchronisation never inspects. `destinationId` is the transient
   * `destination_id` tag the synchronisation writes onto source records; the
   * service never returns it. Suites carry `dueOn == None`.
   */
  datatype Record = Record(
    id: int,
    name: string,
    description: string,
    dueOn: Option<int>,
    others: map<string, string>,
    destinationId: Option<int>)

  /** The body posted by a create call: only the fields that kind compares. */
  datatype Payload =
    | MilestoneData(name: string, description: string, dueOn: Option<int>)
    | SuiteData(name: string, description: string)

  /** Two milestones are equal when name, description and due date agree. */
  predicate EqualMilestones(a: Record, b: Record): (eq: bool)
    ensures eq <==> a.name == b.name && a.description == b.description && a.dueOn == b.dueOn
  {
    if a.name != b.name then false
    else if a.description != b.description then false
    else if a.dueOn != b.dueOn then false
    else true
  }

  /** Two suites are equal when name and description agree. */
  predicate EqualSuites(a: Record, b: Record): (eq: bool)
    ensures eq <==> a.name == b.name && a.description == b.description
  {
    if a.name != b.name then false
    else if a.description != b.description then false
    else true
  }

  /** The equality predicate of kind `k`; the source record is passed first. */
  predicate Equal(k: Kind, source: Record, destination: Record)
  {
    match k
    case MilestoneKind => EqualMilestones(source, destination)
    case SuiteKind => EqualSuites(source, destination)
  }

  /** The projection `addMilestone` / `addSuite` build from a source record. */
  function PayloadOf(k: Kind, r: Record): (p: Payload)
    ensures k == MilestoneKind <==> p.MilestoneData?
    ensures p.name == r.name && p.description == r.description
    ensures p.MilestoneData? ==> p.dueOn == r.dueOn
  {
    match k
    case MilestoneKind => MilestoneData(r.name, r.description, r.dueOn)
    case SuiteKind => SuiteData(r.name, r.description)
  }

  /**
   * The record the service holds after a create call with body `p` answered
   * with identifier `id`: the posted fields and nothing else.
   */
  function Posted(id: int, p: Payload): (r: Record)
    ensures r.id == id && r.name == p.name && r.description == p.description
    ensures r.dueOn == (if p.MilestoneData? then p.dueOn else None)
    ensures r.destinationId == None && r.others == map[]
  {
    Record(id, p.name, p.description,
           if p.MilestoneData? then p.dueOn else None, map[], None)
  }

  /** Both predicates hold exactly when the projected fields agree. */
  lemma EqualIffSamePayload(k: Kind, a: Record, b: Record)
    ensures Equal(k, a, b) <==> PayloadOf(k, a) == PayloadOf(k, b)
  {
  }

  /** Hence each predicate is reflexive, symmetric and transitive. */
  lemma EqualIsEquivalence(k: Kind, a: Record, b: Record, c: Record)
    ensures Equal(k, a, a)
    ensures Equal(k, a, b) <==> Equal(k, b, a)
    ensures Equal(k, a, b) && Equal(k, b, c) ==> Equal(k, a, c)
  {
  }

  /** Milestone equality is the stricter one: it adds the due date. */
  lemma EqualMilestonesRefinesSuites(a: Record, b: Record)
    ensures EqualMilestones(a, b) <==> EqualSuites(a, b) && a.dueOn == b.dueOn
  {
  }

  /**
   * Neither the identifier, nor the tag, nor any unprojected field is ever
   * sent: the payload does not depend on them.
   */
  lemma PayloadIgnoresBookkeeping(k: Kind, r: Record, id: int, tag: Option<int>, others: map<string, string>)
    ensures PayloadOf(k, r.(id := id, destinationId := tag, others := others)) == PayloadOf(k, r)
  {
  }

  /**
   * A record created from a source record's payload is equal to that source
   * record under the kind's predicate, whatever identifier the service picks.
   */
  lemma PostedEqualsSource(k: Kind, r: Record, id: int)
    ensures Equal(k, r, Posted(id, PayloadOf(k, r)))
    ensures Posted(id, PayloadOf(k, r)).id == id
  {
  }
}
