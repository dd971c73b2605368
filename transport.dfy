/**
 * The test-management service as the synchronisation sees it through its
 * HTTP client: per-project lists of milestones and suites that can be
 * fetched, created into and deleted from, and a log of the mutating calls.
 * Transport, authentication and failures are not part of this model.
 */
module Transport {
  import opened Wrappers
  import opened Records

  /** A mutating request sent to the service. */
  datatype Call =
    | DeleteCall(kind: Kind, id: int)
    | CreateCall(project: int, payload: Payload, id: int)

  /** One delete call per record, carrying its identifier, in list order. */
  function DeleteCalls(k: Kind, deleted: seq<Record>): seq<Call>
  {
    if deleted == [] then []
    else DeleteCalls(k, deleted[..|deleted| - 1]) + [DeleteCall(k, deleted[|deleted| - 1].id)]
  }

  /** One create call per record, posting its payload and answered with `ids[j]`. */
  function CreateCalls(k: Kind, project: int, created: seq<Record>, ids: seq<int>): seq<Call>
    requires |ids| == |created|
  {
    if created == [] then []
    else CreateCalls(k, project, created[..|created| - 1], ids[..|ids| - 1])
         + [CreateCall(project, PayloadOf(k, created[|created| - 1]), ids[|ids| - 1])]
  }

  /** The kind a create call's payload belongs to. */
  function KindOf(p: Payload): Kind
  {
    if p.MilestoneData? then MilestoneKind else SuiteKind
  }

  /** The kind a phase of one kind leaves alone. */
  function Other(k: Kind): Kind
  {
    match k
    case MilestoneKind => SuiteKind
    case SuiteKind => MilestoneKind
  }

  /** The list a project holds; a project with nothing stored holds none. */
  function ListOf(lists: map<int, seq<Record>>, p: int): seq<Record>
  {
    if p in lists then lists[p] else []
  }

  /** `rs` without the records whose identifier is `id`. */
  function WithoutId(rs: seq<Record>, id: int): (r: seq<Record>)
    ensures forall x :: x in r <==> x in rs && x.id != id
  {
    if rs == [] then []
    else if rs[|rs| - 1].id == id then WithoutId(rs[..|rs| - 1], id)
    else WithoutId(rs[..|rs| - 1], id) + [rs[|rs| - 1]]
  }

  /** `rs` without the records whose identifier is in `ids`, in list order. */
  function WithoutIds(rs: seq<Record>, ids: set<int>): (r: seq<Record>)
    ensures forall x :: x in r <==> x in rs && x.id !in ids
  {
    if rs == [] then []
    else if rs[|rs| - 1].id in ids then WithoutIds(rs[..|rs| - 1], ids)
    else WithoutIds(rs[..|rs| - 1], ids) + [rs[|rs| - 1]]
  }

  /** The identifiers of the records `ds`. */
  function IdsOf(ds: seq<Record>): (ids: set<int>)
    ensures forall d :: d in ds ==> d.id in ids
    ensures forall id :: id in ids ==> exists d :: d in ds && d.id == id
  {
    if ds == [] then {}
    else IdsOf(ds[..|ds| - 1]) + {ds[|ds| - 1].id}
  }

  /**
   * The service hands out each identifier once per kind: two stored records
   * of one kind with the same identifier are the same record in the same
   * project.
   */
  ghost predicate UniqueIds(lists: map<int, seq<Record>>)
  {
    forall p, q, r, r' :: p in lists && q in lists && r in lists[p] && r' in lists[q] && r.id == r'.id ==>
      p == q && r == r'
  }

  /** Every stored record has an identifier below `next` and carries no tag. */
  ghost predicate StoredBelow(lists: map<int, seq<Record>>, next: int)
  {
    forall p, r :: p in lists && r in lists[p] ==> r.id < next && r.destinationId.None?
  }

  /** Appending a record with the next identifier keeps the identifiers unique and below the new bound. */
  lemma AppendFresh(lists: map<int, seq<Record>>, next: int, project: int, created: Record)
    requires StoredBelow(lists, next) && UniqueIds(lists)
    requires created.id == next && created.destinationId.None?
    ensures StoredBelow(lists[project := ListOf(lists, project) + [created]], next + 1)
    ensures UniqueIds(lists[project := ListOf(lists, project) + [created]])
  {
    var after := lists[project := ListOf(lists, project) + [created]];
    forall p, r | p in after && r in after[p] ensures r == created || (p in lists && r in lists[p]) {
      if p == project && r != created {
        assert r in ListOf(lists, project);
      }
    }
  }

  /** Removing records everywhere keeps the identifiers unique and below the bound. */
  lemma RemoveId(lists: map<int, seq<Record>>, next: int, id: int)
    requires StoredBelow(lists, next) && UniqueIds(lists)
    ensures StoredBelow(map p | p in lists :: WithoutId(lists[p], id), next)
    ensures UniqueIds(map p | p in lists :: WithoutId(lists[p], id))
  {
  }

  class Api {
    var milestones: map<int, seq<Record>>
    var suites: map<int, seq<Record>>
    /** The identifier the service hands out to the next created record. */
    var nextId: int
    /** The delete and create calls received, oldest first. */
    ghost var log: seq<Call>

    ghost predicate Valid()
      reads this
    {
      StoredBelow(milestones, nextId) && StoredBelow(suites, nextId) &&
      UniqueIds(milestones) && UniqueIds(suites)
    }

    /** The lists of kind `k`, by project. */
    function Lists(k: Kind): map<int, seq<Record>>
      reads this
    {
      match k
      case MilestoneKind => milestones
      case SuiteKind => suites
    }

    /** The list of kind `k` that project `p` holds. */
    function List(k: Kind, p: int): seq<Record>
      reads this
    {
      ListOf(Lists(k), p)
    }

    constructor (milestones: map<int, seq<Record>>, suites: map<int, seq<Record>>, nextId: int)
      requires StoredBelow(milestones, nextId) && StoredBelow(suites, nextId)
      requires UniqueIds(milestones) && UniqueIds(suites)
      ensures Valid() && log == []
      ensures this.milestones == milestones && this.suites == suites && this.nextId == nextId
    {
      this.milestones := milestones;
      this.suites := suites;
      this.nextId := nextId;
      log := [];
    }

    /** `get_milestones/{p}` or `get_suites/{p}`: records the service never tagged. */
    method Get(k: Kind, p: int) returns (rs: seq<Record>)
      requires Valid()
      ensures rs == List(k, p)
      ensures forall r :: r in rs ==> r.id < nextId && r.destinationId.None?
      ensures forall r, r' :: r in rs && r' in rs && r.id == r'.id ==> r == r'
    {
      match k
      case MilestoneKind => rs := ListOf(milestones, p);
      case SuiteKind => rs := ListOf(suites, p);
    }

    /**
     * `add_milestone/{project}` or `add_suite/{project}`, chosen by the
     * payload: stores exactly the posted fields under an identifier the
     * service has not handed out before, and returns that record.
     */
    method Add(project: int, payload: Payload) returns (created: Record)
      requires Valid()
      modifies this
      ensures Valid()
      ensures created == Posted(old(nextId), payload) && nextId == old(nextId) + 1
      ensures log == old(log) + [CreateCall(project, payload, created.id)]
      ensures var k := KindOf(payload);
              Lists(k) == old(Lists(k))[project := old(List(k, project)) + [created]] &&
              Lists(Other(k)) == old(Lists(Other(k)))
    {
      created := Posted(nextId, payload);
      AppendFresh(milestones, nextId, project, created);
      AppendFresh(suites, nextId, project, created);
      if payload.MilestoneData? {
        milestones := milestones[project := ListOf(milestones, project) + [created]];
      } else {
        suites := suites[project := ListOf(suites, project) + [created]];
      }
      nextId := nextId + 1;
      log := log + [CreateCall(project, payload, created.id)];
    }

    /** `delete_milestone/{id}` or `delete_suite/{id}`: the record with that identifier goes. */
    method Delete(k: Kind, id: int)
      requires Valid()
      modifies this
      ensures Valid() && nextId == old(nextId)
      ensures log == old(log) + [DeleteCall(k, id)]
      ensures Lists(k) == map p | p in old(Lists(k)) :: WithoutId(old(Lists(k))[p], id)
      ensures Lists(Other(k)) == old(Lists(Other(k)))
    {
      log := log + [DeleteCall(k, id)];
      RemoveId(milestones, nextId, id);
      RemoveId(suites, nextId, id);
      match k
      case MilestoneKind =>
        milestones := map p | p in milestones :: WithoutId(milestones[p], id);
      case SuiteKind =>
        suites := map p | p in suites :: WithoutId(suites[p], id);
    }
  }
}
