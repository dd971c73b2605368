/**
 * The synchroniser: the three phases (delete orphans, match, copy) as loops
 * over the record lists, run for milestones and then for suites. Each phase
 * is written once for both kinds and proved against the functions of
 * module Reconcile; the class holds the four lists the phases update.
 */
module Sync {
  import opened Wrappers
  import opened Records
  import opened Reconcile
  import opened Transport

  /** The inner loop of the delete phase: the first equal source record ends the search. */
  method FindEqual(k: Kind, src: seq<Record>, d: Record) returns (found: bool)
    ensures found <==> HasEqual(k, src, d)
  {
    found := false;
    var i := 0;
    while i < |src|
      invariant 0 <= i <= |src|
      invariant forall i' :: 0 <= i' < i ==> !Equal(k, src[i'], d)
    {
      if Equal(k, src[i], d) {
        found := true;
        break;
      }
      i := i + 1;
    }
  }

  /** `deleteMilestone` / `deleteSuite`: one delete call carrying the record's identifier. */
  method DeleteRecord(api: Api, k: Kind, d: Record)
    requires api.Valid()
    modifies api
    ensures api.Valid() && api.nextId == old(api.nextId)
    ensures api.log == old(api.log) + [DeleteCall(k, d.id)]
    ensures DeletedFrom(api.Lists(k), old(api.Lists(k)), d.id)
    ensures api.Lists(Other(k)) == old(api.Lists(Other(k)))
  {
    api.Delete(k, d.id);
  }

  /**
   * `addMilestone` / `addSuite`: posts the kind's projection of `r` to
   * `project` and returns the record the service created for it.
   */
  method AddRecord(api: Api, k: Kind, project: int, r: Record) returns (created: Record)
    requires api.Valid()
    modifies api
    ensures api.Valid() && api.nextId == old(api.nextId) + 1
    ensures created == Posted(old(api.nextId), PayloadOf(k, r))
    ensures api.log == old(api.log) + [CreateCall(project, PayloadOf(k, r), created.id)]
    ensures api.List(k, project) == old(api.List(k, project)) + [created]
    ensures api.Lists(k) == old(api.Lists(k))[project := old(api.List(k, project)) + [created]]
    ensures api.Lists(Other(k)) == old(api.Lists(Other(k)))
  {
    created := api.Add(project, PayloadOf(k, r));
  }

  /**
   * The delete phase: walks the destination list as it was on entry, issues
   * one delete call per record that no source record equals, and removes
   * that record from the list in place.
   */
  method DeleteOrphans(api: Api, k: Kind, src: seq<Record>, dst: seq<Record>) returns (kept: seq<Record>)
    requires api.Valid()
    modifies api
    ensures api.Valid() && api.nextId == old(api.nextId)
    ensures kept == Survivors(k, src, dst)
    ensures api.log == old(api.log) + DeleteCalls(k, Orphans(k, src, dst))
    ensures FilteredFrom(api.Lists(k), old(api.Lists(k)), IdsOf(Orphans(k, src, dst)))
    ensures api.Lists(Other(k)) == old(api.Lists(Other(k)))
  {
    kept := dst;
    ghost var log0, lists0, others0 := api.log, api.Lists(k), api.Lists(Other(k));
    FilteredStart(lists0);
    var j := 0;
    for i := 0 to |dst|
      invariant Deleting(api, k, src, dst, i, j, kept, log0, lists0, others0, old(api.nextId))
    {
      j, kept := DeleteNext(api, k, src, dst, i, j, kept, log0, lists0, others0, old(api.nextId));
    }
    assert dst[..|dst|] == dst;
  }

  /**
   * The state of the delete loop after `i` destination records: `kept` is
   * the survivors so far followed by the records not yet visited, `j` is
   * where the next visited record sits in it, and the service has received
   * one delete call per orphan so far.
   */
  ghost predicate Deleting(api: Api, k: Kind, src: seq<Record>, dst: seq<Record>, i: int, j: int, kept: seq<Record>,
                           log0: seq<Call>, lists0: map<int, seq<Record>>, others0: map<int, seq<Record>>, next0: int)
    reads api
  {
    && 0 <= i <= |dst|
    && j == |Survivors(k, src, dst[..i])|
    && kept == Survivors(k, src, dst[..i]) + dst[i..]
    && api.Valid() && api.nextId == next0
    && api.log == log0 + DeleteCalls(k, Orphans(k, src, dst[..i]))
    && FilteredFrom(api.Lists(k), lists0, IdsOf(Orphans(k, src, dst[..i])))
    && api.Lists(Other(k)) == others0
  }

  /**
   * One iteration of the delete loop: destination record `i` is deleted and
   * removed from `kept` when no source record equals it.
   */
  method DeleteNext(api: Api, k: Kind, src: seq<Record>, dst: seq<Record>, i: int, j: int, kept: seq<Record>,
                    ghost log0: seq<Call>, ghost lists0: map<int, seq<Record>>, ghost others0: map<int, seq<Record>>,
                    ghost next0: int)
    returns (j': int, kept': seq<Record>)
    requires i < |dst| && Deleting(api, k, src, dst, i, j, kept, log0, lists0, others0, next0)
    modifies api
    ensures Deleting(api, k, src, dst, i + 1, j', kept', log0, lists0, others0, next0)
  {
    ghost var orphans := Orphans(k, src, dst[..i]);
    DeleteStep(k, src, dst, i);
    SplitAt(Survivors(k, src, dst[..i]), dst, i);
    var found := FindEqual(k, src, dst[i]);
    if !found {
      DeleteRecord(api, k, dst[i]);
      FilteredStep(old(api.Lists(k)), api.Lists(k), lists0, IdsOf(orphans), dst[i].id);
      DeleteCallsSnoc(k, orphans, dst[i]);
      AppendAssoc(log0, DeleteCalls(k, orphans), DeleteCall(k, dst[i].id));
      j', kept' := j, kept[..j] + kept[j + 1..];
    } else {
      j', kept' := j + 1, kept;
    }
  }

  /** Removing position `|done|` of `done + rest[i..]` leaves `done + rest[i + 1..]`. */
  lemma SplitAt(done: seq<Record>, rest: seq<Record>, i: int)
    requires 0 <= i < |rest|
    ensures (done + rest[i..])[..|done|] == done
    ensures (done + rest[i..])[|done| + 1..] == rest[i + 1..]
    ensures done + rest[i..] == (done + [rest[i]]) + rest[i + 1..]
  {
  }

  /** What one more step of the delete loop adds to the survivors, the orphans and the calls. */
  lemma DeleteStep(k: Kind, src: seq<Record>, dst: seq<Record>, i: int)
    requires 0 <= i < |dst|
    ensures HasEqual(k, src, dst[i]) ==>
      Survivors(k, src, dst[..i + 1]) == Survivors(k, src, dst[..i]) + [dst[i]] &&
      Orphans(k, src, dst[..i + 1]) == Orphans(k, src, dst[..i])
    ensures !HasEqual(k, src, dst[i]) ==>
      Survivors(k, src, dst[..i + 1]) == Survivors(k, src, dst[..i]) &&
      Orphans(k, src, dst[..i + 1]) == Orphans(k, src, dst[..i]) + [dst[i]]
  {
    assert dst[..i + 1][..i] == dst[..i];
  }

  /** Deleting one more record appends one delete call carrying its identifier. */
  lemma DeleteCallsSnoc(k: Kind, deleted: seq<Record>, r: Record)
    ensures DeleteCalls(k, deleted + [r]) == DeleteCalls(k, deleted) + [DeleteCall(k, r.id)]
    ensures IdsOf(deleted + [r]) == IdsOf(deleted) + {r.id}
  {
    assert (deleted + [r])[..|deleted|] == deleted;
  }

  /** Every project's list in `after` is its list in `before` without the records whose identifier is in `ids`. */
  ghost predicate FilteredFrom(after: map<int, seq<Record>>, before: map<int, seq<Record>>, ids: set<int>)
  {
    forall p :: ListOf(after, p) == WithoutIds(ListOf(before, p), ids)
  }

  lemma FilteredStart(lists: map<int, seq<Record>>)
    ensures FilteredFrom(lists, lists, {})
  {
    forall p ensures ListOf(lists, p) == WithoutIds(ListOf(lists, p), {}) {
      WithoutOtherIds(ListOf(lists, p), {});
    }
  }

  /** Every project's list in `after` is its list in `before` without the records with identifier `id`. */
  ghost predicate DeletedFrom(after: map<int, seq<Record>>, before: map<int, seq<Record>>, id: int)
  {
    forall p :: ListOf(after, p) == WithoutId(ListOf(before, p), id)
  }

  /** One more delete call filters every list by one more identifier. */
  lemma FilteredStep(lists: map<int, seq<Record>>, next: map<int, seq<Record>>, start: map<int, seq<Record>>,
                     ids: set<int>, id: int)
    requires FilteredFrom(lists, start, ids) && DeletedFrom(next, lists, id)
    ensures FilteredFrom(next, start, ids + {id})
  {
    forall p ensures ListOf(next, p) == WithoutIds(ListOf(start, p), ids + {id}) {
      WithoutIdsSnoc(ListOf(start, p), ids, id);
    }
  }

  /** Filtering by identifiers no record carries changes nothing. */
  lemma {:induction false} WithoutOtherIds(rs: seq<Record>, ids: set<int>)
    requires forall r :: r in rs ==> r.id !in ids
    ensures WithoutIds(rs, ids) == rs
  {
    if rs != [] {
      var front := rs[..|rs| - 1];
      assert forall r :: r in front ==> r in rs;
      WithoutOtherIds(front, ids);
      assert rs == front + [rs[|rs| - 1]];
    }
  }

  /**
   * Filtering the destination list by identifier keeps exactly the survivors
   * when the identifiers filtered out are exactly those of the orphans.
   */
  lemma {:induction false} FilterKeepsSurvivors(k: Kind, src: seq<Record>, dst: seq<Record>, ids: set<int>)
    requires forall r :: r in dst ==> (r.id in ids <==> !HasEqual(k, src, r))
    ensures WithoutIds(dst, ids) == Survivors(k, src, dst)
  {
    if dst != [] {
      var front := dst[..|dst| - 1];
      assert forall r :: r in front ==> r in dst;
      FilterKeepsSurvivors(k, src, front, ids);
    }
  }

  /**
   * With identifiers unique per kind, deleting the orphans of project `q`'s
   * list by identifier leaves that list's survivors and every other
   * project's list as it was.
   */
  lemma DeletesStayInProject(k: Kind, src: seq<Record>, lists: map<int, seq<Record>>, q: int)
    requires UniqueIds(lists)
    ensures WithoutIds(ListOf(lists, q), IdsOf(Orphans(k, src, ListOf(lists, q)))) == Survivors(k, src, ListOf(lists, q))
    ensures forall p :: p != q ==>
      WithoutIds(ListOf(lists, p), IdsOf(Orphans(k, src, ListOf(lists, q)))) == ListOf(lists, p)
  {
    var dst := ListOf(lists, q);
    var orphans := Orphans(k, src, dst);
    var ids := IdsOf(orphans);
    SurvivorsOrphansMembers(k, src, dst);
    forall r | r in dst ensures r.id in ids <==> !HasEqual(k, src, r) {
      if r.id in ids {
        var o :| o in orphans && o.id == r.id;
        assert o in dst;
      }
    }
    FilterKeepsSurvivors(k, src, dst, ids);
    forall p | p != q ensures WithoutIds(ListOf(lists, p), ids) == ListOf(lists, p) {
      WithoutOtherIds(ListOf(lists, p), ids);
    }
  }

  /** Deleting one more identifier from a filtered list filters by one more identifier. */
  lemma {:induction false} WithoutIdsSnoc(rs: seq<Record>, ids: set<int>, id: int)
    ensures WithoutId(WithoutIds(rs, ids), id) == WithoutIds(rs, ids + {id})
  {
    if rs != [] {
      var front, last := rs[..|rs| - 1], rs[|rs| - 1];
      WithoutIdsSnoc(front, ids, id);
      if last.id !in ids {
        var kept := WithoutIds(front, ids) + [last];
        assert kept[..|kept| - 1] == WithoutIds(front, ids);
      }
    }
  }

  /**
   * The match phase: every source record is compared with every surviving
   * destination record and is tagged on each hit, so the last hit wins.
   */
  method MatchTags(k: Kind, src: seq<Record>, dst: seq<Record>) returns (tagged: seq<Record>)
    ensures tagged == Match(k, src, dst)
  {
    tagged := src;
    for i := 0 to |src|
      invariant |tagged| == |src|
      invariant forall i' :: 0 <= i' < i ==> tagged[i'] == Tag(k, src[i'], dst)
      invariant forall i' :: i <= i' < |src| ==> tagged[i'] == src[i']
    {
      ghost var before := tagged;
      for j := 0 to |dst|
        invariant |tagged| == |src|
        invariant tagged[i] == Tag(k, src[i], dst[..j])
        invariant forall i' :: 0 <= i' < |src| && i' != i ==> tagged[i'] == before[i']
      {
        assert dst[..j + 1][..j] == dst[..j];
        if Equal(k, tagged[i], dst[j]) {
          tagged := tagged[i := tagged[i].(destinationId := Some(dst[j].id))];
        }
      }
      assert dst[..|dst|] == dst;
    }
  }

  /**
   * The copy phase: every record still untagged is created in `project` with
   * its kind's projection, and the identifier the service returns becomes
   * its tag. The ghost `ids` are those identifiers, in order.
   */
  method CopyUntagged(api: Api, k: Kind, project: int, src: seq<Record>)
    returns (tagged: seq<Record>, ghost ids: seq<int>)
    requires api.Valid()
    modifies api
    ensures api.Valid()
    ensures |ids| == |Untagged(src)| && tagged == Copied(src, ids)
    ensures api.log == old(api.log) + CreateCalls(k, project, Untagged(src), ids)
    ensures api.List(k, project) == old(api.List(k, project)) + Recreated(k, Untagged(src), ids)
    ensures api.nextId == old(api.nextId) + |ids|
    ensures forall j :: 0 <= j < |ids| ==> old(api.nextId) <= ids[j] < api.nextId
    ensures forall j, j' :: 0 <= j < j' < |ids| ==> ids[j] < ids[j']
    ensures forall p :: p != project ==> api.List(k, p) == old(api.List(k, p))
    ensures api.Lists(Other(k)) == old(api.Lists(Other(k)))
  {
    tagged, ids := src, [];
    ghost var log0, lists0, others0 := api.log, api.Lists(k), api.Lists(Other(k));
    for i := 0 to |src|
      invariant Copying(api, k, project, src, i, tagged, ids, log0, lists0, others0, old(api.nextId))
    {
      tagged, ids := CopyNext(api, k, project, src, i, tagged, ids, log0, lists0, others0, old(api.nextId));
    }
    assert src[..|src|] == src;
  }

  /**
   * The state of the copy loop after `i` source records: those among them
   * that were untagged have been created in `project`, in order, under the
   * identifiers `ids`, which the service handed out one after the other.
   */
  ghost predicate Copying(api: Api, k: Kind, project: int, src: seq<Record>, i: int, tagged: seq<Record>, ids: seq<int>,
                          log0: seq<Call>, lists0: map<int, seq<Record>>, others0: map<int, seq<Record>>, next0: int)
    reads api
  {
    && 0 <= i <= |src|
    && |ids| == |Untagged(src[..i])|
    && tagged == Copied(src[..i], ids) + src[i..]
    && api.Valid() && api.nextId == next0 + |ids|
    && (forall j :: 0 <= j < |ids| ==> ids[j] == next0 + j)
    && api.log == log0 + CreateCalls(k, project, Untagged(src[..i]), ids)
    && api.List(k, project) == ListOf(lists0, project) + Recreated(k, Untagged(src[..i]), ids)
    && SameExcept(api.Lists(k), lists0, project)
    && api.Lists(Other(k)) == others0
  }

  /** `after` holds the same list as `before` for every project but `project`. */
  ghost predicate SameExcept(after: map<int, seq<Record>>, before: map<int, seq<Record>>, project: int)
  {
    forall p :: p != project ==> ListOf(after, p) == ListOf(before, p)
  }

  /** Storing into `project` keeps every other project's list. */
  lemma SameExceptStep(after: map<int, seq<Record>>, before: map<int, seq<Record>>, project: int, rs: seq<Record>)
    requires SameExcept(after, before, project)
    ensures SameExcept(after[project := rs], before, project)
  {
  }

  /** What creating source record `i` under `id` adds to each part of the copy loop's state. */
  lemma CreatedStep(k: Kind, project: int, src: seq<Record>, i: int, tagged: seq<Record>, ids: seq<int>, id: int,
                    log0: seq<Call>, list0: seq<Record>)
    requires 0 <= i < |src| && |ids| == |Untagged(src[..i])| && src[i].destinationId.None?
    requires tagged == Copied(src[..i], ids) + src[i..]
    ensures |ids + [id]| == |Untagged(src[..i + 1])|
    ensures tagged[i := tagged[i].(destinationId := Some(id))] == Copied(src[..i + 1], ids + [id]) + src[i + 1..]
    ensures (log0 + CreateCalls(k, project, Untagged(src[..i]), ids)) + [CreateCall(project, PayloadOf(k, src[i]), id)]
         == log0 + CreateCalls(k, project, Untagged(src[..i + 1]), ids + [id])
    ensures (list0 + Recreated(k, Untagged(src[..i]), ids)) + [Posted(id, PayloadOf(k, src[i]))]
         == list0 + Recreated(k, Untagged(src[..i + 1]), ids + [id])
  {
    ghost var created := Untagged(src[..i]);
    SplitAt(Copied(src[..i], ids), src, i);
    CopyStep(src, i, ids, id);
    CreateCallsSnoc(k, project, created, src[i], ids, id);
    RecreatedSnoc(k, created, src[i], ids, id);
    ReplaceAt(Copied(src[..i], ids), src, i, src[i].(destinationId := Some(id)));
    AppendAssoc(log0, CreateCalls(k, project, created, ids), CreateCall(project, PayloadOf(k, src[i]), id));
    AppendAssoc(list0, Recreated(k, created, ids), Posted(id, PayloadOf(k, src[i])));
  }

  /** One iteration of the copy loop: source record `i` is created when it is still untagged. */
  method CopyNext(api: Api, k: Kind, project: int, src: seq<Record>, i: int, tagged: seq<Record>, ghost ids: seq<int>,
                  ghost log0: seq<Call>, ghost lists0: map<int, seq<Record>>, ghost others0: map<int, seq<Record>>,
                  ghost next0: int)
    returns (tagged': seq<Record>, ghost ids': seq<int>)
    requires i < |src| && Copying(api, k, project, src, i, tagged, ids, log0, lists0, others0, next0)
    modifies api
    ensures Copying(api, k, project, src, i + 1, tagged', ids', log0, lists0, others0, next0)
  {
    SplitAt(Copied(src[..i], ids), src, i);
    if tagged[i].destinationId.None? {
      var record := AddRecord(api, k, project, tagged[i]);
      CreatedStep(k, project, src, i, tagged, ids, record.id, log0, ListOf(lists0, project));
      SameExceptStep(old(api.Lists(k)), lists0, project, old(api.List(k, project)) + [record]);
      tagged' := tagged[i := tagged[i].(destinationId := Some(record.id))];
      ids' := ids + [record.id];
    } else {
      CopyStep(src, i, ids, 0);
      tagged', ids' := tagged, ids;
    }
  }

  lemma AppendAssoc<T>(a: seq<T>, b: seq<T>, x: T)
    ensures (a + b) + [x] == a + (b + [x])
  {
  }

  /** What one more step of the copy loop adds to the created records and the tagged list. */
  lemma CopyStep(src: seq<Record>, i: int, ids: seq<int>, id: int)
    requires 0 <= i < |src| && |ids| == |Untagged(src[..i])|
    ensures src[i].destinationId.None? ==>
      Untagged(src[..i + 1]) == Untagged(src[..i]) + [src[i]] &&
      Copied(src[..i + 1], ids + [id]) == Copied(src[..i], ids) + [src[i].(destinationId := Some(id))]
    ensures src[i].destinationId.Some? ==>
      Untagged(src[..i + 1]) == Untagged(src[..i]) &&
      Copied(src[..i + 1], ids) == Copied(src[..i], ids) + [src[i]]
  {
    assert src[..i + 1][..i] == src[..i];
    assert (ids + [id])[..|ids|] == ids;
  }

  /** Creating one more record appends one create call posting its payload. */
  lemma CreateCallsSnoc(k: Kind, project: int, created: seq<Record>, r: Record, ids: seq<int>, id: int)
    requires |ids| == |created|
    ensures CreateCalls(k, project, created + [r], ids + [id])
         == CreateCalls(k, project, created, ids) + [CreateCall(project, PayloadOf(k, r), id)]
  {
    assert (created + [r])[..|created|] == created;
    assert (ids + [id])[..|ids|] == ids;
  }

  /** Creating one more record appends the record the service stores for it. */
  lemma RecreatedSnoc(k: Kind, created: seq<Record>, r: Record, ids: seq<int>, id: int)
    requires |ids| == |created|
    ensures Recreated(k, created + [r], ids + [id]) == Recreated(k, created, ids) + [Posted(id, PayloadOf(k, r))]
  {
    assert (created + [r])[..|created|] == created;
    assert (ids + [id])[..|ids|] == ids;
  }

  /** Replacing position `|done|` of `done + rest[i..]`. */
  lemma ReplaceAt(done: seq<Record>, rest: seq<Record>, i: int, x: Record)
    requires 0 <= i < |rest|
    ensures (done + rest[i..])[|done| := x] == (done + [x]) + rest[i + 1..]
  {
  }

  /**
   * The object that synchronises one source project into one destination
   * project: the lists it has fetched and the tags it has written.
   */
  class TestRailSync {
    const api: Api
    var sourceProject: int
    var destinationProject: int
    var sourceMilestones: seq<Record>
    var destinationMilestones: seq<Record>
    var sourceSuites: seq<Record>
    var destinationSuites: seq<Record>

    constructor (api: Api)
      ensures this.api == api
      ensures sourceMilestones == [] && destinationMilestones == []
      ensures sourceSuites == [] && destinationSuites == []
    {
      this.api := api;
      sourceMilestones, destinationMilestones := [], [];
      sourceSuites, destinationSuites := [], [];
    }

    method SetSource(project: int)
      modifies this`sourceProject
      ensures sourceProject == project
    {
      sourceProject := project;
    }

    method SetDestination(project: int)
      modifies this`destinationProject
      ensures destinationProject == project
    {
      destinationProject := project;
    }

    /** Deletes the destination milestones no source milestone equals. */
    method DeleteOrphanedMilestones()
      requires api.Valid()
      modifies this`destinationMilestones, api
      ensures api.Valid() && api.nextId == old(api.nextId) && api.Lists(SuiteKind) == old(api.Lists(SuiteKind))
      ensures destinationMilestones == Survivors(MilestoneKind, sourceMilestones, old(destinationMilestones))
      ensures api.log == old(api.log)
        + DeleteCalls(MilestoneKind, Orphans(MilestoneKind, sourceMilestones, old(destinationMilestones)))
      ensures FilteredFrom(api.Lists(MilestoneKind), old(api.Lists(MilestoneKind)),
        IdsOf(Orphans(MilestoneKind, sourceMilestones, old(destinationMilestones))))
    {
      destinationMilestones := DeleteOrphans(api, MilestoneKind, sourceMilestones, destinationMilestones);
    }

    /** Deletes the destination suites no source suite equals. */
    method DeleteOrphanedSuites()
      requires api.Valid()
      modifies this`destinationSuites, api
      ensures api.Valid() && api.nextId == old(api.nextId) && api.Lists(MilestoneKind) == old(api.Lists(MilestoneKind))
      ensures destinationSuites == Survivors(SuiteKind, sourceSuites, old(destinationSuites))
      ensures api.log == old(api.log)
        + DeleteCalls(SuiteKind, Orphans(SuiteKind, sourceSuites, old(destinationSuites)))
      ensures FilteredFrom(api.Lists(SuiteKind), old(api.Lists(SuiteKind)),
        IdsOf(Orphans(SuiteKind, sourceSuites, old(destinationSuites))))
    {
      destinationSuites := DeleteOrphans(api, SuiteKind, sourceSuites, destinationSuites);
    }

    /** Tags each source milestone with the last equal destination milestone. */
    method MatchMilestones()
      modifies this`sourceMilestones
      ensures sourceMilestones == Match(MilestoneKind, old(sourceMilestones), destinationMilestones)
    {
      sourceMilestones := MatchTags(MilestoneKind, sourceMilestones, destinationMilestones);
    }

    /** Tags each source suite with the last equal destination suite. */
    method MatchSuites()
      modifies this`sourceSuites
      ensures sourceSuites == Match(SuiteKind, old(sourceSuites), destinationSuites)
    {
      sourceSuites := MatchTags(SuiteKind, sourceSuites, destinationSuites);
    }

    /** Creates every untagged source milestone in the destination project. */
    method CopyMilestones() returns (ghost ids: seq<int>)
      requires api.Valid()
      modifies this`sourceMilestones, api
      ensures api.Valid() && api.Lists(SuiteKind) == old(api.Lists(SuiteKind))
      ensures |ids| == |Untagged(old(sourceMilestones))|
      ensures sourceMilestones == Copied(old(sourceMilestones), ids)
      ensures api.log == old(api.log)
        + CreateCalls(MilestoneKind, destinationProject, Untagged(old(sourceMilestones)), ids)
      ensures api.List(MilestoneKind, destinationProject) == old(api.List(MilestoneKind, destinationProject))
        + Recreated(MilestoneKind, Untagged(old(sourceMilestones)), ids)
      ensures forall p :: p != destinationProject ==> api.List(MilestoneKind, p) == old(api.List(MilestoneKind, p))
      ensures api.nextId == old(api.nextId) + |ids|
      ensures forall j :: 0 <= j < |ids| ==> old(api.nextId) <= ids[j] < api.nextId
      ensures forall j, j' :: 0 <= j < j' < |ids| ==> ids[j] < ids[j']
    {
      sourceMilestones, ids := CopyUntagged(api, MilestoneKind, destinationProject, sourceMilestones);
    }

    /** Creates every untagged source suite in the destination project. */
    method CopySuites() returns (ghost ids: seq<int>)
      requires api.Valid()
      modifies this`sourceSuites, api
      ensures api.Valid() && api.Lists(MilestoneKind) == old(api.Lists(MilestoneKind))
      ensures |ids| == |Untagged(old(sourceSuites))|
      ensures sourceSuites == Copied(old(sourceSuites), ids)
      ensures api.log == old(api.log)
        + CreateCalls(SuiteKind, destinationProject, Untagged(old(sourceSuites)), ids)
      ensures api.List(SuiteKind, destinationProject) == old(api.List(SuiteKind, destinationProject))
        + Recreated(SuiteKind, Untagged(old(sourceSuites)), ids)
      ensures forall p :: p != destinationProject ==> api.List(SuiteKind, p) == old(api.List(SuiteKind, p))
      ensures api.nextId == old(api.nextId) + |ids|
      ensures forall j :: 0 <= j < |ids| ==> old(api.nextId) <= ids[j] < api.nextId
      ensures forall j, j' :: 0 <= j < j' < |ids| ==> ids[j] < ids[j']
    {
      sourceSuites, ids := CopyUntagged(api, SuiteKind, destinationProject, sourceSuites);
    }

    /**
     * The milestone half of `sync`: fetches both projects' milestones and
     * runs the three phases on them. `ids` are the identifiers the create
     * calls returned; none of them is the identifier of a fetched record.
     */
    method SyncMilestones() returns (ghost ids: seq<int>)
      requires api.Valid()
      modifies this`sourceMilestones, this`destinationMilestones, api
      ensures api.Valid() && old(api.nextId) <= api.nextId
      ensures api.Lists(SuiteKind) == old(api.Lists(SuiteKind))
      ensures var src, dst := old(api.List(MilestoneKind, sourceProject)), old(api.List(MilestoneKind, destinationProject));
              && destinationMilestones == Survivors(MilestoneKind, src, dst)
              && |ids| == |Untagged(Match(MilestoneKind, src, destinationMilestones))|
              && sourceMilestones == Copied(Match(MilestoneKind, src, destinationMilestones), ids)
              && api.List(MilestoneKind, destinationProject)
                 == destinationMilestones + Recreated(MilestoneKind, Untagged(Match(MilestoneKind, src, destinationMilestones)), ids)
              && (forall p :: p != destinationProject ==> api.List(MilestoneKind, p) == old(api.List(MilestoneKind, p)))
              && api.log == old(api.log)
                 + DeleteCalls(MilestoneKind, Orphans(MilestoneKind, src, dst))
                 + CreateCalls(MilestoneKind, destinationProject,
                               Untagged(Match(MilestoneKind, src, destinationMilestones)), ids)
              && (forall j, d :: 0 <= j < |ids| && d in dst ==> ids[j] != d.id)
    {
      sourceMilestones := api.Get(MilestoneKind, sourceProject);
      destinationMilestones := api.Get(MilestoneKind, destinationProject);
      DeletesStayInProject(MilestoneKind, sourceMilestones, api.Lists(MilestoneKind), destinationProject);
      DeleteOrphanedMilestones();
      MatchMilestones();
      ids := CopyMilestones();
    }

    /** The suite half of `sync`, as `SyncMilestones` for suites. */
    method SyncSuites() returns (ghost ids: seq<int>)
      requires api.Valid()
      modifies this`sourceSuites, this`destinationSuites, api
      ensures api.Valid() && old(api.nextId) <= api.nextId
      ensures api.Lists(MilestoneKind) == old(api.Lists(MilestoneKind))
      ensures var src, dst := old(api.List(SuiteKind, sourceProject)), old(api.List(SuiteKind, destinationProject));
              && destinationSuites == Survivors(SuiteKind, src, dst)
              && |ids| == |Untagged(Match(SuiteKind, src, destinationSuites))|
              && sourceSuites == Copied(Match(SuiteKind, src, destinationSuites), ids)
              && api.List(SuiteKind, destinationProject)
                 == destinationSuites + Recreated(SuiteKind, Untagged(Match(SuiteKind, src, destinationSuites)), ids)
              && (forall p :: p != destinationProject ==> api.List(SuiteKind, p) == old(api.List(SuiteKind, p)))
              && api.log == old(api.log)
                 + DeleteCalls(SuiteKind, Orphans(SuiteKind, src, dst))
                 + CreateCalls(SuiteKind, destinationProject,
                               Untagged(Match(SuiteKind, src, destinationSuites)), ids)
              && (forall j, d :: 0 <= j < |ids| && d in dst ==> ids[j] != d.id)
    {
      sourceSuites := api.Get(SuiteKind, sourceProject);
      destinationSuites := api.Get(SuiteKind, destinationProject);
      DeletesStayInProject(SuiteKind, sourceSuites, api.Lists(SuiteKind), destinationProject);
      DeleteOrphanedSuites();
      MatchSuites();
      ids := CopySuites();
    }

    /**
     * `sync`: reconciles milestones completely, then suites. `milestoneIds`
     * and `suiteIds` are the identifiers the create calls returned.
     */
    method Sync() returns (ghost milestoneIds: seq<int>, ghost suiteIds: seq<int>)
      requires api.Valid()
      modifies this`sourceMilestones, this`destinationMilestones, this`sourceSuites, this`destinationSuites, api
      ensures api.Valid()
      ensures var srcM, dstM := old(api.List(MilestoneKind, sourceProject)), old(api.List(MilestoneKind, destinationProject));
              var srcS, dstS := old(api.List(SuiteKind, sourceProject)), old(api.List(SuiteKind, destinationProject));
              && destinationMilestones == Survivors(MilestoneKind, srcM, dstM)
              && |milestoneIds| == |Untagged(Match(MilestoneKind, srcM, destinationMilestones))|
              && sourceMilestones == Copied(Match(MilestoneKind, srcM, destinationMilestones), milestoneIds)
              && destinationSuites == Survivors(SuiteKind, srcS, dstS)
              && |suiteIds| == |Untagged(Match(SuiteKind, srcS, destinationSuites))|
              && sourceSuites == Copied(Match(SuiteKind, srcS, destinationSuites), suiteIds)
              && api.log == old(api.log)
                 + DeleteCalls(MilestoneKind, Orphans(MilestoneKind, srcM, dstM))
                 + CreateCalls(MilestoneKind, destinationProject,
                               Untagged(Match(MilestoneKind, srcM, destinationMilestones)), milestoneIds)
                 + DeleteCalls(SuiteKind, Orphans(SuiteKind, srcS, dstS))
                 + CreateCalls(SuiteKind, destinationProject,
                               Untagged(Match(SuiteKind, srcS, destinationSuites)), suiteIds)
              && api.List(MilestoneKind, destinationProject) == destinationMilestones
                 + Recreated(MilestoneKind, Untagged(Match(MilestoneKind, srcM, destinationMilestones)), milestoneIds)
              && api.List(SuiteKind, destinationProject) == destinationSuites
                 + Recreated(SuiteKind, Untagged(Match(SuiteKind, srcS, destinationSuites)), suiteIds)
              && (forall j, d :: 0 <= j < |milestoneIds| && d in dstM ==> milestoneIds[j] != d.id)
              && (forall j, d :: 0 <= j < |suiteIds| && d in dstS ==> suiteIds[j] != d.id)
      ensures forall p :: p != destinationProject ==>
        api.List(MilestoneKind, p) == old(api.List(MilestoneKind, p)) && api.List(SuiteKind, p) == old(api.List(SuiteKind, p))
    {
      milestoneIds := SyncMilestones();
      suiteIds := SyncSuites();
    }

    /**
     * `sync` called twice: the second call finds every destination record
     * matched and every source record tagged, so it sends no call and changes
     * no stored list. Together the two calls have exactly the effect on the
     * service that the first one has.
     */
    method SyncTwice() returns (ghost milestoneIds: seq<int>, ghost suiteIds: seq<int>)
      requires api.Valid()
      modifies this`sourceMilestones, this`destinationMilestones, this`sourceSuites, this`destinationSuites, api
      ensures api.Valid()
      ensures var srcM, dstM := old(api.List(MilestoneKind, sourceProject)), old(api.List(MilestoneKind, destinationProject));
              var srcS, dstS := old(api.List(SuiteKind, sourceProject)), old(api.List(SuiteKind, destinationProject));
              var keptM, keptS := Survivors(MilestoneKind, srcM, dstM), Survivors(SuiteKind, srcS, dstS);
              && |milestoneIds| == |Untagged(Match(MilestoneKind, srcM, keptM))|
              && |suiteIds| == |Untagged(Match(SuiteKind, srcS, keptS))|
              && api.log == old(api.log)
                 + DeleteCalls(MilestoneKind, Orphans(MilestoneKind, srcM, dstM))
                 + CreateCalls(MilestoneKind, destinationProject, Untagged(Match(MilestoneKind, srcM, keptM)), milestoneIds)
                 + DeleteCalls(SuiteKind, Orphans(SuiteKind, srcS, dstS))
                 + CreateCalls(SuiteKind, destinationProject, Untagged(Match(SuiteKind, srcS, keptS)), suiteIds)
              && api.List(MilestoneKind, destinationProject)
                 == keptM + Recreated(MilestoneKind, Untagged(Match(MilestoneKind, srcM, keptM)), milestoneIds)
              && api.List(SuiteKind, destinationProject)
                 == keptS + Recreated(SuiteKind, Untagged(Match(SuiteKind, srcS, keptS)), suiteIds)
      ensures forall p :: p != destinationProject ==>
        api.List(MilestoneKind, p) == old(api.List(MilestoneKind, p)) && api.List(SuiteKind, p) == old(api.List(SuiteKind, p))
    {
      ghost var srcM, dstM := api.List(MilestoneKind, sourceProject), api.List(MilestoneKind, destinationProject);
      ghost var srcS, dstS := api.List(SuiteKind, sourceProject), api.List(SuiteKind, destinationProject);
      milestoneIds, suiteIds := Sync();
      RerunIsQuiet(MilestoneKind, srcM, dstM, milestoneIds,
                   api.List(MilestoneKind, destinationProject), api.List(MilestoneKind, sourceProject));
      RerunIsQuiet(SuiteKind, srcS, dstS, suiteIds,
                   api.List(SuiteKind, destinationProject), api.List(SuiteKind, sourceProject));
      ghost var againM, againS := Sync();
    }
  }
}
