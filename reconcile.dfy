/**
 * The one-level reconciliation as values: which destination records survive
 * and which are orphans, which tag each source record receives from the
 * surviving destination records, and how the copy phase tags the rest.
 * Every list function recurses on the LAST element, so that it describes
 * exactly what a front-to-back loop has done after each step.
 */
module Reconcile {
  import opened Wrappers
  import opened Records

  // ---------------------------------------------------------------- delete

  /** Some record of `src` is equal to `d` under kind `k`. */
  predicate HasEqual(k: Kind, src: seq<Record>, d: Record)
  {
    exists i :: 0 <= i < |src| && Equal(k, src[i], d)
  }

  /** The destination records that the delete phase keeps, in list order. */
  function Survivors(k: Kind, src: seq<Record>, dst: seq<Record>): (kept: seq<Record>)
    ensures |kept| <= |dst|
  {
    if dst == [] then []
    else if HasEqual(k, src, dst[|dst| - 1]) then Survivors(k, src, dst[..|dst| - 1]) + [dst[|dst| - 1]]
    else Survivors(k, src, dst[..|dst| - 1])
  }

  /** The destination records that the delete phase deletes, in list order. */
  function Orphans(k: Kind, src: seq<Record>, dst: seq<Record>): (deleted: seq<Record>)
    ensures |deleted| <= |dst|
  {
    if dst == [] then []
    else if HasEqual(k, src, dst[|dst| - 1]) then Orphans(k, src, dst[..|dst| - 1])
    else Orphans(k, src, dst[..|dst| - 1]) + [dst[|dst| - 1]]
  }

  /**
   * A destination record survives exactly when some source record equals it,
   * and is an orphan exactly when none does.
   */
  lemma {:induction false} SurvivorsOrphansMembers(k: Kind, src: seq<Record>, dst: seq<Record>)
    ensures forall r :: r in Survivors(k, src, dst) <==> r in dst && HasEqual(k, src, r)
    ensures forall r :: r in Orphans(k, src, dst) <==> r in dst && !HasEqual(k, src, r)
  {
    if dst != [] {
      var front, last := dst[..|dst| - 1], dst[|dst| - 1];
      SurvivorsOrphansMembers(k, src, front);
      assert dst == front + [last];
    }
  }

  /** Every destination record is either kept or deleted, never both, never twice. */
  lemma {:induction false} SurvivorsOrphansPartition(k: Kind, src: seq<Record>, dst: seq<Record>)
    ensures multiset(Survivors(k, src, dst)) + multiset(Orphans(k, src, dst)) == multiset(dst)
  {
    if dst != [] {
      var front, last := dst[..|dst| - 1], dst[|dst| - 1];
      SurvivorsOrphansPartition(k, src, front);
      assert dst == front + [last];
    }
  }

  /**
   * The delete phase is a filter: it distributes over concatenation, so the
   * records it keeps stay in their relative order with their contents intact.
   */
  lemma {:induction false} SurvivorsOfConcat(k: Kind, src: seq<Record>, a: seq<Record>, b: seq<Record>)
    ensures Survivors(k, src, a + b) == Survivors(k, src, a) + Survivors(k, src, b)
    ensures Orphans(k, src, a + b) == Orphans(k, src, a) + Orphans(k, src, b)
    decreases |b|
  {
    if b == [] {
      assert a + b == a;
    } else {
      var front := b[..|b| - 1];
      assert (a + b)[..|a + b| - 1] == a + front;
      assert (a + b)[|a + b| - 1] == b[|b| - 1];
      SurvivorsOfConcat(k, src, a, front);
    }
  }

  /** When every destination record equals some source record, nothing is deleted. */
  lemma {:induction false} NothingOrphaned(k: Kind, src: seq<Record>, dst: seq<Record>)
    requires forall j :: 0 <= j < |dst| ==> HasEqual(k, src, dst[j])
    ensures Orphans(k, src, dst) == []
    ensures Survivors(k, src, dst) == dst
  {
    if dst != [] {
      var front, last := dst[..|dst| - 1], dst[|dst| - 1];
      forall j | 0 <= j < |front| ensures HasEqual(k, src, front[j]) {
        assert front[j] == dst[j];
      }
      NothingOrphaned(k, src, front);
      assert HasEqual(k, src, last);
      assert dst == front + [last];
    }
  }

  // ----------------------------------------------------------------- match

  /**
   * The identifier of the LAST record of `dst` equal to `s`: the match loop
   * overwrites the tag on every hit and never stops early.
   */
  function LastMatch(k: Kind, s: Record, dst: seq<Record>): Option<int>
  {
    if dst == [] then None
    else if Equal(k, s, dst[|dst| - 1]) then Some(dst[|dst| - 1].id)
    else LastMatch(k, s, dst[..|dst| - 1])
  }

  /** `s` after the match loop has compared it with every record of `dst`. */
  function Tag(k: Kind, s: Record, dst: seq<Record>): Record
  {
    match LastMatch(k, s, dst)
    case Some(id) => s.(destinationId := Some(id))
    case None => s
  }

  /** The source list after the match phase. */
  function Match(k: Kind, src: seq<Record>, dst: seq<Record>): (matched: seq<Record>)
    ensures |matched| == |src|
    ensures forall i :: 0 <= i < |src| ==> matched[i].(destinationId := src[i].destinationId) == src[i]
    ensures forall i :: 0 <= i < |src| && src[i].destinationId.Some? ==> matched[i].destinationId.Some?
  {
    seq(|src|, i requires 0 <= i < |src| => Tag(k, src[i], dst))
  }

  /** No match is found exactly when no destination record equals `s`. */
  lemma {:induction false} LastMatchNone(k: Kind, s: Record, dst: seq<Record>)
    ensures LastMatch(k, s, dst).None? <==> forall j :: 0 <= j < |dst| ==> !Equal(k, s, dst[j])
  {
    if dst != [] {
      var front := dst[..|dst| - 1];
      LastMatchNone(k, s, front);
      assert forall j :: 0 <= j < |front| ==> front[j] == dst[j];
    }
  }

  /** The match found is the identifier of the last equal destination record. */
  lemma {:induction false} LastMatchIsLast(k: Kind, s: Record, dst: seq<Record>, j: int)
    requires 0 <= j < |dst| && Equal(k, s, dst[j])
    requires forall j' :: j < j' < |dst| ==> !Equal(k, s, dst[j'])
    ensures LastMatch(k, s, dst) == Some(dst[j].id)
  {
    if j < |dst| - 1 {
      var front := dst[..|dst| - 1];
      assert forall j' :: j < j' < |front| ==> front[j'] == dst[j'];
      LastMatchIsLast(k, s, front, j);
    }
  }

  /**
   * The match phase changes nothing but the tags, keeps length and order,
   * and a source record ends up tagged exactly when it was tagged already or
   * some destination record equals it.
   */
  lemma MatchTagsExactly(k: Kind, src: seq<Record>, dst: seq<Record>)
    ensures |Match(k, src, dst)| == |src|
    ensures forall i :: 0 <= i < |src| ==>
      Match(k, src, dst)[i].(destinationId := src[i].destinationId) == src[i]
    ensures forall i :: 0 <= i < |src| ==>
      (Match(k, src, dst)[i].destinationId.Some? <==>
        src[i].destinationId.Some? || exists j :: 0 <= j < |dst| && Equal(k, src[i], dst[j]))
  {
    forall i | 0 <= i < |src|
      ensures Match(k, src, dst)[i].destinationId.Some? <==>
        src[i].destinationId.Some? || exists j :: 0 <= j < |dst| && Equal(k, src[i], dst[j])
    {
      LastMatchNone(k, src[i], dst);
    }
  }

  /** Orphans equal no source record, so deleting them first changes no tag. */
  lemma {:induction false} LastMatchIgnoresOrphans(k: Kind, src: seq<Record>, dst: seq<Record>, i: int)
    requires 0 <= i < |src|
    ensures LastMatch(k, src[i], Survivors(k, src, dst)) == LastMatch(k, src[i], dst)
  {
    if dst != [] {
      var front, last := dst[..|dst| - 1], dst[|dst| - 1];
      LastMatchIgnoresOrphans(k, src, front, i);
      if HasEqual(k, src, last) {
        var kept := Survivors(k, src, front) + [last];
        assert kept[..|kept| - 1] == Survivors(k, src, front);
      }
    }
  }

  /** Matching against the survivors tags exactly as matching against the whole list. */
  lemma MatchIgnoresOrphans(k: Kind, src: seq<Record>, dst: seq<Record>)
    ensures Match(k, src, Survivors(k, src, dst)) == Match(k, src, dst)
  {
    forall i | 0 <= i < |src|
      ensures Match(k, src, Survivors(k, src, dst))[i] == Match(k, src, dst)[i]
    {
      LastMatchIgnoresOrphans(k, src, dst, i);
    }
  }

  // ------------------------------------------------------------------ copy

  /** The records the copy phase creates in the destination, in list order. */
  function Untagged(src: seq<Record>): seq<Record>
  {
    if src == [] then []
    else if src[|src| - 1].destinationId.None? then Untagged(src[..|src| - 1]) + [src[|src| - 1]]
    else Untagged(src[..|src| - 1])
  }

  /**
   * The source list after the copy phase, where `ids` are the identifiers
   * the create calls returned, one per untagged record, in order.
   */
  function Copied(src: seq<Record>, ids: seq<int>): (r: seq<Record>)
    requires |ids| == |Untagged(src)|
    ensures |r| == |src|
  {
    if src == [] then []
    else if src[|src| - 1].destinationId.None? then
      Copied(src[..|src| - 1], ids[..|ids| - 1]) + [src[|src| - 1].(destinationId := Some(ids[|ids| - 1]))]
    else Copied(src[..|src| - 1], ids) + [src[|src| - 1]]
  }

  /** The tags that `after` carries at the positions where `before` was untagged. */
  function NewTags(before: seq<Record>, after: seq<Record>): seq<Option<int>>
    requires |before| == |after|
  {
    if before == [] then []
    else if before[|before| - 1].destinationId.None? then
      NewTags(before[..|before| - 1], after[..|after| - 1]) + [after[|after| - 1].destinationId]
    else NewTags(before[..|before| - 1], after[..|after| - 1])
  }

  /** A record is created exactly when it is untagged. */
  lemma {:induction false} UntaggedExactly(src: seq<Record>)
    ensures forall r :: r in Untagged(src) <==> r in src && r.destinationId.None?
    ensures Untagged(src) == [] <==> forall i :: 0 <= i < |src| ==> src[i].destinationId.Some?
  {
    if src != [] {
      var front := src[..|src| - 1];
      UntaggedExactly(front);
      assert src == front + [src[|src| - 1]];
    }
  }

  /**
   * After the copy phase every record is tagged, tagged records keep their
   * tag (no second create for them) and nothing but the tag changes.
   */
  lemma {:induction false} CopiedTagsAll(src: seq<Record>, ids: seq<int>)
    requires |ids| == |Untagged(src)|
    ensures forall i :: 0 <= i < |src| ==> Copied(src, ids)[i].destinationId.Some?
    ensures forall i :: 0 <= i < |src| && src[i].destinationId.Some? ==> Copied(src, ids)[i] == src[i]
    ensures forall i :: 0 <= i < |src| ==>
      Copied(src, ids)[i].(destinationId := src[i].destinationId) == src[i]
  {
    if src != [] {
      var front := src[..|src| - 1];
      if src[|src| - 1].destinationId.None? {
        CopiedTagsAll(front, ids[..|ids| - 1]);
      } else {
        CopiedTagsAll(front, ids);
      }
    }
  }

  /**
   * The identifier returned by the j-th create call is written onto the j-th
   * untagged record, the one whose payload that call posted.
   */
  lemma {:induction false} CopiedWritesReturnedIds(src: seq<Record>, ids: seq<int>)
    requires |ids| == |Untagged(src)|
    ensures NewTags(src, Copied(src, ids)) == seq(|ids|, j requires 0 <= j < |ids| => Some(ids[j]))
  {
    CopiedTagsAll(src, ids);
    if src != [] {
      var front, out := src[..|src| - 1], Copied(src, ids);
      if src[|src| - 1].destinationId.None? {
        CopiedWritesReturnedIds(front, ids[..|ids| - 1]);
        assert out[..|out| - 1] == Copied(front, ids[..|ids| - 1]);
      } else {
        CopiedWritesReturnedIds(front, ids);
        assert out[..|out| - 1] == Copied(front, ids);
      }
    }
  }

  // ------------------------------------------------------- the second run

  /** What the service holds after the create calls of one copy phase. */
  function Recreated(k: Kind, created: seq<Record>, ids: seq<int>): (rs: seq<Record>)
    requires |ids| == |created|
    ensures |rs| == |created|
  {
    if created == [] then []
    else Recreated(k, created[..|created| - 1], ids[..|ids| - 1])
         + [Posted(ids[|ids| - 1], PayloadOf(k, created[|created| - 1]))]
  }

  /** The j-th stored record is the j-th created record's payload under the j-th identifier. */
  lemma {:induction false} RecreatedAt(k: Kind, created: seq<Record>, ids: seq<int>, j: int)
    requires |ids| == |created| && 0 <= j < |created|
    ensures Recreated(k, created, ids)[j] == Posted(ids[j], PayloadOf(k, created[j]))
  {
    if j < |created| - 1 {
      RecreatedAt(k, created[..|created| - 1], ids[..|ids| - 1], j);
    }
  }

  /**
   * Every record a pass leaves in the destination equals some source record:
   * the survivors by the delete phase, the created ones by their payload.
   */
  lemma AfterRunAllKept(k: Kind, src: seq<Record>, kept: seq<Record>, ids: seq<int>, after: seq<Record>)
    requires forall j :: 0 <= j < |kept| ==> HasEqual(k, src, kept[j])
    requires |ids| == |Untagged(Match(k, src, kept))|
    requires after == kept + Recreated(k, Untagged(Match(k, src, kept)), ids)
    ensures forall j :: 0 <= j < |after| ==> HasEqual(k, src, after[j])
  {
    var matched := Match(k, src, kept);
    var created := Untagged(matched);
    var stored := Recreated(k, created, ids);
    UntaggedExactly(matched);
    forall j | |kept| <= j < |after| ensures HasEqual(k, src, after[j]) {
      var c := j - |kept|;
      assert created[c] in matched;
      var i :| 0 <= i < |src| && matched[i] == created[c];
      RecreatedAt(k, created, ids, c);
      EqualIffSamePayload(k, created[c], stored[c]);
      EqualIffSamePayload(k, src[i], stored[c]);
      assert Equal(k, src[i], after[j]);
    }
  }

  /**
   * Every source record is tagged after a pass's match phase or equals one of
   * the records its copy phase created.
   */
  lemma AfterRunAllMatched(k: Kind, src: seq<Record>, kept: seq<Record>, ids: seq<int>, after: seq<Record>)
    requires |ids| == |Untagged(Match(k, src, kept))|
    requires after == kept + Recreated(k, Untagged(Match(k, src, kept)), ids)
    ensures forall i :: 0 <= i < |src| ==>
      src[i].destinationId.Some? || exists j :: 0 <= j < |after| && Equal(k, src[i], after[j])
  {
    var matched := Match(k, src, kept);
    var created := Untagged(matched);
    var stored := Recreated(k, created, ids);
    UntaggedExactly(matched);
    MatchTagsExactly(k, src, kept);
    forall i | 0 <= i < |src| && src[i].destinationId.None?
      ensures exists j :: 0 <= j < |after| && Equal(k, src[i], after[j])
    {
      if matched[i].destinationId.Some? {
        var j :| 0 <= j < |kept| && Equal(k, src[i], kept[j]);
        assert after[j] == kept[j];
      } else {
        assert matched[i] in created;
        var c :| 0 <= c < |created| && created[c] == matched[i];
        RecreatedAt(k, created, ids, c);
        EqualIffSamePayload(k, created[c], stored[c]);
        EqualIffSamePayload(k, src[i], stored[c]);
        assert after[|kept| + c] == stored[c];
        assert Equal(k, src[i], after[|kept| + c]);
      }
    }
  }

  /**
   * One delete-match-copy pass leaves the destination list in a state where a
   * second pass over the same source finds no orphan and leaves no source
   * record untagged: it issues no delete call and no create call. The
   * destination list of the second pass is the survivors of the first pass
   * followed by the records its create calls stored.
   */
  lemma SecondRunIsQuiet(k: Kind, src: seq<Record>, dst: seq<Record>, ids: seq<int>)
    requires |ids| == |Untagged(Match(k, src, Survivors(k, src, dst)))|
    ensures var kept := Survivors(k, src, dst);
            var after := kept + Recreated(k, Untagged(Match(k, src, kept)), ids);
            Orphans(k, src, after) == [] && Survivors(k, src, after) == after &&
            Untagged(Match(k, src, after)) == []
  {
    var kept := Survivors(k, src, dst);
    var after := kept + Recreated(k, Untagged(Match(k, src, kept)), ids);
    SurvivorsOrphansMembers(k, src, dst);
    assert forall j :: 0 <= j < |kept| ==> kept[j] in kept;
    AfterRunAllKept(k, src, kept, ids, after);
    NothingOrphaned(k, src, after);
    AfterRunAllMatched(k, src, kept, ids, after);
    MatchTagsExactly(k, src, after);
    UntaggedExactly(Match(k, src, after));
  }

  /**
   * A list reconciled against itself has no orphan, and the match phase tags
   * every record of it, since each record equals itself.
   */
  lemma SelfRunIsQuiet(k: Kind, s: seq<Record>)
    ensures Orphans(k, s, s) == [] && Survivors(k, s, s) == s
    ensures Untagged(Match(k, s, s)) == []
  {
    forall j | 0 <= j < |s| ensures HasEqual(k, s, s[j]) {
      assert Equal(k, s[j], s[j]);
    }
    NothingOrphaned(k, s, s);
    MatchTagsExactly(k, s, s);
    UntaggedExactly(Match(k, s, s));
  }

  /**
   * The run after a run: its source list is the same as before, or, when
   * source and destination are one project, the destination list the first
   * run left. Either way it deletes nothing, keeps the whole destination
   * list and creates nothing.
   */
  lemma RerunIsQuiet(k: Kind, src: seq<Record>, dst: seq<Record>, ids: seq<int>, after: seq<Record>, src2: seq<Record>)
    requires |ids| == |Untagged(Match(k, src, Survivors(k, src, dst)))|
    requires after == Survivors(k, src, dst) + Recreated(k, Untagged(Match(k, src, Survivors(k, src, dst))), ids)
    requires src2 == src || src2 == after
    ensures Orphans(k, src2, after) == [] && Survivors(k, src2, after) == after
    ensures Untagged(Match(k, src2, Survivors(k, src2, after))) == []
  {
    if src2 == after {
      SelfRunIsQuiet(k, after);
    } else {
      SecondRunIsQuiet(k, src, dst, ids);
    }
  }

  // ------------------------------------------------------------- a scenario

  /** Suite A and suite B of the source project, suites (1, A) and (2, C) of the destination. */
  function ScenarioSource(): seq<Record>
  {
    [Record(10, "A", "", None, map[], None), Record(11, "B", "", None, map[], None)]
  }

  function ScenarioDestination(): seq<Record>
  {
    [Record(1, "A", "", None, map[], None), Record(2, "C", "", None, map[], None)]
  }

  /** In the scenario, suite 2 is the one orphan and suite 1 the one survivor. */
  lemma ScenarioDeletes()
    ensures Orphans(SuiteKind, ScenarioSource(), ScenarioDestination()) == [ScenarioDestination()[1]]
    ensures Survivors(SuiteKind, ScenarioSource(), ScenarioDestination()) == [ScenarioDestination()[0]]
  {
    var src, dst := ScenarioSource(), ScenarioDestination();
    assert "C" != "A" && "C" != "B" by {
      assert "C"[0] != "A"[0] && "C"[0] != "B"[0];
    }
    assert HasEqual(SuiteKind, src, dst[0]) by { assert Equal(SuiteKind, src[0], dst[0]); }
    assert !HasEqual(SuiteKind, src, dst[1]) by {
      assert !Equal(SuiteKind, src[0], dst[1]) && !Equal(SuiteKind, src[1], dst[1]);
    }
    assert dst[..1] == [dst[0]] && [dst[0]][..0] == [];
  }

  /** In the scenario, A is tagged with 1 and B is the only record created. */
  lemma ScenarioMatchesAndCopies()
    ensures Match(SuiteKind, ScenarioSource(), [ScenarioDestination()[0]])
         == [ScenarioSource()[0].(destinationId := Some(1)), ScenarioSource()[1]]
    ensures Untagged(Match(SuiteKind, ScenarioSource(), [ScenarioDestination()[0]])) == [ScenarioSource()[1]]
  {
    var src, d1 := ScenarioSource(), ScenarioDestination()[0];
    assert "B" != "A" by { assert "B"[0] != "A"[0]; }
    assert [d1][..0] == [];
    assert LastMatch(SuiteKind, src[0], [d1]) == Some(1);
    assert LastMatch(SuiteKind, src[1], [d1]) == None;
    var m := Match(SuiteKind, src, [d1]);
    assert m == [src[0].(destinationId := Some(1)), src[1]];
    assert m[..1] == [m[0]] && m[..1][..0] == [];
    assert Untagged(m[..1][..0]) == [];
    assert Untagged(m[..1]) == [];
    assert Untagged(m) == [m[1]];
  }
}
