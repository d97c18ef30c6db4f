/** The `Embedding` object and the validator guarding its two ids (src/domain/memory/models.py). */
module EmbeddingRecord {
  import opened Common
  import opened MemoryModel

  datatype Ids = Ids(uuid: Option<Uuid>, id: Option<nat>)

  datatype Assignment = ToUuid(uuid: Option<Uuid>) | ToId(id: Option<nat>)

  /** `validate_exclusive_fields`: a value may be set only while the other field is empty. */
  predicate Allowed(ids: Ids, a: Assignment) {
    match a
    case ToUuid(v) => v.None? || ids.id.None?
    case ToId(v) => v.None? || ids.uuid.None?
  }

  /** An assignment, or a ValueError that leaves the object as it was. */
  function Assign(ids: Ids, a: Assignment): Ids {
    if !Allowed(ids, a) then ids
    else
      match a
      case ToUuid(v) => ids.(uuid := v)
      case ToId(v) => ids.(id := v)
  }

  function AfterAssignments(assignments: seq<Assignment>, n: nat): Ids
    requires n <= |assignments|
  {
    if n == 0 then Ids(None, None) else Assign(AfterAssignments(assignments, n - 1), assignments[n - 1])
  }

  /** The two alternatives of ck_exactly_one_id. */
  predicate CheckHolds(ids: Ids) {
    (ids.uuid.Some? && ids.id.None?) || (ids.uuid.None? && ids.id.Some?)
  }

  /**
   * No sequence of assignments to a new object makes it hold both ids, so it may be stored exactly when one is set:
   * the validator covers one half of the table check and the table alone the other.
   */
  lemma {:induction false} NeverBothIds(assignments: seq<Assignment>, n: nat)
    requires n <= |assignments|
    ensures var ids := AfterAssignments(assignments, n);
            && (ids.uuid.None? || ids.id.None?)
            && (CheckHolds(ids) <==> ids != Ids(None, None))
  {
    if n > 0 {
      NeverBothIds(assignments, n - 1);
    }
  }

  /** What can be set on an object that holds at most one id is exactly what leaves it with at most one. */
  lemma AllowedIffOneIdRemains(ids: Ids, a: Assignment)
    requires ids.uuid.None? || ids.id.None?
    ensures var wanted := match a case ToUuid(v) => Ids(v, ids.id) case ToId(v) => Ids(ids.uuid, v);
            Assign(ids, a) == if wanted.uuid.None? || wanted.id.None? then wanted else ids
  {
  }

  /** The states an object can reach are exactly those with at most one id. */
  lemma ReachableIffAtMostOne(ids: Ids)
    ensures (exists assignments :: AfterAssignments(assignments, |assignments|) == ids)
       <==> ids.uuid.None? || ids.id.None?
  {
    forall assignments | AfterAssignments(assignments, |assignments|) == ids ensures ids.uuid.None? || ids.id.None? {
      NeverBothIds(assignments, |assignments|);
    }
    if ids.id.None? {
      assert AfterAssignments([ToUuid(ids.uuid)], 1) == ids by {
        assert AfterAssignments([ToUuid(ids.uuid)], 0) == Ids(None, None);
      }
    } else if ids.uuid.None? {
      assert AfterAssignments([ToId(ids.id)], 1) == ids by {
        assert AfterAssignments([ToId(ids.id)], 0) == Ids(None, None);
      }
    }
  }

  class Embedding {
    var embeddableUuid: Option<Uuid>
    var embeddableId: Option<nat>

    function Held(): Ids
      reads this
    {
      Ids(embeddableUuid, embeddableId)
    }

    constructor ()
      ensures Held() == Ids(None, None)
    {
      embeddableUuid, embeddableId := None, None;
    }

    method SetUuid(v: Option<Uuid>) returns (ok: bool)
      modifies this
      ensures ok == Allowed(old(Held()), ToUuid(v)) && Held() == Assign(old(Held()), ToUuid(v))
      ensures ok <==> v.None? || old(embeddableId).None?
      ensures embeddableId == old(embeddableId) && embeddableUuid == if ok then v else old(embeddableUuid)
      ensures old(embeddableUuid.None? || embeddableId.None?) ==> embeddableUuid.None? || embeddableId.None?
    {
      if v.Some? && embeddableId.Some? {
        return false;
      }
      embeddableUuid := v;
      return true;
    }

    method SetId(v: Option<nat>) returns (ok: bool)
      modifies this
      ensures ok == Allowed(old(Held()), ToId(v)) && Held() == Assign(old(Held()), ToId(v))
      ensures ok <==> v.None? || old(embeddableUuid).None?
      ensures embeddableUuid == old(embeddableUuid) && embeddableId == if ok then v else old(embeddableId)
      ensures old(embeddableUuid.None? || embeddableId.None?) ==> embeddableUuid.None? || embeddableId.None?
    {
      if v.Some? && embeddableUuid.Some? {
        return false;
      }
      embeddableId := v;
      return true;
    }
  }
}
