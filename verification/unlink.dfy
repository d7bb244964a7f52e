/** The unlink cascade over an abstract host store. Each host collection
    (events, planning, delivery, assignments, and the content reachable
    through the search service) is a map from `_id` to record; the host's
    direct deletes and system updates become map updates, so the cascade is
    a function from store to store. */
module Unlink {
  import opened Wrappers

  const EventType := "event"
  const Draft := "draft"

  /** A coverage's `assigned_to` sub-record. */
  datatype Assignee = Assignee(assignmentId: Option<string>, desk: Option<string>, user: Option<string>)

  /** A coverage of a planning item; `details` holds every field the cascade
      does not touch (planning details, news coverage status, ...). */
  datatype Coverage = Coverage(
    coverageId: string,
    assignedTo: Option<Assignee>,
    workflowStatus: Option<string>,
    details: map<string, string>)

  /** An event or planning record as stored by the host. */
  datatype Record = Record(
    id: string,
    guid: string,
    itemType: Option<string>,
    state: Option<string>,
    pubstatus: Option<string>,
    etag: string,
    coverages: Option<seq<Coverage>>,
    eventItem: Option<string>)

  /** A `delivery` record: ties a coverage of a planning item to content. */
  datatype Delivery = Delivery(coverageId: Option<string>, planningId: Option<string>, itemId: Option<string>)

  /** An `assignments` record. */
  datatype Assignment = Assignment(planningItem: Option<string>, coverageItem: Option<string>)

  /** An archived, published or draft content item. */
  datatype Content = Content(assignmentId: Option<string>, fields: map<string, string>)

  /** The host collections. `planningOrder` is the order in which the
      host's `find` enumerates the planning collection. */
  datatype Store = Store(
    events: map<string, Record>,
    planning: map<string, Record>,
    planningOrder: seq<string>,
    delivery: map<string, Delivery>,
    assignments: map<string, Assignment>,
    content: map<string, Content>)

  /** Every stored record sits under its own `_id`, and the planning
      collection holds planning items only. */
  ghost predicate Valid(s: Store) {
    && (forall k :: k in s.events ==> s.events[k].id == k)
    && (forall k :: k in s.planning ==> s.planning[k].id == k && s.planning[k].itemType != Some(EventType))
  }

  // ---------------------------------------------------------------------
  // Coverages
  // ---------------------------------------------------------------------

  /** `item.get("coverages") or []`. */
  function CoveragesOf(item: Record): seq<Coverage> {
    item.coverages.GetOr([])
  }

  /** Removes the assignee and puts the coverage back into draft. */
  function ResetCoverage(c: Coverage): Coverage {
    c.(assignedTo := None, workflowStatus := Some(Draft))
  }

  /** Every coverage loses its assignee and becomes draft; count, order,
      ids and every other field are kept. */
  function ResetCoverages(covs: seq<Coverage>): (r: seq<Coverage>)
    ensures |r| == |covs|
    ensures forall i :: 0 <= i < |r| ==>
              && r[i].assignedTo.None?
              && r[i].workflowStatus == Some(Draft)
              && r[i].coverageId == covs[i].coverageId
              && r[i].details == covs[i].details
  {
    seq(|covs|, i requires 0 <= i < |covs| => ResetCoverage(covs[i]))
  }

  /** Resetting coverages a second time changes nothing. */
  lemma ResetCoveragesIdempotent(covs: seq<Coverage>)
    ensures ResetCoverages(ResetCoverages(covs)) == ResetCoverages(covs)
  {
  }

  function CoverageIds(covs: seq<Coverage>): set<string> {
    set i | 0 <= i < |covs| :: covs[i].coverageId
  }

  // ---------------------------------------------------------------------
  // Host deletes and updates
  // ---------------------------------------------------------------------

  /** `owner` names one of `ids`. */
  predicate OwnedBy(owner: Option<string>, ids: set<string>) {
    owner.Some? && owner.value in ids
  }

  /** `delete(lookup={field: id})` for every id in `ids`: drops the records
      whose owner field names one of them. */
  function DropOwnedBy<V>(m: map<string, V>, owner: V -> Option<string>, ids: set<string>): (r: map<string, V>)
    ensures forall k :: k in r <==> k in m && !OwnedBy(owner(m[k]), ids)
    ensures forall k :: k in r ==> r[k] == m[k]
  {
    map k | k in m && !OwnedBy(owner(m[k]), ids) :: m[k]
  }

  lemma DropOwnedByTwice<V>(m: map<string, V>, owner: V -> Option<string>, a: set<string>, b: set<string>)
    ensures DropOwnedBy(DropOwnedBy(m, owner, a), owner, b) == DropOwnedBy(m, owner, a + b)
  {
  }

  function DeliveryOwner(d: Delivery): Option<string> {
    d.planningId
  }

  function AssignmentOwner(a: Assignment): Option<string> {
    a.planningItem
  }

  /** The planning collection after the coverages of each item in `ids`
      have been reset and written back. */
  function ResetPlanning(p: map<string, Record>, ids: set<string>): (r: map<string, Record>)
    ensures r.Keys == p.Keys
    ensures forall k :: k in p && k !in ids ==> r[k] == p[k]
    ensures forall k :: k in p && k in ids ==> r[k] == p[k].(coverages := Some(ResetCoverages(CoveragesOf(p[k]))))
  {
    map k | k in p :: if k in ids then p[k].(coverages := Some(ResetCoverages(CoveragesOf(p[k])))) else p[k]
  }

  lemma ResetPlanningTwice(p: map<string, Record>, a: set<string>, b: set<string>)
    ensures ResetPlanning(ResetPlanning(p, a), b) == ResetPlanning(p, a + b)
  {
    forall k | k in p
      ensures ResetPlanning(ResetPlanning(p, a), b)[k] == ResetPlanning(p, a + b)[k]
    {
      ResetCoveragesIdempotent(CoveragesOf(p[k]));
    }
  }

  // ---------------------------------------------------------------------
  // Unlinking one planning item
  // ---------------------------------------------------------------------

  /** Content `k` is found through a delivery of one of the coverages: the
      delivery names the coverage and has a non-empty `item_id` equal to `k`. */
  predicate LinkedThrough(s: Store, covs: seq<Coverage>, k: string) {
    exists d :: d in s.delivery && s.delivery[d].itemId == Some(k) && k != "" &&
                s.delivery[d].coverageId.Some? && s.delivery[d].coverageId.value in CoverageIds(covs)
  }

  /** The cascade calls the link/unlink hook on content `k`: it is linked
      through the coverages, exists, and carries a non-empty `assignment_id`. */
  predicate ClearsContent(s: Store, covs: seq<Coverage>, k: string) {
    k in s.content && Truthy(s.content[k].assignmentId) && LinkedThrough(s, covs, k)
  }

  /** `r` differs from `s` at most by content items losing `assignment_id`. */
  ghost predicate OnlyClearsAssignments(s: map<string, Content>, r: map<string, Content>) {
    && r.Keys == s.Keys
    && forall k :: k in s ==> r[k] == s[k] || r[k] == s[k].(assignmentId := None)
  }

  /** The planning branch of the cascade. A planning item without coverages
      leaves the store as it was. Otherwise: content reached through a
      coverage's deliveries has its `assignment_id` cleared, every delivery
      and assignment of the planning item is deleted, and the item's
      coverages are reset and written back to that planning item alone. */
  function UnlinkPlanning(s: Store, item: Record): (r: Store)
    ensures |CoveragesOf(item)| == 0 ==> r == s
    ensures r.events == s.events && r.planningOrder == s.planningOrder
    // deliveries and assignments of the item are gone ...
    ensures |CoveragesOf(item)| > 0 ==>
              && (forall k :: k in r.delivery ==> r.delivery[k].planningId != Some(item.id))
              && (forall k :: k in r.assignments ==> r.assignments[k].planningItem != Some(item.id))
    // ... and nothing else is deleted, changed or added
    ensures forall k :: k in s.delivery && s.delivery[k].planningId != Some(item.id) ==>
              k in r.delivery && r.delivery[k] == s.delivery[k]
    ensures forall k :: k in r.delivery ==> k in s.delivery && r.delivery[k] == s.delivery[k]
    ensures forall k :: k in s.assignments && s.assignments[k].planningItem != Some(item.id) ==>
              k in r.assignments && r.assignments[k] == s.assignments[k]
    ensures forall k :: k in r.assignments ==> k in s.assignments && r.assignments[k] == s.assignments[k]
    // content loses `assignment_id` exactly where the hook is called
    ensures OnlyClearsAssignments(s.content, r.content)
    ensures forall k :: k in s.content ==>
              (r.content[k] != s.content[k] <==> |CoveragesOf(item)| > 0 && ClearsContent(s, CoveragesOf(item), k))
    ensures forall k :: k in s.content && |CoveragesOf(item)| > 0 && ClearsContent(s, CoveragesOf(item), k) ==>
              r.content[k].assignmentId.None?
    // the reset coverages are written to this planning item only
    ensures r.planning.Keys == s.planning.Keys
    ensures forall k :: k in s.planning && (k != item.id || |CoveragesOf(item)| == 0) ==> r.planning[k] == s.planning[k]
    ensures item.id in s.planning && |CoveragesOf(item)| > 0 ==>
              r.planning[item.id] == s.planning[item.id].(coverages := Some(ResetCoverages(CoveragesOf(item))))
  {
    var covs := CoveragesOf(item);
    if |covs| == 0 then s
    else
      s.(
        content := map k | k in s.content ::
          if ClearsContent(s, covs, k) then s.content[k].(assignmentId := None) else s.content[k],
        delivery := DropOwnedBy(s.delivery, DeliveryOwner, {item.id}),
        assignments := DropOwnedBy(s.assignments, AssignmentOwner, {item.id}),
        planning := if item.id in s.planning
                    then s.planning[item.id := s.planning[item.id].(coverages := Some(ResetCoverages(covs)))]
                    else s.planning)
  }

  /** Unlinking the same planning item again is a no-op: the cascade is
      safe to re-run after a partial or complete earlier run. */
  lemma UnlinkPlanningIdempotent(s: Store, id: string)
    requires id in s.planning && s.planning[id].id == id
    ensures var s1 := UnlinkPlanning(s, s.planning[id]);
            UnlinkPlanning(s1, s1.planning[id]) == s1
  {
    var item := s.planning[id];
    var covs := CoveragesOf(item);
    var s1 := UnlinkPlanning(s, item);
    if |covs| > 0 {
      var item1 := s1.planning[id];
      var covs1 := CoveragesOf(item1);
      assert covs1 == ResetCoverages(covs);
      assert CoverageIds(covs1) == CoverageIds(covs);
      ResetCoveragesIdempotent(covs);
      var s2 := UnlinkPlanning(s1, item1);
      forall k | k in s1.content
        ensures !ClearsContent(s1, covs1, k)
      {
        LinkedThroughFewerDeliveries(s, s1, covs, covs1, k);
      }
      assert s2.content == s1.content;
      assert s2.delivery == s1.delivery;
      assert s2.assignments == s1.assignments;
      assert s2.planning == s1.planning;
    }
  }

  /** Content reachable after deliveries were deleted was reachable before. */
  lemma LinkedThroughFewerDeliveries(s: Store, s1: Store, covs: seq<Coverage>, covs1: seq<Coverage>, k: string)
    requires forall d :: d in s1.delivery ==> d in s.delivery && s1.delivery[d] == s.delivery[d]
    requires CoverageIds(covs1) == CoverageIds(covs)
    ensures LinkedThrough(s1, covs1, k) ==> LinkedThrough(s, covs, k)
  {
    if LinkedThrough(s1, covs1, k) {
      var d :| d in s1.delivery && s1.delivery[d].itemId == Some(k) && k != "" &&
               s1.delivery[d].coverageId.Some? && s1.delivery[d].coverageId.value in CoverageIds(covs1);
      assert d in s.delivery && s.delivery[d] == s1.delivery[d];
    }
  }

  /** Deliveries are consistent for a planning item when every delivery
      naming one of its coverages also names the item itself. */
  ghost predicate DeliveriesConsistent(s: Store, item: Record) {
    forall k :: k in s.delivery && s.delivery[k].coverageId.Some? &&
                s.delivery[k].coverageId.value in CoverageIds(CoveragesOf(item)) ==>
                s.delivery[k].planningId == Some(item.id)
  }

  /** On consistent deliveries, deleting by planning id removes every
      delivery that references one of the item's coverages. */
  lemma UnlinkPlanningRemovesCoverageDeliveries(s: Store, item: Record)
    requires DeliveriesConsistent(s, item)
    requires |CoveragesOf(item)| > 0
    ensures var r := UnlinkPlanning(s, item);
            forall k :: k in r.delivery && r.delivery[k].coverageId.Some? ==>
              r.delivery[k].coverageId.value !in CoverageIds(CoveragesOf(item))
  {
  }

  // ---------------------------------------------------------------------
  // Unlinking an event: every planning item of the event
  // ---------------------------------------------------------------------

  predicate LinkedToEvent(s: Store, eventId: string, k: string) {
    k in s.planning && s.planning[k].eventItem == Some(eventId)
  }

  /** Walks the planning ids in the order `find` yields them and applies the
      planning branch to every planning item of the event. */
  function UnlinkEventPlanning(s: Store, eventId: string, order: seq<string>): Store
    decreases |order|
  {
    if |order| == 0 then s
    else
      var k := order[0];
      var s' := if LinkedToEvent(s, eventId, k) then UnlinkPlanning(s, s.planning[k]) else s;
      UnlinkEventPlanning(s', eventId, order[1..])
  }

  /** `unlink_item_from_all_content`: an event unlinks each of its planning
      items; anything else is unlinked as a planning item. */
  function UnlinkItem(s: Store, item: Record): (r: Store)
    ensures item.itemType != Some(EventType) ==> r == UnlinkPlanning(s, item)
    ensures item.itemType == Some(EventType) && Valid(s) ==>
              EventCascadeEffect(s, r, ClearedIn(s, item.id, s.planningOrder))
  {
    if item.itemType == Some(EventType) then
      EventWalkEffect(s, item.id, s.planningOrder);
      UnlinkEventPlanning(s, item.id, s.planningOrder)
    else UnlinkPlanning(s, item)
  }

  /** `UnlinkEventPlanningEffect` for any store, conditional on validity. */
  lemma EventWalkEffect(s: Store, eventId: string, order: seq<string>)
    ensures Valid(s) ==> EventCascadeEffect(s, UnlinkEventPlanning(s, eventId, order), ClearedIn(s, eventId, order))
  {
    if Valid(s) {
      UnlinkEventPlanningEffect(s, eventId, order);
    }
  }

  /** The planning items among `order` that the event cascade actually
      clears: linked to the event and holding coverages. */
  ghost function ClearedIn(s: Store, eventId: string, order: seq<string>): set<string> {
    set k | k in order && LinkedToEvent(s, eventId, k) && |CoveragesOf(s.planning[k])| > 0
  }

  /** The effect of the event cascade on the store, given the set of
      planning items it cleared. */
  ghost predicate EventCascadeEffect(s: Store, r: Store, cleared: set<string>) {
    && r.events == s.events
    && r.planningOrder == s.planningOrder
    && r.delivery == DropOwnedBy(s.delivery, DeliveryOwner, cleared)
    && r.assignments == DropOwnedBy(s.assignments, AssignmentOwner, cleared)
    && r.planning == ResetPlanning(s.planning, cleared)
    && OnlyClearsAssignments(s.content, r.content)
  }

  /** One step of the walk is the planning branch on the stored record,
      which for a valid store is the cascade effect of that single id. */
  lemma StepEffect(s: Store, eventId: string, k0: string)
    requires Valid(s)
    ensures var s' := if LinkedToEvent(s, eventId, k0) then UnlinkPlanning(s, s.planning[k0]) else s;
            var first := if LinkedToEvent(s, eventId, k0) && |CoveragesOf(s.planning[k0])| > 0 then {k0} else {};
            && EventCascadeEffect(s, s', first)
            && Valid(s')
            && s'.planning.Keys == s.planning.Keys
            && (forall k :: k in s'.planning ==>
                  s'.planning[k].eventItem == s.planning[k].eventItem &&
                  |CoveragesOf(s'.planning[k])| == |CoveragesOf(s.planning[k])|)
  {
    var s' := if LinkedToEvent(s, eventId, k0) then UnlinkPlanning(s, s.planning[k0]) else s;
    var first: set<string> := if LinkedToEvent(s, eventId, k0) && |CoveragesOf(s.planning[k0])| > 0 then {k0} else {};
    if first == {} {
      assert s'.delivery == DropOwnedBy(s.delivery, DeliveryOwner, first);
      assert s'.assignments == DropOwnedBy(s.assignments, AssignmentOwner, first);
      assert s'.planning == ResetPlanning(s.planning, first);
    } else {
      assert s.planning[k0].id == k0;
      assert s'.planning == ResetPlanning(s.planning, first);
    }
  }

  /** Effects compose: a first step clearing `a` followed by a walk
      clearing `b` clears `a + b`. */
  lemma EffectCompose(s: Store, s': Store, r: Store, a: set<string>, b: set<string>)
    requires EventCascadeEffect(s, s', a)
    requires EventCascadeEffect(s', r, b)
    ensures EventCascadeEffect(s, r, a + b)
  {
    DropOwnedByTwice(s.delivery, DeliveryOwner, a, b);
    DropOwnedByTwice(s.assignments, AssignmentOwner, a, b);
    ResetPlanningTwice(s.planning, a, b);
  }

  lemma {:induction false} UnlinkEventPlanningEffect(s: Store, eventId: string, order: seq<string>)
    requires Valid(s)
    ensures EventCascadeEffect(s, UnlinkEventPlanning(s, eventId, order), ClearedIn(s, eventId, order))
    decreases |order|
  {
    if |order| == 0 {
      assert ClearedIn(s, eventId, order) == {};
      assert s.delivery == DropOwnedBy(s.delivery, DeliveryOwner, {});
      assert s.assignments == DropOwnedBy(s.assignments, AssignmentOwner, {});
      assert s.planning == ResetPlanning(s.planning, {});
    } else {
      var k0 := order[0];
      var rest := order[1..];
      var s' := if LinkedToEvent(s, eventId, k0) then UnlinkPlanning(s, s.planning[k0]) else s;
      var first: set<string> := if LinkedToEvent(s, eventId, k0) && |CoveragesOf(s.planning[k0])| > 0 then {k0} else {};
      StepEffect(s, eventId, k0);
      UnlinkEventPlanningEffect(s', eventId, rest);
      assert UnlinkEventPlanning(s, eventId, order) == UnlinkEventPlanning(s', eventId, rest);
      EffectCompose(s, s', UnlinkEventPlanning(s', eventId, rest), first, ClearedIn(s', eventId, rest));
      ClearedInStep(s, s', eventId, order);
    }
  }

  lemma ClearedInStep(s: Store, s': Store, eventId: string, order: seq<string>)
    requires |order| > 0
    requires s'.planning.Keys == s.planning.Keys
    requires forall k :: k in s'.planning ==>
               s'.planning[k].eventItem == s.planning[k].eventItem &&
               |CoveragesOf(s'.planning[k])| == |CoveragesOf(s.planning[k])|
    ensures ClearedIn(s, eventId, order) ==
            (if LinkedToEvent(s, eventId, order[0]) && |CoveragesOf(s.planning[order[0]])| > 0 then {order[0]} else {})
            + ClearedIn(s', eventId, order[1..])
  {
    assert forall k :: k in order <==> k == order[0] || k in order[1..];
  }

  /** Unlinking an event applies the planning branch to every planning item
      whose `event_item` is the event: their deliveries and assignments are
      deleted and their coverages reset, while planning items without
      coverages, planning items of other events, and the deliveries and
      assignments of those are left as they were. */
  lemma UnlinkEventClearsItsPlanning(s: Store, event: Record)
    requires Valid(s)
    requires event.itemType == Some(EventType)
    requires forall k :: k in s.planning ==> k in s.planningOrder
    ensures var cleared := set k | k in s.planning && LinkedToEvent(s, event.id, k) && |CoveragesOf(s.planning[k])| > 0;
            EventCascadeEffect(s, UnlinkItem(s, event), cleared)
  {
    UnlinkEventPlanningEffect(s, event.id, s.planningOrder);
    assert ClearedIn(s, event.id, s.planningOrder) ==
           set k | k in s.planning && LinkedToEvent(s, event.id, k) && |CoveragesOf(s.planning[k])| > 0;
  }

  /** Content `k` is reached from planning item `p` through delivery `d`,
      which belongs to `p` and names one of `p`'s coverages. */
  ghost predicate ReachedFrom(s: Store, p: string, d: string, k: string) {
    && p in s.planning
    && d in s.delivery
    && s.delivery[d].planningId == Some(p)
    && s.delivery[d].itemId == Some(k) && k != ""
    && s.delivery[d].coverageId.Some?
    && s.delivery[d].coverageId.value in CoverageIds(CoveragesOf(s.planning[p]))
  }

  lemma ReachedContentCleared(s: Store, p: string, d: string, k: string)
    requires Valid(s)
    requires ReachedFrom(s, p, d, k) && |CoveragesOf(s.planning[p])| > 0
    requires k in s.content && (Truthy(s.content[k].assignmentId) || s.content[k].assignmentId.None?)
    ensures k in UnlinkPlanning(s, s.planning[p]).content
    ensures UnlinkPlanning(s, s.planning[p]).content[k].assignmentId.None?
  {
    if Truthy(s.content[k].assignmentId) {
      assert LinkedThrough(s, CoveragesOf(s.planning[p]), k);
    }
  }

  lemma StepKeepsReach(s: Store, eventId: string, k0: string, p: string, d: string, k: string)
    requires Valid(s)
    requires k0 != p
    requires ReachedFrom(s, p, d, k)
    requires k in s.content && (Truthy(s.content[k].assignmentId) || s.content[k].assignmentId.None?)
    ensures var s' := if LinkedToEvent(s, eventId, k0) then UnlinkPlanning(s, s.planning[k0]) else s;
            && ReachedFrom(s', p, d, k)
            && s'.planning[p] == s.planning[p]
            && k in s'.content && (Truthy(s'.content[k].assignmentId) || s'.content[k].assignmentId.None?)
  {
    StepEffect(s, eventId, k0);
  }

  lemma {:induction false} UnlinkEventPlanningClearsContent(s: Store, eventId: string, order: seq<string>, p: string, d: string, k: string)
    requires Valid(s)
    requires p in ClearedIn(s, eventId, order)
    requires ReachedFrom(s, p, d, k)
    requires k in s.content && (Truthy(s.content[k].assignmentId) || s.content[k].assignmentId.None?)
    ensures k in UnlinkEventPlanning(s, eventId, order).content
    ensures UnlinkEventPlanning(s, eventId, order).content[k].assignmentId.None?
    decreases |order|
  {
    var k0 := order[0];
    var rest := order[1..];
    var s' := if LinkedToEvent(s, eventId, k0) then UnlinkPlanning(s, s.planning[k0]) else s;
    StepEffect(s, eventId, k0);
    ClearedInStep(s, s', eventId, order);
    assert UnlinkEventPlanning(s, eventId, order) == UnlinkEventPlanning(s', eventId, rest);
    if k0 == p {
      ReachedContentCleared(s, p, d, k);
      ClearedContentStays(s', eventId, rest, k);
    } else {
      StepKeepsReach(s, eventId, k0, p, d, k);
      assert p in ClearedIn(s', eventId, rest);
      UnlinkEventPlanningClearsContent(s', eventId, rest, p, d, k);
    }
  }

  /** Content whose `assignment_id` is already cleared stays cleared for
      the rest of the walk. */
  lemma ClearedContentStays(s: Store, eventId: string, order: seq<string>, k: string)
    requires Valid(s)
    requires k in s.content && s.content[k].assignmentId.None?
    ensures k in UnlinkEventPlanning(s, eventId, order).content
    ensures UnlinkEventPlanning(s, eventId, order).content[k].assignmentId.None?
  {
    UnlinkEventPlanningEffect(s, eventId, order);
  }

  /** Unlinking an event clears `assignment_id` on content reached from any
      of its cleared planning items through a delivery of that item. */
  lemma UnlinkEventClearsLinkedContent(s: Store, event: Record, p: string, d: string, k: string)
    requires Valid(s)
    requires event.itemType == Some(EventType)
    requires forall k :: k in s.planning ==> k in s.planningOrder
    requires LinkedToEvent(s, event.id, p) && |CoveragesOf(s.planning[p])| > 0
    requires ReachedFrom(s, p, d, k)
    requires k in s.content && Truthy(s.content[k].assignmentId)
    ensures k in UnlinkItem(s, event).content
    ensures UnlinkItem(s, event).content[k].assignmentId.None?
  {
    assert p in ClearedIn(s, event.id, s.planningOrder);
    UnlinkEventPlanningClearsContent(s, event.id, s.planningOrder, p, d, k);
  }
}
