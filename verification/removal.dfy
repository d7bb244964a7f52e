/** Handling of an item removed upstream: look up the stored original,
    try the unlink cascade, then choose between spiking the original,
    cancelling it, or leaving it alone. */
module Removal {
  import opened Wrappers
  import opened Unlink

  const Ingested := "ingested"
  const Postponed := "postponed"
  const Cancelled := "cancelled"

  /** The collection an item lives in. */
  datatype Resource = Events | Planning

  /** The operation requested from the host. `Missing` is the logged error
      for an original that could not be found: no further call is made. */
  datatype Action =
    | Missing
    | Spike(resource: Resource, id: string)
    | Cancel(id: string, etag: string)
    | NoAction

  /** The ingested item as received: its `guid` and `type`. */
  datatype IngestedItem = IngestedItem(guid: string, itemType: Option<string>)

  /** The store after the cascade, and the action requested. */
  datatype Outcome = Outcome(store: Store, action: Action)

  function ResourceFor(item: IngestedItem): (r: Resource)
    ensures r == Events <==> item.itemType == Some(EventType)
  {
    if item.itemType == Some(EventType) then Events else Planning
  }

  function Collection(s: Store, r: Resource): map<string, Record> {
    if r == Events then s.events else s.planning
  }

  /** The original may be spiked: it has no (or an empty) `pubstatus` and its
      workflow state is ingested, draft, postponed or cancelled. */
  predicate Spikeable(original: Record) {
    && !Truthy(original.pubstatus)
    && original.state.Some?
    && original.state.value in {Ingested, Draft, Postponed, Cancelled}
  }

  /** The spike/cancel decision on a found original. */
  function Decide(resource: Resource, original: Record): (a: Action)
    ensures a != Missing
    ensures a.Spike? <==> Spikeable(original)
    ensures a.Cancel? <==> !Spikeable(original) && original.pubstatus != Some(Cancelled)
    ensures a.NoAction? <==> !Spikeable(original) && original.pubstatus == Some(Cancelled)
    ensures a.Spike? ==> a.resource == resource && a.id == original.id
    ensures a.Cancel? ==> a.id == original.id && a.etag == original.etag
  {
    if Spikeable(original) then Spike(resource, original.id)
    else if original.pubstatus != Some(Cancelled) then Cancel(original.id, original.etag)
    else NoAction
  }

  /** `unpost_or_spike_event_or_planning`. The cascade's failures come from
      host services outside the model: `fault` is `None` when the cascade
      completes, or the store a failed cascade left behind. */
  function HandleRemoval(s: Store, item: IngestedItem, fault: Option<Store>): (r: Outcome)
    // a missing original: nothing is unlinked, spiked or cancelled
    ensures item.guid !in Collection(s, ResourceFor(item)) ==> r == Outcome(s, Missing)
    // a found original: the decision is taken whatever the cascade did
    ensures item.guid in Collection(s, ResourceFor(item)) ==>
              var original := Collection(s, ResourceFor(item))[item.guid];
              && r.action == Decide(ResourceFor(item), original)
              && r.action != Missing
              && (r.action.Spike? <==> Spikeable(original))
              && (r.action.Cancel? <==> !Spikeable(original) && original.pubstatus != Some(Cancelled))
              && (r.action.Spike? ==> r.action.resource == ResourceFor(item))
              && (fault.None? ==> r.store == UnlinkItem(s, original))
              && (fault.Some? ==> r.store == fault.value)
  {
    var resource := ResourceFor(item);
    var table := Collection(s, resource);
    if item.guid !in table then Outcome(s, Missing)
    else
      var original := table[item.guid];
      var after := if fault.None? then UnlinkItem(s, original) else fault.value;
      Outcome(after, Decide(resource, original))
  }

  /** A failing cascade does not change the decision. */
  lemma DecisionIgnoresUnlinkFailure(s: Store, item: IngestedItem, f1: Option<Store>, f2: Option<Store>)
    ensures HandleRemoval(s, item, f1).action == HandleRemoval(s, item, f2).action
  {
  }

  /** An already cancelled original that cannot be spiked is left alone. */
  lemma AlreadyCancelledIsLeftAlone(s: Store, item: IngestedItem, fault: Option<Store>)
    requires item.guid in Collection(s, ResourceFor(item))
    requires Collection(s, ResourceFor(item))[item.guid].pubstatus == Some(Cancelled)
    ensures HandleRemoval(s, item, fault).action == NoAction
  {
  }
}
