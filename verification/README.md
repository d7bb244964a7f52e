# superdesk-stt core, modelled in Dafny

This project models the STT ingest core of superdesk-stt:

- **Identifier helpers** (`server/stt/common.py`):
  - `remove_date_portion_from_id` strips the date segment (and the version segment) from colon-separated ids.
  - `is_online_version` tests the subject list for the `sttversion`/`6` marker.
  - `planning_xml_contains_remove_signal` searches a NewsML-G2 tree for an `itemMeta` element carrying the `sttinstruct:remove` signal.
- **Removal of an ingested event or planning item** (`server/stt/common.py`):
  - `unpost_or_spike_event_or_planning` looks up the stored original, runs the unlink cascade, and then spikes the original, cancels it, or leaves it alone.
  - `unlink_item_from_all_content` is the cascade. For a planning item it:
    - clears `assignment_id` on content reached through the coverages' deliveries;
    - deletes the item's deliveries and assignments;
    - resets its coverages to draft without an assignee.

    For an event it does the same to every planning item of the event.
- **Feed post-processing** (`server/stt/parser.py`):
  - `STTParser.parse` promotes `place` entries into `subject`. It adds the `sttlocmeta` place itself, then the location-map fields, de-duplicated by name.
  - `set_extra_fields` copies vendor fields of the NewsML-G2 document into `item['extra']`.

The host platform becomes explicit data:

- **Store.** The host's collections are a `Store` of maps: events, planning, delivery, assignments and content. The cascade is a function `Store -> Store`.
- **Removal outcome.** The removal handler returns the store after the cascade together with the action it requests: spike, cancel or nothing.
- **XML.** The document is an immutable `Node` tree. `find` is the first child with a tag; `findall` is the ordered filter of the children. lxml's `//` searches from the root of the element's document, so the tree given to `Common.PlanningXmlContainsRemoveSignal` is the document root.
- **Exceptions.** An `AttributeError` on a missing element ends only its own `try` block, which is modelled as `Option` short-circuiting inside that block.
- **Escaping exceptions.** Exceptions that escape `parse` become a `Failure` result:
  - an `IndexError` on a topic or event qcode without a colon;
  - a `KeyError` on a location qcode key the place lacks;
  - a `TypeError` when `extra['imagetype']` is not a mapping.

Where the code and its documentation disagree, the model follows the code:

- **Deliveries.** The docstring of `unlink_item_from_all_content` says the deliveries "that match any coverage" are deleted. The code deletes the deliveries whose `planning_id` is the item's id. `Unlink.UnlinkPlanning` deletes by planning id. `Unlink.UnlinkPlanningRemovesCoverageDeliveries` shows that the two readings agree when every delivery naming one of the item's coverages also names the item.
- **Bare topic or event qcode.** A subject qcode of exactly `stt-topics` or `stt-events` makes `values[1]` raise an `IndexError` that the surrounding `except AttributeError` does not catch. The model keeps this: `ExtraFields.TopicsLoop` fails exactly when such a subject is present, and the failure propagates out of `Parser.Parse`.

Modules, one per file:

| file | module | contents |
|---|---|---|
| `wrappers.dfy` | `Wrappers` | `Option`, `Result`, Python truthiness of optional strings |
| `strings.dfy` | `Strings` | `str.split` and `str.join` on one separator, with both round trips |
| `numbers.dfy` | `Numbers` | `int()` restricted to an optional sign and decimal digits |
| `seqs.dfy` | `Seqs` | "the last match wins", "stop at the first failing element", map with early exit |
| `xml.dfy` | `Xml` | the element tree, `find`, `findall`, paths into the tree |
| `items.dfy` | `Items` | the ingest item record: subjects, places, `extra` |
| `common.dfy` | `Common` | id normalisation, online version, remove signal |
| `unlink.dfy` | `Unlink` | the store and the unlink cascade |
| `removal.dfy` | `Removal` | the spike/cancel decision |
| `extra_fields.dfy` | `ExtraFields` | `set_extra_fields` |
| `parser.dfy` | `Parser` | `get_subject_names`, place promotion, `parse` |

## Model

| member | source | states |
|---|---|---|
| Strings.JoinSplit | server/stt/common.py:117-126 | joining the colon segments of any string gives the string back, so an id with neither five nor six segments is returned unchanged |
| Strings.SplitJoin | server/stt/common.py:117-126 | splitting a join of separator-free segments gives the segments back, so the kept segments of a normalised id are exactly the ones chosen |
| Common.RemoveDatePortion | server/stt/common.py:110-126 | five segments: the result's segments are the input's with index 3 removed; six segments: indices 3 and 5 removed, the other four in their original order; any other count: the id unchanged |
| Common.RemoveDatePortionIdempotent | server/stt/common.py:117-126 | normalising an id twice gives the same result as normalising it once |
| Common.RemoveDatePortionFive | server/stt/common.py:117-120 | an id of five colon-free segments `a:b:c:d:e` becomes `a:b:c:e` |
| Common.RemoveDatePortionExample | server/stt/common.py:111-115 | the documented example: `urn:newsml:stt.fi:20230317:276671` becomes `urn:newsml:stt.fi:276671` |
| Common.FirstOnlineMarker | server/stt/common.py:134-139 | the generator's first match is a subject of the list carrying the marker; the result is `None` exactly when no subject carries it |
| Common.IsOnlineVersion | server/stt/common.py:133-140 | true iff the subject list is present and some subject has scheme `sttversion` and qcode `6`; false for an absent or empty list |
| Common.SignalHitsComplete | server/stt/common.py:20 | every `itemMeta` element reachable by a path with a direct remove-signal child makes the query result non-empty |
| Common.SignalHitsSound | server/stt/common.py:20 | a non-empty query result has a witness path to an `itemMeta` element with a direct remove-signal child |
| Common.SignalHitsIff | server/stt/common.py:20 | the query result is non-empty iff some path leads to an `itemMeta` element with a direct remove-signal child |
| Common.PlanningXmlContainsRemoveSignal | server/stt/common.py:16-22 | true iff some `itemMeta` element anywhere in the tree, the root included, has a direct `signal` child with qcode `sttinstruct:remove`; false otherwise |
| Removal.ResourceFor | server/stt/common.py:26 | the collection is `events` iff the item type is `event`, otherwise `planning` |
| Removal.Decide | server/stt/common.py:39-47 | spike iff `pubstatus` is falsy and the state is ingested, draft, postponed or cancelled; otherwise cancel iff `pubstatus` is not `cancelled`; otherwise nothing; spike names the collection and id, cancel the id and `_etag` |
| Removal.HandleRemoval | server/stt/common.py:25-47 | a missing original leaves the store unchanged and requests nothing; a found original gets exactly the spike/cancel decision on it (spike of its collection and id, cancel with its id and `_etag`, or nothing) whether or not the cascade failed, and the store is the cascade's result, or the state a failed cascade left |
| Removal.DecisionIgnoresUnlinkFailure | server/stt/common.py:33-37 | the requested action is the same whether or not the unlink cascade fails |
| Removal.AlreadyCancelledIsLeftAlone | server/stt/common.py:39-47 | an original that cannot be spiked and whose `pubstatus` is already `cancelled` is left alone |
| Unlink.ResetCoverages | server/stt/common.py:79-82 | coverage count and order are kept; every coverage loses its assignee and gets workflow status `draft`; its id and all other fields are kept |
| Unlink.ResetCoveragesIdempotent | server/stt/common.py:79-82 | resetting already reset coverages changes nothing |
| Unlink.DropOwnedBy | server/stt/common.py:100-104 | a delete by owner id keeps exactly the records whose owner names none of the ids, and keeps them unchanged |
| Unlink.ResetPlanning | server/stt/common.py:107 | the listed planning items get reset coverages written back; every other planning item and the key set are unchanged |
| Unlink.UnlinkItem | server/stt/common.py:65-70 | a record that is not an event gets the planning branch; for an event, the store ends with the deliveries and assignments of exactly its planning items with coverages deleted, those items reset, and content only losing `assignment_id` |
| Unlink.UnlinkPlanning | server/stt/common.py:70-107 | no coverages: store unchanged; otherwise no delivery or assignment of the item remains, those of other items are untouched and none is added, content loses `assignment_id` exactly where it is reached through a coverage's delivery and carries one, and only this planning item gets its reset coverages |
| Unlink.UnlinkPlanningIdempotent | server/stt/common.py:74-107 | running the planning branch again on the updated item changes nothing |
| Unlink.UnlinkPlanningRemovesCoverageDeliveries | server/stt/common.py:56-58 | when every delivery of a coverage also names the planning item, no delivery naming one of the item's coverages remains, as the docstring says |
| Unlink.UnlinkEventPlanningEffect | server/stt/common.py:67-69 | walking the planning items in `find` order deletes the deliveries and assignments of, and resets, exactly the linked planning items with coverages, and only clears `assignment_id` on content |
| Unlink.UnlinkEventClearsItsPlanning | server/stt/common.py:67-69 | unlinking an event applies the planning branch to every planning item whose `event_item` is the event id, and to no other |
| Unlink.UnlinkEventClearsLinkedContent | server/stt/common.py:84-97 | unlinking an event clears `assignment_id` on content reached through a delivery of any of its planning items that has coverages |
| Numbers.ParseInt | server/stt/parser.py:100 | a value converts iff it is an optional sign followed by decimal digits; the sign of the result follows the text; the value itself is fixed by the lemmas below |
| Numbers.ParseShowRoundTrip | server/stt/parser.py:100 | converting the decimal text of any integer gives that integer back |
| Numbers.ParseIntPlus | server/stt/parser.py:100 | a `+` before a digit string does not change its value |
| Numbers.ParseIntMinus | server/stt/parser.py:100 | a `-` before a digit string negates its value |
| Numbers.ParseIntLeadingZero | server/stt/parser.py:100 | a leading `0` before a digit string does not change its value |
| Numbers.ShowParseRoundTrip | server/stt/parser.py:100 | a digit string without a superfluous leading zero is the decimal text of the value it converts to; with the sign and leading-zero lemmas this fixes the value of every accepted text |
| Xml.Find | server/stt/parser.py:49 | the result is the first direct child with the tag; `None` iff no child has it |
| Xml.FindAll | server/stt/parser.py:84 | the result holds exactly the direct children with the tag |
| Xml.FilterTagAppend | server/stt/parser.py:84 | `findall` keeps document order: filtering a concatenation concatenates the filtered parts |
| Seqs.LastSomeSpec | server/stt/parser.py:84-90 | the value a loop that overwrites one key per matching element leaves behind: `None` iff no element matches, otherwise the value of a matching element after which no element matches |
| ExtraFields.GuidBlock | server/stt/parser.py:43-45 | with a `uri`, `newsItem_guid` holds it; without one, `extra` is left exactly as it was; no other key changes |
| ExtraFields.AltIdBlock | server/stt/parser.py:47-53 | `sttidtype_textid` becomes the `contentMeta/altId` text when that text is non-empty, and otherwise (also when either element is missing) keeps its value; no other key changes |
| ExtraFields.CreatorBlock | server/stt/parser.py:55-68 | without a `contentMeta/creator` element that has a `name` child nothing changes; otherwise `creator_name` becomes the non-empty name text and `creator_id` the non-empty `qcode` attribute, each keeping its value when empty; no other key changes |
| ExtraFields.FilenameBlock | server/stt/parser.py:70-80 | `filename` becomes the non-empty text of `itemMeta/link/filename`, and otherwise (also when an element is missing) keeps its value; no other key changes |
| ExtraFields.TopicsLoop | server/stt/parser.py:82-92 | fails iff some subject qcode is a bare `stt-topics` or `stt-events`; otherwise `stt_topics` and `stt_events` are the second segment of the last matching subject of each kind, or keep their earlier value; no other key changes |
| ExtraFields.WebprioLoop | server/stt/parser.py:94-102 | the web priority is the integer value of the last web-priority rating before the first one whose value is not a number, or keeps its earlier value; no other key changes |
| ExtraFields.ImagetypeLoop | server/stt/parser.py:104-115 | up to the first image-type genre without a `name` child: with no image-type genre nothing changes; with one, `imagetype` must already be a mapping (or absent), else the loop fails; its `id` and `name` come from the last genre of each kind; no other key changes |
| ExtraFields.SetExtraFields | server/stt/parser.py:40-115 | only `extra` changes; it fails iff a bare topic or event qcode is present or `imagetype` is not a mapping where one is written; each key ends with its own block's value computed from the original `extra`, so the blocks are independent; keys outside the written ones are unchanged |
| ExtraFields.BlocksMeetExpected | server/stt/parser.py:43-115 | block independence for one key: running the blocks in order gives that key the value its own block computes from the original `extra` |
| Parser.SubjectNames | server/stt/parser.py:8-9 | one name per subject, in order, `None` for an entry without a name |
| Parser.SubjectNamesContain | server/stt/parser.py:29-30 | a value is among the subject names iff some subject carries it as its name |
| Parser.LocMetaSubject | server/stt/parser.py:22-27 | an `sttlocmeta` place becomes exactly `{name, qcode, scheme}` taken from the place |
| Parser.AddLocationFields | server/stt/parser.py:28-35 | entries are only appended; each appended entry is `{value, place[qcodeKey], nameKey}` of the first promotable field carrying that value and repeats no earlier name; the appended entries follow the field order; every promotable value ends up among the names; a failure is a promotable field whose qcode key is missing, and without such a field there is no failure |
| Parser.PromotePlace | server/stt/parser.py:21-35 | the old subjects stay a prefix; the new entries are one segment: an `sttlocmeta` place's own entry first and once, with no name check, then only location-field entries, each from the first field carrying its value, fresh, in field order; every promotable value ends up among the names; failure only on a missing qcode key, and always without one |
| Parser.PromotePlaces | server/stt/parser.py:20-35 | old subjects stay a prefix; the new entries split into one segment per place, in place order, each as `PromotePlace` states it against the entries before it, so a value an earlier place named is not added again; every `sttlocmeta` place is present and every promotable value is a name; failure only on a missing qcode key, and always without one |
| Parser.PromotedUnique | server/stt/parser.py:20-35 | at most one subject list meets the promotion contract: the segments, their order and their entries are all determined by the old subjects, the places and the fields |
| Parser.PromotedDeterminesResult | server/stt/parser.py:20-35 | when the promotion succeeds, any subject list meeting its contract is the list the loop builds |
| Parser.LocMetaEntryOnce | server/stt/parser.py:22-27 | an `sttlocmeta` place with no location fields adds its own entry exactly once |
| Parser.SameValueFirstFieldWins | server/stt/parser.py:28-35 | two fields of one place with the same value give one entry, taken from the first field |
| Parser.SameValueFirstPlaceWins | server/stt/parser.py:20-35 | two places with the same value in a field give one entry, taken from the earlier place |
| Parser.ProcessItem | server/stt/parser.py:18-37 | `uri` and `place` are kept; `subject` is present and starts with the old subjects; no places means no new subjects; `extra` is as `set_extra_fields` promises; the failure cases |
| Parser.Parse | server/stt/parser.py:16-38 | same count and order as the base items, each processed as one item against the same document, each ending with a subject list that starts with its old subjects; fails iff some item fails, with the first failing item's error |

## Left out

- Host services (`get_resource_service`, `find_one`, `find`, `patch`, `delete_action`, `delete`, `system_update`) are not modelled as calls. They become reads and updates of the store's maps.
- `_etag` optimistic concurrency is not modelled. The cancel action carries the original's `_etag`, and nothing checks it.
- The `archived`, `published` and `archive` collections behind the search service are not modelled separately. They form one content map.
- The `events_spike`/`planning_spike` services and `update_post_item` are represented only by the action requested: `Spike(collection, id)` or `Cancel(id, etag)`. Their internals come from the planning module, which is not part of this model.
- For `update_assignment_on_link_unlink`, only its documented effect is modelled: the content item loses `assignment_id`.
- Logging is not modelled.
- The `try/except Exception` around the cascade is not modelled. `HandleRemoval` takes the store a failed cascade left behind as a parameter (`fault`), because the failures come from host services outside the model.
- The order in which `find(where={"event_item": ...})` yields planning items is the store's `planningOrder`. The event lemmas require every planning key to appear in it.
- Event-typed records stored in the planning collection are excluded by `Unlink.Valid`. This keeps the event→planning recursion one level deep.
- A planning item missing from the planning collection gets no coverage write-back. The host's `system_update` on an unknown id is not modelled.
- A coverage without `coverage_id` would raise a `KeyError` in the source. It is not modelled, because every coverage carries an id.
- A delivery lookup naming content that does not exist is skipped, as in the source. Content is never created.
- `original_item_exists` is not modelled. It is a plain host lookup that the modelled functions do not call.
- The base `STTNewsMLFeedParser.parse` is not modelled; its items are the input. The contents of `STT_LOCATION_MAP` are a parameter: a sequence of name-key and qcode-key pairs in the dictionary's order. `register_feed_parser`, `NAME` and `label` are registration only.
- lxml namespace resolution and XPath evaluation are not modelled. Tags are already-qualified strings, and the query `//iptc:itemMeta/iptc:signal[@qcode=...]` is written out as a recursive tree search.
- Python `int()` edge cases are not modelled: surrounding whitespace, underscores and non-ASCII digits. Only an optional sign followed by decimal digits converts.
- Place values are strings in the model. A non-string value is not modelled.
- `subject` present but not a list, and `extra` present but not a mapping, are not modelled. In the model, `subject` and `extra` are either absent or a list or mapping.
- In-place mutation before an escaping exception is not modelled. The source updates the items it reached before raising; the model returns only the `Failure`, since `parse` itself raises and its items are never returned.
- `Numbers.ParseInt`: its own contract fixes acceptance and sign only. The value is stated by `Numbers.ParseShowRoundTrip`, `Numbers.ShowParseRoundTrip`, `Numbers.ParseIntPlus`, `Numbers.ParseIntMinus` and `Numbers.ParseIntLeadingZero`.
- `Xml.FindAll`: its own contract states membership only. Document order is stated by `Xml.FilterTagAppend`, and the loops rely on the definition for it.
- `server/tests/events_ml_parser_test.py` exercises the events parser and a contacts database, neither of which is part of this model.
