/** `STTParser.parse`: post-processing of the items the base NewsML parser
    returns. Places are promoted into subjects (the `sttlocmeta` place
    itself, then its location-map fields, de-duplicated by name), and the
    vendor fields of the document are copied into `extra`. */
module Parser {
  import opened Wrappers
  import opened Seqs
  import opened Xml
  import opened Items
  import opened ExtraFields

  /** The placeholder value a location field carries when it is unknown. */
  const NA := "N/A"
  const LocMetaScheme := "sttlocmeta"

  /** One entry of `STT_LOCATION_MAP`: the place keys holding a location
      name and its qcode. The map's contents belong to the base parser and
      are a parameter here. */
  datatype LocationField = LocationField(nameKey: string, qcodeKey: string)

  /** `place.get(key)`. */
  function PlaceGet(place: Place, key: string): Option<string> {
    if key in place then Some(place[key]) else None
  }

  /** `get_subject_names`: the `name` of every subject entry, in order
      (`None` for an entry without one). */
  function SubjectNames(subjects: seq<Subject>): (names: seq<Option<string>>)
    ensures |names| == |subjects|
    ensures forall i :: 0 <= i < |subjects| ==> names[i] == subjects[i].name
  {
    seq(|subjects|, i requires 0 <= i < |subjects| => subjects[i].name)
  }

  /** A name is among the subject names iff some entry carries it. */
  lemma SubjectNamesContain(subjects: seq<Subject>, name: string)
    ensures Some(name) in SubjectNames(subjects) <==> exists i :: 0 <= i < |subjects| && subjects[i].name == Some(name)
  {
    var names := SubjectNames(subjects);
    if Some(name) in names {
      var i :| 0 <= i < |names| && names[i] == Some(name);
      assert subjects[i].name == Some(name);
    }
  }

  /** Names of a prefix stay names of the whole list. */
  lemma SubjectNamesPrefix(subjects: seq<Subject>, n: nat, name: string)
    requires n <= |subjects|
    requires Some(name) in SubjectNames(subjects[..n])
    ensures Some(name) in SubjectNames(subjects)
  {
    var i :| 0 <= i < n && SubjectNames(subjects[..n])[i] == Some(name);
    assert SubjectNames(subjects)[i] == Some(name);
  }

  // ---------------------------------------------------------------------
  // the place entry itself
  // ---------------------------------------------------------------------

  /** A place that is itself a subject: truthy `name` and `qcode`, scheme
      `sttlocmeta`. */
  predicate IsLocMeta(place: Place) {
    Truthy(PlaceGet(place, "name")) && Truthy(PlaceGet(place, "qcode")) && PlaceGet(place, "scheme") == Some(LocMetaScheme)
  }

  /** The subject entry for a `sttlocmeta` place: exactly its name, qcode
      and scheme. */
  function LocMetaSubject(place: Place): (s: Subject)
    requires IsLocMeta(place)
    ensures s.name == Some(place["name"]) && s.qcode == Some(place["qcode"]) && s.scheme == Some(LocMetaScheme)
  {
    Subject(Some(place["name"]), Some(place["qcode"]), Some(place["scheme"]))
  }

  // ---------------------------------------------------------------------
  // location-map fields
  // ---------------------------------------------------------------------

  /** A location field worth promoting: present, non-empty and not `N/A`. */
  predicate Promotable(place: Place, f: LocationField) {
    Truthy(PlaceGet(place, f.nameKey)) && place[f.nameKey] != NA
  }

  /** The subject entry a promotable field becomes. */
  predicate AddedFrom(s: Subject, place: Place, f: LocationField) {
    && Promotable(place, f)
    && f.qcodeKey in place
    && s == Subject(Some(place[f.nameKey]), Some(place[f.qcodeKey]), Some(f.nameKey))
  }

  /** `s` is the entry of field `i`, and no earlier promotable field carries
      the same value: of the fields sharing a value, the first supplies the
      entry's qcode and scheme. */
  predicate FirstAddedFrom(s: Subject, place: Place, fields: seq<LocationField>, i: int) {
    && 0 <= i < |fields|
    && AddedFrom(s, place, fields[i])
    && forall k :: 0 <= k < i && Promotable(place, fields[k]) ==> Some(place[fields[k].nameKey]) != s.name
  }

  /** `s` is the entry of the first field carrying its value. */
  predicate FirstFieldEntry(s: Subject, place: Place, fields: seq<LocationField>) {
    exists i :: 0 <= i < |fields| && FirstAddedFrom(s, place, fields, i)
  }

  /** `s` comes from an earlier field than `t`, each from the first field
      carrying its value. */
  ghost predicate FieldOrder(s: Subject, t: Subject, place: Place, fields: seq<LocationField>) {
    exists i, i' :: 0 <= i < i' < |fields| && FirstAddedFrom(s, place, fields, i) && FirstAddedFrom(t, place, fields, i')
  }

  /** The inner loop over `STT_LOCATION_MAP.values()` for one place. A field
      whose name is already a subject name is skipped; otherwise reading its
      qcode key raises `KeyError` when the place lacks it. */
  function AddLocationFields(subjects: seq<Subject>, place: Place, fields: seq<LocationField>): (r: Result<seq<Subject>, ParseError>)
    // entries are only appended
    ensures r.Success? ==> |r.value| >= |subjects| && r.value[..|subjects|] == subjects
    // every appended entry comes from the first field carrying its value
    // and repeats no earlier name
    ensures r.Success? ==>
              forall j :: |subjects| <= j < |r.value| ==>
                FirstFieldEntry(r.value[j], place, fields) &&
                r.value[j].name !in SubjectNames(r.value[..j])
    // the appended entries follow the order of their fields
    ensures r.Success? ==>
              forall j, j' :: |subjects| <= j < j' < |r.value| ==> FieldOrder(r.value[j], r.value[j'], place, fields)
    // every promotable field's value ends up among the names
    ensures r.Success? ==>
              forall i :: 0 <= i < |fields| && Promotable(place, fields[i]) ==>
                Some(place[fields[i].nameKey]) in SubjectNames(r.value)
    // a failure is a promotable field whose qcode key is missing
    ensures r.Failure? ==>
              exists i :: 0 <= i < |fields| && Promotable(place, fields[i]) && fields[i].qcodeKey !in place &&
                          r.error == MissingKey(fields[i].qcodeKey)
    ensures (forall i :: 0 <= i < |fields| && Promotable(place, fields[i]) ==> fields[i].qcodeKey in place) ==> r.Success?
    decreases |fields|
  {
    if |fields| == 0 then Success(subjects)
    else
      var f := fields[0];
      assert forall i :: 0 < i < |fields| ==> fields[i] == fields[1..][i - 1];
      if Promotable(place, f) && Some(place[f.nameKey]) !in SubjectNames(subjects) then
        if f.qcodeKey !in place then Failure(MissingKey(f.qcodeKey))
        else
          var entry := Subject(Some(place[f.nameKey]), Some(place[f.qcodeKey]), Some(f.nameKey));
          var next := subjects + [entry];
          var r := AddLocationFields(next, place, fields[1..]);
          AppendedStep(subjects, entry, r, place, fields);
          AppendedOrder(subjects, entry, r, place, fields);
          r
      else
        var r := AddLocationFields(subjects, place, fields[1..]);
        SkippedStep(subjects, r, place, fields);
        SkippedOrder(subjects, r, place, fields);
        r
  }

  /** The contract of `AddLocationFields` carried over one appended entry. */
  lemma AppendedStep(subjects: seq<Subject>, entry: Subject, r: Result<seq<Subject>, ParseError>, place: Place, fields: seq<LocationField>)
    requires |fields| > 0 && AddedFrom(entry, place, fields[0])
    requires entry.name !in SubjectNames(subjects)
    requires r.Success? ==> |r.value| >= |subjects| + 1 && r.value[..|subjects| + 1] == subjects + [entry]
    requires r.Success? ==>
               forall j :: |subjects| + 1 <= j < |r.value| ==>
                 FirstFieldEntry(r.value[j], place, fields[1..]) &&
                 r.value[j].name !in SubjectNames(r.value[..j])
    requires r.Success? ==>
               forall i :: 0 <= i < |fields| - 1 && Promotable(place, fields[1..][i]) ==>
                 Some(place[fields[1..][i].nameKey]) in SubjectNames(r.value)
    ensures r.Success? ==> |r.value| >= |subjects| && r.value[..|subjects|] == subjects
    ensures r.Success? ==>
              forall j :: |subjects| <= j < |r.value| ==>
                FirstFieldEntry(r.value[j], place, fields) &&
                r.value[j].name !in SubjectNames(r.value[..j])
    ensures r.Success? ==>
              forall i :: 0 <= i < |fields| && Promotable(place, fields[i]) ==>
                Some(place[fields[i].nameKey]) in SubjectNames(r.value)
  {
    if r.Success? {
      var rs := r.value;
      var n := |subjects|;
      assert rs[..n] == (rs[..n + 1])[..n];
      assert rs[n] == entry;
      assert rs[..n] == subjects;
      forall j | n <= j < |rs|
        ensures FirstFieldEntry(rs[j], place, fields) && rs[j].name !in SubjectNames(rs[..j])
      {
        if j == n {
          assert FirstAddedFrom(rs[j], place, fields, 0);
        } else {
          var i :| 0 <= i < |fields| - 1 && FirstAddedFrom(rs[j], place, fields[1..], i);
          assert SubjectNames(rs[..j])[n] == entry.name;
          FirstAddedFromShift(rs[j], place, fields, i);
        }
      }
      forall i | 0 <= i < |fields| && Promotable(place, fields[i])
        ensures Some(place[fields[i].nameKey]) in SubjectNames(rs)
      {
        if i == 0 {
          assert SubjectNames(rs)[n] == entry.name;
        } else {
          assert fields[1..][i - 1] == fields[i];
        }
      }
    }
  }

  /** The contract of `AddLocationFields` carried over one skipped field. */
  lemma SkippedStep(subjects: seq<Subject>, r: Result<seq<Subject>, ParseError>, place: Place, fields: seq<LocationField>)
    requires |fields| > 0
    requires Promotable(place, fields[0]) ==> Some(place[fields[0].nameKey]) in SubjectNames(subjects)
    requires r.Success? ==> |r.value| >= |subjects| && r.value[..|subjects|] == subjects
    requires r.Success? ==>
               forall j :: |subjects| <= j < |r.value| ==>
                 FirstFieldEntry(r.value[j], place, fields[1..]) &&
                 r.value[j].name !in SubjectNames(r.value[..j])
    requires r.Success? ==>
               forall i :: 0 <= i < |fields| - 1 && Promotable(place, fields[1..][i]) ==>
                 Some(place[fields[1..][i].nameKey]) in SubjectNames(r.value)
    ensures r.Success? ==>
              forall j :: |subjects| <= j < |r.value| ==>
                FirstFieldEntry(r.value[j], place, fields) &&
                r.value[j].name !in SubjectNames(r.value[..j])
    ensures r.Success? ==>
              forall i :: 0 <= i < |fields| && Promotable(place, fields[i]) ==>
                Some(place[fields[i].nameKey]) in SubjectNames(r.value)
  {
    if r.Success? {
      var rs := r.value;
      forall j | |subjects| <= j < |rs|
        ensures FirstFieldEntry(rs[j], place, fields)
      {
        var i :| 0 <= i < |fields| - 1 && FirstAddedFrom(rs[j], place, fields[1..], i);
        if Promotable(place, fields[0]) {
          assert rs[..j][..|subjects|] == subjects;
          SubjectNamesPrefix(rs[..j], |subjects|, place[fields[0].nameKey]);
        }
        FirstAddedFromShift(rs[j], place, fields, i);
      }
      forall i | 0 <= i < |fields| && Promotable(place, fields[i])
        ensures Some(place[fields[i].nameKey]) in SubjectNames(rs)
      {
        if i == 0 {
          SubjectNamesPrefix(rs, |subjects|, place[fields[0].nameKey]);
        } else {
          assert fields[1..][i - 1] == fields[i];
        }
      }
    }
  }

  /** The field order of the entries from `lo` on carries over from the rest
      of the fields to all of them when the first field's value is named
      before `lo`. */
  lemma OrderShift(rs: seq<Subject>, lo: int, place: Place, fields: seq<LocationField>)
    requires |fields| > 0 && 0 <= lo <= |rs|
    requires Promotable(place, fields[0]) ==> Some(place[fields[0].nameKey]) in SubjectNames(rs[..lo])
    requires forall j :: lo <= j < |rs| ==> rs[j].name !in SubjectNames(rs[..j])
    requires forall j, j' :: lo <= j < j' < |rs| ==> FieldOrder(rs[j], rs[j'], place, fields[1..])
    ensures forall j, j' :: lo <= j < j' < |rs| ==> FieldOrder(rs[j], rs[j'], place, fields)
  {
    forall j, j' | lo <= j < j' < |rs|
      ensures FieldOrder(rs[j], rs[j'], place, fields)
    {
      assert FieldOrder(rs[j], rs[j'], place, fields[1..]);
      var i, i' :| 0 <= i < i' < |fields[1..]| && FirstAddedFrom(rs[j], place, fields[1..], i) && FirstAddedFrom(rs[j'], place, fields[1..], i');
      if Promotable(place, fields[0]) {
        assert rs[..j][..lo] == rs[..lo] && rs[..j'][..lo] == rs[..lo];
        SubjectNamesPrefix(rs[..j], lo, place[fields[0].nameKey]);
        SubjectNamesPrefix(rs[..j'], lo, place[fields[0].nameKey]);
      }
      FirstAddedFromShift(rs[j], place, fields, i);
      FirstAddedFromShift(rs[j'], place, fields, i');
    }
  }

  /** The appended entry of the first field comes before every entry of the
      rest. */
  lemma AppendedOrder(subjects: seq<Subject>, entry: Subject, r: Result<seq<Subject>, ParseError>, place: Place, fields: seq<LocationField>)
    requires |fields| > 0 && AddedFrom(entry, place, fields[0])
    requires r.Success? ==> |r.value| >= |subjects| + 1 && r.value[..|subjects| + 1] == subjects + [entry]
    requires r.Success? ==>
               forall j :: |subjects| + 1 <= j < |r.value| ==>
                 FirstFieldEntry(r.value[j], place, fields[1..]) && r.value[j].name !in SubjectNames(r.value[..j])
    requires r.Success? ==>
               forall j, j' :: |subjects| + 1 <= j < j' < |r.value| ==> FieldOrder(r.value[j], r.value[j'], place, fields[1..])
    ensures r.Success? ==>
              forall j, j' :: |subjects| <= j < j' < |r.value| ==> FieldOrder(r.value[j], r.value[j'], place, fields)
  {
    if r.Success? {
      var rs := r.value;
      var n := |subjects|;
      assert rs[n] == (rs[..n + 1])[n] == entry;
      assert SubjectNames(rs[..n + 1])[n] == entry.name;
      OrderShift(rs, n + 1, place, fields);
      assert FirstAddedFrom(rs[n], place, fields, 0);
      forall j' | n < j' < |rs|
        ensures FieldOrder(rs[n], rs[j'], place, fields)
      {
        var k :| 0 <= k < |fields| - 1 && FirstAddedFrom(rs[j'], place, fields[1..], k);
        assert SubjectNames(rs[..j'])[n] == entry.name;
        FirstAddedFromShift(rs[j'], place, fields, k);
      }
    }
  }

  /** Skipping the first field keeps the field order of the rest. */
  lemma SkippedOrder(subjects: seq<Subject>, r: Result<seq<Subject>, ParseError>, place: Place, fields: seq<LocationField>)
    requires |fields| > 0
    requires Promotable(place, fields[0]) ==> Some(place[fields[0].nameKey]) in SubjectNames(subjects)
    requires r.Success? ==> |r.value| >= |subjects| && r.value[..|subjects|] == subjects
    requires r.Success? ==> forall j :: |subjects| <= j < |r.value| ==> r.value[j].name !in SubjectNames(r.value[..j])
    requires r.Success? ==>
               forall j, j' :: |subjects| <= j < j' < |r.value| ==> FieldOrder(r.value[j], r.value[j'], place, fields[1..])
    ensures r.Success? ==>
              forall j, j' :: |subjects| <= j < j' < |r.value| ==> FieldOrder(r.value[j], r.value[j'], place, fields)
  {
    if r.Success? {
      OrderShift(r.value, |subjects|, place, fields);
    }
  }

  /** An entry from the rest of the fields is the first carrier among all
      of them when the first field does not carry its name. */
  lemma FirstAddedFromShift(s: Subject, place: Place, fields: seq<LocationField>, i: int)
    requires |fields| > 0 && FirstAddedFrom(s, place, fields[1..], i)
    requires Promotable(place, fields[0]) ==> Some(place[fields[0].nameKey]) != s.name
    ensures FirstAddedFrom(s, place, fields, i + 1)
  {
    assert fields[1..][i] == fields[i + 1];
    forall k | 1 <= k < i + 1
      ensures Promotable(place, fields[k]) ==> Some(place[fields[k].nameKey]) != s.name
    {
      assert fields[1..][k - 1] == fields[k];
    }
  }

  // ---------------------------------------------------------------------
  // places
  // ---------------------------------------------------------------------

  /** A subject entry the promotion of `place` may append. */
  predicate FromPlace(s: Subject, place: Place, fields: seq<LocationField>) {
    (IsLocMeta(place) && s == LocMetaSubject(place)) || exists i :: 0 <= i < |fields| && AddedFrom(s, place, fields[i])
  }

  /** Some place has a promotable location field without its qcode key. */
  ghost predicate MissingQcode(places: seq<Place>, fields: seq<LocationField>) {
    exists p, i :: 0 <= p < |places| && 0 <= i < |fields| && Promotable(places[p], fields[i]) && fields[i].qcodeKey !in places[p]
  }

  /** What promoting `places` into `subjects` guarantees of the result:
      the old entries are an unchanged prefix, every new entry comes from
      some place, every new entry other than a place's own `sttlocmeta`
      entry repeats no earlier name, every `sttlocmeta` place is there,
      every promotable location value is among the names, and the new
      entries fall into one segment per place, in place order. */
  ghost predicate Promoted(subjects: seq<Subject>, places: seq<Place>, fields: seq<LocationField>, out: seq<Subject>) {
    && |out| >= |subjects| && out[..|subjects|] == subjects
    && NewEntriesFromPlaces(subjects, places, fields, out)
    && NewNamesFresh(subjects, places, out)
    && LocMetaPresent(places, out)
    && PromotableNamed(places, fields, out)
    && Segmented(subjects, places, fields, out)
  }

  /** The entry at `j` comes from the first field of `place` carrying its
      value and repeats no earlier name. */
  ghost predicate FreshFieldEntry(upto: seq<Subject>, j: int, place: Place, fields: seq<LocationField>) {
    0 <= j < |upto| && FirstFieldEntry(upto[j], place, fields) && upto[j].name !in SubjectNames(upto[..j])
  }

  /** What one place contributes, read off `upto` from index `lo` on: its
      `sttlocmeta` entry first when it is one, then only fresh location-field
      entries in field order, after which every promotable value of the
      place is a name. So a value an earlier place already named is not
      added again. */
  ghost predicate Segment(upto: seq<Subject>, lo: int, place: Place, fields: seq<LocationField>) {
    && 0 <= lo <= |upto|
    && (IsLocMeta(place) ==> lo < |upto| && upto[lo] == LocMetaSubject(place))
    && FieldRun(upto, lo + (if IsLocMeta(place) then 1 else 0), place, fields)
  }

  /** From `start` on, `upto` holds only fresh location-field entries of
      `place` in field order, and every promotable value of the place is a
      name of `upto`. */
  ghost predicate FieldRun(upto: seq<Subject>, start: int, place: Place, fields: seq<LocationField>) {
    && 0 <= start <= |upto|
    && (forall j :: start <= j < |upto| ==> FreshFieldEntry(upto, j, place, fields))
    && (forall j, j' :: start <= j < j' < |upto| ==> FieldOrder(upto[j], upto[j'], place, fields))
    && (forall i :: 0 <= i < |fields| && Promotable(place, fields[i]) ==> Some(place[fields[i].nameKey]) in SubjectNames(upto))
  }

  /** The new entries of `out`, cut at `cuts`, are one segment per place in
      the order of `places`. */
  ghost predicate SegmentedBy(subjects: seq<Subject>, places: seq<Place>, fields: seq<LocationField>, out: seq<Subject>, cuts: seq<int>) {
    && |cuts| == |places| + 1
    && cuts[0] == |subjects|
    && cuts[|places|] == |out|
    && forall p :: 0 <= p < |places| ==> SegmentAt(out, cuts, p, places[p], fields)
  }

  /** Between cuts `p` and `p + 1` of `out` lies the segment of `place`. */
  ghost predicate SegmentAt(out: seq<Subject>, cuts: seq<int>, p: int, place: Place, fields: seq<LocationField>) {
    && 0 <= p && p + 1 < |cuts|
    && 0 <= cuts[p] <= cuts[p + 1] <= |out|
    && Segment(out[..cuts[p + 1]], cuts[p], place, fields)
  }

  ghost predicate Segmented(subjects: seq<Subject>, places: seq<Place>, fields: seq<LocationField>, out: seq<Subject>) {
    exists cuts :: SegmentedBy(subjects, places, fields, out, cuts)
  }

  /** With no places nothing is added. */
  lemma PromotedNothing(subjects: seq<Subject>, fields: seq<LocationField>)
    ensures Promoted(subjects, [], fields, subjects)
  {
    assert SegmentedBy(subjects, [], fields, subjects, [|subjects|]);
  }

  ghost predicate NewEntriesFromPlaces(subjects: seq<Subject>, places: seq<Place>, fields: seq<LocationField>, out: seq<Subject>) {
    forall j :: |subjects| <= j < |out| ==> exists p :: 0 <= p < |places| && FromPlace(out[j], places[p], fields)
  }

  /** The entry is the `sttlocmeta` entry of one of the places. */
  predicate IsLocMetaOf(s: Subject, places: seq<Place>) {
    exists p :: 0 <= p < |places| && IsLocMeta(places[p]) && s == LocMetaSubject(places[p])
  }

  /** Only a place's own `sttlocmeta` entry may repeat an earlier name;
      a location-field entry never does. */
  ghost predicate NewNamesFresh(subjects: seq<Subject>, places: seq<Place>, out: seq<Subject>) {
    forall j :: |subjects| <= j < |out| ==> IsLocMetaOf(out[j], places) || out[j].name !in SubjectNames(out[..j])
  }

  ghost predicate LocMetaPresent(places: seq<Place>, out: seq<Subject>) {
    forall p :: 0 <= p < |places| && IsLocMeta(places[p]) ==> LocMetaSubject(places[p]) in out
  }

  ghost predicate PromotableNamed(places: seq<Place>, fields: seq<LocationField>, out: seq<Subject>) {
    forall p, i :: 0 <= p < |places| && 0 <= i < |fields| && Promotable(places[p], fields[i]) ==>
      Some(places[p][fields[i].nameKey]) in SubjectNames(out)
  }

  /** The body of the loop over `item['place']`: the place itself when it
      is a `sttlocmeta` subject (with no name check), then its location
      fields. */
  function PromotePlace(subjects: seq<Subject>, place: Place, fields: seq<LocationField>): (r: Result<seq<Subject>, ParseError>)
    ensures r.Success? ==> Promoted(subjects, [place], fields, r.value)
    ensures r.Success? && IsLocMeta(place) ==> |r.value| > |subjects| && r.value[|subjects|] == LocMetaSubject(place)
    ensures r.Failure? ==> MissingQcode([place], fields) && r.error.MissingKey?
    ensures !MissingQcode([place], fields) ==> r.Success?
  {
    var start := if IsLocMeta(place) then subjects + [LocMetaSubject(place)] else subjects;
    var r := AddLocationFields(start, place, fields);
    PromotePlaceOutcome(subjects, place, fields, start, r);
    r
  }

  lemma PromotePlaceOutcome(subjects: seq<Subject>, place: Place, fields: seq<LocationField>, start: seq<Subject>, r: Result<seq<Subject>, ParseError>)
    requires start == if IsLocMeta(place) then subjects + [LocMetaSubject(place)] else subjects
    requires r == AddLocationFields(start, place, fields)
    ensures r.Success? ==> Promoted(subjects, [place], fields, r.value)
    ensures r.Success? && IsLocMeta(place) ==> |r.value| > |subjects| && r.value[|subjects|] == LocMetaSubject(place)
    ensures r.Failure? ==> MissingQcode([place], fields) && r.error.MissingKey?
    ensures !MissingQcode([place], fields) ==> r.Success?
  {
    var places := [place];
    assert places[0] == place;
    if r.Success? {
      var out := r.value;
      assert out[..|start|] == start;
      assert out[..|subjects|] == start[..|subjects|] == subjects;
      PlaceEntries(subjects, place, fields, start, out);
      if IsLocMeta(place) {
        assert out[|subjects|] == start[|subjects|];
      }
    }
    if r.Failure? {
      var i :| 0 <= i < |fields| && Promotable(place, fields[i]) && fields[i].qcodeKey !in place &&
               r.error == MissingKey(fields[i].qcodeKey);
      assert Promotable(places[0], fields[i]) && fields[i].qcodeKey !in places[0];
    }
  }

  /** The entries one place adds: its `sttlocmeta` entry, if any, then
      fresh location-field entries. */
  lemma PlaceEntries(subjects: seq<Subject>, place: Place, fields: seq<LocationField>, start: seq<Subject>, out: seq<Subject>)
    requires start == if IsLocMeta(place) then subjects + [LocMetaSubject(place)] else subjects
    requires |out| >= |start| && out[..|start|] == start
    requires forall j :: |start| <= j < |out| ==>
               FirstFieldEntry(out[j], place, fields) && out[j].name !in SubjectNames(out[..j])
    requires forall j, j' :: |start| <= j < j' < |out| ==> FieldOrder(out[j], out[j'], place, fields)
    requires forall i :: 0 <= i < |fields| && Promotable(place, fields[i]) ==>
               Some(place[fields[i].nameKey]) in SubjectNames(out)
    ensures NewEntriesFromPlaces(subjects, [place], fields, out)
    ensures NewNamesFresh(subjects, [place], out)
    ensures Segmented(subjects, [place], fields, out)
  {
    var places := [place];
    assert places[0] == place;
    forall j | |subjects| <= j < |out|
      ensures FromPlace(out[j], places[0], fields)
      ensures IsLocMetaOf(out[j], places) || out[j].name !in SubjectNames(out[..j])
    {
      if j < |start| {
        assert out[j] == start[j] == LocMetaSubject(place);
      }
    }
    if IsLocMeta(place) {
      assert out[|subjects|] == start[|subjects|];
    }
    assert out[..|out|] == out;
    assert SegmentAt(out, [|subjects|, |out|], 0, places[0], fields);
    assert SegmentedBy(subjects, places, fields, out, [|subjects|, |out|]);
  }

  /** The loop over `item['place']`, in order. */
  function PromotePlaces(subjects: seq<Subject>, places: seq<Place>, fields: seq<LocationField>): (r: Result<seq<Subject>, ParseError>)
    ensures r.Success? ==> Promoted(subjects, places, fields, r.value)
    ensures r.Failure? ==> MissingQcode(places, fields) && r.error.MissingKey?
    ensures !MissingQcode(places, fields) ==> r.Success?
    decreases |places|
  {
    if |places| == 0 then
      PromotedNothing(subjects, fields);
      Success(subjects)
    else
      var r1 := PromotePlace(subjects, places[0], fields);
      if r1.Failure? then
        MissingQcodeCons(places, fields);
        Failure(r1.error)
      else
        var r := PromotePlaces(r1.value, places[1..], fields);
        MissingQcodeCons(places, fields);
        if r.Success? then
          PromotedCompose(subjects, r1.value, r.value, places, fields);
          r
        else r
  }

  lemma MissingQcodeCons(places: seq<Place>, fields: seq<LocationField>)
    requires |places| > 0
    ensures MissingQcode(places, fields) <==> MissingQcode([places[0]], fields) || MissingQcode(places[1..], fields)
  {
    if MissingQcode(places, fields) {
      var p, i :| 0 <= p < |places| && 0 <= i < |fields| && Promotable(places[p], fields[i]) && fields[i].qcodeKey !in places[p];
      if p == 0 {
        assert [places[0]][0] == places[p];
      } else {
        assert places[1..][p - 1] == places[p];
      }
    }
    if MissingQcode([places[0]], fields) {
      var p, i :| 0 <= p < 1 && 0 <= i < |fields| && Promotable([places[0]][p], fields[i]) && fields[i].qcodeKey !in [places[0]][p];
      assert places[0] == [places[0]][p];
    }
    if MissingQcode(places[1..], fields) {
      var p, i :| 0 <= p < |places| - 1 && 0 <= i < |fields| && Promotable(places[1..][p], fields[i]) && fields[i].qcodeKey !in places[1..][p];
      assert places[1..][p] == places[p + 1];
    }
  }

  /** Promoting the first place and then the rest promotes them all. */
  lemma PromotedCompose(subjects: seq<Subject>, mid: seq<Subject>, out: seq<Subject>, places: seq<Place>, fields: seq<LocationField>)
    requires |places| > 0
    requires Promoted(subjects, [places[0]], fields, mid)
    requires Promoted(mid, places[1..], fields, out)
    ensures Promoted(subjects, places, fields, out)
  {
    assert out[..|subjects|] == mid[..|subjects|];
    ComposeProvenance(subjects, mid, out, places, fields);
    ComposeFresh(subjects, mid, out, places);
    ComposeLocMeta(mid, out, places);
    ComposeNames(mid, out, places, fields);
    ComposeSegments(subjects, mid, out, places, fields);
  }

  lemma ComposeSegments(subjects: seq<Subject>, mid: seq<Subject>, out: seq<Subject>, places: seq<Place>, fields: seq<LocationField>)
    requires |places| > 0
    requires |out| >= |mid| && out[..|mid|] == mid
    requires Segmented(subjects, [places[0]], fields, mid)
    requires Segmented(mid, places[1..], fields, out)
    ensures Segmented(subjects, places, fields, out)
  {
    var c1 :| SegmentedBy(subjects, [places[0]], fields, mid, c1);
    var c2 :| SegmentedBy(mid, places[1..], fields, out, c2);
    assert [places[0]][0] == places[0];
    assert mid[..c1[1]] == mid == out[..|mid|];
    var cuts := [|subjects|] + c2;
    forall p | 0 <= p < |places|
      ensures SegmentAt(out, cuts, p, places[p], fields)
    {
      if p == 0 {
        assert SegmentAt(mid, c1, 0, [places[0]][0], fields);
      } else {
        assert SegmentAt(out, c2, p - 1, places[1..][p - 1], fields);
        assert places[1..][p - 1] == places[p];
        assert cuts[p] == c2[p - 1] && cuts[p + 1] == c2[p];
      }
    }
    assert SegmentedBy(subjects, places, fields, out, cuts);
  }

  lemma ComposeProvenance(subjects: seq<Subject>, mid: seq<Subject>, out: seq<Subject>, places: seq<Place>, fields: seq<LocationField>)
    requires |places| > 0
    requires |mid| >= |subjects| && |out| >= |mid| && out[..|mid|] == mid
    requires NewEntriesFromPlaces(subjects, [places[0]], fields, mid)
    requires NewEntriesFromPlaces(mid, places[1..], fields, out)
    ensures NewEntriesFromPlaces(subjects, places, fields, out)
  {
    forall j | |subjects| <= j < |out|
      ensures exists p :: 0 <= p < |places| && FromPlace(out[j], places[p], fields)
    {
      if j < |mid| {
        assert out[j] == out[..|mid|][j] == mid[j];
        var p :| 0 <= p < 1 && FromPlace(mid[j], [places[0]][p], fields);
        assert FromPlace(out[j], places[0], fields);
      } else {
        var p :| 0 <= p < |places| - 1 && FromPlace(out[j], places[1..][p], fields);
        assert places[1..][p] == places[p + 1];
      }
    }
  }

  lemma ComposeFresh(subjects: seq<Subject>, mid: seq<Subject>, out: seq<Subject>, places: seq<Place>)
    requires |places| > 0
    requires |mid| >= |subjects| && |out| >= |mid| && out[..|mid|] == mid
    requires NewNamesFresh(subjects, [places[0]], mid)
    requires NewNamesFresh(mid, places[1..], out)
    ensures NewNamesFresh(subjects, places, out)
  {
    forall j | |subjects| <= j < |out|
      ensures IsLocMetaOf(out[j], places) || out[j].name !in SubjectNames(out[..j])
    {
      if j < |mid| {
        assert out[j] == out[..|mid|][j] == mid[j];
        assert out[..j] == mid[..j];
        if IsLocMetaOf(mid[j], [places[0]]) {
          assert [places[0]][0] == places[0];
          assert IsLocMeta(places[0]) && out[j] == LocMetaSubject(places[0]);
        }
      } else if IsLocMetaOf(out[j], places[1..]) {
        var p :| 0 <= p < |places| - 1 && IsLocMeta(places[1..][p]) && out[j] == LocMetaSubject(places[1..][p]);
        assert places[1..][p] == places[p + 1];
      }
    }
  }

  lemma ComposeLocMeta(mid: seq<Subject>, out: seq<Subject>, places: seq<Place>)
    requires |places| > 0
    requires |out| >= |mid| && out[..|mid|] == mid
    requires LocMetaPresent([places[0]], mid)
    requires LocMetaPresent(places[1..], out)
    ensures LocMetaPresent(places, out)
  {
    forall p | 0 <= p < |places| && IsLocMeta(places[p])
      ensures LocMetaSubject(places[p]) in out
    {
      if p == 0 {
        assert [places[0]][0] == places[0];
        var k :| 0 <= k < |mid| && mid[k] == LocMetaSubject(places[0]);
        assert out[k] == out[..|mid|][k] == mid[k];
      } else {
        assert places[1..][p - 1] == places[p];
      }
    }
  }

  lemma ComposeNames(mid: seq<Subject>, out: seq<Subject>, places: seq<Place>, fields: seq<LocationField>)
    requires |places| > 0
    requires |out| >= |mid| && out[..|mid|] == mid
    requires PromotableNamed([places[0]], fields, mid)
    requires PromotableNamed(places[1..], fields, out)
    ensures PromotableNamed(places, fields, out)
  {
    forall p, i | 0 <= p < |places| && 0 <= i < |fields| && Promotable(places[p], fields[i])
      ensures Some(places[p][fields[i].nameKey]) in SubjectNames(out)
    {
      if p == 0 {
        assert [places[0]][0] == places[0];
        SubjectNamesPrefix(out, |mid|, places[0][fields[i].nameKey]);
      } else {
        assert places[1..][p - 1] == places[p];
      }
    }
  }

  /** Among entries that all carry one name, the second repeats the first's
      name; so at most one of them can be fresh. */
  lemma SameNameRepeats(out: seq<Subject>, lo: int, name: Option<string>)
    requires 0 <= lo <= |out|
    requires forall j :: lo <= j < |out| ==> out[j].name == name
    ensures lo + 1 < |out| ==> out[lo + 1].name in SubjectNames(out[..lo + 1])
  {
    if lo + 1 < |out| {
      assert SubjectNames(out[..lo + 1])[lo] == out[lo].name;
    }
  }

  /** A `sttlocmeta` place with no location fields adds exactly its own
      entry: the contract leaves no room for a second copy. */
  lemma LocMetaEntryOnce(subjects: seq<Subject>, p: Place, out: seq<Subject>)
    requires IsLocMeta(p)
    ensures Promoted(subjects, [p], [], out) ==> out == subjects + [LocMetaSubject(p)]
  {
    if Promoted(subjects, [p], [], out) {
      var c :| SegmentedBy(subjects, [p], [], out, c);
      assert SegmentAt(out, c, 0, [p][0], []);
      assert out[..c[1]] == out;
      var n := |subjects|;
      assert !FreshFieldEntry(out, n + 1, p, []);
      assert out == out[..n] + [out[n]];
    }
  }

  /** The entry field `f` of `place` becomes. */
  function FieldSubject(place: Place, f: LocationField): (s: Subject)
    requires f.nameKey in place && f.qcodeKey in place
    ensures Promotable(place, f) ==> AddedFrom(s, place, f)
  {
    Subject(Some(place[f.nameKey]), Some(place[f.qcodeKey]), Some(f.nameKey))
  }

  /** Of two fields of one place carrying the same value, the first one
      supplies the qcode and scheme. */
  lemma SameValueFirstFieldWins(place: Place, fields: seq<LocationField>, out: seq<Subject>)
    requires |fields| == 2 && !IsLocMeta(place)
    requires Promotable(place, fields[0]) && fields[0].qcodeKey in place
    requires fields[1].nameKey in place && place[fields[1].nameKey] == place[fields[0].nameKey]
    ensures Promoted([], [place], fields, out) ==> out == [FieldSubject(place, fields[0])]
  {
    if Promoted([], [place], fields, out) {
      FirstFieldSegment(place, fields, out);
    }
  }

  lemma FirstFieldSegment(place: Place, fields: seq<LocationField>, out: seq<Subject>)
    requires |fields| == 2 && !IsLocMeta(place)
    requires Promotable(place, fields[0]) && fields[0].qcodeKey in place
    requires fields[1].nameKey in place && place[fields[1].nameKey] == place[fields[0].nameKey]
    requires Segmented([], [place], fields, out)
    ensures out == [FieldSubject(place, fields[0])]
  {
    var e := FieldSubject(place, fields[0]);
    var c :| SegmentedBy([], [place], fields, out, c);
    assert SegmentAt(out, c, 0, [place][0], fields);
    assert out[..c[1]] == out;
    assert Some(place[fields[0].nameKey]) in SubjectNames(out);
    forall j | 0 <= j < |out|
      ensures out[j] == e && out[j].name !in SubjectNames(out[..j])
    {
      assert FreshFieldEntry(out, j, place, fields);
      var i :| 0 <= i < |fields| && FirstAddedFrom(out[j], place, fields, i);
      assert i == 0;
    }
    SameNameRepeats(out, 0, e.name);
  }

  /** With a single location field and no `sttlocmeta` entry, a place's
      segment holds only fresh entries of that field. */
  lemma SingleFieldSegment(upto: seq<Subject>, lo: int, place: Place, f: LocationField)
    requires Segment(upto, lo, place, [f]) && !IsLocMeta(place)
    ensures forall j :: lo <= j < |upto| ==> AddedFrom(upto[j], place, f) && upto[j].name !in SubjectNames(upto[..j])
  {
    forall j | lo <= j < |upto|
      ensures AddedFrom(upto[j], place, f) && upto[j].name !in SubjectNames(upto[..j])
    {
      assert FreshFieldEntry(upto, j, place, [f]);
      var i :| 0 <= i < 1 && FirstAddedFrom(upto[j], place, [f], i);
    }
  }

  /** Of two places carrying the same value in field `f`, the earlier one
      supplies the entry. */
  lemma SameValueFirstPlaceWins(a: Place, b: Place, f: LocationField, out: seq<Subject>)
    requires !IsLocMeta(a) && !IsLocMeta(b)
    requires Promotable(a, f) && f.qcodeKey in a
    requires f.nameKey in b && b[f.nameKey] == a[f.nameKey]
    ensures Promoted([], [a, b], [f], out) ==> out == [FieldSubject(a, f)]
  {
    if Promoted([], [a, b], [f], out) {
      FirstPlaceSegments(a, b, f, out);
    }
  }

  lemma FirstPlaceSegments(a: Place, b: Place, f: LocationField, out: seq<Subject>)
    requires !IsLocMeta(a) && !IsLocMeta(b)
    requires Promotable(a, f) && f.qcodeKey in a
    requires f.nameKey in b && b[f.nameKey] == a[f.nameKey]
    requires Segmented([], [a, b], [f], out)
    ensures out == [FieldSubject(a, f)]
  {
    var e := FieldSubject(a, f);
    var c :| SegmentedBy([], [a, b], [f], out, c);
    assert SegmentAt(out, c, 0, [a, b][0], [f]);
    assert SegmentAt(out, c, 1, [a, b][1], [f]);
    var up := out[..c[1]];
    assert Promotable(a, [f][0]);
    assert Some(a[f.nameKey]) in SubjectNames(up);
    SingleFieldSegment(up, 0, a, f);
    assert out[..c[2]] == out;
    SingleFieldSegment(out, c[1], b, f);
    forall j | 0 <= j < |out|
      ensures out[j].name == e.name && out[j].name !in SubjectNames(out[..j])
    {
      if j < |up| {
        assert out[j] == up[j] && out[..j] == up[..j];
      }
    }
    SameNameRepeats(out, 0, e.name);
    assert out[0] == up[0];
  }

  // ---------------------------------------------------------------------
  // the contract determines the result
  // ---------------------------------------------------------------------

  /** An entry has at most one first-carrier field. */
  lemma FirstAddedFromUnique(s: Subject, place: Place, fields: seq<LocationField>, i: int, i': int)
    requires FirstAddedFrom(s, place, fields, i) && FirstAddedFrom(s, place, fields, i')
    ensures i == i'
  {
  }

  /** The first carrier of a name comes no later than any promotable field
      carrying that name. */
  lemma FirstCarrierBound(s: Subject, place: Place, fields: seq<LocationField>, i0: int, i: int)
    requires FirstAddedFrom(s, place, fields, i0)
    requires 0 <= i < |fields| && Promotable(place, fields[i]) && s.name == Some(place[fields[i].nameKey])
    ensures i0 <= i
  {
  }

  /** An entry before `k` has its name among the names of the first `k`. */
  lemma NameBefore(y: seq<Subject>, k: int, m: int)
    requires 0 <= m < |y| && 0 <= k <= |y|
    ensures m < k ==> y[m].name in SubjectNames(y[..k])
  {
    if m < k {
      assert SubjectNames(y[..k])[m] == y[m].name;
    }
  }

  /** The entry a run holds at `k` comes from a field no later than any
      promotable field whose value is not yet a name: a later field would
      leave that value to an entry further on, out of field order. */
  lemma RunNextIsEarliest(y: seq<Subject>, start: int, k: int, place: Place, fields: seq<LocationField>, i: int)
    requires FieldRun(y, start, place, fields) && start <= k < |y|
    requires 0 <= i < |fields| && Promotable(place, fields[i])
    requires Some(place[fields[i].nameKey]) !in SubjectNames(y[..k])
    ensures forall i0 :: FirstAddedFrom(y[k], place, fields, i0) ==> i0 <= i
  {
    var v := place[fields[i].nameKey];
    SubjectNamesContain(y, v);
    var m :| 0 <= m < |y| && y[m].name == Some(v);
    NameBefore(y, k, m);
    assert k <= m;
    forall i0 | FirstAddedFrom(y[k], place, fields, i0)
      ensures i0 <= i
    {
      if m == k {
        FirstCarrierBound(y[k], place, fields, i0, i);
      } else {
        assert FieldOrder(y[k], y[m], place, fields);
        var a, b :| 0 <= a < b < |fields| && FirstAddedFrom(y[k], place, fields, a) && FirstAddedFrom(y[m], place, fields, b);
        FirstAddedFromUnique(y[k], place, fields, a, i0);
        FirstCarrierBound(y[m], place, fields, b, i);
      }
    }
  }

  /** Two runs that agree before `k` agree at `k`. */
  lemma RunEntryDetermined(x: seq<Subject>, y: seq<Subject>, start: int, k: int, place: Place, fields: seq<LocationField>)
    requires FieldRun(x, start, place, fields) && FieldRun(y, start, place, fields)
    requires start <= k < |x| && k < |y| && x[..k] == y[..k]
    ensures x[k] == y[k]
  {
    assert FreshFieldEntry(x, k, place, fields) && FreshFieldEntry(y, k, place, fields);
    var i :| 0 <= i < |fields| && FirstAddedFrom(x[k], place, fields, i);
    var i' :| 0 <= i' < |fields| && FirstAddedFrom(y[k], place, fields, i');
    RunNextIsEarliest(y, start, k, place, fields, i);
    RunNextIsEarliest(x, start, k, place, fields, i');
  }

  /** A fresh field entry at `k` carries a promotable value that is not a
      name before `k`. */
  lemma FreshEntryUnnamed(y: seq<Subject>, k: int, place: Place, fields: seq<LocationField>)
    ensures FreshFieldEntry(y, k, place, fields) ==>
              exists i :: 0 <= i < |fields| && Promotable(place, fields[i]) &&
                          Some(place[fields[i].nameKey]) !in SubjectNames(y[..k])
  {
    if FreshFieldEntry(y, k, place, fields) {
      var i :| 0 <= i < |fields| && FirstAddedFrom(y[k], place, fields, i);
      assert Promotable(place, fields[i]);
    }
  }

  /** A run that is a prefix of another run is all of it. */
  lemma RunNoLonger(x: seq<Subject>, y: seq<Subject>, start: int, place: Place, fields: seq<LocationField>)
    requires FieldRun(x, start, place, fields) && FieldRun(y, start, place, fields)
    requires |x| <= |y| && x == y[..|x|]
    ensures |y| == |x|
  {
    FreshEntryUnnamed(y, |x|, place, fields);
  }

  lemma {:induction false} RunAgree(x: seq<Subject>, y: seq<Subject>, start: int, k: int, place: Place, fields: seq<LocationField>)
    requires FieldRun(x, start, place, fields) && FieldRun(y, start, place, fields)
    requires start <= k <= |x| && k <= |y| && x[..k] == y[..k]
    ensures x == y
    decreases |x| - k
  {
    if k < |x| && k < |y| {
      RunEntryDetermined(x, y, start, k, place, fields);
      assert x[..k + 1] == x[..k] + [x[k]] && y[..k + 1] == y[..k] + [y[k]];
      RunAgree(x, y, start, k + 1, place, fields);
    } else if k == |x| {
      assert x == x[..k];
      RunNoLonger(x, y, start, place, fields);
    } else {
      assert y == y[..k];
      RunNoLonger(y, x, start, place, fields);
    }
  }

  /** A place's segment is determined by what precedes it. */
  lemma SegmentUnique(x: seq<Subject>, y: seq<Subject>, lo: int, place: Place, fields: seq<LocationField>)
    requires Segment(x, lo, place, fields) && Segment(y, lo, place, fields)
    requires x[..lo] == y[..lo]
    ensures x == y
  {
    var start := lo + (if IsLocMeta(place) then 1 else 0);
    if IsLocMeta(place) {
      assert x[..start] == x[..lo] + [x[lo]] && y[..start] == y[..lo] + [y[lo]];
    }
    RunAgree(x, y, start, start, place, fields);
  }

  lemma {:induction false} CutsAgree(subjects: seq<Subject>, places: seq<Place>, fields: seq<LocationField>,
                                     o1: seq<Subject>, o2: seq<Subject>, c1: seq<int>, c2: seq<int>, p: int)
    requires SegmentedBy(subjects, places, fields, o1, c1) && SegmentedBy(subjects, places, fields, o2, c2)
    requires |o1| >= |subjects| && |o2| >= |subjects| && o1[..|subjects|] == o2[..|subjects|]
    requires 0 <= p <= |places|
    ensures 0 <= c1[p] <= |o1| && 0 <= c2[p] <= |o2| && c1[p] == c2[p] && o1[..c1[p]] == o2[..c2[p]]
    decreases p
  {
    if p > 0 {
      CutsAgree(subjects, places, fields, o1, o2, c1, c2, p - 1);
      assert SegmentAt(o1, c1, p - 1, places[p - 1], fields);
      assert SegmentAt(o2, c2, p - 1, places[p - 1], fields);
      var x := o1[..c1[p]];
      var y := o2[..c2[p]];
      assert x[..c1[p - 1]] == o1[..c1[p - 1]] && y[..c2[p - 1]] == o2[..c2[p - 1]];
      SegmentUnique(x, y, c1[p - 1], places[p - 1], fields);
    }
  }

  /** At most one result meets `Promoted`. */
  lemma PromotedUnique(subjects: seq<Subject>, places: seq<Place>, fields: seq<LocationField>, o1: seq<Subject>, o2: seq<Subject>)
    ensures Promoted(subjects, places, fields, o1) && Promoted(subjects, places, fields, o2) ==> o1 == o2
  {
    if Promoted(subjects, places, fields, o1) && Promoted(subjects, places, fields, o2) {
      var c1 :| SegmentedBy(subjects, places, fields, o1, c1);
      var c2 :| SegmentedBy(subjects, places, fields, o2, c2);
      CutsAgree(subjects, places, fields, o1, o2, c1, c2, |places|);
      assert o1 == o1[..|o1|] && o2 == o2[..|o2|];
    }
  }

  /** Whenever the promotion succeeds, `Promoted` pins its result: any list
      meeting it is the one the loop builds. */
  lemma PromotedDeterminesResult(subjects: seq<Subject>, places: seq<Place>, fields: seq<LocationField>, out: seq<Subject>)
    ensures PromotePlaces(subjects, places, fields).Success? && Promoted(subjects, places, fields, out) ==>
              PromotePlaces(subjects, places, fields) == Success(out)
  {
    var r := PromotePlaces(subjects, places, fields);
    if r.Success? {
      PromotedUnique(subjects, places, fields, r.value, out);
    }
  }

  // ---------------------------------------------------------------------
  // items
  // ---------------------------------------------------------------------

  /** The places the loop visits: none when `place` is absent or empty. */
  function PlacesOf(item: NewsItem): seq<Place> {
    if item.place.Some? then item.place.value else []
  }

  /** The subjects before promotion (`setdefault('subject', [])`). */
  function SubjectsOf(item: NewsItem): seq<Subject> {
    item.subject.GetOr([])
  }

  /** The body of the loop in `STTParser.parse` for one item. */
  function ProcessItem(item: NewsItem, fields: seq<LocationField>, root: Node): (r: Result<NewsItem, ParseError>)
    ensures r.Success? ==>
              && r.value.uri == item.uri
              && r.value.place == item.place
              && r.value.subject.Some?
              && Promoted(SubjectsOf(item), PlacesOf(item), fields, r.value.subject.value)
    ensures r.Success? && |PlacesOf(item)| == 0 ==> r.value.subject == Some(SubjectsOf(item))
    ensures r.Success? ==> forall k :: Lookup(r.value.extra, k) == Expected(item, root, k)
    ensures r.Failure? ==> MissingQcode(PlacesOf(item), fields) || MalformedTopics(root) || ImagetypeClash(item.extra, root)
    ensures MalformedTopics(root) || ImagetypeClash(item.extra, root) ==> r.Failure?
    ensures !MissingQcode(PlacesOf(item), fields) ==> r.Success? == !(MalformedTopics(root) || ImagetypeClash(item.extra, root))
  {
    var subjects := SubjectsOf(item);
    PromotedNothing(subjects, fields);
    var promoted :- if |PlacesOf(item)| > 0 then PromotePlaces(subjects, PlacesOf(item), fields) else Success(subjects);
    var withSubjects := item.(subject := Some(promoted));
    ExpectedIgnoresSubjects(item, withSubjects, root);
    SetExtraFields(withSubjects, root)
  }

  /** The extra fields depend on the item's `uri` and `extra` only. */
  lemma ExpectedIgnoresSubjects(item: NewsItem, other: NewsItem, root: Node)
    requires other.uri == item.uri && other.extra == item.extra
    ensures forall k :: Expected(other, root, k) == Expected(item, root, k)
  {
  }

  /** `STTParser.parse` over the base parser's items: every item is
      processed in order against the same document; the first exception
      escapes. */
  function Parse(items: seq<NewsItem>, fields: seq<LocationField>, root: Node): (r: Result<seq<NewsItem>, ParseError>)
    ensures r.Success? ==> |r.value| == |items|
    ensures r.Success? ==> forall i :: 0 <= i < |items| ==> ProcessItem(items[i], fields, root) == Success(r.value[i])
    ensures r.Success? ==>
              forall i :: 0 <= i < |items| ==>
                && r.value[i].uri == items[i].uri
                && r.value[i].place == items[i].place
                && r.value[i].subject.Some?
                && |r.value[i].subject.value| >= |SubjectsOf(items[i])|
                && r.value[i].subject.value[..|SubjectsOf(items[i])|] == SubjectsOf(items[i])
    ensures r.Failure? <==> exists i :: 0 <= i < |items| && ProcessItem(items[i], fields, root).Failure?
    ensures r.Failure? ==>
              exists i :: 0 <= i < |items| && ProcessItem(items[i], fields, root) == Failure(r.error) &&
                          forall j :: 0 <= j < i ==> ProcessItem(items[j], fields, root).Success?
  {
    TryMap(items, item => ProcessItem(item, fields, root))
  }
}
