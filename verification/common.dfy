/** The pure helpers of the STT common module: identifier normalisation,
    the online-version test and the remove-signal search. */
module Common {
  import opened Wrappers
  import opened Strings
  import opened Xml
  import opened Items

  // ---------------------------------------------------------------------
  // Identifier normalisation
  // ---------------------------------------------------------------------

  /** Drops the ingest date segment (index 3) of a five-segment id, and the
      date and version segments (indices 3 and 5) of a six-segment id; any
      other id is re-joined from its own segments. */
  function RemoveDatePortion(id: string): (r: string)
    ensures var parts := Split(id, ':');
            |parts| == 5 ==> Split(r, ':') == [parts[0], parts[1], parts[2], parts[4]]
    ensures var parts := Split(id, ':');
            |parts| == 6 ==> Split(r, ':') == [parts[0], parts[1], parts[2], parts[4]]
    ensures |Split(id, ':')| != 5 && |Split(id, ':')| != 6 ==> r == id
  {
    var parts := Split(id, ':');
    if |parts| == 5 || |parts| == 6 then
      var kept := [parts[0], parts[1], parts[2], parts[4]];
      SplitJoin(kept, ':');
      Join(kept, ':')
    else
      JoinSplit(id, ':');
      Join(parts, ':')
  }

  /** Normalising an already normalised id changes nothing. */
  lemma RemoveDatePortionIdempotent(id: string)
    ensures RemoveDatePortion(RemoveDatePortion(id)) == RemoveDatePortion(id)
  {
  }

  /** A five-segment id built from separator-free segments loses exactly
      its fourth segment. */
  lemma RemoveDatePortionFive(a: string, b: string, c: string, d: string, e: string)
    requires ':' !in a && ':' !in b && ':' !in c && ':' !in d && ':' !in e
    ensures RemoveDatePortion(a + ":" + b + ":" + c + ":" + d + ":" + e) == a + ":" + b + ":" + c + ":" + e
  {
    var id := a + ":" + b + ":" + c + ":" + d + ":" + e;
    var t3 := d + ":" + e;
    var t2 := c + ":" + t3;
    var t1 := b + ":" + t2;
    assert id == a + [':'] + t1;
    assert t1 == b + [':'] + t2;
    assert t2 == c + [':'] + t3;
    assert t3 == d + [':'] + e;
    SplitWithoutSeparator(e, ':');
    SplitAtSeparator(d, e, ':');
    SplitAtSeparator(c, t3, ':');
    SplitAtSeparator(b, t2, ':');
    SplitAtSeparator(a, t1, ':');
    assert Split(id, ':') == [a, b, c, d, e];
    var kept := [a, b, c, e];
    var r := RemoveDatePortion(id);
    assert Split(r, ':') == kept;
    JoinSplit(r, ':');
    JoinSegments(kept, ':');
    assert r == a + [':'] + b + [':'] + c + [':'] + e;
  }

  /** The documented example: `urn:newsml:stt.fi:20230317:276671` becomes
      `urn:newsml:stt.fi:276671`. */
  lemma RemoveDatePortionExample()
    ensures RemoveDatePortion("urn" + ":" + "newsml" + ":" + "stt.fi" + ":" + "20230317" + ":" + "276671") ==
            "urn" + ":" + "newsml" + ":" + "stt.fi" + ":" + "276671"
  {
    RemoveDatePortionFive("urn", "newsml", "stt.fi", "20230317", "276671");
  }

  /** Unfolds a join of four or five segments into explicit concatenation. */
  lemma JoinSegments(parts: seq<string>, sep: char)
    requires |parts| == 4 || |parts| == 5
    ensures |parts| == 4 ==> Join(parts, sep) == parts[0] + [sep] + parts[1] + [sep] + parts[2] + [sep] + parts[3]
    ensures |parts| == 5 ==> Join(parts, sep) == parts[0] + [sep] + parts[1] + [sep] + parts[2] + [sep] + parts[3] + [sep] + parts[4]
  {
    assert Join(parts, sep) == parts[0] + [sep] + Join(parts[1..], sep);
    assert Join(parts[1..], sep) == parts[1] + [sep] + Join(parts[2..], sep);
    assert Join(parts[2..], sep) == parts[2] + [sep] + Join(parts[3..], sep);
    if |parts| == 5 {
      assert Join(parts[3..], sep) == parts[3] + [sep] + Join(parts[4..], sep);
    }
  }

  // ---------------------------------------------------------------------
  // Online version
  // ---------------------------------------------------------------------

  predicate IsOnlineMarker(s: Subject) {
    s.scheme == Some("sttversion") && s.qcode == Some("6")
  }

  /** `next((s for s in subjects if marker(s)), None)`. */
  function FirstOnlineMarker(subjects: seq<Subject>): (r: Option<Subject>)
    ensures r.Some? ==> r.value in subjects && IsOnlineMarker(r.value)
    ensures r.None? <==> forall i :: 0 <= i < |subjects| ==> !IsOnlineMarker(subjects[i])
    decreases |subjects|
  {
    if |subjects| == 0 then None
    else if IsOnlineMarker(subjects[0]) then Some(subjects[0])
    else
      var r := FirstOnlineMarker(subjects[1..]);
      assert forall i :: 0 < i < |subjects| ==> subjects[i] == subjects[1..][i - 1];
      r
  }

  /** True exactly when some subject has scheme `sttversion` and qcode `6`;
      an absent or empty subject list gives false. */
  function IsOnlineVersion(item: NewsItem): (r: bool)
    ensures r <==> item.subject.Some? &&
                   exists i :: 0 <= i < |item.subject.value| && IsOnlineMarker(item.subject.value[i])
    ensures item.subject.None? || item.subject == Some([]) ==> !r
  {
    FirstOnlineMarker(item.subject.GetOr([])).Some?
  }

  // ---------------------------------------------------------------------
  // Remove signal
  // ---------------------------------------------------------------------

  predicate IsRemoveSignal(c: Node) {
    c.tag == QName("signal") && Get(c, "qcode") == Some("sttinstruct:remove")
  }

  /** An `itemMeta` element with a direct remove-signal child. */
  ghost predicate IsRemovingItemMeta(n: Node) {
    n.tag == QName("itemMeta") && exists i :: 0 <= i < |n.children| && IsRemoveSignal(n.children[i])
  }

  /** The path `p` leads from `n` to an `itemMeta` with a remove signal. */
  ghost predicate LeadsToRemoval(n: Node, p: seq<nat>) {
    ValidPath(n, p) && IsRemovingItemMeta(At(n, p))
  }

  function RemoveSignals(cs: seq<Node>): (r: seq<Node>)
    ensures |r| > 0 <==> exists i :: 0 <= i < |cs| && IsRemoveSignal(cs[i])
    decreases |cs|
  {
    if |cs| == 0 then []
    else
      var r := (if IsRemoveSignal(cs[0]) then [cs[0]] else []) + RemoveSignals(cs[1..]);
      assert forall i :: 0 < i < |cs| ==> cs[i] == cs[1..][i - 1];
      r
  }

  /** The node-set of `//itemMeta/signal[@qcode='sttinstruct:remove']`
      evaluated over the subtree rooted at `n`; only its emptiness matters. */
  function SignalHits(n: Node): seq<Node>
    decreases n, 1
  {
    (if n.tag == QName("itemMeta") then RemoveSignals(n.children) else []) + SignalHitsAll(n.children)
  }

  function SignalHitsAll(cs: seq<Node>): seq<Node>
    decreases cs, 0
  {
    if |cs| == 0 then [] else SignalHits(cs[0]) + SignalHitsAll(cs[1..])
  }

  lemma {:induction false} SignalHitsAllNonEmpty(cs: seq<Node>)
    ensures |SignalHitsAll(cs)| > 0 <==> exists i :: 0 <= i < |cs| && |SignalHits(cs[i])| > 0
    decreases |cs|
  {
    if |cs| > 0 {
      SignalHitsAllNonEmpty(cs[1..]);
      assert forall i :: 0 < i < |cs| ==> cs[i] == cs[1..][i - 1];
    }
  }

  /** Every element the path search finds is reported by the XPath query. */
  lemma {:induction false} SignalHitsComplete(n: Node, p: seq<nat>)
    requires ValidPath(n, p) && IsRemovingItemMeta(At(n, p))
    ensures |SignalHits(n)| > 0
    decreases |p|
  {
    if |p| == 0 {
      assert |RemoveSignals(n.children)| > 0;
    } else {
      var c := n.children[p[0]];
      SignalHitsComplete(c, p[1..]);
      SignalHitsAllNonEmpty(n.children);
    }
  }

  /** A non-empty XPath result has a witness element reachable by a path. */
  lemma {:induction false} SignalHitsSound(n: Node) returns (p: seq<nat>)
    requires |SignalHits(n)| > 0
    ensures ValidPath(n, p) && IsRemovingItemMeta(At(n, p))
    decreases n
  {
    if n.tag == QName("itemMeta") && |RemoveSignals(n.children)| > 0 {
      p := [];
    } else {
      SignalHitsAllNonEmpty(n.children);
      var i :| 0 <= i < |n.children| && |SignalHits(n.children[i])| > 0;
      var c := n.children[i];
      var q := SignalHitsSound(c);
      p := [i] + q;
      assert p[1..] == q;
      assert At(n, p) == At(c, q);
    }
  }

  /** The XPath node-set is non-empty exactly when some element of the tree,
      the root included, is an `itemMeta` with a direct remove-signal child. */
  lemma SignalHitsIff(n: Node)
    ensures |SignalHits(n)| > 0 <==> exists p :: LeadsToRemoval(n, p)
  {
    if |SignalHits(n)| > 0 {
      var p := SignalHitsSound(n);
      assert LeadsToRemoval(n, p);
    }
    forall p | LeadsToRemoval(n, p)
      ensures |SignalHits(n)| > 0
    {
      SignalHitsComplete(n, p);
    }
  }

  /** True exactly when an `itemMeta` element anywhere in the document
      (the root included) has a direct `signal` child whose `qcode` is
      `sttinstruct:remove`; false otherwise, including for a document
      with no `itemMeta` at all. */
  function PlanningXmlContainsRemoveSignal(doc: Node): (r: bool)
    ensures r <==> exists p :: LeadsToRemoval(doc, p)
  {
    SignalHitsIff(doc);
    |SignalHits(doc)| > 0
  }
}
