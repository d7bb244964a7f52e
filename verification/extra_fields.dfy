/** `STTParser.set_extra_fields`: copies vendor fields of the NewsML-G2
    document into `item['extra']`. Each extraction block reads its own part
    of the tree; an `AttributeError` on a missing node ends that block only,
    which the model expresses by Option short-circuiting inside the block. */
module ExtraFields {
  import opened Wrappers
  import opened Strings
  import opened Numbers
  import opened Seqs
  import opened Xml
  import opened Items

  const GuidKey := "newsItem_guid"
  const AltIdKey := "sttidtype_textid"
  const CreatorNameKey := "creator_name"
  const CreatorIdKey := "creator_id"
  const FilenameKey := "filename"
  const TopicsKey := "stt_topics"
  const EventsKey := "stt_events"
  const WebprioKey := "sttrating_webprio"
  const ImagetypeKey := "imagetype"

  const TopicsPrefix := "stt-topics"
  const EventsPrefix := "stt-events"
  const WebprioType := "sttrating:webprio"
  const ImagetypeQcode := "sttdescription:imagetype"
  const ImagetypeNameQcode := "sttdescription:imagetypename"

  /** The keys of `extra` that this operation may write. */
  const ExtraKeys: set<string> :=
    {GuidKey, AltIdKey, CreatorNameKey, CreatorIdKey, FilenameKey, TopicsKey, EventsKey, WebprioKey, ImagetypeKey}

  /** `prior` overridden by `v` when present. */
  function Override(prior: Option<Value>, v: Option<Value>): Option<Value> {
    if v.Some? then v else prior
  }

  function TextOf(t: Option<string>): Value {
    if t.Some? then Text(t.value) else Null
  }

  /** The `tag` children of `contentMeta`; a missing `contentMeta` raises
      before the loop starts, which reads as an empty loop. */
  function ContentMetaChildren(root: Node, tag: string): seq<Node> {
    match Find(root, QName("contentMeta"))
    case None => []
    case Some(cm) => FindAll(cm, QName(tag))
  }

  // ---------------------------------------------------------------------
  // newsItem guid, altId, creator, filename
  // ---------------------------------------------------------------------

  function GuidBlock(e: Extra, uri: Option<string>): (r: Extra)
    ensures uri.Some? ==> Lookup(r, GuidKey) == Some(Text(uri.value))
    ensures uri.None? ==> r == e
    ensures forall k :: k != GuidKey ==> Lookup(r, k) == Lookup(e, k)
  {
    if uri.Some? then Put(e, GuidKey, Text(uri.value)) else e
  }

  /** The text of `contentMeta/altId`, if both elements are there. */
  function AltIdText(root: Node): Option<string> {
    var cm :- Find(root, QName("contentMeta"));
    var alt :- Find(cm, QName("altId"));
    alt.text
  }

  function AltIdBlock(e: Extra, root: Node): (r: Extra)
    ensures Lookup(r, AltIdKey) == if Truthy(AltIdText(root)) then Some(Text(AltIdText(root).value)) else Lookup(e, AltIdKey)
    ensures forall k :: k != AltIdKey ==> Lookup(r, k) == Lookup(e, k)
  {
    var t := AltIdText(root);
    if Truthy(t) then Put(e, AltIdKey, Text(t.value)) else e
  }

  /** The `contentMeta/creator` element and its `name` child: the block
      reads both, and a creator without a `name` child raises before
      `creator_id` is read. */
  function CreatorNodes(root: Node): Option<(Node, Node)> {
    var cm :- Find(root, QName("contentMeta"));
    var creator :- Find(cm, QName("creator"));
    var name :- Find(creator, QName("name"));
    Some((creator, name))
  }

  function CreatorBlock(e: Extra, root: Node): (r: Extra)
    ensures CreatorNodes(root).None? ==> r == e
    ensures var nodes := CreatorNodes(root);
            Lookup(r, CreatorNameKey) ==
              if nodes.Some? && Truthy(nodes.value.1.text) then Some(Text(nodes.value.1.text.value))
              else Lookup(e, CreatorNameKey)
    ensures var nodes := CreatorNodes(root);
            Lookup(r, CreatorIdKey) ==
              if nodes.Some? && Truthy(Get(nodes.value.0, "qcode")) then Some(Text(Get(nodes.value.0, "qcode").value))
              else Lookup(e, CreatorIdKey)
    ensures forall k :: k != CreatorNameKey && k != CreatorIdKey ==> Lookup(r, k) == Lookup(e, k)
  {
    match CreatorNodes(root)
    case None => e
    case Some((creator, name)) =>
      var e1 := if Truthy(name.text) then Put(e, CreatorNameKey, Text(name.text.value)) else e;
      var qcode := Get(creator, "qcode");
      if Truthy(qcode) then Put(e1, CreatorIdKey, Text(qcode.value)) else e1
  }

  /** The text of `itemMeta/link/filename`; `None` also when `link` has no
      `filename` child, which raises and ends the block. */
  function FilenameText(root: Node): Option<string> {
    var im :- Find(root, QName("itemMeta"));
    var link :- Find(im, QName("link"));
    var f :- Find(link, QName("filename"));
    f.text
  }

  function FilenameBlock(e: Extra, root: Node): (r: Extra)
    ensures Lookup(r, FilenameKey) == if Truthy(FilenameText(root)) then Some(Text(FilenameText(root).value)) else Lookup(e, FilenameKey)
    ensures forall k :: k != FilenameKey ==> Lookup(r, k) == Lookup(e, k)
  {
    var t := FilenameText(root);
    if Truthy(t) then Put(e, FilenameKey, Text(t.value)) else e
  }

  // ---------------------------------------------------------------------
  // stt-topics, stt-events
  // ---------------------------------------------------------------------

  /** `subject.get('qcode', '').split(':')`. */
  function QcodeSegments(n: Node): (v: seq<string>)
    ensures |v| >= 1
  {
    Split(Get(n, "qcode").GetOr(""), ':')
  }

  /** A topic or event qcode with no second segment: indexing it raises
      `IndexError`, which the block does not catch. */
  predicate MalformedTopic(n: Node) {
    var v := QcodeSegments(n);
    (v[0] == TopicsPrefix || v[0] == EventsPrefix) && |v| < 2
  }

  /** The second segment of a subject whose qcode starts with `prefix`. */
  function SegmentAfter(n: Node, prefix: string): Option<Value> {
    var v := QcodeSegments(n);
    if v[0] == prefix && |v| >= 2 then Some(Text(v[1])) else None
  }

  function TopicOf(n: Node): Option<Value> {
    SegmentAfter(n, TopicsPrefix)
  }

  function EventOf(n: Node): Option<Value> {
    SegmentAfter(n, EventsPrefix)
  }

  /** The loop over `contentMeta/subject`: fails on a malformed topic or
      event qcode; otherwise the last topic and the last event win. */
  function TopicsLoop(e: Extra, subjects: seq<Node>): (r: Result<Extra, ParseError>)
    ensures TopicsOutcome(e, subjects, r)
    decreases |subjects|
  {
    if |subjects| == 0 then Success(e)
    else
      var n := subjects[0];
      var v := QcodeSegments(n);
      if v[0] == TopicsPrefix then
        if |v| < 2 then Failure(IndexOutOfRange(Get(n, "qcode").GetOr("")))
        else
          var e1 := Put(e, TopicsKey, Text(v[1]));
          var r := TopicsLoop(e1, subjects[1..]);
          TopicsLoopCons(e, subjects, e1, r);
          r
      else if v[0] == EventsPrefix then
        if |v| < 2 then Failure(IndexOutOfRange(Get(n, "qcode").GetOr("")))
        else
          var e1 := Put(e, EventsKey, Text(v[1]));
          var r := TopicsLoop(e1, subjects[1..]);
          TopicsLoopCons(e, subjects, e1, r);
          r
      else
        var r := TopicsLoop(e, subjects[1..]);
        TopicsLoopCons(e, subjects, e, r);
        r
  }

  /** What the topics loop promises for `subjects` read into `e`: it fails,
      with an `IndexError`, exactly when some topic or event qcode is
      malformed; otherwise the last topic and the last event win and every
      other key is kept. */
  ghost predicate TopicsOutcome(e: Extra, subjects: seq<Node>, r: Result<Extra, ParseError>) {
    && (r.Failure? <==> exists i :: 0 <= i < |subjects| && MalformedTopic(subjects[i]))
    && (r.Failure? ==> r.error.IndexOutOfRange?)
    && (r.Success? ==> Lookup(r.value, TopicsKey) == Override(Lookup(e, TopicsKey), LastSome(subjects, TopicOf)))
    && (r.Success? ==> Lookup(r.value, EventsKey) == Override(Lookup(e, EventsKey), LastSome(subjects, EventOf)))
    && (r.Success? ==> forall k :: k != TopicsKey && k != EventsKey ==> Lookup(r.value, k) == Lookup(e, k))
  }

  /** One well-formed subject in front of the rest: its topic or event is
      overridden by any later one. */
  lemma TopicsLoopCons(e: Extra, subjects: seq<Node>, e1: Extra, r: Result<Extra, ParseError>)
    requires |subjects| > 0 && !MalformedTopic(subjects[0])
    requires Lookup(e1, TopicsKey) == Override(Lookup(e, TopicsKey), TopicOf(subjects[0]))
    requires Lookup(e1, EventsKey) == Override(Lookup(e, EventsKey), EventOf(subjects[0]))
    requires forall k :: k != TopicsKey && k != EventsKey ==> Lookup(e1, k) == Lookup(e, k)
    requires TopicsOutcome(e1, subjects[1..], r)
    ensures TopicsOutcome(e, subjects, r)
  {
    assert forall i :: 0 < i < |subjects| ==> subjects[i] == subjects[1..][i - 1];
    LastSomeFront(subjects, TopicOf);
    LastSomeFront(subjects, EventOf);
  }

  function TopicsBlock(e: Extra, root: Node): Result<Extra, ParseError> {
    TopicsLoop(e, ContentMetaChildren(root, "subject"))
  }

  // ---------------------------------------------------------------------
  // webprio
  // ---------------------------------------------------------------------

  /** A web-priority rating with a non-empty `value`. */
  predicate IsWebprio(n: Node) {
    Get(n, "ratingtype") == Some(WebprioType) && Truthy(Get(n, "value"))
  }

  /** A web-priority rating whose value `int()` rejects: the `ValueError`
      ends the loop. */
  predicate BadWebprio(n: Node) {
    IsWebprio(n) && ParseInt(Get(n, "value").value).None?
  }

  function WebprioOf(n: Node): Option<Value> {
    if IsWebprio(n) && ParseInt(Get(n, "value").value).Some? then Some(Number(ParseInt(Get(n, "value").value).value))
    else None
  }

  /** The loop over `contentMeta/rating`: the last numeric web priority
      before the first non-numeric one wins; later ratings are never read. */
  function WebprioLoop(e: Extra, ratings: seq<Node>): (r: Extra)
    ensures Lookup(r, WebprioKey) ==
            Override(Lookup(e, WebprioKey), LastSome(ratings[..FirstIndex(ratings, BadWebprio)], WebprioOf))
    ensures forall k :: k != WebprioKey ==> Lookup(r, k) == Lookup(e, k)
    decreases |ratings|
  {
    if |ratings| == 0 then e
    else
      var n := ratings[0];
      if IsWebprio(n) then
        match ParseInt(Get(n, "value").value)
        case None => e
        case Some(p) => WebprioStep(e, ratings)
      else WebprioStep(e, ratings)
  }

  /** One step of `WebprioLoop` past a rating that does not end the loop. */
  function WebprioStep(e: Extra, ratings: seq<Node>): (r: Extra)
    requires |ratings| > 0 && !BadWebprio(ratings[0])
    ensures Lookup(r, WebprioKey) ==
            Override(Lookup(e, WebprioKey), LastSome(ratings[..FirstIndex(ratings, BadWebprio)], WebprioOf))
    ensures forall k :: k != WebprioKey ==> Lookup(r, k) == Lookup(e, k)
    decreases |ratings|, 0
  {
    var n := ratings[0];
    var e1 := if WebprioOf(n).Some? then Put(e, WebprioKey, WebprioOf(n).value) else e;
    var stop := FirstIndex(ratings, BadWebprio);
    assert forall i :: 0 < i < |ratings| ==> ratings[i] == ratings[1..][i - 1];
    assert stop == 1 + FirstIndex(ratings[1..], BadWebprio);
    assert ratings[..stop][1..] == ratings[1..][..stop - 1];
    LastSomeFront(ratings[..stop], WebprioOf);
    WebprioLoop(e1, ratings[1..])
  }

  function WebprioBlock(e: Extra, root: Node): Extra {
    WebprioLoop(e, ContentMetaChildren(root, "rating"))
  }

  // ---------------------------------------------------------------------
  // imagetype
  // ---------------------------------------------------------------------

  predicate IsImagetypeGenre(g: Node) {
    Get(g, "qcode") == Some(ImagetypeQcode) || Get(g, "qcode") == Some(ImagetypeNameQcode)
  }

  /** An image-type genre without a `name` child: reading its text raises
      `AttributeError`, which ends the loop. */
  predicate NamelessGenre(g: Node) {
    IsImagetypeGenre(g) && Find(g, QName("name")).None?
  }

  function ImagetypeIdOf(g: Node): Option<Value> {
    var name := Find(g, QName("name"));
    if Get(g, "qcode") == Some(ImagetypeQcode) && name.Some? then Some(TextOf(name.value.text)) else None
  }

  function ImagetypeNameOf(g: Node): Option<Value> {
    var name := Find(g, QName("name"));
    if Get(g, "qcode") == Some(ImagetypeNameQcode) && name.Some? then Some(TextOf(name.value.text)) else None
  }

  /** `extra['imagetype']` exists but is not a mapping. */
  predicate ImagetypeNotMapping(e: Extra) {
    Lookup(e, ImagetypeKey).Some? && !Lookup(e, ImagetypeKey).value.Dict?
  }

  /** The mapping under `extra['imagetype']`, empty when absent. */
  function ImagetypeFields(e: Extra): map<string, Value> {
    if Lookup(e, ImagetypeKey).Some? && Lookup(e, ImagetypeKey).value.Dict? then Lookup(e, ImagetypeKey).value.fields
    else map[]
  }

  function SetIf(m: map<string, Value>, key: string, v: Option<Value>): map<string, Value> {
    if v.Some? then m[key := v.value] else m
  }

  /** The genres the loop reads: those before the first image-type genre
      without a `name` child. */
  function ReadGenres(genres: seq<Node>): seq<Node> {
    genres[..FirstIndex(genres, NamelessGenre)]
  }

  ghost predicate AnyImagetype(read: seq<Node>) {
    exists i :: 0 <= i < |read| && IsImagetypeGenre(read[i])
  }

  /** `base` with `id` and `name` taken from the last genre of each kind. */
  function Merged(base: map<string, Value>, read: seq<Node>): map<string, Value> {
    SetIf(SetIf(base, "id", LastSome(read, ImagetypeIdOf)), "name", LastSome(read, ImagetypeNameOf))
  }

  /** What the imagetype loop promises for `genres` read into `e`. */
  ghost predicate ImagetypeOutcome(e: Extra, genres: seq<Node>, r: Result<Extra, ParseError>) {
    var read := ReadGenres(genres);
    && (r.Failure? <==> AnyImagetype(read) && ImagetypeNotMapping(e))
    && (r.Failure? ==> r.error == NotAMapping(ImagetypeKey))
    && (r.Success? && !AnyImagetype(read) ==> r.value == e)
    && (r.Success? && AnyImagetype(read) ==>
          Lookup(r.value, ImagetypeKey) == Some(Dict(Merged(ImagetypeFields(e), read))))
    && (r.Success? ==> forall k :: k != ImagetypeKey ==> Lookup(r.value, k) == Lookup(e, k))
  }

  lemma ReadGenresStep(genres: seq<Node>)
    requires |genres| > 0 && !NamelessGenre(genres[0])
    ensures ReadGenres(genres) == [genres[0]] + ReadGenres(genres[1..])
  {
    var stop := FirstIndex(genres, NamelessGenre);
    assert forall i :: 0 < i < |genres| ==> genres[i] == genres[1..][i - 1];
    assert stop == 1 + FirstIndex(genres[1..], NamelessGenre);
    assert genres[..stop] == [genres[0]] + genres[1..][..stop - 1];
  }

  lemma AnyImagetypeCons(g: Node, rest: seq<Node>)
    ensures AnyImagetype([g] + rest) <==> IsImagetypeGenre(g) || AnyImagetype(rest)
  {
    var xs := [g] + rest;
    assert forall i :: 0 < i < |xs| ==> xs[i] == rest[i - 1];
    if AnyImagetype(rest) {
      var i :| 0 <= i < |rest| && IsImagetypeGenre(rest[i]);
      assert xs[i + 1] == rest[i];
    }
    if IsImagetypeGenre(g) {
      assert xs[0] == g;
    }
  }

  /** Without an image-type genre, the merge leaves `base` as it is. */
  lemma MergedNone(base: map<string, Value>, read: seq<Node>)
    ensures !AnyImagetype(read) ==> Merged(base, read) == base
  {
    if !AnyImagetype(read) {
      LastSomeSpec(read, ImagetypeIdOf);
      LastSomeSpec(read, ImagetypeNameOf);
      assert forall i :: 0 <= i < |read| ==> ImagetypeIdOf(read[i]).None? && ImagetypeNameOf(read[i]).None?;
    }
  }

  /** A genre that is not an image-type genre contributes nothing. */
  lemma MergedSkip(base: map<string, Value>, g: Node, rest: seq<Node>)
    requires !IsImagetypeGenre(g)
    ensures Merged(base, [g] + rest) == Merged(base, rest)
  {
    assert ImagetypeIdOf(g).None? && ImagetypeNameOf(g).None?;
    LastSomeCons(g, rest, ImagetypeIdOf);
    LastSomeCons(g, rest, ImagetypeNameOf);
    assert LastSome([g] + rest, ImagetypeIdOf) == LastSome(rest, ImagetypeIdOf);
    assert LastSome([g] + rest, ImagetypeNameOf) == LastSome(rest, ImagetypeNameOf);
  }

  /** An image-type genre sets `id` first; a later one may override it. */
  lemma MergedWriteId(base: map<string, Value>, g: Node, rest: seq<Node>, v: Value)
    requires ImagetypeIdOf(g) == Some(v) && ImagetypeNameOf(g).None?
    ensures Merged(base, [g] + rest) == Merged(base["id" := v], rest)
  {
    var id, name := LastSome(rest, ImagetypeIdOf), LastSome(rest, ImagetypeNameOf);
    LastSomeCons(g, rest, ImagetypeIdOf);
    LastSomeCons(g, rest, ImagetypeNameOf);
    assert LastSome([g] + rest, ImagetypeNameOf) == name;
    assert LastSome([g] + rest, ImagetypeIdOf) == if id.Some? then id else Some(v);
    SetIfOverride(base, "id", v, id);
  }

  /** An image-type-name genre sets `name` first; a later one may override it. */
  lemma MergedWriteName(base: map<string, Value>, g: Node, rest: seq<Node>, v: Value)
    requires ImagetypeNameOf(g) == Some(v) && ImagetypeIdOf(g).None?
    ensures Merged(base, [g] + rest) == Merged(base["name" := v], rest)
  {
    var id, name := LastSome(rest, ImagetypeIdOf), LastSome(rest, ImagetypeNameOf);
    LastSomeCons(g, rest, ImagetypeIdOf);
    LastSomeCons(g, rest, ImagetypeNameOf);
    SetIfOverride(SetIf(base, "id", id), "name", v, name);
    SetIfCommute(base, "id", id, "name", v);
  }

  lemma SetIfOverride(m: map<string, Value>, key: string, v: Value, later: Option<Value>)
    ensures SetIf(m, key, if later.Some? then later else Some(v)) == SetIf(m[key := v], key, later)
  {
  }

  lemma SetIfCommute(m: map<string, Value>, k1: string, v1: Option<Value>, k2: string, v2: Value)
    requires k1 != k2
    ensures SetIf(m, k1, v1)[k2 := v2] == SetIf(m[k2 := v2], k1, v1)
  {
  }

  /** The loop over `contentMeta/genre`, up to the first image-type genre
      without a `name` child: if an image-type genre is read, `imagetype`
      must be (or becomes) a mapping whose `id` and `name` are those of the
      last genre of each kind; a non-mapping `imagetype` fails. */
  function ImagetypeLoop(e: Extra, genres: seq<Node>): (r: Result<Extra, ParseError>)
    ensures ImagetypeOutcome(e, genres, r)
    decreases |genres|
  {
    if |genres| == 0 then Success(e)
    else
      var g := genres[0];
      if NamelessGenre(g) then
        assert ReadGenres(genres) == [];
        Success(e)
      else
        ReadGenresStep(genres);
        AnyImagetypeCons(g, ReadGenres(genres[1..]));
        if !IsImagetypeGenre(g) then
          MergedSkip(ImagetypeFields(e), g, ReadGenres(genres[1..]));
          ImagetypeLoop(e, genres[1..])
        else if ImagetypeNotMapping(e) then
          Failure(NotAMapping(ImagetypeKey))
        else
          var field := if Get(g, "qcode") == Some(ImagetypeQcode) then "id" else "name";
          var base := ImagetypeFields(e)[field := TextOf(Find(g, QName("name")).value.text)];
          var e1 := Put(e, ImagetypeKey, Dict(base));
          assert ImagetypeFields(e1) == base;
          MergedNone(base, ReadGenres(genres[1..]));
          if field == "id" then
            MergedWriteId(ImagetypeFields(e), g, ReadGenres(genres[1..]), TextOf(Find(g, QName("name")).value.text));
            ImagetypeLoop(e1, genres[1..])
          else
            MergedWriteName(ImagetypeFields(e), g, ReadGenres(genres[1..]), TextOf(Find(g, QName("name")).value.text));
            ImagetypeLoop(e1, genres[1..])
  }

  function ImagetypeBlock(e: Extra, root: Node): Result<Extra, ParseError> {
    ImagetypeLoop(e, ContentMetaChildren(root, "genre"))
  }

  // ---------------------------------------------------------------------
  // all blocks
  // ---------------------------------------------------------------------

  /** Some topic or event subject has a qcode without a second segment. */
  ghost predicate MalformedTopics(root: Node) {
    var subjects := ContentMetaChildren(root, "subject");
    exists i :: 0 <= i < |subjects| && MalformedTopic(subjects[i])
  }

  /** The imagetype block writes into an `imagetype` that is not a mapping. */
  ghost predicate ImagetypeClash(e: Extra, root: Node) {
    AnyImagetype(ReadGenres(ContentMetaChildren(root, "genre"))) && ImagetypeNotMapping(e)
  }

  /** The value `key` ends up with, stated per key against the ORIGINAL
      `extra`: each block reads the document only and writes its own keys,
      so the blocks do not see each other's effects. */
  ghost function Expected(item: NewsItem, root: Node, key: string): Option<Value> {
    var prior := Lookup(item.extra, key);
    if key == GuidKey then
      if item.uri.Some? then Some(Text(item.uri.value)) else prior
    else if key == AltIdKey then
      if Truthy(AltIdText(root)) then Some(Text(AltIdText(root).value)) else prior
    else if key == CreatorNameKey then
      var nodes := CreatorNodes(root);
      if nodes.Some? && Truthy(nodes.value.1.text) then Some(Text(nodes.value.1.text.value)) else prior
    else if key == CreatorIdKey then
      var nodes := CreatorNodes(root);
      if nodes.Some? && Truthy(Get(nodes.value.0, "qcode")) then Some(Text(Get(nodes.value.0, "qcode").value)) else prior
    else if key == FilenameKey then
      if Truthy(FilenameText(root)) then Some(Text(FilenameText(root).value)) else prior
    else if key == TopicsKey then
      Override(prior, LastSome(ContentMetaChildren(root, "subject"), TopicOf))
    else if key == EventsKey then
      Override(prior, LastSome(ContentMetaChildren(root, "subject"), EventOf))
    else if key == WebprioKey then
      var ratings := ContentMetaChildren(root, "rating");
      Override(prior, LastSome(ratings[..FirstIndex(ratings, BadWebprio)], WebprioOf))
    else if key == ImagetypeKey then
      var read := ReadGenres(ContentMetaChildren(root, "genre"));
      if AnyImagetype(read) then Some(Dict(Merged(ImagetypeFields(item.extra), read))) else prior
    else prior
  }

  /** The blocks before the topics loop: guid, alternative id, creator and
      filename. */
  function HeaderBlocks(item: NewsItem, root: Node): Extra {
    FilenameBlock(CreatorBlock(AltIdBlock(GuidBlock(item.extra, item.uri), root), root), root)
  }

  /** The document-reading blocks up to and including the topics loop. */
  function EarlyBlocks(item: NewsItem, root: Node): Result<Extra, ParseError> {
    TopicsBlock(HeaderBlocks(item, root), root)
  }

  /** The blocks after the topics loop. */
  function LateBlocks(e: Extra, root: Node): Result<Extra, ParseError> {
    ImagetypeBlock(WebprioBlock(e, root), root)
  }

  /** `STTParser.set_extra_fields`. An `IndexError` from the topics block
      or a `TypeError` from the imagetype block escapes. */
  function SetExtraFields(item: NewsItem, root: Node): (r: Result<NewsItem, ParseError>)
    ensures r.Failure? <==> MalformedTopics(root) || ImagetypeClash(item.extra, root)
    ensures r.Failure? && MalformedTopics(root) ==> r.error.IndexOutOfRange?
    ensures r.Success? ==> r.value == item.(extra := r.value.extra)
    ensures r.Success? ==> forall k :: Lookup(r.value.extra, k) == Expected(item, root, k)
    ensures r.Success? ==> forall k :: k !in ExtraKeys ==> Lookup(r.value.extra, k) == Lookup(item.extra, k)
  {
    EarlyBlocksOutcome(item, root);
    match EarlyBlocks(item, root)
    case Failure(err) => Failure(err)
    case Success(e5) =>
      LateBlocksOutcome(item, root, e5);
      match LateBlocks(e5, root)
      case Failure(err) => Failure(err)
      case Success(e7) =>
        forall k ensures Lookup(e7, k) == Expected(item, root, k) {
          BlocksMeetExpected(item, root, e5, e7, k);
        }
        forall k | k !in ExtraKeys ensures Expected(item, root, k) == Lookup(item.extra, k) {
          ExpectedOutside(item, root, k);
        }
        Success(item.(extra := e7))
  }

  /** Keys outside `ExtraKeys` keep their value. */
  lemma ExpectedOutside(item: NewsItem, root: Node, k: string)
    requires k !in ExtraKeys
    ensures Expected(item, root, k) == Lookup(item.extra, k)
  {
  }

  lemma EarlyBlocksOutcome(item: NewsItem, root: Node)
    ensures EarlyBlocks(item, root).Failure? <==> MalformedTopics(root)
    ensures EarlyBlocks(item, root).Failure? ==> EarlyBlocks(item, root).error.IndexOutOfRange?
    ensures EarlyBlocks(item, root).Success? ==>
              Lookup(EarlyBlocks(item, root).value, ImagetypeKey) == Lookup(item.extra, ImagetypeKey)
  {
    var e4 := HeaderBlocks(item, root);
    var r := TopicsLoop(e4, ContentMetaChildren(root, "subject"));
    assert EarlyBlocks(item, root) == r;
    EarlyFrame(item, root, ImagetypeKey);
  }

  /** A key the early blocks do not write keeps its value through them. */
  lemma EarlyFrame(item: NewsItem, root: Node, k: string)
    requires k !in {GuidKey, AltIdKey, CreatorNameKey, CreatorIdKey, FilenameKey}
    ensures Lookup(HeaderBlocks(item, root), k) == Lookup(item.extra, k)
  {
  }

  lemma LateBlocksOutcome(item: NewsItem, root: Node, e5: Extra)
    requires Lookup(e5, ImagetypeKey) == Lookup(item.extra, ImagetypeKey)
    ensures LateBlocks(e5, root).Failure? <==> ImagetypeClash(item.extra, root)
    ensures LateBlocks(e5, root).Failure? ==> LateBlocks(e5, root).error.NotAMapping?
  {
    var e6 := WebprioBlock(e5, root);
    var genres := ContentMetaChildren(root, "genre");
    assert Lookup(e6, ImagetypeKey) == Lookup(e5, ImagetypeKey);
    assert ImagetypeOutcome(e6, genres, ImagetypeLoop(e6, genres));
  }

  /** Block independence, one key at a time. */
  lemma BlocksMeetExpected(item: NewsItem, root: Node, e5: Extra, e7: Extra, k: string)
    requires EarlyBlocks(item, root) == Success(e5)
    requires LateBlocks(e5, root) == Success(e7)
    ensures Lookup(e7, k) == Expected(item, root, k)
  {
    var e4 := HeaderBlocks(item, root);
    var e6 := WebprioBlock(e5, root);
    assert TopicsLoop(e4, ContentMetaChildren(root, "subject")) == Success(e5);
    assert ImagetypeLoop(e6, ContentMetaChildren(root, "genre")) == Success(e7);
    LateFrame(e5, root, k);
    if k == ImagetypeKey {
      EarlyFrame(item, root, k);
      ImagetypeKeyValue(item, root, e6);
    } else if k == WebprioKey {
      EarlyFrame(item, root, k);
      WebprioKeyValue(item, root, e5);
    } else if k == TopicsKey {
      EarlyFrame(item, root, k);
      TopicsKeyValue(item, root, e4, e5);
    } else if k == EventsKey {
      EarlyFrame(item, root, k);
      EventsKeyValue(item, root, e4, e5);
    } else {
      HeaderKeyValue(item, root, k);
    }
  }

  /** The topics loop sets the topic key from the prior value. */
  lemma TopicsKeyValue(item: NewsItem, root: Node, e4: Extra, e5: Extra)
    requires Lookup(e4, TopicsKey) == Lookup(item.extra, TopicsKey)
    requires TopicsLoop(e4, ContentMetaChildren(root, "subject")) == Success(e5)
    ensures Lookup(e5, TopicsKey) == Expected(item, root, TopicsKey)
  {
    ExpectedTopics(item, root);
  }

  lemma ExpectedTopics(item: NewsItem, root: Node)
    ensures Expected(item, root, TopicsKey) ==
            Override(Lookup(item.extra, TopicsKey), LastSome(ContentMetaChildren(root, "subject"), TopicOf))
  {
  }

  /** The topics loop sets the event key from the prior value. */
  lemma EventsKeyValue(item: NewsItem, root: Node, e4: Extra, e5: Extra)
    requires Lookup(e4, EventsKey) == Lookup(item.extra, EventsKey)
    requires TopicsLoop(e4, ContentMetaChildren(root, "subject")) == Success(e5)
    ensures Lookup(e5, EventsKey) == Expected(item, root, EventsKey)
  {
    ExpectedEvents(item, root);
  }

  lemma ExpectedEvents(item: NewsItem, root: Node)
    ensures Expected(item, root, EventsKey) ==
            Override(Lookup(item.extra, EventsKey), LastSome(ContentMetaChildren(root, "subject"), EventOf))
  {
  }

  /** The webprio loop sets its key from the prior value. */
  lemma WebprioKeyValue(item: NewsItem, root: Node, e5: Extra)
    requires Lookup(e5, WebprioKey) == Lookup(item.extra, WebprioKey)
    ensures Lookup(WebprioBlock(e5, root), WebprioKey) == Expected(item, root, WebprioKey)
  {
  }

  /** The keys the header blocks write pass the topics loop unchanged. */
  lemma HeaderKeyValue(item: NewsItem, root: Node, k: string)
    requires k !in {TopicsKey, EventsKey, WebprioKey, ImagetypeKey}
    ensures var r := TopicsLoop(HeaderBlocks(item, root), ContentMetaChildren(root, "subject"));
            r.Success? ==> Lookup(r.value, k) == Expected(item, root, k)
  {
    if k in {GuidKey, AltIdKey, CreatorNameKey, CreatorIdKey, FilenameKey} {
      EarlyKeys(item, root, k);
    } else {
      EarlyFrame(item, root, k);
    }
  }

  /** What the blocks before the topics loop leave under their own keys. */
  lemma EarlyKeys(item: NewsItem, root: Node, k: string)
    requires k in {GuidKey, AltIdKey, CreatorNameKey, CreatorIdKey, FilenameKey}
    ensures Lookup(HeaderBlocks(item, root), k) ==
            Expected(item, root, k)
  {
  }

  /** The topics, webprio and imagetype steps leave every other key alone
      and set theirs as `Expected` says, given the value before them. */
  lemma LateFrame(e5: Extra, root: Node, k: string)
    ensures var e6 := WebprioBlock(e5, root);
            var r := ImagetypeLoop(e6, ContentMetaChildren(root, "genre"));
            && (k != WebprioKey ==> Lookup(e6, k) == Lookup(e5, k))
            && (r.Success? && k != ImagetypeKey ==> Lookup(r.value, k) == Lookup(e6, k))
  {
    var e6 := WebprioBlock(e5, root);
    var genres := ContentMetaChildren(root, "genre");
    assert ImagetypeOutcome(e6, genres, ImagetypeLoop(e6, genres));
  }

  lemma ImagetypeKeyValue(item: NewsItem, root: Node, e6: Extra)
    requires Lookup(e6, ImagetypeKey) == Lookup(item.extra, ImagetypeKey)
    ensures var r := ImagetypeLoop(e6, ContentMetaChildren(root, "genre"));
            r.Success? ==> Lookup(r.value, ImagetypeKey) == Expected(item, root, ImagetypeKey)
  {
    var genres := ContentMetaChildren(root, "genre");
    assert ImagetypeOutcome(e6, genres, ImagetypeLoop(e6, genres));
    assert ImagetypeFields(e6) == ImagetypeFields(item.extra);
  }
}
