/** The ingest item record the feed parser produces, with the duck-typed
    Python mapping turned into explicit optional fields. */
module Items {
  import opened Wrappers

  /** A `subject` entry; the base parser may leave any key out. */
  datatype Subject = Subject(name: Option<string>, qcode: Option<string>, scheme: Option<string>)

  /** A `place` entry: an open mapping whose keys include `name`, `qcode`,
      `scheme` and the location-map fields. */
  type Place = map<string, string>

  /** A value stored under `extra`: text (or a missing element text), an
      integer, or a nested mapping (`extra['imagetype']`). */
  datatype Value = Text(s: string) | Null | Number(n: int) | Dict(fields: map<string, Value>)

  /** `item['extra']`; `None` when the key is absent. */
  type Extra = Option<map<string, Value>>

  /** The fields of an item that the core reads or writes. `None` means the
      key is absent from the item mapping. */
  datatype NewsItem = NewsItem(
    uri: Option<string>,
    subject: Option<seq<Subject>>,
    place: Option<seq<Place>>,
    extra: Extra)

  /** The exceptions that escape parsing: an `IndexError` on a topic or
      event qcode without a colon, a `KeyError` on a location-map qcode key
      the place lacks, and a `TypeError` when `extra[key]` is not a mapping. */
  datatype ParseError = IndexOutOfRange(qcode: string) | MissingKey(key: string) | NotAMapping(key: string)

  /** `item.setdefault('extra', {})[key] = v`. */
  function Put(e: Extra, key: string, v: Value): (r: Extra)
    ensures r.Some? && key in r.value && r.value[key] == v
    ensures forall k :: k != key ==> Lookup(r, k) == Lookup(e, k)
  {
    Some(e.GetOr(map[])[key := v])
  }

  /** `item.get('extra', {}).get(key)`. */
  function Lookup(e: Extra, key: string): Option<Value> {
    if e.Some? && key in e.value then Some(e.value[key]) else None
  }
}
