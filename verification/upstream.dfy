/**
 * The shape of the catalog API's JSON: a page `{results: [...], info: {next}}`
 * whose results are character objects. Only the keys the sync command reads
 * are kept.
 */
module Upstream {
  import opened Wrappers

  /** One key of a JSON object: missing, present with `null`, or present with a string. */
  datatype Json = Absent | Null | Str(s: string)

  /** An `origin` or `location` object. */
  datatype Place = Place(name: Json, url: Json)

  /**
   * One element of `results`. `origin`/`location` are `None` when the key is
   * missing, null or an empty object (`item.get("origin") or {}` treats all three
   * alike); `id` is `None` when the key is missing.
   */
  datatype Item = Item(
    id: Option<int>,
    name: Json,
    status: Json,
    species: Json,
    typeName: Json,
    gender: Json,
    origin: Option<Place>,
    location: Option<Place>,
    image: Json,
    url: Json,
    created: Json)

  /** One page. `next` is `Absent` also when `info` itself is missing or null. */
  datatype Page = Page(results: seq<Item>, next: Json)

  /** The `name` or `url` key of an optional place, as `(place or {}).get(key)` sees it. */
  function PlaceName(p: Option<Place>): Json {
    match p
    case None => Absent
    case Some(pl) => pl.name
  }

  function PlaceUrl(p: Option<Place>): Json {
    match p
    case None => Absent
    case Some(pl) => pl.url
  }

  /**
   * The cursor that follows a page: `(data.get("info") or {}).get("next")`.
   * A missing or null link is rendered as "", which `while url:` treats like
   * `None`.
   */
  function NextUrl(p: Page): string {
    if p.next.Str? then p.next.s else ""
  }
}
