/**
 * The `sync_rick_and_morty` management command: walk the catalog's pages from
 * the pre-filtered seed query, keep the items that pass the local filter and
 * upsert each into the `Character` table, counting seen, created and updated
 * rows. Any exception aborts the run; rows already written stay written.
 */
module Sync {
  import opened Wrappers
  import opened Strings
  import opened Upstream
  import opened Models
  import opened Fetcher

  const ApiBase: string := "https://rickandmortyapi.com/api/character"

  /** `f"{API_BASE}?{urlencode({'species': 'Human', 'status': 'Alive'})}"`. */
  const SeedUrl: string := ApiBase + "?species=Human&status=Alive"

  /** The exceptions that end a run. */
  datatype Failure =
    | KeyError                    // `item["id"]` on an item without an id
    | AttributeError              // a string method called on `None`
    | IntegrityError              // a JSON null written to a NOT NULL column
    | FetchFailed(error: FetchError)

  /** `item.get(key, "")`: "" for a missing key, `None` for a JSON null. */
  function GetText(j: Json): (r: Option<string>)
    ensures r.None? <==> j.Null?
    ensures j.Absent? ==> r == Some("")
    ensures j.Str? ==> r == Some(j.s)
  {
    match j
    case Absent => Some("")
    case Null => None
    case Str(s) => Some(s)
  }

  /** `(result.get("origin") or {}).get("name") or ""`: a missing or null name reads as "". */
  function FilterOrigin(item: Item): string {
    match PlaceName(item.origin)
    case Str(s) => s
    case _ => ""
  }

  /**
   * `_should_keep`: human, alive, and an origin name that starts with the
   * case-sensitive "Earth (". `species` is read first and `status` only when
   * the species matched; a null in either one that is read raises.
   */
  function ShouldKeep(item: Item): (r: Result<bool, Failure>)
    ensures r.Err? ==> r.error == AttributeError
    ensures r.Err? <==>
              item.species.Null? ||
              (item.species.Str? && Lower(item.species.s) == "human" && item.status.Null?)
    ensures r == Ok(true) <==>
              && item.species.Str? && Lower(item.species.s) == "human"
              && item.status.Str? && Lower(item.status.s) == "alive"
              && StartsWith(FilterOrigin(item), "Earth (")
  {
    var originName := FilterOrigin(item);
    match GetText(item.species)
    case None => Err(AttributeError)
    case Some(species) =>
      if Lower(species) != "human" then Ok(false)
      else
        match GetText(item.status)
        case None => Err(AttributeError)
        case Some(status) => Ok(Lower(status) == "alive" && StartsWith(originName, "Earth ("))
  }

  /** A bare "Earth", a lower-case "earth (" and a missing origin are all rejected. */
  lemma OriginVariantsRejected(item: Item)
    requires PlaceName(item.origin) in {Str("Earth"), Str("earth (C-137)"), Absent, Null}
    ensures ShouldKeep(item) != Ok(true)
  {
    assert !StartsWith("Earth", "Earth (");
    assert !StartsWith("earth (C-137)", "Earth (") by {
      assert "earth (C-137)"[0] != "Earth ("[0];
    }
  }

  /** The text columns that a JSON null would leave NULL. */
  predicate HasNullColumn(item: Item) {
    || item.name.Null? || item.status.Null? || item.species.Null? || item.typeName.Null?
    || item.gender.Null? || PlaceName(item.origin).Null? || PlaceUrl(item.origin).Null?
    || PlaceName(item.location).Null? || PlaceUrl(item.location).Null?
    || item.image.Null? || item.url.Null?
  }

  /** A column written from key `j`: "" for a missing key, the string itself otherwise. */
  predicate StoredAs(j: Json, v: string) {
    (j.Absent? && v == "") || (j.Str? && v == j.s)
  }

  /** The timestamp text handed to `datetime.fromisoformat`. */
  function NormalizeTimestamp(s: string): (r: string)
    ensures 'Z' !in r
  {
    ReplaceAllRemoves(s, 'Z', "+00:00");
    ReplaceAll(s, 'Z', "+00:00")
  }

  /**
   * The arguments of `update_or_create`, evaluated in Python's left-to-right order:
   * `item["id"]` first, then the defaults with `created` rewritten; the write
   * itself refuses a NULL in any NOT NULL column.
   */
  function BuildRecord(item: Item): (r: Result<Character, Failure>)
    ensures item.id.None? ==> r == Err(KeyError)
    ensures item.id.Some? && !item.created.Str? ==> r == Err(AttributeError)
    ensures item.id.Some? && item.created.Str? && HasNullColumn(item) ==> r == Err(IntegrityError)
    ensures r.Ok? <==> item.id.Some? && item.created.Str? && !HasNullColumn(item)
    ensures r.Ok? ==>
              && r.value.id == item.id.value
              && r.value.created == NormalizeTimestamp(item.created.s)
              && StoredAs(item.name, r.value.name)
              && StoredAs(item.status, r.value.status)
              && StoredAs(item.species, r.value.species)
              && StoredAs(item.typeName, r.value.typeName)
              && StoredAs(item.gender, r.value.gender)
              && StoredAs(PlaceName(item.origin), r.value.originName)
              && StoredAs(PlaceUrl(item.origin), r.value.originUrl)
              && StoredAs(PlaceName(item.location), r.value.locationName)
              && StoredAs(PlaceUrl(item.location), r.value.locationUrl)
              && StoredAs(item.image, r.value.image)
              && StoredAs(item.url, r.value.url)
  {
    if item.id.None? then Err(KeyError)
    else if !item.created.Str? then Err(AttributeError)
    else if HasNullColumn(item) then Err(IntegrityError)
    else
      Ok(Character(
        item.id.value,
        GetText(item.name).value,
        GetText(item.status).value,
        GetText(item.species).value,
        GetText(item.typeName).value,
        GetText(item.gender).value,
        GetText(PlaceName(item.origin)).value,
        GetText(PlaceUrl(item.origin)).value,
        GetText(PlaceName(item.location)).value,
        GetText(PlaceUrl(item.location)).value,
        GetText(item.image).value,
        GetText(item.url).value,
        NormalizeTimestamp(item.created.s)))
  }

  /** A trailing "Z" becomes "+00:00". */
  lemma TrailingZBecomesUtcOffset(t: string)
    requires 'Z' !in t
    ensures NormalizeTimestamp(t + "Z") == t + "+00:00"
  {
    ReplaceAllAppend(t, "Z", 'Z', "+00:00");
    ReplaceAllUnchanged(t, 'Z', "+00:00");
  }

  /** The run summary `seen`, `created`, `updated`. */
  datatype Counts = Counts(seen: nat, created: nat, updated: nat)

  /** The counter updates after one upsert. */
  function Tally(c: Counts, isCreated: bool): Counts {
    if isCreated then Counts(c.seen + 1, c.created + 1, c.updated)
    else Counts(c.seen + 1, c.created, c.updated + 1)
  }

  /** The table and counters part-way through a run, or where an exception stopped it. */
  datatype Step =
    | Running(rows: map<int, Character>, counts: Counts)
    | Aborted(rows: map<int, Character>, counts: Counts, failure: Failure)

  /** One pass of the inner loop's body. */
  function SyncItem(rows: map<int, Character>, counts: Counts, item: Item): Step {
    match ShouldKeep(item)
    case Err(f) => Aborted(rows, counts, f)
    case Ok(keep) =>
      if !keep then Running(rows, counts)
      else
        match BuildRecord(item)
        case Err(f) => Aborted(rows, counts, f)
        case Ok(rec) =>
          var u := Upsert(rows, rec);
          Running(u.rows, Tally(counts, u.created))
  }

  /** The inner loop over a page's `results`, item by item; the first exception stops it. */
  function SyncItems(rows: map<int, Character>, counts: Counts, items: seq<Item>): Step
    decreases |items|
  {
    if items == [] then Running(rows, counts)
    else
      match SyncItems(rows, counts, items[..|items| - 1])
      case Aborted(r, c, f) => Aborted(r, c, f)
      case Running(r, c) => SyncItem(r, c, items[|items| - 1])
  }

  /**
   * From `(rows, c)` to `(rows', c')` no row was removed, the created count grew
   * by the number of new ids, and every seen item was either created or updated.
   */
  ghost predicate Grows(rows: map<int, Character>, c: Counts, rows': map<int, Character>, c': Counts) {
    && rows.Keys <= rows'.Keys
    && c.created <= c'.created && c.updated <= c'.updated
    && c'.created - c.created == |rows'| - |rows|
    && c'.seen - c.seen == (c'.created - c.created) + (c'.updated - c.updated)
  }

  lemma SyncItemGrows(rows: map<int, Character>, counts: Counts, item: Item)
    ensures var s := SyncItem(rows, counts, item); Grows(rows, counts, s.rows, s.counts)
  {
  }

  /** Whatever an item loop does, aborted or not, it only grows the table and keeps the counters balanced. */
  lemma {:induction false} SyncItemsGrows(rows: map<int, Character>, counts: Counts, items: seq<Item>)
    ensures var s := SyncItems(rows, counts, items); Grows(rows, counts, s.rows, s.counts)
    decreases |items|
  {
    if items != [] {
      var front := items[..|items| - 1];
      SyncItemsGrows(rows, counts, front);
      var s := SyncItems(rows, counts, front);
      if s.Running? {
        SyncItemGrows(s.rows, s.counts, items[|items| - 1]);
      }
    }
  }

  /** `item` was kept and `rec` is the row built from it. */
  predicate Kept(item: Item, rec: Character) {
    ShouldKeep(item) == Ok(true) && BuildRecord(item) == Ok(rec)
  }

  /** Every row an item loop leaves is either one it found or one built from a kept item of the page. */
  lemma {:induction false} SyncItemsOnlyKeptStored(rows: map<int, Character>, counts: Counts, items: seq<Item>)
    ensures var s := SyncItems(rows, counts, items);
            forall k :: k in s.rows ==>
              (k in rows && s.rows[k] == rows[k]) || exists i :: 0 <= i < |items| && Kept(items[i], s.rows[k])
    decreases |items|
  {
    if items != [] {
      var front := items[..|items| - 1];
      var last := items[|items| - 1];
      SyncItemsOnlyKeptStored(rows, counts, front);
      var s := SyncItems(rows, counts, front);
      var t := SyncItems(rows, counts, items);
      forall k | k in t.rows
        ensures (k in rows && t.rows[k] == rows[k]) || exists i :: 0 <= i < |items| && Kept(items[i], t.rows[k])
      {
        if s.Running? && ShouldKeep(last) == Ok(true) && BuildRecord(last).Ok? && k == BuildRecord(last).value.id {
          assert Kept(items[|items| - 1], t.rows[k]);
        } else {
          assert t.rows[k] == s.rows[k];
          if !(k in rows && s.rows[k] == rows[k]) {
            var i :| 0 <= i < |front| && Kept(front[i], s.rows[k]);
            assert items[i] == front[i];
          }
        }
      }
    }
  }

  /**
   * The last kept item of the page that carries a given id is the row the
   * table holds for that id once the loop has run through the page.
   */
  lemma {:induction false} SyncItemsStoresLastKept(rows: map<int, Character>, counts: Counts, items: seq<Item>,
                                                   i: nat, rec: Character)
    requires i < |items| && Kept(items[i], rec)
    requires forall j, other :: i < j < |items| && Kept(items[j], other) ==> other.id != rec.id
    requires SyncItems(rows, counts, items).Running?
    ensures rec.id in SyncItems(rows, counts, items).rows
    ensures SyncItems(rows, counts, items).rows[rec.id] == rec
    decreases |items|
  {
    var front := items[..|items| - 1];
    var last := items[|items| - 1];
    var s := SyncItems(rows, counts, front);
    assert s.Running?;
    if i < |items| - 1 {
      assert front[i] == items[i];
      forall j, other | i < j < |front| && Kept(front[j], other)
        ensures other.id != rec.id
      {
        assert front[j] == items[j];
      }
      SyncItemsStoresLastKept(rows, counts, front, i, rec);
      if ShouldKeep(last) == Ok(true) {
        assert Kept(items[|items| - 1], BuildRecord(last).value);
      }
    }
  }

  /** An item on which the loop raises, whatever the table holds. */
  predicate ItemRaises(item: Item) {
    ShouldKeep(item).Err? || (ShouldKeep(item) == Ok(true) && BuildRecord(item).Err?)
  }

  /** Some item of the page makes the loop raise. */
  predicate PageRaises(items: seq<Item>) {
    exists i :: 0 <= i < |items| && ItemRaises(items[i])
  }

  /** The item loop stops with an exception exactly when some item of the page raises. */
  lemma {:induction false} SyncItemsAbortsIff(rows: map<int, Character>, counts: Counts, items: seq<Item>)
    ensures SyncItems(rows, counts, items).Aborted? <==> PageRaises(items)
    decreases |items|
  {
    if items != [] {
      var front := items[..|items| - 1];
      var last := items[|items| - 1];
      SyncItemsAbortsIff(rows, counts, front);
      if PageRaises(front) {
        var i :| 0 <= i < |front| && ItemRaises(front[i]);
        assert items[i] == front[i];
      }
      if PageRaises(items) && !ItemRaises(last) {
        var i :| 0 <= i < |items| && ItemRaises(items[i]);
        assert front[i] == items[i];
      }
      assert ItemRaises(last) ==> ItemRaises(items[|items| - 1]);
    }
  }

  /** The exception a raising item raises: `_should_keep`'s, else the one from building or writing its row. */
  function Raised(item: Item): Failure
    requires ItemRaises(item)
  {
    if ShouldKeep(item).Err? then ShouldKeep(item).error else BuildRecord(item).error
  }

  /**
   * The item loop ends on the first raising item of the page, with that item's
   * exception and the table and counters that the items before it left.
   */
  lemma SyncItemsFailsAtFirstRaise(rows: map<int, Character>, counts: Counts, items: seq<Item>, i: nat)
    requires i < |items| && ItemRaises(items[i])
    requires forall j :: 0 <= j < i ==> !ItemRaises(items[j])
    ensures SyncItems(rows, counts, items[..i]).Running?
    ensures var before := SyncItems(rows, counts, items[..i]);
            SyncItems(rows, counts, items) == Aborted(before.rows, before.counts, Raised(items[i]))
  {
    assert !PageRaises(items[..i]) by {
      forall j | 0 <= j < i
        ensures !ItemRaises(items[..i][j])
      {
        assert items[..i][j] == items[j];
      }
    }
    SyncItemsAbortsIff(rows, counts, items[..i]);
    var before := SyncItems(rows, counts, items[..i]);
    var upTo := items[..i + 1];
    assert upTo[..i] == items[..i] && upTo[i] == items[i];
    assert SyncItems(rows, counts, upTo) == SyncItem(before.rows, before.counts, items[i]);
    SyncItemsAbortSticks(rows, counts, items, i + 1);
  }

  /** Once the loop has aborted on some prefix, the rest of the page is never looked at. */
  lemma {:induction false} SyncItemsAbortSticks(rows: map<int, Character>, counts: Counts, items: seq<Item>, j: nat)
    requires j <= |items|
    requires SyncItems(rows, counts, items[..j]).Aborted?
    ensures SyncItems(rows, counts, items) == SyncItems(rows, counts, items[..j])
    decreases |items| - j
  {
    if j == |items| {
      assert items[..j] == items;
    } else {
      var front := items[..|items| - 1];
      assert front[..j] == items[..j];
      SyncItemsAbortSticks(rows, counts, front, j);
    }
  }

  /** Syncing one item twice leaves the table as syncing it once; the second time it counts as updated. */
  lemma SyncItemTwice(rows: map<int, Character>, counts: Counts, item: Item)
    requires SyncItem(rows, counts, item).Running?
    ensures var once := SyncItem(rows, counts, item);
            var twice := SyncItem(once.rows, once.counts, item);
            && twice.Running? && twice.rows == once.rows
            && (ShouldKeep(item) == Ok(true) ==>
                  twice.counts == Counts(once.counts.seen + 1, once.counts.created, once.counts.updated + 1))
            && (ShouldKeep(item) == Ok(false) ==> twice.counts == once.counts == counts)
  {
    if ShouldKeep(item) == Ok(true) {
      UpsertIdempotent(rows, BuildRecord(item).value);
    }
  }

  /** The item loop as the command runs it on one page, writing to the table in place. */
  method SyncPage(table: CharacterTable, items: seq<Item>, counts: Counts) returns (newCounts: Counts, failure: Option<Failure>)
    requires table.Valid()
    modifies table
    ensures table.Valid()
    ensures var s := SyncItems(old(table.rows), counts, items);
            && table.rows == s.rows && newCounts == s.counts
            && failure == (if s.Aborted? then Some(s.failure) else None)
  {
    ghost var rows0 := table.rows;
    newCounts := counts;
    var i := 0;
    while i < |items|
      invariant 0 <= i <= |items|
      invariant table.Valid()
      invariant SyncItems(rows0, counts, items[..i]) == Running(table.rows, newCounts)
    {
      assert items[..i + 1][..i] == items[..i];
      ghost var rowsBefore, countsBefore := table.rows, newCounts;
      var item := items[i];
      var keep := ShouldKeep(item);
      if keep.Err? {
        SyncItemsAbortSticks(rows0, counts, items, i + 1);
        return newCounts, Some(keep.error);
      }
      if keep.value {
        var rec := BuildRecord(item);
        if rec.Err? {
          SyncItemsAbortSticks(rows0, counts, items, i + 1);
          return newCounts, Some(rec.error);
        }
        var isCreated := table.UpdateOrCreate(rec.value);
        newCounts := Tally(newCounts, isCreated);
      }
      assert SyncItem(rowsBefore, countsBefore, item) == Running(table.rows, newCounts);
      assert SyncItems(rows0, counts, items[..i + 1]) == SyncItem(rowsBefore, countsBefore, item);
      i := i + 1;
    }
    assert items[..i] == items;
    failure := None;
  }

  /**
   * The cursor chain that starts at `url` ends within `n` pages: some page has
   * no `next`, a fetch fails, or an item of a fetched page raises. The command
   * needs this to stop; a cycle of `next` links whose pages all sync cleanly
   * would keep it looping.
   */
  ghost predicate ChainEnds(server: Server, url: string, n: nat)
    decreases n
  {
    url == "" ||
    (n > 0 && (Fetch(server, url).result.Ok? && !PageRaises(Fetch(server, url).result.value.results) ==>
                 ChainEnds(server, NextUrl(Fetch(server, url).result.value), n - 1)))
  }

  /** The state a run carries: the table, the counters, the pages fetched so far and the clock. */
  datatype Progress = Progress(rows: map<int, Character>, counts: Counts, fetches: nat, clock: nat)

  /** How a run ends: completed, or stopped by an exception. */
  datatype Outcome = Done(progress: Progress) | Stopped(progress: Progress, failure: Failure)

  /** The `while url:` loop: fetch the page, run the item loop over it, follow `next`. */
  function Walk(server: Server, url: string, p: Progress, n: nat): Outcome
    requires ChainEnds(server, url, n)
    decreases n
  {
    if url == "" then Done(p)
    else
      var f := Fetch(server, url);
      var fetched := p.(fetches := p.fetches + 1, clock := p.clock + f.elapsed);
      match f.result
      case Err(e) => Stopped(fetched, FetchFailed(e))
      case Ok(page) =>
        match SyncItems(p.rows, p.counts, page.results)
        case Aborted(rows, counts, failure) => Stopped(fetched.(rows := rows, counts := counts), failure)
        case Running(rows, counts) =>
          SyncItemsAbortsIff(p.rows, p.counts, page.results);
          Walk(server, NextUrl(page), fetched.(rows := rows, counts := counts), n - 1)
  }

  /** The bound `n` only has to be large enough: every such bound gives the same run. */
  lemma {:induction false} WalkBoundIrrelevant(server: Server, url: string, p: Progress, n: nat, m: nat)
    requires ChainEnds(server, url, n) && ChainEnds(server, url, m)
    ensures Walk(server, url, p, n) == Walk(server, url, p, m)
    decreases n
  {
    if url != "" {
      var f := Fetch(server, url);
      if f.result.Ok? && SyncItems(p.rows, p.counts, f.result.value.results).Running? {
        var s := SyncItems(p.rows, p.counts, f.result.value.results);
        var fetched := p.(fetches := p.fetches + 1, clock := p.clock + f.elapsed);
        SyncItemsAbortsIff(p.rows, p.counts, f.result.value.results);
        WalkBoundIrrelevant(server, NextUrl(f.result.value), fetched.(rows := s.rows, counts := s.counts), n - 1, m - 1);
      }
    }
  }

  /**
   * A whole run, completed or stopped, never removes a row: the pages synced
   * before a failure stay in the table, and the counters stay balanced.
   */
  lemma {:induction false} WalkGrows(server: Server, url: string, p: Progress, n: nat)
    requires ChainEnds(server, url, n)
    ensures var q := Walk(server, url, p, n).progress; Grows(p.rows, p.counts, q.rows, q.counts)
    ensures var q := Walk(server, url, p, n).progress; q.fetches >= p.fetches && q.clock >= p.clock
    decreases n
  {
    if url != "" {
      var f := Fetch(server, url);
      if f.result.Ok? {
        var s := SyncItems(p.rows, p.counts, f.result.value.results);
        SyncItemsGrows(p.rows, p.counts, f.result.value.results);
        if s.Running? {
          var fetched := p.(fetches := p.fetches + 1, clock := p.clock + f.elapsed);
          SyncItemsAbortsIff(p.rows, p.counts, f.result.value.results);
          WalkGrows(server, NextUrl(f.result.value), fetched.(rows := s.rows, counts := s.counts), n - 1);
        }
      }
    }
  }

  /** `urls` is a chain of pages that all fetch successfully, each linking to the next and the last to none. */
  ghost predicate PageChain(server: Server, urls: seq<string>) {
    && |urls| > 0
    && (forall i :: 0 <= i < |urls| ==> urls[i] != "" && Fetch(server, urls[i]).result.Ok?)
    && (forall i :: 0 <= i < |urls| - 1 ==> NextUrl(Fetch(server, urls[i]).result.value) == urls[i + 1])
    && NextUrl(Fetch(server, urls[|urls| - 1]).result.value) == ""
  }

  /** The pages after the first of a chain form a chain that starts at the first page's `next`. */
  lemma PageChainTail(server: Server, urls: seq<string>)
    requires PageChain(server, urls) && |urls| > 1
    ensures PageChain(server, urls[1..])
    ensures urls[1..][0] == NextUrl(Fetch(server, urls[0]).result.value)
  {
    forall i | 0 <= i < |urls[1..]| - 1
      ensures NextUrl(Fetch(server, urls[1..][i]).result.value) == urls[1..][i + 1]
    {
      assert NextUrl(Fetch(server, urls[i + 1]).result.value) == urls[i + 2];
    }
  }

  lemma {:induction false} PageChainEnds(server: Server, urls: seq<string>)
    requires PageChain(server, urls)
    ensures ChainEnds(server, urls[0], |urls|)
    decreases |urls|
  {
    if |urls| > 1 {
      PageChainTail(server, urls);
      PageChainEnds(server, urls[1..]);
    } else {
      assert ChainEnds(server, NextUrl(Fetch(server, urls[0]).result.value), 0);
    }
  }

  /** A run that completes over a chain of k pages fetches exactly k pages. */
  lemma {:induction false} WalkFetchesEachPageOnce(server: Server, urls: seq<string>, p: Progress)
    requires PageChain(server, urls)
    ensures ChainEnds(server, urls[0], |urls|)
    ensures Walk(server, urls[0], p, |urls|).Done? ==>
              Walk(server, urls[0], p, |urls|).progress.fetches == p.fetches + |urls|
    decreases |urls|
  {
    PageChainEnds(server, urls);
    var f := Fetch(server, urls[0]);
    var s := SyncItems(p.rows, p.counts, f.result.value.results);
    if s.Running? {
      var fetched := p.(fetches := p.fetches + 1, clock := p.clock + f.elapsed);
      var next := fetched.(rows := s.rows, counts := s.counts);
      if |urls| > 1 {
        PageChainTail(server, urls);
        SyncItemsAbortsIff(p.rows, p.counts, f.result.value.results);
        assert Walk(server, urls[0], p, |urls|) == Walk(server, urls[1..][0], next, |urls| - 1);
        WalkFetchesEachPageOnce(server, urls[1..], next);
      }
    }
  }

  /** A server with three pages linked by `next`, each answered at once with status 200 in one unit. */
  function ThreePages(url: string, attempt: nat): Attempt {
    if url == SeedUrl then Attempt(Response(200, None, Page([], Str("page-2"))), 1)
    else if url == "page-2" then Attempt(Response(200, None, Page([], Str("page-3"))), 1)
    else Attempt(Response(200, None, Page([], Null)), 1)
  }

  /** Three linked pages: three fetches, then the null `next` ends the loop. */
  lemma ThreePagesThreeFetches()
    ensures ChainEnds(ThreePages, SeedUrl, 3)
    ensures Walk(ThreePages, SeedUrl, Progress(map[], Counts(0, 0, 0), 0, 0), 3) ==
              Done(Progress(map[], Counts(0, 0, 0), 3, 3))
  {
    var urls := [SeedUrl, "page-2", "page-3"];
    assert Fetch(ThreePages, SeedUrl) == Fetched(Ok(Page([], Str("page-2"))), 1, 1);
    assert Fetch(ThreePages, "page-2") == Fetched(Ok(Page([], Str("page-3"))), 1, 1);
    assert Fetch(ThreePages, "page-3") == Fetched(Ok(Page([], Null)), 1, 1);
    assert PageChain(ThreePages, urls);
    WalkFetchesEachPageOnce(ThreePages, urls, Progress(map[], Counts(0, 0, 0), 0, 0));
  }

  /** The catalog's record for Rick, carrying the given name and a `created` of `day` followed by "Z". */
  function RickItem(name: string, day: string): Item {
    Item(Some(42), Str(name), Str("Alive"), Str("Human"), Absent, Absent,
         Some(Place(Str("Earth (C-137)"), Absent)), None, Absent, Str("http://x/42"),
         Str(day + "Z"))
  }

  /** Rick's record is kept, and its row carries the name and the timestamp with "+00:00" for "Z". */
  lemma RickKept(name: string, day: string)
    requires 'Z' !in day
    ensures ShouldKeep(RickItem(name, day)) == Ok(true)
    ensures BuildRecord(RickItem(name, day)).Ok?
    ensures BuildRecord(RickItem(name, day)).value.id == 42
    ensures BuildRecord(RickItem(name, day)).value.name == name
    ensures BuildRecord(RickItem(name, day)).value.created == day + "+00:00"
  {
    assert Lower("Human") == "human";
    assert Lower("Alive") == "alive";
    assert "Earth (C-137)"[..7] == "Earth (";
    TrailingZBecomesUtcOffset(day);
  }

  /**
   * Rick and then "Rick Sanchez" under id 42 (for instance on the day
   * "2020-01-01T00:00:00"): one row with the later name, one creation and one update.
   */
  lemma RickUpsertedTwice(day: string)
    requires 'Z' !in day
    ensures var s := SyncItems(map[], Counts(0, 0, 0), [RickItem("Rick", day), RickItem("Rick Sanchez", day)]);
            && s.Running? && s.counts == Counts(2, 1, 1)
            && s.rows.Keys == {42} && s.rows[42].name == "Rick Sanchez"
            && s.rows[42].created == day + "+00:00"
  {
    RickKept("Rick", day);
    RickKept("Rick Sanchez", day);
    var items := [RickItem("Rick", day), RickItem("Rick Sanchez", day)];
    assert items[..1] == [RickItem("Rick", day)] && items[..1][..0] == [];
    assert SyncItems(map[], Counts(0, 0, 0), items[..1][..0]) == Running(map[], Counts(0, 0, 0));
    assert items[..1][0] == RickItem("Rick", day);
    var first := SyncItems(map[], Counts(0, 0, 0), items[..1]);
    assert first == SyncItem(map[], Counts(0, 0, 0), RickItem("Rick", day));
    assert first.Running? && first.rows.Keys == {42} && first.counts == Counts(1, 1, 0);
  }

  /**
   * A page that fetches, has no usable `next` (missing, null or "") and whose
   * items all sync ends the run: one more fetch, then `while url:` exits.
   */
  lemma WalkEndsWithoutNext(server: Server, url: string, p: Progress, n: nat)
    requires url != "" && ChainEnds(server, url, n)
    requires Fetch(server, url).result.Ok?
    requires Fetch(server, url).result.value.next in {Absent, Null, Str("")}
    requires SyncItems(p.rows, p.counts, Fetch(server, url).result.value.results).Running?
    ensures Walk(server, url, p, n).Done?
    ensures Walk(server, url, p, n).progress.fetches == p.fetches + 1
    ensures Walk(server, url, p, n).progress.rows == SyncItems(p.rows, p.counts, Fetch(server, url).result.value.results).rows
  {
  }

  /** A fetch that fails after its retries ends the run with that exception, right after the fetch. */
  lemma WalkStopsOnFetchFailure(server: Server, url: string, p: Progress, n: nat)
    requires url != "" && ChainEnds(server, url, n)
    requires Fetch(server, url).result.Err?
    ensures Walk(server, url, p, n) ==
              Stopped(p.(fetches := p.fetches + 1, clock := p.clock + Fetch(server, url).elapsed),
                      FetchFailed(Fetch(server, url).result.error))
  {
  }

  /** A fetched page on which an item raises ends the run with the exception and the rows the item loop left. */
  lemma WalkStopsOnRaisingPage(server: Server, url: string, p: Progress, n: nat)
    requires url != "" && ChainEnds(server, url, n)
    requires Fetch(server, url).result.Ok? && PageRaises(Fetch(server, url).result.value.results)
    ensures var f := Fetch(server, url);
            var s := SyncItems(p.rows, p.counts, f.result.value.results);
            s.Aborted? &&
            Walk(server, url, p, n) ==
              Stopped(Progress(s.rows, s.counts, p.fetches + 1, p.clock + f.elapsed), s.failure)
  {
    SyncItemsAbortsIff(p.rows, p.counts, Fetch(server, url).result.value.results);
  }

  /** An item that passes the filter but carries no `id`. */
  const NoIdItem: Item :=
    Item(None, Str("Rick"), Str("Alive"), Str("Human"), Absent, Absent,
         Some(Place(Str("Earth (C-137)"), Absent)), None, Absent, Absent, Absent)

  /** A server whose every page links back to itself and holds an item without an id. */
  function SelfLoop(url: string, attempt: nat): Attempt {
    Attempt(Response(200, None, Page([NoIdItem], Str(url))), 1)
  }

  /** The `next` cycle does not keep the command looping: the item without an id raises `KeyError` on the first page. */
  lemma SelfLoopStopsOnKeyError()
    ensures ChainEnds(SelfLoop, SeedUrl, 1)
    ensures Walk(SelfLoop, SeedUrl, Progress(map[], Counts(0, 0, 0), 0, 0), 1) ==
              Stopped(Progress(map[], Counts(0, 0, 0), 1, 1), KeyError)
  {
    assert Lower("Human") == "human";
    assert Lower("Alive") == "alive";
    assert "Earth (C-137)"[..7] == "Earth (";
    assert ShouldKeep(NoIdItem) == Ok(true);
    assert Fetch(SelfLoop, SeedUrl) == Fetched(Ok(Page([NoIdItem], Str(SeedUrl))), 1, 1);
    var items := [NoIdItem];
    assert items[..0] == [];
    assert SyncItems(map[], Counts(0, 0, 0), items) == Aborted(map[], Counts(0, 0, 0), KeyError);
    assert ItemRaises(items[0]);
  }

  /**
   * `Command.handle`: the page loop over the table, from the seed query.
   * Returns the counters, or the exception that ended the run, and the clock.
   */
  method Handle(table: CharacterTable, server: Server, clock: nat, ghost n: nat) returns (outcome: Result<Counts, Failure>, now: nat)
    requires table.Valid()
    requires ChainEnds(server, SeedUrl, n)
    modifies table
    ensures table.Valid()
    ensures var w := Walk(server, SeedUrl, Progress(old(table.rows), Counts(0, 0, 0), 0, clock), n);
            && table.rows == w.progress.rows && now == w.progress.clock
            && outcome == (if w.Done? then Ok(w.progress.counts) else Err(w.failure))
  {
    ghost var start := Progress(table.rows, Counts(0, 0, 0), 0, clock);
    var url := SeedUrl;
    var counts := Counts(0, 0, 0);
    now := clock;
    ghost var fetches := 0;
    ghost var m := n;
    while url != ""
      invariant table.Valid()
      invariant ChainEnds(server, url, m)
      invariant Walk(server, url, Progress(table.rows, counts, fetches, now), m) == Walk(server, SeedUrl, start, n)
      decreases m
    {
      var data, attempts, elapsed := Get(server, url);
      now := now + elapsed;
      fetches := fetches + 1;
      if data.Err? {
        return Err(FetchFailed(data.error)), now;
      }
      ghost var rowsBefore, countsBefore := table.rows, counts;
      var failure;
      counts, failure := SyncPage(table, data.value.results, counts);
      if failure.Some? {
        return Err(failure.value), now;
      }
      SyncItemsAbortsIff(rowsBefore, countsBefore, data.value.results);
      url := NextUrl(data.value);
      m := m - 1;
    }
    outcome := Ok(counts);
  }
}
