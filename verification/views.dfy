/**
 * The read side: the list endpoint's filter and `ordering` check, the health
 * probe's report, and the project-wide exception handler. The database,
 * cache and framework calls are replaced by the outcomes they produce.
 */
module Views {
  import opened Wrappers
  import opened Strings
  import opened Upstream
  import opened Models
  import Sync

  const HTTP_200_OK: int := 200
  const HTTP_429_TOO_MANY_REQUESTS: int := 429
  const HTTP_503_SERVICE_UNAVAILABLE: int := 503

  /** `species__iexact="Human"`, `status__iexact="Alive"`, `origin_name__istartswith="Earth ("`. */
  predicate Listed(c: Character) {
    && Lower(c.species) == Lower("Human")
    && Lower(c.status) == Lower("Alive")
    && StartsWith(Lower(c.originName), Lower("Earth ("))
  }

  /** `CharacterListView.ordering_fields`. */
  const OrderingFields: seq<string> := ["name", "id"]

  /** DRF's `ValidationError({field: message})`. */
  datatype ValidationError = ValidationError(field: string, message: string)

  /** `ordering` is given and, once every leading "-" is stripped, names no allowed field. */
  predicate BadOrdering(ordering: Option<string>) {
    ordering.Some? && ordering.value != "" && LStrip(ordering.value, '-') !in OrderingFields
  }

  /**
   * `CharacterListView.get_queryset`: the listed rows of the table, or a
   * validation error for a bad `ordering` parameter.
   */
  function GetQueryset(rows: map<int, Character>, ordering: Option<string>): (r: Result<map<int, Character>, ValidationError>)
    ensures r.Err? <==> BadOrdering(ordering)
    ensures r.Err? ==> r.error == ValidationError("ordering", "Invalid field. Allowed: name, id")
    ensures r.Ok? ==> r.value.Keys <= rows.Keys
    ensures r.Ok? ==> forall k :: k in rows ==> (k in r.value <==> Listed(rows[k]))
    ensures r.Ok? ==> forall k :: k in r.value ==> r.value[k] == rows[k]
  {
    var qs := map k | k in rows && Listed(rows[k]) :: rows[k];
    if BadOrdering(ordering) then
      assert Join(", ", OrderingFields) == "name, id";
      Err(ValidationError("ordering", "Invalid field. Allowed: " + Join(", ", OrderingFields)))
    else
      Ok(qs)
  }

  /** A non-empty `ordering` is accepted exactly when it is some run of "-" followed by "name" or "id". */
  lemma OrderingAcceptedIff(rows: map<int, Character>, s: string)
    requires s != ""
    ensures GetQueryset(rows, Some(s)).Ok? <==>
              exists k: nat :: s == Repeat('-', k) + "name" || s == Repeat('-', k) + "id"
  {
    LStripSplits(s, '-');
    var k := |s| - |LStrip(s, '-')|;
    if GetQueryset(rows, Some(s)).Ok? {
      assert s == Repeat('-', k) + LStrip(s, '-');
    } else {
      forall j: nat ensures s != Repeat('-', j) + "name" && s != Repeat('-', j) + "id" {
        LStripRepeat("name", '-', j);
        LStripRepeat("id", '-', j);
      }
    }
  }

  /** No `ordering`, an empty one, and "--name" are accepted; a lone "-" is not. */
  lemma OrderingExamples(rows: map<int, Character>)
    ensures GetQueryset(rows, None).Ok?
    ensures GetQueryset(rows, Some("")).Ok?
    ensures GetQueryset(rows, Some("--name")).Ok?
    ensures GetQueryset(rows, Some("-")).Err?
  {
    LStripRepeat("name", '-', 2);
    assert Repeat('-', 2) + "name" == "--name";
    LStripRepeat("", '-', 1);
    assert Repeat('-', 1) + "" == "-";
  }

  /** Every row the sync writes from a kept item passes the read filter. */
  lemma SyncedRowsAreListed(item: Item, c: Character)
    requires Sync.Kept(item, c)
    ensures Listed(c)
  {
    assert Lower("Human") == "human";
    assert Lower("Alive") == "alive";
    var origin := Sync.FilterOrigin(item);
    assert StartsWith(origin, "Earth (");
    assert PlaceName(item.origin).Str?;
    LowerKeepsPrefix(c.originName, "Earth (");
  }

  /** The read filter is wider than the sync's: it ignores case on the origin prefix. */
  lemma ReadFilterIgnoresOriginCase(item: Item, c: Character)
    requires item.species == Str("Human") && item.status == Str("Alive")
    requires item.origin == Some(Place(Str("earth (C-137)"), Absent))
    requires c.species == "Human" && c.status == "Alive" && c.originName == "earth (C-137)"
    ensures Listed(c)
    ensures Sync.ShouldKeep(item) == Ok(false)
  {
    assert Lower("Human") == "human";
    assert Lower("Alive") == "alive";
    assert Lower("earth (C-137)")[..7] == "earth (";
    assert Lower("Earth (") == "earth (";
    assert "earth (C-137)"[0] != "Earth ("[0];
  }

  /** `cursor.fetchone()` after `SELECT 1;`, or the exception the database raised. */
  datatype DbProbe = DbRow(row: Option<seq<int>>) | DbRaised(error: string)

  /** `cache.get` after `cache.set(key, "pong")`, or the exception the cache raised. */
  datatype CacheProbe = CacheValue(value: Option<string>) | CacheRaised(error: string)

  /** `report["checks"]["database"]`: `{ok, detail}` or `{ok: False, error}`. */
  datatype DbCheck = DbCheck(ok: bool, detail: Option<seq<int>>) | DbFailure(error: string)

  /** `report["checks"]["cache"]`: `{ok}` or `{ok: False, error}`. */
  datatype CacheCheck = CacheCheck(ok: bool) | CacheFailure(error: string)

  /** The health report; a `None` check is a key not yet set in `checks`. */
  datatype Report = Report(status: string, database: Option<DbCheck>, cache: Option<CacheCheck>)

  /**
   * `HealthCheckView.get`: builds the report step by step from `{"status": "ok",
   * "checks": {}}`; each failing step can only set the status to "degraded".
   */
  method HealthCheck(db: DbProbe, cache: CacheProbe) returns (report: Report, httpStatus: int)
    ensures report.status == "ok" || report.status == "degraded"
    ensures report.status == "degraded" <==> db.DbRaised? || cache.CacheRaised? || cache.value != Some("pong")
    ensures httpStatus == (if report.status == "ok" then HTTP_200_OK else HTTP_503_SERVICE_UNAVAILABLE)
    ensures report.database == Some(if db.DbRaised? then DbFailure(db.error) else DbCheck(db.row == Some([1]), db.row))
    ensures report.cache == Some(if cache.CacheRaised? then CacheFailure(cache.error) else CacheCheck(cache.value == Some("pong")))
  {
    report := Report("ok", None, None);
    match db {
      case DbRow(row) =>
        report := report.(database := Some(DbCheck(row == Some([1]), row)));
      case DbRaised(e) =>
        report := report.(status := "degraded");
        report := report.(database := Some(DbFailure(e)));
    }
    match cache {
      case CacheValue(val) =>
        report := report.(cache := Some(CacheCheck(val == Some("pong"))));
        if val != Some("pong") {
          report := report.(status := "degraded");
        }
      case CacheRaised(e) =>
        report := report.(status := "degraded");
        report := report.(cache := Some(CacheFailure(e)));
    }
    httpStatus := if report.status == "ok" then HTTP_200_OK else HTTP_503_SERVICE_UNAVAILABLE;
  }

  /** A response body: `{"detail"}` or the throttling `{"detail", "available_in"}`. */
  datatype Body = Detail(detail: string) | ThrottleDetail(detail: string, availableIn: Option<nat>)

  datatype Response = Response(status: int, body: Body)

  /** The exception handed to the handler; `wait` is DRF's `Throttled.wait`. */
  datatype ApiError = Throttled(wait: Option<nat>) | OtherError(name: string)

  /**
   * What `api_settings.DEFAULT_EXCEPTION_HANDLER(exc, context)` gives: a
   * response, `None` for an exception it does not handle, or an exception of
   * its own (the attribute lookup or the call raising), named by its class.
   */
  datatype DefaultOutcome = Answered(response: Response) | NoResponse | DefaultRaised(error: string)

  /**
   * `custom_exception_handler`: `Ok` is the response it returns, `Err` the
   * exception that escapes it. The default handler runs first, so an exception
   * it raises escapes before the `Throttled` test.
   */
  function CustomExceptionHandler(exc: ApiError, default: DefaultOutcome): (r: Result<Response, string>)
    ensures default.DefaultRaised? ==> r == Err(default.error)
    ensures r.Err? <==> default.DefaultRaised?
    ensures !default.DefaultRaised? && exc.Throttled? ==>
              r.Ok? && r.value.status == HTTP_429_TOO_MANY_REQUESTS &&
              r.value.body.ThrottleDetail? && r.value.body.availableIn == exc.wait
    ensures !exc.Throttled? && default.Answered? ==> r == Ok(default.response)
    ensures !exc.Throttled? && default.NoResponse? ==> r.Ok? && r.value.status == HTTP_503_SERVICE_UNAVAILABLE
    ensures r.Ok? ==>
              r.value.status in {HTTP_429_TOO_MANY_REQUESTS, HTTP_503_SERVICE_UNAVAILABLE} ||
              (default.Answered? && r.value == default.response)
  {
    if default.DefaultRaised? then Err(default.error)
    else if exc.Throttled? then
      Ok(Response(HTTP_429_TOO_MANY_REQUESTS, ThrottleDetail("Request was throttled. Reduce request rate.", exc.wait)))
    else if default.Answered? then
      Ok(default.response)
    else
      Ok(Response(HTTP_503_SERVICE_UNAVAILABLE, Detail("Service temporarily unavailable.")))
  }

  /**
   * When the default-handler lookup raises (DRF's settings object raises
   * `AttributeError` for a name that is not one of its settings), no exception
   * of either kind gets the 429 or the 503: the handler itself raises.
   */
  lemma HandlerRaisesWhenDefaultRaises(exc: ApiError)
    ensures CustomExceptionHandler(exc, DefaultRaised("AttributeError")) == Err("AttributeError")
    ensures CustomExceptionHandler(Throttled(Some(5)), DefaultRaised("AttributeError")).Err?
  {
  }
}
