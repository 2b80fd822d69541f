/**
 * The `Character` table: one row per external id, replaced as a whole by
 * `update_or_create`.
 */
module Models {

  /** A stored row; `created` holds the ISO-8601 text after the `Z` rewrite. */
  datatype Character = Character(
    id: int,
    name: string,
    status: string,
    species: string,
    typeName: string,
    gender: string,
    originName: string,
    originUrl: string,
    locationName: string,
    locationUrl: string,
    image: string,
    url: string,
    created: string)

  /** Every row is stored under its own primary key. */
  ghost predicate KeyedById(rows: map<int, Character>) {
    forall k :: k in rows ==> rows[k].id == k
  }

  /** The table after an upsert, and whether the row was new. */
  datatype Upserted = Upserted(rows: map<int, Character>, created: bool)

  /**
   * `update_or_create(id=rec.id, defaults=...)` over the table's rows: the row
   * with `rec.id` becomes `rec` whole, every other row is left alone, and the
   * call reports creation exactly when the id was absent.
   */
  function Upsert(rows: map<int, Character>, rec: Character): (r: Upserted)
    ensures r.rows.Keys == rows.Keys + {rec.id}
    ensures r.rows[rec.id] == rec
    ensures forall k :: k in rows && k != rec.id ==> r.rows[k] == rows[k]
    ensures r.created <==> rec.id !in rows
    ensures |r.rows| == if r.created then |rows| + 1 else |rows|
    ensures KeyedById(rows) ==> KeyedById(r.rows)
  {
    Upserted(rows[rec.id := rec], rec.id !in rows)
  }

  /** Upserting the same record twice leaves the table as one upsert does, and the second reports "updated". */
  lemma UpsertIdempotent(rows: map<int, Character>, rec: Character)
    ensures Upsert(Upsert(rows, rec).rows, rec).rows == Upsert(rows, rec).rows
    ensures !Upsert(Upsert(rows, rec).rows, rec).created
  {
  }

  /** Of two upserts of one id, the later record is the one kept. */
  lemma UpsertLastWriteWins(rows: map<int, Character>, first: Character, second: Character)
    requires first.id == second.id
    ensures Upsert(Upsert(rows, first).rows, second).rows == Upsert(rows, second).rows
    ensures Upsert(Upsert(rows, first).rows, second).rows[second.id] == second
  {
  }

  /** The ORM table `Character.objects`, updated in place. */
  class CharacterTable {
    var rows: map<int, Character>

    ghost predicate Valid()
      reads this
    {
      KeyedById(rows)
    }

    constructor ()
      ensures Valid() && rows == map[]
    {
      rows := map[];
    }

    /** `Character.objects.update_or_create`, keyed by `rec.id`; one atomic row write. */
    method UpdateOrCreate(rec: Character) returns (isCreated: bool)
      requires Valid()
      modifies this
      ensures Valid()
      ensures rows == Upsert(old(rows), rec).rows
      ensures isCreated == Upsert(old(rows), rec).created
    {
      isCreated := rec.id !in rows;
      rows := rows[rec.id := rec];
    }
  }
}
