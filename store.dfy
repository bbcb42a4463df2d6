/** The `clients` table under `INSERT ... ON CONFLICT (client_id) DO UPDATE`:
    a map from client id to record. */
module ClientStore {
  import opened Text
  import opened Dates

  /** The values one INSERT carries. */
  datatype Incoming = Incoming(clientId: string, name: string, country: string, city: string, date: Date)

  /** A stored row. `createdAt` is the timestamp of the first insert under this
      id and `updatedAt` that of the latest write (both `CURRENT_TIMESTAMP`,
      the start time of the writing transaction). */
  datatype ClientRecord = ClientRecord(clientId: string, name: string, country: string, city: string,
                                       date: Date, createdAt: int, updatedAt: int)

  type Store = map<string, ClientRecord>

  /** Every record sits under its own id, so one id addresses at most one record. */
  ghost predicate Keyed(store: Store) {
    forall k :: k in store ==> store[k].clientId == k
  }

  /** The stored attributes are those of `row`. */
  predicate Carries(rec: ClientRecord, row: Incoming) {
    rec.clientId == row.clientId && rec.name == row.name && rec.country == row.country &&
    rec.city == row.city && rec.date == row.date
  }

  /** One upsert at transaction time `now`: a new id is inserted; an existing
      id has name, country, city and date overwritten and `updated_at`
      refreshed, while `created_at` is not in the SET list and stays. */
  function Upsert(store: Store, row: Incoming, now: int): (r: Store)
    ensures r.Keys == store.Keys + {row.clientId}
    ensures forall k :: k in store && k != row.clientId ==> r[k] == store[k]
    ensures Carries(r[row.clientId], row) && r[row.clientId].updatedAt == now
    ensures r[row.clientId].createdAt ==
              if row.clientId in store then store[row.clientId].createdAt else now
  {
    var created := if row.clientId in store then store[row.clientId].createdAt else now;
    store[row.clientId := ClientRecord(row.clientId, row.name, row.country, row.city, row.date, created, now)]
  }

  lemma UpsertKeepsKeyed(store: Store, row: Incoming, now: int)
    requires Keyed(store)
    ensures Keyed(Upsert(store, row, now))
  {
  }

  /** Upserting the same values again changes nothing but `updated_at`. */
  lemma UpsertAgain(store: Store, row: Incoming, t1: int, t2: int)
    ensures var once := Upsert(store, row, t1);
            var twice := Upsert(once, row, t2);
            twice.Keys == once.Keys &&
            (forall k :: k in once && k != row.clientId ==> twice[k] == once[k]) &&
            twice[row.clientId] == once[row.clientId].(updatedAt := t2)
  {
  }

  /** The upserts of a batch, applied in order. */
  function UpsertAll(store: Store, rows: seq<Incoming>, now: int): (r: Store)
    ensures r.Keys == store.Keys + set x | x in rows :: x.clientId
  {
    if rows == [] then store
    else
      var before := UpsertAll(store, rows[..|rows| - 1], now);
      var r := Upsert(before, rows[|rows| - 1], now);
      assert rows == rows[..|rows| - 1] + [rows[|rows| - 1]];
      r
  }

  /** A batch with one more row is the shorter batch followed by that row's upsert. */
  lemma UpsertAllSnoc(store: Store, rows: seq<Incoming>, row: Incoming, now: int)
    ensures UpsertAll(store, rows + [row], now) == Upsert(UpsertAll(store, rows, now), row, now)
  {
    assert (rows + [row])[..|rows|] == rows;
  }

  /** A batch keeps every record under its id. */
  lemma {:induction false} UpsertAllKeepsKeyed(store: Store, rows: seq<Incoming>, now: int)
    requires Keyed(store)
    ensures Keyed(UpsertAll(store, rows, now))
    decreases |rows|
  {
    if rows != [] {
      UpsertAllKeepsKeyed(store, rows[..|rows| - 1], now);
    }
  }

  /** Position of the last row of the batch written under `k`. */
  function LastIndexOf(rows: seq<Incoming>, k: string): (r: Option<nat>)
    ensures r.Some? ==> r.value < |rows| && rows[r.value].clientId == k &&
                        forall j :: r.value < j < |rows| ==> rows[j].clientId != k
    ensures r.None? ==> forall j :: 0 <= j < |rows| ==> rows[j].clientId != k
  {
    if rows == [] then None
    else if rows[|rows| - 1].clientId == k then Some(|rows| - 1)
    else LastIndexOf(rows[..|rows| - 1], k)
  }

  /** The record a batch leaves under `k`: untouched when no row of the batch
      names `k`; otherwise the attributes of the last such row, `created_at`
      from before the batch (or the batch's time for a new id) and
      `updated_at` the batch's time. */
  lemma {:induction false} UpsertAllRecord(store: Store, rows: seq<Incoming>, now: int, k: string)
    requires k in store || LastIndexOf(rows, k).Some?
    ensures k in UpsertAll(store, rows, now)
    ensures UpsertAll(store, rows, now)[k] ==
              match LastIndexOf(rows, k)
              case None => store[k]
              case Some(i) =>
                ClientRecord(k, rows[i].name, rows[i].country, rows[i].city, rows[i].date,
                             if k in store then store[k].createdAt else now, now)
    decreases |rows|
  {
    if rows != [] {
      var init := rows[..|rows| - 1];
      if k in store || LastIndexOf(init, k).Some? {
        UpsertAllRecord(store, init, now, k);
      }
    }
  }

  /** `created_at` of an id already stored survives any batch. */
  lemma UpsertAllKeepsCreated(store: Store, rows: seq<Incoming>, now: int, k: string)
    requires k in store
    ensures UpsertAll(store, rows, now)[k].createdAt == store[k].createdAt
  {
    UpsertAllRecord(store, rows, now, k);
  }

  /** Applying the same batch a second time, at a later transaction, changes
      no key and no attribute: only `updated_at` of the ids it writes moves. */
  lemma UpsertAllAgain(store: Store, rows: seq<Incoming>, t1: int, t2: int)
    ensures var once := UpsertAll(store, rows, t1);
            var twice := UpsertAll(once, rows, t2);
            twice.Keys == once.Keys &&
            forall k :: k in once ==>
              twice[k] == if LastIndexOf(rows, k).Some? then once[k].(updatedAt := t2) else once[k]
  {
    var once := UpsertAll(store, rows, t1);
    forall k | k in once
      ensures UpsertAll(once, rows, t2)[k] ==
              if LastIndexOf(rows, k).Some? then once[k].(updatedAt := t2) else once[k]
    {
      UpsertAllRecord(once, rows, t2, k);
      if LastIndexOf(rows, k).Some? {
        UpsertAllRecord(store, rows, t1, k);
      }
    }
  }
}
