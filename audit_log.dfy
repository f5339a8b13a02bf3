/** The two append-only audit tables and the admin listing over them.
    `id` is an auto-increment integer primary key: with rows only ever
    appended, each new row takes one more than the largest id so far, and a
    table's rows in insertion order have strictly ascending ids. The listing is
    `ORDER BY id DESC LIMIT limit`. */
module AuditLog {
  import opened Common
  import opened Records

  /** The `limit` query parameter's default. */
  const DefaultLimit: int := 20

  /** Strictly ascending, positive ids. */
  ghost predicate Ascending<T>(rows: seq<T>, id: T -> nat) {
    (forall i :: 0 <= i < |rows| ==> id(rows[i]) >= 1)
    && (forall i, j :: 0 <= i < j < |rows| ==> id(rows[i]) < id(rows[j]))
  }

  /** The id the next appended row receives. */
  function NextId<T>(rows: seq<T>, id: T -> nat): (n: nat)
    ensures n >= 1
    ensures Ascending(rows, id) ==> forall i :: 0 <= i < |rows| ==> id(rows[i]) < n
  {
    if rows == [] then 1 else id(rows[|rows| - 1]) + 1
  }

  /** Appending a row with the next id keeps the ids ascending. */
  lemma AppendKeepsAscending<T>(rows: seq<T>, id: T -> nat, r: T)
    requires Ascending(rows, id) && id(r) == NextId(rows, id)
    ensures Ascending(rows + [r], id)
  {
    var s := rows + [r];
    forall i, j | 0 <= i < j < |s| ensures id(s[i]) < id(s[j]) {
      if j == |rows| {
        assert s[i] == rows[i];
      } else {
        assert s[i] == rows[i] && s[j] == rows[j];
      }
    }
  }

  /** How many rows `LIMIT limit` lets through: SQLite reads a negative limit
      as no limit at all. */
  function Taken(limit: int, n: nat): (k: nat)
    ensures k <= n
    ensures limit >= 0 ==> k == Min(limit, n)
    ensures limit < 0 ==> k == n
  {
    if limit < 0 then n else Min(limit, n)
  }

  /** The last `k` rows, newest first. */
  function NewestOf<T>(rows: seq<T>, k: nat): (r: seq<T>)
    requires k <= |rows|
    ensures |r| == k
    ensures forall i :: 0 <= i < k ==> r[i] == rows[|rows| - 1 - i]
  {
    if k == 0 then [] else [rows[|rows| - 1]] + NewestOf(rows[..|rows| - 1], k - 1)
  }

  /** `ORDER BY id DESC LIMIT limit` over a table whose ids ascend with
      insertion order. */
  function NewestFirst<T>(rows: seq<T>, limit: int): seq<T> {
    NewestOf(rows, Taken(limit, |rows|))
  }

  /** The listing returns at most `limit` rows (all of them for a negative
      limit), and none at all for `limit = 0`. */
  lemma NewestFirstSize<T>(rows: seq<T>, limit: int)
    ensures limit >= 0 ==> |NewestFirst(rows, limit)| == Min(limit, |rows|)
    ensures limit < 0 ==> |NewestFirst(rows, limit)| == |rows|
    ensures limit == 0 ==> NewestFirst(rows, limit) == []
  {
  }

  /** The listed rows come in strictly decreasing id order. */
  lemma NewestFirstDescending<T>(rows: seq<T>, id: T -> nat, limit: int)
    requires Ascending(rows, id)
    ensures var r := NewestFirst(rows, limit);
      forall i, j :: 0 <= i < j < |r| ==> id(r[i]) > id(r[j])
  {
    var r := NewestFirst(rows, limit);
    forall i, j | 0 <= i < j < |r| ensures id(r[i]) > id(r[j]) {
      assert r[i] == rows[|rows| - 1 - i] && r[j] == rows[|rows| - 1 - j];
    }
  }

  /** The listed rows are the highest-id rows of the table: each of them
      is a row of the table, and every row left out has a smaller id than
      every row listed. */
  lemma NewestFirstHighest<T>(rows: seq<T>, id: T -> nat, limit: int)
    requires Ascending(rows, id)
    ensures var r := NewestFirst(rows, limit);
      && (forall i :: 0 <= i < |r| ==> r[i] in rows)
      && (forall i, j :: 0 <= i < |r| && 0 <= j < |rows| - |r| ==> id(rows[j]) < id(r[i]))
  {
    var r := NewestFirst(rows, limit);
    forall i, j | 0 <= i < |r| && 0 <= j < |rows| - |r| ensures id(rows[j]) < id(r[i]) {
      assert r[i] == rows[|rows| - 1 - i];
    }
  }

  /** `GET /admin/predictions?limit=…`: the newest prediction rows as JSON objects. */
  function ListPredictions(rows: seq<PredictionRow>, limit: int): (items: seq<Json>)
    ensures |items| == Taken(limit, |rows|)
    ensures forall i :: 0 <= i < |items| ==> items[i] == PredictionItem(rows[|rows| - 1 - i])
  {
    var r := NewestFirst(rows, limit);
    seq(|r|, i requires 0 <= i < |r| => PredictionItem(r[i]))
  }

  /** Each listed item carries every column of the matching row verbatim. */
  lemma ListPredictionsVerbatim(rows: seq<PredictionRow>, limit: int, i: nat)
    requires i < |ListPredictions(rows, limit)|
    ensures PredictionFromItem(ListPredictions(rows, limit)[i]) == Some(rows[|rows| - 1 - i])
  {
    PredictionItemRoundTrip(rows[|rows| - 1 - i]);
  }

  /** `GET /admin/simulations?limit=…`: the newest simulation rows as JSON objects. */
  function ListSimulations(rows: seq<SimulationRow>, limit: int): (items: seq<Json>)
    ensures |items| == Taken(limit, |rows|)
    ensures forall i :: 0 <= i < |items| ==> items[i] == SimulationItem(rows[|rows| - 1 - i])
  {
    var r := NewestFirst(rows, limit);
    seq(|r|, i requires 0 <= i < |r| => SimulationItem(r[i]))
  }

  /** Each listed item carries every column of the matching row verbatim. */
  lemma ListSimulationsVerbatim(rows: seq<SimulationRow>, limit: int, i: nat)
    requires i < |ListSimulations(rows, limit)|
    ensures SimulationFromItem(ListSimulations(rows, limit)[i]) == Some(rows[|rows| - 1 - i])
  {
    SimulationItemRoundTrip(rows[|rows| - 1 - i]);
  }

  /** Without a `limit`, each listing returns the 20 newest rows, or every
      row when there are fewer. */
  lemma DefaultPage(predictions: seq<PredictionRow>, simulations: seq<SimulationRow>)
    ensures |ListPredictions(predictions, DefaultLimit)| == Min(20, |predictions|)
    ensures |ListSimulations(simulations, DefaultLimit)| == Min(20, |simulations|)
  {
  }

  function PredictionId(r: PredictionRow): nat { r.id }

  function SimulationId(r: SimulationRow): nat { r.id }

  /** The database: the `prediction_logs` and `simulation_logs` tables, each
      as its rows in insertion order. */
  class Database {
    var predictions: seq<PredictionRow>
    var simulations: seq<SimulationRow>

    ghost predicate Valid()
      reads this
    {
      Ascending(predictions, PredictionId) && Ascending(simulations, SimulationId)
    }

    /** Fresh, empty tables. */
    constructor ()
      ensures Valid()
      ensures predictions == [] && simulations == []
    {
      predictions := [];
      simulations := [];
    }

    /** `db.add(PredictionLog(...)); db.commit()`: one row appended to
        `prediction_logs` under the next id; the other table is untouched. */
    method AddPrediction(userId: Option<string>, patientId: Option<string>, modelId: string,
                         inputs: Json, outputs: Json, createdAt: int) returns (row: PredictionRow)
      requires Valid()
      modifies this
      ensures Valid()
      ensures row == PredictionRow(NextId(old(predictions), PredictionId), userId, patientId, modelId, inputs, outputs, createdAt)
      ensures predictions == old(predictions) + [row]
      ensures simulations == old(simulations)
    {
      row := PredictionRow(NextId(predictions, PredictionId), userId, patientId, modelId, inputs, outputs, createdAt);
      AppendKeepsAscending(predictions, PredictionId, row);
      predictions := predictions + [row];
    }

    /** An insert into `simulation_logs` by any writer: one row appended
        under the next id; the other table is untouched. No route of the
        backend writes simulation rows; the table is only declared and
        listed. */
    method AddSimulation(userId: Option<string>, patientId: Option<string>, modelId: string,
                         simType: Option<string>, inputs: Json, outputs: Json, createdAt: int) returns (row: SimulationRow)
      requires Valid()
      modifies this
      ensures Valid()
      ensures row == SimulationRow(NextId(old(simulations), SimulationId), userId, patientId, modelId, simType, inputs, outputs, createdAt)
      ensures simulations == old(simulations) + [row]
      ensures predictions == old(predictions)
    {
      row := SimulationRow(NextId(simulations, SimulationId), userId, patientId, modelId, simType, inputs, outputs, createdAt);
      AppendKeepsAscending(simulations, SimulationId, row);
      simulations := simulations + [row];
    }
  }

  /** A row just appended is the first one listed, whatever positive limit is used. */
  lemma AppendedIsListedFirst(rows: seq<PredictionRow>, row: PredictionRow, limit: int)
    requires limit != 0
    ensures var items := ListPredictions(rows + [row], limit);
      |items| >= 1 && PredictionFromItem(items[0]) == Some(row)
  {
    ListPredictionsVerbatim(rows + [row], limit, 0);
  }
}
