/** The rows of the two audit tables (`prediction_logs`, `simulation_logs`),
    the risk category stored in tabular outputs, and the JSON objects the admin
    listing renders each row as. */
module Records {
  import opened Common
  import opened Dicts

  /** The three risk buckets of a tabular prediction. */
  datatype Category = Low | Mild | High {
    /** The label stored in the log and returned to the client. */
    function Name(): (s: string)
      ensures s in {"low", "mild", "high"}
    {
      match this
      case Low => "low"
      case Mild => "mild"
      case High => "high"
    }

    /** The buckets' order, from lowest to highest risk. */
    function Rank(): (n: nat)
      ensures n <= 2
    {
      match this
      case Low => 0
      case Mild => 1
      case High => 2
    }
  }

  /** The labels name the categories one to one. */
  lemma CategoryNameInjective(a: Category, b: Category)
    requires a.Name() == b.Name()
    ensures a == b
  {
    match a
    case Low => assert b.Name()[0] == 'l';
    case Mild => assert b.Name()[0] == 'm';
    case High => assert b.Name()[0] == 'h';
  }

  /** One row of `prediction_logs`; `id` is the auto-increment primary key. */
  datatype PredictionRow = PredictionRow(
    id: nat,
    userId: Option<string>,
    patientId: Option<string>,
    modelId: string,
    inputs: Json,
    outputs: Json,
    createdAt: int)

  /** One row of `simulation_logs`: the prediction columns plus `sim_type`. */
  datatype SimulationRow = SimulationRow(
    id: nat,
    userId: Option<string>,
    patientId: Option<string>,
    modelId: string,
    simType: Option<string>,
    inputs: Json,
    outputs: Json,
    createdAt: int)

  /** A nullable string column as JSON. */
  function OptionalString(s: Option<string>): Json {
    if s.Some? then JStr(s.value) else JNull
  }

  /** Reads a nullable string column back; anything but a string or null is rejected. */
  function ReadOptionalString(j: Json): Option<Option<string>> {
    match j
    case JStr(s) => Some(Some(s))
    case JNull => Some(None)
    case _ => None
  }

  /** Reads an integer column back from a JSON number. */
  function ReadInt(j: Json): Option<int> {
    if j.JNum? && j.num.Floor as real == j.num then Some(j.num.Floor) else None
  }

  /** The listing item of a prediction row: every column, in declaration order. */
  function PredictionItem(r: PredictionRow): (j: Json)
    ensures j.JObject? && DistinctKeys(j.fields)
  {
    JObject([
      ("id", JNum(r.id as real)),
      ("user_id", OptionalString(r.userId)),
      ("patient_id", OptionalString(r.patientId)),
      ("model_id", JStr(r.modelId)),
      ("inputs", r.inputs),
      ("outputs", r.outputs),
      ("created_at", JNum(r.createdAt as real))])
  }

  /** The listing item of a simulation row, with `sim_type` after `model_id`. */
  function SimulationItem(r: SimulationRow): (j: Json)
    ensures j.JObject? && DistinctKeys(j.fields)
  {
    JObject([
      ("id", JNum(r.id as real)),
      ("user_id", OptionalString(r.userId)),
      ("patient_id", OptionalString(r.patientId)),
      ("model_id", JStr(r.modelId)),
      ("sim_type", OptionalString(r.simType)),
      ("inputs", r.inputs),
      ("outputs", r.outputs),
      ("created_at", JNum(r.createdAt as real))])
  }

  /** Reads a prediction row back from its listing item, by key. */
  function PredictionFromItem(j: Json): Option<PredictionRow> {
    if !j.JObject? then None
    else
      var f := j.fields;
      var id, user, patient, model, inputs, outputs, created :=
        Get(f, "id"), Get(f, "user_id"), Get(f, "patient_id"), Get(f, "model_id"),
        Get(f, "inputs"), Get(f, "outputs"), Get(f, "created_at");
      if id.None? || user.None? || patient.None? || model.None? || inputs.None? || outputs.None? || created.None? then None
      else
        var i, u, p, c := ReadInt(id.value), ReadOptionalString(user.value), ReadOptionalString(patient.value), ReadInt(created.value);
        if i.None? || i.value < 0 || u.None? || p.None? || !model.value.JStr? || c.None? then None
        else Some(PredictionRow(i.value, u.value, p.value, model.value.str, inputs.value, outputs.value, c.value))
  }

  /** Reads a simulation row back from its listing item, by key. */
  function SimulationFromItem(j: Json): Option<SimulationRow> {
    if !j.JObject? then None
    else
      var f := j.fields;
      var id, user, patient, model, sim, inputs, outputs, created :=
        Get(f, "id"), Get(f, "user_id"), Get(f, "patient_id"), Get(f, "model_id"), Get(f, "sim_type"),
        Get(f, "inputs"), Get(f, "outputs"), Get(f, "created_at");
      if id.None? || user.None? || patient.None? || model.None? || sim.None? || inputs.None? || outputs.None? || created.None? then None
      else
        var i, u, p, s, c := ReadInt(id.value), ReadOptionalString(user.value), ReadOptionalString(patient.value),
          ReadOptionalString(sim.value), ReadInt(created.value);
        if i.None? || i.value < 0 || u.None? || p.None? || !model.value.JStr? || s.None? || c.None? then None
        else Some(SimulationRow(i.value, u.value, p.value, model.value.str, s.value, inputs.value, outputs.value, c.value))
  }

  /** Looking up each key of a prediction item finds its column. */
  lemma PredictionItemFields(r: PredictionRow)
    ensures var f := PredictionItem(r).fields;
      && Get(f, "id") == Some(JNum(r.id as real))
      && Get(f, "user_id") == Some(OptionalString(r.userId))
      && Get(f, "patient_id") == Some(OptionalString(r.patientId))
      && Get(f, "model_id") == Some(JStr(r.modelId))
      && Get(f, "inputs") == Some(r.inputs)
      && Get(f, "outputs") == Some(r.outputs)
      && Get(f, "created_at") == Some(JNum(r.createdAt as real))
  {
    var f := PredictionItem(r).fields;
    GetDistinct(f, 0);
    GetDistinct(f, 1);
    GetDistinct(f, 2);
    GetDistinct(f, 3);
    GetDistinct(f, 4);
    GetDistinct(f, 5);
    GetDistinct(f, 6);
  }

  /** Looking up each key of a simulation item finds its column. */
  lemma SimulationItemFields(r: SimulationRow)
    ensures var f := SimulationItem(r).fields;
      && Get(f, "id") == Some(JNum(r.id as real))
      && Get(f, "user_id") == Some(OptionalString(r.userId))
      && Get(f, "patient_id") == Some(OptionalString(r.patientId))
      && Get(f, "model_id") == Some(JStr(r.modelId))
      && Get(f, "sim_type") == Some(OptionalString(r.simType))
      && Get(f, "inputs") == Some(r.inputs)
      && Get(f, "outputs") == Some(r.outputs)
      && Get(f, "created_at") == Some(JNum(r.createdAt as real))
  {
    var f := SimulationItem(r).fields;
    GetDistinct(f, 0);
    GetDistinct(f, 1);
    GetDistinct(f, 2);
    GetDistinct(f, 3);
    GetDistinct(f, 4);
    GetDistinct(f, 5);
    GetDistinct(f, 6);
    GetDistinct(f, 7);
  }

  lemma ReadBack(n: int, s: Option<string>)
    ensures ReadInt(JNum(n as real)) == Some(n)
    ensures ReadOptionalString(OptionalString(s)) == Some(s)
  {
  }

  /** The listing item of a prediction row carries every column verbatim. */
  lemma PredictionItemRoundTrip(r: PredictionRow)
    ensures PredictionFromItem(PredictionItem(r)) == Some(r)
  {
    PredictionItemFields(r);
    ReadBack(r.id, r.userId);
    ReadBack(r.createdAt, r.patientId);
  }

  /** The listing item of a simulation row carries every column verbatim. */
  lemma SimulationItemRoundTrip(r: SimulationRow)
    ensures SimulationFromItem(SimulationItem(r)) == Some(r)
  {
    SimulationItemFields(r);
    ReadBack(r.id, r.userId);
    ReadBack(r.createdAt, r.patientId);
    ReadBack(0, r.simType);
  }
}
