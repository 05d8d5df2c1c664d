/** The task record ("tarea") of the task list service and the values it carries. */
module Tasks {

  datatype Option<+T> = None | Some(value: T)

  /** A JSON value as decoded from a request body. The store copies the
      title and the description into the task without looking at them, so
      every JSON shape may end up there. Numbers are modelled as integers. */
  datatype Json =
    | Null
    | Bool(b: bool)
    | Num(n: int)
    | Str(s: string)
    | Arr(items: seq<Json>)
    | Obj(fields: map<string, Json>)

  /** An ISO-8601 timestamp read from the clock. The store never inspects it. */
  type Timestamp = string

  /** One task. `fechaCompletada` is absent (not merely null) until the
      task is completed. */
  datatype Task = Task(
    id: nat,
    titulo: Json,
    descripcion: Json,
    completada: bool,
    fechaCreacion: Timestamp,
    fechaCompletada: Option<Timestamp>)
  {
    /** The completion timestamp is present exactly when the flag is set. */
    predicate WellFormed() {
      fechaCompletada.Some? <==> completada
    }

    /** The fields that completing a task never touches agree. */
    predicate SameRecord(other: Task) {
      && id == other.id
      && titulo == other.titulo
      && descripcion == other.descripcion
      && fechaCreacion == other.fechaCreacion
    }
  }

  /** Some task of `ts` carries `id`. */
  predicate HasId(ts: seq<Task>, id: nat) {
    exists t :: t in ts && t.id == id
  }

  /** Ids strictly increase along the list; in particular they are pairwise distinct. */
  predicate StrictlyIncreasing(ts: seq<Task>) {
    forall i, j :: 0 <= i < j < |ts| ==> ts[i].id < ts[j].id
  }

  /** Strictly increasing ids never repeat. */
  lemma IncreasingIdsAreDistinct(ts: seq<Task>, i: nat, j: nat)
    requires StrictlyIncreasing(ts)
    requires i < |ts| && j < |ts| && i != j
    ensures ts[i].id != ts[j].id
  {
  }
}
