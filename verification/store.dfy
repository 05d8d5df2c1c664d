/** The in-memory task store of the service: the ordered task list and the
    id counter, and the four operations the HTTP handlers perform on them. */
module TaskStore {
  import opened Tasks

  /** The task list, in insertion order, and the next id to hand out. */
  datatype Store = Store(tareas: seq<Task>, contadorId: nat)

  /** The state at process start: no tasks, next id 1. */
  const Initial: Store := Store([], 1)

  datatype Error = ValidationError | NotFound

  datatype Result<+T> = Ok(value: T) | Err(error: Error)

  /** The store an operation leaves behind together with its answer. */
  datatype Step<+T> = Step(store: Store, result: Result<T>)

  /** The answer to a listing: every task and how many there are. */
  datatype Listing = Listing(tareas: seq<Task>, total: nat)

  /** A decoded request body; `None` is a body that decodes to `null`, which on
      older Flask versions also stands for a request carrying no JSON. */
  type Body = Option<map<string, Json>>

  const TituloKey: string := "titulo"
  const DescripcionKey: string := "descripcion"

  /** The store invariant: ids lie in [1, contadorId) and strictly increase
      along the list, and every task's completion fields agree. */
  predicate Valid(s: Store) {
    && 1 <= s.contadorId
    && StrictlyIncreasing(s.tareas)
    && (forall i :: 0 <= i < |s.tareas| ==> 1 <= s.tareas[i].id < s.contadorId)
    && (forall i :: 0 <= i < |s.tareas| ==> s.tareas[i].WellFormed())
  }

  /** Listing reports the tasks in order and their count. */
  function List(s: Store): (r: Listing)
    ensures r.tareas == s.tareas
    ensures r.total == |r.tareas|
  {
    Listing(s.tareas, |s.tareas|)
  }

  /** Creating a task. The request is refused when there is no body, the
      body is an empty object, or it has no title key; any title value,
      the empty string included, is accepted. */
  function Create(s: Store, body: Body, now: Timestamp): (r: Step<Task>)
    ensures r.result.Err? <==> body.None? || TituloKey !in body.value
    ensures r.result.Err? ==> r.result.error == ValidationError && r.store == s
    ensures r.result.Ok? ==>
              var t := r.result.value;
              && t.id == s.contadorId
              && t.titulo == body.value[TituloKey]
              && (DescripcionKey in body.value ==> t.descripcion == body.value[DescripcionKey])
              && (DescripcionKey !in body.value ==> t.descripcion == Str(""))
              && !t.completada
              && t.fechaCreacion == now
              && t.fechaCompletada.None?
              && |r.store.tareas| == |s.tareas| + 1
              && r.store.tareas[..|s.tareas|] == s.tareas
              && r.store.tareas[|s.tareas|] == t
              && r.store.contadorId == s.contadorId + 1
  {
    if body.None? || |body.value| == 0 || TituloKey !in body.value then
      Step(s, Err(ValidationError))
    else
      var datos := body.value;
      var nueva := Task(
        s.contadorId,
        datos[TituloKey],
        if DescripcionKey in datos then datos[DescripcionKey] else Str(""),
        false,
        now,
        None);
      Step(Store(s.tareas + [nueva], s.contadorId + 1), Ok(nueva))
  }

  /** The position of the first task carrying `id`, scanning in list order. */
  function FindFirst(ts: seq<Task>, id: nat): (r: Option<nat>)
    ensures r.None? <==> !HasId(ts, id)
    ensures r.Some? ==> r.value < |ts| && ts[r.value].id == id
    ensures r.Some? ==> forall j :: 0 <= j < r.value ==> ts[j].id != id
  {
    if |ts| == 0 then None
    else if ts[0].id == id then Some(0)
    else
      match FindFirst(ts[1..], id)
      case None =>
        assert forall t :: t in ts ==> t == ts[0] || t in ts[1..];
        None
      case Some(k) => Some(k + 1)
  }

  /** Completing a task: the first task carrying `id` gets the flag and the
      completion time (overwriting an earlier one); every other task, the
      order and the counter are untouched. Unknown ids are not found. */
  function Complete(s: Store, id: nat, now: Timestamp): (r: Step<Task>)
    ensures r.result.Err? <==> !HasId(s.tareas, id)
    ensures r.result.Err? ==> r.result.error == NotFound && r.store == s
    ensures r.store.contadorId == s.contadorId
    ensures |r.store.tareas| == |s.tareas|
    ensures forall i :: 0 <= i < |s.tareas| ==> r.store.tareas[i].SameRecord(s.tareas[i])
    ensures r.result.Ok? ==>
              var k := FindFirst(s.tareas, id).value;
              && r.result.value == r.store.tareas[k]
              && r.result.value.id == id
              && r.result.value.completada
              && r.result.value.fechaCompletada == Some(now)
              && forall i :: 0 <= i < |s.tareas| && i != k ==> r.store.tareas[i] == s.tareas[i]
  {
    match FindFirst(s.tareas, id)
    case None => Step(s, Err(NotFound))
    case Some(k) =>
      var hecha := s.tareas[k].(completada := true, fechaCompletada := Some(now));
      Step(s.(tareas := s.tareas[k := hecha]), Ok(hecha))
  }

  /** The list with every task carrying `id` filtered out, keeping the
      relative order of the rest. */
  function Without(ts: seq<Task>, id: nat): (r: seq<Task>)
    ensures |r| <= |ts|
    ensures |r| < |ts| <==> HasId(ts, id)
  {
    if |ts| == 0 then []
    else
      assert HasId(ts, id) <==> ts[0].id == id || HasId(ts[1..], id) by {
        assert forall t :: t in ts <==> t == ts[0] || t in ts[1..];
      }
      var rest := Without(ts[1..], id);
      if ts[0].id == id then rest else [ts[0]] + rest
  }

  /** The filtered list holds exactly the tasks whose id differs. */
  lemma {:induction false} WithoutMembers(ts: seq<Task>, id: nat)
    ensures forall t :: t in Without(ts, id) <==> t in ts && t.id != id
  {
    if |ts| > 0 {
      WithoutMembers(ts[1..], id);
      assert forall t :: t in ts <==> t == ts[0] || t in ts[1..];
    }
  }

  /** Filtering keeps ids strictly increasing. */
  lemma {:induction false} WithoutKeepsIncreasing(ts: seq<Task>, id: nat)
    requires StrictlyIncreasing(ts)
    ensures StrictlyIncreasing(Without(ts, id))
  {
    if |ts| > 0 {
      IncreasingTail(ts);
      WithoutKeepsIncreasing(ts[1..], id);
      if ts[0].id != id {
        WithoutMembers(ts[1..], id);
        IncreasingCons(ts[0], Without(ts[1..], id));
      }
    }
  }

  /** Dropping the first task keeps ids increasing, and the first id is
      below every later one. */
  lemma IncreasingTail(ts: seq<Task>)
    requires StrictlyIncreasing(ts) && |ts| > 0
    ensures StrictlyIncreasing(ts[1..])
    ensures forall t :: t in ts[1..] ==> ts[0].id < t.id
  {
  }

  /** A task whose id is below all ids of an increasing list can go in front. */
  lemma IncreasingCons(t: Task, rest: seq<Task>)
    requires StrictlyIncreasing(rest)
    requires forall u :: u in rest ==> t.id < u.id
    ensures StrictlyIncreasing([t] + rest)
  {
  }

  /** Deleting a task: every task carrying `id` is filtered out and the
      request succeeds exactly when the list got shorter. The list is
      rebound to the filtered one on both paths; the counter is untouched. */
  function Delete(s: Store, id: nat): (r: Step<()>)
    ensures r.result.Ok? <==> HasId(s.tareas, id)
    ensures r.result.Err? ==> r.result.error == NotFound && r.store == s
    ensures r.store.contadorId == s.contadorId
    ensures forall t :: t in r.store.tareas <==> t in s.tareas && t.id != id
    ensures !HasId(r.store.tareas, id)
  {
    var originales := |s.tareas|;
    var quedan := Without(s.tareas, id);
    WithoutMembers(s.tareas, id);
    var s' := s.(tareas := quedan);
    if |quedan| < originales then
      Step(s', Ok(()))
    else
      WithoutNoMatch(s.tareas, id);
      Step(s', Err(NotFound))
  }

  /** When nothing carries `id`, filtering leaves the list as it was. */
  lemma {:induction false} WithoutNoMatch(ts: seq<Task>, id: nat)
    requires !HasId(ts, id)
    ensures Without(ts, id) == ts
  {
    if |ts| > 0 {
      assert ts[0] in ts;
      assert !HasId(ts[1..], id) by {
        forall t | t in ts[1..] ensures t.id != id {
          assert t in ts;
        }
      }
      WithoutNoMatch(ts[1..], id);
      assert ts == [ts[0]] + ts[1..];
    }
  }
}
