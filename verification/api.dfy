/** The task endpoints as a state machine over the store: one request at a
    time, each answered with the outcome of the store operation behind it. */
module Api {
  import opened Tasks
  import opened TaskStore
  import opened StoreLemmas

  /** The requests that reach the store, with the clock reading taken for
      them where the handler reads the clock. */
  datatype Request =
    | ObtenerTareas
    | CrearTarea(body: Body, now: Timestamp)
    | CompletarTarea(id: nat, now: Timestamp)
    | EliminarTarea(id: nat)

  /** What each handler answers. */
  datatype Response =
    | Listed(listing: Listing)
    | Created(tarea: Task)
    | Completed(tarea: Task)
    | Deleted
    | Failed(error: Error)

  function Answer<T>(r: Result<T>, wrap: T -> Response): Response {
    match r
    case Ok(v) => wrap(v)
    case Err(e) => Failed(e)
  }

  /** One request against the store. Listing leaves the store as it was. */
  function Handle(s: Store, req: Request): (r: (Store, Response))
    ensures req.ObtenerTareas? ==> r.0 == s && r.1 == Listed(Listing(s.tareas, |s.tareas|))
    ensures r.1.Created? ==> req.CrearTarea? && r.1.tarea.id == s.contadorId
    ensures r.0.contadorId == if r.1.Created? then s.contadorId + 1 else s.contadorId
    ensures r.1.Failed? ==> r.0 == s
  {
    match req
    case ObtenerTareas => (s, Listed(List(s)))
    case CrearTarea(body, now) =>
      var st := Create(s, body, now);
      (st.store, Answer(st.result, t => Created(t)))
    case CompletarTarea(id, now) =>
      var st := Complete(s, id, now);
      (st.store, Answer(st.result, t => Completed(t)))
    case EliminarTarea(id) =>
      var st := Delete(s, id);
      (st.store, Answer(st.result, (_: ()) => Deleted))
  }

  /** Every request keeps the store invariant. */
  lemma HandlePreservesValid(s: Store, req: Request)
    requires Valid(s)
    ensures Valid(Handle(s, req).0)
  {
    match req
    case ObtenerTareas =>
    case CrearTarea(body, now) => CreatePreservesValid(s, body, now);
    case CompletarTarea(id, now) => CompletePreservesValid(s, id, now);
    case EliminarTarea(id) => DeletePreservesValid(s, id);
  }

  /** The store after serving `reqs` in order. */
  function Run(s: Store, reqs: seq<Request>): Store
    decreases |reqs|
  {
    if |reqs| == 0 then s else Run(Handle(s, reqs[0]).0, reqs[1..])
  }

  /** The ids handed out to the tasks created while serving `reqs`, in order. */
  function Issued(s: Store, reqs: seq<Request>): seq<nat>
    decreases |reqs|
  {
    if |reqs| == 0 then []
    else
      var (s', resp) := Handle(s, reqs[0]);
      (if resp.Created? then [resp.tarea.id] else []) + Issued(s', reqs[1..])
  }

  /** Any run from a valid store ends in a valid store. */
  lemma {:induction false} RunPreservesValid(s: Store, reqs: seq<Request>)
    requires Valid(s)
    ensures Valid(Run(s, reqs))
    decreases |reqs|
  {
    if |reqs| > 0 {
      HandlePreservesValid(s, reqs[0]);
      RunPreservesValid(Handle(s, reqs[0]).0, reqs[1..]);
    }
  }

  /** The ids handed out along any run are consecutive from the counter's
      starting value, and the counter ends just past the last of them:
      no id is skipped and none is handed out twice. */
  lemma {:induction false} IssuedAreConsecutive(s: Store, reqs: seq<Request>)
    ensures forall i :: 0 <= i < |Issued(s, reqs)| ==> Issued(s, reqs)[i] == s.contadorId + i
    ensures Run(s, reqs).contadorId == s.contadorId + |Issued(s, reqs)|
    decreases |reqs|
  {
    if |reqs| > 0 {
      var (s', resp) := Handle(s, reqs[0]);
      IssuedAreConsecutive(s', reqs[1..]);
    }
  }

  /** From process start, the n-th task ever created gets id n; ids strictly
      increase and never repeat, and every task still listed has an id
      below the counter. */
  lemma IdsFromStart(reqs: seq<Request>)
    ensures forall i :: 0 <= i < |Issued(Initial, reqs)| ==> Issued(Initial, reqs)[i] == i + 1
    ensures forall i, j :: 0 <= i < j < |Issued(Initial, reqs)| ==> Issued(Initial, reqs)[i] < Issued(Initial, reqs)[j]
    ensures Valid(Run(Initial, reqs))
  {
    IssuedAreConsecutive(Initial, reqs);
    InitialIsValid();
    RunPreservesValid(Initial, reqs);
  }

  /** The walk-through of the service: two creates, a listing, a complete,
      a delete and a repeated delete. */
  lemma Walkthrough(t1: Timestamp, t2: Timestamp, t3: Timestamp)
    ensures
      var (s1, r1) := Handle(Initial, CrearTarea(Some(map["titulo" := Str("Buy milk")]), t1));
      var (s2, r2) := Handle(s1, CrearTarea(Some(map["titulo" := Str("Walk dog"), "descripcion" := Str("evening")]), t2));
      var (s3, r3) := Handle(s2, ObtenerTareas);
      var (s4, r4) := Handle(s3, CompletarTarea(1, t3));
      var (s5, r5) := Handle(s4, EliminarTarea(2));
      var (s6, r6) := Handle(s5, EliminarTarea(2));
      && r1.Created? && r1.tarea.id == 1 && !r1.tarea.completada && r1.tarea.descripcion == Str("")
      && r2.Created? && r2.tarea.id == 2 && r2.tarea.descripcion == Str("evening")
      && r3.Listed? && r3.listing.total == 2
      && r4.Completed? && r4.tarea.completada && r4.tarea.fechaCompletada == Some(t3)
      && r5 == Deleted && |s5.tareas| == 1
      && r6 == Failed(NotFound) && s6 == s5
  {
  }

  /** An empty object is refused and the store stays empty; a title that is
      the empty string is accepted. */
  lemma TitleGuard(now: Timestamp)
    ensures Handle(Initial, CrearTarea(Some(map[]), now)) == (Initial, Failed(ValidationError))
    ensures Handle(Initial, CrearTarea(None, now)) == (Initial, Failed(ValidationError))
    ensures Handle(Initial, CrearTarea(Some(map["titulo" := Str("")]), now)).1.Created?
  {
  }
}
