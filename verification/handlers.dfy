/** The complete and delete handlers as the loops they are written as,
    each shown to compute the same store and answer as the functional
    definition of the operation. */
module Handlers {
  import opened Tasks
  import opened TaskStore
  import opened StoreLemmas

  /** Walks the list front to back and completes the first task carrying
      `id`, answering as soon as it is found; not found after the walk. */
  method CompleteByScan(s: Store, id: nat, now: Timestamp) returns (r: Step<Task>)
    ensures r == Complete(s, id, now)
  {
    var i := 0;
    while i < |s.tareas|
      invariant 0 <= i <= |s.tareas|
      invariant forall j :: 0 <= j < i ==> s.tareas[j].id != id
    {
      if s.tareas[i].id == id {
        var hecha := s.tareas[i].(completada := true, fechaCompletada := Some(now));
        assert FindFirst(s.tareas, id) == Some(i) by {
          var f := FindFirst(s.tareas, id);
          assert s.tareas[i] in s.tareas;
          assert f.Some? && !(f.value < i) && !(i < f.value);
        }
        return Step(s.(tareas := s.tareas[i := hecha]), Ok(hecha));
      }
      i := i + 1;
    }
    assert !HasId(s.tareas, id) by {
      forall t | t in s.tareas ensures t.id != id {
        var j :| 0 <= j < |s.tareas| && s.tareas[j] == t;
      }
    }
    return Step(s, Err(NotFound));
  }

  /** Builds the list of tasks whose id differs, in order, and compares its
      length with the original one. */
  method DeleteByScan(s: Store, id: nat) returns (r: Step<()>)
    ensures r == Delete(s, id)
  {
    var originales := |s.tareas|;
    var quedan: seq<Task> := [];
    var i := 0;
    while i < |s.tareas|
      invariant 0 <= i <= |s.tareas|
      invariant quedan == Without(s.tareas[..i], id)
    {
      var t := s.tareas[i];
      assert s.tareas[..i + 1] == s.tareas[..i] + [t];
      WithoutSnoc(s.tareas[..i], t, id);
      if t.id != id {
        quedan := quedan + [t];
      }
      i := i + 1;
    }
    assert s.tareas[..i] == s.tareas;
    var s' := s.(tareas := quedan);
    if |quedan| < originales {
      r := Step(s', Ok(()));
    } else {
      r := Step(s', Err(NotFound));
    }
  }
}
