/** Properties of the task store: the invariant every operation keeps, and
    how repeated completes and deletes behave. */
module StoreLemmas {
  import opened Tasks
  import opened TaskStore

  /** The process starts in a valid store. */
  lemma InitialIsValid()
    ensures Valid(Initial)
    ensures Initial.tareas == [] && Initial.contadorId == 1
  {
  }

  /** Create keeps the invariant, and the id it hands out is not in use. */
  lemma CreatePreservesValid(s: Store, body: Body, now: Timestamp)
    requires Valid(s)
    ensures Valid(Create(s, body, now).store)
    ensures Create(s, body, now).result.Ok? ==>
              !HasId(s.tareas, Create(s, body, now).result.value.id)
  {
  }

  /** Complete keeps the invariant. */
  lemma CompletePreservesValid(s: Store, id: nat, now: Timestamp)
    requires Valid(s)
    ensures Valid(Complete(s, id, now).store)
  {
  }

  /** Delete keeps the invariant. */
  lemma DeletePreservesValid(s: Store, id: nat)
    requires Valid(s)
    ensures Valid(Delete(s, id).store)
  {
    WithoutKeepsIncreasing(s.tareas, id);
  }

  /** Completing an id twice ends as completing it once with the later
      time: the task stays completed and only the timestamp is refreshed.
      An unknown id is not found either time. */
  lemma CompleteTwice(s: Store, id: nat, first: Timestamp, second: Timestamp)
    ensures Complete(Complete(s, id, first).store, id, second) == Complete(s, id, second)
  {
  }

  /** Deleting the same id a second time is not found and changes nothing. */
  lemma DeleteTwice(s: Store, id: nat)
    ensures Delete(Delete(s, id).store, id).result == Err(NotFound)
    ensures Delete(Delete(s, id).store, id).store == Delete(s, id).store
  {
  }

  /** Filtering distributes over concatenation: the kept tasks keep their
      relative order. */
  lemma {:induction false} WithoutAppend(a: seq<Task>, b: seq<Task>, id: nat)
    ensures Without(a + b, id) == Without(a, id) + Without(b, id)
  {
    if |a| == 0 {
      assert a + b == b;
    } else {
      assert (a + b)[1..] == a[1..] + b;
      WithoutAppend(a[1..], b, id);
    }
  }

  /** Filtering a single task keeps it exactly when its id differs. */
  lemma WithoutSingle(t: Task, id: nat)
    ensures Without([t], id) == if t.id == id then [] else [t]
  {
  }

  /** Filtering a list with one more task at the end. */
  lemma WithoutSnoc(ts: seq<Task>, t: Task, id: nat)
    ensures Without(ts + [t], id) == Without(ts, id) + (if t.id == id then [] else [t])
  {
    WithoutAppend(ts, [t], id);
    WithoutSingle(t, id);
  }

  /** When only position `k` carries its id, filtering that id drops exactly
      that position. */
  lemma {:induction false} WithoutAt(ts: seq<Task>, k: nat)
    requires k < |ts|
    requires forall j :: 0 <= j < |ts| && j != k ==> ts[j].id != ts[k].id
    ensures Without(ts, ts[k].id) == ts[..k] + ts[k + 1..]
  {
    var id := ts[k].id;
    if k == 0 {
      assert !HasId(ts[1..], id) by {
        forall t | t in ts[1..] ensures t.id != id {
          var j :| 0 <= j < |ts| - 1 && ts[1..][j] == t;
          assert ts[j + 1] == t;
        }
      }
      WithoutNoMatch(ts[1..], id);
    } else {
      var tail := ts[1..];
      assert tail[k - 1] == ts[k];
      assert forall j :: 0 <= j < |tail| && j != k - 1 ==> tail[j].id != tail[k - 1].id by {
        forall j | 0 <= j < |tail| && j != k - 1 ensures tail[j].id != tail[k - 1].id {
          assert tail[j] == ts[j + 1];
        }
      }
      WithoutAt(tail, k - 1);
      assert tail[..k - 1] + tail[k..] == ts[1..k] + ts[k + 1..];
      assert [ts[0]] + ts[1..k] == ts[..k];
    }
  }

  /** With strictly increasing ids, filtering out the id at `k` drops exactly
      that position. */
  lemma WithoutUnique(ts: seq<Task>, k: nat)
    requires StrictlyIncreasing(ts) && k < |ts|
    ensures Without(ts, ts[k].id) == ts[..k] + ts[k + 1..]
  {
    forall j | 0 <= j < |ts| && j != k ensures ts[j].id != ts[k].id {
      IncreasingIdsAreDistinct(ts, j, k);
    }
    WithoutAt(ts, k);
  }

  /** Under the invariant, deleting an id in use removes exactly the one task
      carrying it and shifts the later ones down by one. */
  lemma DeleteExistingRemovesOne(s: Store, id: nat, k: nat)
    requires Valid(s)
    requires k < |s.tareas| && s.tareas[k].id == id
    ensures Delete(s, id).result.Ok?
    ensures Delete(s, id).store.tareas == s.tareas[..k] + s.tareas[k + 1..]
    ensures |Delete(s, id).store.tareas| == |s.tareas| - 1
  {
    assert s.tareas[k] in s.tareas;
    WithoutUnique(s.tareas, k);
  }

  /** A store that somehow held two tasks with the same id loses both on a
      single delete, which still reports success. */
  lemma DeleteRemovesEveryMatch(s: Store, id: nat)
    requires exists i, j :: 0 <= i < j < |s.tareas| && s.tareas[i].id == id && s.tareas[j].id == id
    ensures Delete(s, id).result.Ok?
    ensures |Delete(s, id).store.tareas| <= |s.tareas| - 2
  {
    var i, j :| 0 <= i < j < |s.tareas| && s.tareas[i].id == id && s.tareas[j].id == id;
    var ts := s.tareas;
    assert ts[i] in ts;
    var a, b, c := ts[..i], ts[i + 1..j], ts[j + 1..];
    assert ts == a + [ts[i]] + b + [ts[j]] + c;
    WithoutAppend(a + [ts[i]] + b + [ts[j]], c, id);
    WithoutAppend(a + [ts[i]] + b, [ts[j]], id);
    WithoutAppend(a + [ts[i]], b, id);
    WithoutAppend(a, [ts[i]], id);
    assert [ts[i]][1..] == [] && [ts[j]][1..] == [];
  }
}
