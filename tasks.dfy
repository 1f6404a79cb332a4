/** The to-do entries and the list operations the handlers build new lists with:
    the spread-append of `adicionarTarefa` and the `filter` of `removerTarefa`. */
module TaskList {
  import opened Text

  /** One entry of `tarefas`: an opaque `id` and the `texto` as typed, here `text`. */
  datatype Task = Task(id: string, text: string)

  /** Some task in the list carries `id`. */
  predicate HasId(tasks: seq<Task>, id: string) {
    exists i :: 0 <= i < |tasks| && tasks[i].id == id
  }

  /** No two tasks share an id (the list's `keyExtractor` relies on this). */
  predicate UniqueIds(tasks: seq<Task>) {
    forall i, j :: 0 <= i < j < |tasks| ==> tasks[i].id != tasks[j].id
  }

  /** No task has a blank text. */
  predicate TextsNonBlank(tasks: seq<Task>) {
    forall i :: 0 <= i < |tasks| ==> !Blank(tasks[i].text)
  }

  /** `tasks.filter(tarefa => tarefa.id !== id)`: the result holds exactly the
      tasks of `tasks` whose id differs from `id`, and never grows. */
  function RemoveId(tasks: seq<Task>, id: string): (r: seq<Task>)
    ensures |r| <= |tasks|
    ensures forall t :: t in r <==> t in tasks && t.id != id
  {
    if tasks == [] then []
    else if tasks[0].id != id then [tasks[0]] + RemoveId(tasks[1..], id)
    else RemoveId(tasks[1..], id)
  }

  /** Filtering distributes over concatenation, so the survivors keep their
      relative order. */
  lemma {:induction false} RemoveIdConcat(a: seq<Task>, b: seq<Task>, id: string)
    ensures RemoveId(a + b, id) == RemoveId(a, id) + RemoveId(b, id)
  {
    if a != [] {
      assert (a + b)[0] == a[0] && (a + b)[1..] == a[1..] + b;
      RemoveIdConcat(a[1..], b, id);
      if a[0].id != id {
        calc {
          RemoveId(a + b, id);
          [a[0]] + RemoveId(a[1..] + b, id);
          [a[0]] + (RemoveId(a[1..], id) + RemoveId(b, id));
          ([a[0]] + RemoveId(a[1..], id)) + RemoveId(b, id);
        }
      }
    } else {
      assert a + b == b;
    }
  }

  /** Removing an id no task carries leaves the list as it was. */
  lemma {:induction false} RemoveIdAbsent(tasks: seq<Task>, id: string)
    requires !HasId(tasks, id)
    ensures RemoveId(tasks, id) == tasks
  {
    if tasks != [] {
      RemoveIdAbsent(tasks[1..], id);
    }
  }

  /** With unique ids, removing the id of the task at `k` takes out exactly that
      task: the list shrinks by one and everything else stays in place. */
  lemma {:induction false} RemoveIdPresent(tasks: seq<Task>, k: nat, id: string)
    requires UniqueIds(tasks)
    requires k < |tasks| && tasks[k].id == id
    ensures RemoveId(tasks, id) == tasks[..k] + tasks[k + 1..]
    ensures |RemoveId(tasks, id)| == |tasks| - 1
  {
    if k == 0 {
      RemoveIdAbsent(tasks[1..], id);
    } else {
      assert tasks[0].id != id;
      RemoveIdPresent(tasks[1..], k - 1, id);
      assert tasks[..k] + tasks[k + 1..] == [tasks[0]] + (tasks[1..][..k - 1] + tasks[1..][k..]);
    }
  }

  /** Filtering keeps ids unique. */
  lemma {:induction false} RemoveIdKeepsUnique(tasks: seq<Task>, id: string)
    requires UniqueIds(tasks)
    ensures UniqueIds(RemoveId(tasks, id))
  {
    if tasks != [] {
      var rest := RemoveId(tasks[1..], id);
      RemoveIdKeepsUnique(tasks[1..], id);
      if tasks[0].id != id {
        forall j | 0 <= j < |rest| ensures rest[j].id != tasks[0].id {
          assert rest[j] in rest;
          var m :| 0 <= m < |tasks[1..]| && tasks[1..][m] == rest[j];
          assert tasks[m + 1] == rest[j];
        }
        var r := [tasks[0]] + rest;
        forall i, j | 0 <= i < j < |r| ensures r[i].id != r[j].id {
          if i == 0 {
            assert r[j] == rest[j - 1];
          } else {
            assert r[i] == rest[i - 1] && r[j] == rest[j - 1];
          }
        }
      }
    }
  }

  /** Filtering keeps every text non-blank. */
  lemma RemoveIdKeepsNonBlank(tasks: seq<Task>, id: string)
    requires TextsNonBlank(tasks)
    ensures TextsNonBlank(RemoveId(tasks, id))
  {
    var r := RemoveId(tasks, id);
    forall i | 0 <= i < |r| ensures !Blank(r[i].text) {
      assert r[i] in r;
      var m :| 0 <= m < |tasks| && tasks[m] == r[i];
    }
  }

  /** Appending a task with a non-blank text keeps every text non-blank. */
  lemma AppendKeepsNonBlank(tasks: seq<Task>, t: Task)
    requires TextsNonBlank(tasks) && !Blank(t.text)
    ensures TextsNonBlank(tasks + [t])
  {
    forall i | 0 <= i < |tasks + [t]| ensures !Blank((tasks + [t])[i].text) {
      if i < |tasks| { assert (tasks + [t])[i] == tasks[i]; }
    }
  }

  /** Appending a task whose id is fresh keeps ids unique. */
  lemma AppendKeepsUnique(tasks: seq<Task>, t: Task)
    requires UniqueIds(tasks) && !HasId(tasks, t.id)
    ensures UniqueIds(tasks + [t])
  {
    var r := tasks + [t];
    forall i, j | 0 <= i < j < |r| ensures r[i].id != r[j].id {
      assert r[i] == tasks[i];
      if j < |tasks| { assert r[j] == tasks[j]; }
    }
  }
}
