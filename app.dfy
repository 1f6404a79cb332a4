/** The `App` component's controller as an object: its two pieces of React
    state and the storage slot are fields, and each handler is a method that
    updates them step by step, in the order the handler does. Each method is
    tied to the transition of the same name in `Controller`, where its
    properties are proved. */
module AppState {
  import opened Wrappers
  import opened Text
  import opened TaskList
  import opened Controller

  class App {
    /** `tarefas` */
    var tasks: seq<Task>
    /** `novaTarefa` */
    var input: string
    /** local storage under the key `'tarefas'` */
    var slot: Option<seq<Task>>

    /** The state as one value. */
    function Snapshot(): (r: State)
      reads this
    {
      State(tasks, input, slot)
    }

    /** Mounting the component: both pieces of state start empty, storage
        holds what the previous run left, and the mount effect runs
        `carregarTarefas` once. */
    constructor (stored: Option<seq<Task>>, readOk: bool)
      ensures Snapshot() == Load(Initial(stored), readOk)
      ensures readOk && stored.Some? ==> tasks == stored.value
      ensures !readOk || stored == None ==> tasks == []
      ensures (stored.Some? ==> WellFormed(stored.value)) ==> StateOk(Snapshot())
    {
      tasks := [];
      input := "";
      slot := stored;
      new;
      StateOkInitial(stored);
      LoadTasks(readOk);
    }

    /** `carregarTarefas`: `readOk` is false when reading or parsing the slot
        throws. */
    method LoadTasks(readOk: bool)
      modifies this`tasks
      ensures Snapshot() == Load(old(Snapshot()), readOk)
      ensures readOk && slot.Some? ==> Agrees(Snapshot())
      ensures StateOk(old(Snapshot())) ==> StateOk(Snapshot())
    {
      LoadKeepsStateOk(Snapshot(), readOk);
      if readOk {
        var stored := slot;
        if stored.Some? {
          tasks := stored.value;
        }
      }
    }

    /** `salvarTarefas`: `writeOk` is false when the write throws. */
    method SaveTasks(list: seq<Task>, writeOk: bool)
      modifies this`slot
      ensures slot == Saved(old(slot), list, writeOk)
    {
      if writeOk {
        slot := Some(list);
      }
    }

    /** The input field's change handler, `setNovaTarefa`. */
    method SetInput(text: string)
      modifies this`input
      ensures Snapshot() == old(Snapshot()).(input := text)
    {
      input := text;
    }

    /** `adicionarTarefa`, with `id` standing for `Date.now().toString()`. */
    method AddTask(id: string, writeOk: bool)
      modifies this
      ensures Snapshot() == Add(old(Snapshot()), id, writeOk)
      ensures Blank(old(input)) ==> Snapshot() == old(Snapshot())
      ensures !Blank(old(input)) ==> tasks == old(tasks) + [Task(id, old(input))] && input == ""
      ensures !Blank(old(input)) && writeOk ==> Agrees(Snapshot())
      ensures TextsNonBlank(old(tasks)) ==> TextsNonBlank(tasks)
      ensures WellFormed(old(tasks)) && !HasId(old(tasks), id) ==> WellFormed(tasks)
      ensures StateOk(old(Snapshot())) && !HasId(old(tasks), id) ==> StateOk(Snapshot())
    {
      TrimEmptyIffBlank(input);
      AddKeepsInvariant(Snapshot(), id, writeOk);
      AddKeepsStateOk(Snapshot(), id, writeOk);
      if Trim(input) == "" {
        return;
      }
      var novas := tasks + [Task(id, input)];
      tasks := novas;
      SaveTasks(novas, writeOk);
      input := "";
    }

    /** `removerTarefa`. */
    method RemoveTask(id: string, writeOk: bool)
      modifies this
      ensures Snapshot() == Remove(old(Snapshot()), id, writeOk)
      ensures !HasId(tasks, id)
      ensures !HasId(old(tasks), id) ==> tasks == old(tasks)
      ensures writeOk ==> Agrees(Snapshot())
      ensures WellFormed(old(tasks)) ==> WellFormed(tasks)
      ensures StateOk(old(Snapshot())) ==> StateOk(Snapshot())
    {
      RemoveFilters(Snapshot(), id, writeOk);
      RemoveKeepsInvariant(Snapshot(), id, writeOk);
      RemoveKeepsStateOk(Snapshot(), id, writeOk);
      var novas := RemoveId(tasks, id);
      tasks := novas;
      SaveTasks(novas, writeOk);
    }

    /** `limparTudo`: `removeOk` is false when removing the key throws, in
        which case the list is not emptied either. */
    method ClearAll(removeOk: bool)
      modifies this
      ensures Snapshot() == Clear(old(Snapshot()), removeOk)
      ensures removeOk ==> tasks == [] && slot == None
      ensures !removeOk ==> Snapshot() == old(Snapshot())
      ensures StateOk(old(Snapshot())) ==> StateOk(Snapshot())
    {
      ClearKeepsStateOk(Snapshot(), removeOk);
      if removeOk {
        slot := None;
        tasks := [];
      }
    }
  }
}
