/** The to-do list controller of `App`, as transitions over a snapshot of its
    state: the list `tarefas`, the pending input `novaTarefa` and the storage
    slot under the key `'tarefas'`. Every storage call is one atomic step whose
    success is a parameter; the id of a new task (`Date.now().toString()` in the
    app) is a parameter too. */
module Controller {
  import opened Wrappers
  import opened Text
  import opened TaskList

  /** `tasks` is `tarefas`, `input` is `novaTarefa`, and `slot` is what local
      storage holds under `'tarefas'` (`None` when the key is absent). */
  datatype State = State(tasks: seq<Task>, input: string, slot: Option<seq<Task>>)

  /** The state of a cold start: empty list and input, storage as left by the
      previous run. */
  function Initial(stored: Option<seq<Task>>): (r: State) {
    State([], "", stored)
  }

  /** The slot after `salvarTarefas(list)`: overwritten with `list` when the
      write succeeds, left alone when it throws (the error is only logged). */
  function Saved(slot: Option<seq<Task>>, list: seq<Task>, writeOk: bool): (r: Option<seq<Task>>) {
    if writeOk then Some(list) else slot
  }

  /** The list after `carregarTarefas`: a successful read of a present slot
      replaces it; an absent slot, or a read or parse that throws, keeps it. */
  function Loaded(tasks: seq<Task>, slot: Option<seq<Task>>, readOk: bool): (r: seq<Task>) {
    if readOk && slot.Some? then slot.value else tasks
  }

  /** `carregarTarefas` on the whole state: only the list can change. */
  function Load(s: State, readOk: bool): (r: State) {
    s.(tasks := Loaded(s.tasks, s.slot, readOk))
  }

  /** `adicionarTarefa`: ignored when the trimmed input is empty; otherwise the
      untrimmed input becomes a new last task, the new list is saved, and the
      input is cleared whatever the save did. */
  function Add(s: State, id: string, writeOk: bool): (r: State) {
    if Trim(s.input) == "" then s
    else
      var novas := s.tasks + [Task(id, s.input)];
      State(novas, "", Saved(s.slot, novas, writeOk))
  }

  /** `removerTarefa`: filter out `id`, then save the filtered list. */
  function Remove(s: State, id: string, writeOk: bool): (r: State) {
    var novas := RemoveId(s.tasks, id);
    s.(tasks := novas, slot := Saved(s.slot, novas, writeOk))
  }

  /** `limparTudo`: the list is emptied only after the key was removed; when
      the removal throws, neither the list nor the slot changes. */
  function Clear(s: State, removeOk: bool): (r: State) {
    if removeOk then s.(tasks := [], slot := None) else s
  }

  /** Memory and storage agree: a restart would reload exactly the current list. */
  predicate Agrees(s: State) {
    s.slot == Some(s.tasks) || (s.slot == None && s.tasks == [])
  }

  /** The invariant of the data model: texts non-blank, ids unique. */
  predicate WellFormed(tasks: seq<Task>) {
    TextsNonBlank(tasks) && UniqueIds(tasks)
  }

  // ---------------------------------------------------------------------------
  // Adding

  /** An add changes nothing at all (list, input, slot) exactly when the input
      is blank. */
  lemma AddNoopIffBlank(s: State, id: string, writeOk: bool)
    ensures Add(s, id, writeOk) == s <==> Blank(s.input)
  {
    TrimEmptyIffBlank(s.input);
    if !Blank(s.input) {
      assert |Add(s, id, writeOk).tasks| == |s.tasks| + 1;
    }
  }

  /** A non-blank add appends exactly one task, with the given id and the
      untrimmed input, after the unchanged earlier tasks, and clears the input. */
  lemma AddAppends(s: State, id: string, writeOk: bool)
    requires !Blank(s.input)
    ensures var r := Add(s, id, writeOk);
      && |r.tasks| == |s.tasks| + 1
      && r.tasks[..|s.tasks|] == s.tasks
      && r.tasks[|s.tasks|] == Task(id, s.input)
      && r.input == ""
  {
    TrimEmptyIffBlank(s.input);
    var r := Add(s, id, writeOk);
    assert r.tasks == s.tasks + [Task(id, s.input)];
  }

  /** After a non-blank add a successful write leaves storage holding exactly
      the new list; a failed write leaves the slot as it was, while the list
      still grows. */
  lemma AddPersists(s: State, id: string, writeOk: bool)
    requires !Blank(s.input)
    ensures var r := Add(s, id, writeOk);
      && (writeOk ==> r.slot == Some(r.tasks) && Agrees(r))
      && (!writeOk ==> r.slot == s.slot && |r.tasks| == |s.tasks| + 1)
  {
    TrimEmptyIffBlank(s.input);
  }

  /** An add keeps texts non-blank, and keeps ids unique when the new id is
      not already in use. */
  lemma AddKeepsInvariant(s: State, id: string, writeOk: bool)
    ensures TextsNonBlank(s.tasks) ==> TextsNonBlank(Add(s, id, writeOk).tasks)
    ensures WellFormed(s.tasks) && !HasId(s.tasks, id) ==> WellFormed(Add(s, id, writeOk).tasks)
  {
    TrimEmptyIffBlank(s.input);
    if !Blank(s.input) {
      if TextsNonBlank(s.tasks) { AppendKeepsNonBlank(s.tasks, Task(id, s.input)); }
      if UniqueIds(s.tasks) && !HasId(s.tasks, id) { AppendKeepsUnique(s.tasks, Task(id, s.input)); }
    }
  }

  // ---------------------------------------------------------------------------
  // Removing

  /** A remove leaves the input alone, leaves no task with `id`, keeps every
      other task, leaves the list as it was when `id` is absent, and with
      unique ids drops exactly one task when `id` is present. */
  lemma RemoveFilters(s: State, id: string, writeOk: bool)
    ensures var r := Remove(s, id, writeOk);
      && r.input == s.input
      && !HasId(r.tasks, id)
      && (forall t :: t in r.tasks <==> t in s.tasks && t.id != id)
      && (!HasId(s.tasks, id) ==> r.tasks == s.tasks)
      && (UniqueIds(s.tasks) && HasId(s.tasks, id) ==> |r.tasks| == |s.tasks| - 1)
  {
    if !HasId(s.tasks, id) {
      RemoveIdAbsent(s.tasks, id);
    } else if UniqueIds(s.tasks) {
      var k :| 0 <= k < |s.tasks| && s.tasks[k].id == id;
      RemoveIdPresent(s.tasks, k, id);
    }
  }

  /** Removing an absent id keeps the list and the input, yet the list is
      still written back to storage. */
  lemma RemoveAbsentRewritesSlot(s: State, id: string, writeOk: bool)
    requires !HasId(s.tasks, id)
    ensures Remove(s, id, writeOk) == s.(slot := Saved(s.slot, s.tasks, writeOk))
  {
    RemoveIdAbsent(s.tasks, id);
  }

  /** A successful write after a remove leaves storage holding exactly the new
      list; a failed one leaves the slot as it was. */
  lemma RemovePersists(s: State, id: string, writeOk: bool)
    ensures var r := Remove(s, id, writeOk);
      && (writeOk ==> r.slot == Some(r.tasks) && Agrees(r))
      && (!writeOk ==> r.slot == s.slot)
  {
  }

  /** A remove keeps both halves of the invariant. */
  lemma RemoveKeepsInvariant(s: State, id: string, writeOk: bool)
    ensures WellFormed(s.tasks) ==> WellFormed(Remove(s, id, writeOk).tasks)
  {
    if WellFormed(s.tasks) {
      RemoveIdKeepsNonBlank(s.tasks, id);
      RemoveIdKeepsUnique(s.tasks, id);
    }
  }

  // ---------------------------------------------------------------------------
  // Clearing and loading

  /** A successful clear empties both the list and the slot; a failed one
      changes nothing. The input is never touched. */
  lemma ClearOutcome(s: State, removeOk: bool)
    ensures var r := Clear(s, removeOk);
      && (removeOk ==> r.tasks == [] && r.slot == None && r.input == s.input && Agrees(r))
      && (!removeOk ==> r == s)
  {
  }

  /** A clear keeps both halves of the invariant, whether or not the removal
      succeeds. */
  lemma ClearKeepsInvariant(s: State, removeOk: bool)
    requires WellFormed(s.tasks)
    ensures WellFormed(Clear(s, removeOk).tasks)
  {
  }

  /** Loading replaces the list with a present slot's list when the read
      succeeds, and otherwise leaves the whole state as it was. */
  lemma LoadOutcome(s: State, readOk: bool)
    ensures var r := Load(s, readOk);
      && r.input == s.input && r.slot == s.slot
      && (readOk && s.slot.Some? ==> r.tasks == s.slot.value && Agrees(r))
      && (!readOk || s.slot == None ==> r == s)
  {
  }

  /** A restart reloads exactly the list in memory if and only if memory and
      storage agree. */
  lemma RestartRestoresIffAgrees(s: State)
    ensures Load(Initial(s.slot), true).tasks == s.tasks <==> Agrees(s)
  {
  }

  /** A successful remove or clear leaves memory and storage in agreement from
      any state; a successful add does so from a state that already agrees,
      since a blank add writes nothing. A successful read agrees whenever the
      slot is present. */
  lemma SuccessfulWritesAgree(s: State, id: string)
    ensures Agrees(s) ==> Agrees(Add(s, id, true))
    ensures Agrees(Remove(s, id, true))
    ensures Agrees(Clear(s, true))
    ensures Agrees(Load(s, true)) || s.slot == None
  {
  }

  // ---------------------------------------------------------------------------
  // The invariant in memory and in storage

  /** Both the list in memory and any list in storage are well-formed, so the
      invariant also survives a restart. */
  predicate StateOk(s: State) {
    WellFormed(s.tasks) && (s.slot.Some? ==> WellFormed(s.slot.value))
  }

  /** A cold start satisfies the invariant exactly when storage holds nothing
      or a well-formed list. */
  lemma StateOkInitial(stored: Option<seq<Task>>)
    ensures StateOk(Initial(stored)) <==> (stored.Some? ==> WellFormed(stored.value))
  {
  }

  /** Loading keeps the invariant: a list read back from storage is one that
      was well-formed when written. */
  lemma LoadKeepsStateOk(s: State, readOk: bool)
    ensures StateOk(s) ==> StateOk(Load(s, readOk))
  {
  }

  /** An add with a fresh id keeps the invariant; the list it writes is the
      new list in memory. */
  lemma AddKeepsStateOk(s: State, id: string, writeOk: bool)
    ensures StateOk(s) && !HasId(s.tasks, id) ==> StateOk(Add(s, id, writeOk))
  {
    AddKeepsInvariant(s, id, writeOk);
  }

  /** A remove keeps the invariant; the list it writes is the filtered list. */
  lemma RemoveKeepsStateOk(s: State, id: string, writeOk: bool)
    ensures StateOk(s) ==> StateOk(Remove(s, id, writeOk))
  {
    RemoveKeepsInvariant(s, id, writeOk);
  }

  /** A clear keeps the invariant, whether or not the removal succeeds. */
  lemma ClearKeepsStateOk(s: State, removeOk: bool)
    ensures StateOk(s) ==> StateOk(Clear(s, removeOk))
  {
  }

  // ---------------------------------------------------------------------------
  // Sequences of user actions

  /** The tasks that typing `texts[i]` and adding it with id `ids[i]` creates. */
  function Entries(ids: seq<string>, texts: seq<string>): (r: seq<Task>)
    requires |ids| == |texts|
  {
    seq(|texts|, i requires 0 <= i < |texts| => Task(ids[i], texts[i]))
  }

  /** The user types each text into the input field and presses the add
      button; `oks[i]` says whether the write of the `i`-th add succeeds. */
  function TypeAndAddAll(s: State, ids: seq<string>, texts: seq<string>, oks: seq<bool>): (r: State)
    requires |ids| == |texts| == |oks|
    decreases |texts|
  {
    if texts == [] then s
    else TypeAndAddAll(Add(s.(input := texts[0]), ids[0], oks[0]), ids[1..], texts[1..], oks[1..])
  }

  /** No text of `texts` is blank. */
  predicate NoneBlank(texts: seq<string>) {
    texts == [] || (!Blank(texts[0]) && NoneBlank(texts[1..]))
  }

  /** Adding non-blank texts one after another appends one task per text, in
      submission order, whichever writes fail. */
  lemma {:induction false} TypeAndAddAllAppends(s: State, ids: seq<string>, texts: seq<string>, oks: seq<bool>)
    requires |ids| == |texts| == |oks|
    requires NoneBlank(texts)
    decreases |texts|
    ensures TypeAndAddAll(s, ids, texts, oks).tasks == s.tasks + Entries(ids, texts)
  {
    if texts != [] {
      var novas := s.tasks + [Task(ids[0], texts[0])];
      var s1 := State(novas, "", Saved(s.slot, novas, oks[0]));
      TypeAndAddAllStep(s, ids, texts, oks);
      TypeAndAddAllAppends(s1, ids[1..], texts[1..], oks[1..]);
      EntriesCons(ids, texts);
      assert s1.tasks + Entries(ids[1..], texts[1..]) == s.tasks + Entries(ids, texts);
    }
  }

  /** After adding non-blank texts one after another, storage holds the
      resulting list whenever the last write succeeds, whatever the earlier
      writes did. */
  lemma {:induction false} TypeAndAddAllLastWrite(s: State, ids: seq<string>, texts: seq<string>, oks: seq<bool>)
    requires |ids| == |texts| == |oks| > 0
    requires NoneBlank(texts) && oks[|oks| - 1]
    decreases |texts|
    ensures TypeAndAddAll(s, ids, texts, oks).slot == Some(TypeAndAddAll(s, ids, texts, oks).tasks)
  {
    var novas := s.tasks + [Task(ids[0], texts[0])];
    var s1 := State(novas, "", Saved(s.slot, novas, oks[0]));
    TypeAndAddAllStep(s, ids, texts, oks);
    if |texts| == 1 {
      assert TypeAndAddAll(s1, ids[1..], texts[1..], oks[1..]) == s1;
    } else {
      assert oks[1..][|oks[1..]| - 1] == oks[|oks| - 1];
      TypeAndAddAllLastWrite(s1, ids[1..], texts[1..], oks[1..]);
    }
  }

  /** One round of `TypeAndAddAll` with a non-blank first text, in one piece. */
  lemma TypeAndAddAllStep(s: State, ids: seq<string>, texts: seq<string>, oks: seq<bool>)
    requires |ids| == |texts| == |oks| > 0 && !Blank(texts[0])
    ensures var novas := s.tasks + [Task(ids[0], texts[0])];
      TypeAndAddAll(s, ids, texts, oks)
        == TypeAndAddAll(State(novas, "", Saved(s.slot, novas, oks[0])), ids[1..], texts[1..], oks[1..])
  {
    TrimEmptyIffBlank(texts[0]);
  }

  /** Unfolds `Entries` once. */
  lemma EntriesCons(ids: seq<string>, texts: seq<string>)
    requires |ids| == |texts| > 0
    ensures Entries(ids, texts) == [Task(ids[0], texts[0])] + Entries(ids[1..], texts[1..])
  {
  }

  /** Starting empty, adding two tasks (say "Wash dishes" then "Buy milk") and
      removing the first one leaves only the second, in memory and after a
      restart. */
  lemma AddTwoRemoveFirst(stored: Option<seq<Task>>, id1: string, w1: string, id2: string, w2: string, oks: seq<bool>)
    requires id1 != id2 && !Blank(w1) && !Blank(w2) && |oks| == 2
    ensures var s2 := TypeAndAddAll(Initial(stored), [id1, id2], [w1, w2], oks);
      var s3 := Remove(s2, id1, true);
      && |s2.tasks| == 2 && s2.tasks[0].id == id1
      && s3.tasks == [Task(id2, w2)]
      && Load(Initial(s3.slot), true).tasks == [Task(id2, w2)]
  {
    assert NoneBlank([w1, w2]) by { assert [w1, w2][1..] == [w2] && [w2][1..] == []; }
    TypeAndAddAllAppends(Initial(stored), [id1, id2], [w1, w2], oks);
    var s2 := TypeAndAddAll(Initial(stored), [id1, id2], [w1, w2], oks);
    assert s2.tasks == [Task(id1, w1), Task(id2, w2)];
    RemoveIdPresent(s2.tasks, 0, id1);
  }

  /** Adding three tasks and then clearing leaves nothing to reload. */
  lemma AddThreeThenClear(stored: Option<seq<Task>>, ids: seq<string>, texts: seq<string>, oks: seq<bool>)
    requires |ids| == |texts| == |oks| == 3
    requires !Blank(texts[0]) && !Blank(texts[1]) && !Blank(texts[2])
    ensures var s3 := TypeAndAddAll(Initial(stored), ids, texts, oks);
      && |s3.tasks| == 3
      && Load(Initial(Clear(s3, true).slot), true).tasks == []
  {
    assert NoneBlank(texts[2..]) by { assert texts[2..][1..] == []; }
    assert NoneBlank(texts[1..]) by { assert texts[1..][1..] == texts[2..]; }
    TypeAndAddAllAppends(Initial(stored), ids, texts, oks);
  }
}
