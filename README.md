# Lista de Tarefas Domésticas — a Dafny model of the to-do list controller

The app is a single React Native screen holding a to-do list of household tasks.
Its only logic is the controller inside `App`. It has two pieces of state. The
list `tarefas` holds `{id, texto}` records in display order. The pending input
`novaTarefa` holds what is typed in the text field. The list is persisted as
one value in local storage under the fixed key `'tarefas'`.

There are four handlers:

- `carregarTarefas` reloads the list from storage when the screen mounts.
- `adicionarTarefa` ignores input that trims to nothing. Otherwise it appends a
  task, saves the new list and clears the input.
- `removerTarefa` filters out one id and saves the result.
- `limparTudo` removes the storage key, then empties the list.

The model has five modules:

- `Wrappers`: the `Option` type. `None` is an absent storage key.
- `Text`: the characters `String.prototype.trim` removes, and `Trim` itself.
  `Blank(s)` means every character of `s` is whitespace. It is proved to hold
  exactly when `Trim(s) == ""`.
- `TaskList`: the `Task` record, `RemoveId` (the `filter` call), and the
  invariants "texts non-blank" and "ids unique", with lemmas about filtering
  and appending.
- `Controller`: the state as one value (`State(tasks, input, slot)`). Each
  handler is a transition function (`Load`, `Add`, `Remove`, `Clear`, and
  `Saved` for `salvarTarefas`). The lemmas prove what each handler does,
  whether each storage call succeeds or fails.
- `AppState`: the class `App`. Its fields are the list, the input and the
  storage slot. Its methods perform the handlers' steps in source order. Each
  method's `ensures` equates the new state with the matching `Controller`
  transition of the old one.

Every storage call (`getItem`, `setItem`, `removeItem`) is one atomic step.
A `bool` parameter says whether it succeeded. The id of a new task is a
parameter; the app computes it as `Date.now().toString()`. Where uniqueness of
ids matters, freshness of that id is a hypothesis.

Three behaviours of the code are worth stating plainly:

- The stored `texto` is the untrimmed input (App.js:35). Trimming is only used
  to decide whether to add at all.
- When `removeItem` throws, `limparTudo` keeps the list as it was
  (App.js:49-50). `setTarefas([])` runs only after the removal succeeded.
- A failed or malformed read leaves the list unchanged (App.js:14-23). At
  mount that list is `[]`.

## Model

| member | source | states |
|---|---|---|
| Text.Trim | App.js:34 | the result of `trim()` neither starts nor ends with whitespace; with `TrimCutsBlankEnds` this determines `trim()` |
| Text.TrimCutsBlankEnds | App.js:34 | `trim()` returns the middle of the input left once a blank prefix and a blank suffix are cut off (and, by the contract of `Trim`, that middle neither starts nor ends with whitespace) |
| Text.TrimEmptyIffBlank | App.js:34 | `trim()` yields `''` exactly when every character of the input is whitespace |
| TaskList.RemoveId | App.js:42 | the filtered list holds exactly the tasks whose id differs from the removed id, and never grows |
| TaskList.RemoveIdConcat | App.js:42 | filtering distributes over concatenation, so the survivors keep their relative order |
| TaskList.RemoveIdAbsent | App.js:42 | filtering an id that no task carries returns the list unchanged |
| TaskList.RemoveIdPresent | App.js:42 | with unique ids, filtering the id of the task at index k removes exactly that task, and the length drops by one |
| TaskList.RemoveIdKeepsUnique | App.js:42 | filtering preserves uniqueness of ids |
| TaskList.RemoveIdKeepsNonBlank | App.js:42 | filtering preserves non-blank texts |
| TaskList.AppendKeepsNonBlank | App.js:34-35 | appending a task with non-blank text preserves non-blank texts |
| TaskList.AppendKeepsUnique | App.js:35 | appending a task with a fresh id preserves uniqueness of ids |
| Controller.Initial | App.js:7-8 | no contract of its own; the cold-start state (empty list and input) whose properties `StateOkInitial` and `RestartRestoresIffAgrees` state |
| Controller.Saved | App.js:25-31 | no contract of its own; the slot after `salvarTarefas`, whose properties `AddPersists` and `RemovePersists` state |
| Controller.Loaded | App.js:14-23 | no contract of its own; the list after `carregarTarefas`, whose properties `LoadOutcome` states |
| Controller.Load | App.js:14-23 | no contract of its own; the transition of `carregarTarefas`, whose properties `LoadOutcome`, `RestartRestoresIffAgrees` and `LoadKeepsStateOk` state |
| Controller.Add | App.js:33-39 | no contract of its own; the transition of `adicionarTarefa`, whose properties the `Add…` lemmas state |
| Controller.Remove | App.js:41-45 | no contract of its own; the transition of `removerTarefa`, whose properties the `Remove…` lemmas state |
| Controller.Clear | App.js:47-54 | no contract of its own; the transition of `limparTudo`, whose properties `ClearOutcome`, `ClearKeepsInvariant` and `ClearKeepsStateOk` state |
| Controller.AddNoopIffBlank | App.js:33-34 | adding leaves list, input and storage slot all unchanged exactly when the input is blank |
| Controller.AddAppends | App.js:35-38 | a non-blank add appends one task with the given id and the untrimmed input after the unchanged earlier tasks, and empties the input |
| Controller.AddPersists | App.js:25-38 | after a non-blank add, a successful write leaves the slot holding exactly the new list; a failed write leaves the slot as before while the list still grows |
| Controller.AddKeepsInvariant | App.js:34-35 | adding preserves non-blank texts, and preserves unique ids when the new id is fresh |
| Controller.RemoveFilters | App.js:41-45 | removing keeps the input, leaves no task with the id, keeps every other task, leaves the list unchanged for an absent id (the slot is still rewritten with it), and with unique ids drops exactly one task for a present id |
| Controller.RemoveAbsentRewritesSlot | App.js:41-45 | removing an absent id keeps the list and the input, and only writes the unchanged list back to storage (the slot changes when that write succeeds) |
| Controller.RemovePersists | App.js:41-45 | after a remove, a successful write leaves the slot holding exactly the new list; a failed write leaves the slot as before |
| Controller.RemoveKeepsInvariant | App.js:42 | removing from a list with non-blank texts and unique ids keeps both |
| Controller.ClearOutcome | App.js:47-54 | a successful clear leaves list `[]` and no slot; a failed clear changes neither list nor slot; the input is never touched |
| Controller.ClearKeepsInvariant | App.js:47-54 | a clear, successful or not, keeps texts non-blank and ids unique |
| Controller.LoadOutcome | App.js:14-23 | a successful read of a present slot makes the list equal to the stored list; an absent slot or a failed read or parse leaves the state unchanged |
| Controller.RestartRestoresIffAgrees | App.js:14-31 | a restart reloads exactly the in-memory list if and only if memory and storage agree |
| Controller.SuccessfulWritesAgree | App.js:25-54 | a successful remove or clear always leaves memory and storage in agreement, and so does a successful add started from agreement |
| Controller.StateOkInitial | App.js:7-8 | a cold start has non-blank texts and unique ids in memory and in storage exactly when storage holds nothing or a well-formed list |
| Controller.LoadKeepsStateOk | App.js:14-23 | loading keeps the invariant in memory and in storage, so it survives a restart |
| Controller.AddKeepsStateOk | App.js:33-39 | an add with a fresh id keeps the invariant in memory and in storage, whether or not its write succeeds |
| Controller.RemoveKeepsStateOk | App.js:41-45 | a remove keeps the invariant in memory and in storage, whether or not its write succeeds |
| Controller.ClearKeepsStateOk | App.js:47-54 | a clear keeps the invariant in memory and in storage, whether or not the removal succeeds |
| Controller.TypeAndAddAllAppends | App.js:33-39 | adding non-blank texts one after another appends one task per text in submission order, whichever of the writes fail |
| Controller.TypeAndAddAllLastWrite | App.js:25-39 | after adding non-blank texts one after another, storage holds exactly the resulting list whenever the last write succeeds, whatever the earlier writes did |
| Controller.AddTwoRemoveFirst | App.js:33-45 | from an empty start, adding two tasks (whether or not their writes succeed) and removing the first with a successful write leaves only the second, both in memory and after a restart |
| Controller.AddThreeThenClear | App.js:33-54 | adding three tasks (whether or not their writes succeed) leaves three tasks, and a successful clear after that leaves nothing to reload |
| AppState.App.constructor | App.js:7-23 | mounting starts from an empty list and input, then loads the stored list if the read succeeds; the invariant holds afterwards when storage held nothing or a well-formed list |
| AppState.App.LoadTasks | App.js:14-23 | the new state is `Load` of the old one; the invariant in memory and storage is kept |
| AppState.App.SaveTasks | App.js:25-31 | the slot becomes the list on success and stays as it was on failure |
| AppState.App.SetInput | App.js:63-64 | only the input changes |
| AppState.App.AddTask | App.js:33-39 | the new state is `Add` of the old one: a blank input changes nothing; otherwise the task is appended and the input cleared; agreement is reached on a successful write; the invariants are kept, in memory and in storage |
| AppState.App.RemoveTask | App.js:41-45 | the new state is `Remove` of the old one: no task with the id remains; an absent id leaves the list unchanged (the slot is still rewritten with it); agreement is reached on a successful write; the invariants are kept, in memory and in storage |
| AppState.App.ClearAll | App.js:47-54 | the new state is `Clear` of the old one: list `[]` and no slot on success, nothing changed on failure; the invariant in memory and storage is kept |

## Left out

- Rendering (App.js:56-88) and the `styles` object (App.js:90-138) are presentation only. This covers `View`, `TextInput`, `Button`, `FlatList`, `TouchableOpacity` and `StyleSheet`. Only the input field's change handler is modelled, as `SetInput`.
- The `async`/`await` scheduling of the storage calls is not modelled. `salvarTarefas` is not awaited by its callers, so storage calls can interleave with React's state updates. Stale closures of `tarefas` are not modelled either. Each handler is one atomic step, in source order.
- `JSON.stringify` and `JSON.parse` are not modelled. The slot holds the list itself. A stored value that parses to something other than a list of tasks is not modelled.
- The truthiness test `if (tarefasSalvas)` is modelled as "the key is present". The app only ever stores the JSON text of an array, which is never the empty string. So a present slot always loads, even an empty list.
- `Date.now().toString()` is not modelled. The new id is a parameter. Uniqueness of ids is proved only for ids that are fresh when added. Two adds within the same millisecond would collide in the app.
- The invariant (texts non-blank, ids unique) is proved for lists the app itself writes. A stored value written by anything else is not checked when loaded (App.js:18 parses it as is). So the invariant after a load rests on storage having been well-formed before it.
- `console.log` of storage errors is a side effect only. The error paths themselves are modelled through the success parameters.
- `Text.IsWs` treats a string as a sequence of Unicode code points. JavaScript strings are UTF-16 code units. Every character `trim` removes lies in the Basic Multilingual Plane, so the two views agree for these characters.
