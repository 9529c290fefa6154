# Todo API core, modelled in Dafny

This project models the core of a small ASP.NET Core todo service:

- the `TodoItem` record: identifier, title, optional description and due date,
  completion flag and creation time, with their initialisers and the declared title
  constraint;
- the two file-backed repositories. Each keeps the whole todo list as one JSON file.
  Every operation loads the list, edits it and writes all of it back.
  `TodoApi/Repositories/TodoRepository.cs` treats an empty file as an empty list.
  `TodoApi/Models/TodoRepository.cs` hands the empty text to the parser, and it adds the
  `setToCompleted` / `setToInProgress` status setters;
- the `TodoController` actions. The list action applies up to six optional filters
  (completion, due-date range, creation-time range, a case-insensitive title
  substring) and one of four stable sorts, ascending or descending. It answers the
  list together with its count. The item actions look up, create, update and delete
  by identifier and choose the HTTP status.

Modules:

- `Wrappers`: `Option`.
- `Seqs`: LINQ `Where` on sequences, and its algebra.
- `Text`: `char.IsWhiteSpace`, ordinal case-insensitive equality and containment,
  `ToLower`, and ordinal string order.
- `TodoItems`: the record.
- `TodoLists`: the list edits both repositories share.
- `Persistence`: the data file and the two load policies.
- `Repositories` and `Models`: the two repository classes. The file is a field; the
  methods load it, change it and save it.
- `Ordering`: the sort keys and the stable sort.
- `TodoQuery`: query parameters, filters and sort selection.
- `TodoController`: the actions, as functions of the store's contents.
- `ControllerScenarios`: the list action on the inputs of the unit tests in
  `TodoApi.Tests/UnitTest1.cs`.

The controller is modelled over the list its repository returns. The shipped
controller builds its own `TodoRepository`, and only that repository behaves as the
repository classes here specify. With it, the `store` of a mutating action's
`Outcome` is exactly the `Contents()` that the matching repository method ensures.
The unit tests instead inject a mock `ITodoRepository`, whose `GetAll` returns a
fixed list and whose `Add`, `Update` and `Delete` do nothing. The scenarios in
`ControllerScenarios` take that fixed list as the stored items.

## Model

| member | source | states |
|---|---|---|
| TodoItems.NewTodoItem | TodoApi/Models/TodoItem.cs:16-29 | a new item has the given id and creation time, an empty title, no description, no due date, and is not completed |
| TodoItems.NewTodoItemHasInvalidTitle | TodoApi/Models/TodoItem.cs:18-20 | the default empty title breaks the declared `[Required]`/`[StringLength(100)]` constraint |
| Text.EqualsIgnoreCaseIsLowerEquality | TodoApi/Controller/TodoController.cs:40 | ordinal case-insensitive equality holds exactly when the lower-cased strings are equal |
| Text.ContainsIgnoreCaseIsLowerContainment | TodoApi/Controller/TodoController.cs:43 | a title contains the needle ignoring case exactly when the lower-cased needle occurs in the lower-cased title at some index |
| Text.StrLeReflexive | TodoApi/Controller/TodoController.cs:52 | the ordinal title order is reflexive |
| Text.StrLeTotal | TodoApi/Controller/TodoController.cs:52 | any two titles are comparable |
| Text.StrLeTransitive | TodoApi/Controller/TodoController.cs:52 | the title order is transitive |
| Text.StrLeAntisymmetric | TodoApi/Controller/TodoController.cs:52 | titles ordered both ways are equal |
| Seqs.Where | TodoApi/Controller/TodoController.cs:28-43 | filtering returns no more elements than it was given, and each of them was given and passes the predicate |
| Seqs.WhereAppend | TodoApi/Repositories/TodoRepository.cs:76 | filtering distributes over concatenation, so kept elements keep their relative order |
| Seqs.WhereMultiset | TodoApi/Repositories/TodoRepository.cs:76 | an element is kept as often as it occurs when it passes, and otherwise not at all |
| Seqs.WhereWhere | TodoApi/Controller/TodoController.cs:27-43 | two successive filters are one filter by their conjunction |
| Seqs.WhereAll | TodoApi/Controller/TodoController.cs:27-36 | a filter every element passes keeps the whole list |
| Persistence.LoadGuarded | TodoApi/Repositories/TodoRepository.cs:19-38 | a non-empty result comes only from a non-empty text that parses to it; every parsed non-empty text gives its list; a missing file, an unreadable file, an empty text, `null` and malformed JSON give `[]` |
| Persistence.LoadDirect | TodoApi/Models/TodoRepository.cs:17-31 | the same without the empty-text guard: any text that parses gives its list, and every failure gives `[]` |
| Persistence.LoadPoliciesAgree | TodoApi/Repositories/TodoRepository.cs:28-29 | the two load policies agree whenever parsing the empty text does not give a non-empty list |
| Persistence.SavedListLoadsBack | TodoApi/Repositories/TodoRepository.cs:41-45 | a saved list loads back unchanged under both policies, given a round-tripping serialiser |
| TodoLists.FindIndex | TodoApi/Repositories/TodoRepository.cs:65 | -1 exactly when no item has the id; otherwise the index of the first item with the id |
| TodoLists.FirstWithId | TodoApi/Repositories/TodoRepository.cs:51 | `None` exactly when no item has the id; otherwise the first item carrying it |
| TodoLists.Replaced | TodoApi/Repositories/TodoRepository.cs:65-70 | the length is kept; the first item with the id becomes the new item; every other index is unchanged; nothing changes when the id is absent |
| TodoLists.Without | TodoApi/Repositories/TodoRepository.cs:76 | every survivor was stored and carries another identifier |
| TodoLists.SetCompletion | TodoApi/Models/TodoRepository.cs:66-86 | only the completion flag of the first item with the id changes; nothing changes when the id is absent |
| TodoLists.FindIndexAppend | TodoApi/Repositories/TodoRepository.cs:54-59 | after an append, the lookup finds the earlier index if there is one, otherwise the new item's index exactly when it carries the id |
| TodoLists.GetAfterAddFresh | TodoApi/Repositories/TodoRepository.cs:51-59 | an added item with a fresh id is what `Get` then returns |
| TodoLists.GetAfterAddDuplicate | TodoApi/Repositories/TodoRepository.cs:51-59 | an added item whose id is already stored is shadowed by the earlier item |
| TodoLists.AddKeepsUniqueIds | TodoApi/Repositories/TodoRepository.cs:54-59 | appending keeps ids unique exactly when the list had unique ids and the new id was absent |
| TodoLists.GetAfterReplace | TodoApi/Repositories/TodoRepository.cs:62-71 | after replacing a stored id, `Get` returns the replacement |
| TodoLists.ReplaceKeepsUniqueIds | TodoApi/Repositories/TodoRepository.cs:62-71 | replacement keeps ids unique |
| TodoLists.WithoutContents | TodoApi/Repositories/TodoRepository.cs:74-78 | an item survives deletion exactly when it was stored with another id, and as often as it was stored |
| TodoLists.GetAfterDelete | TodoApi/Repositories/TodoRepository.cs:74-78 | after deletion `Get` finds nothing for the id |
| TodoLists.DeleteKeepsOrder | TodoApi/Repositories/TodoRepository.cs:76 | deletion commutes with concatenation, so survivors keep their order |
| TodoLists.DeleteIdempotent | TodoApi/Repositories/TodoRepository.cs:74-78 | deleting twice equals deleting once |
| TodoLists.DeleteAbsent | TodoApi/Repositories/TodoRepository.cs:74-78 | deleting an absent id leaves the list unchanged |
| TodoLists.DeleteUniqueRemovesOne | TodoApi/Repositories/TodoRepository.cs:74-78 | with unique ids, deleting a stored id removes exactly the item at its index |
| TodoLists.DeleteKeepsUniqueIds | TodoApi/Repositories/TodoRepository.cs:74-78 | deletion keeps ids unique |
| TodoLists.SetCompletionKeepsIndices | TodoApi/Models/TodoRepository.cs:66-86 | the status edit changes no id, so every lookup index is unchanged |
| TodoLists.SetCompletionLastWins | TodoApi/Models/TodoRepository.cs:66-86 | two status edits of the same id equal the last one alone |
| TodoLists.GetAfterSetCompletion | TodoApi/Models/TodoRepository.cs:66-86 | after a status edit of a stored id, `Get` returns the item with only its flag changed |
| Repositories.TodoRepository.constructor | TodoApi/Repositories/TodoRepository.cs:10-16 | the store opens over the given file with nothing saved yet |
| Repositories.TodoRepository.Load | TodoApi/Repositories/TodoRepository.cs:19-38 | the loaded list is the guarded load of the file; a non-empty list came from the file's text |
| Repositories.TodoRepository.Save | TodoApi/Repositories/TodoRepository.cs:41-45 | the file holds the serialised list, one more write is counted, and the list loads back unchanged |
| Repositories.TodoRepository.GetAll | TodoApi/Repositories/TodoRepository.cs:48 | the stored list, in stored order |
| Repositories.TodoRepository.Get | TodoApi/Repositories/TodoRepository.cs:51 | the first stored item with the id; `None` exactly when no stored item has it |
| Repositories.TodoRepository.Add | TodoApi/Repositories/TodoRepository.cs:54-59 | the stored list becomes the old list with the item appended, and one write happens |
| Repositories.TodoRepository.Update | TodoApi/Repositories/TodoRepository.cs:62-71 | the stored list becomes the replacement; when the id is absent, the file is untouched and nothing is written |
| Repositories.TodoRepository.Delete | TodoApi/Repositories/TodoRepository.cs:74-78 | the stored list loses every item with the id, and the file is written even when nothing was removed |
| Models.TodoRepository.constructor | TodoApi/Models/TodoRepository.cs:9-15 | the store opens over the given file with nothing saved yet |
| Models.TodoRepository.Load | TodoApi/Models/TodoRepository.cs:17-31 | the loaded list is the unguarded load of the file |
| Models.TodoRepository.Save | TodoApi/Models/TodoRepository.cs:33-37 | the file holds the serialised list and loads back unchanged |
| Models.TodoRepository.GetAll | TodoApi/Models/TodoRepository.cs:39 | the stored list |
| Models.TodoRepository.Get | TodoApi/Models/TodoRepository.cs:41 | the first stored item with the id, or `None` exactly when no stored item has it |
| Models.TodoRepository.Add | TodoApi/Models/TodoRepository.cs:43-48 | the item is appended and one write happens |
| Models.TodoRepository.Update | TodoApi/Models/TodoRepository.cs:50-59 | replacement by id; a missing id writes nothing |
| Models.TodoRepository.Delete | TodoApi/Models/TodoRepository.cs:61-65 | every item with the id is removed, and the file is always written |
| Models.TodoRepository.SetToCompleted | TodoApi/Models/TodoRepository.cs:66-75 | the first item with the id is marked completed; a missing id writes nothing |
| Models.TodoRepository.SetToInProgress | TodoApi/Models/TodoRepository.cs:77-86 | the first item with the id is marked not completed; a missing id writes nothing |
| Ordering.KeyLeTotal | TodoApi/Controller/TodoController.cs:46-63 | every sort key orders any two items one way or the other |
| Ordering.KeyLeTransitive | TodoApi/Controller/TodoController.cs:46-63 | every sort key's order is transitive |
| Ordering.KeyLeBothWays | TodoApi/Controller/TodoController.cs:46-63 | items ordered both ways on a key carry the same key value |
| Ordering.PrecedesTotal | TodoApi/Controller/TodoController.cs:46-63 | the same totality in both directions |
| Ordering.PrecedesTransitive | TodoApi/Controller/TodoController.cs:46-63 | the same transitivity in both directions |
| Ordering.PrecedesBothWays | TodoApi/Controller/TodoController.cs:46-63 | mutual precedence means equal keys, in both directions |
| Ordering.Insert | TodoApi/Controller/TodoController.cs:46-63 | insertion adds exactly the one item to the multiset |
| Ordering.SortBy | TodoApi/Controller/TodoController.cs:46-63 | the sort is a permutation of its input |
| Ordering.InsertSorted | TodoApi/Controller/TodoController.cs:46-63 | inserting into a sorted list keeps it sorted |
| Ordering.SortBySorted | TodoApi/Controller/TodoController.cs:46-63 | `OrderBy`/`OrderByDescending` output is sorted on the key in the chosen direction |
| Ordering.InsertStable | TodoApi/Controller/TodoController.cs:46-63 | insertion puts the item ahead of its key class and moves nothing else within a class |
| Ordering.SortByStable | TodoApi/Controller/TodoController.cs:46-63 | the sort is stable: within every key class the input order is kept |
| Ordering.SortedClassesDetermine | TodoApi/Controller/TodoController.cs:46-63 | two sorted lists that agree within every key class are equal |
| Ordering.StableSortUnique | TodoApi/Controller/TodoController.cs:46-63 | the sort is the only sorted, class-order-preserving arrangement of its input |
| TodoQuery.FilteredIsSixFilters | TodoApi/Controller/TodoController.cs:27-43 | each skipped filter step is a filter that keeps everything |
| TodoQuery.FilteredIsConjunction | TodoApi/Controller/TodoController.cs:27-43 | the conditional chain of filters equals one filter by the conjunction of all six tests |
| TodoQuery.SortKeyRecognition | TodoApi/Controller/TodoController.cs:45-63 | an absent `sortBy` sorts by creation time; each recognised name, in any case, selects its key, in both directions; every other name sorts by creation time |
| TodoQuery.DescendingExactlyForDesc | TodoApi/Controller/TodoController.cs:40 | the sort is descending exactly when `sortOrder` is "desc" in some case; an absent value is ascending |
| TodoController.GetAll | TodoApi/Controller/TodoController.cs:13-69 | the count equals the length of the data, and the data is a permutation of the matching items |
| TodoController.GetAllContents | TodoApi/Controller/TodoController.cs:26-43 | an item is listed exactly when it is stored and passes every supplied filter, as often as it is stored |
| TodoController.GetAllCount | TodoApi/Controller/TodoController.cs:65-69 | the count is the number of matching items, which is at most the number stored |
| TodoController.GetAllSorted | TodoApi/Controller/TodoController.cs:45-63 | the data is sorted on the selected key in the selected direction |
| TodoController.GetAllStable | TodoApi/Controller/TodoController.cs:45-63 | items with equal keys keep their stored order |
| TodoController.GetAllIsTheStableSort | TodoApi/Controller/TodoController.cs:26-69 | the data is the unique sorted, stable arrangement of the matching items |
| TodoController.DueBoundsExcludeUndated | TodoApi/Controller/TodoController.cs:29-32 | once a due bound is given, only items with a due date inside the inclusive bounds are listed |
| TodoController.CreatedBoundsKeepInRange | TodoApi/Controller/TodoController.cs:33-36 | when no completion, due-date or title filter is given, a stored item created within the inclusive creation bounds is listed |
| TodoController.BlankTitleFiltersNothing | TodoApi/Controller/TodoController.cs:42-43 | a blank or white-space title parameter lists exactly what no title parameter lists |
| TodoController.CompletionAscendingOpenFirst | TodoApi/Controller/TodoController.cs:54-55 | sorting by completion ascending lists every open item before every completed one |
| TodoController.Get | TodoApi/Controller/TodoController.cs:83-91 | `NotFound` exactly when no stored item has the id; otherwise `Ok` with the first stored item carrying the id, as `FirstOrDefault` picks it |
| TodoController.Create | TodoApi/Controller/TodoController.cs:94-98 | `CreatedAt` naming the item's id, and the store gains the item at its end |
| TodoController.Update | TodoApi/Controller/TodoController.cs:101-109 | `BadRequest` with the store untouched when the ids differ; otherwise `NoContent` with the store's first item carrying the id replaced, and the store unchanged when the id is absent |
| TodoController.Delete | TodoApi/Controller/TodoController.cs:112-116 | always `NoContent`, and the store is the stored list without every item carrying the id |
| TodoController.CreateThenGet | TodoApi/Controller/TodoController.cs:83-98 | an item created with a fresh id is what `Get` returns |
| TodoController.CreateAcceptsInvalidTitle | TodoApi/Controller/TodoController.cs:94-98 | an item whose title breaks its declared constraint is still created |
| TodoController.UpdateThenGet | TodoApi/Controller/TodoController.cs:83-109 | after updating a stored id, `Get` returns the new item |
| TodoController.DeleteTwice | TodoApi/Controller/TodoController.cs:83-116 | after a delete `Get` is `NotFound`, and a second delete changes nothing |
| ControllerScenarios.DueRangeScenario | TodoApi.Tests/UnitTest1.cs:203-231 | items due on days 1, 5 and 10, queried for days 2 to 8, list only the day-5 item |
| ControllerScenarios.TitleFilterScenario | TodoApi.Tests/UnitTest1.cs:175-201 | the "Buy" filter lists both "Buy …" items with count 2 and drops "Clean house" |
| ControllerScenarios.TitleSortScenario | TodoApi.Tests/UnitTest1.cs:295-319 | "Zebra", "Apple", "Monkey" sorted by title ascending are listed Apple, Monkey, Zebra |
| ControllerScenarios.CreatedDescendingScenario | TodoApi.Tests/UnitTest1.cs:403-428 | sorting by `createdAt` descending lists New, Middle, Old |
| ControllerScenarios.InvalidSortFieldScenario | TodoApi.Tests/UnitTest1.cs:430-456 | an unknown sort field sorts by creation time ascending |

## Left out

- The file system and `System.Text.Json` are not modelled. The data file is a value:
  missing, unreadable, or some text. The deserialiser and serialiser are functions
  given to the repository. Its constructor requires that every serialised list parses
  back to itself and that no list serialises to the empty text.
- Creating the `App_Data` directory in the repository constructors is left out, and so
  are the file path constant and the indented JSON formatting.
- Repositories.TodoRepository.Save: a write that throws (disk full, no permission) is
  not modelled. The model's `Save` always succeeds, while the source lets the
  exception escape to the caller.
- Models.TodoRepository.Save: the same; a throwing write is not modelled.
- TodoController.GetAll: the `catch` that answers status 500 with the exception message
  is not modelled. In the model every stored item is a complete record, so no step of
  the list action can throw. In the source a `null` element in the data file (the
  JSON `[null]`) makes the sort key selector throw on every list request, and a
  `null` title makes `Contains` throw.
- TodoController.Get: a `null` element in the loaded list can make `FirstOrDefault`,
  `FindIndex` and `Where` throw in the repositories: they throw when their predicate
  reaches it, which for `FirstOrDefault` and `FindIndex` means only when no earlier item
  matches. `Get`, `Update` and `Delete` do not catch it. The model has no such element, so these actions never fail.
- Persistence.ParseOutcome: a parsed list holds complete, non-null items, and parsing is
  a function of the text. The real deserialiser can yield `null` elements, and it gives
  an object that lacks `Id` or `CreatedAt` a fresh `Guid.NewGuid()` or
  `DateTime.UtcNow` on every load, so the same text can load differently twice.
- TodoItems.ValidTitle: the length bound counts characters (Unicode scalar values).
  `[StringLength(100)]` counts UTF-16 code units, so a title of 60 characters outside
  the Basic Multilingual Plane breaks the declared constraint but meets `ValidTitle`.
- Ordering.KeyLe: titles compare ordinally, character code by character code. The
  source's `OrderBy(t => t.Title)` uses the culture-sensitive default string comparer,
  whose collation is not modelled. For the unit-test titles the two orders agree.
- Text.ToLower: lower-casing and case-insensitive comparison fold only ASCII `A`–`Z`.
  `string.ToLower()` is culture-sensitive, and `OrdinalIgnoreCase` folds all of Unicode.
  This matters for non-ASCII sort field names, sort orders and titles. It also
  matters for ASCII under a Turkish or Azerbaijani current culture: there
  `sortBy.ToLower()` maps `I` to the dotless `ı`, so in the source `IsCompleted` or
  `TITLE` falls back to sorting by creation time, while `ParseSortKey` selects the
  completion or title key.
- Identifiers are 128-bit values, and only their equality is used. `Guid.NewGuid()` and
  `DateTime.UtcNow` in the record's initialisers are parameters of `NewTodoItem`.
- Dates are `DateTime` tick counts. Time zones and `DateTimeKind` are not modelled;
  comparisons compare ticks, as `DateTime` comparison does.
- Concurrent requests are not modelled. Two requests that interleave their
  load-edit-save steps can lose an update in the source; the model runs one method at
  a time.
- HTTP routing, model binding, the `[Required]`/`[StringLength]` validation that
  `[ApiController]` would run before an action, dependency injection, and the Blazor
  client are outside this model. The declared title constraint is stated as
  `TodoItems.ValidTitle`. The actions do not check it themselves.
- The controller is modelled over the list its repository returns, not over a
  repository object. Each mutating action's resulting `store` is the contents that the
  shipped repository's methods ensure; the test mock's do-nothing `Add`, `Update` and
  `Delete` are not modelled.
- Models/TodoRepository.cs is declared in namespace `TodoApp.Models`, not
  `TodoApi.Models`. The model keeps it as a module of its own, `Models`.
