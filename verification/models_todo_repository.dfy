/** The second copy of the file-backed store, TodoApi/Models/TodoRepository.cs. It
    differs from the first in its `Load`, which hands an empty file to the parser, and
    in two extra operations that set an item's completion flag in place. */
module Models {
  import opened Wrappers
  import opened TodoItems
  import opened TodoLists
  import opened Persistence

  class TodoRepository {
    /** The data file. */
    var file: FileContents
    /** `JsonSerializer.Deserialize<List<TodoItem>>`. */
    const parse: string -> ParseOutcome
    /** `JsonSerializer.Serialize`. */
    const serialize: seq<TodoItem> -> string
    /** How many times the file has been written. */
    ghost var saves: nat

    ghost predicate Valid() {
      RoundTrip(parse, serialize)
    }

    /** The list a `Load` would return now. */
    function Contents(): seq<TodoItem>
      reads this
    {
      LoadDirect(file, parse)
    }

    /** Opens the store over the given file. Creating the data directory is not modelled. */
    constructor (file: FileContents, parse: string -> ParseOutcome, serialize: seq<TodoItem> -> string)
      requires RoundTrip(parse, serialize)
      ensures Valid()
      ensures this.file == file && this.parse == parse && this.serialize == serialize
      ensures saves == 0
    {
      this.file := file;
      this.parse := parse;
      this.serialize := serialize;
      saves := 0;
    }

    /** Reads the file; every failure yields the empty list and nothing is raised. */
    method Load() returns (todos: seq<TodoItem>)
      ensures todos == Contents()
      ensures todos != [] ==> file.Text? && parse(file.json) == Parsed(todos)
    {
      todos := Contents();
    }

    /** Overwrites the file with the serialised list. */
    method Save(todos: seq<TodoItem>)
      requires Valid()
      modifies this
      ensures file == Text(serialize(todos)) && saves == old(saves) + 1
      ensures Contents() == todos
    {
      file := Text(serialize(todos));
      saves := saves + 1;
      SavedListLoadsBack(parse, serialize, todos);
    }

    /** The stored list, unfiltered and in stored order. */
    method GetAll() returns (todos: seq<TodoItem>)
      ensures todos == Contents()
    {
      todos := Load();
    }

    /** The first stored item with identifier `id`, or `None`. */
    method Get(id: Guid) returns (todo: Option<TodoItem>)
      ensures todo == FirstWithId(Contents(), id)
      ensures todo == None <==> forall t :: t in Contents() ==> t.id != id
    {
      var todos := Load();
      todo := FirstWithId(todos, id);
    }

    /** Appends `todo` to the stored list. */
    method Add(todo: TodoItem)
      requires Valid()
      modifies this
      ensures Contents() == old(Contents()) + [todo]
      ensures saves == old(saves) + 1
    {
      var todos := Load();
      todos := todos + [todo];
      Save(todos);
    }

    /** Replaces the first stored item with `todo`'s identifier; when there is none,
        neither the list nor the file changes and nothing is written. */
    method Update(todo: TodoItem)
      requires Valid()
      modifies this
      ensures Contents() == Replaced(old(Contents()), todo)
      ensures FindIndex(old(Contents()), todo.id) == -1 ==> file == old(file) && saves == old(saves)
      ensures FindIndex(old(Contents()), todo.id) >= 0 ==> saves == old(saves) + 1
    {
      var todos := Load();
      var index := FindIndex(todos, todo.id);
      if index != -1 {
        todos := todos[index := todo];
        Save(todos);
      }
    }

    /** Removes every stored item with identifier `id` and writes the rest back, even
        when nothing was removed. */
    method Delete(id: Guid)
      requires Valid()
      modifies this
      ensures Contents() == Without(old(Contents()), id)
      ensures saves == old(saves) + 1
    {
      var todos := Load();
      todos := Without(todos, id);
      Save(todos);
    }

    /** Marks the first item with identifier `id` as completed; when there is none,
        neither the list nor the file changes and nothing is written. */
    method SetToCompleted(id: Guid)
      requires Valid()
      modifies this
      ensures Contents() == SetCompletion(old(Contents()), id, true)
      ensures FindIndex(old(Contents()), id) == -1 ==> file == old(file) && saves == old(saves)
      ensures FindIndex(old(Contents()), id) >= 0 ==> saves == old(saves) + 1
    {
      var todos := Load();
      var index := FindIndex(todos, id);
      if index != -1 {
        todos := todos[index := todos[index].(isCompleted := true)];
        Save(todos);
      }
    }

    /** Marks the first item with identifier `id` as in progress; when there is none,
        neither the list nor the file changes and nothing is written. */
    method SetToInProgress(id: Guid)
      requires Valid()
      modifies this
      ensures Contents() == SetCompletion(old(Contents()), id, false)
      ensures FindIndex(old(Contents()), id) == -1 ==> file == old(file) && saves == old(saves)
      ensures FindIndex(old(Contents()), id) >= 0 ==> saves == old(saves) + 1
    {
      var todos := Load();
      var index := FindIndex(todos, id);
      if index != -1 {
        todos := todos[index := todos[index].(isCompleted := false)];
        Save(todos);
      }
    }
  }
}
