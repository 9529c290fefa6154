/** The todo record (TodoApi/Models/TodoItem.cs). Identifiers are 128-bit values and
    dates are `DateTime` ticks; the fresh identifier (`Guid.NewGuid()`) and the clock
    (`DateTime.UtcNow`) that the record's initialisers consult are parameters here. */
module TodoItems {
  import opened Wrappers
  import Text

  /** A 128-bit unique identifier. Only equality is ever used. */
  type Guid = bv128

  /** `DateTime.MaxValue.Ticks`. */
  const MaxTicks: int := 3_155_378_975_999_999_999

  /** One day in 100-nanosecond ticks. */
  const TicksPerDay: int := 864_000_000_000

  /** A `DateTime`, as its tick count. Comparisons of `DateTime` values compare ticks. */
  type Ticks = t: int | 0 <= t <= MaxTicks

  /** The declared `StringLength` bound on a title. */
  const MaxTitleLength: nat := 100

  datatype TodoItem = TodoItem(
    id: Guid,
    title: string,
    description: Option<string>,
    dueDate: Option<Ticks>,
    isCompleted: bool,
    createdAt: Ticks)

  /** `new TodoItem()`: every property at its initialiser, given the identifier and
      the current time those initialisers would produce. */
  function NewTodoItem(id: Guid, now: Ticks): (t: TodoItem)
    ensures t.id == id && t.createdAt == now
    ensures t.title == "" && t.description == None && t.dueDate == None
    ensures !t.isCompleted
  {
    TodoItem(id, "", None, None, false, now)
  }

  /** The title constraint the record declares: `[Required]` (which rejects empty and
      white-space-only strings) and `[StringLength(100)]` (at most 100 characters). */
  predicate ValidTitle(title: string) {
    !Text.IsNullOrWhiteSpace(Some(title)) && |title| <= MaxTitleLength
  }

  /** A freshly constructed item does not meet its own declared title constraint:
      the default title is empty. */
  lemma NewTodoItemHasInvalidTitle(id: Guid, now: Ticks)
    ensures !ValidTitle(NewTodoItem(id, now).title)
  {
  }
}
