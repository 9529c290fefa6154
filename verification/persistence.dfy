/** The JSON file behind both repositories. The file system and `System.Text.Json` are
    not modelled: the file is a value (absent, unreadable, or some text), and
    `JsonSerializer.Deserialize` / `Serialize` are functions the repositories are given. */
module Persistence {
  import opened TodoItems

  /** What `File.Exists` and `File.ReadAllText` find at the data file's path. */
  datatype FileContents = Missing | Unreadable | Text(json: string)

  /** What deserialising a text as `List<TodoItem>` gives: a list, the JSON literal
      `null`, or an exception (malformed or mistyped JSON). A parsed list holds complete
      records; `null` elements and initialiser-filled missing fields are not modelled. */
  datatype ParseOutcome = Parsed(items: seq<TodoItem>) | JsonNull | Malformed

  /** The serialiser and deserialiser agree: serialising never produces the empty text
      (the list `[]` serialises to `[]`), and every serialised list parses back to
      itself. */
  ghost predicate RoundTrip(parse: string -> ParseOutcome, serialize: seq<TodoItem> -> string) {
    forall s :: serialize(s) != [] && parse(serialize(s)) == Parsed(s)
  }

  /** `Load` of TodoApi/Repositories/TodoRepository.cs: a missing file, an unreadable
      file, an empty text, the literal `null` and a parse failure all give the empty
      list; only a successfully parsed non-empty text gives its list. */
  function LoadGuarded(file: FileContents, parse: string -> ParseOutcome): (r: seq<TodoItem>)
    ensures r != [] ==> file.Text? && file.json != [] && parse(file.json) == Parsed(r)
    ensures file.Text? && file.json != [] && parse(file.json).Parsed? ==> r == parse(file.json).items
  {
    match file
    case Missing => []
    case Unreadable => []
    case Text(json) =>
      if json == [] then []
      else
        match parse(json)
        case Parsed(items) => items
        case JsonNull => []
        case Malformed => []
  }

  /** `Load` of TodoApi/Models/TodoRepository.cs: the same, except that an empty text is
      handed to the parser instead of being answered with the empty list directly. */
  function LoadDirect(file: FileContents, parse: string -> ParseOutcome): (r: seq<TodoItem>)
    ensures r != [] ==> file.Text? && parse(file.json) == Parsed(r)
    ensures file.Text? && parse(file.json).Parsed? ==> r == parse(file.json).items
  {
    match file
    case Missing => []
    case Unreadable => []
    case Text(json) =>
      match parse(json)
      case Parsed(items) => items
      case JsonNull => []
      case Malformed => []
  }

  /** The two load policies differ only on the empty text, so they agree whenever the
      parser does not turn the empty text into a non-empty list (the real deserialiser
      rejects it). */
  lemma LoadPoliciesAgree(file: FileContents, parse: string -> ParseOutcome)
    requires parse([]).Parsed? ==> parse([]).items == []
    ensures LoadGuarded(file, parse) == LoadDirect(file, parse)
  {
  }

  /** What was saved is what the next load returns, under either policy. */
  lemma SavedListLoadsBack(parse: string -> ParseOutcome, serialize: seq<TodoItem> -> string, s: seq<TodoItem>)
    requires RoundTrip(parse, serialize)
    ensures LoadGuarded(Text(serialize(s)), parse) == s
    ensures LoadDirect(Text(serialize(s)), parse) == s
  {
    assert serialize(s) != [] && parse(serialize(s)) == Parsed(s);
  }
}
