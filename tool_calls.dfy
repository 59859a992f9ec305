/**
 * The presentation decisions of src/components/thread/messages/tool-calls.tsx:
 * which values count as complex, the argument rows of each tool call, and for
 * a tool result whether its content is JSON, how it is truncated, which
 * table rows appear and whether the expand/collapse toggle is shown.
 *
 * `JSON.parse`, `JSON.stringify(_, null, 2)` and the number-to-text
 * conversion of `String(n)` are library calls; they are fields of `JsonLib`
 * and nothing is assumed about them.  A parse that throws is `None`.
 */
module ToolCalls {
  import opened Wrappers
  import opened Text

  /** A value produced by `JSON.parse`; object entries are in property order. */
  datatype Json =
    | Null
    | Bool(b: bool)
    | Num(n: real)
    | Str(s: string)
    | Arr(items: seq<Json>)
    | Obj(entries: seq<(string, Json)>)

  datatype JsonLib = JsonLib(
    parse: string -> Option<Json>,
    pretty: Json -> string,
    numberText: real -> string)

  /** Lines and characters above which a prose result is truncated, and rows of a collapsed array. */
  const MaxLines: nat := 4
  const MaxChars: nat := 500
  const CollapsedRows: nat := 5
  const Ellipsis: string := "..."

  /** `useState(true)`: a tool result starts expanded. */
  const InitiallyExpanded: bool := true

  /** JavaScript's `typeof` on a parsed value; note `typeof null` is `"object"`. */
  function TypeOf(v: Json): string {
    match v
    case Null => "object"
    case Bool(_) => "boolean"
    case Num(_) => "number"
    case Str(_) => "string"
    case Arr(_) => "object"
    case Obj(_) => "object"
  }

  /**
   * `isComplexValue`: `Array.isArray(value) || (typeof value === "object" && value !== null)`.
   * It holds exactly for arrays and objects, never for null or other scalars.
   */
  function IsComplexValue(v: Json): (r: bool)
    ensures r <==> v.Arr? || v.Obj?
  {
    v.Arr? || (TypeOf(v) == "object" && v != Null)
  }

  /** A table cell: pretty JSON in a code block, or plain text. */
  datatype Cell = JsonBlock(json: string) | Plain(text: string)

  /**
   * One value cell: a complex value as `JSON.stringify(value, null, 2)`,
   * anything else as `String(value)`.
   */
  function CellOf(v: Json, lib: JsonLib): (r: Cell)
    ensures r.JsonBlock? <==> IsComplexValue(v)
    ensures r.JsonBlock? ==> r.json == lib.pretty(v)
    ensures v.Str? ==> r == Plain(v.s)
    ensures v.Null? ==> r == Plain("null")
    ensures v.Bool? ==> r == Plain(if v.b then "true" else "false")
    ensures v.Num? ==> r == Plain(lib.numberText(v.n))
  {
    if IsComplexValue(v) then JsonBlock(lib.pretty(v)) else Plain(ScalarText(v, lib))
  }

  /** `String(value)` on a scalar. */
  function ScalarText(v: Json, lib: JsonLib): string
    requires !IsComplexValue(v)
  {
    match v
    case Null => "null"
    case Bool(b) => if b then "true" else "false"
    case Num(n) => lib.numberText(n)
    case Str(s) => s
  }

  /** A row key: an array index or an object property name. */
  datatype Key = Index(i: nat) | Name(name: string)

  datatype Row = Row(key: Key, cell: Cell)

  /** One row per entry, in entry order, keyed by the entry's name. */
  function EntryRows(entries: seq<(string, Json)>, lib: JsonLib): (r: seq<Row>)
    ensures |r| == |entries|
    ensures forall i :: 0 <= i < |r| ==> r[i] == Row(Name(entries[i].0), CellOf(entries[i].1, lib))
  {
    if |entries| == 0 then []
    else [Row(Name(entries[0].0), CellOf(entries[0].1, lib))] + EntryRows(entries[1..], lib)
  }

  /** One row per item, in order, keyed by its index counted from `first`. */
  function ItemRows(items: seq<Json>, first: nat, lib: JsonLib): (r: seq<Row>)
    ensures |r| == |items|
    ensures forall i :: 0 <= i < |r| ==> r[i] == Row(Index(first + i), CellOf(items[i], lib))
  {
    if |items| == 0 then []
    else [Row(Index(first), CellOf(items[0], lib))] + ItemRows(items[1..], first + 1, lib)
  }

  /** A tool call of an AI message. */
  datatype ToolCall = ToolCall(name: string, id: Option<string>, args: seq<(string, Json)>)

  /** The arguments of a call: the `{}` indicator, or a table. */
  datatype ArgsView = EmptyArgs | ArgsTable(rows: seq<Row>)

  /** One rendered call: its name, the id when it is non-empty, and its arguments. */
  datatype CallView = CallView(name: string, id: Option<string>, args: ArgsView)

  /** A JavaScript string is truthy when it is non-empty. */
  function Truthy(s: Option<string>): Option<string> {
    if s.Some? && |s.value| > 0 then s else None
  }

  /** One call of `ToolCalls`. */
  function CallViewOf(call: ToolCall, lib: JsonLib): (r: CallView)
    ensures r.name == call.name
    ensures r.id.Some? <==> call.id.Some? && call.id.value != ""
    ensures r.id.Some? ==> r.id == call.id
    ensures r.args.EmptyArgs? <==> |call.args| == 0
    ensures r.args.ArgsTable? ==> |r.args.rows| == |call.args|
    ensures r.args.ArgsTable? ==> forall i :: 0 <= i < |call.args| ==>
      r.args.rows[i] == Row(Name(call.args[i].0), CellOf(call.args[i].1, lib))
  {
    var args := if |call.args| > 0 then ArgsTable(EntryRows(call.args, lib)) else EmptyArgs;
    CallView(call.name, Truthy(call.id), args)
  }

  /**
   * `ToolCalls`: nothing when the list is absent or empty, otherwise one view
   * per call, in order.
   */
  function ToolCallsView(toolCalls: Option<seq<ToolCall>>, lib: JsonLib): (r: Option<seq<CallView>>)
    ensures r.None? <==> toolCalls.None? || |toolCalls.value| == 0
    ensures r.Some? ==> |r.value| == |toolCalls.value|
    ensures r.Some? ==> forall i :: 0 <= i < |r.value| ==> r.value[i] == CallViewOf(toolCalls.value[i], lib)
  {
    match toolCalls
    case None => None
    case Some(calls) =>
      if |calls| == 0 then None
      else Some(seq(|calls|, i requires 0 <= i < |calls| => CallViewOf(calls[i], lib)))
  }

  /** Message content: a string, or something else of which only `String(content)` is used. */
  datatype Content = StringContent(text: string) | NonText(shown: string)

  datatype ToolMessage = ToolMessage(name: Option<string>, toolCallId: Option<string>, content: Content)

  /**
   * The parsed content when `isJsonContent` holds: the content is a string
   * that parses to a complex value.  A throwing parse and a scalar result both
   * give `None`; the exception never escapes.
   */
  function JsonContent(content: Content, lib: JsonLib): (r: Option<Json>)
    ensures r.Some? <==> content.StringContent? && lib.parse(content.text).Some? && IsComplexValue(lib.parse(content.text).value)
    ensures r.Some? ==> r == lib.parse(content.text) && IsComplexValue(r.value)
  {
    match content
    case StringContent(text) =>
      (match lib.parse(text)
       case Some(parsed) => if IsComplexValue(parsed) then Some(parsed) else None
       case None => None)
    case NonText(_) => None
  }

  /**
   * `contentStr`: the pretty JSON when the content is JSON, otherwise the raw
   * content; a string that parses to a scalar such as `"42"` stays as it was.
   */
  function ContentStr(content: Content, lib: JsonLib): (r: string)
    ensures JsonContent(content, lib).Some? ==> r == lib.pretty(JsonContent(content, lib).value)
    ensures JsonContent(content, lib).None? && content.StringContent? ==> r == content.text
    ensures content.NonText? ==> r == content.shown
  {
    match JsonContent(content, lib)
    case Some(parsed) => lib.pretty(parsed)
    case None => if content.StringContent? then content.text else content.shown
  }

  /** `contentLines.length > 4 || contentStr.length > 500`: more than four lines means at least four newlines. */
  function ShouldTruncate(s: string): (r: bool)
    ensures r <==> Count(s, '\n') >= MaxLines || |s| > MaxChars
  {
    SplitCount(s, '\n');
    |Split(s, '\n')| > MaxLines || |s| > MaxChars
  }

  /**
   * `displayedContent`.  Expanded, or short enough, it is the content itself.
   * Collapsed and truncated it is a prefix of the content followed by `...`:
   * over 500 characters, the first 500 characters (503 in all); otherwise the
   * first four lines, so that its lines are those four and a line `...`.
   */
  function Displayed(s: string, expanded: bool): (r: string)
    ensures expanded || !ShouldTruncate(s) ==> r == s
    ensures !expanded && ShouldTruncate(s) ==>
      |r| >= |Ellipsis| && r[|r| - |Ellipsis|..] == Ellipsis && r[..|r| - |Ellipsis|] <= s
    ensures !expanded && |s| > MaxChars ==> |r| == MaxChars + |Ellipsis| && r[..MaxChars] == s[..MaxChars]
    ensures !expanded && ShouldTruncate(s) && |s| <= MaxChars ==>
      Split(r, '\n') == Split(s, '\n')[..MaxLines] + [Ellipsis]
  {
    var lines := Split(s, '\n');
    if ShouldTruncate(s) && !expanded then
      if |s| > MaxChars then s[..MaxChars] + Ellipsis
      else
        var head := Join(lines[..MaxLines], '\n');
        JoinedPiecesArePrefix(s, '\n', MaxLines);
        SplitJoinThen(lines[..MaxLines], '\n', Ellipsis);
        SplitNoSeparator(Ellipsis, '\n');
        assert head + "\n..." == head + ['\n'] + Ellipsis;
        head + "\n..."
    else s
  }

  /**
   * The table rows of JSON content: an array shows its first five items when
   * collapsed and all of them when expanded, keyed by index; an object shows
   * all its entries either way, keyed by name.
   */
  function JsonRows(parsed: Json, expanded: bool, lib: JsonLib): (r: seq<Row>)
    requires IsComplexValue(parsed)
    ensures parsed.Arr? ==> |r| == (if expanded || |parsed.items| <= CollapsedRows then |parsed.items| else CollapsedRows)
    ensures parsed.Arr? ==> forall i :: 0 <= i < |r| ==> r[i] == Row(Index(i), CellOf(parsed.items[i], lib))
    ensures parsed.Obj? ==> r == EntryRows(parsed.entries, lib)
  {
    match parsed
    case Arr(items) =>
      var shown := if expanded then items else items[..if |items| < CollapsedRows then |items| else CollapsedRows];
      ItemRows(shown, 0, lib)
    case Obj(entries) => EntryRows(entries, lib)
  }

  /** What the result body shows: a table for JSON, otherwise the (possibly truncated) content as markdown. */
  datatype Body = Table(rows: seq<Row>) | Prose(markdown: string)

  /** The rendered result: its name and call id when non-empty, the body, and whether the toggle shows. */
  datatype ResultView = ResultView(name: Option<string>, callId: Option<string>, body: Body, toggle: bool)

  /** `ToolResult` for `message` with `isExpanded == expanded`. */
  function ResultViewOf(message: ToolMessage, expanded: bool, lib: JsonLib): (r: ResultView)
    ensures r.body.Table? <==> JsonContent(message.content, lib).Some?
    ensures r.body.Table? ==> r.body.rows == JsonRows(JsonContent(message.content, lib).value, expanded, lib)
    ensures r.body.Prose? ==> r.body.markdown == Displayed(ContentStr(message.content, lib), expanded)
    ensures r.toggle <==>
      || (ShouldTruncate(ContentStr(message.content, lib)) && JsonContent(message.content, lib).None?)
      || (JsonContent(message.content, lib).Some? && JsonContent(message.content, lib).value.Arr?
          && |JsonContent(message.content, lib).value.items| > CollapsedRows)
    ensures r.name == Truthy(message.name) && r.callId == Truthy(message.toolCallId)
  {
    var parsed := JsonContent(message.content, lib);
    var contentStr := ContentStr(message.content, lib);
    var truncate := ShouldTruncate(contentStr);
    var body := if parsed.Some? then Table(JsonRows(parsed.value, expanded, lib))
                else Prose(Displayed(contentStr, expanded));
    var toggle := (truncate && parsed.None?)
                  || (parsed.Some? && parsed.value.Arr? && |parsed.value.items| > CollapsedRows);
    ResultView(Truthy(message.name), Truthy(message.toolCallId), body, toggle)
  }

  /** The result panel: the message and its one piece of state. */
  datatype ResultPanel = ResultPanel(message: ToolMessage, expanded: bool)

  /** A panel as first rendered. */
  function InitialPanel(message: ToolMessage): (r: ResultPanel)
    ensures r.message == message && r.expanded
  {
    ResultPanel(message, InitiallyExpanded)
  }

  /** A click on the toggle flips `isExpanded` and changes nothing else. */
  function Click(p: ResultPanel): (r: ResultPanel)
    ensures r.message == p.message && r.expanded == !p.expanded
  {
    p.(expanded := !p.expanded)
  }

  /** Whether the toggle shows does not depend on the flag, so a click never hides it. */
  lemma ToggleStaysAfterClick(p: ResultPanel, lib: JsonLib)
    ensures ResultViewOf(Click(p).message, Click(p).expanded, lib).toggle
         == ResultViewOf(p.message, p.expanded, lib).toggle
  {
  }

  /**
   * When the toggle is hidden, expanding and collapsing show the same thing:
   * nothing is ever hidden without a way to show it.
   */
  lemma NoToggleNothingHidden(message: ToolMessage, lib: JsonLib)
    requires !ResultViewOf(message, true, lib).toggle
    ensures ResultViewOf(message, true, lib) == ResultViewOf(message, false, lib)
  {
  }

  /** A JSON array longer than five rows shows fewer rows collapsed than expanded. */
  lemma CollapsedArrayHidesRows(message: ToolMessage, lib: JsonLib)
    requires JsonContent(message.content, lib).Some? && JsonContent(message.content, lib).value.Arr?
    requires |JsonContent(message.content, lib).value.items| > CollapsedRows
    ensures |ResultViewOf(message, false, lib).body.rows| == CollapsedRows
    ensures |ResultViewOf(message, true, lib).body.rows| == |JsonContent(message.content, lib).value.items|
    ensures ResultViewOf(message, false, lib).toggle
  {
  }

  /** A JSON object shows all its entries, expanded or not. */
  lemma ObjectRowsIgnoreExpanded(message: ToolMessage, lib: JsonLib)
    requires JsonContent(message.content, lib).Some? && JsonContent(message.content, lib).value.Obj?
    ensures ResultViewOf(message, false, lib).body == ResultViewOf(message, true, lib).body
    ensures |ResultViewOf(message, true, lib).body.rows| == |JsonContent(message.content, lib).value.entries|
  {
  }
}
