# Chat UI logic: streaming throttle, code blocks and tool-call presentation

This project models, in Dafny, the parts of a chat web interface's thread view
that carry behaviour rather than styling:

- **The streaming throttle** (`useThrottledValue`): the markdown view of a message
  being streamed shows a value that is meant to change at most once per interval
  (100 ms). One timer at most is pending, and when it fires it shows the
  freshest value, so the display never stays on a stale value. Module
  `Throttle` holds the hook, as the code is written, as a state machine of
  pure functions (`Step`, `Run`). The events are render, timer due and
  unmount. Class `Throttle.ThrottledValue` is the hook's mutable state, and
  each of its methods is proved to make the move the state machine describes.
  The lemmas prove that the convergence invariant holds. They also prove that
  the display is frozen after unmount and that it settles on the last value
  within one interval of the stream going quiet. The code as written can
  update twice at one instant. A corrected step (`StepCleared`, see
  "## Findings") also clears a pending timer on an immediate update, and for
  it the lemmas prove that updates come at most once per interval.
- **The `code` rule of the markdown renderer** (module `CodeBlock`): the language
  tag taken from the class name by `/language-(\w+)/`, the code text with one
  trailing newline removed, the choice between a fenced block with header and
  inline code, and the copy button's `isCopied` gate (class
  `CodeBlock.CopyButton`).
- **Tool calls and tool results** (module `ToolCalls`): `isComplexValue` over a
  JSON variant, the argument rows of each call, and for a result: JSON
  detection, the truncation rule (more than 4 lines or 500 characters), the
  collapsed text, the array rows shown (5 collapsed), and the toggle.
  `JSON.parse`, `JSON.stringify(_, null, 2)` and number-to-text are left
  uninterpreted (fields of `ToolCalls.JsonLib`); every property holds for any
  such functions.
- Module `Text` models JavaScript's `split`/`join` on one character, with both
  round trips, which the truncation properties rest on.

Time is a natural-number parameter of each event instead of `Date.now()`, and
timers are explicit events. A timer event fires the pending timer only if its
delay has elapsed and unmounting has not cleared it. React never renders an
unmounted component, so `ThrottledValue.Render` requires a mounted one. Strings are sequences of characters, one character
per UTF-16 code unit, so `length` and `slice` count characters.

Three behaviours of the code worth knowing:

- The immediate branch of the throttle's effect does not clear a pending timer
  (a textbook throttle would). That timer still fires and shows the latest
  value, but it can do so at the same instant as the immediate update, which
  breaks the once-per-interval promise. This is recorded under "## Findings".
  `Throttle.Effect`, `Step` and the class follow the code as written;
  `Throttle.StepCleared` is the corrected step.
- `lastUpdateTime` starts at 0, not at the time of the first value. The first
  value is shown immediately either way, because the display starts as that
  value.
- A second successful clipboard write does not extend the "copied" window. Every
  success schedules its own revert timer, and none is ever cleared, so the
  earliest one turns the indicator off.

## Model

| member | source | states |
|---|---|---|
| Throttle.MountShowsFirstValue | src/components/thread/markdown-text.tsx:20-45 | the first display is the first value; with `lastUpdateTime` at 0 a mount at `now >= interval` takes the immediate branch, an earlier one schedules a timer due at `interval`; the invariants, including "a pending timer is due one interval after the last update", hold from the start |
| Throttle.RenderDecision | src/components/thread/markdown-text.tsx:27-47 | a render with changed deps updates immediately (shows the value, records `now`, leaves a pending timer set with its due time) when at least one interval has passed; otherwise it leaves the display and `lastUpdateTime`, schedules a timer only if none is pending, with delay `interval - elapsed`, in (0, interval] when the clock has not gone back |
| Throttle.TimerShowsLatest | src/components/thread/markdown-text.tsx:24-46 | a firing timer shows the latest value at fire time, clears the pending marker and records the fire time |
| Throttle.StepKeepsPaced | src/components/thread/markdown-text.tsx:19 | corrected half of the Findings row: under `StepCleared` (the code with a pending timer cleared on an immediate update), with a fixed interval, each event keeps a pending timer due one interval after the last update; an update comes at least one interval after the last one and records its time; other events change neither the display nor that time |
| Throttle.UpdatesAtMostOncePerInterval | src/components/thread/markdown-text.tsx:19 | corrected half of the Findings row, the once-per-interval promise of the comment: under `StepCleared`, along any sequence of events with a fixed interval, every two updates of the display are at least one interval apart: at most one update per interval |
| Throttle.AsWrittenUpdatesTwiceAtOnce | src/components/thread/markdown-text.tsx:33-44 | as-written half of the Findings row: the code as written (`OnMount`, `Run`), mounted with "a" at 1000 and interval 100, then rendering "b" at 1050 and "c" and "d" at 1100, shows "c" and then, when the timer fires at 1100, "d": two updates at one instant |
| Throttle.ClearedTimerDefersSecondUpdate | src/components/thread/markdown-text.tsx:33-44 | under `RunCleared`, the same events show "c" at 1100 and "d" only when the new timer fires at 1200 |
| Throttle.StepShowsOnlyLatest | src/components/thread/markdown-text.tsx:27-47 | every event leaves the display alone or sets it to the latest value, never to an older one |
| Throttle.StepKeepsConverged | src/components/thread/markdown-text.tsx:21-56 | each event preserves "no timer pending implies display equals latest value" |
| Throttle.RunKeepsConverged | src/components/thread/markdown-text.tsx:21-56 | that invariant holds after any sequence of renders, timer events and unmounts |
| Throttle.UnmountFreezesDisplay | src/components/thread/markdown-text.tsx:50-55 | after unmount no sequence of events changes the display |
| Throttle.StepKeepsTimely | src/components/thread/markdown-text.tsx:29-45 | with a clock that does not go back and a fixed interval, the last update is in the past and a pending timer is due within one interval of it |
| Throttle.RunKeepsTimely | src/components/thread/markdown-text.tsx:29-45 | the same timing invariant along any monotone sequence of events |
| Throttle.SettlesWithinInterval | src/components/thread/markdown-text.tsx:20-47 | after any monotone stream with a fixed interval, one interval of quiet is enough for the display to show the last value received with no timer left pending |
| Throttle.ThrottledValue.constructor | src/components/thread/markdown-text.tsx:20-47 | mounting leaves the state `OnMount` describes: the display is the first value and the invariant holds |
| Throttle.ThrottledValue.RunEffect | src/components/thread/markdown-text.tsx:29-45 | the effect body makes exactly the move of `Effect`: an immediate update at least one interval after the last, otherwise a timer scheduled only when none is pending; a pending timer is left set either way |
| Throttle.ThrottledValue.Render | src/components/thread/markdown-text.tsx:27-47 | a re-render makes the move of `OnRender`, refreshes `latestValue`, keeps the invariant, shows either the old display or the new value, and keeps a pending timer set with its due time |
| Throttle.ThrottledValue.TimerDue | src/components/thread/markdown-text.tsx:40-44 | a due, uncleared timer shows `latestValue`, clears the marker and records the time; after unmount the display does not change |
| Throttle.ThrottledValue.Unmount | src/components/thread/markdown-text.tsx:50-55 | unmounting marks the timer cleared and leaves the display as it was |
| CodeBlock.WordRun | src/components/thread/markdown-text.tsx:256 | `\w+` is greedy: the result is a prefix of word characters followed by the end or a non-word character |
| CodeBlock.FindMatch | src/components/thread/markdown-text.tsx:256 | the result is the leftmost position where `language-` and a word character occur, or none if there is no such position |
| CodeBlock.LanguageTag | src/components/thread/markdown-text.tsx:256-259 | there is a tag iff the class name (or `""` when absent) matches; the tag is the non-empty maximal word run after the leftmost match, so `language-` plus the tag occurs in the class name |
| CodeBlock.StripTrailingNewline | src/components/thread/markdown-text.tsx:260 | the code text is a prefix of the input, at most one character shorter, and shorter exactly when the input ends in a newline |
| CodeBlock.StripRemovesOneNewline | src/components/thread/markdown-text.tsx:260 | a text ending in two newlines keeps one of them |
| CodeBlock.CodeRule | src/components/thread/markdown-text.tsx:248-286 | a fenced block with header is produced iff the class name matches; its language is the leftmost tag and its code is `StripTrailingNewline` of the children, that is the children less their final newline when they end in one; otherwise inline code with the same class and children |
| CodeBlock.CopyButton.constructor | src/components/thread/markdown-text.tsx:66-86 | the indicator starts off and the copied duration is 3000 ms |
| CodeBlock.CopyButton.OnCopy | src/components/thread/markdown-text.tsx:73-90 | a click starts a clipboard write of exactly the code iff the code is non-empty and the indicator is off; nothing else changes |
| CodeBlock.CopyButton.WriteSucceeded | src/components/thread/markdown-text.tsx:76-78 | a successful write turns the indicator on and schedules a revert `copiedDuration` later; the indicator is never on without a pending revert |
| CodeBlock.CopyButton.WriteFailed | src/components/thread/markdown-text.tsx:76 | a failed write changes nothing but the set of writes in flight |
| CodeBlock.CopyButton.RevertFires | src/components/thread/markdown-text.tsx:78 | a due revert timer turns the indicator off |
| ToolCalls.IsComplexValue | src/components/thread/messages/tool-calls.tsx:6-8 | true exactly for arrays and objects; false for null, strings, numbers and booleans |
| ToolCalls.CellOf | src/components/thread/messages/tool-calls.tsx:47-53 | a complex value becomes its pretty JSON in a code block; a string is shown as itself, null as `null`, a boolean as `true` or `false`, a number as its number text |
| ToolCalls.EntryRows | src/components/thread/messages/tool-calls.tsx:41-56 | one row per entry, in entry order, keyed by name |
| ToolCalls.ItemRows | src/components/thread/messages/tool-calls.tsx:131-134 | one row per array item, in order, keyed by its index |
| ToolCalls.CallViewOf | src/components/thread/messages/tool-calls.tsx:19-63 | a call shows its name, its id only when non-empty, the `{}` indicator iff it has no arguments, else one row per argument in order |
| ToolCalls.ToolCallsView | src/components/thread/messages/tool-calls.tsx:15-19 | nothing is rendered iff the list is absent or empty; otherwise one view per call in order |
| ToolCalls.JsonContent | src/components/thread/messages/tool-calls.tsx:74-85 | content is JSON iff it is a string that parses to a complex value; a failed parse or a scalar result gives plain content |
| ToolCalls.ContentStr | src/components/thread/messages/tool-calls.tsx:87-89 | JSON content is shown pretty-printed; otherwise the raw content, so a string parsing to a scalar stays unchanged |
| ToolCalls.ShouldTruncate | src/components/thread/messages/tool-calls.tsx:90-91 | truncation applies iff the content has at least four newlines (more than four lines) or more than 500 characters |
| ToolCalls.Displayed | src/components/thread/messages/tool-calls.tsx:90-97 | expanded or short content is shown whole; collapsed truncated content is a prefix of it plus `...`: 503 characters over 500, else exactly its first four lines and a `...` line |
| ToolCalls.JsonRows | src/components/thread/messages/tool-calls.tsx:126-134 | a JSON array shows its first 5 items collapsed and all expanded, keyed by index; an object shows all entries either way |
| ToolCalls.ResultViewOf | src/components/thread/messages/tool-calls.tsx:70-170 | a table iff the content is JSON, holding exactly the `JsonRows` of the parsed value for the current flag, else the displayed text; the toggle shows iff prose needs truncating or a JSON array has more than 5 items; name and call id shown when non-empty |
| ToolCalls.InitialPanel | src/components/thread/messages/tool-calls.tsx:72 | a result starts expanded |
| ToolCalls.Click | src/components/thread/messages/tool-calls.tsx:165 | a click flips `isExpanded` and nothing else |
| ToolCalls.ToggleStaysAfterClick | src/components/thread/messages/tool-calls.tsx:160-165 | whether the toggle shows does not depend on the flag |
| ToolCalls.NoToggleNothingHidden | src/components/thread/messages/tool-calls.tsx:90-163 | without a toggle, the collapsed and expanded views are the same, so nothing is hidden with no way to show it |
| ToolCalls.CollapsedArrayHidesRows | src/components/thread/messages/tool-calls.tsx:126-163 | a JSON array of more than 5 items shows 5 rows collapsed, all expanded, and has the toggle |
| ToolCalls.ObjectRowsIgnoreExpanded | src/components/thread/messages/tool-calls.tsx:126-134 | a JSON object's table is the same expanded or collapsed and has one row per entry |
| Text.Split | src/components/thread/messages/tool-calls.tsx:90 | `split` gives at least one piece and no piece holds the separator |
| Text.SplitCount | src/components/thread/messages/tool-calls.tsx:90 | the number of lines is the number of newlines plus one |
| Text.JoinSplit | src/components/thread/messages/tool-calls.tsx:90-96 | joining the lines with newline gives back the content |
| Text.SplitJoin | src/components/thread/messages/tool-calls.tsx:90-96 | splitting joined newline-free lines gives back the lines |
| Text.JoinedPiecesArePrefix | src/components/thread/messages/tool-calls.tsx:96 | the first k lines joined, plus the newline after them, are a prefix of the content |
| Text.SplitJoinThen | src/components/thread/messages/tool-calls.tsx:96 | lines joined, then a newline and a tail, split into those lines followed by the tail's lines |

## Left out

- The styling entries of the markdown component table (headings, paragraphs, links, lists, tables and so on). They only compose CSS class strings and have no behaviour.
- ReactMarkdown, its GFM and math plugins, KaTeX and the syntax highlighter. The model stops at the data handed to them: the throttled text and the `Fenced` language and code.
- `navigator.clipboard.writeText`: an asynchronous platform call. Only its settling is modelled, as the success and failure events of `CopyButton`.
- The internals of `JSON.parse`, `JSON.stringify` and number formatting. They are uninterpreted, and a parse that throws is `None`. JavaScript's ordering of integer-like object keys is part of what `parse` returns.
- React machinery: `memo`, hooks, re-renders caused by `setDisplayValue` (they leave deps unchanged, so the effect does not run), and the `setState` of an unmounted `CodeHeader`, which React ignores. The copy revert timers are not cleared on unmount.
- JSX and DOM structure, icons and tooltips, and the `langgraph.tsx` icon component, which only returns an image.
- Throttle.SettlesWithinInterval: holds only when the clock does not go back and the interval stays the same. If the interval shrinks while a timer is pending, that timer keeps its old due time.
- Non-string tool-message content: only its `String(content)` text is modelled (`ToolCalls.Content.NonText`).

## Findings

| source | as written | input that shows it | evidently intended | confidence | as-written member | corrected member |
|---|---|---|---|---|---|---|
| src/components/thread/markdown-text.tsx:33-36 | the immediate branch updates the display and leaves a pending timer set, so that timer updates it again within the same interval | interval 100: mount "a" at 1000, render "b" at 1050 (timer due 1100), render "c" at 1100 (shown at once), render "d" at 1100, timer fires at 1100 and shows "d" | at most one update per interval, as the comments at lines 19 and 292 say: clear the pending timer when updating immediately | not executed | Throttle.AsWrittenUpdatesTwiceAtOnce | Throttle.UpdatesAtMostOncePerInterval |
