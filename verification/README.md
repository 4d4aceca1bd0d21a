# A model of neu's command interpreter and modal editor

neu is a small vi-like terminal editor written in Rust. This project models
its core in Dafny and proves properties of that model:

- **The Normal-mode command grammar** (`src/cmd.rs`). The grammar is built
  from nom combinators. It reads an optional decimal count, then one action:
  - a movement;
  - a single-key shortcut;
  - a `d`/`c`/`y` family command, which is a doubled key, a capital, or the
    key followed by a selection;
  - a catch-all that swallows everything up to a cancel token (`<Esc>` or
    `<C-c>`).

  Alternatives are tried in order and the first one that succeeds wins
  (module `Cmd`; proofs in `CmdProperties`).
- **The modal editor loop** (`src/editor.rs`). Each key is routed by mode:
  - In Normal mode, keys accumulate into a pending command string, which is
    parsed after every key and dispatched when complete.
  - In Insert mode, keys edit the buffer directly.
  - In CmdLine mode, keys accumulate the text after the `:`, which runs on
    Enter.

  After every key except the Enter that quits, the cursor is clamped into the buffer
  (module `Editor`; proofs in `EditorProperties`).
- **The editor state** (`src/state.rs`): the mode and its accessors,
  defaults, the cursor's buffer offset with scrolling, and how a word
  selection measures into a `(start, end)` span (module `State`; proofs in
  `StateProperties`).
- **The earlier standalone editor** (`src/main.rs`). It is a Normal/Insert
  editor in which `h j k l i a` act at once, with no grammar (module
  `Standalone`; proofs in `StandaloneProperties`).

Each source file has its own module and its own datatypes, because the
files do not agree with one another:
- `editor.rs` dispatches on an older command enum (`CmdKind`), not on the
  `ActionKind` that `cmd.rs` produces;
- `state.rs`'s selection kinds have no `LineRemain`;
- `main.rs` is a separate program.

Only termion's key event (`Keys.Key`), the `Option` type (`Wrappers`) and
the `usize` helpers `min` and `saturating_sub` (`Arith`) are shared.

Some collaborators' source is not part of this model, so they are
parameters. Nothing is assumed about their results beyond what the
lemmas require, and beyond the one assumption about `selection::parse`'s
failures recorded under "## Left out":
- the text buffer (`buffer.rs`);
- the selection grammar (`selection::parse`);
- the command-line grammar (`cmdline::parse`);
- the parser that `editor.rs` calls.

The buffer is a type parameter `B`, and its operations are total functions
carried in a record (`BufferOps`, `Queries`). The two parsers are
functions passed in (`sel`, `Env.parse`, `Env.parseCmdLine`). Where a
property needs a fact about such a parameter, the lemma states that fact as
a precondition. For example, `SuffixParser(sel)` says the selection
grammar, like every nom parser, returns a suffix of its input.

`usize` values are `nat`. `cmd.rs` turns the count with
`n.parse::<usize>().unwrap_or(1)`, so a digit run larger than `usize::MAX`
falls back to 1. That case is modelled explicitly, for a 64-bit target.

Two behaviours of the code are worth knowing:
- A leading `0` is read as an action count of 0, not the default 1
  (`CmdProperties.ZeroCount`).
- The pending text is emptied only when the dispatched command leaves the
  editor in Normal mode (`src/editor.rs:194-196`).

## Model

| member | source | states |
|---|---|---|
| Cmd.Digit0 | src/cmd.rs:93 | `digit0` splits its input into the longest leading run of decimal digits and the rest: the two concatenate back to the input, the run is all digits, and the rest does not start with a digit |
| CmdProperties.FirstTagSpec | src/cmd.rs:53-70 | an ordered `alt` of `tag`s fails exactly when no token is a prefix of the input; otherwise the first alternative whose token is a prefix wins, and only its token is consumed |
| CmdProperties.TokenWins | src/cmd.rs:53-70 | in an `alt` of tags where no token starts another, each token followed by any text selects its own alternative and leaves that text |
| CmdProperties.TableMisses | src/cmd.rs:53-70 | an `alt` of tags fails on a text that diverges from every token, whatever follows it |
| CmdProperties.MovementTablePrefixFree | src/cmd.rs:53-70 | no movement token is a prefix of another (`h` and `<Left>`, `gg` and `G`, ... all differ at some position), so the table's order never changes which movement is read |
| CmdProperties.ShortcutTablePrefixFree | src/cmd.rs:75-81 | the single-key shortcuts `x i a : p P .` are pairwise distinct |
| CmdProperties.MovementMissesShortcuts | src/cmd.rs:53-81 | no movement token and no shortcut key are prefixes of one another, so the movement alternative never hides a shortcut |
| CmdProperties.TablesMissFamilyHead | src/cmd.rs:53-84 | text starting with `d D c C y Y` matches neither a movement nor a shortcut, so it reaches the `remove`/`edit`/`yank` alternatives |
| CmdProperties.MovementFirst | src/cmd.rs:53-74 | each of the 16 movement tokens, with no count, parses to a count-1 `Movement` of its kind and consumes exactly that token |
| CmdProperties.ShortcutKeys | src/cmd.rs:75-81 | each shortcut key, with no count, parses to its count-1 action (`x` RemoveChar, `i`/`a` insert/append, `:` command line, `p`/`P` paste after/before, `.` repeat) and consumes exactly that key |
| CmdProperties.FamilyReached | src/cmd.rs:72-89 | on text starting with a family key, `parse` gives the first success of `remove`, `edit`, `yank` and the cancel fallback, in that order, with count 1 |
| CmdProperties.RemoveShortcuts | src/cmd.rs:28-40 | `dd` removes one `Line`, and `D` removes one `LineRemain`, whatever follows |
| CmdProperties.RemoveSelection | src/cmd.rs:28-40 | `d` followed by a selection (and not by a second `d`) removes that selection, leaving what the selection grammar leaves |
| CmdProperties.EditShortcuts | src/cmd.rs:14-26 | `cc` edits one `Line`, and `C` edits one `LineRemain` |
| CmdProperties.EditSelection | src/cmd.rs:14-26 | `c` followed by a selection (and not by a second `c`) enters edit mode over that selection |
| CmdProperties.YankShortcuts | src/cmd.rs:42-51 | `yy` and `Y` both yank one `Line` |
| CmdProperties.YankSelection | src/cmd.rs:42-51 | `y` followed by a selection (and not by a second `y`) yanks that selection |
| CmdProperties.SkipToCancelSpec | src/cmd.rs:85-88 | `many_till(anychar, alt(<C-c>, <Esc>))` fails exactly when the text holds no cancel token; otherwise it leaves what follows the first one |
| CmdProperties.SkipToCancelConsumes | src/cmd.rs:85-88 | a successful skip leaves a strictly shorter suffix of its input |
| CmdProperties.ClearFallback | src/cmd.rs:72-89 | once every other alternative has failed, `action_kind` fails exactly when the text has no cancel token; otherwise it yields `ClearCmd` and leaves the text after the first cancel token |
| CmdProperties.CancelTokenClears | src/cmd.rs:85-88 | `<Esc>` or `<C-c>` followed by anything parses to a count-1 `ClearCmd` that consumes just the token |
| CmdProperties.EmptyActionFails | src/cmd.rs:72-89 | the empty text matches no alternative |
| CmdProperties.CountAloneFails | src/cmd.rs:92-96 | a count with no action after it, including the empty text, does not parse |
| CmdProperties.LoneGFails | src/cmd.rs:59 | `g` alone (the start of `gg`) does not parse |
| CmdProperties.NoLeadingDigit | src/cmd.rs:93 | on text that does not start with a digit, `digit0` reads nothing |
| CmdProperties.DigitsOnly | src/cmd.rs:93 | on an all-digit text, `digit0` reads all of it |
| CmdProperties.DigitRunSplits | src/cmd.rs:93 | a digit run followed by a non-digit is split by `digit0` exactly there |
| CmdProperties.CountDefault | src/cmd.rs:92-96 | with no leading digits, the parse succeeds exactly when the action does, with count 1 |
| CmdProperties.CountDigits | src/cmd.rs:92-96 | with a leading digit run, the parse succeeds exactly when the action after the run does; the count is the run's decimal value, or 1 when that exceeds `usize::MAX` |
| CmdProperties.DecimalRoundTrip | src/cmd.rs:94 | reading back the decimal spelling of any number gives that number |
| CmdProperties.CountRoundTrip | src/cmd.rs:92-96 | any count written in decimal before an action parses back to that count, or to 1 when it does not fit a `usize` |
| CmdProperties.ZeroCount | src/cmd.rs:92-96 | `0` before a movement gives count 0, not the default 1 |
| CmdProperties.ParseConsumesPrefix | src/cmd.rs:92-100 | every successful parse consumes at least one character, and the consumed prefix followed by the remainder is the input |
| CmdProperties.ActionKindConsumes | src/cmd.rs:72-89 | every successful `action_kind` leaves a strictly shorter suffix of its input |
| CmdProperties.RemoveConsumes | src/cmd.rs:28-40 | a successful `remove` leaves a strictly shorter suffix of its input |
| CmdProperties.EditConsumes | src/cmd.rs:14-26 | a successful `edit` leaves a strictly shorter suffix of its input |
| CmdProperties.YankConsumes | src/cmd.rs:42-51 | a successful `yank` leaves a strictly shorter suffix of its input |
| CmdProperties.FirstTagConsumes | src/cmd.rs:53-81 | an `alt` of non-empty tags consumes at least one character when it succeeds |
| CmdProperties.SelectionConsumes | src/cmd.rs:14-51 | a tag followed by a selection succeeds only when the tag is a prefix of the input, and then consumes at least the whole tag (at least one character for a non-empty tag) |
| Editor.Clamp | src/editor.rs:278-282 | after clamping, the cursor is in the buffer (row at most the last row, or 0; column at most the row's length); each coordinate either stays or is pulled back to exactly its bound (the last row, then the clamped row's length), never further; mode, buffer and register are kept; a cursor already in the buffer is left alone |
| Editor.Dispatch | src/editor.rs:133-193 | per command kind: left and up saturate at 0, while down and right add the count; `i`, `a` and `:` switch mode, and `a` also steps right; removals and `YankLine` overwrite the register with what the buffer returns; pastes insert the register `count` times at one position, on the next row at column 0 for a line-wise register, and keep the register; `Escape` changes nothing |
| Editor.HandleNormal | src/editor.rs:126-197 | a pending text that does not parse leaves the editor as it was; a parsed command is dispatched, and the pending text is emptied only if the editor is still in Normal mode |
| Editor.HandleInsert | src/editor.rs:220-239 | a character is inserted at the cursor and the cursor steps right; a newline moves to column 0 of the next row; Esc and Ctrl-c return to an empty Normal mode; other keys do nothing |
| Editor.HandleCmdLine | src/editor.rs:199-218 | the loop stops exactly when `cmdline::parse` reads the typed text as `Quit`, and the state is then unchanged; a `Write` command or text that does not parse returns to an empty Normal mode |
| Editor.Step | src/editor.rs:244-284 | a key stops the loop exactly when it is Enter on a command line whose text `cmdline::parse` reads as `Quit`, and then nothing changes; after any other key the cursor is in the buffer |
| EditorProperties.KeyTextRoundTrip | src/editor.rs:250-255 | a Normal-mode key adds no text exactly when it is Backspace or an ignored key; otherwise its text (`c`, `<C-c>`, `<Esc>`) identifies the key |
| EditorProperties.InsertRepeatedSplit | src/editor.rs:176-179 | `m + n` repeated pastes are `m` pastes followed by `n` more at the same position |
| EditorProperties.InsertRepeatedLast | src/editor.rs:187-190 | the last of `n + 1` pastes goes to the same position as the first |
| EditorProperties.FailedParseKeepsState | src/editor.rs:249-257 | a Normal-mode key that completes no command only appends its text to the pending command |
| EditorProperties.PendingAccumulates | src/editor.rs:249-256 | a run of keys none of which completes a command leaves the pending text extended by all their text, and changes nothing else |
| EditorProperties.PendingFirstKey | src/editor.rs:244-257 | after the first such key, the loop goes on from the state with that key's text appended |
| EditorProperties.EscapeOnlyClears | src/editor.rs:192-196 | a parsed `Escape` command empties the pending text and changes nothing else |
| EditorProperties.MovementStep | src/editor.rs:135-146 | a parsed movement returns to an empty Normal mode and keeps buffer and register; the row moves by the count for down and up (saturating at 0 going up) and is clamped to the last line; the column moves by the count for left (saturating at 0) and right, and for every movement is clamped to the length of the row it ends on |
| EditorProperties.CancelReturnsToNormal | src/editor.rs:234-273 | Esc and Ctrl-c leave Insert mode, and leave CmdLine mode without running the command, for an empty Normal mode |
| EditorProperties.TypeThenBackspace | src/editor.rs:267-270 | typing a character on the command line and erasing it gives back the state before |
| EditorProperties.CmdLineEditing | src/editor.rs:259-276 | on the command line a character other than Enter is appended and Backspace drops the last character (`String::pop`), with nothing else changed; any other key except Esc and Ctrl-c changes nothing |
| EditorProperties.NormalStep | src/editor.rs:249-257 | a Normal-mode key appends its text to the pending command, `handle_normal_mode` runs on the result and the cursor is then clamped; the loop never stops on it |
| EditorProperties.InsertStep | src/editor.rs:258-282 | an Insert-mode key never stops the loop: it is handled by `handle_insert_mode` and the cursor is then clamped |
| EditorProperties.BackspaceOnEmpty | src/editor.rs:268-270 | Backspace on an empty command line changes nothing |
| EditorProperties.EnterRunsCommand | src/editor.rs:199-218 | Enter on the command line stops the loop unchanged when the text parses as `Quit`, and otherwise returns to an empty Normal mode with nothing else changed |
| EditorProperties.RunKeepsCursorInBuffer | src/editor.rs:241-285 | from a cursor in the buffer, any sequence of keys ends with the cursor in the buffer |
| EditorProperties.ReachableCursorInBuffer | src/editor.rs:288-311 | every state reachable from an editor opened on a buffer has its cursor in the buffer |
| State.GetCmd | src/state.rs:20-26 | `get_cmd` is defined only in Normal mode and returns the text that mode wraps |
| State.GetCmdline | src/state.rs:28-33 | `get_cmdline` is defined only in CmdLine mode and returns the text that mode wraps |
| State.New | src/state.rs:36-60 | a new state has the terminal's size, the cursor at the origin, no scrolling, Normal mode with nothing pending, and the default buffer and register |
| State.MeasureSelection | src/state.rs:77-116 | the span contains the cursor offset; ForwardWord starts at it and is as long as the forward count; BackWord ends at it and is as long as the back count; Word is as long as the two counts together |
| StateProperties.ModeAccessors | src/state.rs:13-33 | the accessors invert the mode constructors, and the default mode is Normal with nothing pending |
| StateProperties.DefaultCursorOffset | src/state.rs:36-75 | a fresh state measures at column 0 of the buffer's first line |
| StateProperties.ScrollInvariant | src/state.rs:62-75 | the offset and the word counts depend only on the column and the absolute row `row + row_offset`, so scrolling with the cursor on the same buffer line changes no span |
| StateProperties.WordIsUnion | src/state.rs:98-110 | an offset is in the Word span exactly when it is in the BackWord span or the ForwardWord span |
| StateProperties.CountIgnored | src/state.rs:77-116 | the selection's count does not change its span |
| Standalone.StepRight | src/main.rs:112-121 | `l` and `a` move the column one to the right, or to the end of the row when that is nearer: the column is `col + 1` or the row length, whichever is smaller; from a valid cursor they never move it left |
| Standalone.HandleNormal | src/main.rs:93-131 | only Ctrl-q signals Quit; only `i` and `a` enter Insert; the buffer never changes; `h` steps left unless in column 0; `j`/`k` change row only when there is a row to go to, and then clamp the column to that row; `l` and `a` step right as `StepRight` does, and `i` changes only the mode; other keys change nothing; a valid cursor stays valid |
| Standalone.HandleInsert | src/main.rs:133-154 | a character is inserted at the cursor and the cursor steps right; a newline moves to column 0 of the next row; Esc and Ctrl-c return to Normal; other keys do nothing |
| Standalone.Step | src/main.rs:156-173 | the loop stops exactly on Ctrl-q in Normal mode, and nothing changes then |
| StandaloneProperties.StepRoutes | src/main.rs:163-170 | a Normal-mode key is handled by `handle_normal_mode`, which ends the loop only on Ctrl-q, and an Insert-mode key by `handle_insert_mode` |
| StandaloneProperties.DefaultCursorValid | src/main.rs:37-59 | a new editor's cursor is valid exactly when the buffer has at least one line |
| StandaloneProperties.LeftThenRight | src/main.rs:95-114 | `h` then `l` from a valid cursor not in column 0 returns to the same state |
| StandaloneProperties.DownThenUp | src/main.rs:100-111 | `j` then `k` from a line that has a line below returns to the same line, with the column clamped to the lower line's length |
| StandaloneProperties.InsertThenCancel | src/main.rs:115-151 | `i` then Esc or Ctrl-c changes nothing |
| StandaloneProperties.NormalRunKeepsCursorValid | src/main.rs:93-173 | any keys other than `i` and `a` keep the editor in Normal mode, with its buffer and a valid cursor |
| StandaloneProperties.TypingAdvances | src/main.rs:135-145 | typing a line of text (no newline) in Insert mode moves the cursor right by its length on the same row |

## Left out

- Terminal drawing, raw mode and the terminal size query (`draw`, the `stdout` field, `renderer.rs`) are output only. The size is a parameter of `State.New`; the standalone editor drops it, since only drawing reads it.
- The files that `:write` (`src/editor.rs:209-213`) and Ctrl-w (`src/main.rs:123-127`) write are file output, so both change nothing in the model's state.
- The `stdin().keys()` loop is a finite sequence of keys (`Run`); a read error (`unwrap` on a key) is not modelled.
- The buffer, the selection grammar, the command-line grammar and the command parser `editor.rs` calls are not part of this model. They are parameters, with no word-boundary, line-removal or paste-content behaviour assumed.
- `selection::parse` returns `Option` here, so every failure it reports is a recoverable nom error after which `alt` tries the next alternative. In nom an `Err::Failure` or `Err::Incomplete` would end the whole parse at once. `FamilyReached`, `ClearFallback` and the `d`/`c`/`y` fall-through below hold only for a selection grammar that never reports those. This suits the `complete` parsers `cmd.rs` itself uses.
- termion keys other than characters, Ctrl, Esc and Backspace become the one key `Other`, which both editors ignore.
- `Repeat` and `IntoEditMode` are parsed, but no dispatcher in these files handles them, so only their parsing is modelled.
- Editor.Dispatch: the `usize` additions `row += count` and `col += count` are unbounded here; an overflow would panic in a debug build and wrap in a release build.
- Standalone.HandleInsert: `col += 1` and `row += 1` are unbounded here, for the same reason.
- State.MeasureSelection: `offset + count` is unbounded here, for the same reason. The Left, Down, Up, Right and Line kinds reach `unimplemented!()`, and BackWord and Word underflow when the back count exceeds the offset; the precondition excludes both, instead of modelling the panic.
- The `State` fields are only read by `measure_selection` here; nothing in these files updates `row_offset`.
- Editor.HandleNormal: the parser's remainder is dropped, as in the code (`let (_, cmd) = parsed.unwrap()`).
- CmdProperties.RemoveSelection (and likewise EditSelection and YankSelection): the case where `d`/`c`/`y` is followed by its own letter is covered by the doubled-key lemmas; a `d` followed by text the selection grammar rejects cannot match `D` (nor `c` match `C`, nor `y` match `Y`), so it reaches the cancel fallback, which reads `ClearCmd` or fails as `ClearFallback` states.
