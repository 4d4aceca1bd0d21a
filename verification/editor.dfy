/** The modal editor of src/editor.rs, one key event at a time.

    The `stdin().keys()` loop becomes `Run` over a sequence of keys, and one
    iteration of it becomes the pure transition `Step`. Terminal drawing and
    the file written by `:write` are left out, so `:write` changes nothing in
    the editor state.

    The buffer (buffer.rs), the command parser editor.rs calls (`cmd::parse`,
    producing the older `cmd::CmdKind`) and the command-line parser
    (cmdline.rs) are not part of this model: `Env` carries them as total
    functions, and the editor state is generic in the buffer type `B`. */
module Editor {
  import opened Wrappers
  import opened Keys
  import opened Arith

  /** Normal and CmdLine carry the text typed so far. */
  datatype Mode = Normal(cmd: string) | Insert | CmdLine(cmdline: string)

  datatype Cursor = Cursor(row: nat, col: nat)

  /** The command kinds editor.rs dispatches on (editor.rs:133-192). */
  datatype CmdKind =
    | CursorLeft | CursorDown | CursorUp | CursorRight
    | IntoInsertMode | IntoAppendMode | IntoCmdLineMode
    | RemoveChar | RemoveLine | YankLine
    | AppendYank | InsertYank
    | Escape

  datatype Cmd = Cmd(count: nat, kind: CmdKind)

  /** The commands of the command-line grammar. */
  datatype LineCmd = Write(path: string) | Quit

  /** Whether the key loop goes on. */
  datatype Signal = Nope | Stop

  /** The buffer operations editor.rs calls, each as the buffer it leaves
      behind and, for the removals, the removed text as a buffer of its own. */
  datatype BufferOps<!B> = BufferOps(
    lineCount: B -> nat,
    rowLen: (B, nat) -> nat,
    insertChar: (B, nat, nat, char) -> B,
    insert: (B, nat, nat, B) -> B,
    removeChars: (B, nat, nat, nat) -> (B, B),
    removeLines: (B, nat, nat) -> (B, B),
    subseqLines: (B, nat, nat) -> B,
    endsWithLineBreak: B -> bool)

  /** The collaborators: the buffer, `cmd::parse` and `cmdline::parse`. */
  datatype Env<!B> = Env(
    buf: BufferOps<B>,
    parse: string -> Option<Cmd>,
    parseCmdLine: string -> Option<LineCmd>)

  /** The editor state; `yanked` is the yank register. */
  datatype Editor<B> = Editor(mode: Mode, cursor: Cursor, buffer: B, yanked: B)

  /** The state of one iteration's end: running on, or the loop was left. */
  datatype Outcome<B> = Running(ed: Editor<B>) | Stopped(ed: Editor<B>)

  /** `Editor::from(b)`: Normal mode, nothing pending, cursor at the origin,
      an empty yank register (terminal set-up left out). */
  function Open<B>(b: B, empty: B): Editor<B> {
    Editor(Normal([]), Cursor(0, 0), b, empty)
  }

  // ---------------------------------------------------------------------------
  // Cursor clamping (editor.rs:278-282)
  // ---------------------------------------------------------------------------

  /** The cursor is on an existing row (or row 0 of an empty buffer) and at
      most one past the end of that row. */
  ghost predicate CursorInBuffer<B>(env: Env<B>, ed: Editor<B>) {
    && ed.cursor.row <= SatSub(env.buf.lineCount(ed.buffer), 1)
    && ed.cursor.col <= env.buf.rowLen(ed.buffer, ed.cursor.row)
  }

  /** Pull the cursor back into the buffer: first the row, then the column
      against the clamped row's length. */
  function Clamp<B>(env: Env<B>, ed: Editor<B>): (r: Editor<B>)
    ensures CursorInBuffer(env, r)
    ensures r.mode == ed.mode && r.buffer == ed.buffer && r.yanked == ed.yanked
    ensures r.cursor.row <= ed.cursor.row && r.cursor.col <= ed.cursor.col
    // the nearest point: each coordinate is kept or pulled back to its bound
    ensures r.cursor.row == ed.cursor.row || r.cursor.row == SatSub(env.buf.lineCount(ed.buffer), 1)
    ensures r.cursor.col == ed.cursor.col || r.cursor.col == env.buf.rowLen(ed.buffer, r.cursor.row)
    ensures CursorInBuffer(env, ed) ==> r == ed
  {
    var row := Min(ed.cursor.row, SatSub(env.buf.lineCount(ed.buffer), 1));
    var col := Min(ed.cursor.col, env.buf.rowLen(ed.buffer, row));
    ed.(cursor := Cursor(row, col))
  }

  // ---------------------------------------------------------------------------
  // Normal mode (editor.rs:126-197, 249-257)
  // ---------------------------------------------------------------------------

  /** The text a key adds to the Normal-mode pending command. */
  function KeyText(k: Key): string {
    match k
    case Char(c) => [c]
    case Ctrl(c) => "<C-" + [c] + ">"
    case Esc => "<Esc>"
    case Backspace => []
    case Other => []
  }

  /** Reads back the key that one key's text came from; the partner of `KeyText`. */
  function KeyOfText(t: string): Option<Key> {
    if |t| == 1 then Some(Char(t[0]))
    else if t == "<Esc>" then Some(Esc)
    else if |t| == 5 && t[..3] == "<C-" && t[4] == '>' then Some(Ctrl(t[3]))
    else None
  }

  /** `count` insertions of `y`, all at the same position (col, row). */
  function InsertRepeated<B>(ops: BufferOps<B>, b: B, col: nat, row: nat, y: B, count: nat): B
    decreases count
  {
    if count == 0 then b
    else InsertRepeated(ops, ops.insert(b, col, row, y), col, row, y, count - 1)
  }

  /** The effect of one parsed command, before the pending text is cleared. */
  function Dispatch<B>(env: Env<B>, ed: Editor<B>, cmd: Cmd): (r: Editor<B>)
    // movements touch the cursor only, and saturate at 0
    ensures cmd.kind in {CursorLeft, CursorDown, CursorUp, CursorRight} ==>
      r.mode == ed.mode && r.buffer == ed.buffer && r.yanked == ed.yanked
    ensures cmd.kind == CursorLeft ==>
      && r.cursor.row == ed.cursor.row
      && r.cursor.col + cmd.count >= ed.cursor.col
      && (r.cursor.col == 0 || r.cursor.col + cmd.count == ed.cursor.col)
    ensures cmd.kind == CursorUp ==>
      && r.cursor.col == ed.cursor.col
      && r.cursor.row + cmd.count >= ed.cursor.row
      && (r.cursor.row == 0 || r.cursor.row + cmd.count == ed.cursor.row)
    ensures cmd.kind == CursorDown ==> r.cursor == Cursor(ed.cursor.row + cmd.count, ed.cursor.col)
    ensures cmd.kind == CursorRight ==> r.cursor == Cursor(ed.cursor.row, ed.cursor.col + cmd.count)
    // mode switches
    ensures cmd.kind == IntoInsertMode ==> r == ed.(mode := Insert)
    ensures cmd.kind == IntoAppendMode ==>
      r == ed.(mode := Insert, cursor := Cursor(ed.cursor.row, ed.cursor.col + 1))
    ensures cmd.kind == IntoCmdLineMode ==> r == ed.(mode := CmdLine([]))
    // removals and yanks overwrite the register with what the buffer hands back
    ensures cmd.kind == RemoveChar ==>
      var (b, removed) := env.buf.removeChars(ed.buffer, ed.cursor.col, ed.cursor.row, cmd.count);
      r == ed.(buffer := b, yanked := removed)
    ensures cmd.kind == RemoveLine ==>
      var (b, removed) := env.buf.removeLines(ed.buffer, ed.cursor.row, cmd.count);
      r == ed.(buffer := b, yanked := removed)
    ensures cmd.kind == YankLine ==>
      r == ed.(yanked := env.buf.subseqLines(ed.buffer, ed.cursor.row, cmd.count))
    // pastes leave mode and register alone
    ensures cmd.kind in {AppendYank, InsertYank} ==> r.mode == ed.mode && r.yanked == ed.yanked
    ensures cmd.kind == AppendYank && env.buf.endsWithLineBreak(ed.yanked) ==>
      && r.cursor == Cursor(ed.cursor.row + 1, ed.cursor.col)
      && r.buffer == InsertRepeated(env.buf, ed.buffer, 0, ed.cursor.row + 1, ed.yanked, cmd.count)
    ensures cmd.kind == AppendYank && !env.buf.endsWithLineBreak(ed.yanked) ==>
      && r.cursor == Cursor(ed.cursor.row, ed.cursor.col + 1)
      && r.buffer == InsertRepeated(env.buf, ed.buffer, ed.cursor.col + 1, ed.cursor.row, ed.yanked, cmd.count)
    ensures cmd.kind == InsertYank ==>
      && r.cursor == ed.cursor
      && r.buffer == InsertRepeated(env.buf, ed.buffer,
           if env.buf.endsWithLineBreak(ed.yanked) then 0 else ed.cursor.col,
           ed.cursor.row, ed.yanked, cmd.count)
    ensures cmd.kind == Escape ==> r == ed
  {
    var cur := ed.cursor;
    match cmd.kind
    case CursorLeft => ed.(cursor := cur.(col := SatSub(cur.col, cmd.count)))
    case CursorDown => ed.(cursor := cur.(row := cur.row + cmd.count))
    case CursorUp => ed.(cursor := cur.(row := SatSub(cur.row, cmd.count)))
    case CursorRight => ed.(cursor := cur.(col := cur.col + cmd.count))
    case IntoInsertMode => ed.(mode := Insert)
    case IntoAppendMode => ed.(cursor := cur.(col := cur.col + 1), mode := Insert)
    case IntoCmdLineMode => ed.(mode := CmdLine([]))
    case RemoveChar =>
      var (b, removed) := env.buf.removeChars(ed.buffer, cur.col, cur.row, cmd.count);
      ed.(buffer := b, yanked := removed)
    case RemoveLine =>
      var (b, removed) := env.buf.removeLines(ed.buffer, cur.row, cmd.count);
      ed.(buffer := b, yanked := removed)
    case YankLine => ed.(yanked := env.buf.subseqLines(ed.buffer, cur.row, cmd.count))
    case AppendYank =>
      if env.buf.endsWithLineBreak(ed.yanked) then
        var row := cur.row + 1;
        ed.(cursor := cur.(row := row),
            buffer := InsertRepeated(env.buf, ed.buffer, 0, row, ed.yanked, cmd.count))
      else
        var col := cur.col + 1;
        ed.(cursor := cur.(col := col),
            buffer := InsertRepeated(env.buf, ed.buffer, col, cur.row, ed.yanked, cmd.count))
    case InsertYank =>
      var col := if env.buf.endsWithLineBreak(ed.yanked) then 0 else cur.col;
      ed.(buffer := InsertRepeated(env.buf, ed.buffer, col, cur.row, ed.yanked, cmd.count))
    case Escape => ed
  }

  /** `handle_normal_mode`: parse the pending text; on success dispatch it
      and, if still in Normal mode, empty the pending text. */
  function HandleNormal<B>(env: Env<B>, ed: Editor<B>): (r: Editor<B>)
    requires ed.mode.Normal?
    ensures env.parse(ed.mode.cmd).None? ==> r == ed
    ensures env.parse(ed.mode.cmd).Some? ==>
      var cmd := env.parse(ed.mode.cmd).value;
      && r.cursor == Dispatch(env, ed, cmd).cursor
      && r.buffer == Dispatch(env, ed, cmd).buffer
      && r.yanked == Dispatch(env, ed, cmd).yanked
      && (r.mode.Normal? ==> r.mode.cmd == [])
      && (cmd.kind in {IntoInsertMode, IntoAppendMode} ==> r.mode == Insert)
      && (cmd.kind == IntoCmdLineMode ==> r.mode == CmdLine([]))
      && (cmd.kind !in {IntoInsertMode, IntoAppendMode, IntoCmdLineMode} ==> r.mode == Normal([]))
  {
    match env.parse(ed.mode.cmd)
    case None => ed
    case Some(cmd) =>
      var d := Dispatch(env, ed, cmd);
      if d.mode.Normal? then d.(mode := Normal([])) else d
  }

  // ---------------------------------------------------------------------------
  // Insert mode (editor.rs:220-239)
  // ---------------------------------------------------------------------------

  /** `handle_insert_mode`. */
  function HandleInsert<B>(env: Env<B>, ed: Editor<B>, k: Key): (r: Editor<B>)
    requires ed.mode.Insert?
    ensures k.Char? && k.c != '\n' ==>
      && r.mode == Insert && r.yanked == ed.yanked
      && r.cursor == Cursor(ed.cursor.row, ed.cursor.col + 1)
      && r.buffer == env.buf.insertChar(ed.buffer, ed.cursor.col, ed.cursor.row, k.c)
    ensures k == Char('\n') ==>
      && r.mode == Insert && r.yanked == ed.yanked
      && r.cursor == Cursor(ed.cursor.row + 1, 0)
      && r.buffer == env.buf.insertChar(ed.buffer, ed.cursor.col, ed.cursor.row, '\n')
    ensures k == Esc || k == Ctrl('c') ==> r == ed.(mode := Normal([]))
    ensures !k.Char? && k != Esc && k != Ctrl('c') ==> r == ed
  {
    var cur := ed.cursor;
    match k
    case Char(c) =>
      if c == '\n' then
        ed.(buffer := env.buf.insertChar(ed.buffer, cur.col, cur.row, '\n'), cursor := Cursor(cur.row + 1, 0))
      else
        ed.(buffer := env.buf.insertChar(ed.buffer, cur.col, cur.row, c), cursor := cur.(col := cur.col + 1))
    case Esc => ed.(mode := Normal([]))
    case Ctrl(c) => if c == 'c' then ed.(mode := Normal([])) else ed
    case Backspace => ed
    case Other => ed
  }

  // ---------------------------------------------------------------------------
  // Command-line mode (editor.rs:199-218, 259-276)
  // ---------------------------------------------------------------------------

  /** `String::pop`: drop the last character, if any. */
  function Pop(s: string): string {
    if |s| == 0 then s else s[..|s| - 1]
  }

  /** `handle_cmd_line_mode`: run the typed command. A command that does not
      parse and `Write` both return to Normal mode; `Quit` stops the loop
      and leaves the state as it is. */
  function HandleCmdLine<B>(env: Env<B>, ed: Editor<B>): (r: (Editor<B>, Signal))
    requires ed.mode.CmdLine?
    ensures r.1 == Stop <==> env.parseCmdLine(ed.mode.cmdline) == Some(Quit)
    ensures r.1 == Stop ==> r.0 == ed
    ensures r.1 == Nope ==> r.0 == ed.(mode := Normal([]))
  {
    match env.parseCmdLine(ed.mode.cmdline)
    case None => (ed.(mode := Normal([])), Nope)
    case Some(Write(_)) => (ed.(mode := Normal([])), Nope)
    case Some(Quit) => (ed, Stop)
  }

  // ---------------------------------------------------------------------------
  // One iteration of the key loop (editor.rs:244-284)
  // ---------------------------------------------------------------------------

  /** Route one key by mode, before the cursor is clamped. */
  function Route<B>(env: Env<B>, ed: Editor<B>, k: Key): (Editor<B>, Signal) {
    match ed.mode
    case Normal(pending) => (HandleNormal(env, ed.(mode := Normal(pending + KeyText(k)))), Nope)
    case Insert => (HandleInsert(env, ed, k), Nope)
    case CmdLine(pending) =>
      match k
      case Char(c) =>
        if c == '\n' then HandleCmdLine(env, ed)
        else (ed.(mode := CmdLine(pending + [c])), Nope)
      case Backspace => (ed.(mode := CmdLine(Pop(pending))), Nope)
      case Esc => (ed.(mode := Normal([])), Nope)
      case Ctrl(c) => (if c == 'c' then ed.(mode := Normal([])) else ed, Nope)
      case Other => (ed, Nope)
  }

  /** One key event: route it, then clamp the cursor unless the loop stops. */
  function Step<B>(env: Env<B>, ed: Editor<B>, k: Key): (r: Outcome<B>)
    ensures r.Running? ==> CursorInBuffer(env, r.ed)
    ensures r.Stopped? <==>
      ed.mode.CmdLine? && k == Char('\n') && env.parseCmdLine(ed.mode.cmdline) == Some(Quit)
    ensures r.Stopped? ==> r.ed == ed
  {
    var (next, signal) := Route(env, ed, k);
    if signal == Stop then Stopped(next) else Running(Clamp(env, next))
  }

  /** The key loop over a finite sequence of keys, until a `Quit` command. */
  function Run<B>(env: Env<B>, ed: Editor<B>, keys: seq<Key>): Outcome<B>
    decreases |keys|
  {
    if |keys| == 0 then Running(ed)
    else
      match Step(env, ed, keys[0])
      case Stopped(e) => Stopped(e)
      case Running(e) => Run(env, e, keys[1..])
  }
}
