/** The earlier standalone Normal/Insert editor of src/main.rs.

    It has no command grammar: every Normal-mode key acts at once. Drawing
    (and with it the terminal size and stdout the editor holds) and the
    file Ctrl-w writes are left out, so Ctrl-w changes nothing here. The
    buffer is the type parameter `B` with the three operations main.rs
    calls; buffer.rs is not part of this model. */
module Standalone {
  import opened Keys
  import opened Arith

  datatype Mode = Normal | Insert

  datatype Cursor = Cursor(row: nat, col: nat)

  /** The buffer operations main.rs calls: `lines().count()`, `row_len` and
      `insert_char(col, row, c)`. */
  datatype BufferOps<!B> = BufferOps(
    lineCount: B -> nat,
    rowLen: (B, nat) -> nat,
    insertChar: (B, nat, nat, char) -> B)

  datatype Editor<B> = Editor(mode: Mode, cursor: Cursor, buffer: B)

  datatype Signal = Nope | Quit

  /** Whether the key loop goes on after a key. */
  datatype Outcome<B> = Running(ed: Editor<B>) | Stopped(ed: Editor<B>)

  /** `Editor::default()` for `b` the buffer `Buffer::new()` returns. */
  function Default<B>(b: B): Editor<B> {
    Editor(Normal, Cursor(0, 0), b)
  }

  /** The cursor is on an existing line and at most one past its last column. */
  ghost predicate CursorValid<B>(ops: BufferOps<B>, ed: Editor<B>) {
    ed.cursor.row < ops.lineCount(ed.buffer) && ed.cursor.col <= ops.rowLen(ed.buffer, ed.cursor.row)
  }

  /** `col + 1`, but not past the end of the cursor's line (`l` and `a`). */
  function StepRight<B>(ops: BufferOps<B>, ed: Editor<B>): (r: Cursor)
    ensures r.row == ed.cursor.row && r.col <= ed.cursor.col + 1
    ensures r.col <= ops.rowLen(ed.buffer, ed.cursor.row)
    ensures CursorValid(ops, ed) ==> ed.cursor.col <= r.col
    ensures r.col == ed.cursor.col + 1 || r.col == ops.rowLen(ed.buffer, ed.cursor.row)
  {
    ed.cursor.(col := Min(ed.cursor.col + 1, ops.rowLen(ed.buffer, ed.cursor.row)))
  }

  /** `handle_normal_mode`: one key, acting at once. Only Ctrl-q signals
      Quit; only `i` and `a` enter Insert; the buffer never changes. */
  function HandleNormal<B>(ops: BufferOps<B>, ed: Editor<B>, k: Key): (r: (Editor<B>, Signal))
    ensures r.1 == Quit <==> k == Ctrl('q')
    ensures r.0.buffer == ed.buffer
    ensures r.0.mode == (if k == Char('i') || k == Char('a') then Insert else ed.mode)
    ensures k == Char('h') ==> r.0.cursor == Cursor(ed.cursor.row, if ed.cursor.col > 0 then ed.cursor.col - 1 else 0)
    ensures k == Char('j') ==>
      if ed.cursor.row + 1 < ops.lineCount(ed.buffer)
      then r.0.cursor.row == ed.cursor.row + 1 && r.0.cursor.col == Min(ops.rowLen(ed.buffer, ed.cursor.row + 1), ed.cursor.col)
      else r.0 == ed
    ensures k == Char('k') ==>
      if ed.cursor.row > 0
      then r.0.cursor.row == ed.cursor.row - 1 && r.0.cursor.col == Min(ops.rowLen(ed.buffer, ed.cursor.row - 1), ed.cursor.col)
      else r.0 == ed
    ensures k == Char('l') || k == Char('a') ==> r.0.cursor == StepRight(ops, ed)
    ensures k == Char('i') ==> r.0 == ed.(mode := Insert)
    ensures k !in {Char('h'), Char('j'), Char('k'), Char('l'), Char('i'), Char('a')} ==> r.0 == ed
    ensures CursorValid(ops, ed) ==> CursorValid(ops, r.0)
  {
    var c := ed.cursor;
    match k
    case Char('h') => (if c.col > 0 then ed.(cursor := c.(col := c.col - 1)) else ed, Nope)
    case Char('j') =>
      if c.row + 1 < ops.lineCount(ed.buffer) then
        var row := c.row + 1;
        (ed.(cursor := Cursor(row, Min(ops.rowLen(ed.buffer, row), c.col))), Nope)
      else (ed, Nope)
    case Char('k') =>
      if c.row > 0 then
        var row := c.row - 1;
        (ed.(cursor := Cursor(row, Min(ops.rowLen(ed.buffer, row), c.col))), Nope)
      else (ed, Nope)
    case Char('l') => (ed.(cursor := StepRight(ops, ed)), Nope)
    case Char('i') => (ed.(mode := Insert), Nope)
    case Char('a') => (ed.(cursor := StepRight(ops, ed), mode := Insert), Nope)
    case Ctrl('q') => (ed, Quit)
    case _ => (ed, Nope)
  }

  /** `handle_insert_mode`: characters go into the buffer at the cursor,
      a newline moves to the start of the next row, Esc and Ctrl-c return
      to Normal mode, and other keys are ignored. */
  function HandleInsert<B>(ops: BufferOps<B>, ed: Editor<B>, k: Key): (r: Editor<B>)
    ensures k == Char('\n') ==>
      r == Editor(ed.mode, Cursor(ed.cursor.row + 1, 0), ops.insertChar(ed.buffer, ed.cursor.col, ed.cursor.row, '\n'))
    ensures k.Char? && k.c != '\n' ==>
      r == Editor(ed.mode, Cursor(ed.cursor.row, ed.cursor.col + 1), ops.insertChar(ed.buffer, ed.cursor.col, ed.cursor.row, k.c))
    ensures k == Esc || k == Ctrl('c') ==> r == ed.(mode := Normal)
    ensures !k.Char? && k != Esc && k != Ctrl('c') ==> r == ed
  {
    var c := ed.cursor;
    match k
    case Char(ch) =>
      var b := ops.insertChar(ed.buffer, c.col, c.row, ch);
      if ch == '\n' then ed.(cursor := Cursor(c.row + 1, 0), buffer := b)
      else ed.(cursor := c.(col := c.col + 1), buffer := b)
    case Esc => ed.(mode := Normal)
    case Ctrl('c') => ed.(mode := Normal)
    case _ => ed
  }

  /** One iteration of `run`: Ctrl-q in Normal mode breaks the loop. */
  function Step<B>(ops: BufferOps<B>, ed: Editor<B>, k: Key): (r: Outcome<B>)
    ensures r.Stopped? <==> ed.mode == Normal && k == Ctrl('q')
    ensures r.Stopped? ==> r.ed == ed
  {
    match ed.mode
    case Normal =>
      var (e, signal) := HandleNormal(ops, ed, k);
      if signal == Quit then Stopped(e) else Running(e)
    case Insert => Running(HandleInsert(ops, ed, k))
  }

  /** `run` over a finite sequence of keys. */
  function Run<B>(ops: BufferOps<B>, ed: Editor<B>, keys: seq<Key>): Outcome<B>
    decreases |keys|
  {
    if |keys| == 0 then Running(ed)
    else match Step(ops, ed, keys[0])
      case Stopped(e) => Stopped(e)
      case Running(e) => Run(ops, e, keys[1..])
  }
}
