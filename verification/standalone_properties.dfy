/** What the standalone editor of src/main.rs guarantees over one or many keys. */
module StandaloneProperties {
  import opened Keys
  import opened Arith
  import opened Standalone

  /** Each key goes to the handler of the current mode: Normal keys to
      `handle_normal_mode`, whose Quit signal alone ends the loop, and
      Insert keys to `handle_insert_mode`. */
  lemma StepRoutes<B>(ops: BufferOps<B>, ed: Editor<B>, k: Key)
    ensures ed.mode == Normal ==>
      Step(ops, ed, k) == (if k == Ctrl('q') then Stopped(ed) else Running(HandleNormal(ops, ed, k).0))
    ensures ed.mode == Insert ==> Step(ops, ed, k) == Running(HandleInsert(ops, ed, k))
  {
  }

  /** A fresh editor has a valid cursor exactly when the buffer has a line. */
  lemma DefaultCursorValid<B>(ops: BufferOps<B>, b: B)
    ensures CursorValid(ops, Default(b)) <==> ops.lineCount(b) > 0
  {
  }

  /** `h` then `l` from a valid cursor that is not in column 0 comes back
      to where it started. */
  lemma LeftThenRight<B>(ops: BufferOps<B>, ed: Editor<B>)
    requires ed.mode == Normal && CursorValid(ops, ed) && ed.cursor.col > 0
    ensures Run(ops, ed, [Char('h'), Char('l')]) == Running(ed)
  {
    var e := ed.(cursor := ed.cursor.(col := ed.cursor.col - 1));
    assert Step(ops, ed, Char('h')) == Running(e);
    assert Step(ops, e, Char('l')) == Running(ed);
    assert [Char('h'), Char('l')][1..] == [Char('l')];
  }

  /** `j` then `k` from a line that has one below returns to the same line;
      the column survives unless the line below is shorter. */
  lemma DownThenUp<B>(ops: BufferOps<B>, ed: Editor<B>)
    requires ed.mode == Normal && CursorValid(ops, ed)
    requires ed.cursor.row + 1 < ops.lineCount(ed.buffer)
    ensures var r := Run(ops, ed, [Char('j'), Char('k')]);
      && r.Running? && r.ed.mode == Normal && r.ed.buffer == ed.buffer
      && r.ed.cursor.row == ed.cursor.row
      && r.ed.cursor.col == Min(ed.cursor.col, ops.rowLen(ed.buffer, ed.cursor.row + 1))
  {
    var row, col := ed.cursor.row, ed.cursor.col;
    var down := ed.(cursor := Cursor(row + 1, Min(ops.rowLen(ed.buffer, row + 1), col)));
    var up := ed.(cursor := Cursor(row, Min(ops.rowLen(ed.buffer, row), down.cursor.col)));
    assert Step(ops, ed, Char('j')) == Running(down);
    assert Step(ops, down, Char('k')) == Running(up);
    assert [Char('j'), Char('k')][1..] == [Char('k')];
    assert Run(ops, ed, [Char('j'), Char('k')]) == Run(ops, down, [Char('k')]);
    assert [Char('k')][1..] == [];
    assert Run(ops, down, [Char('k')]) == Run(ops, up, []);
  }

  /** Entering Insert mode with `i` and leaving it with Esc or Ctrl-c
      changes nothing. */
  lemma InsertThenCancel<B>(ops: BufferOps<B>, ed: Editor<B>, cancel: Key)
    requires ed.mode == Normal
    requires cancel == Esc || cancel == Ctrl('c')
    ensures Run(ops, ed, [Char('i'), cancel]) == Running(ed)
  {
    var e := ed.(mode := Insert);
    assert Step(ops, ed, Char('i')) == Running(e);
    assert Step(ops, e, cancel) == Running(ed);
    assert [Char('i'), cancel][1..] == [cancel];
    assert Run(ops, ed, [Char('i'), cancel]) == Run(ops, e, [cancel]);
    assert [cancel][1..] == [];
    assert Run(ops, e, [cancel]) == Run(ops, ed, []);
  }

  /** Keys other than `i` and `a` keep the editor in Normal mode with a
      valid cursor, whether or not a Ctrl-q ends the loop. */
  lemma {:induction false} NormalRunKeepsCursorValid<B>(ops: BufferOps<B>, ed: Editor<B>, keys: seq<Key>)
    requires ed.mode == Normal && CursorValid(ops, ed)
    requires forall i | 0 <= i < |keys| :: keys[i] != Char('i') && keys[i] != Char('a')
    ensures var r := Run(ops, ed, keys); r.ed.mode == Normal && CursorValid(ops, r.ed)
    ensures Run(ops, ed, keys).ed.buffer == ed.buffer
    decreases |keys|
  {
    if |keys| > 0 {
      match Step(ops, ed, keys[0])
      case Stopped(e) =>
      case Running(e) =>
        assert forall i | 0 <= i < |keys[1..]| :: keys[1..][i] == keys[i + 1];
        NormalRunKeepsCursorValid(ops, e, keys[1..]);
    }
  }

  /** Characters of a line (no newline), typed in Insert mode, advance the
      cursor by one column each and stay on the same row. */
  lemma {:induction false} TypingAdvances<B>(ops: BufferOps<B>, ed: Editor<B>, text: string)
    requires ed.mode == Insert
    requires forall i | 0 <= i < |text| :: text[i] != '\n'
    ensures var r := Run(ops, ed, seq(|text|, i requires 0 <= i < |text| => Char(text[i])));
      && r.Running? && r.ed.mode == Insert
      && r.ed.cursor == Cursor(ed.cursor.row, ed.cursor.col + |text|)
    decreases |text|
  {
    var keys := seq(|text|, i requires 0 <= i < |text| => Char(text[i]));
    if |text| > 0 {
      var e := HandleInsert(ops, ed, Char(text[0]));
      assert Step(ops, ed, keys[0]) == Running(e);
      var rest := text[1..];
      assert keys[1..] == seq(|rest|, i requires 0 <= i < |rest| => Char(rest[i]));
      TypingAdvances(ops, e, rest);
    }
  }
}
