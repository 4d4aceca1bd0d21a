/** What the key loop of src/editor.rs guarantees across one or many keys:
    the cursor stays in the buffer, Normal-mode keys that complete no
    command only accumulate text, cancel keys return to an empty Normal
    mode, and typing then erasing on the command line is undone exactly. */
module EditorProperties {
  import opened Wrappers
  import opened Keys
  import opened Arith
  import opened Editor

  // ---------------------------------------------------------------------------
  // Key text (editor.rs:250-255)
  // ---------------------------------------------------------------------------

  /** A key adds no text exactly when Normal mode ignores it, and the text
      it adds names the key unambiguously. */
  lemma KeyTextRoundTrip(k: Key)
    ensures KeyText(k) == [] <==> k.Backspace? || k.Other?
    ensures KeyText(k) != [] ==> KeyOfText(KeyText(k)) == Some(k)
  {
    if k.Ctrl? {
      var t := KeyText(k);
      assert t[..3] == "<C-" && t[3] == k.c && t[4] == '>';
      assert t[1] != "<Esc>"[1];
    }
  }

  // ---------------------------------------------------------------------------
  // Repeated pastes (editor.rs:176-179, 187-190)
  // ---------------------------------------------------------------------------

  /** `m + n` insertions are `m` insertions followed by `n` more at the same
      position: no insertion drifts. */
  lemma {:induction false} InsertRepeatedSplit<B>(ops: BufferOps<B>, b: B, col: nat, row: nat, y: B, m: nat, n: nat)
    ensures InsertRepeated(ops, b, col, row, y, m + n)
      == InsertRepeated(ops, InsertRepeated(ops, b, col, row, y, m), col, row, y, n)
    decreases m
  {
    if m > 0 {
      InsertRepeatedSplit(ops, ops.insert(b, col, row, y), col, row, y, m - 1, n);
    }
  }

  /** The last of `n + 1` insertions goes to the same position as the first. */
  lemma InsertRepeatedLast<B>(ops: BufferOps<B>, b: B, col: nat, row: nat, y: B, n: nat)
    ensures InsertRepeated(ops, b, col, row, y, n + 1)
      == ops.insert(InsertRepeated(ops, b, col, row, y, n), col, row, y)
  {
    InsertRepeatedSplit(ops, b, col, row, y, n, 1);
  }

  // ---------------------------------------------------------------------------
  // Normal mode over many keys
  // ---------------------------------------------------------------------------

  /** The text a sequence of Normal-mode keys adds to the pending command. */
  function KeysText(keys: seq<Key>): string
    decreases |keys|
  {
    if |keys| == 0 then [] else KeyText(keys[0]) + KeysText(keys[1..])
  }

  /** A Normal-mode key that completes no command only extends the pending
      text; mode, buffer, yank register and an in-buffer cursor are untouched. */
  lemma FailedParseKeepsState<B>(env: Env<B>, ed: Editor<B>, k: Key)
    requires ed.mode.Normal? && CursorInBuffer(env, ed)
    requires env.parse(ed.mode.cmd + KeyText(k)).None?
    ensures Step(env, ed, k) == Running(ed.(mode := Normal(ed.mode.cmd + KeyText(k))))
  {
  }

  /** Typing `keys` after `pending` completes no command at any key. */
  ghost predicate NoneCompletes<B>(env: Env<B>, pending: string, keys: seq<Key>)
    decreases |keys|
  {
    |keys| == 0 ||
    (env.parse(pending + KeyText(keys[0])).None? && NoneCompletes(env, pending + KeyText(keys[0]), keys[1..]))
  }

  /** Keys none of which completes a command accumulate their text in the
      pending command and change nothing else. */
  lemma {:induction false} PendingAccumulates<B>(env: Env<B>, ed: Editor<B>, keys: seq<Key>)
    requires ed.mode.Normal? && CursorInBuffer(env, ed)
    requires NoneCompletes(env, ed.mode.cmd, keys)
    ensures Run(env, ed, keys) == Running(ed.(mode := Normal(ed.mode.cmd + KeysText(keys))))
    decreases |keys|
  {
    if |keys| > 0 {
      var e := PendingFirstKey(env, ed, keys);
      PendingAccumulates(env, e, keys[1..]);
      assert ed.mode.cmd + KeyText(keys[0]) + KeysText(keys[1..])
        == ed.mode.cmd + (KeyText(keys[0]) + KeysText(keys[1..]));
    }
  }

  /** The first of several keys that complete no command: the run goes on
      from the state with that key's text appended. */
  lemma PendingFirstKey<B>(env: Env<B>, ed: Editor<B>, keys: seq<Key>) returns (e: Editor<B>)
    requires ed.mode.Normal? && CursorInBuffer(env, ed)
    requires |keys| > 0 && NoneCompletes(env, ed.mode.cmd, keys)
    ensures e == ed.(mode := Normal(ed.mode.cmd + KeyText(keys[0])))
    ensures CursorInBuffer(env, e) && NoneCompletes(env, e.mode.cmd, keys[1..])
    ensures Run(env, ed, keys) == Run(env, e, keys[1..])
  {
    e := ed.(mode := Normal(ed.mode.cmd + KeyText(keys[0])));
    FailedParseKeepsState(env, ed, keys[0]);
  }

  /** A parsed `Escape` command drops the pending text and nothing else. */
  lemma EscapeOnlyClears<B>(env: Env<B>, ed: Editor<B>, k: Key)
    requires ed.mode.Normal? && CursorInBuffer(env, ed)
    requires env.parse(ed.mode.cmd + KeyText(k)).Some?
    requires env.parse(ed.mode.cmd + KeyText(k)).value.kind == Escape
    ensures Step(env, ed, k) == Running(ed.(mode := Normal([])))
  {
  }

  /** A successfully parsed movement leaves Normal mode with nothing pending,
      moves the cursor by the count (left and up saturating at 0), and then
      clamps it into the buffer; buffer and yank register stay. */
  lemma MovementStep<B>(env: Env<B>, ed: Editor<B>, k: Key)
    requires ed.mode.Normal?
    requires env.parse(ed.mode.cmd + KeyText(k)).Some?
    requires env.parse(ed.mode.cmd + KeyText(k)).value.kind in {CursorLeft, CursorDown, CursorUp, CursorRight}
    ensures var r := Step(env, ed, k);
      var n := env.parse(ed.mode.cmd + KeyText(k)).value.count;
      var kind := env.parse(ed.mode.cmd + KeyText(k)).value.kind;
      var lastRow := SatSub(env.buf.lineCount(ed.buffer), 1);
      && r.Running?
      && r.ed.mode == Normal([]) && r.ed.buffer == ed.buffer && r.ed.yanked == ed.yanked
      && (kind == CursorDown ==> r.ed.cursor.row == Min(ed.cursor.row + n, lastRow))
      && (kind == CursorUp ==> r.ed.cursor.row == Min(SatSub(ed.cursor.row, n), lastRow))
      && (kind in {CursorLeft, CursorRight} ==> r.ed.cursor.row == Min(ed.cursor.row, lastRow))
      && var rowLen := env.buf.rowLen(ed.buffer, r.ed.cursor.row);
      && (kind == CursorLeft ==> r.ed.cursor.col == Min(SatSub(ed.cursor.col, n), rowLen))
      && (kind == CursorRight ==> r.ed.cursor.col == Min(ed.cursor.col + n, rowLen))
      && (kind in {CursorDown, CursorUp} ==> r.ed.cursor.col == Min(ed.cursor.col, rowLen))
  {
  }

  // ---------------------------------------------------------------------------
  // Cancelling (editor.rs:234-236, 271-273)
  // ---------------------------------------------------------------------------

  /** Esc and Ctrl-c leave Insert mode, and leave CmdLine mode without
      running the command however much was typed, for an empty Normal mode. */
  lemma CancelReturnsToNormal<B>(env: Env<B>, ed: Editor<B>, k: Key)
    requires ed.mode.Insert? || ed.mode.CmdLine?
    requires k == Esc || k == Ctrl('c')
    ensures Step(env, ed, k) == Running(Clamp(env, ed.(mode := Normal([]))))
  {
  }

  // ---------------------------------------------------------------------------
  // Command-line editing (editor.rs:259-276)
  // ---------------------------------------------------------------------------

  /** Typing a character on the command line and erasing it with Backspace
      gives back the state before, whatever had been typed already. */
  lemma TypeThenBackspace<B>(env: Env<B>, ed: Editor<B>, c: char)
    requires ed.mode.CmdLine? && CursorInBuffer(env, ed)
    requires c != '\n'
    ensures Run(env, ed, [Char(c), Backspace]) == Running(ed)
  {
    var typed := ed.(mode := CmdLine(ed.mode.cmdline + [c]));
    assert Step(env, ed, Char(c)) == Running(typed);
    assert Pop(ed.mode.cmdline + [c]) == ed.mode.cmdline;
    assert Step(env, typed, Backspace) == Running(ed);
    var keys := [Char(c), Backspace];
    assert keys[1..] == [Backspace];
    assert Run(env, ed, keys) == Run(env, typed, [Backspace]);
    assert Run(env, typed, [Backspace]) == Run(env, ed, []);
  }

  /** On the command line a character other than Enter is appended and
      Backspace drops the last character; nothing else changes. */
  lemma CmdLineEditing<B>(env: Env<B>, ed: Editor<B>, k: Key)
    requires ed.mode.CmdLine? && CursorInBuffer(env, ed)
    ensures k.Char? && k.c != '\n' ==>
      Step(env, ed, k) == Running(ed.(mode := CmdLine(ed.mode.cmdline + [k.c])))
    ensures k == Backspace ==>
      Step(env, ed, k) == Running(ed.(mode := CmdLine(Pop(ed.mode.cmdline))))
    ensures k == Backspace && |ed.mode.cmdline| > 0 ==>
      ed.mode.cmdline == Pop(ed.mode.cmdline) + [ed.mode.cmdline[|ed.mode.cmdline| - 1]]
    // every other key but Esc and Ctrl-c is ignored
    ensures k.Other? || (k.Ctrl? && k.c != 'c') ==> Step(env, ed, k) == Running(ed)
  {
  }

  /** A Normal-mode key is appended to the pending text, which is then
      handled by `handle_normal_mode` and clamped; it never stops the loop.
      With `HandleNormal`'s contract this fixes the effect of every command
      kind the parse can produce. */
  lemma NormalStep<B>(env: Env<B>, ed: Editor<B>, k: Key)
    requires ed.mode.Normal?
    ensures Step(env, ed, k) == Running(Clamp(env, HandleNormal(env, ed.(mode := Normal(ed.mode.cmd + KeyText(k))))))
  {
  }

  /** An Insert-mode key is handled by `handle_insert_mode` and then clamped;
      it never stops the loop. */
  lemma InsertStep<B>(env: Env<B>, ed: Editor<B>, k: Key)
    requires ed.mode.Insert?
    ensures Step(env, ed, k) == Running(Clamp(env, HandleInsert(env, ed, k)))
  {
  }

  /** Backspace on an empty command line changes nothing. */
  lemma BackspaceOnEmpty<B>(env: Env<B>, ed: Editor<B>)
    requires ed.mode == CmdLine([]) && CursorInBuffer(env, ed)
    ensures Step(env, ed, Backspace) == Running(ed)
  {
  }

  /** Enter on the command line runs the command: a `Quit` command stops the loop,
      anything else (a `Write`, or text that is no command) returns to an
      empty Normal mode with buffer, cursor and register unchanged. */
  lemma EnterRunsCommand<B>(env: Env<B>, ed: Editor<B>)
    requires ed.mode.CmdLine? && CursorInBuffer(env, ed)
    ensures env.parseCmdLine(ed.mode.cmdline) == Some(Quit) ==>
      Step(env, ed, Char('\n')) == Stopped(ed)
    ensures env.parseCmdLine(ed.mode.cmdline) != Some(Quit) ==>
      Step(env, ed, Char('\n')) == Running(ed.(mode := Normal([])))
  {
  }

  // ---------------------------------------------------------------------------
  // The cursor stays in the buffer (editor.rs:278-282)
  // ---------------------------------------------------------------------------

  /** Whatever the keys, the loop ends with the cursor in the buffer when it
      started there. */
  lemma {:induction false} RunKeepsCursorInBuffer<B>(env: Env<B>, ed: Editor<B>, keys: seq<Key>)
    requires CursorInBuffer(env, ed)
    ensures CursorInBuffer(env, Run(env, ed, keys).ed)
    decreases |keys|
  {
    if |keys| > 0 {
      match Step(env, ed, keys[0])
      case Stopped(e) =>
      case Running(e) => RunKeepsCursorInBuffer(env, e, keys[1..]);
    }
  }

  /** Every state reachable from a freshly opened buffer has its cursor in
      the buffer. */
  lemma ReachableCursorInBuffer<B>(env: Env<B>, b: B, empty: B, keys: seq<Key>)
    ensures CursorInBuffer(env, Run(env, Open(b, empty), keys).ed)
  {
    RunKeepsCursorInBuffer(env, Open(b, empty), keys);
  }
}
