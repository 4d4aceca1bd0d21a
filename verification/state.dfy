/** The editor state of src/state.rs: the mode with its pending text, the
    cursor, the scroll offset, and the measurement of a selection as a
    `(start, end)` span of buffer offsets.

    This file keeps its own `Mode` and `SelectionKind`: the state module was
    written against a selection enum without `LineRemain`, and its `Mode`
    is a type of its own, distinct from the editor loop's.

    The buffer is the type parameter `B`; the three buffer queries the state
    relies on (offset of a cursor, length of the word run forward and back)
    are the abstract functions of `Queries`, since the buffer's source is not
    part of this model. */
module State {

  datatype Mode = Normal(cmd: string) | Insert | CmdLine(cmdline: string)

  /** `Mode::default()`. */
  const DefaultMode: Mode := Normal([])

  /** `get_cmd`: the pending Normal-mode text; any other mode panics. */
  function GetCmd(m: Mode): (r: string)
    requires m.Normal?
    ensures Normal(r) == m
  {
    m.cmd
  }

  /** `get_cmdline`: the text typed on the command line; any other mode panics. */
  function GetCmdline(m: Mode): (r: string)
    requires m.CmdLine?
    ensures CmdLine(r) == m
  {
    m.cmdline
  }

  /** The terminal size is a pair of `u16`s. */
  newtype U16 = x: int | 0 <= x < 0x1_0000

  datatype Cursor = Cursor(row: nat, col: nat)

  /** `row` of the cursor is relative to the first line on screen,
      `rowOffset` is the number of lines scrolled past. */
  datatype State<B> = State(
    rowOffset: nat,
    cursor: Cursor,
    mode: Mode,
    yanked: B,
    size: (U16, U16),
    buffer: B)

  /** `State::default()`, for `empty` the default (empty) buffer. */
  function DefaultState<B>(empty: B): State<B> {
    State(0, Cursor(0, 0), DefaultMode, empty, (0, 0), empty)
  }

  /** `State::new()`: the default state with the terminal's size, which is
      read from the terminal and so is a parameter here. */
  function New<B>(empty: B, size: (U16, U16)): (st: State<B>)
    ensures st.size == size
    ensures st.cursor == Cursor(0, 0) && st.rowOffset == 0
    ensures st.mode.Normal? && GetCmd(st.mode) == []
    ensures st.buffer == empty && st.yanked == empty
  {
    DefaultState(empty).(size := size)
  }

  /** The buffer queries the state uses, each at a column and an absolute row. */
  datatype Queries<!B> = Queries(
    offset: (B, nat, nat) -> nat,
    countForward: (B, nat, nat) -> nat,
    countBack: (B, nat, nat) -> nat)

  /** The row of the cursor in the whole buffer. */
  function AbsRow<B>(st: State<B>): nat {
    st.cursor.row + st.rowOffset
  }

  /** `get_cursor_offset`: the buffer offset under the cursor. */
  function GetCursorOffset<B>(q: Queries<B>, st: State<B>): nat {
    q.offset(st.buffer, st.cursor.col, AbsRow(st))
  }

  /** `count_word_forward`. */
  function CountWordForward<B>(q: Queries<B>, st: State<B>): nat {
    q.countForward(st.buffer, st.cursor.col, AbsRow(st))
  }

  /** `count_word_back`. */
  function CountWordBack<B>(q: Queries<B>, st: State<B>): nat {
    q.countBack(st.buffer, st.cursor.col, AbsRow(st))
  }

  /** The selection kinds of the action module this file was written against. */
  datatype SelectionKind = Left | Down | Up | Right | ForwardWord | BackWord | Word | Line

  datatype Selection = Selection(kind: SelectionKind, count: nat)

  /** The kinds `measure_selection` implements; the others reach `unimplemented!()`. */
  predicate Measurable(k: SelectionKind) {
    k == ForwardWord || k == BackWord || k == Word
  }

  /** The back count fits below the cursor offset, so that the `usize`
      subtraction of the BackWord and Word spans does not underflow. */
  predicate BackFits<B>(q: Queries<B>, st: State<B>) {
    CountWordBack(q, st) <= GetCursorOffset(q, st)
  }

  /** `measure_selection`: the span `(start, end)` of a word selection
      around the cursor offset. The selection's count is not used. */
  function MeasureSelection<B>(q: Queries<B>, st: State<B>, s: Selection): (r: (nat, nat))
    requires Measurable(s.kind)
    requires s.kind != ForwardWord ==> BackFits(q, st)
    ensures r.0 <= GetCursorOffset(q, st) <= r.1
    ensures s.kind == ForwardWord ==>
      r.0 == GetCursorOffset(q, st) && r.1 - r.0 == CountWordForward(q, st)
    ensures s.kind == BackWord ==>
      r.1 == GetCursorOffset(q, st) && r.1 - r.0 == CountWordBack(q, st)
    ensures s.kind == Word ==>
      r.1 - r.0 == CountWordBack(q, st) + CountWordForward(q, st)
  {
    var off := GetCursorOffset(q, st);
    match s.kind
    case ForwardWord => (off, off + CountWordForward(q, st))
    case BackWord => (off - CountWordBack(q, st), off)
    case Word => (off - CountWordBack(q, st), off + CountWordForward(q, st))
  }
}
