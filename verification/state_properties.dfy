/** What src/state.rs promises about modes, scrolling and selection spans. */
module StateProperties {
  import opened State

  /** The accessors are the inverses of the mode constructors, and the
      default mode is Normal with nothing pending (state.rs:13-33). */
  lemma ModeAccessors(s: string)
    ensures GetCmd(Normal(s)) == s && GetCmdline(CmdLine(s)) == s
    ensures DefaultMode.Normal? && GetCmd(DefaultMode) == []
  {
  }

  /** A fresh state measures from the start of the buffer's first line. */
  lemma DefaultCursorOffset<B>(q: Queries<B>, empty: B, size: (U16, U16))
    ensures GetCursorOffset(q, New(empty, size)) == q.offset(empty, 0, 0)
    ensures CountWordForward(q, New(empty, size)) == q.countForward(empty, 0, 0)
    ensures CountWordBack(q, New(empty, size)) == q.countBack(empty, 0, 0)
  {
  }

  /** The queries see only the absolute row: scrolling the view while the
      cursor stays on the same buffer line changes no offset, no count and
      so no span. */
  lemma ScrollInvariant<B>(q: Queries<B>, st: State<B>, st': State<B>, s: Selection)
    requires st'.buffer == st.buffer && st'.cursor.col == st.cursor.col
    requires st'.cursor.row + st'.rowOffset == st.cursor.row + st.rowOffset
    requires Measurable(s.kind) && (s.kind != ForwardWord ==> BackFits(q, st))
    ensures GetCursorOffset(q, st') == GetCursorOffset(q, st)
    ensures CountWordForward(q, st') == CountWordForward(q, st)
    ensures CountWordBack(q, st') == CountWordBack(q, st)
    ensures (s.kind != ForwardWord ==> BackFits(q, st')) && MeasureSelection(q, st', s) == MeasureSelection(q, st, s)
  {
  }

  /** Offset `i` lies in the span `r`, end excluded. */
  predicate InSpan(i: nat, r: (nat, nat)) {
    r.0 <= i < r.1
  }

  /** The Word span is exactly the union of the BackWord and ForwardWord
      spans: they meet at the cursor offset. */
  lemma WordIsUnion<B>(q: Queries<B>, st: State<B>, n: nat)
    requires BackFits(q, st)
    ensures forall i: nat :: InSpan(i, MeasureSelection(q, st, Selection(Word, n))) <==>
      InSpan(i, MeasureSelection(q, st, Selection(BackWord, n))) ||
      InSpan(i, MeasureSelection(q, st, Selection(ForwardWord, n)))
  {
  }

  /** The selection's count does not change its span. */
  lemma CountIgnored<B>(q: Queries<B>, st: State<B>, k: SelectionKind, m: nat, n: nat)
    requires Measurable(k) && (k != ForwardWord ==> BackFits(q, st))
    ensures MeasureSelection(q, st, Selection(k, m)) == MeasureSelection(q, st, Selection(k, n))
  {
  }
}
