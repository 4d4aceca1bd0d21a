/** The Normal-mode command grammar of src/cmd.rs.

    A parser takes the pending key text and either fails or returns the
    unconsumed remainder together with a value; this is nom's `IResult` with
    every failure collapsed into `None` (the grammar never distinguishes an
    error from an incomplete input, because `tag` comes from
    `bytes::complete`). Ordered alternatives are first-success: the first
    alternative that succeeds wins, whatever the later ones would have done.

    The selection grammar (`selection::parse`) is not part of this model; it
    is the parameter `sel` of every parser that uses it. */
module Cmd {
  import opened Wrappers

  /** The span shapes the action layer knows of (cmd.rs uses `Line` and `LineRemain`). */
  datatype SelectionKind =
    | Left | Down | Up | Right
    | ForwardWord | BackWord | Word
    | Line | LineRemain

  datatype Selection = Selection(kind: SelectionKind, count: nat)

  /** `SelectionKind::once()`: a selection of the given kind repeated once. */
  function Once(kind: SelectionKind): Selection {
    Selection(kind, 1)
  }

  datatype MovementKind =
    | ScrollScreenDown | ScrollScreenUp
    | MoveToLineIndentHead | MoveToLineTail
    | MoveLine | MoveToTail
    | CursorLeft | CursorDown | CursorUp | CursorRight
    | ForwardWord | BackWord

  datatype EditKind = Remove(sel: Selection) | RemoveChar | AppendYank | InsertYank

  datatype ActionKind =
    | Movement(movement: MovementKind)
    | Edit(edit: EditKind)
    | Yank(sel: Selection)
    | IntoEditMode(sel: Selection)
    | IntoInsertMode
    | IntoAppendMode
    | IntoCmdLineMode
    | Repeat
    | ClearCmd

  datatype Action = Action(count: nat, kind: ActionKind)

  /** A parse result: the remainder of the input and the value read. */
  type Parsed<T> = Option<(string, T)>

  /** The interface of `selection::parse`, whose source is not part of this model. */
  type SelectionParser = string -> Parsed<Selection>

  /** `r` is what is left of `s` after dropping a prefix. */
  predicate IsSuffix(r: string, s: string) {
    |r| <= |s| && s[|s| - |r|..] == r
  }

  /** Every result `sel` gives is a suffix of its input, as for every nom parser. */
  ghost predicate SuffixParser(sel: SelectionParser) {
    forall t :: sel(t).Some? ==> IsSuffix(sel(t).value.0, t)
  }

  // ---------------------------------------------------------------------------
  // Combinators
  // ---------------------------------------------------------------------------

  /** `map(tag(t), |_| v)`: succeed with `v` when `t` is a prefix of `s`. */
  function TagAs<T>(t: string, s: string, v: T): Parsed<T> {
    if t <= s then Some((s[|t|..], v)) else None
  }

  /** `alt((a, b))`: the first alternative that succeeds. */
  function Alt<T>(a: Parsed<T>, b: Parsed<T>): Parsed<T> {
    if a.Some? then a else b
  }

  /** `pair(tag(t), sel)`: the selection read right after the literal `t`. */
  function TagThenSelection(sel: SelectionParser, t: string, s: string): Parsed<Selection> {
    if t <= s then sel(s[|t|..]) else None
  }

  /** An `alt` over `map(tag(token), |_| value)` alternatives, as a table
      tried in order. */
  function FirstTag<K>(table: seq<(string, K)>, s: string): Parsed<K> {
    if |table| == 0 then None
    else if table[0].0 <= s then Some((s[|table[0].0|..], table[0].1))
    else FirstTag(table[1..], s)
  }

  /** `many_till(anychar, alt((tag("<C-c>"), tag("<Esc>"))))`: skip characters
      one at a time, checking for a cancel token before each, and return what
      follows the first cancel token. */
  function SkipToCancel(s: string): Option<string>
    decreases |s|
  {
    if CtrlC <= s then Some(s[|CtrlC|..])
    else if EscToken <= s then Some(s[|EscToken|..])
    else if |s| == 0 then None
    else SkipToCancel(s[1..])
  }

  const CtrlC: string := "<C-c>"
  const EscToken: string := "<Esc>"

  // ---------------------------------------------------------------------------
  // The grammar, alternative by alternative (cmd.rs:14-90)
  // ---------------------------------------------------------------------------

  /** `movement_kind`: the movement tokens in the order they are tried. The
      nested `alt((tag("h"), tag("<Left>")))` pairs are flattened, which keeps
      the order. */
  const MovementTable: seq<(string, MovementKind)> := [
    ("<C-f>", ScrollScreenDown),
    ("<C-b>", ScrollScreenUp),
    ("^", MoveToLineIndentHead),
    ("$", MoveToLineTail),
    ("gg", MoveLine),
    ("G", MoveToTail),
    ("h", CursorLeft),
    ("<Left>", CursorLeft),
    ("j", CursorDown),
    ("<Down>", CursorDown),
    ("k", CursorUp),
    ("<Up>", CursorUp),
    ("l", CursorRight),
    ("<Right>", CursorRight),
    ("w", MovementKind.ForwardWord),
    ("b", MovementKind.BackWord)
  ]

  /** The single-key shortcuts `action_kind` tries right after the movements. */
  const ShortcutTable: seq<(string, ActionKind)> := [
    ("x", Edit(RemoveChar)),
    ("i", IntoInsertMode),
    ("a", IntoAppendMode),
    (":", IntoCmdLineMode),
    ("p", Edit(AppendYank)),
    ("P", Edit(InsertYank)),
    (".", Repeat)
  ]

  function ParseMovement(s: string): Parsed<ActionKind> {
    match FirstTag(MovementTable, s)
    case None => None
    case Some((rest, m)) => Some((rest, Movement(m)))
  }

  /** `remove`: "dd", then "d" followed by a selection, then "D". */
  function ParseRemove(sel: SelectionParser, s: string): Parsed<ActionKind> {
    Alt(TagAs("dd", s, Edit(Remove(Once(Line)))),
    Alt(match TagThenSelection(sel, "d", s)
        case None => None
        case Some((rest, x)) => Some((rest, Edit(Remove(x)))),
        TagAs("D", s, Edit(Remove(Once(LineRemain))))))
  }

  /** `edit`: "cc", then "c" followed by a selection, then "C". */
  function ParseEdit(sel: SelectionParser, s: string): Parsed<ActionKind> {
    Alt(TagAs("cc", s, IntoEditMode(Once(Line))),
    Alt(match TagThenSelection(sel, "c", s)
        case None => None
        case Some((rest, x)) => Some((rest, IntoEditMode(x))),
        TagAs("C", s, IntoEditMode(Once(LineRemain)))))
  }

  /** `yank`: "yy" or "Y", then "y" followed by a selection. */
  function ParseYank(sel: SelectionParser, s: string): Parsed<ActionKind> {
    Alt(Alt(TagAs("yy", s, Yank(Once(Line))), TagAs("Y", s, Yank(Once(Line)))),
        match TagThenSelection(sel, "y", s)
        case None => None
        case Some((rest, x)) => Some((rest, Yank(x))))
  }

  /** The catch-all: anything up to and including the first cancel token. */
  function ParseClear(s: string): Parsed<ActionKind> {
    match SkipToCancel(s)
    case None => None
    case Some(rest) => Some((rest, ClearCmd))
  }

  /** `action_kind`: the ordered alternatives of cmd.rs:73-89. */
  function ParseActionKind(sel: SelectionParser, s: string): Parsed<ActionKind> {
    Alt(ParseMovement(s),
    Alt(FirstTag(ShortcutTable, s),
    Alt(ParseRemove(sel, s),
    Alt(ParseEdit(sel, s),
    Alt(ParseYank(sel, s),
        ParseClear(s))))))
  }

  // ---------------------------------------------------------------------------
  // The count prefix (cmd.rs:92-96)
  // ---------------------------------------------------------------------------

  predicate IsDigit(c: char) {
    '0' <= c <= '9'
  }

  predicate AllDigits(s: string) {
    forall k | 0 <= k < |s| :: IsDigit(s[k])
  }

  /** `digit0`: the longest run of leading decimal digits, and what follows it. */
  function Digit0(s: string): (r: (string, string))
    ensures r.0 + r.1 == s
    ensures AllDigits(r.0)
    ensures |r.1| == 0 || !IsDigit(r.1[0])
    decreases |s|
  {
    if |s| > 0 && IsDigit(s[0]) then
      var (ds, rest) := Digit0(s[1..]);
      ([s[0]] + ds, rest)
    else
      ([], s)
  }

  function DigitValue(c: char): nat
    requires IsDigit(c)
  {
    c as int - '0' as int
  }

  /** The decimal number a run of digits spells, most significant first. */
  function DecimalValue(ds: string): nat
    requires AllDigits(ds)
    decreases |ds|
  {
    if |ds| == 0 then 0
    else DecimalValue(ds[..|ds| - 1]) * 10 + DigitValue(ds[|ds| - 1])
  }

  /** The largest `usize` on a 64-bit target. */
  const UsizeMax: nat := 0xFFFF_FFFF_FFFF_FFFF

  /** `n.parse().unwrap_or(1)` for the digit run `n`: the empty run and a run
      that overflows `usize` both fall back to 1. */
  function CountOf(ds: string): nat
    requires AllDigits(ds)
  {
    if |ds| == 0 then 1
    else if DecimalValue(ds) <= UsizeMax then DecimalValue(ds)
    else 1
  }

  /** `cmd` / `parse`: an optional count, then one action. */
  function Parse(sel: SelectionParser, s: string): Parsed<Action> {
    var (ds, rest) := Digit0(s);
    match ParseActionKind(sel, rest)
    case None => None
    case Some((rem, kind)) => Some((rem, Action(CountOf(ds), kind)))
  }

  /** The shortest decimal spelling of `n`; the inverse of `DecimalValue`. */
  function ToDecimal(n: nat): (r: string)
    ensures |r| > 0 && AllDigits(r)
  {
    if n < 10 then [('0' as int + n) as char]
    else ToDecimal(n / 10) + [('0' as int + n % 10) as char]
  }
}
