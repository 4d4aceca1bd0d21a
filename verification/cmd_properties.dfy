/** What the command grammar of src/cmd.rs guarantees: first match wins in
    each ordered table, which key sequences read as which action, how the
    count prefix is read, and that a parse only ever consumes a prefix. */
module CmdProperties {
  import opened Wrappers
  import opened Cmd

  // ---------------------------------------------------------------------------
  // Ordered tables: first match wins
  // ---------------------------------------------------------------------------

  /** Entry `i` is the first entry whose token is a prefix of `s`. */
  ghost predicate FirstMatchAt<K>(table: seq<(string, K)>, s: string, i: int) {
    && 0 <= i < |table|
    && table[i].0 <= s
    && forall j | 0 <= j < i :: !(table[j].0 <= s)
  }

  /** `FirstTag` fails exactly when no token is a prefix of the input, and
      otherwise answers with the first entry whose token is. */
  lemma {:induction false} FirstTagSpec<K>(table: seq<(string, K)>, s: string)
    ensures FirstTag(table, s).None? <==> forall i | 0 <= i < |table| :: !(table[i].0 <= s)
    ensures forall i | FirstMatchAt(table, s, i) ::
      FirstTag(table, s) == Some((s[|table[i].0|..], table[i].1))
    decreases |table|
  {
    if |table| > 0 && !(table[0].0 <= s) {
      var tail := table[1..];
      FirstTagSpec(tail, s);
      forall i | FirstMatchAt(table, s, i)
        ensures FirstMatchAt(tail, s, i - 1)
      {
        assert tail[i - 1] == table[i];
        forall j | 0 <= j < i - 1 ensures !(tail[j].0 <= s) {
          assert tail[j] == table[j + 1];
        }
      }
      if FirstTag(table, s).None? {
        forall i | 0 <= i < |table| ensures !(table[i].0 <= s) {
          if i > 0 {
            assert tail[i - 1] == table[i];
          }
        }
      }
    }
  }

  /** Two tokens differ somewhere within their common length, so neither is a
      prefix of anything the other starts. */
  ghost predicate Diverge(a: string, b: string) {
    exists k :: 0 <= k < |a| && k < |b| && a[k] != b[k]
  }

  /** No token of the table starts another one. */
  ghost predicate PrefixFree<K>(table: seq<(string, K)>) {
    forall i, j | 0 <= i < |table| && 0 <= j < |table| && i != j ::
      Diverge(table[i].0, table[j].0)
  }

  /** Every token of the table diverges from `t`. */
  ghost predicate MissesAll<K>(table: seq<(string, K)>, t: string) {
    forall i | 0 <= i < |table| :: Diverge(table[i].0, t)
  }

  lemma DivergeNotPrefix(a: string, b: string, rest: string)
    requires Diverge(a, b)
    ensures !(a <= b + rest)
  {
    var k :| 0 <= k < |a| && k < |b| && a[k] != b[k];
    assert (b + rest)[k] == b[k];
  }

  /** In a prefix-free table, input that starts with a token reads as that
      token's entry, whatever follows it. */
  lemma TokenWins<K>(table: seq<(string, K)>, i: int, rest: string)
    requires PrefixFree(table)
    requires 0 <= i < |table|
    ensures FirstTag(table, table[i].0 + rest) == Some((rest, table[i].1))
  {
    var s := table[i].0 + rest;
    forall j | 0 <= j < i ensures !(table[j].0 <= s) {
      DivergeNotPrefix(table[j].0, table[i].0, rest);
    }
    assert FirstMatchAt(table, s, i);
    FirstTagSpec(table, s);
    assert s[|table[i].0|..] == rest;
  }

  /** A table whose tokens all diverge from `t` cannot match input starting with `t`. */
  lemma TableMisses<K>(table: seq<(string, K)>, t: string, rest: string)
    requires MissesAll(table, t)
    ensures FirstTag(table, t + rest) == None
  {
    forall i | 0 <= i < |table| ensures !(table[i].0 <= t + rest) {
      DivergeNotPrefix(table[i].0, t, rest);
    }
    FirstTagSpec(table, t + rest);
  }

  lemma MovementTablePrefixFree()
    ensures PrefixFree(MovementTable)
  {
    forall i, j | 0 <= i < |MovementTable| && 0 <= j < |MovementTable| && i != j
      ensures Diverge(MovementTable[i].0, MovementTable[j].0)
    {
      var a, b := MovementTable[i].0, MovementTable[j].0;
      if a[0] != b[0] {
        assert a[0] != b[0];
      } else if a[1] != b[1] {
        assert a[1] != b[1];
      } else {
        assert a[3] != b[3];
      }
    }
  }

  lemma ShortcutTablePrefixFree()
    ensures PrefixFree(ShortcutTable)
  {
    forall i, j | 0 <= i < |ShortcutTable| && 0 <= j < |ShortcutTable| && i != j
      ensures Diverge(ShortcutTable[i].0, ShortcutTable[j].0)
    {
      assert ShortcutTable[i].0[0] != ShortcutTable[j].0[0];
    }
  }

  /** No movement token starts a shortcut key. */
  lemma MovementMissesShortcuts(j: int)
    requires 0 <= j < |ShortcutTable|
    ensures MissesAll(MovementTable, ShortcutTable[j].0)
  {
    forall i | 0 <= i < |MovementTable| ensures Diverge(MovementTable[i].0, ShortcutTable[j].0) {
      assert MovementTable[i].0[0] != ShortcutTable[j].0[0];
    }
  }

  /** The first characters that the remove, edit and yank families start with. */
  predicate FamilyHead(c: char) {
    c == 'd' || c == 'D' || c == 'c' || c == 'C' || c == 'y' || c == 'Y'
  }

  /** The characters movement tokens start with. */
  predicate MovementHead(c: char) {
    c == '<' || c == '^' || c == '$' || c == 'g' || c == 'G'
    || c == 'h' || c == 'j' || c == 'k' || c == 'l' || c == 'w' || c == 'b'
  }

  /** The characters shortcut tokens consist of. */
  predicate ShortcutHead(c: char) {
    c == 'x' || c == 'i' || c == 'a' || c == ':' || c == 'p' || c == 'P' || c == '.'
  }

  /** Every movement token is non-empty and starts with a movement head. */
  lemma MovementHeads()
    ensures forall i | 0 <= i < |MovementTable| ::
      |MovementTable[i].0| > 0 && MovementHead(MovementTable[i].0[0])
    ensures forall i | 0 <= i < |MovementTable| && MovementTable[i].0[0] == 'g' ::
      MovementTable[i].0 == "gg"
  {
  }

  /** A token that differs from `s` at some position within both is not a prefix of `s`. */
  lemma DifferAt(a: string, s: string, k: int)
    requires 0 <= k < |a| && k < |s| && a[k] != s[k]
    ensures !(a <= s)
  {
  }

  /** The bracketed movement tokens: "<" then one of C, L, D, U, R, and for
      the control keys a final f or b. */
  lemma BracketedMovements()
    ensures forall i | 0 <= i < |MovementTable| && MovementTable[i].0[0] == '<' ::
      && |MovementTable[i].0| >= 4
      && (MovementTable[i].0[1] == 'C' || MovementTable[i].0[1] == 'L' || MovementTable[i].0[1] == 'D'
          || MovementTable[i].0[1] == 'U' || MovementTable[i].0[1] == 'R')
      && (MovementTable[i].0[1] == 'C' ==> MovementTable[i].0[3] == 'f' || MovementTable[i].0[3] == 'b')
  {
  }

  /** Every shortcut token is a single shortcut head. */
  lemma ShortcutHeads()
    ensures forall i | 0 <= i < |ShortcutTable| ::
      |ShortcutTable[i].0| == 1 && ShortcutHead(ShortcutTable[i].0[0])
  {
  }

  /** A table whose tokens are non-empty and start with a character other
      than the first character of `s` cannot match `s`. */
  lemma HeadMisses<K>(table: seq<(string, K)>, s: string)
    requires |s| > 0
    requires forall i | 0 <= i < |table| :: |table[i].0| > 0 && table[i].0[0] != s[0]
    ensures FirstTag(table, s) == None
  {
    FirstTagSpec(table, s);
  }

  /** Neither table matches input that starts with a family head. */
  lemma TablesMissFamilyHead(s: string)
    requires |s| > 0 && FamilyHead(s[0])
    ensures FirstTag(MovementTable, s) == None
    ensures FirstTag(ShortcutTable, s) == None
  {
    MovementsMissFamilyHead(s);
    ShortcutsMissFamilyHead(s);
  }

  lemma MovementsMissFamilyHead(s: string)
    requires |s| > 0 && FamilyHead(s[0])
    ensures FirstTag(MovementTable, s) == None
  {
    MovementHeads();
    forall i | 0 <= i < |MovementTable|
      ensures |MovementTable[i].0| > 0 && MovementTable[i].0[0] != s[0]
    {
      assert MovementHead(MovementTable[i].0[0]);
    }
    HeadMisses(MovementTable, s);
  }

  lemma ShortcutsMissFamilyHead(s: string)
    requires |s| > 0 && FamilyHead(s[0])
    ensures FirstTag(ShortcutTable, s) == None
  {
    ShortcutHeads();
    forall i | 0 <= i < |ShortcutTable|
      ensures |ShortcutTable[i].0| > 0 && ShortcutTable[i].0[0] != s[0]
    {
      assert ShortcutHead(ShortcutTable[i].0[0]);
    }
    HeadMisses(ShortcutTable, s);
  }

  /** Input that does not start with a digit has an empty count run. */
  lemma NoLeadingDigit(s: string)
    requires |s| == 0 || !IsDigit(s[0])
    ensures Digit0(s) == ([], s)
  {
  }

  // ---------------------------------------------------------------------------
  // Which key sequences read as which action (cmd.rs:14-90)
  // ---------------------------------------------------------------------------

  /** Input that begins with a movement token parses as that movement, count
      1, whatever follows: "h<Esc>" is `CursorLeft` with "<Esc>" left over. */
  lemma MovementFirst(sel: SelectionParser, i: int, rest: string)
    requires 0 <= i < |MovementTable|
    ensures Parse(sel, MovementTable[i].0 + rest)
      == Some((rest, Action(1, Movement(MovementTable[i].1))))
  {
    var s := MovementTable[i].0 + rest;
    assert !IsDigit(s[0]);
    NoLeadingDigit(s);
    MovementTablePrefixFree();
    TokenWins(MovementTable, i, rest);
  }

  /** The single-key shortcuts x, i, a, :, p, P and . read as their action,
      count 1, whatever follows. */
  lemma ShortcutKeys(sel: SelectionParser, j: int, rest: string)
    requires 0 <= j < |ShortcutTable|
    ensures Parse(sel, ShortcutTable[j].0 + rest)
      == Some((rest, Action(1, ShortcutTable[j].1)))
  {
    var s := ShortcutTable[j].0 + rest;
    assert !IsDigit(s[0]);
    NoLeadingDigit(s);
    MovementMissesShortcuts(j);
    TableMisses(MovementTable, ShortcutTable[j].0, rest);
    ShortcutTablePrefixFree();
    TokenWins(ShortcutTable, j, rest);
  }

  /** `ParseActionKind` on input whose head belongs to a family reaches the
      family alternatives. */
  lemma FamilyReached(sel: SelectionParser, s: string)
    requires |s| > 0 && FamilyHead(s[0])
    ensures Parse(sel, s) == match Alt(ParseRemove(sel, s), Alt(ParseEdit(sel, s), Alt(ParseYank(sel, s), ParseClear(s))))
      case None => None
      case Some((rem, kind)) => Some((rem, Action(1, kind)))
  {
    NoLeadingDigit(s);
    TablesMissFamilyHead(s);
  }

  /** "dd" reads as removing the line and "D" as removing the rest of the
      line, whatever the selection grammar would make of what follows: "dd"
      is tried before "d" + selection. */
  lemma RemoveShortcuts(sel: SelectionParser, rest: string)
    ensures Parse(sel, "dd" + rest) == Some((rest, Action(1, Edit(Remove(Once(Line))))))
    ensures Parse(sel, "D" + rest) == Some((rest, Action(1, Edit(Remove(Once(LineRemain))))))
  {
    FamilyReached(sel, "dd" + rest);
    assert ("dd" + rest)[2..] == rest;
    FamilyReached(sel, "D" + rest);
    assert ("D" + rest)[1..] == rest;
  }

  /** "d" followed by something other than "d" removes whatever selection
      the selection grammar reads there. */
  lemma RemoveSelection(sel: SelectionParser, rest: string)
    requires !("d" <= rest)
    requires sel(rest).Some?
    ensures Parse(sel, "d" + rest) == Some((sel(rest).value.0, Action(1, Edit(Remove(sel(rest).value.1)))))
  {
    FamilyReached(sel, "d" + rest);
    assert ("d" + rest)[1..] == rest;
  }

  /** "cc" reads as changing the line and "C" the rest of the line. */
  lemma EditShortcuts(sel: SelectionParser, rest: string)
    ensures Parse(sel, "cc" + rest) == Some((rest, Action(1, IntoEditMode(Once(Line)))))
    ensures Parse(sel, "C" + rest) == Some((rest, Action(1, IntoEditMode(Once(LineRemain)))))
  {
    FamilyReached(sel, "cc" + rest);
    assert ("cc" + rest)[2..] == rest;
    FamilyReached(sel, "C" + rest);
    assert ("C" + rest)[1..] == rest;
  }

  /** "c" followed by something other than "c" changes the selection read there. */
  lemma EditSelection(sel: SelectionParser, rest: string)
    requires !("c" <= rest)
    requires sel(rest).Some?
    ensures Parse(sel, "c" + rest) == Some((sel(rest).value.0, Action(1, IntoEditMode(sel(rest).value.1))))
  {
    FamilyReached(sel, "c" + rest);
    assert ("c" + rest)[1..] == rest;
  }

  /** "yy" and "Y" both yank the line. */
  lemma YankShortcuts(sel: SelectionParser, rest: string)
    ensures Parse(sel, "yy" + rest) == Some((rest, Action(1, Yank(Once(Line)))))
    ensures Parse(sel, "Y" + rest) == Some((rest, Action(1, Yank(Once(Line)))))
  {
    FamilyReached(sel, "yy" + rest);
    assert ("yy" + rest)[2..] == rest;
    FamilyReached(sel, "Y" + rest);
    assert ("Y" + rest)[1..] == rest;
  }

  /** "y" followed by something other than "y" yanks the selection read there. */
  lemma YankSelection(sel: SelectionParser, rest: string)
    requires !("y" <= rest)
    requires sel(rest).Some?
    ensures Parse(sel, "y" + rest) == Some((sel(rest).value.0, Action(1, Yank(sel(rest).value.1))))
  {
    FamilyReached(sel, "y" + rest);
    assert ("y" + rest)[1..] == rest;
  }

  // ---------------------------------------------------------------------------
  // The catch-all (cmd.rs:85-88)
  // ---------------------------------------------------------------------------

  /** A cancel token starts at position `i` of `s`. */
  ghost predicate CancelAt(s: string, i: int) {
    0 <= i <= |s| && (CtrlC <= s[i..] || EscToken <= s[i..])
  }

  /** Position `i` holds the first cancel token of `s`. */
  ghost predicate FirstCancelAt(s: string, i: int) {
    CancelAt(s, i) && forall j | 0 <= j < i :: !CancelAt(s, j)
  }

  /** `SkipToCancel` fails exactly when `s` holds no cancel token, and
      otherwise returns what follows the first one. */
  lemma {:induction false} SkipToCancelSpec(s: string)
    ensures SkipToCancel(s).None? <==> forall i | 0 <= i <= |s| :: !CancelAt(s, i)
    ensures forall i | FirstCancelAt(s, i) :: SkipToCancel(s) == Some(s[i + 5..])
    decreases |s|
  {
    assert s[0..] == s;
    if CancelAt(s, 0) {
      forall i | FirstCancelAt(s, i) ensures i == 0 {}
    } else if |s| > 0 {
      var tail := s[1..];
      SkipToCancelSpec(tail);
      forall i | 1 <= i <= |s| ensures CancelAt(s, i) <==> CancelAt(tail, i - 1) {
        assert s[i..] == tail[i - 1..];
      }
      forall i | FirstCancelAt(s, i) ensures FirstCancelAt(tail, i - 1) && s[i + 5..] == tail[i - 1 + 5..] {
        forall j | 0 <= j < i - 1 ensures !CancelAt(tail, j) {
          assert !CancelAt(s, j + 1);
        }
      }
      if SkipToCancel(s).None? {
        forall i | 0 <= i <= |s| ensures !CancelAt(s, i) {
          if i > 0 {
            assert !CancelAt(tail, i - 1);
          }
        }
      } else {
        var i :| 0 <= i <= |tail| && CancelAt(tail, i);
        assert CancelAt(s, i + 1);
      }
    }
  }

  /** Input that no earlier alternative reads parses as `ClearCmd` exactly
      when it holds a cancel token, and the remainder is what follows the
      first one. */
  lemma ClearFallback(sel: SelectionParser, s: string)
    requires ParseMovement(s).None? && FirstTag(ShortcutTable, s).None?
    requires ParseRemove(sel, s).None? && ParseEdit(sel, s).None? && ParseYank(sel, s).None?
    ensures ParseActionKind(sel, s).None? <==> forall i | 0 <= i <= |s| :: !CancelAt(s, i)
    ensures forall i | FirstCancelAt(s, i) :: ParseActionKind(sel, s) == Some((s[i + 5..], ClearCmd))
  {
    SkipToCancelSpec(s);
  }

  /** "<Esc>" and "<C-c>" on their own, or followed by anything, read as
      `ClearCmd` with what follows them left over. */
  lemma CancelTokenClears(sel: SelectionParser, t: string, rest: string)
    requires t == EscToken || t == CtrlC
    ensures Parse(sel, t + rest) == Some((rest, Action(1, ClearCmd)))
  {
    var s := t + rest;
    assert s[..5] == t;
    NoLeadingDigit(s);
    assert CancelShape(s);
    CancelMissesMovements(s);
    CancelMissesShortcuts(s);
    assert s[5..] == rest;
  }

  /** What tells "<Esc>" and "<C-c>" apart from every movement token. */
  predicate CancelShape(s: string) {
    |s| >= 5 && s[0] == '<' && (s[1] == 'E' || (s[1] == 'C' && s[3] == 'c'))
  }

  lemma CancelMissesMovements(s: string)
    requires CancelShape(s)
    ensures FirstTag(MovementTable, s) == None
  {
    MovementHeads();
    BracketedMovements();
    forall i | 0 <= i < |MovementTable| ensures !(MovementTable[i].0 <= s) {
      var a := MovementTable[i].0;
      if a[0] != s[0] {
        DifferAt(a, s, 0);
      } else if a[1] != s[1] {
        DifferAt(a, s, 1);
      } else {
        DifferAt(a, s, 3);
      }
    }
    FirstTagSpec(MovementTable, s);
  }

  lemma CancelMissesShortcuts(s: string)
    requires CancelShape(s)
    ensures FirstTag(ShortcutTable, s) == None
  {
    ShortcutHeads();
    forall i | 0 <= i < |ShortcutTable| ensures !(ShortcutTable[i].0 <= s) {
      DifferAt(ShortcutTable[i].0, s, 0);
    }
    FirstTagSpec(ShortcutTable, s);
  }

  // ---------------------------------------------------------------------------
  // Incomplete input
  // ---------------------------------------------------------------------------

  /** The empty action text matches no alternative. */
  lemma EmptyActionFails(sel: SelectionParser)
    ensures ParseActionKind(sel, []) == None
  {
    MovementHeads();
    ShortcutHeads();
    FirstTagSpec(MovementTable, []);
    FirstTagSpec(ShortcutTable, []);
  }

  /** A count with nothing after it, and in particular the empty string, is
      incomplete: the parse fails rather than succeeding partially. */
  lemma CountAloneFails(sel: SelectionParser, ds: string)
    requires AllDigits(ds)
    ensures Parse(sel, ds) == None
  {
    DigitsOnly(ds);
    EmptyActionFails(sel);
  }

  lemma {:induction false} DigitsOnly(ds: string)
    requires AllDigits(ds)
    ensures Digit0(ds) == (ds, [])
    decreases |ds|
  {
    if |ds| > 0 {
      DigitsOnly(ds[1..]);
      assert [ds[0]] + ds[1..] == ds;
    }
  }

  /** "g" alone is the start of "gg" and reads as nothing yet. */
  lemma LoneGFails(sel: SelectionParser)
    ensures Parse(sel, "g") == None
  {
    var s := "g";
    NoLeadingDigit(s);
    LoneGMissesMovements();
    LoneGMissesShortcuts();
    DifferAt("d", s, 0);
    DifferAt("D", s, 0);
    DifferAt("c", s, 0);
    DifferAt("C", s, 0);
    DifferAt("y", s, 0);
    DifferAt("Y", s, 0);
    assert SkipToCancel(s) == None by {
      assert SkipToCancel(s[1..]) == None;
    }
  }

  lemma LoneGMissesShortcuts()
    ensures FirstTag(ShortcutTable, "g") == None
  {
    ShortcutHeads();
    HeadMisses(ShortcutTable, "g");
  }

  lemma LoneGMissesMovements()
    ensures FirstTag(MovementTable, "g") == None
  {
    var s := "g";
    MovementHeads();
    forall i | 0 <= i < |MovementTable| ensures !(MovementTable[i].0 <= s) {
      if MovementTable[i].0[0] != 'g' {
        DifferAt(MovementTable[i].0, s, 0);
      }
    }
    FirstTagSpec(MovementTable, s);
  }

  // ---------------------------------------------------------------------------
  // The count prefix (cmd.rs:92-96)
  // ---------------------------------------------------------------------------

  /** Without leading digits the count is 1 and the action is read from the
      whole input. */
  lemma CountDefault(sel: SelectionParser, s: string)
    requires |s| == 0 || !IsDigit(s[0])
    ensures Parse(sel, s).None? <==> ParseActionKind(sel, s).None?
    ensures Parse(sel, s).Some? ==>
      Parse(sel, s).value == (ParseActionKind(sel, s).value.0, Action(1, ParseActionKind(sel, s).value.1))
  {
    NoLeadingDigit(s);
  }

  /** A leading run of digits is the count when it fits a `usize` and 1 when
      it overflows; a run of zeros gives count 0. The action is read from
      what follows the run. */
  lemma CountDigits(sel: SelectionParser, ds: string, rest: string)
    requires |ds| > 0 && AllDigits(ds)
    requires |rest| == 0 || !IsDigit(rest[0])
    ensures Parse(sel, ds + rest).None? <==> ParseActionKind(sel, rest).None?
    ensures Parse(sel, ds + rest).Some? ==>
      Parse(sel, ds + rest).value == (ParseActionKind(sel, rest).value.0,
        Action(if DecimalValue(ds) <= UsizeMax then DecimalValue(ds) else 1, ParseActionKind(sel, rest).value.1))
  {
    DigitRunSplits(ds, rest);
  }

  /** `digit0` stops exactly at the end of a digit run followed by a non-digit. */
  lemma {:induction false} DigitRunSplits(ds: string, rest: string)
    requires AllDigits(ds)
    requires |rest| == 0 || !IsDigit(rest[0])
    ensures Digit0(ds + rest) == (ds, rest)
    decreases |ds|
  {
    if |ds| > 0 {
      DigitRunSplits(ds[1..], rest);
      assert (ds + rest)[1..] == ds[1..] + rest;
      assert [ds[0]] + ds[1..] == ds;
    } else {
      assert ds + rest == rest;
    }
  }

  /** Reading back the decimal spelling of `n` gives `n`. */
  lemma {:induction false} DecimalRoundTrip(n: nat)
    ensures DecimalValue(ToDecimal(n)) == n
  {
    if n >= 10 {
      DecimalRoundTrip(n / 10);
      var ds := ToDecimal(n);
      assert ds[..|ds| - 1] == ToDecimal(n / 10);
    }
  }

  /** Writing a number in front of an action sets its count: the number
      itself when it fits a `usize`, 1 when it does not. */
  lemma CountRoundTrip(sel: SelectionParser, n: nat, rest: string)
    requires |rest| == 0 || !IsDigit(rest[0])
    requires ParseActionKind(sel, rest).Some?
    ensures Parse(sel, ToDecimal(n) + rest)
      == Some((ParseActionKind(sel, rest).value.0,
               Action(if n <= UsizeMax then n else 1, ParseActionKind(sel, rest).value.1)))
  {
    DecimalRoundTrip(n);
    CountDigits(sel, ToDecimal(n), rest);
  }

  /** "0" is read as a count of zero, not as a movement of its own: "0h"
      moves left zero times. */
  lemma ZeroCount(sel: SelectionParser, i: int, rest: string)
    requires 0 <= i < |MovementTable|
    ensures Parse(sel, "0" + MovementTable[i].0 + rest)
      == Some((rest, Action(0, Movement(MovementTable[i].1))))
  {
    var t := MovementTable[i].0 + rest;
    MovementHeads();
    assert !IsDigit(t[0]);
    DigitRunSplits("0", t);
    assert "0" + MovementTable[i].0 + rest == "0" + t;
    MovementTablePrefixFree();
    TokenWins(MovementTable, i, rest);
    assert DecimalValue("0") == 0;
  }

  // ---------------------------------------------------------------------------
  // A parse consumes a non-empty prefix (cmd.rs:92-101)
  // ---------------------------------------------------------------------------

  /** A successful parse result leaves a proper suffix of the input `s`. */
  ghost predicate ProperParse<T>(r: Parsed<T>, s: string) {
    r.Some? ==> |r.value.0| < |s| && IsSuffix(r.value.0, s)
  }

  /** Every successful parse leaves a proper suffix of its input: the
      consumed prefix followed by the remainder is the input, and at least
      one character was consumed. */
  lemma ParseConsumesPrefix(sel: SelectionParser, s: string)
    requires SuffixParser(sel)
    ensures Parse(sel, s).Some? ==>
      var rem := Parse(sel, s).value.0;
      |rem| < |s| && s[..|s| - |rem|] + rem == s
  {
    var (ds, rest) := Digit0(s);
    ActionKindConsumes(sel, rest);
    if ParseActionKind(sel, rest).Some? {
      var rem := ParseActionKind(sel, rest).value.0;
      SuffixOfSuffix(rem, rest, ds);
    }
  }

  lemma SuffixOfSuffix(rem: string, rest: string, ds: string)
    requires IsSuffix(rem, rest)
    ensures IsSuffix(rem, ds + rest)
    ensures (ds + rest)[..|ds + rest| - |rem|] + rem == ds + rest
  {
    var s := ds + rest;
    assert s[|s| - |rem|..] == rest[|rest| - |rem|..];
  }

  lemma ActionKindConsumes(sel: SelectionParser, s: string)
    requires SuffixParser(sel)
    ensures ProperParse(ParseActionKind(sel, s), s)
  {
    MovementHeads();
    ShortcutHeads();
    FirstTagConsumes(MovementTable, s);
    FirstTagConsumes(ShortcutTable, s);
    RemoveConsumes(sel, s);
    EditConsumes(sel, s);
    YankConsumes(sel, s);
    SkipToCancelConsumes(s);
  }

  /** A non-empty tag consumes at least one character. */
  lemma TagConsumes<T>(t: string, s: string, v: T)
    requires |t| > 0
    ensures ProperParse(TagAs(t, s, v), s)
  {
    if t <= s {
      assert s[|s| - |s[|t|..]|..] == s[|t|..];
    }
  }

  lemma RemoveConsumes(sel: SelectionParser, s: string)
    requires SuffixParser(sel)
    ensures ProperParse(ParseRemove(sel, s), s)
  {
    TagConsumes("dd", s, Edit(Remove(Once(Line))));
    SelectionConsumes(sel, "d", s);
    TagConsumes("D", s, Edit(Remove(Once(LineRemain))));
  }

  lemma EditConsumes(sel: SelectionParser, s: string)
    requires SuffixParser(sel)
    ensures ProperParse(ParseEdit(sel, s), s)
  {
    TagConsumes("cc", s, IntoEditMode(Once(Line)));
    SelectionConsumes(sel, "c", s);
    TagConsumes("C", s, IntoEditMode(Once(LineRemain)));
  }

  lemma YankConsumes(sel: SelectionParser, s: string)
    requires SuffixParser(sel)
    ensures ProperParse(ParseYank(sel, s), s)
  {
    TagConsumes("yy", s, Yank(Once(Line)));
    TagConsumes("Y", s, Yank(Once(Line)));
    SelectionConsumes(sel, "y", s);
  }

  lemma {:induction false} FirstTagConsumes<K>(table: seq<(string, K)>, s: string)
    requires forall i | 0 <= i < |table| :: |table[i].0| > 0
    ensures ProperParse(FirstTag(table, s), s)
    decreases |table|
  {
    if |table| > 0 && !(table[0].0 <= s) {
      FirstTagConsumes(table[1..], s);
    }
  }

  lemma SelectionConsumes(sel: SelectionParser, t: string, s: string)
    requires SuffixParser(sel)
    requires |t| > 0
    ensures ProperParse(TagThenSelection(sel, t, s), s)
    ensures TagThenSelection(sel, t, s).Some? ==>
      t <= s && |TagThenSelection(sel, t, s).value.0| <= |s| - |t|
  {
    if t <= s && sel(s[|t|..]).Some? {
      var rest := s[|t|..];
      var rem := sel(rest).value.0;
      assert IsSuffix(rem, rest);
      assert s[|s| - |rem|..] == rest[|rest| - |rem|..];
    }
  }

  lemma {:induction false} SkipToCancelConsumes(s: string)
    ensures SkipToCancel(s).Some? ==>
      var rem := SkipToCancel(s).value;
      |rem| < |s| && IsSuffix(rem, s)
    decreases |s|
  {
    if !(CtrlC <= s) && !(EscToken <= s) && |s| > 0 {
      SkipToCancelConsumes(s[1..]);
      if SkipToCancel(s).Some? {
        var rem := SkipToCancel(s).value;
        assert s[|s| - |rem|..] == s[1..][|s[1..]| - |rem|..];
      }
    }
  }
}
