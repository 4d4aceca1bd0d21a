/** termion's key events, as far as the editors tell them apart. */
module Keys {

  /** `Other` stands for every key both editors ignore (arrows, function keys, ...). */
  datatype Key = Char(c: char) | Ctrl(c: char) | Esc | Backspace | Other
}
