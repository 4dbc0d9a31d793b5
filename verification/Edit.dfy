/** The line editor's buffer: an array of lines with a row and column, refining a
    flat text with one offset. */
module Edit {
  const NL: char := '\n'

  // ----- lines and flat text -----

  /** lines that come before, each with its newline */
  function Before(ls: seq<string>): string {
    if ls == [] then "" else Before(ls[..|ls| - 1]) + ls[|ls| - 1] + [NL]
  }

  /** lines that come after, each behind a newline */
  function After(ls: seq<string>): string {
    if ls == [] then "" else [NL] + ls[0] + After(ls[1..])
  }

  /** the lines joined by newlines */
  function Join(ls: seq<string>): string
    requires |ls| > 0
  {
    ls[0] + After(ls[1..])
  }

  /** the text around row r */
  lemma {:induction false} JoinAt(ls: seq<string>, r: nat)
    requires r < |ls|
    ensures Join(ls) == Before(ls[..r]) + ls[r] + After(ls[r + 1..])
    decreases r
  {
    if r == 0 {
      assert ls[..0] == [];
    } else {
      JoinAt(ls, r - 1);
      assert ls[..r][..r - 1] == ls[..r - 1] && ls[..r][r - 1] == ls[r - 1];
      assert ls[r..][0] == ls[r] && ls[r..][1..] == ls[r + 1..];
      JoinStep(Before(ls[..r - 1]), ls[r - 1], ls[r], After(ls[r + 1..]));
    }
  }

  lemma JoinStep(a: string, x: string, y: string, b: string)
    ensures a + x + ([NL] + y + b) == a + x + [NL] + y + b
  {
  }

  /** the position of a row and column in the text */
  function OffsetOf(ls: seq<string>, r: nat, c: nat): nat
    requires r < |ls|
  {
    |Before(ls[..r])| + c
  }

  predicate OneLine(s: string) { NL !in s }

  // ----- edits of a flat text -----

  function Insert(t: string, o: nat, c: char): (r: string)
    requires o <= |t|
    ensures |r| == |t| + 1
  {
    t[..o] + [c] + t[o..]
  }

  function Delete(t: string, o: nat, n: nat): (r: string)
    requires o + n <= |t|
    ensures |r| == |t| - n
  {
    t[..o] + t[o + n..]
  }

  /** e is the end of the line that contains offset o */
  ghost predicate IsLineEnd(t: string, o: nat, e: nat) {
    o <= e <= |t| && NL !in t[o..e] && (e == |t| || t[e] == NL)
  }

  ghost predicate IsLineStart(t: string, o: nat, b: nat) {
    b <= o <= |t| && NL !in t[b..o] && (b == 0 || t[b - 1] == NL)
  }

  // ----- pieces of text around the cursor -----

  lemma SplitAt(a: string, l: string, b: string, c: nat)
    requires c <= |l|
    ensures var t := a + l + b; |a| + c <= |t| && t[..|a| + c] == a + l[..c] && t[|a| + c..] == l[c..] + b
  {
  }

  lemma InsertPiece(a: string, l: string, b: string, c: nat, x: char)
    requires c <= |l|
    ensures Insert(a + l + b, |a| + c, x) == a + (l[..c] + [x] + l[c..]) + b
  {
    SplitAt(a, l, b, c);
  }

  lemma DeletePiece(a: string, l: string, b: string, c: nat, n: nat)
    requires c + n <= |l|
    ensures Delete(a + l + b, |a| + c, n) == a + (l[..c] + l[c + n..]) + b
  {
    SplitAt(a, l, b, c);
    SplitAt(a, l, b, c + n);
  }

  /** the line around the cursor ends where the text has its next newline */
  lemma LineEnd(a: string, l: string, ls: seq<string>, c: nat)
    requires c <= |l| && OneLine(l)
    ensures IsLineEnd(a + l + After(ls), |a| + c, |a| + |l|)
  {
    var t := a + l + After(ls);
    assert t[|a| + c..|a| + |l|] == l[c..];
    if ls != [] { assert t[|a| + |l|] == After(ls)[0] == NL; }
  }

  lemma LineStart(ls: seq<string>, l: string, b: string, c: nat)
    requires c <= |l| && OneLine(l)
    ensures IsLineStart(Before(ls) + l + b, |Before(ls)| + c, |Before(ls)|)
  {
    var a := Before(ls);
    var t := a + l + b;
    assert t[|a|..|a| + c] == l[..c];
    if ls != [] { assert a[|a| - 1] == NL; assert t[|a| - 1] == a[|a| - 1]; }
  }

  // ----- the editor -----

  class Editor {
    var lines: seq<string>
    var row: nat
    var col: nat
    var top: nat
    var dirty: bool

    /** the cursor is inside the text and no line contains a newline */
    ghost predicate Valid()
      reads this
    {
      row < |lines| && col <= |lines[row]| && forall i | 0 <= i < |lines| :: OneLine(lines[i])
    }

    ghost function Text(): string
      reads this
      requires |lines| > 0
    {
      Join(lines)
    }

    ghost function Cursor(): nat
      reads this
      requires row < |lines|
    {
      OffsetOf(lines, row, col)
    }

    constructor (ls: seq<string>)
      requires |ls| > 0 && forall i | 0 <= i < |ls| :: OneLine(ls[i])
      ensures Valid() && lines == ls && Cursor() == 0 && !dirty
    {
      lines, row, col, top, dirty := ls, 0, 0, 0, false;
    }

    /** the text around the cursor */
    lemma Around()
      requires Valid()
      ensures Text() == Before(lines[..row]) + lines[row] + After(lines[row + 1..])
      ensures Cursor() <= |Text()| && IsLineStart(Text(), Cursor(), Cursor() - col)
      ensures IsLineEnd(Text(), Cursor(), Cursor() - col + |lines[row]|)
    {
      JoinAt(lines, row);
      LineStart(lines[..row], lines[row], After(lines[row + 1..]), col);
      LineEnd(Before(lines[..row]), lines[row], lines[row + 1..], col);
    }

    /** only the beginning has offset 0 */
    lemma Begin()
      requires Valid()
      ensures Cursor() <= |Text()| && (Cursor() == 0 <==> row == 0 && col == 0)
    {
      Around();
      if row > 0 { BeforeStep(lines, row - 1); } else { assert lines[..0] == []; }
    }

    /** replacing the current line leaves the text around it alone */
    lemma Replaced(ls: seq<string>, l: string)
      requires Valid() && ls == lines[row := l]
      ensures Join(ls) == Before(lines[..row]) + l + After(lines[row + 1..])
      ensures OffsetOf(ls, row, 0) == |Before(lines[..row])|
    {
      JoinAt(ls, row);
      assert ls[..row] == lines[..row] && ls[row + 1..] == lines[row + 1..];
    }

    method InsertByte(c: char)
      requires Valid() && c != NL
      modifies this`lines, this`row, this`col, this`dirty
      ensures Valid() && old(Cursor()) <= |old(Text())| && Text() == Insert(old(Text()), old(Cursor()), c)
      ensures Cursor() == old(Cursor()) + 1 && dirty
    {
      Around();
      var line := lines[row];
      var next := line[..col] + [c] + line[col..];
      InsertPiece(Before(lines[..row]), line, After(lines[row + 1..]), col, c);
      Replaced(lines[row := next], next);
      lines := lines[row := next];
      assert lines[..row] == old(lines[..row]);
      col := col + 1;
      dirty := true;
    }

    method InsertNewline()
      requires Valid()
      modifies this`lines, this`row, this`col, this`dirty
      ensures Valid() && old(Cursor()) <= |old(Text())| && Text() == Insert(old(Text()), old(Cursor()), NL)
      ensures Cursor() == old(Cursor()) + 1 && dirty
    {
      var line := lines[row];
      var next := lines[..row] + [line[..col], line[col..]] + lines[row + 1..];
      SplitInserts(lines, row, col, next);
      SplitOneLine(lines, row, col, next);
      lines, row, col, dirty := next, row + 1, 0, true;
    }

    /** bytes cut out of the current line are cut out of the text */
    lemma CutLine(pos: nat, n: nat, next: string)
      requires Valid() && pos + n <= |lines[row]| && next == lines[row][..pos] + lines[row][pos + n..]
      ensures
        var o := OffsetOf(lines, row, pos);
        o + n <= |Text()| && Join(lines[row := next]) == Delete(Text(), o, n)
    {
      JoinAt(lines, row);
      DeletePiece(Before(lines[..row]), lines[row], After(lines[row + 1..]), pos, n);
      Replaced(lines[row := next], next);
    }

    /** line_delete_bytes on the current line */
    method DeleteBytes(pos: nat, n: nat)
      requires Valid() && pos + n <= |lines[row]|
      modifies this`lines
      ensures
        var o := OffsetOf(old(lines), row, pos);
        && |lines| == |old(lines)| && lines[row] == old(lines[row][..pos] + lines[row][pos + n..]) &&
          (forall i | 0 <= i < |lines| :: OneLine(lines[i]))
        && lines[..row] == old(lines)[..row] && o + n <= |old(Text())| && Text() == Delete(old(Text()), o, n)
    {
      var line := lines[row];
      var next := line[..pos] + line[pos + n..];
      CutLine(pos, n, next);
      lines := lines[row := next];
    }

    /** line_insert_bytes and ed_remove_line: row r + 1 goes to the end of row r */
    method MergeWithNext(r: nat)
      requires Valid() && r + 1 < |lines|
      modifies this`lines
      ensures
        var o := OffsetOf(old(lines), r, |old(lines[r])|);
        && |lines| == |old(lines)| - 1 && lines[r] == old(lines[r] + lines[r + 1]) &&
          (forall i | 0 <= i < |lines| :: OneLine(lines[i]))
        && lines[..r] == old(lines)[..r] && o + 1 <= |old(Text())| && Text() == Delete(old(Text()), o, 1)
    {
      JoinLines(lines, r);
      lines := lines[..r] + [lines[r] + lines[r + 1]] + lines[r + 2..];
    }

    method Backspace()
      requires Valid()
      modifies this`lines, this`row, this`col, this`dirty
      ensures Valid() && old(Cursor()) <= |old(Text())|
      ensures if old(Cursor()) == 0 then Text() == old(Text()) && Cursor() == 0
        else Text() == Delete(old(Text()), old(Cursor()) - 1, 1) && Cursor() == old(Cursor()) - 1
      ensures dirty <==> old(dirty) || Text() != old(Text())
    {
      Begin();
      if col > 0 {
        BackspaceInLine();
      } else if row > 0 {
        BackspaceOverNewline();
      }
    }

    method BackspaceInLine()
      requires Valid() && col > 0
      modifies this`lines, this`row, this`col, this`dirty
      ensures Valid() && 0 < old(Cursor()) <= |old(Text())|
      ensures Text() == Delete(old(Text()), old(Cursor()) - 1, 1) && Cursor() == old(Cursor()) - 1 && dirty
    {
      Around();
      DeleteBytes(col - 1, 1);
      col := col - 1;
      dirty := true;
    }

    method BackspaceOverNewline()
      requires Valid() && col == 0 && row > 0
      modifies this`lines, this`row, this`col, this`dirty
      ensures Valid() && 0 < old(Cursor()) <= |old(Text())|
      ensures Text() == Delete(old(Text()), old(Cursor()) - 1, 1) && Cursor() == old(Cursor()) - 1 && dirty
    {
      BeforeStep(lines, row - 1);
      var len := |lines[row - 1]|;
      MergeWithNext(row - 1);
      row := row - 1;
      col := len;
      dirty := true;
    }

    method DeleteForward()
      requires Valid()
      modifies this`lines, this`row, this`col, this`dirty
      ensures Valid() && old(Cursor()) <= |old(Text())| && Cursor() == old(Cursor())
      ensures
        if old(Cursor()) == |old(Text())| then Text() == old(Text())
        else Text() == Delete(old(Text()), old(Cursor()), 1)
      ensures dirty <==> old(dirty) || Text() != old(Text())
    {
      Around();
      if col < |lines[row]| {
        DeleteBytes(col, 1);
        dirty := true;
      } else if row + 1 < |lines| {
        MergeWithNext(row);
        dirty := true;
      }
    }

    /** removes what is left of the line, up to but not including its newline */
    method KillToEol() returns (ghost e: nat)
      requires Valid()
      modifies this`lines, this`row, this`col, this`dirty
      ensures Valid() && Cursor() == old(Cursor())
      ensures IsLineEnd(old(Text()), old(Cursor()), e)
      ensures Text() == Delete(old(Text()), old(Cursor()), e - old(Cursor()))
      ensures dirty <==> old(dirty) || Text() != old(Text())
    {
      Around();
      var len := |lines[row]|;
      e := Cursor() - col + len;
      ghost var t := Text();
      if col < len {
        DeleteBytes(col, len - col);
        dirty := true;
      } else {
        assert t[..e] + t[e..] == t;
      }
    }

    // ----- movement -----

    method MoveLeft()
      requires Valid()
      modifies this`row, this`col
      ensures Valid() && Cursor() == if old(Cursor()) == 0 then 0 else old(Cursor()) - 1
    {
      if col > 0 {
        col := col - 1;
      } else if row > 0 {
        BeforeStep(lines, row - 1);
        row := row - 1;
        col := |lines[row]|;
      }
    }

    method MoveRight()
      requires Valid()
      modifies this`row, this`col
      ensures Valid() && Cursor() == if old(Cursor()) == |Text()| then old(Cursor()) else old(Cursor()) + 1
    {
      Around();
      if col < |lines[row]| {
        col := col + 1;
      } else if row + 1 < |lines| {
        BeforeStep(lines, row);
        row := row + 1;
        col := 0;
      }
    }

    method MoveHome()
      requires Valid()
      modifies this`col
      ensures Valid() && IsLineStart(Text(), old(Cursor()), Cursor())
    {
      Around();
      col := 0;
    }

    method MoveEnd()
      requires Valid()
      modifies this`col
      ensures Valid() && IsLineEnd(Text(), old(Cursor()), Cursor())
    {
      Around();
      col := |lines[row]|;
    }

    /** clamp_cursor: whatever the cursor, it ends up inside the text */
    method Clamp()
      requires |lines| > 0 && forall i | 0 <= i < |lines| :: OneLine(lines[i])
      modifies this`row, this`col, this`top
      ensures Valid() && top == (if old(top) > row then row else old(top))
      ensures row == (if old(row) < |lines| then old(row) else |lines| - 1)
      ensures col == if old(col) <= |lines[row]| then old(col) else |lines[row]|
    {
      if row >= |lines| { row := |lines| - 1; }
      if top > row { top := row; }
      if col > |lines[row]| { col := |lines[row]|; }
    }

    method MoveUp()
      requires Valid()
      modifies this`row, this`col, this`top
      ensures Valid() && top == (if old(top) > row then row else old(top))
      ensures row == RowUp(old(row), 1)
      ensures col == if old(col) <= |lines[row]| then old(col) else |lines[row]|
    {
      if row > 0 { row := row - 1; }
      Clamp();
    }

    method MoveDown()
      requires Valid()
      modifies this`row, this`col, this`top
      ensures Valid() && top == (if old(top) > row then row else old(top))
      ensures row == RowDown(old(row), 1, |lines|)
      ensures col == if old(col) <= |lines[row]| then old(col) else |lines[row]|
    {
      if row + 1 < |lines| { row := row + 1; }
      Clamp();
    }

    /** move_page, on a terminal with that many rows */
    method MovePage(up: bool, rows: int)
      requires Valid()
      modifies this`row, this`col, this`top
      ensures Valid() && top == (if old(top) > row then row else old(top))
      ensures row == if up then RowUp(old(row), PageStep(rows)) else RowDown(old(row), PageStep(rows), |lines|)
      ensures col == if old(col) <= |lines[row]| then old(col) else |lines[row]|
    {
      var step := if rows > 1 then rows - 1 else 1;
      if up {
        row := if row > step then row - step else 0;
      } else {
        row := row + step;
        if row > |lines| - 1 { row := |lines| - 1; }
      }
      Clamp();
    }
  }

  function PageStep(rows: int): nat { if rows > 1 then rows - 1 else 1 }

  /** the row k rows further up or down, as far as there are rows */
  function RowUp(r: nat, k: nat): nat { if r > k then r - k else 0 }

  function RowDown(r: nat, k: nat, n: nat): nat
    requires r < n
  {
    if r + k < n then r + k else n - 1
  }

  lemma BeforeStep(ls: seq<string>, r: nat)
    requires r < |ls|
    ensures |Before(ls[..r + 1])| == |Before(ls[..r])| + |ls[r]| + 1
  {
    assert ls[..r + 1][..r] == ls[..r] && ls[..r + 1][r] == ls[r];
  }

  /** a line split in two is a newline inserted */
  lemma SplitLine(ls: seq<string>, r: nat, c: nat, ls': seq<string>)
    requires r < |ls| && c <= |ls[r]| && ls' == ls[..r] + [ls[r][..c], ls[r][c..]] + ls[r + 1..]
    ensures Join(ls') == Before(ls[..r]) + (ls[r][..c] + [NL] + ls[r][c..]) + After(ls[r + 1..])
    ensures OffsetOf(ls', r + 1, 0) == OffsetOf(ls, r, c) + 1
  {
    JoinAt(ls', r + 1);
    assert ls'[..r + 1][..r] == ls[..r] && ls'[..r + 1][r] == ls[r][..c] && ls'[r + 2..] == ls[r + 1..];
    assert Before(ls'[..r + 1]) == Before(ls[..r]) + ls[r][..c] + [NL];
    SplitStep(Before(ls[..r]), ls[r][..c], ls[r][c..], After(ls[r + 1..]));
  }

  lemma SplitInserts(ls: seq<string>, r: nat, c: nat, ls': seq<string>)
    requires r < |ls| && c <= |ls[r]| && ls' == ls[..r] + [ls[r][..c], ls[r][c..]] + ls[r + 1..]
    ensures OffsetOf(ls, r, c) <= |Join(ls)| && Join(ls') == Insert(Join(ls), OffsetOf(ls, r, c), NL)
    ensures OffsetOf(ls', r + 1, 0) == OffsetOf(ls, r, c) + 1
  {
    JoinAt(ls, r);
    InsertPiece(Before(ls[..r]), ls[r], After(ls[r + 1..]), c, NL);
    SplitLine(ls, r, c, ls');
  }

  lemma SplitOneLine(ls: seq<string>, r: nat, c: nat, ls': seq<string>)
    requires r < |ls| && c <= |ls[r]| && ls' == ls[..r] + [ls[r][..c], ls[r][c..]] + ls[r + 1..]
    requires forall i | 0 <= i < |ls| :: OneLine(ls[i])
    ensures forall i | 0 <= i < |ls'| :: OneLine(ls'[i])
  {
    forall i | 0 <= i < |ls'| ensures OneLine(ls'[i]) {
      if i < r { assert ls'[i] == ls[i]; } else if i > r + 1 { assert ls'[i] == ls[i - 1]; }
    }
  }

  lemma SplitStep(a: string, x: string, y: string, b: string)
    ensures a + x + [NL] + y + b == a + (x + [NL] + y) + b
  {
  }

  /** two lines made one are a newline deleted */
  lemma JoinLines(ls: seq<string>, r: nat)
    requires r + 1 < |ls|
    ensures
      var ls' := ls[..r] + [ls[r] + ls[r + 1]] + ls[r + 2..];
      var o := OffsetOf(ls, r, |ls[r]|);
      o + 1 <= |Join(ls)| && Join(ls') == Delete(Join(ls), o, 1) && OffsetOf(ls, r + 1, 0) == o + 1
  {
    var ls' := ls[..r] + [ls[r] + ls[r + 1]] + ls[r + 2..];
    var a, x, y, b := Before(ls[..r]), ls[r], ls[r + 1], After(ls[r + 2..]);
    JoinAt(ls, r + 1);
    BeforeStep(ls, r);
    assert ls[..r + 1][..r] == ls[..r] && ls[..r + 1][r] == ls[r];
    assert Join(ls) == a + x + [NL] + y + b;
    JoinAt(ls', r);
    assert ls'[..r] == ls[..r] && ls'[r + 1..] == ls[r + 2..];
    CutNewline(a, x, y, b);
  }

  lemma CutNewline(a: string, x: string, y: string, b: string)
    ensures var t := a + x + [NL] + y + b; |a| + |x| + 1 <= |t| && Delete(t, |a| + |x|, 1) == a + (x + y) + b
  {
    var t := a + x + [NL] + y + b;
    assert t[..|a| + |x|] == a + x && t[|a| + |x| + 1..] == y + b;
  }

  // ----- the cursor is the offset, and the lines are the text -----

  lemma {:induction false} BeforeMono(ls: seq<string>, r: nat, r': nat)
    requires r < r' <= |ls|
    ensures |Before(ls[..r])| + |ls[r]| + 1 <= |Before(ls[..r'])|
    decreases r' - r
  {
    BeforeStep(ls, r' - 1);
    if r + 1 < r' { BeforeMono(ls, r, r' - 1); }
  }

  /** An offset belongs to one row and column only. */
  lemma CursorUnique(ls: seq<string>, r: nat, c: nat, r': nat, c': nat)
    requires r < |ls| && r' < |ls| && c <= |ls[r]| && c' <= |ls[r']| && OffsetOf(ls, r, c) == OffsetOf(ls, r', c')
    ensures r == r' && c == c'
  {
    if r < r' { BeforeMono(ls, r, r'); }
    if r' < r { BeforeMono(ls, r', r); }
  }

  /** A text belongs to one list of lines only. */
  lemma {:induction false} LinesUnique(ls: seq<string>, ls': seq<string>)
    requires |ls| > 0 && |ls'| > 0 && Join(ls) == Join(ls')
    requires (forall i | 0 <= i < |ls| :: OneLine(ls[i])) && (forall i | 0 <= i < |ls'| :: OneLine(ls'[i]))
    ensures ls == ls'
    decreases |ls|, 0
  {
    var t := Join(ls);
    LineEnd("", ls[0], ls[1..], 0);
    LineEnd("", ls'[0], ls'[1..], 0);
    assert "" + ls[0] + After(ls[1..]) == t && "" + ls'[0] + After(ls'[1..]) == t;
    LineEndUnique(t, 0, |ls[0]|, |ls'[0]|);
    assert ls[0] == t[..|ls[0]|] && ls'[0] == t[..|ls[0]|];
    assert After(ls[1..]) == t[|ls[0]|..] && After(ls'[1..]) == t[|ls[0]|..];
    AfterUnique(ls[1..], ls'[1..]);
    assert ls == [ls[0]] + ls[1..] && ls' == [ls'[0]] + ls'[1..];
  }

  lemma AfterUnique(ls: seq<string>, ls': seq<string>)
    requires After(ls) == After(ls')
    requires (forall i | 0 <= i < |ls| :: OneLine(ls[i])) && (forall i | 0 <= i < |ls'| :: OneLine(ls'[i]))
    ensures ls == ls'
    decreases |ls|, 1
  {
    if ls != [] && ls' != [] {
      AfterIs(ls);
      AfterIs(ls');
      LinesUnique(ls, ls');
    }
  }

  lemma AfterIs(ls: seq<string>)
    requires ls != []
    ensures After(ls) == [NL] + Join(ls) && After(ls)[1..] == Join(ls)
  {
    assert [NL] + ls[0] + After(ls[1..]) == [NL] + (ls[0] + After(ls[1..]));
  }

  lemma LineEndUnique(t: string, o: nat, e: nat, e': nat)
    requires IsLineEnd(t, o, e) && IsLineEnd(t, o, e')
    ensures e == e'
  {
  }

  lemma LineStartUnique(t: string, o: nat, b: nat, b': nat)
    requires IsLineStart(t, o, b) && IsLineStart(t, o, b')
    ensures b == b'
  {
  }

  // ----- any sequence of keys -----

  datatype Key =
    | Byte(c: char) | Newline | Rubout | Del | Kill
    | Left | Right | Home | EndKey | Up | Down | PageUp(rows: int) | PageDown(rows: int)

  /** a text and one offset */
  datatype Flat = Flat(text: string, at: nat)

  function EndFrom(t: string, o: nat): (e: nat)
    requires o <= |t|
    ensures IsLineEnd(t, o, e)
    decreases |t| - o
  {
    if o == |t| || t[o] == NL then o else var e := EndFrom(t, o + 1); assert t[o..e] == [t[o]] + t[o + 1..e]; e
  }

  function StartFrom(t: string, o: nat): (b: nat)
    requires o <= |t|
    ensures IsLineStart(t, o, b)
    decreases o
  {
    if o == 0 || t[o - 1] == NL then o else var b := StartFrom(t, o - 1); assert t[b..o] == t[b..o - 1] + [t[o - 1]]; b
  }

  /** the start of the line k lines above the one that starts at b */
  function LineUp(t: string, b: nat, k: nat): (r: nat)
    requires b <= |t|
    ensures r <= b
    decreases k
  {
    if k == 0 || b == 0 then b else LineUp(t, StartFrom(t, b - 1), k - 1)
  }

  /** the end of the line k lines below the one that ends at e */
  function LineDown(t: string, e: nat, k: nat): (r: nat)
    requires e <= |t|
    ensures e <= r <= |t|
    decreases k
  {
    if k == 0 || e == |t| then e else LineDown(t, EndFrom(t, e + 1), k - 1)
  }

  /** the same column in the line from b to e, or its end if it is shorter */
  function Column(b: nat, e: nat, col: nat): nat
    requires b <= e
  {
    if b + col <= e then b + col else e
  }

  function FlatUp(f: Flat, k: nat): (r: Flat)
    requires f.at <= |f.text|
    ensures r.at <= |r.text|
  {
    var b := StartFrom(f.text, f.at);
    var b' := LineUp(f.text, b, k);
    f.(at := Column(b', EndFrom(f.text, b'), f.at - b))
  }

  function FlatDown(f: Flat, k: nat): (r: Flat)
    requires f.at <= |f.text|
    ensures r.at <= |r.text|
  {
    var b := StartFrom(f.text, f.at);
    var e' := LineDown(f.text, EndFrom(f.text, f.at), k);
    f.(at := Column(StartFrom(f.text, e'), e', f.at - b))
  }

  predicate KeyOk(k: Key) { k.Byte? ==> k.c != NL }

  function FlatStep(f: Flat, k: Key): (r: Flat)
    requires f.at <= |f.text|
    ensures r.at <= |r.text|
  {
    var t, o := f.text, f.at;
    match k
    case Byte(c) => Flat(Insert(t, o, c), o + 1)
    case Newline => Flat(Insert(t, o, NL), o + 1)
    case Rubout => if o == 0 then f else Flat(Delete(t, o - 1, 1), o - 1)
    case Del => if o == |t| then f else Flat(Delete(t, o, 1), o)
    case Kill => Flat(Delete(t, o, EndFrom(t, o) - o), o)
    case Left => if o == 0 then f else Flat(t, o - 1)
    case Right => if o == |t| then f else Flat(t, o + 1)
    case Home => Flat(t, StartFrom(t, o))
    case EndKey => Flat(t, EndFrom(t, o))
    case Up => FlatUp(f, 1)
    case Down => FlatDown(f, 1)
    case PageUp(rows) => FlatUp(f, PageStep(rows))
    case PageDown(rows) => FlatDown(f, PageStep(rows))
  }

  function FlatRun(f: Flat, ks: seq<Key>): (r: Flat)
    requires f.at <= |f.text|
    ensures r.at <= |r.text|
  {
    if ks == [] then f else FlatStep(FlatRun(f, ks[..|ks| - 1]), ks[|ks| - 1])
  }

  method Press(ed: Editor, k: Key)
    requires ed.Valid() && KeyOk(k)
    modifies ed
    ensures ed.Valid() && old(ed.Cursor()) <= |old(ed.Text())|
    ensures Flat(ed.Text(), ed.Cursor()) == FlatStep(Flat(old(ed.Text()), old(ed.Cursor())), k)
    ensures ed.dirty <==> old(ed.dirty) || ed.Text() != old(ed.Text())
  {
    match k
    case Byte(c) => ed.InsertByte(c);
    case Newline => ed.InsertNewline();
    case Rubout => ed.Backspace();
    case Del => ed.DeleteForward();
    case Kill => PressKill(ed);
    case Up => PressUp(ed, k);
    case Down => PressDown(ed, k);
    case PageUp(_) => PressUp(ed, k);
    case PageDown(_) => PressDown(ed, k);
    case _ => PressMove(ed, k);
  }

  method PressKill(ed: Editor)
    requires ed.Valid()
    modifies ed
    ensures ed.Valid() && old(ed.Cursor()) <= |old(ed.Text())|
    ensures Flat(ed.Text(), ed.Cursor()) == FlatStep(Flat(old(ed.Text()), old(ed.Cursor())), Kill)
    ensures ed.dirty <==> old(ed.dirty) || ed.Text() != old(ed.Text())
  {
    ghost var t, o := ed.Text(), ed.Cursor();
    ghost var e := ed.KillToEol();
    KillStep(t, o, e);
  }

  lemma KillStep(t: string, o: nat, e: nat)
    requires IsLineEnd(t, o, e)
    ensures FlatStep(Flat(t, o), Kill) == Flat(Delete(t, o, e - o), o)
  {
    LineEndUnique(t, o, e, EndFrom(t, o));
  }

  method PressMove(ed: Editor, k: Key)
    requires ed.Valid() && (k.Left? || k.Right? || k.Home? || k.EndKey?)
    modifies ed`row, ed`col
    ensures ed.Valid() && old(ed.Cursor()) <= |old(ed.Text())|
    ensures Flat(ed.Text(), ed.Cursor()) == FlatStep(Flat(old(ed.Text()), old(ed.Cursor())), k)
  {
    ghost var t, o := ed.Text(), ed.Cursor();
    ed.Around();
    match k
    case Left => ed.MoveLeft();
    case Right => ed.MoveRight();
    case Home =>
      ed.MoveHome();
      LineStartUnique(t, o, ed.Cursor(), StartFrom(t, o));
    case EndKey =>
      ed.MoveEnd();
      LineEndUnique(t, o, ed.Cursor(), EndFrom(t, o));
  }

  method PressUp(ed: Editor, k: Key)
    requires ed.Valid() && (k.Up? || k.PageUp?)
    modifies ed`row, ed`col, ed`top
    ensures ed.Valid() && old(ed.Cursor()) <= |old(ed.Text())|
    ensures Flat(ed.Text(), ed.Cursor()) == FlatStep(Flat(old(ed.Text()), old(ed.Cursor())), k)
  {
    var n := if k.Up? then 1 else PageStep(k.rows);
    ghost var ls, f := ed.lines, Flat(ed.Text(), ed.Cursor());
    RowBounds(ls, ed.row, ed.col);
    RowUpFlat(ls, ed.row, ed.col, n);
    if k.Up? { ed.MoveUp(); } else { ed.MovePage(true, k.rows); }
    assert Flat(ed.Text(), ed.Cursor()) == FlatUp(f, n);
    UpDownIs(f, k);
  }

  lemma UpDownIs(f: Flat, k: Key)
    requires f.at <= |f.text|
    ensures k.Up? ==> FlatStep(f, k) == FlatUp(f, 1)
    ensures k.PageUp? ==> FlatStep(f, k) == FlatUp(f, PageStep(k.rows))
    ensures k.Down? ==> FlatStep(f, k) == FlatDown(f, 1)
    ensures k.PageDown? ==> FlatStep(f, k) == FlatDown(f, PageStep(k.rows))
  {
  }

  method PressDown(ed: Editor, k: Key)
    requires ed.Valid() && (k.Down? || k.PageDown?)
    modifies ed`row, ed`col, ed`top
    ensures ed.Valid() && old(ed.Cursor()) <= |old(ed.Text())|
    ensures Flat(ed.Text(), ed.Cursor()) == FlatStep(Flat(old(ed.Text()), old(ed.Cursor())), k)
  {
    var n := if k.Down? then 1 else PageStep(k.rows);
    ghost var ls, f := ed.lines, Flat(ed.Text(), ed.Cursor());
    RowBounds(ls, ed.row, ed.col);
    RowDownFlat(ls, ed.row, ed.col, n);
    if k.Down? { ed.MoveDown(); } else { ed.MovePage(false, k.rows); }
    assert Flat(ed.Text(), ed.Cursor()) == FlatDown(f, n);
    UpDownIs(f, k);
  }

  /** the line around an offset of the text is the row it belongs to */
  lemma RowBounds(ls: seq<string>, r: nat, c: nat)
    requires r < |ls| && c <= |ls[r]| && OneLine(ls[r])
    ensures OffsetOf(ls, r, c) <= |Join(ls)|
    ensures StartFrom(Join(ls), OffsetOf(ls, r, c)) == OffsetOf(ls, r, 0)
    ensures EndFrom(Join(ls), OffsetOf(ls, r, c)) == OffsetOf(ls, r, |ls[r]|)
    ensures OffsetOf(ls, r, |ls[r]|) == |Join(ls)| <==> r == |ls| - 1
  {
    var t, o := Join(ls), OffsetOf(ls, r, c);
    JoinAt(ls, r);
    LineStart(ls[..r], ls[r], After(ls[r + 1..]), c);
    LineEnd(Before(ls[..r]), ls[r], ls[r + 1..], c);
    LineStartUnique(t, o, OffsetOf(ls, r, 0), StartFrom(t, o));
    LineEndUnique(t, o, OffsetOf(ls, r, |ls[r]|), EndFrom(t, o));
  }

  lemma {:induction false} LineUpIs(ls: seq<string>, r: nat, k: nat)
    requires r < |ls| && forall i | 0 <= i < |ls| :: OneLine(ls[i])
    ensures OffsetOf(ls, r, 0) <= |Join(ls)| && LineUp(Join(ls), OffsetOf(ls, r, 0), k) == OffsetOf(ls, RowUp(r, k), 0)
    decreases k
  {
    RowBounds(ls, r, 0);
    if r == 0 {
      assert ls[..0] == [];
    } else if k > 0 {
      RowAbove(ls, r);
      LineUpIs(ls, r - 1, k - 1);
    }
  }

  lemma RowAbove(ls: seq<string>, r: nat)
    requires 0 < r < |ls| && OneLine(ls[r - 1])
    ensures 0 < OffsetOf(ls, r, 0) <= |Join(ls)| + 1
    ensures OffsetOf(ls, r, 0) - 1 <= |Join(ls)|
    ensures StartFrom(Join(ls), OffsetOf(ls, r, 0) - 1) == OffsetOf(ls, r - 1, 0)
  {
    BeforeStep(ls, r - 1);
    RowBounds(ls, r - 1, |ls[r - 1]|);
  }

  lemma RowBelow(ls: seq<string>, r: nat)
    requires r + 1 < |ls| && OneLine(ls[r]) && OneLine(ls[r + 1])
    ensures
      var e := OffsetOf(ls, r, |ls[r]|);
      e < |Join(ls)| && EndFrom(Join(ls), e + 1) == OffsetOf(ls, r + 1, |ls[r + 1]|)
  {
    BeforeStep(ls, r);
    RowBounds(ls, r, |ls[r]|);
    RowBounds(ls, r + 1, 0);
  }

  lemma {:induction false} LineDownIs(ls: seq<string>, r: nat, k: nat)
    requires r < |ls| && forall i | 0 <= i < |ls| :: OneLine(ls[i])
    ensures OffsetOf(ls, r, |ls[r]|) <= |Join(ls)|
    ensures
      var r' := RowDown(r, k, |ls|);
      LineDown(Join(ls), OffsetOf(ls, r, |ls[r]|), k) == OffsetOf(ls, r', |ls[r']|)
    decreases k
  {
    RowBounds(ls, r, |ls[r]|);
    if k > 0 && r + 1 < |ls| {
      RowBelow(ls, r);
      LineDownIs(ls, r + 1, k - 1);
    }
  }

  lemma RowUpFlat(ls: seq<string>, r: nat, c: nat, k: nat)
    requires r < |ls| && c <= |ls[r]| && forall i | 0 <= i < |ls| :: OneLine(ls[i])
    ensures OffsetOf(ls, r, c) <= |Join(ls)|
    ensures
      var r' := RowUp(r, k);
      FlatUp(Flat(Join(ls), OffsetOf(ls, r, c)), k) ==
        Flat(Join(ls), OffsetOf(ls, r', if c <= |ls[r']| then c else |ls[r']|))
  {
    RowBounds(ls, r, c);
    LineUpIs(ls, r, k);
    RowBounds(ls, RowUp(r, k), 0);
  }

  lemma RowDownFlat(ls: seq<string>, r: nat, c: nat, k: nat)
    requires r < |ls| && c <= |ls[r]| && forall i | 0 <= i < |ls| :: OneLine(ls[i])
    ensures OffsetOf(ls, r, c) <= |Join(ls)|
    ensures
      var r' := RowDown(r, k, |ls|);
      FlatDown(Flat(Join(ls), OffsetOf(ls, r, c)), k) ==
        Flat(Join(ls), OffsetOf(ls, r', if c <= |ls[r']| then c else |ls[r']|))
  {
    var r' := RowDown(r, k, |ls|);
    RowBounds(ls, r, c);
    LineDownIs(ls, r, k);
    RowBounds(ls, r', |ls[r']|);
  }

  /** one of the keys changes the text */
  predicate Changes(f: Flat, ks: seq<Key>)
    requires f.at <= |f.text|
  {
    ks != [] &&
    var front := ks[..|ks| - 1];
    Changes(f, front) || FlatRun(f, ks).text != FlatRun(f, front).text
  }

  /** Any sequence of keys does to the lines what it does to a flat text with one
      offset, and marks the buffer exactly when one of them has changed the text. */
  method Type(ls: seq<string>, ks: seq<Key>) returns (out: seq<string>, row: nat, col: nat, dirty: bool)
    requires |ls| > 0 && (forall i | 0 <= i < |ls| :: OneLine(ls[i])) && (forall i | 0 <= i < |ks| :: KeyOk(ks[i]))
    ensures row < |out| && col <= |out[row]| && (forall i | 0 <= i < |out| :: OneLine(out[i]))
    ensures Flat(Join(out), OffsetOf(out, row, col)) == FlatRun(Flat(Join(ls), 0), ks)
    ensures dirty <==> Changes(Flat(Join(ls), 0), ks)
  {
    var ed := new Editor(ls);
    ghost var f := Flat(Join(ls), 0);
    for i := 0 to |ks|
      invariant fresh(ed) && ed.Valid() && Flat(ed.Text(), ed.Cursor()) == FlatRun(f, ks[..i])
      invariant ed.dirty <==> Changes(f, ks[..i])
    {
      assert ks[..i + 1][..i] == ks[..i] && ks[..i + 1][i] == ks[i];
      Press(ed, ks[i]);
    }
    assert ks[..|ks|] == ks;
    out, row, col, dirty := ed.lines, ed.row, ed.col, ed.dirty;
  }
}
