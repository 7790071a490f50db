/** The menu engine (menu.h, menu.cpp): sub-menus of positioned lines, the modal
    navigation loop `display_menu` driven by buttons and touches, the composition of
    the main, player and favourites menus, and the dispatch of a chosen row.

    The polling loop never ends on the device; here it consumes a finite sequence of
    poll results and answers the committed row, or None when the input runs out
    first. */
module Menus {
  import opened Types

  /** Menu::MAXLINES: favourites per page. */
  const MaxLines: nat := 20
  /** At most five favourites pages appear in the main menu. */
  const MaxPages: nat := 5
  /** Row spacings given to the SubMenu constructor. */
  const MainSpacing: nat := 30
  const PlayerSpacing: nat := 40
  const FavouriteSpacing: nat := 40
  /** Height of a row's touch band in menu.cpp and in the inline variant of menu.h. */
  const TouchBand: int := 30
  const InlineTouchBand: int := 12
  /** A touch right of this x on the already-touched row commits it (menu.cpp). */
  const CommitX: int := 270

  /** MENULINE: a text at a screen position. */
  datatype MenuLine = MenuLine(x: int, y: int, text: string)

  /** The y coordinate of the k-th line of a sub-menu with spacing yIncr (16-bit). */
  function LineY(yIncr: nat, k: nat): nat
  {
    (2 + k * yIncr) % U16
  }

  lemma ModAddU16(a: nat, b: nat)
    ensures (a % U16 + b) % U16 == (a + b) % U16
  {
    var q := a / U16;
    assert a == q * U16 + a % U16;
  }

  lemma NextLineY(yIncr: nat, k: nat)
    ensures (LineY(yIncr, k) + yIncr) % U16 == LineY(yIncr, k + 1)
  {
    ModAddU16(2 + k * yIncr, yIncr);
    assert 2 + (k + 1) * yIncr == 2 + k * yIncr + yIncr;
  }

  /** Texts of appended lines. */
  lemma TextsAppend(a: seq<MenuLine>, l: MenuLine)
    ensures Texts(a + [l]) == Texts(a) + [l.text]
  {
  }

  /** The labels of a list of lines. */
  function Texts(lines: seq<MenuLine>): (ts: seq<string>)
    ensures |ts| == |lines|
  {
    seq(|lines|, k requires 0 <= k < |lines| => lines[k].text)
  }

  /** The lines a fresh sub-menu with spacing yIncr holds after adding `labels`. */
  function Layout(labels: seq<string>, yIncr: nat): (lines: seq<MenuLine>)
    ensures |lines| == |labels|
  {
    seq(|labels|, k requires 0 <= k < |labels| => MenuLine(2, LineY(yIncr, k), labels[k]))
  }

  datatype Colour = GreenYellow | White

  /** One tft_write call of draw_menu. */
  datatype DrawnLine = DrawnLine(line: MenuLine, colour: Colour)

  // ---------------------------------------------------------------------------
  // SubMenu
  // ---------------------------------------------------------------------------

  class SubMenu {
    var x: int
    var y: int
    var yIncr: nat
    var lines: seq<MenuLine>

    /** Lines sit in a column at x = 2, one spacing apart starting at y = 2, and y is
        where the next line goes. */
    ghost predicate Valid()
      reads this
    {
      && yIncr < U16
      && x == 2
      && y == LineY(yIncr, |lines|)
      && forall k :: 0 <= k < |lines| ==> lines[k].x == 2 && lines[k].y == LineY(yIncr, k)
    }

    constructor (yIncr: nat)
      requires yIncr < U16
      ensures Valid() && lines == [] && x == 2 && y == 2 && this.yIncr == yIncr
    {
      x := 2;
      y := 2;
      this.yIncr := yIncr;
      lines := [];
    }

    function Size(): nat
      reads this
    {
      |lines|
    }

    /** Reserving capacity changes nothing the model can observe. */
    method Reserve(n: nat)
      ensures unchanged(this)
    {
    }

    /** Appends one line at the current position and moves the position down. */
    method AddLine(text: string)
      requires Valid()
      modifies this
      ensures Valid() && yIncr == old(yIncr)
      ensures lines == old(lines) + [MenuLine(2, old(y), text)]
      ensures y == LineY(yIncr, |lines|)
      ensures Texts(lines) == Texts(old(lines)) + [text]
    {
      TextsAppend(lines, MenuLine(x, y, text));
      lines := lines + [MenuLine(x, y, text)];
      NextLineY(yIncr, |lines| - 1);
      y := (y + yIncr) % U16;
    }

    /** menu.h's draw_menu: every line once, the selected one highlighted. */
    method DrawMenu(selected: int) returns (frame: seq<DrawnLine>)
      ensures |frame| == |lines|
      ensures forall k :: 0 <= k < |lines| ==> frame[k].line == lines[k]
      ensures forall k :: 0 <= k < |lines| ==> (frame[k].colour == GreenYellow <==> k == selected)
    {
      frame := [];
      var i := 0;
      while i < |lines|
        invariant 0 <= i <= |lines| && |frame| == i
        invariant forall k :: 0 <= k < i ==> frame[k].line == lines[k]
        invariant forall k :: 0 <= k < i ==> (frame[k].colour == GreenYellow <==> k == selected)
      {
        var colour := if i == selected then GreenYellow else White;
        frame := frame + [DrawnLine(lines[i], colour)];
        i := i + 1;
      }
    }

    /** One touch point against the lines (menu.cpp, with the scan stopping at the
        first row whose band holds the point; see the findings). */
    method ScanLines(p: Point, canvasY: int, c: Cursor) returns (r: Reaction)
      ensures r == ScanFinger(FirstMatch, lines, canvasY, p, 0, 0, c)
    {
      var sel: nat := 0;
      while sel < |lines|
        invariant sel <= |lines|
        invariant ScanFinger(FirstMatch, lines, canvasY, p, sel, sel, c)
               == ScanFinger(FirstMatch, lines, canvasY, p, 0, 0, c)
      {
        if InBand(lines[sel], canvasY, TouchBand, p.y) {
          if c.oldSelected == sel && p.x > CommitX {
            return Committed(sel);
          }
          return Moved(Cursor(sel, sel));
        }
        sel := sel + 1;
      }
      return Moved(c);
    }

    /** All fingers of one touch reading, in order; a commit ends the reading. */
    method ReadFingers(fingers: seq<Point>, canvasY: int, c: Cursor) returns (r: Reaction)
      ensures r == TouchFingers(FirstMatch, lines, canvasY, fingers, c)
    {
      var cur := c;
      var i := 0;
      while i < |fingers|
        invariant 0 <= i <= |fingers|
        invariant TouchFingers(FirstMatch, lines, canvasY, fingers[i..], cur)
               == TouchFingers(FirstMatch, lines, canvasY, fingers, c)
      {
        assert fingers[i..][0] == fingers[i] && fingers[i..][1..] == fingers[i + 1..];
        var s := ScanLines(fingers[i], canvasY, cur);
        if s.Committed? {
          return s;
        }
        cur := s.cursor;
        i := i + 1;
      }
      return Moved(cur);
    }

    /** menu.cpp's display_menu over a finite sequence of poll results. */
    method DisplayMenu(events: seq<Event>, canvasY: int) returns (r: Option<int>)
      requires |lines| > 0
      ensures r == Run(FirstMatch, lines, canvasY, Start, events)
      ensures r.Some? ==> 0 <= r.value < |lines|
    {
      var selected := 0;
      var oldSelected := -1;
      var i := 0;
      while i < |events|
        invariant 0 <= i <= |events|
        invariant CursorInRange(Cursor(selected, oldSelected), |lines|)
        invariant Run(FirstMatch, lines, canvasY, Cursor(selected, oldSelected), events[i..])
               == Run(FirstMatch, lines, canvasY, Start, events)
      {
        assert events[i..][0] == events[i] && events[i..][1..] == events[i + 1..];
        match events[i] {
        case BtnL =>
          selected := selected - 1;
          if selected < 0 {
            selected := Size() - 1;
          }
        case BtnR =>
          selected := selected + 1;
          if selected > Size() - 1 {
            selected := 0;
          }
        case BtnP =>
          return Some(selected);
        case Touch(fingers) =>
          var t := ReadFingers(fingers, canvasY, Cursor(selected, oldSelected));
          if t.Committed? {
            return Some(t.index);
          }
          selected, oldSelected := t.cursor.selected, t.cursor.oldSelected;
        }
        i := i + 1;
      }
      return None;
    }

    /** One touch point in menu.h's inline display_menu. */
    method InlineScanLines(p: Point, selected: int) returns (r: int)
      ensures r == InlineScan(lines, p, 0, 0, selected)
    {
      r := selected;
      var sel := 0;
      var k := 0;
      while k < |lines|
        invariant 0 <= sel <= k <= |lines|
        invariant InlineScan(lines, p, k, sel, r) == InlineScan(lines, p, 0, 0, selected)
      {
        if InBand(lines[k], 0, InlineTouchBand, p.y) {
          r := sel;
        } else {
          sel := sel + 1;
        }
        k := k + 1;
      }
    }

    /** menu.h's inline display_menu over a finite sequence of poll results. */
    method DisplayMenuInline(events: seq<Event>) returns (r: Option<int>)
      requires |lines| > 0
      ensures r == InlineRun(lines, 0, events)
      ensures r.Some? ==> 0 <= r.value < |lines|
    {
      var selected := 0;
      var i := 0;
      while i < |events|
        invariant 0 <= i <= |events| && 0 <= selected < |lines|
        invariant InlineRun(lines, selected, events[i..]) == InlineRun(lines, 0, events)
      {
        assert events[i..][0] == events[i] && events[i..][1..] == events[i + 1..];
        match events[i] {
        case BtnL =>
          selected := selected - 1;
          if selected < 0 {
            selected := Size() - 1;
          }
        case BtnR =>
          selected := selected + 1;
          if selected > Size() - 1 {
            selected := 0;
          }
        case BtnP =>
          return Some(selected);
        case Touch(fingers) =>
          var f := 0;
          while f < |fingers|
            invariant 0 <= f <= |fingers| && 0 <= selected < |lines|
            invariant InlineRun(lines, InlineFingers(lines, fingers[f..], selected), events[i + 1..])
                   == InlineRun(lines, 0, events)
          {
            assert fingers[f..][0] == fingers[f] && fingers[f..][1..] == fingers[f + 1..];
            InlineScanInRange(lines, fingers[f], 0, 0, selected);
            selected := InlineScanLines(fingers[f], selected);
            f := f + 1;
          }
        }
        i := i + 1;
      }
      return None;
    }
  }

  // ---------------------------------------------------------------------------
  // The navigation loop as functions
  // ---------------------------------------------------------------------------

  datatype Point = Point(x: int, y: int)

  /** One poll of the loop: the highest-priority button edge (left before right
      before push), or else the fingers reported by the touch panel. */
  datatype Event = BtnL | BtnR | BtnP | Touch(fingers: seq<Point>)

  /** `selected` and `oldselected` of display_menu. */
  datatype Cursor = Cursor(selected: int, oldSelected: int)

  const Start := Cursor(0, -1)

  datatype Reaction = Moved(cursor: Cursor) | Committed(index: int)

  predicate CursorInRange(c: Cursor, n: nat)
  {
    0 <= c.selected < n && -1 <= c.oldSelected < n
  }

  /** "Up": one row back, wrapping from the first row to the last. */
  function CursorUp(selected: int, size: nat): int
  {
    if selected - 1 < 0 then size - 1 else selected - 1
  }

  /** "Down": one row on, wrapping from the last row to the first. */
  function CursorDown(selected: int, size: nat): int
  {
    if selected + 1 > size - 1 then 0 else selected + 1
  }

  predicate InBand(line: MenuLine, top: int, height: int, ty: int)
  {
    line.y + top <= ty <= line.y + top + height
  }

  /** How the line scan of a touch continues after a matching row: AsWritten keeps
      scanning with the row counter held back (menu.cpp's `continue` skips `++sel`);
      FirstMatch stops at the first matching row. */
  datatype ScanRule = AsWritten | FirstMatch

  /** One touch point against lines[k..]; `sel` is the source's row counter. */
  function ScanFinger(rule: ScanRule, lines: seq<MenuLine>, canvasY: int, p: Point,
                      k: nat, sel: nat, c: Cursor): (r: Reaction)
    requires sel <= k
    ensures CursorInRange(c, |lines|) && r.Moved? ==> CursorInRange(r.cursor, |lines|)
    ensures r.Committed? ==> 0 <= r.index < |lines|
    decreases |lines| - k
  {
    if k >= |lines| then Moved(c)
    else if InBand(lines[k], canvasY, TouchBand, p.y) then
      if c.oldSelected == sel && p.x > CommitX then Committed(sel)
      else if rule == FirstMatch then Moved(Cursor(sel, sel))
      else ScanFinger(rule, lines, canvasY, p, k + 1, sel, Cursor(sel, sel))
    else ScanFinger(rule, lines, canvasY, p, k + 1, sel + 1, c)
  }

  function TouchFingers(rule: ScanRule, lines: seq<MenuLine>, canvasY: int,
                        fingers: seq<Point>, c: Cursor): (r: Reaction)
    ensures CursorInRange(c, |lines|) && r.Moved? ==> CursorInRange(r.cursor, |lines|)
    ensures r.Committed? ==> 0 <= r.index < |lines|
  {
    if fingers == [] then Moved(c)
    else
      match ScanFinger(rule, lines, canvasY, fingers[0], 0, 0, c)
      case Committed(i) => Committed(i)
      case Moved(c') => TouchFingers(rule, lines, canvasY, fingers[1..], c')
  }

  function Step(rule: ScanRule, lines: seq<MenuLine>, canvasY: int, c: Cursor, e: Event): (r: Reaction)
    requires |lines| > 0 && CursorInRange(c, |lines|)
    ensures r.Moved? ==> CursorInRange(r.cursor, |lines|)
    ensures r.Committed? ==> 0 <= r.index < |lines|
  {
    match e
    case BtnL => Moved(Cursor(CursorUp(c.selected, |lines|), c.oldSelected))
    case BtnR => Moved(Cursor(CursorDown(c.selected, |lines|), c.oldSelected))
    case BtnP => Committed(c.selected)
    case Touch(fingers) => TouchFingers(rule, lines, canvasY, fingers, c)
  }

  /** The row committed by the first commit in `events`, if any. */
  function Run(rule: ScanRule, lines: seq<MenuLine>, canvasY: int, c: Cursor, events: seq<Event>): (r: Option<int>)
    requires |lines| > 0 && CursorInRange(c, |lines|)
    ensures r.Some? ==> 0 <= r.value < |lines|
    decreases |events|
  {
    if events == [] then None
    else
      match Step(rule, lines, canvasY, c, events[0])
      case Committed(i) => Some(i)
      case Moved(c') => Run(rule, lines, canvasY, c', events[1..])
  }

  // menu.h's inline variant: 12-pixel band at the line's own y, no commit by touch

  function InlineScan(lines: seq<MenuLine>, p: Point, k: nat, sel: nat, selected: int): int
    requires sel <= k
    decreases |lines| - k
  {
    if k >= |lines| then selected
    else if InBand(lines[k], 0, InlineTouchBand, p.y) then InlineScan(lines, p, k + 1, sel, sel)
    else InlineScan(lines, p, k + 1, sel + 1, selected)
  }

  lemma {:induction false} InlineScanInRange(lines: seq<MenuLine>, p: Point, k: nat, sel: nat, selected: int)
    requires sel <= k && 0 <= selected < |lines|
    ensures 0 <= InlineScan(lines, p, k, sel, selected) < |lines|
    decreases |lines| - k
  {
    if k < |lines| {
      if InBand(lines[k], 0, InlineTouchBand, p.y) {
        InlineScanInRange(lines, p, k + 1, sel, sel);
      } else {
        InlineScanInRange(lines, p, k + 1, sel + 1, selected);
      }
    }
  }

  function InlineFingers(lines: seq<MenuLine>, fingers: seq<Point>, selected: int): int
  {
    if fingers == [] then selected
    else InlineFingers(lines, fingers[1..], InlineScan(lines, fingers[0], 0, 0, selected))
  }

  lemma {:induction false} InlineFingersInRange(lines: seq<MenuLine>, fingers: seq<Point>, selected: int)
    requires 0 <= selected < |lines|
    ensures 0 <= InlineFingers(lines, fingers, selected) < |lines|
  {
    if fingers != [] {
      InlineScanInRange(lines, fingers[0], 0, 0, selected);
      InlineFingersInRange(lines, fingers[1..], InlineScan(lines, fingers[0], 0, 0, selected));
    }
  }

  function InlineRun(lines: seq<MenuLine>, selected: int, events: seq<Event>): Option<int>
    decreases |events|
  {
    if events == [] then None
    else
      match events[0]
      case BtnL => InlineRun(lines, CursorUp(selected, |lines|), events[1..])
      case BtnR => InlineRun(lines, CursorDown(selected, |lines|), events[1..])
      case BtnP => Some(selected)
      case Touch(fingers) => InlineRun(lines, InlineFingers(lines, fingers, selected), events[1..])
  }

  // ---------------------------------------------------------------------------
  // Properties of the navigation loop
  // ---------------------------------------------------------------------------

  /** Up and down undo each other on every row of a non-empty menu. */
  lemma UpDownInverse(selected: int, size: nat)
    requires 0 <= selected < size
    ensures CursorDown(CursorUp(selected, size), size) == selected
    ensures CursorUp(CursorDown(selected, size), size) == selected
    ensures 0 <= CursorUp(selected, size) < size && 0 <= CursorDown(selected, size) < size
  {
  }

  function DownTimes(selected: int, size: nat, k: nat): int
  {
    if k == 0 then selected else CursorDown(DownTimes(selected, size, k - 1), size)
  }

  function UpTimes(selected: int, size: nat, k: nat): int
  {
    if k == 0 then selected else CursorUp(UpTimes(selected, size, k - 1), size)
  }

  /** The cursor is cyclic: k presses of "down" move it k rows forward modulo the
      size, k presses of "up" k rows back. */
  lemma {:induction false} PressesAreCyclic(selected: int, size: nat, k: nat)
    requires 0 <= selected < size
    ensures DownTimes(selected, size, k) == (selected + k) % size
    ensures UpTimes(selected, size, k) == (selected - k) % size
  {
    if k > 0 {
      PressesAreCyclic(selected, size, k - 1);
      CyclicStep(selected + k - 1, size);
      CyclicStep(selected - k, size);
      assert selected - k + 1 == selected - (k - 1);
    }
  }

  lemma CyclicStep(a: int, size: nat)
    requires size > 0
    ensures CursorDown(a % size, size) == (a + 1) % size
    ensures CursorUp((a + 1) % size, size) == a % size
  {
    var q := a / size;
    var r := a % size;
    assert a == q * size + r;
    if r + 1 == size {
      assert a + 1 == (q + 1) * size + 0;
      ModUnique(a + 1, size, q + 1, 0);
    } else {
      assert a + 1 == q * size + (r + 1);
      ModUnique(a + 1, size, q, r + 1);
    }
  }

  /** The remainder is the unique r in [0, size) with x == q * size + r. */
  lemma ModUnique(x: int, size: int, q: int, r: int)
    requires size > 0 && 0 <= r < size && x == q * size + r
    ensures x % size == r
  {
    var d := x / size;
    assert x == d * size + x % size;
    assert (q - d) * size == q * size - d * size;
    assert (d - q) * size == d * size - q * size;
    if q > d {
      MulAtLeast(q - d, size);
    } else if q < d {
      MulAtLeast(d - q, size);
    }
  }

  lemma MulAtLeast(k: int, size: int)
    requires k >= 1 && size > 0
    ensures k * size >= size
  {
  }

  /** A touch inside the band of row i, and of no earlier row, moves the cursor to i,
      and commits i exactly when i was the previously touched row and the touch lies
      right of the commit threshold. */
  lemma {:induction false} TouchSelectsRow(lines: seq<MenuLine>, canvasY: int, p: Point, i: nat, k: nat, c: Cursor)
    requires k <= i < |lines|
    requires InBand(lines[i], canvasY, TouchBand, p.y)
    requires forall j :: k <= j < i ==> !InBand(lines[j], canvasY, TouchBand, p.y)
    ensures ScanFinger(FirstMatch, lines, canvasY, p, k, k, c)
         == if c.oldSelected == i && p.x > CommitX then Committed(i) else Moved(Cursor(i, i))
    decreases i - k
  {
    if k < i {
      TouchSelectsRow(lines, canvasY, p, i, k + 1, c);
    }
  }

  /** A touch outside every band changes nothing. */
  lemma {:induction false} TouchOutsideIgnored(rule: ScanRule, lines: seq<MenuLine>, canvasY: int, p: Point, k: nat, sel: nat, c: Cursor)
    requires sel <= k
    requires forall j :: k <= j < |lines| ==> !InBand(lines[j], canvasY, TouchBand, p.y)
    ensures ScanFinger(rule, lines, canvasY, p, k, sel, c) == Moved(c)
    decreases |lines| - k
  {
    if k < |lines| {
      TouchOutsideIgnored(rule, lines, canvasY, p, k + 1, sel + 1, c);
    }
  }

  /** In menu.h's variant only the select button ends the loop: a touch never does. */
  lemma {:induction false} InlineOnlySelectCommits(lines: seq<MenuLine>, selected: int, events: seq<Event>)
    requires InlineRun(lines, selected, events).Some?
    ensures exists j :: 0 <= j < |events| && events[j] == BtnP
    decreases |events|
  {
    if events[0] != BtnP {
      InlineOnlySelectCommits(lines, InlineNext(lines, selected, events[0]), events[1..]);
      var j :| 0 <= j < |events[1..]| && events[1..][j] == BtnP;
      assert events[j + 1] == BtnP;
    }
  }

  function InlineNext(lines: seq<MenuLine>, selected: int, e: Event): int
  {
    match e
    case BtnL => CursorUp(selected, |lines|)
    case BtnR => CursorDown(selected, |lines|)
    case BtnP => selected
    case Touch(fingers) => InlineFingers(lines, fingers, selected)
  }

  // ---------------------------------------------------------------------------
  // Finding: the held-back row counter of menu.cpp's touch scan
  // ---------------------------------------------------------------------------

  /** Bands of neighbouring rows are disjoint: rows at least 31 pixels apart. */
  predicate BandsDisjoint(lines: seq<MenuLine>)
  {
    forall i, j :: 0 <= i < j < |lines| ==> lines[i].y + TouchBand < lines[j].y
  }

  /** Where no two bands overlap, the code as written and the first-match scan agree. */
  lemma {:induction false} ScanRulesAgree(lines: seq<MenuLine>, canvasY: int, p: Point, k: nat, c: Cursor)
    requires BandsDisjoint(lines) && k <= |lines|
    ensures ScanFinger(AsWritten, lines, canvasY, p, k, k, c) == ScanFinger(FirstMatch, lines, canvasY, p, k, k, c)
    decreases |lines| - k
  {
    if k < |lines| {
      if InBand(lines[k], canvasY, TouchBand, p.y) {
        if !(c.oldSelected == k && p.x > CommitX) {
          TouchOutsideIgnored(AsWritten, lines, canvasY, p, k + 1, k, Cursor(k, k));
        }
      } else {
        ScanRulesAgree(lines, canvasY, p, k + 1, c);
      }
    }
  }

  /** In the main menu (rows 30 pixels apart, bands 30 pixels high) a single touch
      right of x = 270 on the pixel row shared by rows 0 and 1 commits row 0
      ("Start/Stop Play") at once: the held-back counter makes row 1's band report
      row 0 a second time, which reads as a repeated touch. */
  lemma SingleTouchCommitsAsWritten(canvasY: int)
    ensures var lines := Layout(MainMenuLabels(0), MainSpacing);
      && Run(AsWritten, lines, canvasY, Start, [Touch([Point(300, 32 + canvasY)])]) == Some(0)
      && Run(FirstMatch, lines, canvasY, Start, [Touch([Point(300, 32 + canvasY)])]) == None
  {
    var lines := Layout(MainMenuLabels(0), MainSpacing);
    assert MainMenuLabels(0) == ["Start/Stop Play", "Select Player", "Return"];
    assert lines[0].y == 2 && lines[1].y == 32 && lines[2].y == 62;
    var p := Point(300, 32 + canvasY);
    assert ScanFinger(AsWritten, lines, canvasY, p, 1, 0, Cursor(0, 0)) == Committed(0);
    assert ScanFinger(AsWritten, lines, canvasY, p, 0, 0, Start) == Committed(0);
    assert TouchFingers(AsWritten, lines, canvasY, [p], Start) == Committed(0);
    assert ScanFinger(FirstMatch, lines, canvasY, p, 0, 0, Start) == Moved(Cursor(0, 0));
    assert [p][1..] == [];
    assert TouchFingers(FirstMatch, lines, canvasY, [p], Start) == Moved(Cursor(0, 0));
    assert [Touch([p])][1..] == [];
  }

  /** With the first-match scan, one touch never commits: only a second touch on the
      row that the previous touch selected can. */
  lemma FirstTouchNeverCommits(lines: seq<MenuLine>, canvasY: int, p: Point)
    ensures ScanFinger(FirstMatch, lines, canvasY, p, 0, 0, Start).Moved?
  {
    FirstTouchFrom(lines, canvasY, p, 0);
  }

  lemma {:induction false} FirstTouchFrom(lines: seq<MenuLine>, canvasY: int, p: Point, k: nat)
    ensures ScanFinger(FirstMatch, lines, canvasY, p, k, k, Start).Moved?
    decreases |lines| - k
  {
    if k < |lines| && !InBand(lines[k], canvasY, TouchBand, p.y) {
      FirstTouchFrom(lines, canvasY, p, k + 1);
    }
  }

  /** Rows laid out with spacing above the band height (the player and favourites
      menus) have disjoint bands while their coordinates stay below 2^16. */
  lemma WideSpacingBandsDisjoint(labels: seq<string>, yIncr: nat)
    requires yIncr > TouchBand
    requires 2 + |labels| * yIncr < U16
    ensures BandsDisjoint(Layout(labels, yIncr))
  {
    var lines := Layout(labels, yIncr);
    forall i, j | 0 <= i < j < |lines|
      ensures lines[i].y + TouchBand < lines[j].y
    {
      SpacedRows(yIncr, i, j);
      MulMono(j, |labels|, yIncr);
      LineYNoWrap(yIncr, i);
      LineYNoWrap(yIncr, j);
    }
  }

  lemma SpacedRows(yIncr: nat, i: nat, j: nat)
    requires yIncr > TouchBand && i < j
    ensures i * yIncr + TouchBand < j * yIncr
  {
    MulMono(i + 1, j, yIncr);
    assert (i + 1) * yIncr == i * yIncr + yIncr;
  }

  lemma LineYNoWrap(yIncr: nat, k: nat)
    requires 2 + k * yIncr < U16
    ensures LineY(yIncr, k) == 2 + k * yIncr
  {
  }

  lemma MulMono(a: nat, b: nat, c: nat)
    requires a <= b
    ensures a * c <= b * c
  {
  }

  // ---------------------------------------------------------------------------
  // Menu composition (CreateMenus)
  // ---------------------------------------------------------------------------

  const MainLines: seq<string> := [
    "Start/Stop Play", "Select Player", "Favourites 1", "Favourites 2",
    "Favourites 3", "Favourites 4", "Favourites 5", "Return"]

  /** ceil(nfavs / MAXLINES), as the source computes it. */
  function UncappedPages(nfavs: nat): nat
  {
    if nfavs % MaxLines == 0 then nfavs / MaxLines else nfavs / MaxLines + 1
  }

  /** Number of favourites pages: ceil(nfavs / 20), at most 5. */
  function NPages(nfavs: nat): nat
  {
    var p := UncappedPages(nfavs);
    if p < MaxPages then p else MaxPages
  }

  /** The page count is the least number of 20-entry pages that hold all favourites,
      unless that exceeds five pages. */
  lemma NPagesIsCappedCeiling(nfavs: nat)
    ensures NPages(nfavs) <= MaxPages
    ensures NPages(nfavs) < MaxPages ==> nfavs <= NPages(nfavs) * MaxLines
    ensures NPages(nfavs) > 0 ==> (NPages(nfavs) - 1) * MaxLines < nfavs
    ensures nfavs == 0 <==> NPages(nfavs) == 0
    ensures NPages(nfavs) == MaxPages <==> nfavs > (MaxPages - 1) * MaxLines
  {
  }

  function MainMenuLabels(nfavs: nat): seq<string>
  {
    MainLines[..NPages(nfavs) + 2] + [MainLines[7]]
  }

  function Names(players: seq<Player>): (ns: seq<string>)
    ensures |ns| == |players|
  {
    seq(|players|, i requires 0 <= i < |players| => players[i].name)
  }

  function FavNames(favs: seq<Favourite>): (ns: seq<string>)
    ensures |ns| == |favs|
  {
    seq(|favs|, i requires 0 <= i < |favs| => favs[i].name)
  }

  function PlayerMenuLabels(players: seq<Player>): seq<string>
  {
    Names(players) + ["Return"]
  }

  /** Favourites of page p: indices p*20 up to min(nfavs, p*20 + 20). */
  function FavouritePage(favs: seq<Favourite>, p: nat): seq<Favourite>
    requires p < NPages(|favs|)
  {
    var from := p * MaxLines;
    var to := if from + MaxLines < |favs| then from + MaxLines else |favs|;
    favs[from..to]
  }

  function FavouritePageLabels(favs: seq<Favourite>, p: nat): seq<string>
    requires p < NPages(|favs|)
  {
    FavNames(FavouritePage(favs, p)) + ["Return"]
  }

  /** The main menu: the two fixed rows, one row per favourites page, then "Return". */
  lemma MainMenuShape(nfavs: nat)
    ensures var m := MainMenuLabels(nfavs);
      && |m| == NPages(nfavs) + 3
      && m[0] == "Start/Stop Play" && m[1] == "Select Player" && m[|m| - 1] == "Return"
      && forall i :: 2 <= i < NPages(nfavs) + 2 ==> m[i] == MainLines[i]
  {
  }

  /** Each page holds between one and twenty favourites, followed by "Return". */
  lemma FavouritePageShape(favs: seq<Favourite>, p: nat)
    requires p < NPages(|favs|)
    ensures 1 <= |FavouritePage(favs, p)| <= MaxLines
    ensures var l := FavouritePageLabels(favs, p); |l| == |FavouritePage(favs, p)| + 1 && l[|l| - 1] == "Return"
    ensures forall i :: 0 <= i < |FavouritePage(favs, p)| ==> FavouritePage(favs, p)[i] == favs[p * MaxLines + i]
  {
    NPagesIsCappedCeiling(|favs|);
  }

  function PagesUpTo(favs: seq<Favourite>, k: nat): seq<Favourite>
    requires k <= NPages(|favs|)
  {
    if k == 0 then [] else PagesUpTo(favs, k - 1) + FavouritePage(favs, k - 1)
  }

  /** The pages, read in order, list the first min(nfavs, 100) favourites exactly
      once each and in order. */
  lemma PagesCoverFavourites(favs: seq<Favourite>)
    ensures PagesUpTo(favs, NPages(|favs|)) == favs[..if |favs| < MaxPages * MaxLines then |favs| else MaxPages * MaxLines]
  {
    NPagesIsCappedCeiling(|favs|);
    PagesPrefix(favs, NPages(|favs|));
  }

  lemma {:induction false} PagesPrefix(favs: seq<Favourite>, k: nat)
    requires k <= NPages(|favs|)
    ensures PagesUpTo(favs, k) == favs[..if k * MaxLines < |favs| then k * MaxLines else |favs|]
  {
    if k > 0 {
      PagesPrefix(favs, k - 1);
      NPagesIsCappedCeiling(|favs|);
      var from := (k - 1) * MaxLines;
      assert from < |favs|;
      var to := if from + MaxLines < |favs| then from + MaxLines else |favs|;
      assert favs[..from] + favs[from..to] == favs[..to];
    }
  }

  // ---------------------------------------------------------------------------
  // Menu
  // ---------------------------------------------------------------------------

  class Menu {
    var mainMenu: SubMenu
    var playerMenu: SubMenu
    var favouriteMenus: seq<SubMenu>

    ghost predicate Valid()
      reads this, mainMenu, playerMenu, favouriteMenus
    {
      && mainMenu != playerMenu
      && mainMenu.Valid() && mainMenu.yIncr == MainSpacing
      && playerMenu.Valid() && playerMenu.yIncr == PlayerSpacing
      && forall i :: 0 <= i < |favouriteMenus| ==>
           && favouriteMenus[i] != mainMenu && favouriteMenus[i] != playerMenu
           && favouriteMenus[i].Valid() && favouriteMenus[i].yIncr == FavouriteSpacing
    }

    /** The state CreateMenus leaves on a fresh Menu for these favourites and players. */
    ghost predicate Built(favs: seq<Favourite>, players: seq<Player>)
      reads this, mainMenu, playerMenu, favouriteMenus
    {
      && Texts(mainMenu.lines) == MainMenuLabels(|favs|)
      && Texts(playerMenu.lines) == PlayerMenuLabels(players)
      && |favouriteMenus| == NPages(|favs|)
      && forall p :: 0 <= p < |favouriteMenus| ==> Texts(favouriteMenus[p].lines) == FavouritePageLabels(favs, p)
    }

    constructor ()
      ensures Valid() && fresh(mainMenu) && fresh(playerMenu)
      ensures mainMenu.lines == [] && playerMenu.lines == [] && favouriteMenus == []
    {
      mainMenu := new SubMenu(MainSpacing);
      playerMenu := new SubMenu(PlayerSpacing);
      favouriteMenus := [];
    }

    method CreateMenus(favs: seq<Favourite>, players: seq<Player>)
      requires Valid()
      modifies this, mainMenu, playerMenu
      ensures Valid()
      ensures mainMenu == old(mainMenu) && playerMenu == old(playerMenu)
      ensures Texts(mainMenu.lines) == Texts(old(mainMenu.lines)) + MainMenuLabels(|favs|)
      ensures Texts(playerMenu.lines) == Texts(old(playerMenu.lines)) + PlayerMenuLabels(players)
      ensures |favouriteMenus| == |old(favouriteMenus)| + NPages(|favs|)
      ensures favouriteMenus[..|old(favouriteMenus)|] == old(favouriteMenus)
      ensures forall i :: |old(favouriteMenus)| <= i < |favouriteMenus| ==>
                fresh(favouriteMenus[i])
                && Texts(favouriteMenus[i].lines) == FavouritePageLabels(favs, i - |old(favouriteMenus)|)
    {
      FillMain(mainMenu, |favs|);
      FillPlayers(playerMenu, players);
      AddPages(favs);
    }

    /** CreateMenus' main menu: the fixed rows and one row per page, then "Return". */
    static method FillMain(m: SubMenu, nfavs: nat)
      requires m.Valid()
      modifies m
      ensures m.Valid() && m.yIncr == old(m.yIncr)
      ensures Texts(m.lines) == Texts(old(m.lines)) + MainMenuLabels(nfavs)
    {
      var npages := NPages(nfavs);
      m.Reserve(npages + 3);
      AddAll(m, MainLines[..npages + 2]);
      m.AddLine(MainLines[7]);
    }

    /** CreateMenus' player menu: one row per player, then "Return". */
    static method FillPlayers(m: SubMenu, players: seq<Player>)
      requires m.Valid()
      modifies m
      ensures m.Valid() && m.yIncr == old(m.yIncr)
      ensures Texts(m.lines) == Texts(old(m.lines)) + PlayerMenuLabels(players)
    {
      m.Reserve(|players| + 1);
      AddAll(m, Names(players));
      m.AddLine("Return");
    }

    /** CreateMenus' loop over the favourites pages. */
    method AddPages(favs: seq<Favourite>)
      requires Valid()
      modifies this
      ensures Valid()
      ensures mainMenu == old(mainMenu) && playerMenu == old(playerMenu)
      ensures |favouriteMenus| == |old(favouriteMenus)| + NPages(|favs|)
      ensures favouriteMenus[..|old(favouriteMenus)|] == old(favouriteMenus)
      ensures forall i :: |old(favouriteMenus)| <= i < |favouriteMenus| ==>
                fresh(favouriteMenus[i])
                && Texts(favouriteMenus[i].lines) == FavouritePageLabels(favs, i - |old(favouriteMenus)|)
    {
      var npages := NPages(|favs|);
      var page := 0;
      while page < npages
        invariant 0 <= page <= npages
        invariant mainMenu == old(mainMenu) && playerMenu == old(playerMenu)
        invariant |favouriteMenus| == |old(favouriteMenus)| + page
        invariant favouriteMenus[..|old(favouriteMenus)|] == old(favouriteMenus)
        invariant Valid()
        invariant forall i :: |old(favouriteMenus)| <= i < |favouriteMenus| ==>
                    fresh(favouriteMenus[i])
                    && Texts(favouriteMenus[i].lines) == FavouritePageLabels(favs, i - |old(favouriteMenus)|)
      {
        var favMenu := BuildPage(favs, page);
        favouriteMenus := favouriteMenus + [favMenu];
        page := page + 1;
      }
    }

    /** Adds the labels one by one. */
    static method AddAll(m: SubMenu, labels: seq<string>)
      requires m.Valid()
      modifies m
      ensures m.Valid() && m.yIncr == old(m.yIncr)
      ensures Texts(m.lines) == Texts(old(m.lines)) + labels
    {
      var i := 0;
      while i < |labels|
        invariant 0 <= i <= |labels|
        invariant m.Valid() && m.yIncr == old(m.yIncr)
        invariant Texts(m.lines) == Texts(old(m.lines)) + labels[..i]
      {
        m.AddLine(labels[i]);
        assert labels[..i + 1] == labels[..i] + [labels[i]];
        i := i + 1;
      }
    }

    /** One favourites page: its slice of favourites, then "Return". */
    static method BuildPage(favs: seq<Favourite>, page: nat) returns (m: SubMenu)
      requires page < NPages(|favs|)
      ensures fresh(m) && m.Valid() && m.yIncr == FavouriteSpacing
      ensures Texts(m.lines) == FavouritePageLabels(favs, page)
    {
      m := new SubMenu(FavouriteSpacing);
      m.Reserve(11);
      var from := page * MaxLines;
      var to := from + MaxLines;
      to := if |favs| < to then |favs| else to;
      NPagesIsCappedCeiling(|favs|);
      var i := from;
      while i < to
        invariant from <= i <= to
        invariant m.Valid() && m.yIncr == FavouriteSpacing
        invariant Texts(m.lines) == FavNames(favs[from..i])
      {
        m.AddLine(favs[i].name);
        assert favs[from..i + 1] == favs[from..i] + [favs[i]];
        i := i + 1;
      }
      m.AddLine("Return");
    }

    /** Show: run the main menu, dispatch its row, run the chosen sub-menu. */
    method Show(favs: seq<Favourite>, players: seq<Player>, canvasY: int,
                mainEvents: seq<Event>, subEvents: seq<Event>) returns (action: Action)
      requires Valid() && Built(favs, players)
      ensures action == ShowOutcome(favs, players, canvasY, mainEvents, subEvents)
    {
      BuiltLayout(mainMenu, MainMenuLabels(|favs|));
      BuiltLayout(playerMenu, PlayerMenuLabels(players));
      var selected := mainMenu.DisplayMenu(mainEvents, canvasY);
      if selected.None? {
        return Waiting;
      }
      match ShowDispatch(|favs|, selected.value)
      case ToggleRow =>
        action := TogglePlayback;
      case PlayerRow =>
        var s := playerMenu.DisplayMenu(subEvents, canvasY);
        action := if s.None? then Waiting else SelectPlayer(|players|, s.value);
      case PageRow(p) =>
        var favMenu := favouriteMenus[p];
        BuiltLayout(favMenu, FavouritePageLabels(favs, p));
        var s := favMenu.DisplayMenu(subEvents, canvasY);
        action := if s.None? then Waiting else SelectFavourite(p, favMenu.Size(), s.value);
      case NoRow =>
        action := NoAction;
    }
  }

  /** A valid sub-menu holding `labels` is exactly their layout. */
  lemma BuiltLayout(m: SubMenu, labels: seq<string>)
    requires m.Valid() && Texts(m.lines) == labels
    ensures m.lines == Layout(labels, m.yIncr)
  {
    assert forall k :: 0 <= k < |labels| ==> m.lines[k].text == Texts(m.lines)[k];
  }

  // ---------------------------------------------------------------------------
  // Dispatch (Show, select_player, select_favourite)
  // ---------------------------------------------------------------------------

  /** What a main-menu row leads to. */
  datatype MainChoice = ToggleRow | PlayerRow | PageRow(page: nat) | NoRow

  /** What one pass through the menus asks the rest of the firmware to do; Waiting
      when an input sequence ended before a row was committed. */
  datatype Action = TogglePlayback | SwitchPlayer(index: nat) | PlayFavourite(index: nat) | NoAction | Waiting

  /** Show's dispatch with the page count capped as in CreateMenus. */
  function ShowDispatch(nfavs: nat, selected: nat): MainChoice
  {
    if selected == 0 then ToggleRow
    else if selected == 1 then PlayerRow
    else if selected <= 1 + NPages(nfavs) then PageRow(selected - 2)
    else NoRow
  }

  /** Show's dispatch as written: the page count is not capped. */
  function ShowDispatchAsWritten(nfavs: nat, selected: nat): MainChoice
  {
    if selected == 0 then ToggleRow
    else if selected == 1 then PlayerRow
    else if selected <= 1 + UncappedPages(nfavs) then PageRow(selected - 2)
    else NoRow
  }

  /** select_player: a row below the player count switches to that player. */
  function SelectPlayer(playerCount: nat, selected: nat): Action
  {
    if selected < playerCount then SwitchPlayer(selected) else NoAction
  }

  /** select_favourite: a row above "Return" plays favourite page*20 + row. */
  function SelectFavourite(page: nat, menuSize: nat, selected: nat): Action
    requires menuSize > 0
  {
    if selected < menuSize - 1 then PlayFavourite(page * MaxLines + selected) else NoAction
  }

  /** Every main-menu row leads to exactly the action of its label: row 0 toggles,
      row 1 picks a player, row 2 + p opens existing page p, and "Return" does nothing. */
  lemma ShowDispatchMatchesLabels(nfavs: nat, selected: nat)
    requires selected < |MainMenuLabels(nfavs)|
    ensures var row := MainMenuLabels(nfavs)[selected];
      && (ShowDispatch(nfavs, selected) == ToggleRow <==> row == "Start/Stop Play")
      && (ShowDispatch(nfavs, selected) == PlayerRow <==> row == "Select Player")
      && (ShowDispatch(nfavs, selected) == NoRow <==> row == "Return")
      && (ShowDispatch(nfavs, selected).PageRow? ==>
            ShowDispatch(nfavs, selected).page < NPages(nfavs)
            && row == MainLines[2 + ShowDispatch(nfavs, selected).page])
  {
    MainMenuShape(nfavs);
  }

  /** Choosing "Return" in any menu changes nothing. */
  lemma ReturnDoesNothing(favs: seq<Favourite>, players: seq<Player>, p: nat)
    requires p < NPages(|favs|)
    ensures ShowDispatch(|favs|, |MainMenuLabels(|favs|)| - 1) == NoRow
    ensures SelectPlayer(|players|, |PlayerMenuLabels(players)| - 1) == NoAction
    ensures SelectFavourite(p, |FavouritePageLabels(favs, p)|, |FavouritePageLabels(favs, p)| - 1) == NoAction
  {
  }

  /** A player row selects the player whose name it shows. */
  lemma SelectPlayerMatchesLabel(players: seq<Player>, selected: nat)
    requires selected < |PlayerMenuLabels(players)|
    ensures SelectPlayer(|players|, selected).SwitchPlayer? <==> selected < |players|
    ensures SelectPlayer(|players|, selected).SwitchPlayer? ==>
              PlayerMenuLabels(players)[selected] == players[selected].name
  {
  }

  /** A favourites row plays the favourite whose name it shows, and nothing else. */
  lemma SelectFavouriteMatchesLabel(favs: seq<Favourite>, p: nat, selected: nat)
    requires p < NPages(|favs|) && selected < |FavouritePageLabels(favs, p)|
    ensures var a := SelectFavourite(p, |FavouritePageLabels(favs, p)|, selected);
      && (a.PlayFavourite? <==> selected < |FavouritePage(favs, p)|)
      && (a.PlayFavourite? ==> a.index < |favs| && favs[a.index].name == FavouritePageLabels(favs, p)[selected])
  {
    FavouritePageShape(favs, p);
  }

  /** The whole Show flow on the menus CreateMenus built. */
  function ShowOutcome(favs: seq<Favourite>, players: seq<Player>, canvasY: int,
                       mainEvents: seq<Event>, subEvents: seq<Event>): Action
  {
    var main := Run(FirstMatch, Layout(MainMenuLabels(|favs|), MainSpacing), canvasY, Start, mainEvents);
    if main.None? then Waiting
    else
      match ShowDispatch(|favs|, main.value)
      case ToggleRow => TogglePlayback
      case PlayerRow =>
        var s := Run(FirstMatch, Layout(PlayerMenuLabels(players), PlayerSpacing), canvasY, Start, subEvents);
        if s.None? then Waiting else SelectPlayer(|players|, s.value)
      case PageRow(p) =>
        var labels := FavouritePageLabels(favs, p);
        var s := Run(FirstMatch, Layout(labels, FavouriteSpacing), canvasY, Start, subEvents);
        if s.None? then Waiting else SelectFavourite(p, |labels|, s.value)
      case NoRow => NoAction
  }

  /** Whatever the inputs, Show only ever switches to a configured player and only
      ever plays a configured favourite. */
  lemma ShowActsOnExistingEntries(favs: seq<Favourite>, players: seq<Player>, canvasY: int,
                                   mainEvents: seq<Event>, subEvents: seq<Event>)
    ensures var a := ShowOutcome(favs, players, canvasY, mainEvents, subEvents);
      && (a.SwitchPlayer? ==> a.index < |players|)
      && (a.PlayFavourite? ==> a.index < |favs|)
  {
    var main := Run(FirstMatch, Layout(MainMenuLabels(|favs|), MainSpacing), canvasY, Start, mainEvents);
    if main.Some? {
      match ShowDispatch(|favs|, main.value)
      case PageRow(p) =>
        var labels := FavouritePageLabels(favs, p);
        var s := Run(FirstMatch, Layout(labels, FavouriteSpacing), canvasY, Start, subEvents);
        if s.Some? {
          SelectFavouriteMatchesLabel(favs, p, s.value);
        }
      case _ =>
    }
  }

  // ---------------------------------------------------------------------------
  // Finding: Show's page count is not capped
  // ---------------------------------------------------------------------------

  /** With 101 favourites the main menu has five page rows, so its "Return" row is
      row 7; as written Show treats row 7 as page 5, a page CreateMenus never built. */
  lemma ReturnOpensMissingPageAsWritten()
    ensures |MainMenuLabels(101)| == 8 && MainMenuLabels(101)[7] == "Return"
    ensures NPages(101) == 5
    ensures ShowDispatchAsWritten(101, 7) == PageRow(5)
    ensures ShowDispatch(101, 7) == NoRow
  {
  }

  /** The two dispatches differ only past 100 favourites, where pages are capped. */
  lemma ShowDispatchAgreesUpTo100(nfavs: nat, selected: nat)
    requires nfavs <= MaxPages * MaxLines
    ensures ShowDispatchAsWritten(nfavs, selected) == ShowDispatch(nfavs, selected)
  {
  }
}
