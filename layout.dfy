/** `display`: column widths from a fold over the rows, three box-drawing
    rules, and centred header and body lines. */
module Layout {
  import opened Text
  import opened Selection

  /** The four columns of the table, left to right. */
  datatype Column = PidColumn | NameColumn | MemColumn | VirtMemColumn

  /** One value per column. */
  datatype Columns<T> = Columns(pid: T, name: T, mem: T, virtMem: T)
  {
    function At(c: Column): T
    {
      match c
      case PidColumn => pid
      case NameColumn => name
      case MemColumn => mem
      case VirtMemColumn => virtMem
    }
  }

  /** Blank cells on each side of the widest entry of a column. */
  const PADDING: nat := 1

  const Labels: Columns<string> := Columns("Pid", "Name", "Memory", "Virtual memory")

  const Horizontal: char := '\U{2500}'
  const Vertical: char := '\U{2502}'

  function Max(a: nat, b: nat): nat
  {
    if a < b then b else a
  }

  /** The cells a row shows, in column order. */
  function Cells(p: Process): Columns<string>
  {
    Columns(p.pid, p.name, p.mem, p.virtMem)
  }

  /** Space a text needs in a column: its byte length and the padding. */
  function Needed(s: string): nat
  {
    ByteLen(s) + 2 * PADDING
  }

  /** The fold's seed: each label with its padding. */
  function LabelWidths(): Columns<nat>
  {
    Columns(Needed(Labels.pid), Needed(Labels.name), Needed(Labels.mem), Needed(Labels.virtMem))
  }

  /** The fold's step: widen each column to fit one more row. Each new width
      is the least that covers both the old width and the row's cell. */
  function Widen(acc: Columns<nat>, p: Process): (r: Columns<nat>)
    ensures forall c :: r.At(c) >= acc.At(c) && r.At(c) >= Needed(Cells(p).At(c))
    ensures forall c :: r.At(c) == acc.At(c) || r.At(c) == Needed(Cells(p).At(c))
  {
    Columns(Max(acc.pid, Needed(p.pid)), Max(acc.name, Needed(p.name)),
            Max(acc.mem, Needed(p.mem)), Max(acc.virtMem, Needed(p.virtMem)))
  }

  function FoldWidths(acc: Columns<nat>, rows: seq<Process>): Columns<nat>
    decreases |rows|
  {
    if rows == [] then acc else FoldWidths(Widen(acc, rows[0]), rows[1..])
  }

  /** `(pid_cell_size, name_cell_size, mem_cell_size, virt_mem_cell_size)`. */
  function CellSizes(rows: seq<Process>): Columns<nat>
  {
    FoldWidths(LabelWidths(), rows)
  }

  lemma {:induction false} FoldWidthsIsMax(acc: Columns<nat>, rows: seq<Process>, c: Column)
    ensures FoldWidths(acc, rows).At(c) >= acc.At(c)
    ensures forall p :: p in rows ==> FoldWidths(acc, rows).At(c) >= Needed(Cells(p).At(c))
    ensures FoldWidths(acc, rows).At(c) == acc.At(c) ||
            exists p :: p in rows && FoldWidths(acc, rows).At(c) == Needed(Cells(p).At(c))
    decreases |rows|
  {
    if rows != [] {
      FoldWidthsIsMax(Widen(acc, rows[0]), rows[1..], c);
      assert forall p :: p in rows ==> p == rows[0] || p in rows[1..];
    }
  }

  /** Each column is exactly as wide as its label or its widest cell,
      whichever needs more, padding included. */
  lemma CellSizesIsMax(rows: seq<Process>, c: Column)
    ensures CellSizes(rows).At(c) >= Needed(Labels.At(c))
    ensures forall p :: p in rows ==> CellSizes(rows).At(c) >= Needed(Cells(p).At(c))
    ensures CellSizes(rows).At(c) == Needed(Labels.At(c)) ||
            exists p :: p in rows && CellSizes(rows).At(c) == Needed(Cells(p).At(c))
  {
    FoldWidthsIsMax(LabelWidths(), rows, c);
  }

  /** `r` holds `s` centred: the padding around it is spaces, and the left
      padding is the smaller half. */
  ghost predicate CenteredIn(r: string, s: string)
  {
    |s| <= |r| &&
    var left := (|r| - |s|) / 2;
    r[left..left + |s|] == s &&
    (forall k :: 0 <= k < left ==> r[k] == ' ') &&
    (forall k :: left + |s| <= k < |r| ==> r[k] == ' ')
  }

  /** `format!("{:^w$}", s)`: pads to `w` characters, never truncates. */
  function Center(s: string, w: nat): (r: string)
    ensures |r| == Max(w, |s|)
  {
    var pad := if |s| < w then w - |s| else 0;
    Repeat(' ', pad / 2) + s + Repeat(' ', pad - pad / 2)
  }

  /** The centred text sits between spaces, with the smaller half of the
      padding on the left: `floor(pad / 2)` before it, the rest after it. */
  lemma CenterIsCentered(s: string, w: nat)
    ensures CenteredIn(Center(s, w), s)
    ensures |s| <= w ==> (w - |s|) / 2 <= w - |s| - (w - |s|) / 2 <= (w - |s|) / 2 + 1
  {
    var pad := if |s| < w then w - |s| else 0;
    var r := Center(s, w);
    assert r == Repeat(' ', pad / 2) + s + Repeat(' ', pad - pad / 2);
    assert r[pad / 2..pad / 2 + |s|] == s;
  }

  /** The four column texts with `left` before, `tee` between and `right`
      after them: the layout shared by rules and lines. */
  function Framed(left: char, tee: char, right: char, x: Columns<string>): string
  {
    [left] + x.pid + [tee] + x.name + [tee] + x.mem + [tee] + x.virtMem + [right]
  }

  /** A header or body line: a vertical bar before, between and after the
      centred cells. */
  function RowLine(cells: Columns<string>, w: Columns<nat>): string
  {
    Framed(Vertical, Vertical, Vertical,
           Columns(Center(cells.pid, w.pid), Center(cells.name, w.name),
                   Center(cells.mem, w.mem), Center(cells.virtMem, w.virtMem)))
  }

  /** A rule: `left`, then horizontal glyphs the width of each column with
      `tee` between columns, then `right`. */
  function Rule(left: char, tee: char, right: char, w: Columns<nat>): string
  {
    Framed(left, tee, right,
           Columns(Repeat(Horizontal, w.pid), Repeat(Horizontal, w.name),
                   Repeat(Horizontal, w.mem), Repeat(Horizontal, w.virtMem)))
  }

  /** The header line: the column labels, centred. */
  function Header(w: Columns<nat>): string
  {
    RowLine(Labels, w)
  }

  function TopBar(w: Columns<nat>): string
  {
    Rule('\U{250C}', '\U{252C}', '\U{2510}', w)
  }

  function MiddleBar(w: Columns<nat>): string
  {
    Rule('\U{251C}', '\U{253C}', '\U{2524}', w)
  }

  function BottomBar(w: Columns<nat>): string
  {
    Rule('\U{2514}', '\U{2534}', '\U{2518}', w)
  }

  /** The three rules `display` draws: each is as wide as every other line,
      with its own corner glyphs at the ends and its own tee glyph at the
      three inner joints. */
  lemma BarsShape(w: Columns<nat>)
    ensures |TopBar(w)| == |MiddleBar(w)| == |BottomBar(w)| == LineWidth(w)
    ensures TopBar(w)[0] == '\U{250C}' && TopBar(w)[LineWidth(w) - 1] == '\U{2510}'
    ensures MiddleBar(w)[0] == '\U{251C}' && MiddleBar(w)[LineWidth(w) - 1] == '\U{2524}'
    ensures BottomBar(w)[0] == '\U{2514}' && BottomBar(w)[LineWidth(w) - 1] == '\U{2518}'
    ensures forall i :: 1 <= i <= 3 ==>
      TopBar(w)[Joints(w)[i]] == '\U{252C}' && MiddleBar(w)[Joints(w)[i]] == '\U{253C}' &&
      BottomBar(w)[Joints(w)[i]] == '\U{2534}'
  {
    RuleShape('\U{250C}', '\U{252C}', '\U{2510}', w);
    RuleShape('\U{251C}', '\U{253C}', '\U{2524}', w);
    RuleShape('\U{2514}', '\U{2534}', '\U{2518}', w);
  }

  /** Characters in every line of a table with widths `w`: the columns and
      five separators. */
  function LineWidth(w: Columns<nat>): nat
  {
    w.pid + w.name + w.mem + w.virtMem + 5
  }

  /** The character positions of the five separators. */
  function Joints(w: Columns<nat>): seq<nat>
  {
    [0, w.pid + 1, w.pid + w.name + 2, w.pid + w.name + w.mem + 3, LineWidth(w) - 1]
  }

  /** The lines `display` prints: top rule, header, middle rule, one line per
      row in the given order, bottom rule. */
  function Table(rows: seq<Process>): seq<string>
  {
    var w := CellSizes(rows);
    Frame(TopBar(w), Header(w), MiddleBar(w), BodyLines(rows, w), BottomBar(w))
  }

  /** The three lines above the body, the body and the line below it. */
  function Frame(top: string, header: string, middle: string, body: seq<string>, bottom: string): seq<string>
  {
    [top, header, middle] + body + [bottom]
  }

  /** One line per row, in the order of the rows. */
  function BodyLines(rows: seq<Process>, w: Columns<nat>): (lines: seq<string>)
    ensures |lines| == |rows|
    ensures forall i :: 0 <= i < |rows| ==> lines[i] == RowLine(Cells(rows[i]), w)
  {
    seq(|rows|, i requires 0 <= i < |rows| => RowLine(Cells(rows[i]), w))
  }

  /** Where the cell of column `c` begins in a line. */
  function Offset(w: Columns<nat>, c: Column): nat
  {
    match c
    case PidColumn => 1
    case NameColumn => w.pid + 2
    case MemColumn => w.pid + w.name + 3
    case VirtMemColumn => w.pid + w.name + w.mem + 4
  }

  function Lengths(x: Columns<string>): (n: Columns<nat>)
    ensures forall c :: n.At(c) == |x.At(c)|
  {
    Columns(|x.pid|, |x.name|, |x.mem|, |x.virtMem|)
  }

  /** A framed line is as wide as its texts plus five separators, has its
      separators at the joint positions and each text at its offset. */
  lemma FramedShape(left: char, tee: char, right: char, x: Columns<string>)
    ensures |Framed(left, tee, right, x)| == LineWidth(Lengths(x))
    ensures Framed(left, tee, right, x)[0] == left
    ensures Framed(left, tee, right, x)[LineWidth(Lengths(x)) - 1] == right
    ensures forall i :: 1 <= i <= 3 ==> Framed(left, tee, right, x)[Joints(Lengths(x))[i]] == tee
    ensures forall c :: Offset(Lengths(x), c) + |x.At(c)| <= LineWidth(Lengths(x))
    ensures forall c ::
      Framed(left, tee, right, x)[Offset(Lengths(x), c)..Offset(Lengths(x), c) + |x.At(c)|] == x.At(c)
  {
    var a := [left] + x.pid;
    var b := a + [tee] + x.name;
    var d := b + [tee] + x.mem;
    var e := d + [tee] + x.virtMem;
    assert Framed(left, tee, right, x) == e + [right];
    assert b[|a| + 1..] == x.name;
    assert d[|b| + 1..] == x.mem;
    assert e[|d| + 1..] == x.virtMem;
    assert a[1..] == x.pid;
  }

  /** A rule is `left`, `tee` at the three inner separator positions and
      `right`, with each column's width filled with horizontal glyphs. */
  lemma RuleShape(left: char, tee: char, right: char, w: Columns<nat>)
    ensures |Rule(left, tee, right, w)| == LineWidth(w)
    ensures Rule(left, tee, right, w)[0] == left
    ensures Rule(left, tee, right, w)[LineWidth(w) - 1] == right
    ensures forall i :: 1 <= i <= 3 ==> Rule(left, tee, right, w)[Joints(w)[i]] == tee
    ensures forall c :: (Offset(w, c) + w.At(c) <= LineWidth(w) &&
      Rule(left, tee, right, w)[Offset(w, c)..Offset(w, c) + w.At(c)] == Repeat(Horizontal, w.At(c)))
  {
    var x := Columns(Repeat(Horizontal, w.pid), Repeat(Horizontal, w.name),
                     Repeat(Horizontal, w.mem), Repeat(Horizontal, w.virtMem));
    assert Lengths(x) == w;
    FramedShape(left, tee, right, x);
    forall c ensures x.At(c) == Repeat(Horizontal, w.At(c)) {
    }
  }

  /** Every text fits its column. */
  ghost predicate Fits(cells: Columns<string>, w: Columns<nat>)
  {
    forall c :: |cells.At(c)| <= w.At(c)
  }

  /** A text line lined up with the rules: as wide as they are, with a
      vertical bar at each of their separator positions. */
  ghost predicate Aligned(line: string, w: Columns<nat>)
  {
    |line| == LineWidth(w) && forall j :: j in Joints(w) ==> line[j] == Vertical
  }

  /** A header or body line whose cells fit their columns is aligned with
      the rules and holds each cell, centred, in its own column. */
  lemma RowLineShape(cells: Columns<string>, w: Columns<nat>)
    requires Fits(cells, w)
    ensures Aligned(RowLine(cells, w), w)
    ensures forall c :: (Offset(w, c) + w.At(c) <= LineWidth(w) &&
      RowLine(cells, w)[Offset(w, c)..Offset(w, c) + w.At(c)] == Center(cells.At(c), w.At(c)))
  {
    var x := Columns(Center(cells.pid, w.pid), Center(cells.name, w.name),
                     Center(cells.mem, w.mem), Center(cells.virtMem, w.virtMem));
    assert |cells.At(PidColumn)| <= w.At(PidColumn) && |cells.At(NameColumn)| <= w.At(NameColumn);
    assert |cells.At(MemColumn)| <= w.At(MemColumn) && |cells.At(VirtMemColumn)| <= w.At(VirtMemColumn);
    assert Lengths(x) == w;
    FramedShape(Vertical, Vertical, Vertical, x);
    forall c ensures x.At(c) == Center(cells.At(c), w.At(c)) {
    }
  }

  /** Every header label and every cell fits its column with room to spare:
      a width counts bytes plus padding, and a text has no more characters
      than bytes, so the centring never meets a text wider than its column. */
  lemma CellsFit(rows: seq<Process>, c: Column)
    ensures |Labels.At(c)| + 2 * PADDING <= CellSizes(rows).At(c)
    ensures forall p :: p in rows ==> |Cells(p).At(c)| + 2 * PADDING <= CellSizes(rows).At(c)
  {
    CellSizesIsMax(rows, c);
    CharsAtMostBytes(Labels.At(c));
    forall p | p in rows ensures |Cells(p).At(c)| + 2 * PADDING <= CellSizes(rows).At(c) {
      CharsAtMostBytes(Cells(p).At(c));
    }
  }

  lemma AllFit(rows: seq<Process>)
    ensures Fits(Labels, CellSizes(rows))
    ensures forall p :: p in rows ==> Fits(Cells(p), CellSizes(rows))
  {
    forall c ensures |Labels.At(c)| <= CellSizes(rows).At(c)
                  && forall p :: p in rows ==> |Cells(p).At(c)| <= CellSizes(rows).At(c) {
      CellsFit(rows, c);
    }
  }

  /** The table has one line per row plus four, in the order top rule,
      header, middle rule, rows in the order given, bottom rule; with no rows
      it is the four-line empty frame. */
  lemma TableOrder(rows: seq<Process>)
    ensures |Table(rows)| == |rows| + 4
    ensures Table(rows)[0] == TopBar(CellSizes(rows))
    ensures Table(rows)[1] == Header(CellSizes(rows))
    ensures Table(rows)[2] == MiddleBar(CellSizes(rows))
    ensures forall i :: 0 <= i < |rows| ==> Table(rows)[3 + i] == RowLine(Cells(rows[i]), CellSizes(rows))
    ensures Table(rows)[|rows| + 3] == BottomBar(CellSizes(rows))
  {
    var w := CellSizes(rows);
    FrameOrder(TopBar(w), Header(w), MiddleBar(w), BodyLines(rows, w), BottomBar(w));
  }

  lemma FrameOrder(top: string, header: string, middle: string, body: seq<string>, bottom: string)
    ensures |Frame(top, header, middle, body, bottom)| == |body| + 4
    ensures Frame(top, header, middle, body, bottom)[0] == top
    ensures Frame(top, header, middle, body, bottom)[1] == header
    ensures Frame(top, header, middle, body, bottom)[2] == middle
    ensures forall i :: 0 <= i < |body| ==> Frame(top, header, middle, body, bottom)[3 + i] == body[i]
    ensures Frame(top, header, middle, body, bottom)[|body| + 3] == bottom
  {
  }

  /** The header and the line of every row are aligned with the rules. */
  lemma TextLinesAligned(rows: seq<Process>)
    ensures Aligned(Header(CellSizes(rows)), CellSizes(rows))
    ensures forall i :: 0 <= i < |rows| ==> Aligned(RowLine(Cells(rows[i]), CellSizes(rows)), CellSizes(rows))
  {
    var w := CellSizes(rows);
    AllFit(rows);
    RowLineShape(Labels, w);
    forall i | 0 <= i < |rows| ensures Aligned(RowLine(Cells(rows[i]), w), w) {
      assert rows[i] in rows;
      RowLineShape(Cells(rows[i]), w);
    }
  }

  /** Every line of the table, rules and text lines alike, is exactly
      `LineWidth` characters, and the header and every body line have a
      vertical bar at each separator position of the rules. */
  lemma TableRectangular(rows: seq<Process>)
    ensures forall i :: 0 <= i < |Table(rows)| ==> |Table(rows)[i]| == LineWidth(CellSizes(rows))
    ensures forall i :: 0 < i < |rows| + 3 && i != 2 ==> i < |Table(rows)| && Aligned(Table(rows)[i], CellSizes(rows))
  {
    var w := CellSizes(rows);
    var t := Table(rows);
    TableOrder(rows);
    TextLinesAligned(rows);
    RuleShape('\U{250C}', '\U{252C}', '\U{2510}', w);
    RuleShape('\U{251C}', '\U{253C}', '\U{2524}', w);
    RuleShape('\U{2514}', '\U{2534}', '\U{2518}', w);
    assert |TopBar(w)| == |MiddleBar(w)| == |BottomBar(w)| == LineWidth(w);
    forall i | 0 < i < |rows| + 3 && i != 2 ensures Aligned(t[i], w) {
      if i > 2 {
        assert t[3 + (i - 3)] == t[i];
      }
    }
    forall i | 0 <= i < |t| ensures |t[i]| == LineWidth(w) {
      if i != 0 && i != 2 && i != |rows| + 3 {
        assert Aligned(t[i], w);
      }
    }
  }

  lemma BodyLinesExtend(rows: seq<Process>, i: nat, w: Columns<nat>)
    requires i < |rows|
    ensures BodyLines(rows[..i + 1], w) == BodyLines(rows[..i], w) + [RowLine(Cells(rows[i]), w)]
  {
    var a := BodyLines(rows[..i + 1], w);
    var b := BodyLines(rows[..i], w) + [RowLine(Cells(rows[i]), w)];
    assert |a| == |b|;
    forall k | 0 <= k < |a| ensures a[k] == b[k] {
      assert rows[..i + 1][k] == rows[k];
      if k < i {
        assert rows[..i][k] == rows[k];
      }
    }
  }

  /** `display`: the widths from the fold, the three rules and the header,
      then one line per row emitted in turn, then the bottom rule. */
  method Display(rows: seq<Process>) returns (lines: seq<string>)
    ensures lines == Table(rows)
    ensures |lines| == |rows| + 4
    ensures forall i :: 0 <= i < |lines| ==> |lines[i]| == LineWidth(CellSizes(rows))
  {
    var w := CellSizes(rows);
    var header := Header(w);
    var top := TopBar(w);
    var middle := MiddleBar(w);
    var bottom := BottomBar(w);
    var head := [top, header, middle];
    lines := head;
    assert BodyLines(rows[..0], w) == [];
    assert lines == head + BodyLines(rows[..0], w);
    var i := 0;
    while i < |rows|
      invariant 0 <= i <= |rows|
      invariant lines == head + BodyLines(rows[..i], w)
    {
      var line := RowLine(Cells(rows[i]), w);
      BodyLinesExtend(rows, i, w);
      AppendAssoc(head, BodyLines(rows[..i], w), line);
      lines := lines + [line];
      i := i + 1;
    }
    assert rows[..i] == rows;
    lines := lines + [bottom];
    assert Table(rows) == Frame(top, header, middle, BodyLines(rows, w), bottom);
    TableRectangular(rows);
  }

  lemma AppendAssoc(head: seq<string>, body: seq<string>, line: string)
    ensures head + body + [line] == head + (body + [line])
  {
  }

  /** The seed of the fold: "Pid", "Name", "Memory" and "Virtual memory",
      each with one blank on either side. */
  lemma LabelWidthsValue()
    ensures LabelWidths() == Columns(5, 6, 8, 16)
  {
    CharsAtMostBytes(Labels.pid);
    CharsAtMostBytes(Labels.name);
    CharsAtMostBytes(Labels.mem);
    CharsAtMostBytes(Labels.virtMem);
  }

  /** With no rows the table is the bare four-line frame around the header,
      40 characters wide: the columns of "Pid", "Name", "Memory" and
      "Virtual memory" with their padding, and five separators. */
  lemma EmptyTable()
    ensures |Table([])| == 4
    ensures CellSizes([]) == Columns(5, 6, 8, 16)
    ensures forall i :: 0 <= i < 4 ==> |Table([])[i]| == 40
  {
    LabelWidthsValue();
    assert CellSizes([]) == LabelWidths();
    assert LineWidth(CellSizes([])) == 40;
    TableOrder([]);
    TableRectangular([]);
  }
}
