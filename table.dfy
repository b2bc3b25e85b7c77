/**
 * The console version of the puzzle (`src/main.rs`): the shuffled labels are
 * cut into rows of WIDTH, each label is spawned as a tile with its grid
 * position, and `print_table` rebuilds the HEIGHT-by-WIDTH table from the
 * tiles and prints it row by row. What would go to standard output is returned
 * as a string.
 */
module Table {
  import Numbers

  datatype Position = Position(x: nat, y: nat)

  /** A spawned entity: its `Tile { number }` and its `Position { x, y }`. */
  datatype Tile = Tile(number: nat, pos: Position)

  function Labels(tiles: seq<Tile>): (s: seq<nat>)
    ensures |s| == |tiles| && forall k :: 0 <= k < |tiles| ==> s[k] == tiles[k].number
  {
    seq(|tiles|, k requires 0 <= k < |tiles| => tiles[k].number)
  }

  /** `slice::chunks(w)`: consecutive pieces of w elements, the last one possibly shorter. */
  function Chunks(s: seq<nat>, w: nat): seq<seq<nat>>
    requires w >= 1
    decreases |s|
  {
    if s == [] then [] else if |s| <= w then [s] else [s[..w]] + Chunks(s[w..], w)
  }

  function Flatten(rows: seq<seq<nat>>): seq<nat>
  {
    if rows == [] then [] else rows[0] + Flatten(rows[1..])
  }

  /** Chunking loses and reorders nothing. */
  lemma {:induction false} ChunksFlatten(s: seq<nat>, w: nat)
    requires w >= 1
    ensures Flatten(Chunks(s, w)) == s
    decreases |s|
  {
    if s != [] && |s| > w {
      ChunksFlatten(s[w..], w);
      assert s == s[..w] + s[w..];
    }
  }

  lemma MulAtLeast(d: int, w: nat)
    requires d >= 1
    ensures d * w >= w
  {
  }

  /** The row-major index y * w + x has quotient y and remainder x by w. */
  lemma RowMajor(x: nat, y: nat, w: nat)
    requires x < w
    ensures (y * w + x) / w == y && (y * w + x) % w == x
  {
    var q, r := (y * w + x) / w, (y * w + x) % w;
    assert y * w + x == q * w + r;
    if q > y {
      MulAtLeast(q - y, w);
      assert false;
    } else if q < y {
      MulAtLeast(y - q, w);
      assert false;
    }
  }

  /** Cell (x, y) of a w-by-h grid has a row-major index inside the grid. */
  lemma IndexInGrid(x: nat, y: nat, w: nat, h: nat)
    requires x < w && y < h
    ensures y * w + x < w * h
  {
    MulAtLeast(h - y, w);
    assert (h - y) * w == h * w - y * w;
  }

  /**
   * A vector of w * h labels cut into rows of w is h rows of w labels, row y
   * holding the labels at flat indices y * w .. y * w + w.
   */
  lemma ChunksOfGrid(s: seq<nat>, w: nat, h: nat)
    requires w >= 1 && |s| == w * h
    ensures |Chunks(s, w)| == h
    ensures forall y :: 0 <= y < h ==> |Chunks(s, w)[y]| == w
    ensures forall y, x :: 0 <= y < h && 0 <= x < w && y * w + x < |s| ==> Chunks(s, w)[y][x] == s[y * w + x]
  {
    OffsetIsProduct(h, w);
    ChunkCount(s, w, h);
    forall y | 0 <= y < h
      ensures |Chunks(s, w)[y]| == w
    {
      ChunkAt(s, w, h, y, 0);
    }
    forall y, x | 0 <= y < h && 0 <= x < w && y * w + x < |s|
      ensures Chunks(s, w)[y][x] == s[y * w + x]
    {
      OffsetIsProduct(y, w);
      ChunkAt(s, w, h, y, x);
    }
  }

  /** y * w, by repeated addition. */
  function Offset(y: nat, w: nat): nat
  {
    if y == 0 then 0 else Offset(y - 1, w) + w
  }

  lemma {:induction false} OffsetIsProduct(y: nat, w: nat)
    ensures Offset(y, w) == y * w
  {
    if y > 0 {
      OffsetIsProduct(y - 1, w);
      assert (y - 1) * w + w == y * w;
    }
  }

  lemma {:induction false} ChunkCount(s: seq<nat>, w: nat, h: nat)
    requires w >= 1 && |s| == Offset(h, w)
    ensures |Chunks(s, w)| == h
  {
    if h > 1 {
      ChunkCount(s[w..], w, h - 1);
    }
  }

  lemma {:induction false} ChunkAt(s: seq<nat>, w: nat, h: nat, y: nat, x: nat)
    requires w >= 1 && |s| == Offset(h, w) && y < h && x < w
    ensures |Chunks(s, w)| >= y + 1 && |Chunks(s, w)[y]| == w
    ensures Offset(y, w) + x < |s| && Chunks(s, w)[y][x] == s[Offset(y, w) + x]
  {
    if h > 1 {
      if y > 0 {
        ChunkAt(s[w..], w, h - 1, y - 1, x);
      }
    }
  }

  /** At least one tile sits at (x, y). */
  predicate Covered(tiles: seq<Tile>, x: nat, y: nat)
  {
    exists k :: 0 <= k < |tiles| && tiles[k].pos == Position(x, y)
  }

  /** Where `setup` spawns the label at flat index k: column k % w of row k / w. */
  function PositionOf(k: nat, w: nat): Position
    requires w >= 1
  {
    Position(k % w, k / w)
  }

  lemma RowMajorPosition(x: nat, y: nat, w: nat)
    requires x < w
    ensures PositionOf(Offset(y, w) + x, w) == Position(x, y)
  {
    OffsetIsProduct(y, w);
    RowMajor(x, y, w);
  }

  /**
   * `setup`: the labels `1..WIDTH*HEIGHT+1` shuffled and chunked into rows of
   * WIDTH; the label in column x of row y is spawned at `Position { x, y }`.
   * `chunks(0)` panics and `WIDTH * HEIGHT + 1` must fit in `u8`.
   */
  method Setup(w: nat, h: nat) returns (tiles: seq<Tile>)
    requires w >= 1 && w * h + 1 <= 255
    ensures |tiles| == w * h
    ensures Numbers.IsPermutationOf(Labels(tiles), Numbers.Range(1, w * h + 1))
    ensures forall k :: 0 <= k < |tiles| ==> tiles[k].pos == Position(k % w, k / w)
    ensures forall k :: 0 <= k < |tiles| ==> tiles[k].pos.x < w && tiles[k].pos.y < h
    ensures forall i, j :: 0 <= i < j < |tiles| ==> tiles[i].pos != tiles[j].pos
    ensures forall x: nat, y: nat :: x < w && y < h ==> Covered(tiles, x, y)
  {
    var numbers := Numbers.Shuffled(1, w * h + 1);
    assert |numbers| == w * h by {
      Numbers.PermutationFacts(numbers, w * h);
    }
    var table := Chunks(numbers, w);
    OffsetIsProduct(h, w);
    ChunkCount(numbers, w, h);
    tiles := [];
    for y := 0 to |table|
      invariant |tiles| == Offset(y, w) <= |numbers|
      invariant forall k :: 0 <= k < |tiles| ==> tiles[k] == Tile(numbers[k], PositionOf(k, w))
    {
      ChunkAt(numbers, w, h, y, 0);
      for x := 0 to |table[y]|
        invariant |tiles| == Offset(y, w) + x <= |numbers|
        invariant forall k :: 0 <= k < |tiles| ==> tiles[k] == Tile(numbers[k], PositionOf(k, w))
      {
        ChunkAt(numbers, w, h, y, x);
        RowMajorPosition(x, y, w);
        tiles := tiles + [Tile(table[y][x], Position(x, y))];
      }
    }
    SpawnedLayout(numbers, tiles, w, h);
  }

  /** The tiles spawned from the flat labels, each at the position of its flat index. */
  lemma SpawnedLayout(numbers: seq<nat>, tiles: seq<Tile>, w: nat, h: nat)
    requires w >= 1 && |tiles| == w * h && |numbers| == |tiles|
    requires Numbers.IsPermutationOf(numbers, Numbers.Range(1, w * h + 1))
    requires forall k :: 0 <= k < |tiles| ==> tiles[k] == Tile(numbers[k], PositionOf(k, w))
    ensures Numbers.IsPermutationOf(Labels(tiles), Numbers.Range(1, w * h + 1))
    ensures forall k :: 0 <= k < |tiles| ==> tiles[k].pos == Position(k % w, k / w)
    ensures forall k :: 0 <= k < |tiles| ==> tiles[k].pos.x < w && tiles[k].pos.y < h
    ensures forall i, j :: 0 <= i < j < |tiles| ==> tiles[i].pos != tiles[j].pos
    ensures forall x: nat, y: nat :: x < w && y < h ==> Covered(tiles, x, y)
  {
    assert Labels(tiles) == numbers;
    forall k | 0 <= k < |tiles|
      ensures tiles[k].pos == Position(k % w, k / w)
    {
      assert tiles[k].pos == PositionOf(k, w);
    }
    LayoutFacts(tiles, w, h);
  }

  /** The positions k % w, k / w of the first w * h flat indices tile the w-by-h grid once. */
  lemma LayoutFacts(tiles: seq<Tile>, w: nat, h: nat)
    requires w >= 1 && |tiles| == w * h
    requires forall k :: 0 <= k < |tiles| ==> tiles[k].pos == PositionOf(k, w)
    ensures forall k :: 0 <= k < |tiles| ==> tiles[k].pos.x < w && tiles[k].pos.y < h
    ensures forall i, j :: 0 <= i < j < |tiles| ==> tiles[i].pos != tiles[j].pos
    ensures forall x: nat, y: nat :: x < w && y < h ==> Covered(tiles, x, y)
  {
    forall k | 0 <= k < |tiles|
      ensures tiles[k].pos.y < h
    {
      if k / w >= h {
        MulAtLeast(k / w - h + 1, w);
        assert false;
      }
    }
    forall i, j | 0 <= i < j < |tiles|
      ensures tiles[i].pos != tiles[j].pos
    {
      assert i == (i / w) * w + i % w && j == (j / w) * w + j % w;
    }
    forall x: nat, y: nat | x < w && y < h
      ensures Covered(tiles, x, y)
    {
      IndexInGrid(x, y, w, h);
      RowMajorPosition(x, y, w);
      OffsetIsProduct(y, w);
      assert tiles[y * w + x].pos == Position(x, y);
    }
  }

  /** The label `print_table` writes at (x, y): that of the last tile there, or the filler 1. */
  function Cell(tiles: seq<Tile>, x: nat, y: nat): nat
  {
    if tiles == [] then 1
    else if tiles[|tiles| - 1].pos == Position(x, y) then tiles[|tiles| - 1].number
    else Cell(tiles[..|tiles| - 1], x, y)
  }

  /** The HEIGHT-by-WIDTH table `print_table` fills from the tiles. */
  function Grid(tiles: seq<Tile>, w: nat, h: nat): (g: seq<seq<nat>>)
    ensures |g| == h && forall y :: 0 <= y < h ==> |g[y]| == w
  {
    seq(h, (y: nat) => seq(w, (x: nat) => Cell(tiles, x, y)))
  }

  /** With no two tiles on one cell, a cell shows the label of the tile on it. */
  lemma {:induction false} CellOfUniqueTile(tiles: seq<Tile>, k: nat)
    requires k < |tiles|
    requires forall i, j :: 0 <= i < j < |tiles| ==> tiles[i].pos != tiles[j].pos
    ensures Cell(tiles, tiles[k].pos.x, tiles[k].pos.y) == tiles[k].number
  {
    if k < |tiles| - 1 {
      CellOfUniqueTile(tiles[..|tiles| - 1], k);
    }
  }

  /**
   * For the tiles `setup` spawns, every cell of the rebuilt table holds the
   * label of the tile spawned there, so the filler 1 is overwritten everywhere;
   * the table is the chunked label vector, and its rows read back as the
   * shuffled labels.
   */
  lemma GridOfLayout(tiles: seq<Tile>, w: nat, h: nat)
    requires w >= 1 && |tiles| == w * h
    requires forall k :: 0 <= k < |tiles| ==> tiles[k].pos == Position(k % w, k / w)
    ensures forall k :: 0 <= k < |tiles| ==>
      tiles[k].pos.y < h && tiles[k].pos.x < w && Grid(tiles, w, h)[tiles[k].pos.y][tiles[k].pos.x] == tiles[k].number
    ensures Grid(tiles, w, h) == Chunks(Labels(tiles), w)
    ensures Flatten(Grid(tiles, w, h)) == Labels(tiles)
  {
    LayoutFacts(tiles, w, h);
    forall k | 0 <= k < |tiles|
      ensures Grid(tiles, w, h)[tiles[k].pos.y][tiles[k].pos.x] == tiles[k].number
    {
      CellOfUniqueTile(tiles, k);
    }
    var g, c := Grid(tiles, w, h), Chunks(Labels(tiles), w);
    OffsetIsProduct(h, w);
    ChunkCount(Labels(tiles), w, h);
    forall y | 0 <= y < h
      ensures g[y] == c[y]
    {
      ChunkAt(Labels(tiles), w, h, y, 0);
      forall x | 0 <= x < w
        ensures g[y][x] == c[y][x]
      {
        GridCellOfLayout(tiles, w, h, x, y);
      }
    }
    ChunksFlatten(Labels(tiles), w);
  }

  lemma GridCellOfLayout(tiles: seq<Tile>, w: nat, h: nat, x: nat, y: nat)
    requires w >= 1 && |tiles| == Offset(h, w) && x < w && y < h
    requires forall k :: 0 <= k < |tiles| ==> tiles[k].pos == PositionOf(k, w)
    requires forall i, j :: 0 <= i < j < |tiles| ==> tiles[i].pos != tiles[j].pos
    ensures |Chunks(Labels(tiles), w)| > y && |Chunks(Labels(tiles), w)[y]| == w
    ensures Cell(tiles, x, y) == Chunks(Labels(tiles), w)[y][x]
  {
    ChunkAt(Labels(tiles), w, h, y, x);
    RowMajorPosition(x, y, w);
    CellOfUniqueTile(tiles, Offset(y, w) + x);
  }

  /** Decimal digits of n, most significant first, without leading zeros. */
  function Decimal(n: nat): (s: string)
    ensures |s| >= 1 && forall k :: 0 <= k < |s| ==> '0' <= s[k] <= '9'
    ensures n >= 10 <==> |s| >= 2
    decreases n
  {
    var d := [('0' as int + n % 10) as char];
    if n < 10 then d else Decimal(n / 10) + d
  }

  /** The value of a string of decimal digits. */
  function Value(s: string): nat
  {
    if s == [] then 0 else Value(s[..|s| - 1]) * 10 + (if '0' <= s[|s| - 1] <= '9' then s[|s| - 1] as int - '0' as int else 0)
  }

  lemma {:induction false} DecimalRoundTrip(n: nat)
    ensures Value(Decimal(n)) == n
    decreases n
  {
    var s := Decimal(n);
    if n >= 10 {
      DecimalRoundTrip(n / 10);
      assert s[..|s| - 1] == Decimal(n / 10);
    }
  }

  function Spaces(k: nat): (s: string)
    ensures |s| == k && forall i :: 0 <= i < k ==> s[i] == ' '
  {
    seq(k, _ => ' ')
  }

  /** `format!("{:>2} ", n)`: n right-aligned in a field of width 2, then a space. */
  function Field(n: nat): string
  {
    var d := Decimal(n);
    (if |d| < 2 then Spaces(2 - |d|) else []) + d + " "
  }

  function DropSpaces(s: string): string
  {
    if s != [] && s[0] == ' ' then DropSpaces(s[1..]) else s
  }

  /** Reads a printed field back: padding and the trailing space dropped, digits parsed. */
  function ParseField(f: string): nat
  {
    if f == [] then 0 else Value(DropSpaces(f[..|f| - 1]))
  }

  lemma {:induction false} DropPadding(k: nat, d: string)
    requires d != [] && d[0] != ' '
    ensures DropSpaces(Spaces(k) + d) == d
  {
    if k > 0 {
      assert (Spaces(k) + d)[1..] == Spaces(k - 1) + d;
      DropPadding(k - 1, d);
    } else {
      assert Spaces(k) + d == d;
    }
  }

  /**
   * A printed field is at least three characters, ends in a space, and reads
   * back as the label: labels below 100 take exactly three characters.
   */
  lemma FieldRoundTrip(n: nat)
    ensures |Field(n)| >= 3 && Field(n)[|Field(n)| - 1] == ' '
    ensures n < 100 ==> |Field(n)| == 3
    ensures ParseField(Field(n)) == n
  {
    var d := Decimal(n);
    var pad := if |d| < 2 then 2 - |d| else 0;
    assert Field(n) == Spaces(pad) + d + " ";
    assert Field(n)[..|Field(n)| - 1] == Spaces(pad) + d;
    DropPadding(pad, d);
    DecimalRoundTrip(n);
    if n < 100 {
      assert n / 10 < 10;
      assert |Decimal(n / 10)| == 1;
    }
  }

  /** The fields of one row, as the inner loop prints them. */
  function Fields(row: seq<nat>): string
  {
    if row == [] then [] else Fields(row[..|row| - 1]) + Field(row[|row| - 1])
  }

  /** The whole output: each row's fields followed by a newline. */
  function Render(g: seq<seq<nat>>): string
  {
    if g == [] then [] else Render(g[..|g| - 1]) + Fields(g[|g| - 1]) + "\n"
  }

  /** Rows are printed in order: the output of a table is that of its first rows, then the rest. */
  lemma {:induction false} RenderConcat(a: seq<seq<nat>>, b: seq<seq<nat>>)
    ensures Render(a + b) == Render(a) + Render(b)
    decreases |b|
  {
    if b == [] {
      assert a + b == a;
    } else {
      var init, last := b[..|b| - 1], b[|b| - 1];
      assert (a + b)[..|a + b| - 1] == a + init && (a + b)[|a + b| - 1] == last;
      RenderConcat(a, init);
      calc {
        Render(a + b);
        Render(a + init) + Fields(last) + "\n";
        Render(a) + Render(init) + Fields(last) + "\n";
        Render(a) + (Render(init) + Fields(last) + "\n");
      }
    }
  }

  function Count(s: string, c: char): nat
  {
    if s == [] then 0 else Count(s[..|s| - 1], c) + (if s[|s| - 1] == c then 1 else 0)
  }

  lemma {:induction false} CountConcat(s: string, t: string, c: char)
    ensures Count(s + t, c) == Count(s, c) + Count(t, c)
    decreases |t|
  {
    if t == [] {
      assert s + t == s;
    } else {
      assert (s + t)[..|s + t| - 1] == s + t[..|t| - 1];
      CountConcat(s, t[..|t| - 1], c);
    }
  }

  lemma {:induction false} NoNewlineInFields(row: seq<nat>)
    ensures Count(Fields(row), '\n') == 0
  {
    if row != [] {
      var f := Field(row[|row| - 1]);
      var d := Decimal(row[|row| - 1]);
      NoNewlineInFields(row[..|row| - 1]);
      assert f == (if |d| < 2 then Spaces(2 - |d|) else []) + d + " ";
      forall i | 0 <= i < |f| ensures f[i] != '\n' { }
      NoNewline(f);
      CountConcat(Fields(row[..|row| - 1]), f, '\n');
    }
  }

  lemma {:induction false} NoNewline(s: string)
    requires forall i :: 0 <= i < |s| ==> s[i] != '\n'
    ensures Count(s, '\n') == 0
  {
    if s != [] {
      NoNewline(s[..|s| - 1]);
    }
  }

  /**
   * One printed line per table row; when every row has w labels below 100,
   * every line is 3 * w + 1 characters long.
   */
  lemma {:induction false} RenderLines(g: seq<seq<nat>>, w: nat)
    ensures Count(Render(g), '\n') == |g|
    ensures (forall y :: 0 <= y < |g| ==> |g[y]| == w && forall x :: 0 <= x < w ==> g[y][x] < 100) ==>
      |Render(g)| == |g| * (3 * w + 1)
  {
    if g != [] {
      var last := g[|g| - 1];
      RenderLines(g[..|g| - 1], w);
      NoNewlineInFields(last);
      CountConcat(Render(g[..|g| - 1]), Fields(last), '\n');
      CountConcat(Render(g[..|g| - 1]) + Fields(last), "\n", '\n');
      if forall y :: 0 <= y < |g| ==> |g[y]| == w && forall x :: 0 <= x < w ==> g[y][x] < 100 {
        FieldsLength(last);
        assert (|g| - 1) * (3 * w + 1) + (3 * w + 1) == |g| * (3 * w + 1);
      }
    }
  }

  lemma {:induction false} FieldsLength(row: seq<nat>)
    requires forall x :: 0 <= x < |row| ==> row[x] < 100
    ensures |Fields(row)| == 3 * |row|
  {
    if row != [] {
      FieldsLength(row[..|row| - 1]);
      FieldRoundTrip(row[|row| - 1]);
    }
  }

  /** A cell shows a tile's label or the filler 1, so it is bounded as the labels are. */
  lemma {:induction false} CellBound(tiles: seq<Tile>, x: nat, y: nat, b: nat)
    requires b >= 1 && forall k :: 0 <= k < |tiles| ==> tiles[k].number <= b
    ensures Cell(tiles, x, y) <= b
  {
    if tiles != [] && tiles[|tiles| - 1].pos != Position(x, y) {
      CellBound(tiles[..|tiles| - 1], x, y, b);
    }
  }

  /**
   * What the console shows after `setup` and `print_table`: the shuffled labels
   * in rows of w, one line per row; on a board of fewer than 100 tiles every
   * line is 3 * w + 1 characters; each field reads back as its label.
   */
  lemma PrintedLayout(tiles: seq<Tile>, w: nat, h: nat)
    requires w >= 1 && |tiles| == w * h
    requires Numbers.IsPermutationOf(Labels(tiles), Numbers.Range(1, w * h + 1))
    requires forall k :: 0 <= k < |tiles| ==> tiles[k].pos == Position(k % w, k / w)
    ensures Render(Grid(tiles, w, h)) == Render(Chunks(Labels(tiles), w))
    ensures Count(Render(Grid(tiles, w, h)), '\n') == h
    ensures w * h < 100 ==> |Render(Grid(tiles, w, h))| == h * (3 * w + 1)
    ensures w * h < 100 ==> forall y :: 0 <= y < h ==> |Fields(Grid(tiles, w, h)[y])| == 3 * w
    ensures forall k :: 0 <= k < |tiles| ==> ParseField(Field(tiles[k].number)) == tiles[k].number
  {
    GridOfLayout(tiles, w, h);
    var g := Grid(tiles, w, h);
    RenderLines(g, w);
    Numbers.PermutationFacts(Labels(tiles), w * h);
    assert forall k :: 0 <= k < |tiles| ==> tiles[k].number == Labels(tiles)[k];
    if w * h < 100 {
      forall y, x | 0 <= y < h && 0 <= x < w
        ensures g[y][x] < 100
      {
        CellBound(tiles, x, y, w * h);
      }
      assert forall y :: 0 <= y < |g| ==> |g[y]| == w && forall x :: 0 <= x < w ==> g[y][x] < 100;
      forall y | 0 <= y < h
        ensures |Fields(g[y])| == 3 * w
      {
        FieldsLength(g[y]);
      }
    }
    forall k | 0 <= k < |tiles|
      ensures ParseField(Field(tiles[k].number)) == tiles[k].number
    {
      FieldRoundTrip(tiles[k].number);
    }
  }

  /**
   * `print_table`: a table filled with 1, each tile's label written at its
   * position (a position outside the table would panic), then printed row by row.
   */
  method PrintTable(tiles: seq<Tile>, w: nat, h: nat) returns (out: string)
    requires forall k :: 0 <= k < |tiles| ==> tiles[k].pos.x < w && tiles[k].pos.y < h
    ensures out == Render(Grid(tiles, w, h))
  {
    var table := new nat[h, w]((_, _) => 1);
    for k := 0 to |tiles|
      invariant forall y, x :: 0 <= y < h && 0 <= x < w ==> table[y, x] == Cell(tiles[..k], x, y)
    {
      assert tiles[..k + 1][..k] == tiles[..k];
      table[tiles[k].pos.y, tiles[k].pos.x] := tiles[k].number;
    }
    assert tiles[..|tiles|] == tiles;
    ghost var g := Grid(tiles, w, h);
    forall y | 0 <= y < h
      ensures Rows(table)[y] == g[y]
    {
      assert forall x :: 0 <= x < w ==> Rows(table)[y][x] == g[y][x];
    }
    assert Rows(table) == g;
    out := PrintRows(table);
  }

  /** The rows of a two-dimensional table. */
  function Rows(table: array2<nat>): (g: seq<seq<nat>>)
    reads table
    ensures |g| == table.Length0
    ensures forall y :: 0 <= y < table.Length0 ==> |g[y]| == table.Length1
    ensures forall y, x :: 0 <= y < table.Length0 && 0 <= x < table.Length1 ==> g[y][x] == table[y, x]
  {
    seq(table.Length0, y requires 0 <= y < table.Length0 reads table =>
      seq(table.Length1, x requires 0 <= x < table.Length1 reads table => table[y, x]))
  }

  /** The printing loops of `print_table`: every cell's field, a newline after each row. */
  method PrintRows(table: array2<nat>) returns (out: string)
    ensures out == Render(Rows(table))
  {
    ghost var g := Rows(table);
    out := [];
    for y := 0 to table.Length0
      invariant out == Render(g[..y])
    {
      ghost var row := g[y];
      var line := PrintRow(table, y);
      assert g[..y + 1][..y] == g[..y] && g[..y + 1][y] == row;
      out := out + line + "\n";
    }
    assert g[..table.Length0] == g;
  }

  /** One row of the printing loops: the fields of row y, left to right. */
  method PrintRow(table: array2<nat>, y: nat) returns (line: string)
    requires y < table.Length0
    ensures line == Fields(Rows(table)[y])
  {
    ghost var row := Rows(table)[y];
    line := [];
    for x := 0 to table.Length1
      invariant line == Fields(row[..x])
    {
      assert row[..x + 1][..x] == row[..x] && row[..x + 1][x] == table[y, x];
      line := line + Field(table[y, x]);
    }
    assert row[..table.Length1] == row;
  }
}
