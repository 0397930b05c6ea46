/**
 The renderer of inf10-2.c: every value of the matrix goes into a field of `len` characters,
 right-aligned and padded with blanks, every row ends with a line feed, and all of it is
 written by index into one flat buffer.
 */
module FixedWidth {
  import opened Arithmetic
  import opened Spiral

  function Digit(d: nat): char
    requires d < 10
  {
    '0' + d as char
  }

  /** The digits of num from the right, then blanks. */
  function Field(num: nat, len: nat): (f: seq<char>)
    ensures |f| == len
  {
    if len == 0 then []
    else Field(num / 10, len - 1) + [if num == 0 then ' ' else Digit(num % 10)]
  }

  // ----- reading a field -----

  function Strip(f: seq<char>): seq<char> {
    if f != [] && f[0] == ' ' then Strip(f[1..]) else f
  }

  function Decimal(f: seq<char>): int {
    if f == [] then 0 else 10 * Decimal(f[..|f|-1]) + (f[|f|-1] as int - '0' as int)
  }

  /** Strip the leading blanks and read the rest as a decimal number. */
  function Parse(f: seq<char>): int {
    Decimal(Strip(f))
  }

  function Pow10(len: nat): (p: nat)
    ensures p >= 1
  {
    if len == 0 then 1 else 10 * Pow10(len - 1)
  }

  lemma {:induction false} StripAppended(f: seq<char>, d: char)
    requires d != ' '
    ensures Strip(f + [d]) == Strip(f) + [d]
  {
    if f != [] && f[0] == ' ' {
      StripAppended(f[1..], d);
      assert (f + [d])[1..] == f[1..] + [d];
    }
  }

  lemma {:induction false} BlanksOnly(len: nat)
    ensures Strip(Field(0, len)) == []
  {
    if len > 0 {
      BlanksOnly(len - 1);
      BlankAppended(Field(0, len - 1));
    }
  }

  lemma {:induction false} BlankAppended(f: seq<char>)
    requires Strip(f) == []
    ensures Strip(f + [' ']) == []
  {
    if f != [] {
      BlankAppended(f[1..]);
      assert (f + [' '])[1..] == f[1..] + [' '];
    } else {
      assert ([' '])[1..] == [];
    }
  }

  lemma ModTimesTen(num: nat, p: nat)
    requires p >= 1
    ensures 10 * ((num / 10) % p) + num % 10 == num % (10 * p)
    ensures (num / 10) / p == num / (10 * p)
  {
    var q, d := num / 10, num % 10;
    var a, b := q / p, q % p;
    assert q == a * p + b;
    assert num == a * (10 * p) + (10 * b + d);
    DivUnique(num, 10 * p, a, 10 * b + d);
  }

  /** Counted from the right, character j is the digit of weight 10^j, and a blank above the highest digit. */
  lemma {:induction false} FieldChars(num: nat, len: nat, j: nat)
    requires j < len
    ensures Field(num, len)[len-1-j] ==
      if num / Pow10(j) == 0 then ' ' else "0123456789"[num / Pow10(j) % 10]
    decreases j
  {
    if j > 0 {
      FieldChars(num / 10, len - 1, j - 1);
      ModTimesTen(num, Pow10(j - 1));
    } else {
      DigitIs(num % 10);
    }
  }

  lemma DigitIs(d: nat)
    requires d < 10
    ensures Digit(d) == "0123456789"[d]
  {
  }

  /** A field keeps the last `len` digits of its number. */
  lemma {:induction false} ParseOfField(num: nat, len: nat)
    ensures Parse(Field(num, len)) == num % Pow10(len)
  {
    if num == 0 {
      BlanksOnly(len);
    } else if len > 0 {
      ParseOfField(num / 10, len - 1);
      var f, d := Field(num / 10, len - 1), Digit(num % 10);
      StripAppended(f, d);
      assert (Strip(f) + [d])[..|Strip(f)|] == Strip(f);
      ModTimesTen(num, Pow10(len - 1));
    } else {
      assert Field(num, 0) == [];
    }
  }

  lemma ParseIsExact(num: nat, len: nat)
    ensures Parse(Field(num, len)) == num <==> num < Pow10(len)
  {
    ParseOfField(num, len);
    if num < Pow10(len) {
      DivUnique(num, Pow10(len), 0, num);
    }
  }

  ghost predicate Readable(n: nat, len: nat, r: int, c: int)
    requires Cell(n, r, c)
  {
    0 < Value(n, r, c) && Parse(Field(Value(n, r, c), len)) == Value(n, r, c)
  }

  lemma ReadableCell(n: nat, len: nat, r: int, c: int)
    requires Cell(n, r, c)
    ensures 0 < Value(n, r, c) <= n * n
    ensures Readable(n, len, r, c) <==> Value(n, r, c) < Pow10(len)
  {
    PlaceOfValue(n, r, c);
    ParseIsExact(Value(n, r, c), len);
  }

  /** Every value of the spiral can be read back exactly when n^2 fits the field. */
  lemma ReadableExactly(n: nat, len: nat)
    ensures (forall r, c | Cell(n, r, c) :: Readable(n, len, r, c)) <==> n * n < Pow10(len)
  {
    var p := Pow10(len);
    forall r, c | Cell(n, r, c) ensures n * n < p ==> Readable(n, len, r, c) {
      ReadableCell(n, len, r, c);
    }
    if n * n >= p {
      LargestIsUnreadable(n, len);
    }
  }

  lemma LargestIsUnreadable(n: nat, len: nat)
    requires n * n >= Pow10(len)
    ensures exists r, c :: Cell(n, r, c) && !Readable(n, len, r, c)
  {
    ValueOfPlace(n, n * n);
    var (r, c) := Place(n, n * n);
    ReadableCell(n, len, r, c);
    assert Cell(n, r, c) && !Readable(n, len, r, c);
  }

  // ----- the text -----

  /** The first j fields of row i. */
  function Cells(a: array2<int>, len: nat, i: nat, j: nat): seq<char>
    requires i < a.Length0 && j <= a.Length1
    requires forall c | 0 <= c < j :: a[i, c] >= 0
    reads a
  {
    if j == 0 then [] else Cells(a, len, i, j-1) + Field(a[i, j-1], len)
  }

  ghost predicate Natural(a: array2<int>)
    reads a
  {
    forall r, c | 0 <= r < a.Length0 && 0 <= c < a.Length1 :: a[r, c] >= 0
  }

  /** The first i rows, each with its line feed. */
  ghost function Rows(a: array2<int>, len: nat, i: nat): seq<char>
    requires i <= a.Length0 && Natural(a)
    reads a
  {
    if i == 0 then [] else Rows(a, len, i-1) + Cells(a, len, i-1, a.Length1) + ['\n']
  }

  lemma SliceOfSlice<T>(t: seq<T>, from: nat, to: nat, from': nat, to': nat)
    requires from <= to <= |t| && from' <= to' <= to - from
    ensures t[from..to][from'..to'] == t[from + from'..from + to']
  {
    var whole, part := t[from..to], t[from + from'..from + to'];
    assert forall k | 0 <= k < to' - from' :: whole[from'..to'][k] == part[k];
  }

  lemma {:induction false} CellsLength(a: array2<int>, len: nat, i: nat, j: nat)
    requires i < a.Length0 && j <= a.Length1 && Natural(a)
    ensures |Cells(a, len, i, j)| == j * len
  {
    if j > 0 {
      CellsLength(a, len, i, j-1);
      assert j * len == (j - 1) * len + len;
    }
  }

  /** A block of a text stays where it is when more is appended ... */
  lemma BlockStays(u: seq<char>, v: seq<char>, from: nat, block: seq<char>)
    requires from + |block| <= |u| && u[from..from + |block|] == block
    ensures from + |block| <= |u + v| && (u + v)[from..from + |block|] == block
  {
  }

  /** ... and the appended block starts where the text ended. */
  lemma BlockAppended(u: seq<char>, block: seq<char>)
    ensures (u + block)[|u|..|u| + |block|] == block
  {
  }

  lemma CellsSplit(a: array2<int>, len: nat, i: nat, j: nat)
    requires i < a.Length0 && 0 < j <= a.Length1 && Natural(a)
    ensures Cells(a, len, i, j) == Cells(a, len, i, j-1) + Field(a[i, j-1], len)
  {
  }

  /** Field c of a row starts at c * len. */
  lemma {:induction false} CellsAre(a: array2<int>, len: nat, i: nat, j: nat, c: nat, from: nat)
    requires i < a.Length0 && c < j <= a.Length1 && Natural(a) && from == c * len
    ensures from + len <= |Cells(a, len, i, j)|
    ensures Cells(a, len, i, j)[from..from + len] == Field(a[i, c], len)
    decreases j
  {
    CellsSplit(a, len, i, j);
    if c < j - 1 {
      CellsAre(a, len, i, j-1, c, from);
      BlockStays(Cells(a, len, i, j-1), Field(a[i, j-1], len), from, Field(a[i, c], len));
    } else {
      CellsLength(a, len, i, c);
      BlockAppended(Cells(a, len, i, c), Field(a[i, c], len));
    }
  }

  /** Row r with its line feed. */
  function Line(a: array2<int>, len: nat, r: nat): seq<char>
    requires r < a.Length0 && forall c | 0 <= c < a.Length1 :: a[r, c] >= 0
    reads a
  {
    Cells(a, len, r, a.Length1) + ['\n']
  }

  lemma LineLength(a: array2<int>, len: nat, r: nat, row: nat)
    requires r < a.Length0 && Natural(a) && row == a.Length1 * len + 1
    ensures |Line(a, len, r)| == row
  {
    CellsLength(a, len, r, a.Length1);
  }

  lemma RowsSplit(a: array2<int>, len: nat, i: nat)
    requires 0 < i <= a.Length0 && Natural(a)
    ensures Rows(a, len, i) == Rows(a, len, i-1) + Line(a, len, i-1)
  {
  }

  /** Row r starts at r * row, where row is the length of a row with its line feed. */
  lemma {:induction false} RowBlock(a: array2<int>, len: nat, i: nat, r: nat, row: nat, start: nat)
    requires r < i <= a.Length0 && Natural(a)
    requires row == a.Length1 * len + 1 && start == Times(r, row)
    ensures start + row <= |Rows(a, len, i)|
    ensures Rows(a, len, i)[start..start + row] == Line(a, len, r)
    decreases i
  {
    RowsSplit(a, len, i);
    LineLength(a, len, r, row);
    if r < i - 1 {
      RowBlock(a, len, i-1, r, row, start);
      BlockStays(Rows(a, len, i-1), Line(a, len, i-1), start, Line(a, len, r));
    } else {
      RowsLength(a, len, r, row);
      BlockAppended(Rows(a, len, r), Line(a, len, r));
    }
  }

  /** In the whole text, the field of cell (r, c) starts at r * row + c * len. */
  lemma FieldInText(a: array2<int>, len: nat, r: nat, c: nat, row: nat, start: nat, from: nat)
    requires r < a.Length0 && c < a.Length1 && Natural(a)
    requires row == a.Length1 * len + 1 && start == Times(r, row) && from == c * len
    ensures var text := Rows(a, len, a.Length0);
      && start + from + len < start + row <= |text|
      && text[start + from..start + from + len] == Field(a[r, c], len)
      && text[start + row - 1] == '\n'
  {
    RowBlock(a, len, a.Length0, r, row, start);
    CellsLength(a, len, r, a.Length1);
    CellsAre(a, len, r, a.Length1, c, from);
    InLine(Rows(a, len, a.Length0), Cells(a, len, r, a.Length1), start, row, from, len);
  }

  lemma SliceLeft<T>(u: seq<T>, v: seq<T>, from: nat, to: nat)
    requires from <= to <= |u|
    ensures (u + v)[from..to] == u[from..to]
  {
  }

  lemma InLine(text: seq<char>, cells: seq<char>, start: nat, row: nat, from: nat, len: nat)
    requires start + row <= |text| && text[start..start + row] == cells + ['\n']
    requires from + len <= |cells|
    ensures text[start + from..start + from + len] == cells[from..from + len] && text[start + row - 1] == '\n'
  {
    SliceOfSlice(text, start, start + row, from, from + len);
    SliceLeft(cells, ['\n'], from, from + len);
    assert text[start..start + row][row - 1] == '\n';
  }

  lemma {:induction false} RowsLength(a: array2<int>, len: nat, i: nat, row: nat)
    requires i <= a.Length0 && Natural(a) && row == a.Length1 * len + 1
    ensures |Rows(a, len, i)| == Times(i, row)
  {
    if i > 0 {
      RowsLength(a, len, i-1, row);
      LineLength(a, len, i-1, row);
      RowsSplit(a, len, i);
      assert Times(i, row) == Times(i - 1, row) + row;
    }
  }

  // ----- the loops -----

  ghost predicate WrittenBelow(written: set<int>, bound: int) {
    forall x :: x in written <==> 0 <= x < bound
  }

  /** One assignment to the buffer; `written` are the bytes assigned before, never twice. */
  method Put(buf: array<char>, index: int, ch: char, ghost written: set<int>) returns (ghost written': set<int>)
    requires 0 <= index < buf.Length && index !in written
    modifies buf
    ensures buf[..] == old(buf[..])[index := ch]
    ensures written' == written + {index}
  {
    buf[index] := ch;
    written' := written + {index};
  }

  lemma FieldSplit(num: nat, k: nat)
    requires k > 0
    ensures Field(num, k) == Field(num / 10, k - 1) + [if num == 0 then ' ' else Digit(num % 10)]
  {
  }

  /** One turn of the innermost loop: a character is put in front of what has been written. */
  lemma PutInFront(before: seq<char>, after: seq<char>, base: nat, k: nat, end: nat, ch: char)
    requires base + k < end <= |before| && after == before[base + k := ch]
    ensures after[..base] == before[..base]
    ensures after[base + k..end] == [ch] + before[base + k + 1..end]
  {
  }

  lemma FieldGrows(field: seq<char>, num: nat, k: nat, done: seq<char>)
    requires k > 0 && field == Field(num, k) + done
    ensures field == Field(num / 10, k - 1) + ([if num == 0 then ' ' else Digit(num % 10)] + done)
  {
    FieldSplit(num, k);
  }

  /** One turn of the innermost loop: the last digit that is left, or a blank when none is. */
  method RenderDigit(buf: array<char>, index: int, num: nat, ghost written: set<int>)
    returns (rest: nat, ghost written': set<int>)
    requires 0 <= index < buf.Length && index !in written
    modifies buf
    ensures buf[..] == old(buf[..])[index := if num == 0 then ' ' else Digit(num % 10)]
    ensures rest == num / 10 && written' == written + {index}
  {
    if num / 10 != 0 || num % 10 != 0 {
      written' := Put(buf, index, Digit(num % 10), written);
      rest := num / 10;
    } else {
      written' := Put(buf, index, ' ', written);
      rest := num;
    }
  }

  /** The innermost loop: the field of one value, from its last character to its first. */
  method RenderCell(buf: array<char>, base: nat, len: nat, value: nat, ghost written: set<int>)
    returns (ghost written': set<int>)
    requires base + len <= buf.Length && WrittenBelow(written, base)
    modifies buf
    ensures buf[..base + len] == old(buf[..base]) + Field(value, len)
    ensures WrittenBelow(written', base + len)
  {
    var num := value;
    written' := written;
    ghost var done, field := [], Field(value, len);
    for k := len downto 0
      invariant buf[..base] == old(buf[..base])
      invariant field == Field(num, k) + done && buf[base + k..base + len] == done
      invariant forall x :: x in written' <==> 0 <= x < base || base + k <= x < base + len
    {
      ghost var before := buf[..];
      ghost var ch := if num == 0 then ' ' else Digit(num % 10);
      FieldGrows(field, num, k + 1, done);
      num, written' := RenderDigit(buf, base + k, num, written');
      PutInFront(before, buf[..], base, k, base + len, ch);
      done := [ch] + done;
    }
    assert buf[..base + len] == buf[..base] + buf[base..base + len];
  }

  /** A piece of `size` at i * size is followed by the next one, within n pieces. */
  lemma NextPiece(i: nat, n: nat, size: nat, at: nat, total: nat)
    requires i < n && at == i * size && total == n * size
    ensures at + size == (i + 1) * size && at + size <= total
  {
    MulMonotone(i + 1, n, size, size);
    assert (i + 1) * size == i * size + size;
  }

  /** The middle loop and the line feed: row i, which starts at byte `start`. */
  method RenderRow(a: array2<int>, buf: array<char>, height: nat, len: nat, i: nat, start: nat,
                   ghost width: nat, ghost written: set<int>)
    returns (ghost written': set<int>)
    requires i < a.Length0 == a.Length1 == height && Natural(a)
    requires width == height * len && start + width + 1 <= buf.Length && WrittenBelow(written, start)
    modifies buf
    ensures buf[..start + width + 1] == old(buf[..start]) + Cells(a, len, i, height) + ['\n']
    ensures WrittenBelow(written', start + width + 1)
  {
    written' := written;
    ghost var at: nat, before, cells: seq<char> := 0, buf[..start], [];
    for j := 0 to height
      invariant at == j * len <= width
      invariant cells == Cells(a, len, i, j) && buf[..start + at] == before + cells
      invariant WrittenBelow(written', start + at)
    {
      NextPiece(j, height, len, at, width);
      CellsSplit(a, len, i, j + 1);
      ghost var field := Field(a[i, j], len);
      written' := RenderCell(buf, start + j * len, len, a[i, j], written');
      Joined(before, cells, field);
      at, cells := at + len, cells + field;
    }
    written' := Put(buf, start + height * len, '\n', written');
    Ends(buf[..], start + width, before + cells);
  }

  lemma Joined(a: seq<char>, b: seq<char>, c: seq<char>)
    ensures a + b + c == a + (b + c)
  {
  }

  lemma Ends(text: seq<char>, end: nat, before: seq<char>)
    requires end < |text| && text[..end] == before
    ensures text[..end + 1] == before + [text[end]]
  {
  }

  /** The outer loop: all rows, each of `width` characters and a line feed. */
  method RenderRows(a: array2<int>, buf: array<char>, height: nat, len: nat, ghost width: nat, row: nat)
    returns (ghost written: set<int>)
    requires a.Length0 == a.Length1 == height && Natural(a)
    requires width == height * len && row == width + 1 && buf.Length == height * row
    modifies buf
    ensures buf[..] == Rows(a, len, height)
    ensures WrittenBelow(written, buf.Length)
  {
    written := {};
    ghost var at: nat, rows: seq<char> := 0, [];
    for i := 0 to height
      invariant at == i * row <= buf.Length
      invariant rows == Rows(a, len, i) && buf[..at] == rows
      invariant WrittenBelow(written, at)
    {
      NextPiece(i, height, row, at, buf.Length);
      RowsSplit(a, len, i + 1);
      ghost var cells := Cells(a, len, i, height);
      written := RenderRow(a, buf, height, len, i, i * row, width, written);
      Joined(rows, cells, ['\n']);
      at, rows := at + row, rows + (cells + ['\n']);
    }
    assert buf[..] == buf[..at];
  }

  /** The rendering of main into the mapped file; `written` are the bytes assigned, none of them twice. */
  method Render(a: array2<int>, height: nat, len: nat) returns (buf: array<char>, ghost written: set<int>)
    requires a.Length0 == a.Length1 == height && Natural(a)
    ensures fresh(buf) && buf[..] == Rows(a, len, height)
    ensures buf.Length == height * height * len + height
    ensures WrittenBelow(written, buf.Length)
  {
    var row := height * len + 1;
    SizeOfText(height, len, row);
    buf := new char[height * height * len + height];
    written := RenderRows(a, buf, height, len, row - 1, row);
  }

  lemma SizeOfText(height: nat, len: nat, row: nat)
    requires row == height * len + 1
    ensures height * row == height * height * len + height >= 0
  {
    assert height * (height * len + 1) == height * (height * len) + height;
  }

  /** The `len` characters at `at` read as `value`. */
  ghost predicate ReadsAt(file: seq<char>, at: int, len: nat, value: int) {
    0 <= at && at + len <= |file| && Parse(file[at..at + len]) == value
  }

  lemma TextReadsAt(a: array2<int>, n: nat, len: nat, r: nat, c: nat, row: nat, start: nat, from: nat)
    requires a.Length0 == a.Length1 == n && Natural(a) && r < n && c < n
    requires row == n * len + 1 && start == Times(r, row) && from == c * len
    requires Parse(Field(a[r, c], len)) == a[r, c]
    ensures ReadsAt(Rows(a, len, n), start + from, len, a[r, c])
  {
    FieldInText(a, len, r, c, row, start, from);
  }

  /** The byte at which the field of cell (r, c) starts. */
  function FieldAt(n: nat, len: nat, r: nat, c: nat): nat {
    Times(r, Times(n, len) + 1) + Times(c, len)
  }

  lemma FileReadsBack(a: array2<int>, n: nat, len: nat, r: int, c: int)
    requires a.Length0 == a.Length1 == n && Natural(a) && Cell(n, r, c)
    requires a[r, c] == Value(n, r, c) && n * n < Pow10(len)
    ensures ReadsAt(Rows(a, len, n), FieldAt(n, len, r, c), len, a[r, c])
  {
    var row: nat := Times(n, len) + 1;
    FieldParses(a[r, c], n, len, r, c);
    TextReadsAt(a, n, len, r, c, row, Times(r, row), Times(c, len));
  }

  lemma FieldParses(value: int, n: nat, len: nat, r: int, c: int)
    requires Cell(n, r, c) && value == Value(n, r, c) && n * n < Pow10(len)
    ensures value > 0 && Parse(Field(value, len)) == value
  {
    ReadableCell(n, len, r, c);
  }

  /** The whole program: the file holds the spiral and, if n^2 fits a field, can be read back. */
  method RunProgram(height: nat, len: nat) returns (buf: array<char>)
    ensures buf.Length == height * height * len + height
    ensures height * height < Pow10(len) ==>
      forall r, c | Cell(height, r, c) ::
        ReadsAt(buf[..], FieldAt(height, len, r, c), len, Value(height, r, c))
  {
    var a, _ := Fill(height);
    forall r, c | Cell(height, r, c) ensures Value(height, r, c) > 0 {
      PlaceOfValue(height, r, c);
    }
    ghost var written;
    buf, written := Render(a, height, len);
    if height * height < Pow10(len) {
      forall r, c | Cell(height, r, c)
        ensures ReadsAt(buf[..], FieldAt(height, len, r, c), len, Value(height, r, c))
      {
        FileReadsBack(a, height, len, r, c);
      }
    }
  }
}
