/**
 * `parseBankAccount`: reading a nine-digit account number drawn with pipes and
 * underscores on three lines. The scanned text is split at '\n' into floors;
 * every block of three columns is classified by a chain of cell tests and
 * yields one digit, and the digit string is read with `Number(...)`.
 *
 * A missing floor cannot be indexed: the source then throws a `TypeError`.
 * The model returns `None` for that outcome, and `Some(n)` for the number.
 */
module BankAccount {
  import opened Wrappers
  import opened Text

  // ---------------------------------------------------------------------
  // Cell tests with JavaScript's evaluation order

  /** `floors[r][c] === ch`: `None` when floor `r` does not exist (indexing `undefined` throws);
      a column past the end of the floor reads `undefined`, which equals no character. */
  function Is(floors: seq<string>, r: nat, c: nat, ch: char): (t: Option<bool>)
    ensures t.None? <==> r >= |floors|
    ensures t == Some(true) <==> r < |floors| && c < |floors[r]| && floors[r][c] == ch
  {
    if r >= |floors| then None
    else Some(c < |floors[r]| && floors[r][c] == ch)
  }

  /** `a && b`: `b` is evaluated, and can throw, only when `a` is true. */
  function AndThen(a: Option<bool>, b: Option<bool>): (t: Option<bool>)
    ensures t == Some(true) <==> a == Some(true) && b == Some(true)
    ensures t.None? <==> a.None? || (a == Some(true) && b.None?)
  {
    if a.None? then None
    else if !a.value then Some(false)
    else b
  }

  /** `if (cond) digit else otherwise`: the alternative counts only when the test is false. */
  function Choose(cond: Option<bool>, digit: char, otherwise: Option<char>): (d: Option<char>)
    ensures cond == Some(true) ==> d == Some(digit)
    ensures cond == Some(false) ==> d == otherwise
    ensures cond.None? ==> d.None?
  {
    if cond.None? then None
    else if cond.value then Some(digit)
    else otherwise
  }

  /** The digit read from the block of columns `i .. i + 2`, by the source's chain of tests;
      `None` when a test reaches a missing floor. */
  function Glyph(floors: seq<string>, i: nat): (d: Option<char>)
    ensures d.Some? ==> IsDigit(d.value)
  {
    Choose(AndThen(Is(floors, 1, i + 1, ' '), Is(floors, 2, i + 1, '_')), '0',
    Choose(AndThen(Is(floors, 0, i + 1, ' '), Is(floors, 1, i + 1, ' ')), '1',
    Choose(Is(floors, 2, i + 2, ' '), '2',
    Choose(AndThen(Is(floors, 1, i, ' '), Is(floors, 1, i + 1, '_')), '3',
    Choose(AndThen(Is(floors, 0, i + 1, ' '), Is(floors, 1, i + 1, '_')), '4',
    Choose(AndThen(Is(floors, 1, i + 2, ' '), Is(floors, 2, i, ' ')), '5',
    Choose(AndThen(Is(floors, 1, i + 2, ' '), Is(floors, 2, i, '|')), '6',
    Choose(AndThen(Is(floors, 0, i + 1, '_'), Is(floors, 2, i + 1, ' ')), '7',
    Choose(Is(floors, 2, i, ' '), '9',
    Some('8'))))))))))
  }

  /** With all three floors present no test throws. */
  lemma GlyphDefined(floors: seq<string>, i: nat)
    requires |floors| >= 3
    ensures Glyph(floors, i).Some?
  {
  }

  /** With fewer than three floors the very first test chain throws. */
  lemma GlyphThrows(floors: seq<string>, i: nat)
    requires 1 <= |floors| < 3
    ensures Glyph(floors, i).None?
  {
    if |floors| == 2 && Is(floors, 1, i + 1, ' ') == Some(false) {
      assert AndThen(Is(floors, 0, i + 1, ' '), Is(floors, 1, i + 1, ' ')) == Some(false);
    }
  }

  // ---------------------------------------------------------------------
  // The scan over the blocks

  /** The digits read from the blocks starting at columns `i, i + 3, ...` of the first floor. */
  function DigitsFrom(floors: seq<string>, i: nat): (ds: Option<string>)
    requires |floors| >= 1
    ensures ds.Some? ==> IsDigits(ds.value)
    decreases |floors[0]| - i
  {
    if i >= |floors[0]| then Some([])
    else match Glyph(floors, i)
      case None => None
      case Some(d) =>
        match DigitsFrom(floors, i + 3)
        case None => None
        case Some(rest) => Some([d] + rest)
  }

  /** `parseBankAccount(account)`: `None` where the source throws. */
  function Parse(account: string): Option<nat> {
    var floors := Split(account, '\n');
    match DigitsFrom(floors, 0)
    case None => None
    case Some(ds) => Some(DecimalValue(ds))
  }

  /** The scan reads one digit per started block of three columns, and throws exactly when there
      is a block to read but fewer than three floors. */
  lemma {:induction false} DigitsFromShape(floors: seq<string>, i: nat)
    requires |floors| >= 1
    ensures DigitsFrom(floors, i).None? <==> i < |floors[0]| && |floors| < 3
    ensures DigitsFrom(floors, i).Some? ==>
      |DigitsFrom(floors, i).value| == (if i >= |floors[0]| then 0 else (|floors[0]| - i + 2) / 3)
    decreases |floors[0]| - i
  {
    if i < |floors[0]| {
      if |floors| < 3 {
        GlyphThrows(floors, i);
      } else {
        GlyphDefined(floors, i);
        DigitsFromShape(floors, i + 3);
      }
    }
  }

  /** The source throws a `TypeError` exactly when the first line is not empty and the text has
      fewer than three lines. */
  lemma ParseThrowsIff(account: string)
    ensures Parse(account).None? <==>
      |Split(account, '\n')[0]| > 0 && |Split(account, '\n')| < 3
  {
    DigitsFromShape(Split(account, '\n'), 0);
  }

  /** `digits` in front of the digits still to be read, if they can be read. */
  function Prefixed(digits: string, rest: Option<string>): Option<string> {
    match rest
    case None => None
    case Some(t) => Some(digits + t)
  }

  /** The loop of `parseBankAccount`: three columns at a time, appending one digit per block. */
  method ParseBankAccount(account: string) returns (r: Option<nat>)
    ensures r == Parse(account)
  {
    var floors := Split(account, '\n');
    var digits := "";
    var i := 0;
    if DigitsFrom(floors, 0).Some? {
      assert digits + DigitsFrom(floors, 0).value == DigitsFrom(floors, 0).value;
    }
    while i < |floors[0]|
      invariant IsDigits(digits)
      invariant DigitsFrom(floors, 0) == Prefixed(digits, DigitsFrom(floors, i))
      decreases |floors[0]| - i
    {
      var d := Glyph(floors, i);
      if d.None? {
        return None;
      }
      ghost var rest := DigitsFrom(floors, i + 3);
      assert DigitsFrom(floors, i) == Prefixed([d.value], rest);
      if rest.Some? {
        assert digits + ([d.value] + rest.value) == (digits + [d.value]) + rest.value;
      }
      digits := digits + [d.value];
      i := i + 3;
    }
    assert digits + [] == digits;
    r := Some(DecimalValue(digits));
  }

  // ---------------------------------------------------------------------
  // Drawing digits and reading them back

  /** The three rows of each digit's glyph, as the machine draws them. */
  const Glyphs: seq<seq<string>> := [
    [" _ ", "| |", "|_|"],
    ["   ", "  |", "  |"],
    [" _ ", " _|", "|_ "],
    [" _ ", " _|", " _|"],
    ["   ", "|_|", "  |"],
    [" _ ", "|_ ", " _|"],
    [" _ ", "|_ ", "|_|"],
    [" _ ", "  |", "  |"],
    [" _ ", "|_|", "|_|"],
    [" _ ", "|_|", " _|"]
  ]

  predicate IsDecimal(ds: seq<nat>) { forall k :: 0 <= k < |ds| ==> ds[k] < 10 }

  /** Row `r` of a drawing of the digits `ds`. */
  function Row(ds: seq<nat>, r: nat): (line: string)
    requires IsDecimal(ds) && r < 3
    ensures |line| == 3 * |ds|
  {
    if ds == [] then [] else Glyphs[ds[0]][r] + Row(ds[1..], r)
  }

  /** A drawing of the digits `ds` as the scanner produces it: three rows, each ended by '\n'. */
  function Draw(ds: seq<nat>): string
    requires IsDecimal(ds)
  {
    Row(ds, 0) + "\n" + Row(ds, 1) + "\n" + Row(ds, 2) + "\n"
  }

  /** The digit string of `ds`. */
  function DigitString(ds: seq<nat>): (s: string)
    requires IsDecimal(ds)
    ensures |s| == |ds| && IsDigits(s)
  {
    if ds == [] then [] else [DigitChar(ds[0])] + DigitString(ds[1..])
  }

  /** Column `3 * k + c` of a row is column `c` of the glyph of digit `k`. */
  lemma {:induction false} RowAt(ds: seq<nat>, r: nat, k: nat, c: nat)
    requires IsDecimal(ds) && r < 3 && k < |ds| && c < 3
    ensures Row(ds, r)[3 * k + c] == Glyphs[ds[k]][r][c]
  {
    if k > 0 {
      RowAt(ds[1..], r, k - 1, c);
      assert 3 * k + c == 3 + (3 * (k - 1) + c);
    }
  }

  /** A row holds no '\n'. */
  lemma RowPlain(ds: seq<nat>, r: nat)
    requires IsDecimal(ds) && r < 3
    ensures '\n' !in Row(ds, r)
  {
    forall j | 0 <= j < |Row(ds, r)| ensures Row(ds, r)[j] != '\n' {
      RowAt(ds, r, j / 3, j % 3);
    }
  }

  /** The floors of a drawing are its three rows and the empty piece after the last '\n'. */
  lemma DrawFloors(ds: seq<nat>)
    requires IsDecimal(ds)
    ensures Split(Draw(ds), '\n') == [Row(ds, 0), Row(ds, 1), Row(ds, 2), []]
  {
    RowPlain(ds, 0);
    RowPlain(ds, 1);
    RowPlain(ds, 2);
    var t2 := Row(ds, 2) + "\n";
    var t1 := Row(ds, 1) + "\n" + t2;
    assert Draw(ds) == Row(ds, 0) + ['\n'] + t1;
    assert t1 == Row(ds, 1) + ['\n'] + t2;
    assert t2 == Row(ds, 2) + ['\n'] + [];
    SplitLine(Row(ds, 0), t1, '\n');
    SplitLine(Row(ds, 1), t2, '\n');
    SplitLine(Row(ds, 2), [], '\n');
  }

  /** Columns `i .. i + 2` of the three floors hold the rows of the glyph of `d`. */
  predicate Block(floors: seq<string>, i: nat, d: nat)
    requires d < 10
  {
    |floors| >= 3 &&
    BlockRow(floors[0], i, Glyphs[d][0]) && BlockRow(floors[1], i, Glyphs[d][1]) && BlockRow(floors[2], i, Glyphs[d][2])
  }

  /** Columns `i .. i + 2` of `line` are `glyph`. */
  predicate BlockRow(line: string, i: nat, glyph: string) {
    i + 3 <= |line| && line[i..i + 3] == glyph
  }

  /** The chain of tests reads each glyph as the digit it draws. */
  lemma GlyphReads(floors: seq<string>, i: nat, d: nat)
    requires d < 10 && Block(floors, i, d)
    ensures Glyph(floors, i) == Some(DigitChar(d))
  {
    var t, m, b := floors[0][i..i + 3], floors[1][i..i + 3], floors[2][i..i + 3];
    assert t == Glyphs[d][0] && m == Glyphs[d][1] && b == Glyphs[d][2];
    assert floors[0][i] == t[0] && floors[0][i + 1] == t[1] && floors[0][i + 2] == t[2];
    assert floors[1][i] == m[0] && floors[1][i + 1] == m[1] && floors[1][i + 2] == m[2];
    assert floors[2][i] == b[0] && floors[2][i + 1] == b[1] && floors[2][i + 2] == b[2];
  }

  lemma {:induction false} DigitsFromDrawing(floors: seq<string>, ds: seq<nat>, k: nat)
    requires IsDecimal(ds) && k <= |ds|
    requires floors == [Row(ds, 0), Row(ds, 1), Row(ds, 2), []]
    ensures DigitsFrom(floors, 3 * k) == Some(DigitString(ds[k..]))
    decreases |ds| - k
  {
    if k < |ds| {
      DrawingBlock(floors, ds, k);
      GlyphReads(floors, 3 * k, ds[k]);
      DigitsFromDrawing(floors, ds, k + 1);
      assert 3 * k + 3 == 3 * (k + 1);
      assert DigitString(ds[k..]) == [DigitChar(ds[k])] + DigitString(ds[k + 1..]) by {
        assert ds[k..][1..] == ds[k + 1..];
      }
      assert DigitsFrom(floors, 3 * k) == Prefixed([DigitChar(ds[k])], DigitsFrom(floors, 3 * k + 3));
    } else {
      assert ds[k..] == [];
    }
  }

  /** Block `k` of the floors of a drawing is the glyph of digit `k`. */
  lemma DrawingBlock(floors: seq<string>, ds: seq<nat>, k: nat)
    requires IsDecimal(ds) && k < |ds|
    requires floors == [Row(ds, 0), Row(ds, 1), Row(ds, 2), []]
    ensures Block(floors, 3 * k, ds[k])
  {
    RowBlock(ds, 0, k);
    RowBlock(ds, 1, k);
    RowBlock(ds, 2, k);
  }

  /** Columns `3 * k .. 3 * k + 2` of a row of a drawing are that row of the glyph of digit `k`. */
  lemma RowBlock(ds: seq<nat>, r: nat, k: nat)
    requires IsDecimal(ds) && r < 3 && k < |ds|
    ensures BlockRow(Row(ds, r), 3 * k, Glyphs[ds[k]][r])
  {
    var line, glyph := Row(ds, r), Glyphs[ds[k]][r];
    GlyphShape(ds[k], r);
    RowAt(ds, r, k, 0);
    RowAt(ds, r, k, 1);
    RowAt(ds, r, k, 2);
    var piece := line[3 * k..3 * k + 3];
    assert piece[0] == glyph[0] && piece[1] == glyph[1] && piece[2] == glyph[2];
  }

  /** Every row of every glyph is three characters wide. */
  lemma GlyphShape(d: nat, r: nat)
    requires d < 10 && r < 3
    ensures |Glyphs[d][r]| == 3
  {
  }

  /** Reading a drawing of decimal digits gives the number those digits spell, leading zeros
      dropped as `Number(...)` drops them. */
  lemma ParseDrawing(ds: seq<nat>)
    requires IsDecimal(ds)
    ensures Parse(Draw(ds)) == Some(DecimalValue(DigitString(ds)))
  {
    DrawFloors(ds);
    DigitsFromDrawing(Split(Draw(ds), '\n'), ds, 0);
    assert ds[0..] == ds;
  }

  /** The number the decimal digits `ds` spell, read after digits whose value is `acc`. */
  function DigitsValue(acc: nat, ds: seq<nat>): nat
    requires IsDecimal(ds)
    decreases |ds|
  {
    if ds == [] then acc else DigitsValue(acc * 10 + ds[0], ds[1..])
  }

  /** Reading the digit string of `ds` gives the number `ds` spell. */
  lemma {:induction false} DigitStringValue(acc: nat, ds: seq<nat>)
    requires IsDecimal(ds)
    ensures DecimalFrom(acc, DigitString(ds)) == DigitsValue(acc, ds)
    decreases |ds|
  {
    if ds != [] {
      var s := DigitString(ds);
      assert s[0] == DigitChar(ds[0]) && s[1..] == DigitString(ds[1..]);
      DigitStringValue(acc * 10 + ds[0], ds[1..]);
    }
  }

  // ---------------------------------------------------------------------
  // The documented examples, as drawings of their digits

  lemma ValueOf123456789()
    ensures DigitsValue(0, [1, 2, 3, 4, 5, 6, 7, 8, 9]) == 123456789
  {
  }

  lemma Example123456789(ds: seq<nat>)
    requires ds == [1, 2, 3, 4, 5, 6, 7, 8, 9]
    ensures IsDecimal(ds) && Parse(Draw(ds)) == Some(123456789)
  {
    assert IsDecimal(ds);
    ParseDrawing(ds);
    DigitStringValue(0, ds);
    ValueOf123456789();
  }

  /** The leading zero is dropped: nine glyphs read as an eight-digit number. */
  lemma ValueOf23056789()
    ensures DigitsValue(0, [0, 2, 3, 0, 5, 6, 7, 8, 9]) == 23056789
  {
  }

  lemma Example23056789(ds: seq<nat>)
    requires ds == [0, 2, 3, 0, 5, 6, 7, 8, 9]
    ensures IsDecimal(ds) && Parse(Draw(ds)) == Some(23056789)
  {
    assert IsDecimal(ds);
    ParseDrawing(ds);
    DigitStringValue(0, ds);
    ValueOf23056789();
  }

  lemma ValueOf823856989()
    ensures DigitsValue(0, [8, 2, 3, 8, 5, 6, 9, 8, 9]) == 823856989
  {
  }

  lemma Example823856989(ds: seq<nat>)
    requires ds == [8, 2, 3, 8, 5, 6, 9, 8, 9]
    ensures IsDecimal(ds) && Parse(Draw(ds)) == Some(823856989)
  {
    assert IsDecimal(ds);
    ParseDrawing(ds);
    DigitStringValue(0, ds);
    ValueOf823856989();
  }
}
