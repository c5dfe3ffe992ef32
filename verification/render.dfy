/** `gamma_board`: the board as text, one line per row from the top row
    down, each cell as its owner's decimal number ('.' when unclaimed),
    bare with fewer than ten players and between two spaces otherwise. */
module Render {
  import opened Machine
  import opened Grid
  import opened State
  import opened Engine
  import opened Digits

  /** The characters `parse_number` writes for an owner: its digits, or
      '.' for an unclaimed cell. */
  function Glyphs(owner: nat): (s: seq<char>)
    ensures |s| >= 1
    ensures forall i :: 0 <= i < |s| ==> s[i] != ' ' && s[i] != '\n'
  {
    if owner == 0 then "." else Decimal(owner)
  }

  /** The pieces in order, each between `pre` and `post`. */
  function Join(pieces: seq<seq<char>>, pre: seq<char>, post: seq<char>): seq<char>
  {
    if |pieces| == 0 then [] else pre + pieces[0] + post + Join(pieces[1..], pre, post)
  }

  /** The glyphs of row `y`, left to right. */
  function Cells(b: Board, y: nat): seq<seq<char>>
    requires b.Valid() && y < b.height
  {
    seq(b.width, x requires 0 <= x < b.width => Glyphs(b.At(Pos(x, y)).owner))
  }

  /** Whether `gamma_board` writes cells without the surrounding spaces. */
  predicate Bare(players: nat)
  {
    players < 10
  }

  /** What `parse_number` writes on either side of a cell. */
  function Pad(bare: bool): seq<char>
  {
    if bare then [] else [' ']
  }

  /** One row: the cells side by side, each with a space on either side
      from ten players on. */
  function RowText(b: Board, y: nat, bare: bool): seq<char>
    requires b.Valid() && y < b.height
  {
    Join(Cells(b, y), Pad(bare), Pad(bare))
  }

  /** The rows as `gamma_board` lists them: line `i` shows row
      `height - 1 - i`, so the top row comes first. */
  function RowsTopDown(b: Board, bare: bool): seq<seq<char>>
    requires b.Valid()
  {
    seq(b.height, i requires 0 <= i < b.height => RowText(b, b.height - 1 - i, bare))
  }

  function BoardText(g: Game): seq<char>
    requires Valid(g)
  {
    Join(RowsTopDown(g.board, Bare(g.players)), [], ['\n'])
  }

  /** The characters `gamma_board` reserves per cell: the digits of the
      player count, plus the two spaces from ten players on. */
  function FieldWidth(players: nat): nat
  {
    if Bare(players) then Log10(players) else Log10(players) + 2
  }

  /** The size of the buffer `gamma_board` needs: every row's cells and
      newline at the reserved width, and the terminating NUL. */
  function AllocSize(g: Game): nat
  {
    g.board.height * (g.board.width + 1) * FieldWidth(g.players) + 1
  }

  /** The size the C code allocates: the same product, computed in 32-bit
      unsigned arithmetic. */
  function AllocSize32(g: Game): nat
  {
    Wrap32(Wrap32(Wrap32(g.board.height * Wrap32(g.board.width + 1)) * FieldWidth(g.players)) + 1)
  }

  // Reading the text back.

  /** Index of the first `c` in `s`, or `|s|` when there is none. */
  function Find(s: seq<char>, c: char): (k: nat)
    ensures k <= |s|
    ensures forall j :: 0 <= j < k ==> s[j] != c
    ensures k < |s| ==> s[k] == c
  {
    if |s| == 0 || s[0] == c then 0 else 1 + Find(s[1..], c)
  }

  /** The text cut after each newline. */
  function Lines(s: seq<char>): seq<seq<char>>
    decreases |s|
  {
    if |s| == 0 then []
    else
      var k := Find(s, '\n');
      if k == |s| then [s] else [s[..k]] + Lines(s[k + 1..])
  }

  /** The text cut at spaces, empty pieces dropped. */
  function Words(s: seq<char>): seq<seq<char>>
    decreases |s|
  {
    if |s| == 0 then []
    else if s[0] == ' ' then Words(s[1..])
    else
      var k := Find(s, ' ');
      [s[..k]] + Words(s[k..])
  }

  /** An owner read back from its characters: '.' is 0, a digit string
      without a leading zero is its value, anything else is unreadable. */
  function ReadGlyphs(t: seq<char>): Option<nat>
  {
    if t == "." then Some(0)
    else if |t| > 0 && t[0] != '0' && forall i :: 0 <= i < |t| ==> '0' <= t[i] <= '9' then Some(Value(t))
    else None
  }

  /** The owners a line shows: one per character when bare, one per word
      otherwise. */
  function ReadRow(line: seq<char>, bare: bool): seq<Option<nat>>
  {
    if bare then seq(|line|, i requires 0 <= i < |line| => ReadGlyphs([line[i]]))
    else
      var w := Words(line);
      seq(|w|, i requires 0 <= i < |w| => ReadGlyphs(w[i]))
  }

  /** The owners of row `y`, left to right. */
  function Owners(b: Board, y: nat): seq<Option<nat>>
    requires b.Valid() && y < b.height
  {
    seq(b.width, x requires 0 <= x < b.width => Some(b.At(Pos(x, y)).owner))
  }

  lemma GlyphsRoundTrip(owner: nat)
    ensures ReadGlyphs(Glyphs(owner)) == Some(owner)
  {
    if owner > 0 {
      var t := Decimal(owner);
      DecimalRoundTrip(owner);
      DecimalNoLeadingZero(owner);
      assert t != "." by {
        assert '0' <= t[0] <= '9';
      }
    }
  }

  /** Below ten an owner is one character. */
  lemma GlyphsOfSmall(owner: nat)
    requires owner < 10
    ensures |Glyphs(owner)| == 1
  {
    if owner > 0 {
      Log10Unique(owner, 1);
    }
  }

  lemma FindAfter(t: seq<char>, c: char, rest: seq<char>)
    requires forall j :: 0 <= j < |t| ==> t[j] != c
    ensures Find(t + [c] + rest, c) == |t|
  {
    var s := t + [c] + rest;
    assert s[|t|] == c;
    assert forall j :: 0 <= j < |t| ==> s[j] == t[j];
  }

  /** Lines ended by newlines split back into those lines. */
  lemma {:induction false} LinesOfJoin(ls: seq<seq<char>>)
    requires forall k, j :: 0 <= k < |ls| && 0 <= j < |ls[k]| ==> ls[k][j] != '\n'
    ensures Lines(Join(ls, [], ['\n'])) == ls
  {
    if |ls| > 0 {
      var l, rest := ls[0], Join(ls[1..], [], ['\n']);
      var s := l + ['\n'] + rest;
      assert Join(ls, [], ['\n']) == s;
      FindAfter(l, '\n', rest);
      assert s[..|l|] == l;
      assert s[|l| + 1..] == rest;
      LinesOfJoin(ls[1..]);
    }
  }

  /** Words, each between two spaces, split back into those words. */
  lemma {:induction false} WordsOfJoin(ws: seq<seq<char>>)
    requires forall k :: 0 <= k < |ws| ==> |ws[k]| >= 1
    requires forall k, j :: 0 <= k < |ws| && 0 <= j < |ws[k]| ==> ws[k][j] != ' '
    ensures Words(Join(ws, [' '], [' '])) == ws
  {
    if |ws| > 0 {
      var t, rest := ws[0], Join(ws[1..], [' '], [' ']);
      var s := [' '] + t + [' '] + rest;
      var s1 := t + [' '] + rest;
      var s2 := [' '] + rest;
      assert Join(ws, [' '], [' ']) == s;
      assert s[1..] == s1;
      FindAfter(t, ' ', rest);
      assert s1[..|t|] == t;
      assert s1[|t|..] == s2;
      assert s2[1..] == rest;
      assert Words(s) == Words(s1);
      assert Words(s1) == [t] + Words(s2);
      assert Words(s2) == Words(rest);
      WordsOfJoin(ws[1..]);
    }
  }

  /** Single characters side by side: character `j` is piece `j`. */
  lemma {:induction false} CharsOfJoin(ws: seq<seq<char>>)
    requires forall k :: 0 <= k < |ws| ==> |ws[k]| == 1
    ensures |Join(ws, [], [])| == |ws|
    ensures forall j :: 0 <= j < |ws| ==> [Join(ws, [], [])[j]] == ws[j]
  {
    if |ws| > 0 {
      CharsOfJoin(ws[1..]);
      var r := Join(ws[1..], [], []);
      assert Join(ws, [], []) == ws[0] + r;
      forall j | 0 <= j < |ws| ensures [(ws[0] + r)[j]] == ws[j] {
        if j == 0 {
          assert [ws[0][0]] == ws[0];
        } else {
          assert (ws[0] + r)[j] == r[j - 1];
        }
      }
    }
  }

  lemma {:induction false} JoinNoNewline(ws: seq<seq<char>>, pre: seq<char>, post: seq<char>)
    requires forall k, j :: 0 <= k < |ws| && 0 <= j < |ws[k]| ==> ws[k][j] != '\n'
    requires forall j :: 0 <= j < |pre| ==> pre[j] != '\n'
    requires forall j :: 0 <= j < |post| ==> post[j] != '\n'
    ensures forall j :: 0 <= j < |Join(ws, pre, post)| ==> Join(ws, pre, post)[j] != '\n'
  {
    if |ws| > 0 {
      JoinNoNewline(ws[1..], pre, post);
    }
  }

  lemma RowNoNewline(b: Board, y: nat, bare: bool)
    requires b.Valid() && y < b.height
    ensures forall j :: 0 <= j < |RowText(b, y, bare)| ==> RowText(b, y, bare)[j] != '\n'
  {
    JoinNoNewline(Cells(b, y), Pad(bare), Pad(bare));
  }

  /** Each row reads back as that row's owners. */
  lemma RowRoundTrip(g: Game, y: nat)
    requires Valid(g) && y < g.board.height
    ensures ReadRow(RowText(g.board, y, Bare(g.players)), Bare(g.players)) == Owners(g.board, y)
  {
    var b := g.board;
    var cells := Cells(b, y);
    forall x | 0 <= x < b.width
      ensures ReadGlyphs(cells[x]) == Some(b.At(Pos(x, y)).owner)
    {
      GlyphsRoundTrip(b.At(Pos(x, y)).owner);
    }
    if Bare(g.players) {
      forall x | 0 <= x < b.width ensures |cells[x]| == 1 {
        ValidCell(g, Pos(x, y));
        GlyphsOfSmall(b.At(Pos(x, y)).owner);
      }
      CharsOfJoin(cells);
    } else {
      WordsOfJoin(cells);
    }
  }

  /** The text splits back into the rows it was built from. */
  lemma LinesOfRows(b: Board, bare: bool)
    requires b.Valid()
    ensures Lines(Join(RowsTopDown(b, bare), [], ['\n'])) == RowsTopDown(b, bare)
  {
    var rows := RowsTopDown(b, bare);
    forall k | 0 <= k < |rows|
      ensures forall j :: 0 <= j < |rows[k]| ==> rows[k][j] != '\n'
    {
      RowNoNewline(b, b.height - 1 - k, bare);
    }
    LinesOfJoin(rows);
  }

  /** Every row, listed top down, reads back as its owners. */
  lemma RowsRoundTrip(g: Game)
    requires Valid(g)
    ensures forall i :: 0 <= i < g.board.height ==>
      ReadRow(RowsTopDown(g.board, Bare(g.players))[i], Bare(g.players)) == Owners(g.board, g.board.height - 1 - i)
  {
    var b, bare := g.board, Bare(g.players);
    var rows := RowsTopDown(b, bare);
    forall i | 0 <= i < b.height
      ensures ReadRow(rows[i], bare) == Owners(b, b.height - 1 - i)
    {
      assert rows[i] == RowText(b, b.height - 1 - i, bare);
      RowRoundTrip(g, b.height - 1 - i);
    }
  }

  /** `gamma_board` round trip: the text has one line per row, the top row
      first, and each line reads back as the owners of its row. */
  lemma BoardTextRoundTrip(g: Game)
    requires Valid(g)
    ensures |Lines(BoardText(g))| == g.board.height
    ensures forall i :: 0 <= i < g.board.height ==>
      ReadRow(Lines(BoardText(g))[i], Bare(g.players)) == Owners(g.board, g.board.height - 1 - i)
  {
    LinesOfRows(g.board, Bare(g.players));
    RowsRoundTrip(g);
  }

  // Sizes.

  lemma {:induction false} JoinSnoc(ws: seq<seq<char>>, w: seq<char>, pre: seq<char>, post: seq<char>)
    ensures Join(ws + [w], pre, post) == Join(ws, pre, post) + (pre + w + post)
  {
    if |ws| > 0 {
      assert (ws + [w])[1..] == ws[1..] + [w];
      JoinSnoc(ws[1..], w, pre, post);
    }
  }

  /** Pieces of at most `m` characters take at most `|pre| + m + |post|`
      each. */
  lemma {:induction false} JoinLengthBound(ws: seq<seq<char>>, pre: seq<char>, post: seq<char>, m: nat)
    requires forall k :: 0 <= k < |ws| ==> |ws[k]| <= m
    ensures |Join(ws, pre, post)| <= |ws| * (|pre| + m + |post|)
  {
    if |ws| > 0 {
      JoinLengthBound(ws[1..], pre, post, m);
      var c := |pre| + m + |post|;
      assert |ws| * c == c + (|ws| - 1) * c;
    }
  }

  /** Pieces of exactly `m` characters take exactly `|pre| + m + |post|`
      each. */
  lemma {:induction false} JoinLengthExact(ws: seq<seq<char>>, pre: seq<char>, post: seq<char>, m: nat)
    requires forall k :: 0 <= k < |ws| ==> |ws[k]| == m
    ensures |Join(ws, pre, post)| == |ws| * (|pre| + m + |post|)
  {
    if |ws| > 0 {
      JoinLengthExact(ws[1..], pre, post, m);
      var c := |pre| + m + |post|;
      assert |ws| * c == c + (|ws| - 1) * c;
    }
  }

  /** An owner of a game with `players` players takes no more characters
      than the player count itself, and at least one. */
  lemma GlyphsFit(owner: nat, players: nat)
    requires 1 <= players && owner <= players
    ensures 1 <= |Glyphs(owner)| <= Log10(players)
  {
    if owner > 0 {
      Log10Monotone(owner, players);
    }
  }

  /** A row never needs more than the reserved width per cell. */
  lemma RowFits(g: Game, y: nat)
    requires Valid(g) && y < g.board.height
    ensures |RowText(g.board, y, Bare(g.players))| <= g.board.width * FieldWidth(g.players)
  {
    var b, bare := g.board, Bare(g.players);
    var cells := Cells(b, y);
    var m := Log10(g.players);
    forall x | 0 <= x < |cells| ensures |cells[x]| <= m {
      ValidCell(g, Pos(x, y));
      GlyphsFit(b.At(Pos(x, y)).owner, g.players);
    }
    JoinLengthBound(cells, Pad(bare), Pad(bare), m);
  }

  /** `a * (b * c + 1) <= a * (b + 1) * c` once `c >= 1`. */
  lemma ReserveCovers(a: nat, b: nat, c: nat)
    requires c >= 1
    ensures a * (b * c + 1) <= a * (b + 1) * c
  {
    assert (b + 1) * c == b * c + c;
    assert a * ((b + 1) * c) == a * (b * c) + a * c;
    assert a * (b * c + 1) == a * (b * c) + a;
  }

  /** The text and its NUL fit in the buffer `gamma_board` sizes, computed
      without wrap-around. */
  lemma BoardTextFits(g: Game)
    requires Valid(g)
    ensures |BoardText(g)| + 1 <= AllocSize(g)
  {
    var b, bare := g.board, Bare(g.players);
    var rows := RowsTopDown(b, bare);
    var fw := FieldWidth(g.players);
    forall i | 0 <= i < |rows| ensures |rows[i]| <= b.width * fw {
      RowFits(g, b.height - 1 - i);
    }
    JoinLengthBound(rows, [], ['\n'], b.width * fw);
    assert fw >= 1;
    ReserveCovers(b.height, b.width, fw);
    assert b.height * (b.width + 1) * fw == (b.height * (b.width + 1)) * fw;
  }

  /** With fewer than ten players every cell is one character, so the text
      is exactly `height * (width + 1)` long. */
  lemma BareTextLength(g: Game)
    requires Valid(g) && Bare(g.players)
    ensures |BoardText(g)| == g.board.height * (g.board.width + 1)
  {
    var b := g.board;
    var rows := RowsTopDown(b, true);
    forall i | 0 <= i < |rows| ensures |rows[i]| == b.width {
      BareRowLength(g, b.height - 1 - i);
    }
    JoinLengthExact(rows, [], ['\n'], b.width);
  }

  lemma BareRowLength(g: Game, y: nat)
    requires Valid(g) && Bare(g.players) && y < g.board.height
    ensures |RowText(g.board, y, true)| == g.board.width
  {
    var b := g.board;
    var cells := Cells(b, y);
    forall x | 0 <= x < |cells| ensures |cells[x]| == 1 {
      ValidCell(g, Pos(x, y));
      GlyphsOfSmall(b.At(Pos(x, y)).owner);
    }
    JoinLengthExact(cells, [], [], 1);
  }

  /** The board `New(65536, 65536, 2, 1)` creates: its text needs more
      than the 32-bit buffer size `gamma_board` computes, because
      `65536 * 65537` wraps to `65536`. */
  lemma AllocSize32Overflows()
    ensures New(65536, 65536, 2, 1).Some?
    ensures AllocSize32(New(65536, 65536, 2, 1).value) < |BoardText(New(65536, 65536, 2, 1).value)| + 1
  {
    var g := New(65536, 65536, 2, 1).value;
    BareTextLength(g);
    Log10Unique(2, 1);
    assert FieldWidth(2) == 1;
    assert AllocSize32(g) == 65537;
  }

  // The C procedures.

  /** `parse_number`: the owner's digits, found from the last one by
      repeated division, or '.' for zero, padded from ten players on. */
  method ParseNumber(number: nat, bare: bool) returns (field: seq<char>)
    requires number < U32
    ensures field == Pad(bare) + Glyphs(number) + Pad(bare)
  {
    var length := CountDigits(number);
    var digits: seq<char> := [];
    var n := number;
    while n > 0
      invariant Decimal(n) + digits == Decimal(number)
      decreases n
    {
      assert Decimal(n) == Decimal(n / 10) + [DigitChar(n % 10)];
      digits := [DigitChar(n % 10)] + digits;
      n := n / 10;
    }
    var glyphs := digits;
    if length == 0 {
      glyphs := glyphs + ['.'];
    }
    assert glyphs == Glyphs(number);
    field := Pad(bare) + glyphs + Pad(bare);
  }

  /** The inner loop of `gamma_board`: the cells of row `y`, left to
      right, each by `parse_number`. */
  method WriteRow(b: Board, y: nat, bare: bool) returns (row: seq<char>)
    requires b.Valid() && y < b.height
    requires forall x :: 0 <= x < b.width ==> b.At(Pos(x, y)).owner < U32
    ensures row == RowText(b, y, bare)
  {
    ghost var cells := Cells(b, y);
    row := [];
    var j := 0;
    while j < b.width
      invariant 0 <= j <= b.width
      invariant row == Join(cells[..j], Pad(bare), Pad(bare))
    {
      var field := ParseNumber(b.At(Pos(j, y)).owner, bare);
      assert field == Pad(bare) + cells[j] + Pad(bare);
      JoinSnoc(cells[..j], cells[j], Pad(bare), Pad(bare));
      assert cells[..j + 1] == cells[..j] + [cells[j]];
      row := row + field;
      j := j + 1;
    }
    assert cells[..b.width] == cells;
  }

  /** Owners are player numbers, so they fit in 32 bits. */
  lemma OwnersFit(g: Game, y: nat)
    requires Valid(g) && y < g.board.height
    ensures forall x :: 0 <= x < g.board.width ==> g.board.At(Pos(x, y)).owner < U32
  {
    forall x | 0 <= x < g.board.width ensures g.board.At(Pos(x, y)).owner < U32 {
      ValidCell(g, Pos(x, y));
    }
  }

  /** `gamma_board`: rows from the top, each followed by a newline; the
      text fits the buffer it reserves. */
  method GammaBoard(g: Game) returns (text: seq<char>)
    requires Valid(g)
    ensures text == BoardText(g)
    ensures |text| + 1 <= AllocSize(g)
  {
    var b := g.board;
    var bare := g.players < 10;
    ghost var rows := RowsTopDown(b, bare);
    text := [];
    var i := 0;
    while i < b.height
      invariant 0 <= i <= b.height
      invariant text == Join(rows[..i], [], ['\n'])
    {
      OwnersFit(g, b.height - 1 - i);
      var row := WriteRow(b, b.height - 1 - i, bare);
      assert row == rows[i];
      JoinSnoc(rows[..i], rows[i], [], ['\n']);
      assert rows[..i + 1] == rows[..i] + [rows[i]];
      text := text + ([] + row + ['\n']);
      i := i + 1;
    }
    assert rows[..b.height] == rows;
    BoardTextFits(g);
  }
}
