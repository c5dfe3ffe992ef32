/** The line-shape check that the command reader runs before converting any
    number: `skipWhitespace` and `isNumberOfWordsCorrect`. A C string is a
    character sequence read through `CharAt`, which yields NUL past the end,
    so reaching the terminator and meeting an embedded NUL behave alike.
    The C line is a byte string; here it is a sequence of characters. The two
    agree because every blank and digit is ASCII: a byte from 0x80 up, like a
    character outside ASCII, is neither white space nor a digit. */
module Input {

  const NUL: char := 0 as char

  function CharAt(s: seq<char>, i: nat): char
  {
    if i < |s| then s[i] else NUL
  }

  /** `isspace` in the C locale. */
  predicate IsSpace(c: char)
  {
    c == ' ' || c == '\t' || c == '\n' || c == 11 as char || c == 12 as char || c == '\r'
  }

  predicate IsDigit(c: char)
  {
    '0' <= c <= '9'
  }

  /** The characters `skipWhitespace` steps over: white space other than a
      newline (NUL is not white space). */
  predicate IsBlank(c: char)
  {
    IsSpace(c) && c != '\n'
  }

  /** Index of the first character at or after `i` that is not a blank. */
  function SkipWhitespace(s: seq<char>, i: nat): (j: nat)
    ensures i <= j
    ensures forall k :: i <= k < j ==> IsBlank(CharAt(s, k))
    ensures !IsBlank(CharAt(s, j))
    ensures j > i ==> j <= |s|
    decreases |s| - i
  {
    if IsBlank(CharAt(s, i)) then SkipWhitespace(s, i + 1) else i
  }

  /** Index of the first character at or after `i` that is not a digit
      (the inner `while` of `isNumberOfWordsCorrect`). */
  function SkipDigits(s: seq<char>, i: nat): (j: nat)
    ensures i <= j
    ensures forall k :: i <= k < j ==> IsDigit(CharAt(s, k))
    ensures !IsDigit(CharAt(s, j))
    decreases |s| - i
  {
    if CharAt(s, i) != NUL && !IsSpace(CharAt(s, i)) && IsDigit(CharAt(s, i))
    then SkipDigits(s, i + 1)
    else i
  }

  /** The word loop of `isNumberOfWordsCorrect` with `remaining` iterations
      left, `counter` words with digits seen so far and `number` the target. */
  function CheckWords(s: seq<char>, i: nat, remaining: nat, counter: nat, number: nat): bool
    decreases remaining
  {
    if remaining == 0 then
      CharAt(s, SkipWhitespace(s, i)) == '\n' && counter == number
    else
      var a := CharAt(s, i);
      var j := SkipWhitespace(s, i);
      if a == CharAt(s, j) then false
      else
        var prev := CharAt(s, j);
        var k := SkipDigits(s, j);
        var counter' := if CharAt(s, k) != prev then counter + 1 else counter;
        CheckWords(s, k, remaining - 1, counter', number)
  }

  function IsNumberOfWordsCorrect(s: seq<char>, number: nat): bool
  {
    CheckWords(s, 0, number, 0, number)
  }

  // Independent description of the accepted lines.

  ghost predicate Blanks(s: seq<char>, i: nat, j: nat)
  {
    i <= j && forall k :: i <= k < j ==> IsBlank(CharAt(s, k))
  }

  ghost predicate DigitRun(s: seq<char>, i: nat, j: nat)
  {
    i < j && forall k :: i <= k < j ==> IsDigit(CharAt(s, k))
  }

  /** From `i` on the line reads: `n` times (one or more blanks, one or more
      digits), then zero or more blanks, then a newline. */
  ghost predicate Shape(s: seq<char>, i: nat, n: nat)
    decreases n
  {
    if n == 0 then
      exists j: nat :: Blanks(s, i, j) && CharAt(s, j) == '\n'
    else
      exists j: nat, k: nat :: i < j && Blanks(s, i, j) && DigitRun(s, j, k) && Shape(s, k, n - 1)
  }

  /** The skip stops at the first non-blank: any blank run ending on a
      non-blank ends where `SkipWhitespace` does. */
  lemma BlanksEndAtSkip(s: seq<char>, i: nat, j: nat)
    requires Blanks(s, i, j) && !IsBlank(CharAt(s, j))
    ensures j == SkipWhitespace(s, i)
  {
    var m := SkipWhitespace(s, i);
    if m < j {
      assert false;
    } else if m > j {
      assert false;
    }
  }

  lemma DigitsEndAtSkip(s: seq<char>, j: nat, k: nat)
    requires DigitRun(s, j, k) && !IsDigit(CharAt(s, k))
    ensures k == SkipDigits(s, j)
  {
    var m := SkipDigits(s, j);
    if m < k {
      assert false;
    } else if m > k {
      assert false;
    }
  }

  /** A line that still has a word left to read starts with a blank. */
  lemma ShapeStartsBlankOrNewline(s: seq<char>, i: nat, n: nat)
    requires Shape(s, i, n)
    ensures !IsDigit(CharAt(s, i))
    ensures n > 0 ==> IsBlank(CharAt(s, i))
  {
    if n == 0 {
      var j: nat :| Blanks(s, i, j) && CharAt(s, j) == '\n';
      if i < j {
        assert IsBlank(CharAt(s, i));
      }
    } else {
      var j: nat, k: nat :| i < j && Blanks(s, i, j) && DigitRun(s, j, k) && Shape(s, k, n - 1);
      assert IsBlank(CharAt(s, i));
    }
  }

  /** Once a word without digits has been passed over, the count can no
      longer reach `number`. */
  lemma {:induction false} ShortCountFails(s: seq<char>, i: nat, remaining: nat, counter: nat, number: nat)
    requires counter + remaining < number
    ensures !CheckWords(s, i, remaining, counter, number)
    decreases remaining
  {
    if remaining > 0 {
      var j := SkipWhitespace(s, i);
      if CharAt(s, i) != CharAt(s, j) {
        var k := SkipDigits(s, j);
        var counter' := if CharAt(s, k) != CharAt(s, j) then counter + 1 else counter;
        ShortCountFails(s, k, remaining - 1, counter', number);
      }
    }
  }

  /** The word loop accepts exactly the lines of the expected shape. */
  lemma {:induction false} CheckWordsIsShape(s: seq<char>, i: nat, remaining: nat, counter: nat, number: nat)
    requires counter + remaining == number
    ensures CheckWords(s, i, remaining, counter, number) <==> Shape(s, i, remaining)
    decreases remaining
  {
    var j := SkipWhitespace(s, i);
    if remaining == 0 {
      if Shape(s, i, 0) {
        var j': nat :| Blanks(s, i, j') && CharAt(s, j') == '\n';
        BlanksEndAtSkip(s, i, j');
      }
      if CheckWords(s, i, 0, counter, number) {
        assert Blanks(s, i, j);
      }
    } else {
      var a := CharAt(s, i);
      if a == CharAt(s, j) {
        assert j == i by {
          if j > i { assert false; }
        }
        if Shape(s, i, remaining) {
          ShapeStartsBlankOrNewline(s, i, remaining);
        }
      } else {
        assert i < j by {
          if j == i { assert false; }
        }
        var k := SkipDigits(s, j);
        if k == j {
          ShortCountFails(s, k, remaining - 1, counter, number);
          if Shape(s, i, remaining) {
            var j': nat, k': nat :| i < j' && Blanks(s, i, j') && DigitRun(s, j', k') && Shape(s, k', remaining - 1);
            BlanksEndAtSkip(s, i, j');
          }
        } else {
          assert CharAt(s, k) != CharAt(s, j) by { assert IsDigit(CharAt(s, j)); }
          CheckWordsIsShape(s, k, remaining - 1, counter + 1, number);
          if Shape(s, i, remaining) {
            var j': nat, k': nat :| i < j' && Blanks(s, i, j') && DigitRun(s, j', k') && Shape(s, k', remaining - 1);
            BlanksEndAtSkip(s, i, j');
            ShapeStartsBlankOrNewline(s, k', remaining - 1);
            DigitsEndAtSkip(s, j', k');
          }
          if Shape(s, k, remaining - 1) {
            assert Blanks(s, i, j) && DigitRun(s, j, k);
          }
        }
      }
    }
  }

  /** `isNumberOfWordsCorrect(s, number)` holds exactly when the line is
      `number` blank-preceded digit words, optional blanks and a newline. */
  lemma WordsCorrectIffShape(s: seq<char>, number: nat)
    ensures IsNumberOfWordsCorrect(s, number) <==> Shape(s, 0, number)
  {
    CheckWordsIsShape(s, 0, number, 0, number);
  }

  /** With no words expected the line must be blanks and a newline. */
  lemma NoWordsIsBlankLine(s: seq<char>)
    ensures IsNumberOfWordsCorrect(s, 0) <==>
      (exists j: nat :: Blanks(s, 0, j) && CharAt(s, j) == '\n')
  {
    WordsCorrectIffShape(s, 0);
  }

  /** The first expected word must be preceded by a blank: a line whose
      first character is not a blank is refused whenever a word is due. */
  lemma MissingBlankRefused(s: seq<char>, number: nat)
    requires number > 0 && !IsBlank(CharAt(s, 0))
    ensures !IsNumberOfWordsCorrect(s, number)
  {
  }

  /** A word holding a non-digit character makes the line fail. */
  lemma NonDigitInWordRefused(s: seq<char>, i: nat, j: nat, k: nat, number: nat)
    requires number > 0 && 0 < j && Blanks(s, 0, j) && DigitRun(s, j, k)
    requires CharAt(s, k) != NUL && !IsSpace(CharAt(s, k)) && !IsDigit(CharAt(s, k))
    ensures !IsNumberOfWordsCorrect(s, number)
  {
    WordsCorrectIffShape(s, number);
    if Shape(s, 0, number) {
      var j': nat, k': nat :| 0 < j' && Blanks(s, 0, j') && DigitRun(s, j', k') && Shape(s, k', number - 1);
      BlanksEndAtSkip(s, 0, j');
      BlanksEndAtSkip(s, 0, j);
      ShapeStartsBlankOrNewline(s, k', number - 1);
      DigitsEndAtSkip(s, j', k');
      DigitsEndAtSkip(s, j, k);
    }
  }
}
