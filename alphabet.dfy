/**
 * The fixed alphabet shared by the cipher engine and the frequency analyser:
 * two index-aligned 33-letter tables (lower and upper case) and the set of
 * characters that pass through the cipher untouched.
 *
 * The engine and the analyser are stated over any Tables value that is
 * Valid; Default holds the program's own tables and DefaultValid proves that
 * they qualify.
 */
module Alphabet {

  datatype Option<T> = None | Some(value: T)

  /** Number of letters in each table. */
  const Len: nat := 33

  /**
   * The lowercase table: the Cyrillic alphabet in order, with the letter yo,
   * which lies outside the contiguous block of code points, at position 6.
   * LowerSpelledOut states the table letter by letter.
   */
  const Lower: string := LowerTable()

  /** The uppercase table, index-aligned with Lower; see CapitalSpelledOut. */
  const Capital: string := CapitalTable()

  /** Whitespace and punctuation that the cipher copies unchanged. */
  const Exceptions: string := " \t\n.,;:!?-'\"()"

  /** The three character tables the program consults. */
  datatype Tables = Tables(lower: string, capital: string, exceptions: string)

  const Default: Tables := Tables(Lower, Capital, Exceptions)

  predicate NoDuplicates(s: string)
  {
    forall i, j :: 0 <= i < j < |s| ==> s[i] != s[j]
  }

  predicate Disjoint(s: string, u: string)
  {
    forall i, j :: 0 <= i < |s| && 0 <= j < |u| ==> s[i] != u[j]
  }

  /**
   * What the program relies on: both tables hold Len letters, neither repeats
   * a letter (so a lookup by index is well defined), and no character
   * belongs to two of the three tables.
   */
  predicate Valid(t: Tables)
  {
    && |t.lower| == Len && |t.capital| == Len
    && NoDuplicates(t.lower) && NoDuplicates(t.capital)
    && Disjoint(t.lower, t.capital) && Disjoint(t.lower, t.exceptions) && Disjoint(t.capital, t.exceptions)
  }

  /** Code point of the lowercase letter at position i (positions outside the table are mapped to the first letter). */
  function LowerCode(i: int): (r: int)
    ensures 0x430 <= r <= 0x451
  {
    if i < 0 || Len <= i then 0x430
    else if i < 6 then 0x430 + i
    else if i == 6 then 0x451
    else 0x42F + i
  }

  /** Code point of the uppercase letter at position i. */
  function CapitalCode(i: int): (r: int)
    ensures 0x401 <= r <= 0x42F
  {
    if i < 0 || Len <= i then 0x410
    else if i < 6 then 0x410 + i
    else if i == 6 then 0x401
    else 0x40F + i
  }

  function LowerChar(i: int): char
  {
    LowerCode(i) as char
  }

  function CapitalChar(i: int): char
  {
    CapitalCode(i) as char
  }

  function LowerTable(): string
  {
    seq(Len, LowerChar)
  }

  function CapitalTable(): string
  {
    seq(Len, CapitalChar)
  }

  /** The lowercase table, letter by letter. */
  lemma LowerSpelledOut()
    ensures Lower == "абвгдеёжзийклмнопрстуфхцчшщъыьэюя"
  {
  }

  /** The uppercase table, letter by letter. */
  lemma CapitalSpelledOut()
    ensures Capital == "АБВГДЕЁЖЗИЙКЛМНОПРСТУФХЦЧШЩЪЫЬЭЮЯ"
  {
  }

  /** There are 14 passthrough characters, all ASCII and all below the Latin letters. */
  lemma ExceptionsAscii()
    ensures |Exceptions| == 14
    ensures forall j :: 0 <= j < |Exceptions| ==> Exceptions[j] < 'A'
  {
  }

  /** The program's tables have 33 letters each, no repeated letters, and the three sets do not overlap. */
  lemma DefaultValid()
    ensures Valid(Default)
  {
    ExceptionsAscii();
    assert NoDuplicates(Lower);
    assert NoDuplicates(Capital);
    assert Disjoint(Lower, Capital);
  }

  /** No ASCII character is a letter of either table. */
  lemma AsciiIsNoLetter(c: char)
    requires c as int < 0x80
    ensures c !in Lower && c !in Capital
  {
    assert forall i :: 0 <= i < Len ==> Lower[i] == LowerChar(i) && Capital[i] == CapitalChar(i);
  }

  /**
   * The position key places on from p, wrapping around the table. The
   * remainder is never negative, as with Python's % by a positive divisor.
   */
  function Shift(p: int, key: int): (q: nat)
    ensures q < Len
  {
    (p + key) % Len
  }

  /**
   * Position of the first occurrence of c in s, as a string's index lookup
   * returns it; the caller must know that c occurs.
   */
  function FirstIndex(s: string, c: char): (r: nat)
    requires c in s
    ensures r < |s| && s[r] == c
    ensures forall k :: 0 <= k < r ==> s[k] != c
  {
    if s[0] == c then 0 else 1 + FirstIndex(s[1..], c)
  }

  /** In a table without repeats, looking up the letter at position p gives p back. */
  lemma FirstIndexOfDistinct(s: string, p: nat)
    requires NoDuplicates(s) && p < |s|
    ensures FirstIndex(s, s[p]) == p
  {
  }

  /** How the cipher classifies one character, in the order it tests them. */
  datatype Class = Passthrough | Small(pos: nat) | Large(pos: nat) | Unexpected

  function Classify(t: Tables, c: char): (k: Class)
    requires Valid(t)
    ensures k.Small? ==> k.pos < Len && t.lower[k.pos] == c
    ensures k.Large? ==> k.pos < Len && t.capital[k.pos] == c
  {
    if c in t.exceptions then Passthrough
    else if c in t.lower then Small(FirstIndex(t.lower, c))
    else if c in t.capital then Large(FirstIndex(t.capital, c))
    else Unexpected
  }

  /** Every exception character is classified as passthrough. */
  lemma ClassifyException(t: Tables, c: char)
    requires Valid(t) && c in t.exceptions
    ensures Classify(t, c) == Passthrough
  {
  }

  /** The lowercase letter at position p is classified as lowercase at exactly p. */
  lemma ClassifyLower(t: Tables, p: nat)
    requires Valid(t) && p < Len
    ensures Classify(t, t.lower[p]) == Small(p)
  {
    FirstIndexOfDistinct(t.lower, p);
  }

  /** The uppercase letter at position p is classified as uppercase at exactly p. */
  lemma ClassifyCapital(t: Tables, p: nat)
    requires Valid(t) && p < Len
    ensures Classify(t, t.capital[p]) == Large(p)
  {
    FirstIndexOfDistinct(t.capital, p);
  }

  /** A character is flagged exactly when it lies outside all three tables. */
  lemma ClassifyUnexpected(t: Tables, c: char)
    requires Valid(t)
    ensures Classify(t, c) == Unexpected <==> c !in t.exceptions && c !in t.lower && c !in t.capital
  {
  }

  /**
   * Lower-casing, as far as the analyser can observe it: an uppercase letter
   * becomes the lowercase letter at the same position; anything else is left
   * alone.
   */
  function ToLower(t: Tables, c: char): char
    requires Valid(t)
  {
    if c in t.capital then t.lower[FirstIndex(t.capital, c)] else c
  }

  /** The counter a character increments: the position of its lowercase form in the lowercase table, if any. */
  function LetterIndex(t: Tables, c: char): (r: Option<nat>)
    requires Valid(t)
    ensures r.Some? ==> r.value < Len
  {
    if ToLower(t, c) in t.lower then Some(FirstIndex(t.lower, ToLower(t, c))) else None
  }

  /** An uppercase letter and its lowercase counterpart increment the same counter, the one at their position. */
  lemma LetterIndexCaseFolds(t: Tables, p: nat)
    requires Valid(t) && p < Len
    ensures LetterIndex(t, t.lower[p]) == Some(p)
    ensures LetterIndex(t, t.capital[p]) == Some(p)
  {
    FirstIndexOfDistinct(t.lower, p);
    FirstIndexOfDistinct(t.capital, p);
  }

  /** Only letters of the two tables are counted. */
  lemma LetterIndexNone(t: Tables, c: char)
    requires Valid(t)
    ensures LetterIndex(t, c) == None <==> c !in t.lower && c !in t.capital
  {
    if c in t.capital {
      var p := FirstIndex(t.capital, c);
      assert ToLower(t, c) == t.lower[p];
    }
  }

  /** A text given as lines, each with its terminator, read as one run of characters. */
  function Concat(lines: seq<string>): string
  {
    if lines == [] then [] else Concat(lines[..|lines| - 1]) + lines[|lines| - 1]
  }

  lemma ConcatSnoc(lines: seq<string>, i: nat)
    requires i < |lines|
    ensures Concat(lines[..i + 1]) == Concat(lines[..i]) + lines[i]
  {
    assert lines[..i + 1][..i] == lines[..i];
  }
}
