/**
 * The Caesar engine: every lowercase or uppercase letter of a text is moved
 * `key` places along its own table (wrapping around), passthrough characters
 * are copied, and any other character is copied and reported in a warning.
 * Decoding is encoding with the key negated.
 */
module Cipher {
  import opened Alphabet

  /** A report of an unexpected character: the character, its 1-based line and the 1-based column reported for it. */
  datatype Warning = Warning(character: char, line: nat, column: nat)

  /** The substitution of one character under a key. */
  function EncodeChar(t: Tables, c: char, key: int): char
    requires Valid(t)
  {
    match Classify(t, c)
    case Passthrough => c
    case Small(p) => t.lower[Shift(p, key)]
    case Large(p) => t.capital[Shift(p, key)]
    case Unexpected => c
  }

  /** One output line: exactly one output character per input character. */
  function EncodeLine(t: Tables, line: string, key: int): (r: string)
    requires Valid(t)
    ensures |r| == |line|
  {
    seq(|line|, i requires 0 <= i < |line| => EncodeChar(t, line[i], key))
  }

  /** The output text: one output line per input line. */
  function EncodeText(t: Tables, lines: seq<string>, key: int): (r: seq<string>)
    requires Valid(t)
    ensures |r| == |lines|
  {
    seq(|lines|, i requires 0 <= i < |lines| => EncodeLine(t, lines[i], key))
  }

  /** The whole operation: decoding negates the key, then encodes. */
  function Transform(t: Tables, lines: seq<string>, key: int, decoding: bool): seq<string>
    requires Valid(t)
  {
    EncodeText(t, lines, if decoding then -key else key)
  }

  /**
   * The warnings raised for the first n characters of a line numbered lineNo.
   * The column is one more than the index of the character's FIRST
   * occurrence on the whole line, not of the occurrence being reported.
   */
  function LineWarnings(t: Tables, line: string, lineNo: nat, n: nat): seq<Warning>
    requires Valid(t) && n <= |line|
  {
    if n == 0 then []
    else
      LineWarnings(t, line, lineNo, n - 1)
      + (if Classify(t, line[n - 1]).Unexpected?
         then [Warning(line[n - 1], lineNo, FirstIndex(line, line[n - 1]) + 1)]
         else [])
  }

  /** The warnings raised for the first n lines of a text; line numbers start at 1. */
  function TextWarnings(t: Tables, lines: seq<string>, n: nat): seq<Warning>
    requires Valid(t) && n <= |lines|
  {
    if n == 0 then []
    else TextWarnings(t, lines, n - 1) + LineWarnings(t, lines[n - 1], n, |lines[n - 1]|)
  }

  /**
   * The engine as the program runs it: lines are numbered from 1, each output
   * line is built one character at a time, and warnings are emitted in the
   * order the characters are met.
   */
  method Encode(t: Tables, lines: seq<string>, key: int, decoding: bool) returns (output: seq<string>, warnings: seq<Warning>)
    requires Valid(t)
    ensures output == Transform(t, lines, key, decoding)
    ensures warnings == TextWarnings(t, lines, |lines|)
  {
    var k := key;
    if decoding {
      k := -k;
    }
    output, warnings := [], [];
    var i := 0;
    while i < |lines|
      invariant 0 <= i <= |lines|
      invariant output == EncodeText(t, lines[..i], k)
      invariant warnings == TextWarnings(t, lines, i)
    {
      var line := lines[i];
      i := i + 1;
      var newLine, lineWarnings := EncodeLineNumbered(t, line, i, k);
      warnings := warnings + lineWarnings;
      EncodeTextSnoc(t, lines, i - 1, k);
      output := output + [newLine];
    }
    assert lines[..|lines|] == lines;
  }

  /** The body of the engine's loop for one line numbered lineNo: the output line and, in order, the warnings it raises. */
  method EncodeLineNumbered(t: Tables, line: string, lineNo: nat, key: int) returns (newLine: string, warnings: seq<Warning>)
    requires Valid(t)
    ensures newLine == EncodeLine(t, line, key)
    ensures warnings == LineWarnings(t, line, lineNo, |line|)
  {
    newLine, warnings := "", [];
    for j := 0 to |line|
      invariant newLine == EncodeLine(t, line[..j], key)
      invariant warnings == LineWarnings(t, line, lineNo, j)
    {
      var c := line[j];
      LineStep(t, line, lineNo, j, key);
      if c in t.exceptions {
        newLine := newLine + [c];
      } else if c in t.lower {
        var index := FirstIndex(t.lower, c);
        LowerShifted(t, index, key);
        newLine := newLine + [t.lower[Shift(index, key)]];
      } else if c in t.capital {
        var index := FirstIndex(t.capital, c);
        CapitalShifted(t, index, key);
        newLine := newLine + [t.capital[Shift(index, key)]];
      } else {
        warnings := warnings + [Warning(c, lineNo, FirstIndex(line, c) + 1)];
        newLine := newLine + [c];
      }
    }
    assert line[..|line|] == line;
  }

  /** Extending a line by one character extends its encoding by that character's image and its warnings by at most one. */
  lemma LineStep(t: Tables, line: string, lineNo: nat, j: nat, key: int)
    requires Valid(t) && j < |line|
    ensures EncodeLine(t, line[..j + 1], key) == EncodeLine(t, line[..j], key) + [EncodeChar(t, line[j], key)]
    ensures LineWarnings(t, line, lineNo, j + 1) == LineWarnings(t, line, lineNo, j)
      + (if Classify(t, line[j]).Unexpected? then [Warning(line[j], lineNo, FirstIndex(line, line[j]) + 1)] else [])
  {
    assert line[..j + 1] == line[..j] + [line[j]];
  }

  lemma EncodeTextSnoc(t: Tables, lines: seq<string>, i: nat, key: int)
    requires Valid(t) && i < |lines|
    ensures EncodeText(t, lines[..i + 1], key) == EncodeText(t, lines[..i], key) + [EncodeLine(t, lines[i], key)]
  {
    assert lines[..i + 1] == lines[..i] + [lines[i]];
  }

  // ---------------------------------------------------------------------------
  // The substitution of one character

  lemma ShiftTwice(p: int, a: int, b: int)
    ensures Shift(Shift(p, a), b) == Shift(p, a + b)
  {
    var q := (p + a) % Len;
    assert p + a == Len * ((p + a) / Len) + q;
    assert q + b == (p + a + b) - Len * ((p + a) / Len);
  }

  /** Passthrough characters are unchanged under every key. */
  lemma ExceptionUnchanged(t: Tables, c: char, key: int)
    requires Valid(t) && c in t.exceptions
    ensures EncodeChar(t, c, key) == c
  {
  }

  /** The lowercase letter at p goes to the lowercase letter at (p + key) mod 33, a position in [0, 32]. */
  lemma LowerShifted(t: Tables, p: nat, key: int)
    requires Valid(t) && p < Len
    ensures EncodeChar(t, t.lower[p], key) == t.lower[Shift(p, key)]
  {
    ClassifyLower(t, p);
  }

  /** The uppercase letter at p goes to the uppercase letter at (p + key) mod 33. */
  lemma CapitalShifted(t: Tables, p: nat, key: int)
    requires Valid(t) && p < Len
    ensures EncodeChar(t, t.capital[p], key) == t.capital[Shift(p, key)]
  {
    ClassifyCapital(t, p);
  }

  /** A character outside the three tables is copied unchanged. */
  lemma UnexpectedUnchanged(t: Tables, c: char, key: int)
    requires Valid(t) && c !in t.exceptions && c !in t.lower && c !in t.capital
    ensures EncodeChar(t, c, key) == c
  {
  }

  /** Case is preserved, and so is every other category: letters stay letters of their own table, the rest stays put. */
  lemma {:induction false} CategoryPreserved(t: Tables, c: char, key: int)
    requires Valid(t)
    ensures c in t.lower <==> EncodeChar(t, c, key) in t.lower
    ensures c in t.capital <==> EncodeChar(t, c, key) in t.capital
    ensures c in t.exceptions <==> EncodeChar(t, c, key) in t.exceptions
    ensures Classify(t, c).Unexpected? || Classify(t, c).Passthrough? ==> EncodeChar(t, c, key) == c
  {
    match Classify(t, c)
    case Passthrough =>
    case Small(p) =>
      var q := Shift(p, key);
      assert t.lower[q] in t.lower;
      assert t.lower[q] !in t.capital && t.lower[q] !in t.exceptions;
    case Large(p) =>
      var q := Shift(p, key);
      assert t.capital[q] in t.capital;
      assert t.capital[q] !in t.lower && t.capital[q] !in t.exceptions;
    case Unexpected =>
  }

  lemma ComposeLower(t: Tables, p: nat, a: int, b: int)
    requires Valid(t) && p < Len
    ensures EncodeChar(t, EncodeChar(t, t.lower[p], a), b) == EncodeChar(t, t.lower[p], a + b)
  {
    var q := Shift(p, a);
    LowerShifted(t, p, a);
    LowerShifted(t, q, b);
    LowerShifted(t, p, a + b);
    ShiftTwice(p, a, b);
  }

  lemma ComposeCapital(t: Tables, p: nat, a: int, b: int)
    requires Valid(t) && p < Len
    ensures EncodeChar(t, EncodeChar(t, t.capital[p], a), b) == EncodeChar(t, t.capital[p], a + b)
  {
    var q := Shift(p, a);
    CapitalShifted(t, p, a);
    CapitalShifted(t, q, b);
    CapitalShifted(t, p, a + b);
    ShiftTwice(p, a, b);
  }

  /** Shifting by a, then by b, is shifting by a + b. */
  lemma {:induction false} EncodeCharCompose(t: Tables, c: char, a: int, b: int)
    requires Valid(t)
    ensures EncodeChar(t, EncodeChar(t, c, a), b) == EncodeChar(t, c, a + b)
  {
    match Classify(t, c)
    case Passthrough =>
    case Small(p) =>
      ComposeLower(t, p, a, b);
    case Large(p) =>
      ComposeCapital(t, p, a, b);
    case Unexpected =>
  }

  /** Key 0 changes nothing. */
  lemma EncodeCharZero(t: Tables, c: char)
    requires Valid(t)
    ensures EncodeChar(t, c, 0) == c
  {
  }

  lemma ShiftKeyMod(p: int, key: int)
    ensures Shift(p, key) == Shift(p, key % Len)
    ensures Shift(p, key) == Shift(p, key + Len)
  {
    ShiftTwice(key, 0, p);
    ShiftTwice(p, key, Len);
  }

  /** Only the key modulo 33 matters: every key acts as one in [0, 32], and key and key + 33 agree. */
  lemma {:induction false} EncodeCharKeyMod(t: Tables, c: char, key: int)
    requires Valid(t)
    ensures 0 <= key % Len < Len
    ensures EncodeChar(t, c, key) == EncodeChar(t, c, key % Len)
    ensures EncodeChar(t, c, key) == EncodeChar(t, c, key + Len)
  {
    match Classify(t, c)
    case Passthrough =>
    case Small(p) =>
      LowerShifted(t, p, key);
      LowerShifted(t, p, key % Len);
      LowerShifted(t, p, key + Len);
      ShiftKeyMod(p, key);
    case Large(p) =>
      CapitalShifted(t, p, key);
      CapitalShifted(t, p, key % Len);
      CapitalShifted(t, p, key + Len);
      ShiftKeyMod(p, key);
    case Unexpected =>
  }

  /** Shifting back by the same key restores the character, for every key. */
  lemma EncodeCharRoundTrip(t: Tables, c: char, key: int)
    requires Valid(t)
    ensures EncodeChar(t, EncodeChar(t, c, key), -key) == c
  {
    EncodeCharCompose(t, c, key, -key);
    EncodeCharZero(t, c);
  }

  // ---------------------------------------------------------------------------
  // Whole texts

  /** Encoding a text twice is encoding it once with the sum of the keys. */
  lemma EncodeTextCompose(t: Tables, lines: seq<string>, a: int, b: int)
    requires Valid(t)
    ensures EncodeText(t, EncodeText(t, lines, a), b) == EncodeText(t, lines, a + b)
  {
    forall i | 0 <= i < |lines|
      ensures EncodeLine(t, EncodeLine(t, lines[i], a), b) == EncodeLine(t, lines[i], a + b)
    {
      forall j | 0 <= j < |lines[i]|
        ensures EncodeChar(t, EncodeChar(t, lines[i][j], a), b) == EncodeChar(t, lines[i][j], a + b)
      {
        EncodeCharCompose(t, lines[i][j], a, b);
      }
    }
  }

  /** Key 0 leaves every text unchanged. */
  lemma TransformIdentity(t: Tables, lines: seq<string>, decoding: bool)
    requires Valid(t)
    ensures Transform(t, lines, 0, decoding) == lines
  {
    forall i | 0 <= i < |lines|
      ensures EncodeLine(t, lines[i], 0) == lines[i]
    {
      forall j | 0 <= j < |lines[i]|
        ensures EncodeChar(t, lines[i][j], 0) == lines[i][j]
      {
        EncodeCharZero(t, lines[i][j]);
      }
    }
  }

  /** Decoding with a key is encoding with the negated key. */
  lemma DecodeIsNegatedEncode(t: Tables, lines: seq<string>, key: int)
    requires Valid(t)
    ensures Transform(t, lines, key, true) == Transform(t, lines, -key, false)
  {
  }

  /** Decoding what was encoded with the same key gives back the text, and so does encoding what was decoded; this holds for every key and every text. */
  lemma TransformRoundTrip(t: Tables, lines: seq<string>, key: int)
    requires Valid(t)
    ensures Transform(t, Transform(t, lines, key, false), key, true) == lines
    ensures Transform(t, Transform(t, lines, key, true), key, false) == lines
  {
    EncodeTextCompose(t, lines, key, -key);
    EncodeTextCompose(t, lines, -key, key);
    TransformIdentity(t, lines, false);
  }

  /** Keys that differ by 33 give the same cipher, and every key acts as its remainder in [0, 32]. */
  lemma TransformKeyMod(t: Tables, lines: seq<string>, key: int)
    requires Valid(t)
    ensures Transform(t, lines, key, false) == Transform(t, lines, key % Len, false)
    ensures Transform(t, lines, key, false) == Transform(t, lines, key + Len, false)
  {
    forall i, j | 0 <= i < |lines| && 0 <= j < |lines[i]|
      ensures EncodeChar(t, lines[i][j], key) == EncodeChar(t, lines[i][j], key % Len)
      ensures EncodeChar(t, lines[i][j], key) == EncodeChar(t, lines[i][j], key + Len)
    {
      EncodeCharKeyMod(t, lines[i][j], key);
    }
    assert forall i | 0 <= i < |lines| :: EncodeLine(t, lines[i], key) == EncodeLine(t, lines[i], key % Len);
    assert forall i | 0 <= i < |lines| :: EncodeLine(t, lines[i], key) == EncodeLine(t, lines[i], key + Len);
  }

  /**
   * Line structure is kept: the output has as many lines as the input, each
   * of the same length, and a character is a passthrough character (the line
   * terminator among them) exactly when the input character at that place is,
   * in which case the two are equal.
   */
  lemma TransformKeepsStructure(t: Tables, lines: seq<string>, key: int, decoding: bool, i: nat, j: nat)
    requires Valid(t) && i < |lines| && j < |lines[i]|
    ensures |Transform(t, lines, key, decoding)| == |lines|
    ensures |Transform(t, lines, key, decoding)[i]| == |lines[i]|
    ensures Transform(t, lines, key, decoding)[i][j] in t.exceptions <==> lines[i][j] in t.exceptions
    ensures lines[i][j] in t.exceptions ==> Transform(t, lines, key, decoding)[i][j] == lines[i][j]
  {
    CategoryPreserved(t, lines[i][j], if decoding then -key else key);
  }

  lemma {:induction false} EncodeLineAppend(t: Tables, a: string, b: string, key: int)
    requires Valid(t)
    ensures EncodeLine(t, a + b, key) == EncodeLine(t, a, key) + EncodeLine(t, b, key)
  {
    var l, r := EncodeLine(t, a + b, key), EncodeLine(t, a, key) + EncodeLine(t, b, key);
    assert forall i | 0 <= i < |l| :: l[i] == r[i] by {
      forall i | 0 <= i < |l|
        ensures l[i] == r[i]
      {
        if i < |a| {
          assert (a + b)[i] == a[i];
        } else {
          assert (a + b)[i] == b[i - |a|];
        }
      }
    }
  }

  /** The output file, one written line after another, is the encoding of the whole input file read as one run of characters. */
  lemma {:induction false} OutputIsEncodedInput(t: Tables, lines: seq<string>, key: int)
    requires Valid(t)
    ensures Concat(EncodeText(t, lines, key)) == EncodeLine(t, Concat(lines), key)
  {
    if lines != [] {
      var n := |lines| - 1;
      OutputIsEncodedInput(t, lines[..n], key);
      assert EncodeText(t, lines, key)[..n] == EncodeText(t, lines[..n], key);
      EncodeLineAppend(t, Concat(lines[..n]), lines[n], key);
    }
  }

  // ---------------------------------------------------------------------------
  // Warnings

  /** The characters reported, in order. */
  function Reported(ws: seq<Warning>): (r: string)
    ensures |r| == |ws|
  {
    seq(|ws|, i requires 0 <= i < |ws| => ws[i].character)
  }

  /** The characters of s that lie outside the three tables, in order, each occurrence kept. */
  function Unexpecteds(t: Tables, s: string): string
    requires Valid(t)
  {
    if s == [] then []
    else Unexpecteds(t, s[..|s| - 1]) + (if Classify(t, s[|s| - 1]).Unexpected? then [s[|s| - 1]] else [])
  }

  lemma {:induction false} UnexpectedsAppend(t: Tables, a: string, b: string)
    requires Valid(t)
    ensures Unexpecteds(t, a + b) == Unexpecteds(t, a) + Unexpecteds(t, b)
  {
    if b != [] {
      assert (a + b)[..|a + b| - 1] == a + b[..|b| - 1];
      UnexpectedsAppend(t, a, b[..|b| - 1]);
    } else {
      assert a + b == a;
    }
  }

  /** Every unexpected occurrence on a line yields exactly one warning, in order of occurrence. */
  lemma {:induction false} LineWarningsReportEachOccurrence(t: Tables, line: string, lineNo: nat, n: nat)
    requires Valid(t) && n <= |line|
    ensures Reported(LineWarnings(t, line, lineNo, n)) == Unexpecteds(t, line[..n])
  {
    if n > 0 {
      LineWarningsReportEachOccurrence(t, line, lineNo, n - 1);
      assert line[..n][..n - 1] == line[..n - 1];
    }
  }

  /**
   * Each warning of a line carries that line's number and the character it
   * reports, which lies outside the three tables; its column is one more than
   * the index of the character's first occurrence on the line.
   */
  lemma {:induction false} LineWarningsSound(t: Tables, line: string, lineNo: nat, n: nat)
    requires Valid(t) && n <= |line|
    ensures forall w <- LineWarnings(t, line, lineNo, n) ::
      && w.line == lineNo
      && 1 <= w.column <= |line|
      && line[w.column - 1] == w.character
      && (forall k :: 0 <= k < w.column - 1 ==> line[k] != w.character)
      && Classify(t, w.character).Unexpected?
  {
    if n > 0 {
      LineWarningsSound(t, line, lineNo, n - 1);
    }
  }

  /** Every unexpected occurrence in the text yields exactly one warning, in reading order. */
  lemma {:induction false} TextWarningsReportEachOccurrence(t: Tables, lines: seq<string>, n: nat)
    requires Valid(t) && n <= |lines|
    ensures Reported(TextWarnings(t, lines, n)) == Unexpecteds(t, Concat(lines[..n]))
  {
    if n > 0 {
      TextWarningsReportEachOccurrence(t, lines, n - 1);
      var line := lines[n - 1];
      LineWarningsReportEachOccurrence(t, line, n, |line|);
      assert line[..|line|] == line;
      ConcatSnoc(lines, n - 1);
      UnexpectedsAppend(t, Concat(lines[..n - 1]), line);
      ReportedAppend(TextWarnings(t, lines, n - 1), LineWarnings(t, line, n, |line|));
    }
  }

  lemma ReportedAppend(a: seq<Warning>, b: seq<Warning>)
    ensures Reported(a + b) == Reported(a) + Reported(b)
  {
    assert forall i | 0 <= i < |a| + |b| :: Reported(a + b)[i] == (Reported(a) + Reported(b))[i] by {
      forall i | 0 <= i < |a| + |b|
        ensures Reported(a + b)[i] == (Reported(a) + Reported(b))[i]
      {
        if i < |a| {
          assert (a + b)[i] == a[i];
        } else {
          assert (a + b)[i] == b[i - |a|];
        }
      }
    }
  }

  /**
   * Every warning of a text names a line between 1 and the number of lines and
   * is one of that line's warnings: its character lies outside the three
   * tables, and its column is one more than the index of that character's
   * first occurrence on the named line.
   */
  lemma {:induction false} TextWarningsSound(t: Tables, lines: seq<string>, n: nat)
    requires Valid(t) && n <= |lines|
    ensures forall w <- TextWarnings(t, lines, n) ::
      && 1 <= w.line <= n
      && w in LineWarnings(t, lines[w.line - 1], w.line, |lines[w.line - 1]|)
      && 1 <= w.column <= |lines[w.line - 1]|
      && lines[w.line - 1][w.column - 1] == w.character
      && w.column == FirstIndex(lines[w.line - 1], w.character) + 1
      && Classify(t, w.character).Unexpected?
  {
    if n > 0 {
      TextWarningsSound(t, lines, n - 1);
      LineWarningsSound(t, lines[n - 1], n, |lines[n - 1]|);
    }
  }

  /** Warnings whose line numbers never decrease. */
  predicate LinesAscending(ws: seq<Warning>)
  {
    forall i, j :: 0 <= i < j < |ws| ==> ws[i].line <= ws[j].line
  }

  /** The warnings of a text come line by line: a warning is never followed by one about an earlier line. */
  lemma {:induction false} TextWarningsOrdered(t: Tables, lines: seq<string>, n: nat)
    requires Valid(t) && n <= |lines|
    ensures LinesAscending(TextWarnings(t, lines, n))
  {
    if n > 0 {
      TextWarningsOrdered(t, lines, n - 1);
      TextWarningsSound(t, lines, n - 1);
      LineWarningsSound(t, lines[n - 1], n, |lines[n - 1]|);
      var a: seq<Warning> := TextWarnings(t, lines, n - 1);
      var b: seq<Warning> := LineWarnings(t, lines[n - 1], n, |lines[n - 1]|);
      forall i, j | 0 <= i < j < |a + b|
        ensures (a + b)[i].line <= (a + b)[j].line
      {
        if j < |a| {
          assert (a + b)[i] == a[i] && (a + b)[j] == a[j];
        } else if i < |a| {
          assert (a + b)[i] == a[i] && a[i] in a;
          assert (a + b)[j] == b[j - |a|] && b[j - |a|] in b;
        } else {
          assert (a + b)[i] == b[i - |a|] && b[i - |a|] in b;
          assert (a + b)[j] == b[j - |a|] && b[j - |a|] in b;
        }
      }
    }
  }

  /** Every character of the text lies in one of the three tables. */
  predicate Clean(t: Tables, lines: seq<string>)
  {
    forall i, j :: 0 <= i < |lines| && 0 <= j < |lines[i]| ==>
      lines[i][j] in t.lower || lines[i][j] in t.capital || lines[i][j] in t.exceptions
  }

  /** A line made only of letters and passthrough characters raises no warning. */
  lemma {:induction false} CleanLineNoWarnings(t: Tables, line: string, lineNo: nat, n: nat)
    requires Valid(t) && n <= |line|
    requires forall j :: 0 <= j < |line| ==> line[j] in t.lower || line[j] in t.capital || line[j] in t.exceptions
    ensures LineWarnings(t, line, lineNo, n) == []
  {
    if n > 0 {
      CleanLineNoWarnings(t, line, lineNo, n - 1);
      ClassifyUnexpected(t, line[n - 1]);
    }
  }

  /** A text made only of letters and passthrough characters raises no warning. */
  lemma {:induction false} CleanTextNoWarnings(t: Tables, lines: seq<string>, n: nat)
    requires Valid(t) && n <= |lines| && Clean(t, lines)
    ensures TextWarnings(t, lines, n) == []
  {
    if n > 0 {
      CleanTextNoWarnings(t, lines, n - 1);
      var line := lines[n - 1];
      assert forall j :: 0 <= j < |line| ==> line[j] in t.lower || line[j] in t.capital || line[j] in t.exceptions;
      CleanLineNoWarnings(t, line, n, |line|);
    }
  }
}
