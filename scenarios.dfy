/** Worked cases on the program's own tables. */
module Scenarios {
  import opened Alphabet
  import opened Cipher
  import opened Frequency

  /** Shifting by 1 moves each lowercase letter to the next one, and the line terminator stays. */
  lemma EncodeByOne()
    ensures Valid(Default) && Transform(Default, ["аб\n"], 1, false) == ["бв\n"]
  {
    DefaultValid();
    var line := "аб\n";
    assert Lower[0] == 'а' && Lower[1] == 'б' && Lower[2] == 'в';
    LowerShifted(Default, 0, 1);
    LowerShifted(Default, 1, 1);
    ExceptionUnchanged(Default, '\n', 1);
    assert EncodeChar(Default, line[0], 1) == 'б';
    assert EncodeChar(Default, line[1], 1) == 'в';
    assert EncodeChar(Default, line[2], 1) == '\n';
    assert EncodeLine(Default, line, 1) == "бв\n";
  }

  /** Decoding by 2 wraps past the start of the table: А goes to Ю and б to я. */
  lemma DecodeWrapsAround()
    ensures Valid(Default) && Transform(Default, ["Аб"], 2, true) == ["Юя"]
  {
    DefaultValid();
    var line := "Аб";
    assert Capital[0] == 'А' && Capital[31] == 'Ю';
    assert Lower[1] == 'б' && Lower[32] == 'я';
    CapitalShifted(Default, 0, -2);
    LowerShifted(Default, 1, -2);
    assert EncodeChar(Default, line[0], -2) == 'Ю';
    assert EncodeChar(Default, line[1], -2) == 'я';
    assert EncodeLine(Default, line, -2) == "Юя";
  }

  /** No character from 'A' to 'z' (the Latin letters and the six signs between the two cases) is a passthrough character or a letter of the tables. */
  lemma LatinUnexpected(c: char)
    requires 'A' <= c <= 'z'
    ensures Valid(Default) && Classify(Default, c) == Unexpected
  {
    DefaultValid();
    ExceptionsAscii();
    AsciiIsNoLetter(c);
  }

  lemma HelloColumns()
    ensures FirstIndex("Hello", 'H') == 0 && FirstIndex("Hello", 'e') == 1
    ensures FirstIndex("Hello", 'l') == 2 && FirstIndex("Hello", 'o') == 4
  {
    var line := "Hello";
    assert line[1..][1..] == "llo";
    assert line[1..][1..][1..][1..] == "o";
  }

  /** A line with no letter and no passthrough character raises one warning per character, in place order. */
  lemma {:induction false} AllUnexpected(t: Tables, line: string, lineNo: nat, n: nat)
    requires Valid(t) && n <= |line|
    requires forall i :: 0 <= i < |line| ==> Classify(t, line[i]) == Unexpected
    ensures LineWarnings(t, line, lineNo, n) == seq(n, i requires 0 <= i < n => Warning(line[i], lineNo, FirstIndex(line, line[i]) + 1))
  {
    if n > 0 {
      AllUnexpected(t, line, lineNo, n - 1);
    }
  }

  /**
   * Latin letters are not in the tables, so each occurrence raises a warning,
   * and both l's are reported at column 3, where the first one stands.
   */
  lemma RepeatedCharacterColumn()
    ensures Valid(Default)
    ensures LineWarnings(Default, "Hello", 1, 5)
      == [Warning('H', 1, 1), Warning('e', 1, 2), Warning('l', 1, 3), Warning('l', 1, 3), Warning('o', 1, 5)]
  {
    var line := "Hello";
    LatinUnexpected('H');
    LatinUnexpected('e');
    LatinUnexpected('l');
    LatinUnexpected('o');
    HelloColumns();
    AllUnexpected(Default, line, 1, 5);
  }

  /** A tie keeps the letter that got there first: in "ба" the leader is б, not а. */
  lemma TieKeepsFirst()
    ensures Valid(Default) && Tally(Default, "ба").max == 1 && Tally(Default, "аб").max == 0
  {
    DefaultValid();
    LetterIndexCaseFolds(Default, 0);
    LetterIndexCaseFolds(Default, 1);
    assert Lower[0] == 'а' && Lower[1] == 'б';
    assert "ба"[..1] == "б" && "аб"[..1] == "а";
  }
}
