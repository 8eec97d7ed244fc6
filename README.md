# Caesar cipher over the Cyrillic alphabet, with frequency analysis

This project models the core of `main.py`, a command-line tool with two parts. The first is a Caesar
cipher engine. It moves every letter of a text a signed number of places along a 33-letter
Cyrillic alphabet, wrapping around, in lower and upper case separately. Whitespace and the
listed punctuation are copied unchanged. Any other character is copied too, but reported in a
warning that gives its line and column. The second part is a frequency analyser. It counts
each letter of the lowercase alphabet in a text, ignoring case, along with the total and the
most frequent letter.

Modules:

- `Alphabet` (alphabet.dfy) holds:
  - the two index-aligned tables, the passthrough characters and `Len = 33`;
  - the string-index lookup `FirstIndex`, with the meaning of Python's `str.index`;
  - the classification of a character in the order the engine tests it;
  - case folding.

  The engine and the analyser are stated over any `Tables` value that is `Valid`:
  - both tables have 33 letters;
  - neither table repeats a letter;
  - no character belongs to two of the three sets.

  `Default` is the program's own tables, and `DefaultValid` proves that they qualify. The
  tables are the Cyrillic letters whose UTF-8 bytes main.py:3-4 encode: а…я and А…Я in
  alphabetical order, with ё/Ё at position 6.
- `Cipher` (cipher.dfy) holds:
  - `Encode`, the engine's two nested loops as a method with loop invariants;
  - the pure specification it is proved against: `EncodeChar`, `EncodeLine`, `EncodeText`,
    `Transform`, `LineWarnings` and `TextWarnings`;
  - the lemmas that give that specification its meaning: round trips, composition of keys,
    key periodicity, preserved structure and case, and warning soundness and completeness.
- `Frequency` (frequency.dfy) holds:
  - `CountLetters`, the analyser's counting loop as a method over an `array<nat>` of 33
    counters updated in place;
  - its specification `Tally`, a left fold of `Step` over the characters;
  - lemmas about `Tally`: counters, total, leader and case insensitivity.
- `Attack` (attack.dfy) explains why the analyser breaks the cipher. Encoding rotates every
  counter by the key and moves the leader by the key. So the distance between the leaders of
  a ciphertext and of its plaintext, modulo 33, is the key. The analyser compares against a
  separate reference text, so its two leaders give the key only when the reference shares
  the plaintext's most frequent letter.
- `Scenarios` (scenarios.dfy) works through concrete cases on the program's own tables.

The text the program reads line by line is modelled as a `seq<string>` of lines, each with
its terminator. The output file is the returned `seq<string>`, and the printed warnings are
the returned `seq<Warning>`.

The warning column is one more than the index of the character's first occurrence on the
line. This follows `line.index(char) + 1` at main.py:71. So a repeated unexpected character
is reported every time, always at the column of its first occurrence; see
`Scenarios.RepeatedCharacterColumn`. The model reproduces this as the code does it.

## Model

| member | source | states |
|---|---|---|
| Alphabet.DefaultValid | main.py:3-6 | The program's tables have 33 letters each, no table repeats a letter, and lowercase, uppercase and passthrough sets are pairwise disjoint (what `str.index` and the classification order rely on) |
| Alphabet.LowerSpelledOut | main.py:3 | The lowercase table is а…я in alphabetical order with ё at position 6 |
| Alphabet.CapitalSpelledOut | main.py:4 | The uppercase table is А…Я, index-aligned with the lowercase one |
| Alphabet.ExceptionsAscii | main.py:5 | The passthrough set has 14 characters, all ASCII and below the Latin letters |
| Alphabet.AsciiIsNoLetter | main.py:3-4 | No ASCII character is a letter of either table |
| Alphabet.Shift | main.py:66 | The target position `(p + key) % 33` always lies in [0, 32], for negative keys too |
| Alphabet.FirstIndex | main.py:65 | `str.index`: the result is a position holding the character, and no earlier position holds it |
| Alphabet.FirstIndexOfDistinct | main.py:65 | In a table without repeats, looking up the letter at p gives back p |
| Alphabet.Classify | main.py:62-70 | A character classified as lowercase (uppercase) at p is the table's letter at p |
| Alphabet.ClassifyException | main.py:62-63 | Passthrough characters take the first branch |
| Alphabet.ClassifyLower | main.py:64-65 | The lowercase letter at p takes the lowercase branch with index exactly p |
| Alphabet.ClassifyCapital | main.py:67-68 | The uppercase letter at p takes the uppercase branch with index exactly p |
| Alphabet.ClassifyUnexpected | main.py:70 | The warning branch is taken if and only if the character is in none of the three sets |
| Alphabet.ToLower | main.py:87 | `char.lower()` as the analyser observes it; its body is the definition (an uppercase letter becomes the lowercase letter at the same position, anything else is unchanged), and `Frequency.LetterIndexToLower` and `Frequency.TallyCaseInsensitive` give it meaning |
| Alphabet.LetterIndex | main.py:87-88 | A counted character's counter index lies in [0, 32] |
| Alphabet.LetterIndexCaseFolds | main.py:87-88 | An uppercase letter and its lowercase counterpart increment the same counter, the one at their position |
| Alphabet.LetterIndexNone | main.py:87 | A character is not counted if and only if it is a letter of neither table |
| Alphabet.Concat | main.py:85-86 | The text read line by line as one run of characters; its body is the definition, and `ConcatSnoc` and `Cipher.OutputIsEncodedInput` relate it to the line-by-line loops |
| Alphabet.ConcatSnoc | main.py:58 | Reading one more line appends that line to the text read so far |
| Cipher.Encode | main.py:48-73 | The output lines are `Transform` of the input (decoding negates the key first), and the warnings are `TextWarnings` over all lines, in reading order, with 1-based line numbers |
| Cipher.EncodeLineNumbered | main.py:60-72 | One line's output is `EncodeLine` of it, and its warnings are `LineWarnings` of the whole line |
| Cipher.EncodeChar | main.py:62-72 | The per-character rule; its body is the definition, and `ExceptionUnchanged`, `LowerShifted`, `CapitalShifted`, `UnexpectedUnchanged`, `CategoryPreserved`, `EncodeCharCompose` and `EncodeCharRoundTrip` state what it does |
| Cipher.EncodeLine | main.py:61-72 | One output character per input character |
| Cipher.EncodeText | main.py:58-73 | One output line per input line |
| Cipher.LineStep | main.py:61-72 | Each loop step appends the current character's image, and a warning exactly when it is unexpected |
| Cipher.Transform | main.py:49-50 | Decoding negates the key, then encodes; its body is the definition, and `DecodeIsNegatedEncode`, `TransformRoundTrip`, `TransformIdentity`, `TransformKeyMod` and `TransformKeepsStructure` give it meaning |
| Cipher.EncodeTextSnoc | main.py:58-73 | Each outer step appends the encoding of the current line |
| Cipher.ShiftTwice | main.py:66 | Shifting by a and then by b is shifting by a + b |
| Cipher.ExceptionUnchanged | main.py:62-63 | A passthrough character is copied for every key |
| Cipher.LowerShifted | main.py:64-66 | The lowercase letter at p becomes the lowercase letter at (p + key) mod 33 |
| Cipher.CapitalShifted | main.py:67-69 | The uppercase letter at p becomes the uppercase letter at (p + key) mod 33 |
| Cipher.UnexpectedUnchanged | main.py:70-72 | A character outside all three sets is copied unchanged |
| Cipher.CategoryPreserved | main.py:62-72 | A character is lowercase, uppercase or passthrough if and only if its image is, so case is preserved; passthrough and unexpected characters are fixed |
| Cipher.ComposeLower | main.py:64-66 | Encoding a lowercase letter by a then by b is encoding it by a + b |
| Cipher.ComposeCapital | main.py:67-69 | Encoding an uppercase letter by a then by b is encoding it by a + b |
| Cipher.EncodeCharCompose | main.py:62-72 | Encoding any character by a then by b is encoding it by a + b |
| Cipher.EncodeCharZero | main.py:62-72 | Key 0 fixes every character |
| Cipher.ShiftKeyMod | main.py:66 | A key and the key reduced modulo 33, or plus 33, pick the same position |
| Cipher.EncodeCharKeyMod | main.py:62-72 | A character's image depends on the key only modulo 33 |
| Cipher.EncodeCharRoundTrip | main.py:49-50 | Encoding by -key undoes encoding by key, character by character |
| Cipher.EncodeTextCompose | main.py:58-73 | Encoding a text by a then by b is encoding it by a + b |
| Cipher.TransformIdentity | main.py:49-50 | Key 0 leaves every text unchanged, when encoding and when decoding |
| Cipher.DecodeIsNegatedEncode | main.py:49-50 | Decoding with k equals encoding with -k |
| Cipher.TransformRoundTrip | main.py:49-50 | Decoding the encoding of a text with the same key gives the text back, and encoding the decoding does too, for every key |
| Cipher.TransformKeyMod | main.py:134 | Keys that agree modulo 33 encode every text alike, so the range [-32, 32] the command line imposes loses nothing |
| Cipher.TransformKeepsStructure | main.py:58-73 | Line count and line lengths are kept, and passthrough characters such as the `'\n'` terminator stay where they are |
| Cipher.EncodeLineAppend | main.py:61-72 | Encoding is character-wise, so it distributes over concatenation |
| Cipher.OutputIsEncodedInput | main.py:58-73 | The output file read as one text is the encoding of the input read as one text |
| Cipher.LineWarnings | main.py:70-71 | The warnings of one line, with the first-occurrence column; its body is the definition, and `LineWarningsReportEachOccurrence` and `LineWarningsSound` give it meaning |
| Cipher.TextWarnings | main.py:57-59 | The warnings of a text, with line numbers counted from 1; its body is the definition, and `TextWarningsReportEachOccurrence`, `TextWarningsSound` and `CleanTextNoWarnings` give it meaning |
| Cipher.Reported | main.py:71 | One reported character per warning |
| Cipher.UnexpectedsAppend | main.py:70-72 | The unexpected characters of a + b are those of a followed by those of b |
| Cipher.LineWarningsReportEachOccurrence | main.py:61-72 | A line's warnings name exactly its unexpected characters, one per occurrence, in order |
| Cipher.LineWarningsSound | main.py:59-71 | Every warning has the line's 1-based number and a column in [1, length], and the reported character is unexpected. The column is that of the character's first occurrence on the line |
| Cipher.TextWarningsReportEachOccurrence | main.py:57-72 | A text's warnings name exactly its unexpected characters, one per occurrence, in reading order |
| Cipher.ReportedAppend | main.py:71 | The characters reported by two runs of warnings are those of the first, then of the second |
| Cipher.TextWarningsSound | main.py:57-71 | Every warning of a text has a line number in [1, line count] and is one of that line's warnings: its column lies on that line at the first occurrence of the reported character (`line.index(char) + 1`), and the reported character is unexpected |
| Cipher.TextWarningsOrdered | main.py:57-59 | The warnings of a text come line by line: along the list, line numbers never decrease |
| Cipher.CleanLineNoWarnings | main.py:62-69 | A line made only of letters and passthrough characters raises no warning |
| Cipher.CleanTextNoWarnings | main.py:62-69 | A text made only of letters and passthrough characters raises no warning |
| Frequency.Zeros | main.py:81 | `[0] * LEN`: n counters, all zero |
| Frequency.Step | main.py:87-92 | One character keeps 33 counters and a leader among them |
| Frequency.Tally | main.py:81-92 | Any text leaves 33 counters and a leader among them |
| Frequency.Lowered | main.py:87 | Lower-casing keeps the length |
| Frequency.CountLetters | main.py:81-92 | The counting loop's counters, total and leader are `Tally` of the whole text |
| Frequency.CountChar | main.py:86-92 | One step of the loop updates the counters in place, the total and the leader exactly as `Step` |
| Frequency.AnalyzeTexts | main.py:79-104 | The encoded and the reference text are both counted by the same loop |
| Frequency.TallyLineStep | main.py:86 | Reading the next character of a line is one `Step` |
| Frequency.TallySnoc | main.py:86-92 | Reading one more character is one `Step` |
| Frequency.TallyCounts | main.py:87-90 | Each counter is the number of occurrences of its letter in either case, and the total is the number of letters |
| Frequency.SumOfZeros | main.py:81-82 | Initial counters sum to the initial total 0 |
| Frequency.SumIncrement | main.py:89-90 | Bumping one counter raises the sum by one |
| Frequency.StepSum | main.py:89-90 | A step keeps the sum of counters equal to the total |
| Frequency.TallySum | main.py:81-90 | The counters always sum to the total |
| Frequency.TallyMaxIsMaximal | main.py:91-92 | After every text, the leader's counter is at least every other counter |
| Frequency.SumBound | main.py:81-90 | A counter is at most the sum of all counters |
| Frequency.CounterAtMostTotal | main.py:81-90 | No counter exceeds the total |
| Frequency.OnlyOneLetter | main.py:87-90 | If a text counts only one letter, all its letters go to that counter and the others stay zero |
| Frequency.SingleLetterLeads | main.py:87-92 | If a text holds only one letter, possibly repeated, that letter leads and holds the whole total |
| Frequency.NoLettersMeansZero | main.py:81-87 | The total is zero if and only if the state is still the initial one (so the leader stays 0) |
| Frequency.FirstToReachNonLetter | main.py:87 | A non-letter keeps the first-to-reach property |
| Frequency.FirstToReachLeader | main.py:91-92 | A letter that takes the lead is the first to reach its count |
| Frequency.FirstToReachOther | main.py:91-92 | A letter that does not take the lead keeps the first-to-reach property of the leader |
| Frequency.TallyFirstToReach | main.py:91-92 | On ties the leader is the letter that reached the top count first: some prefix gives it its final count while every other letter has fewer there |
| Frequency.NonLettersIgnored | main.py:87 | Characters that are not letters change nothing: counting only the letters gives the same state |
| Frequency.LetterIndexToLower | main.py:87-88 | Lower-casing first changes no counter index |
| Frequency.StepByIndex | main.py:87-92 | Two characters with the same counter index have the same effect |
| Frequency.LoweredSnoc | main.py:87 | Lower-casing is character-wise |
| Frequency.TallyCaseInsensitive | main.py:87-88 | Counting a text gives the same state as counting its lower-cased form |
| Attack.ShiftedIndex | main.py:64-88 | A shifted counter index exists exactly when the original one does |
| Attack.LowerIndexEncoded | main.py:64-88 | The image of the lowercase letter at p increments counter (p + key) mod 33 |
| Attack.CapitalIndexEncoded | main.py:67-88 | The image of the uppercase letter at p increments counter (p + key) mod 33 |
| Attack.NonLetterEncoded | main.py:62-87 | A non-letter is copied and counts for nothing |
| Attack.LetterIndexEncoded | main.py:62-88 | Encoding moves every character's counter index by the key, and keeps non-letters uncounted |
| Attack.ShiftInjective | main.py:66 | Distinct positions stay distinct after a shift |
| Attack.ZeroRotated | main.py:81-83 | The initial state is its own rotation |
| Attack.StepRotated | main.py:62-92 | Reading a character and its image keeps the two states rotated by the key |
| Attack.TallyEncoded | main.py:61-92 | Counting the encoding of a text gives the text's analysis rotated by the key: the ciphertext counter at (p + key) mod 33 equals the plaintext counter at p, the totals agree, and for a text with letters the ciphertext's leader is the plaintext's moved by the key (the strict tie-break included) |
| Attack.TransformRotates | main.py:48-92 | The same holds for the output file against the input file |
| Attack.RotatedLeaders | main.py:81-92 | For rotated states with letters, the leader of the second lies key places (modulo 33) past the leader of the first |
| Attack.LeadersRevealKey | main.py:81-92 | For a text with letters, the most frequent letter of its encoding lies key places (modulo 33) past its own, for every key. So the two leaders the analyser prints give the key when the reference text has the same most frequent letter as the plaintext |
| Attack.ShiftBack | main.py:66 | A shifted position lies key places past the original, modulo 33 |
| Scenarios.EncodeByOne | main.py:64-66 | With key 1, "аб\n" becomes "бв\n" |
| Scenarios.DecodeWrapsAround | main.py:49-69 | Decoding "Аб" with key 2 wraps past the start to "Юя" |
| Scenarios.LatinUnexpected | main.py:70 | Every character from 'A' to 'z' (the Latin letters and the six signs between the two cases) takes the warning branch |
| Scenarios.HelloColumns | main.py:71 | `"Hello".index` gives 0, 1, 2, 4 for H, e, l, o |
| Scenarios.AllUnexpected | main.py:61-72 | A line made only of unexpected characters raises one warning per character, in order, each at its first-occurrence column |
| Scenarios.RepeatedCharacterColumn | main.py:70-71 | "Hello" raises five warnings; both l's are reported at column 3 |
| Scenarios.TieKeepsFirst | main.py:91-92 | On a tie the earlier letter keeps the lead: "ба" is led by б and "аб" by а |

## Left out

- Printing, ANSI colours, the help text and the success message (main.py:9-45, 74). These are console output only. Warnings are returned as data instead of printed.
- Opening the files, the `encoded_`/`decoded_` output names and `FileNotFoundError` handling (main.py:51-56, 75-76, 84, 96, 113-114). This is I/O. Text is given and returned as a sequence of lines, each with its terminator.
- Newline translation of text-mode files. The lines are taken as Python yields them.
- Relative frequencies: the float division, the `{:.3f}` formatting and the table printed for all 33 letters (main.py:105-111). The model states the integer counters, totals and leaders these are computed from. The division by zero when a file has no letters is not modelled. `Frequency.NoLettersMeansZero` characterises that case, the total being 0.
- Command-line parsing and dispatch (main.py:117-138). `encode` itself takes any integer key. So `Cipher.Encode` has no precondition on the key, and its properties are proved for every key. `Cipher.TransformKeyMod` shows that the range check at main.py:134 loses nothing.
- Python's full Unicode `str.lower()`. Case folding is defined by the alignment of the two tables, as `Alphabet.ToLower`. The analyser only tests whether the lowered character lies in the lowercase table. The only characters whose lowercase form is in that table are its own letters and the uppercase table's letters, so this definition decides the same characters.
- The loop bodies are split out as their own methods, `Cipher.EncodeLineNumbered` and `Frequency.CountChar`. The loop-nesting and the order of updates are otherwise the source's.
- `Frequency.CountLetters` returns the final counters as a sequence copied from its local array. The two analyser passes of main.py:81-104 are one method called twice, in `Frequency.AnalyzeTexts`.
