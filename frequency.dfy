/**
 * The frequency analyser: one counter per letter of the lowercase table, a
 * running total of letters seen, and the index of the most frequent letter,
 * which moves only when a counter strictly exceeds the current maximum's.
 * Case is folded, and every character outside both tables is ignored.
 */
module Frequency {
  import opened Alphabet

  /** The analyser's state: the counters, their total and the index of the leading letter. */
  datatype Counts = Counts(freq: seq<nat>, sum: nat, max: nat)

  /** One counter per letter, and a leader that is one of them. */
  predicate WellFormed(s: Counts)
  {
    |s.freq| == Len && s.max < Len
  }

  /** The state before any character is read: 33 zero counters, total 0, leader 0. */
  const Zero: Counts := Counts(Zeros(Len), 0, 0)

  function Zeros(n: nat): (r: seq<nat>)
    ensures |r| == n && forall i :: 0 <= i < n ==> r[i] == 0
  {
    if n == 0 then [] else [0] + Zeros(n - 1)
  }

  /** Reading one character: a letter bumps its counter and the total, and takes the lead only by strictly passing the leader. */
  function Step(t: Tables, s: Counts, c: char): (r: Counts)
    requires Valid(t) && WellFormed(s)
    ensures WellFormed(r)
  {
    match LetterIndex(t, c)
    case None => s
    case Some(p) =>
      var f := s.freq[p := s.freq[p] + 1];
      Counts(f, s.sum + 1, if f[p] > f[s.max] then p else s.max)
  }

  /** The state after reading every character of cs in order. */
  function Tally(t: Tables, cs: string): (r: Counts)
    requires Valid(t)
    ensures WellFormed(r)
  {
    if cs == [] then Zero else Step(t, Tally(t, cs[..|cs| - 1]), cs[|cs| - 1])
  }

  /** Number of characters of cs that count for the letter at position p, in either case. */
  function Occurrences(t: Tables, cs: string, p: nat): nat
    requires Valid(t)
  {
    if cs == [] then 0
    else Occurrences(t, cs[..|cs| - 1], p) + (if LetterIndex(t, cs[|cs| - 1]) == Some(p) then 1 else 0)
  }

  /** The characters of cs that are letters of either table, in order. */
  function Letters(t: Tables, cs: string): string
    requires Valid(t)
  {
    if cs == [] then []
    else Letters(t, cs[..|cs| - 1]) + (if LetterIndex(t, cs[|cs| - 1]).Some? then [cs[|cs| - 1]] else [])
  }

  /** cs with every uppercase letter replaced by its lowercase counterpart. */
  function Lowered(t: Tables, cs: string): (r: string)
    requires Valid(t)
    ensures |r| == |cs|
  {
    seq(|cs|, i requires 0 <= i < |cs| => ToLower(t, cs[i]))
  }

  function Sum(s: seq<nat>): nat
  {
    if s == [] then 0 else s[0] + Sum(s[1..])
  }

  lemma TallySnoc(t: Tables, cs: string, c: char)
    requires Valid(t)
    ensures Tally(t, cs + [c]) == Step(t, Tally(t, cs), c)
  {
    assert (cs + [c])[..|cs|] == cs;
  }

  /**
   * The counter of every letter is the number of its occurrences in either
   * case, and the total is the number of letters read.
   */
  lemma {:induction false} TallyCounts(t: Tables, cs: string)
    requires Valid(t)
    ensures forall p :: 0 <= p < Len ==> Tally(t, cs).freq[p] == Occurrences(t, cs, p)
    ensures Tally(t, cs).sum == |Letters(t, cs)|
  {
    if cs != [] {
      TallyCounts(t, cs[..|cs| - 1]);
    }
  }

  lemma {:induction false} SumOfZeros(n: nat)
    ensures Sum(Zeros(n)) == 0
  {
    if n > 0 {
      assert Zeros(n)[1..] == Zeros(n - 1);
      SumOfZeros(n - 1);
    }
  }

  lemma {:induction false} SumIncrement(s: seq<nat>, p: nat)
    requires p < |s|
    ensures Sum(s[p := s[p] + 1]) == Sum(s) + 1
  {
    if p == 0 {
      assert s[p := s[p] + 1][1..] == s[1..];
    } else {
      assert s[p := s[p] + 1][1..] == s[1..][p - 1 := s[p] + 1];
      SumIncrement(s[1..], p - 1);
    }
  }

  lemma StepSum(t: Tables, s: Counts, c: char)
    requires Valid(t) && WellFormed(s) && Sum(s.freq) == s.sum
    ensures Sum(Step(t, s, c).freq) == Step(t, s, c).sum
  {
    match LetterIndex(t, c)
    case None =>
    case Some(p) =>
      SumIncrement(s.freq, p);
  }

  /** The counters always add up to the total. */
  lemma {:induction false} TallySum(t: Tables, cs: string)
    requires Valid(t)
    ensures Sum(Tally(t, cs).freq) == Tally(t, cs).sum
  {
    if cs == [] {
      SumOfZeros(Len);
    } else {
      var init, c := cs[..|cs| - 1], cs[|cs| - 1];
      TallySum(t, init);
      StepSum(t, Tally(t, init), c);
    }
  }

  /** The leader's counter is at least every other counter. */
  lemma {:induction false} TallyMaxIsMaximal(t: Tables, cs: string)
    requires Valid(t)
    ensures forall j :: 0 <= j < Len ==> Tally(t, cs).freq[j] <= Tally(t, cs).freq[Tally(t, cs).max]
  {
    if cs != [] {
      TallyMaxIsMaximal(t, cs[..|cs| - 1]);
    }
  }

  lemma {:induction false} SumBound(s: seq<nat>, j: nat)
    requires j < |s|
    ensures s[j] <= Sum(s)
  {
    if j > 0 {
      SumBound(s[1..], j - 1);
    }
  }

  /** Every counter is at most the total, so each relative frequency lies between 0 and 1. */
  lemma CounterAtMostTotal(t: Tables, cs: string, j: nat)
    requires Valid(t) && j < Len
    ensures Tally(t, cs).freq[j] <= Tally(t, cs).sum
  {
    TallySum(t, cs);
    SumBound(Tally(t, cs).freq, j);
  }

  lemma {:induction false} OnlyOneLetter(t: Tables, cs: string, p: nat)
    requires Valid(t)
    requires forall i :: 0 <= i < |cs| ==> LetterIndex(t, cs[i]) == None || LetterIndex(t, cs[i]) == Some(p)
    ensures |Letters(t, cs)| == Occurrences(t, cs, p)
    ensures forall j :: 0 <= j < Len && j != p ==> Occurrences(t, cs, j) == 0
  {
    if cs != [] {
      OnlyOneLetter(t, cs[..|cs| - 1], p);
    }
  }

  /**
   * A text whose letters are all occurrences of one letter (in either case),
   * at least one of them, makes that letter the leader with the whole total.
   */
  lemma SingleLetterLeads(t: Tables, cs: string, p: nat)
    requires Valid(t) && p < Len
    requires forall i :: 0 <= i < |cs| ==> LetterIndex(t, cs[i]) == None || LetterIndex(t, cs[i]) == Some(p)
    requires Occurrences(t, cs, p) > 0
    ensures Tally(t, cs).max == p
    ensures Tally(t, cs).freq[p] == Tally(t, cs).sum
  {
    OnlyOneLetter(t, cs, p);
    TallyCounts(t, cs);
    TallyMaxIsMaximal(t, cs);
  }

  /** No letters read means the initial state: every counter 0 and the leader still at index 0; and the other way round. */
  lemma {:induction false} NoLettersMeansZero(t: Tables, cs: string)
    requires Valid(t)
    ensures Tally(t, cs).sum == 0 <==> Tally(t, cs) == Zero
  {
    if cs != [] {
      NoLettersMeansZero(t, cs[..|cs| - 1]);
    }
  }

  /**
   * The leader is the letter that first reached the final maximum: some
   * prefix of the text already holds it the final maximum number of times
   * while every other letter occurs there fewer times. So of letters that tie
   * for the maximum, the one that got there first keeps the lead.
   */
  ghost predicate FirstToReach(t: Tables, cs: string, r: Counts)
    requires Valid(t) && WellFormed(r)
  {
    r.sum > 0 ==>
      exists n ::
        && 0 < n <= |cs|
        && Occurrences(t, cs[..n], r.max) == r.freq[r.max]
        && forall j :: 0 <= j < Len && j != r.max ==> Occurrences(t, cs[..n], j) < r.freq[r.max]
  }

  /** A non-letter keeps the witness prefix of the text before it. */
  lemma FirstToReachNonLetter(t: Tables, init: string, c: char)
    requires Valid(t) && LetterIndex(t, c) == None
    requires FirstToReach(t, init, Tally(t, init))
    ensures FirstToReach(t, init + [c], Tally(t, init + [c]))
  {
    var s := Tally(t, init);
    TallySnoc(t, init, c);
    if s.sum > 0 {
      var n :| 0 < n <= |init| && Occurrences(t, init[..n], s.max) == s.freq[s.max]
        && forall j :: 0 <= j < Len && j != s.max ==> Occurrences(t, init[..n], j) < s.freq[s.max];
      assert (init + [c])[..n] == init[..n];
    }
  }

  /** A letter that holds the lead after it is read has, over the whole text so far, more occurrences than any other letter. */
  lemma FirstToReachLeader(t: Tables, init: string, c: char, p: nat)
    requires Valid(t) && LetterIndex(t, c) == Some(p)
    requires Tally(t, init + [c]).max == p
    ensures FirstToReach(t, init + [c], Tally(t, init + [c]))
  {
    var cs := init + [c];
    var s, r := Tally(t, init), Tally(t, cs);
    TallySnoc(t, init, c);
    TallyCounts(t, cs);
    TallyMaxIsMaximal(t, init);
    NoLettersMeansZero(t, init);
    assert r.freq[p] > s.freq[s.max];
    assert forall j :: 0 <= j < Len && j != p ==> r.freq[j] == s.freq[j];
    assert cs[..|cs|] == cs;
    assert Occurrences(t, cs[..|cs|], p) == r.freq[p];
    assert forall j :: 0 <= j < Len && j != p ==> Occurrences(t, cs[..|cs|], j) < r.freq[p];
  }

  /** A letter that does not hold the lead after it is read leaves the leader, its count and the earlier witness as they were. */
  lemma FirstToReachOther(t: Tables, init: string, c: char, p: nat)
    requires Valid(t) && LetterIndex(t, c) == Some(p)
    requires Tally(t, init + [c]).max != p
    requires FirstToReach(t, init, Tally(t, init))
    ensures FirstToReach(t, init + [c], Tally(t, init + [c]))
  {
    var cs := init + [c];
    var s, r := Tally(t, init), Tally(t, cs);
    TallySnoc(t, init, c);
    NoLettersMeansZero(t, init);
    assert s.sum > 0 && r.max == s.max && s.max != p;
    assert r.freq[r.max] == s.freq[s.max];
    var n :| 0 < n <= |init| && Occurrences(t, init[..n], s.max) == s.freq[s.max]
      && forall j :: 0 <= j < Len && j != s.max ==> Occurrences(t, init[..n], j) < s.freq[s.max];
    assert cs[..n] == init[..n];
  }

  lemma {:induction false} TallyFirstToReach(t: Tables, cs: string)
    requires Valid(t)
    ensures FirstToReach(t, cs, Tally(t, cs))
  {
    if cs != [] {
      var init, c := cs[..|cs| - 1], cs[|cs| - 1];
      assert cs == init + [c];
      TallyFirstToReach(t, init);
      match LetterIndex(t, c)
      case None =>
        FirstToReachNonLetter(t, init, c);
      case Some(p) =>
        if Tally(t, cs).max == p {
          FirstToReachLeader(t, init, c, p);
        } else {
          FirstToReachOther(t, init, c, p);
        }
    }
  }

  /** Characters outside both tables change nothing, wherever they occur: the text analyses as its letters alone. */
  lemma {:induction false} NonLettersIgnored(t: Tables, cs: string)
    requires Valid(t)
    ensures Tally(t, Letters(t, cs)) == Tally(t, cs)
  {
    if cs != [] {
      var init, c := cs[..|cs| - 1], cs[|cs| - 1];
      NonLettersIgnored(t, init);
      assert Tally(t, cs) == Step(t, Tally(t, init), c);
      if LetterIndex(t, c).Some? {
        assert Letters(t, cs) == Letters(t, init) + [c];
        TallySnoc(t, Letters(t, init), c);
      } else {
        assert Letters(t, cs) == Letters(t, init);
      }
    }
  }

  lemma LetterIndexToLower(t: Tables, c: char)
    requires Valid(t)
    ensures LetterIndex(t, ToLower(t, c)) == LetterIndex(t, c)
  {
    if c in t.capital {
      var p := FirstIndex(t.capital, c);
      LetterIndexCaseFolds(t, p);
    }
  }

  /** Reading a character depends only on the counter it increments. */
  lemma StepByIndex(t: Tables, s: Counts, c: char, d: char)
    requires Valid(t) && WellFormed(s) && LetterIndex(t, c) == LetterIndex(t, d)
    ensures Step(t, s, c) == Step(t, s, d)
  {
  }

  lemma LoweredSnoc(t: Tables, cs: string, c: char)
    requires Valid(t)
    ensures Lowered(t, cs + [c]) == Lowered(t, cs) + [ToLower(t, c)]
  {
    assert forall i | 0 <= i < |cs| :: (cs + [c])[i] == cs[i];
  }

  /** Case is irrelevant: lower-casing the text first gives the same analysis. */
  lemma {:induction false} TallyCaseInsensitive(t: Tables, cs: string)
    requires Valid(t)
    ensures Tally(t, Lowered(t, cs)) == Tally(t, cs)
  {
    if cs != [] {
      var init, c := cs[..|cs| - 1], cs[|cs| - 1];
      assert cs == init + [c];
      TallyCaseInsensitive(t, init);
      LoweredSnoc(t, init, c);
      TallySnoc(t, Lowered(t, init), ToLower(t, c));
      TallySnoc(t, init, c);
      LetterIndexToLower(t, c);
      StepByIndex(t, Tally(t, init), ToLower(t, c), c);
    }
  }

  /**
   * The analyser's counting loop over one file given as its lines: a list of
   * 33 counters updated in place, a total and a leader.
   */
  method CountLetters(t: Tables, lines: seq<string>) returns (freq: seq<nat>, sum: nat, max: nat)
    requires Valid(t)
    ensures Counts(freq, sum, max) == Tally(t, Concat(lines))
  {
    var counters := new nat[Len](_ => 0);
    sum, max := 0, 0;
    assert counters[..] == Zero.freq;
    for i := 0 to |lines|
      invariant Counts(counters[..], sum, max) == Tally(t, Concat(lines[..i]))
    {
      var line := lines[i];
      ghost var seen := Concat(lines[..i]);
      assert seen + line[..0] == seen;
      for j := 0 to |line|
        invariant Counts(counters[..], sum, max) == Tally(t, seen + line[..j])
      {
        TallyLineStep(t, seen, line, j);
        sum, max := CountChar(t, counters, line[j], sum, max);
      }
      assert line[..|line|] == line;
      ConcatSnoc(lines, i);
    }
    assert lines[..|lines|] == lines;
    freq := counters[..];
  }

  /** The body of the counting loop for one character: the counters, total and leader move as Step says. */
  method CountChar(t: Tables, counters: array<nat>, c: char, sum: nat, max: nat) returns (sum': nat, max': nat)
    requires Valid(t) && counters.Length == Len && max < Len
    modifies counters
    ensures Counts(counters[..], sum', max') == Step(t, Counts(old(counters[..]), sum, max), c)
  {
    sum', max' := sum, max;
    var lowered := ToLower(t, c);
    if lowered in t.lower {
      var index := FirstIndex(t.lower, lowered);
      counters[index] := counters[index] + 1;
      sum' := sum' + 1;
      if counters[index] > counters[max'] {
        max' := index;
      }
    }
  }

  lemma TallyLineStep(t: Tables, seen: string, line: string, j: nat)
    requires Valid(t) && j < |line|
    ensures Tally(t, seen + line[..j + 1]) == Step(t, Tally(t, seen + line[..j]), line[j])
  {
    assert seen + line[..j + 1] == (seen + line[..j]) + [line[j]];
    TallySnoc(t, seen + line[..j], line[j]);
  }

  /** Both passes of the analyser: the encoded text, then the reference text, counted alike. */
  method AnalyzeTexts(t: Tables, encoded: seq<string>, reference: seq<string>) returns (enc: Counts, ref: Counts)
    requires Valid(t)
    ensures enc == Tally(t, Concat(encoded))
    ensures ref == Tally(t, Concat(reference))
  {
    var freq, sum, max := CountLetters(t, encoded);
    enc := Counts(freq, sum, max);
    freq, sum, max := CountLetters(t, reference);
    ref := Counts(freq, sum, max);
  }
}
