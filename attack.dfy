/**
 * Why the analyser serves as an attack on the cipher: encoding with a key
 * rotates the letter counters by that key, keeps the total, and moves the
 * leading letter by the key, so comparing the leader of a ciphertext with the
 * leader of its plaintext gives back the key modulo 33.
 */
module Attack {
  import opened Alphabet
  import opened Cipher
  import opened Frequency

  /** The counter a shifted character increments, given the counter of the original character. */
  function ShiftedIndex(i: Option<nat>, key: int): (r: Option<nat>)
    ensures r.Some? <==> i.Some?
  {
    match i
    case None => None
    case Some(p) => Some(Shift(p, key))
  }

  lemma LowerIndexEncoded(t: Tables, p: nat, key: int)
    requires Valid(t) && p < Len
    ensures LetterIndex(t, EncodeChar(t, t.lower[p], key)) == Some(Shift(p, key))
  {
    LowerShifted(t, p, key);
    LetterIndexCaseFolds(t, Shift(p, key));
  }

  lemma CapitalIndexEncoded(t: Tables, p: nat, key: int)
    requires Valid(t) && p < Len
    ensures LetterIndex(t, EncodeChar(t, t.capital[p], key)) == Some(Shift(p, key))
  {
    CapitalShifted(t, p, key);
    LetterIndexCaseFolds(t, Shift(p, key));
  }

  lemma NonLetterEncoded(t: Tables, c: char, key: int)
    requires Valid(t) && c !in t.lower && c !in t.capital
    ensures EncodeChar(t, c, key) == c && LetterIndex(t, c) == None
  {
    LetterIndexNone(t, c);
  }

  /** Letters go to the letter key places on, whatever their case; everything else stays outside both tables. */
  lemma LetterIndexEncoded(t: Tables, c: char, key: int)
    requires Valid(t)
    ensures LetterIndex(t, EncodeChar(t, c, key)) == ShiftedIndex(LetterIndex(t, c), key)
  {
    if c in t.lower {
      var p := FirstIndex(t.lower, c);
      LetterIndexCaseFolds(t, p);
      LowerIndexEncoded(t, p, key);
    } else if c in t.capital {
      var p := FirstIndex(t.capital, c);
      LetterIndexCaseFolds(t, p);
      CapitalIndexEncoded(t, p, key);
    } else {
      NonLetterEncoded(t, c, key);
    }
  }

  /** Shifting positions of the table by one key never sends two positions to the same place. */
  lemma ShiftInjective(a: nat, b: nat, key: int)
    requires a < Len && b < Len && Shift(a, key) == Shift(b, key)
    ensures a == b
  {
    ShiftTwice(a, key, -key);
    ShiftTwice(b, key, -key);
  }

  /**
   * r is the analysis of a text encoded with key when s is the analysis of the
   * text itself: for every letter p, r's counter at (p + key) mod 33 equals
   * s's counter at p; the totals agree; and once a letter was seen, r's most
   * frequent letter is s's moved key places on.
   */
  ghost predicate Rotated(s: Counts, r: Counts, key: int)
  {
    && WellFormed(s) && WellFormed(r)
    && (forall j :: 0 <= j < Len ==> r.freq[Shift(j, key)] == s.freq[j])
    && r.sum == s.sum
    && (s.sum > 0 ==> r.max == Shift(s.max, key))
  }

  lemma ZeroRotated(key: int)
    ensures Rotated(Zero, Zero, key)
  {
  }

  lemma StepRotated(t: Tables, s: Counts, r: Counts, c: char, key: int)
    requires Valid(t) && Rotated(s, r, key)
    requires s.sum == 0 ==> s == Zero && r == Zero
    ensures Rotated(Step(t, s, c), Step(t, r, EncodeChar(t, c, key)), key)
  {
    LetterIndexEncoded(t, c, key);
    match LetterIndex(t, c)
    case None =>
    case Some(p) =>
      var q := Shift(p, key);
      var s', r' := Step(t, s, c), Step(t, r, EncodeChar(t, c, key));
      assert s'.freq == s.freq[p := s.freq[p] + 1] && r'.freq == r.freq[q := r.freq[q] + 1];
      forall j | 0 <= j < Len
        ensures r'.freq[Shift(j, key)] == s'.freq[j]
      {
        if j != p && Shift(j, key) == q {
          ShiftInjective(j, p, key);
        }
      }
      if s.sum == 0 {
        assert s'.max == p && r'.max == q;
      } else {
        assert r'.freq[Shift(s.max, key)] == s'.freq[s.max];
      }
  }

  /** Analysing the encoding of a text gives the analysis of the text, rotated by the key. */
  lemma {:induction false} TallyEncoded(t: Tables, cs: string, key: int)
    requires Valid(t)
    ensures Rotated(Tally(t, cs), Tally(t, EncodeLine(t, cs, key)), key)
  {
    if cs == [] {
      ZeroRotated(key);
    } else {
      var init, c := cs[..|cs| - 1], cs[|cs| - 1];
      assert cs == init + [c];
      TallyEncoded(t, init, key);
      EncodeLineAppend(t, init, [c], key);
      TallySnoc(t, EncodeLine(t, init, key), EncodeChar(t, c, key));
      NoLettersMeansZero(t, init);
      NoLettersMeansZero(t, EncodeLine(t, init, key));
      StepRotated(t, Tally(t, init), Tally(t, EncodeLine(t, init, key)), c, key);
    }
  }

  /** The ciphertext's analysis is the plaintext's, rotated by the key. */
  lemma {:induction false} TransformRotates(t: Tables, lines: seq<string>, key: int)
    requires Valid(t)
    ensures Rotated(Tally(t, Concat(lines)), Tally(t, Concat(Transform(t, lines, key, false))), key)
  {
    var cs := Concat(lines);
    OutputIsEncodedInput(t, lines, key);
    assert Tally(t, Concat(Transform(t, lines, key, false))) == Tally(t, EncodeLine(t, cs, key));
    TallyEncoded(t, cs, key);
  }

  /** How many places, modulo 33, the leader of secret lies past the leader of reference. */
  function LeaderDistance(reference: Counts, secret: Counts): int
  {
    (secret.max - reference.max) % Len
  }

  lemma RotatedLeaders(s: Counts, r: Counts, key: int)
    requires Rotated(s, r, key) && s.sum > 0
    ensures LeaderDistance(s, r) == key % Len
  {
    ShiftBack(s.max, key);
  }

  /**
   * For a text with letters, the most frequent letter of its encoding lies key
   * places (modulo 33) past the text's own most frequent letter, whatever the key.
   */
  lemma LeadersRevealKey(t: Tables, cs: string, key: int)
    requires Valid(t)
    requires Tally(t, cs).sum > 0
    ensures LeaderDistance(Tally(t, cs), Tally(t, EncodeLine(t, cs, key))) == key % Len
  {
    var plain, secret := Tally(t, cs), Tally(t, EncodeLine(t, cs, key));
    TallyEncoded(t, cs, key);
    RotatedLeaders(plain, secret, key);
  }

  lemma ShiftBack(m: int, key: int)
    ensures (Shift(m, key) - m) % Len == key % Len
  {
    ShiftTwice(m, key, -m);
  }
}
