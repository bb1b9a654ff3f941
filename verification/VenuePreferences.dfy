/** The preferred courts of a venue: what validation accepts, and when an accepted list names different
    courts.  Validation compares the entries as text; booking and cancellation read them as numbers. */
module VenuePreferences {

  import opened Basics
  import opened CourtStrings

  function AtoiAll(tokens: seq<string>): (results: seq<IntResult>)
    ensures |results| == |tokens| && forall i :: 0 <= i < |tokens| ==> results[i] == Atoi(tokens[i])
  {
    seq(|tokens|, i requires 0 <= i < |tokens| => Atoi(tokens[i]))
  }

  ghost predicate AllParsed(results: seq<IntResult>) {
    forall i :: 0 <= i < |results| ==> results[i].Parsed?
  }

  /** Every entry is an integer and no two entries are the same text. */
  ghost predicate Accepted(courts: string) {
    AllParsed(AtoiAll(CourtTokens(courts))) && Distinct(CourtTokens(courts))
  }

  method ValidateAutoBookingCourts(autoBookingCourts: string) returns (ok: bool)
    ensures ok <==> Accepted(autoBookingCourts)
    ensures var tokens := CourtTokens(autoBookingCourts);
            ok <==> && (forall i :: 0 <= i < |tokens| ==> Atoi(tokens[i]).Parsed?)
                    && (forall i, j :: 0 <= i < j < |tokens| ==> tokens[i] != tokens[j])
  {
    var tokens := SplitCourts(autoBookingCourts);
    ok := CheckEntries(tokens, AtoiAll(tokens));
  }

  /** Goes through the entries, given what each of them reads as. */
  method CheckEntries(tokens: seq<string>, numbers: seq<IntResult>) returns (ok: bool)
    requires |numbers| == |tokens|
    ensures ok <==> AllParsed(numbers) && Distinct(tokens)
  {
    var seen: set<string> := {};
    for i := 0 to |tokens|
      invariant forall x :: x in seen <==> x in tokens[..i]
      invariant forall k :: 0 <= k < i ==> numbers[k].Parsed?
      invariant Distinct(tokens[..i])
    {
      if !numbers[i].Parsed? {
        return false;
      }
      if tokens[i] in seen {
        var k :| 0 <= k < i && tokens[k] == tokens[i];
        return false;
      }
      seen := seen + {tokens[i]};
    }
    ok := true;
  }

  // ---------------------------------------------------------------- accepted lists as numbers

  lemma {:induction false} NumbersOfLabels(parts: seq<string>)
    ensures Successes(ReadAll(parts)) == Successes(AtoiAll(Labels(parts)))
  {
    if parts != [] {
      var n := |parts| - 1;
      NumbersOfLabels(parts[..n]);
      var front := Labels(parts[..n]);
      assert ReadAll(parts)[..n] == ReadAll(parts[..n]);
      LabelNumbers(front, TrimSpace(parts[n]));
    }
  }

  lemma LabelNumbers(front: seq<string>, p: string)
    ensures var labels := front + (if p == [] then [] else [p]);
            Successes(AtoiAll(labels)) == Successes(AtoiAll(front)) + (if Atoi(p).Parsed? then [Atoi(p).value] else [])
  {
    if p == [] {
      assert front + [] == front;
    } else {
      assert AtoiAll(front + [p])[..|front|] == AtoiAll(front);
    }
  }

  /** An accepted list is read as one number per entry. */
  lemma AcceptedNumbers(courts: string)
    requires Accepted(courts)
    ensures var tokens := CourtTokens(courts);
            |CourtNumbers(courts)| == |tokens| && forall i :: 0 <= i < |tokens| ==>
                Atoi(tokens[i]) == Parsed(CourtNumbers(courts)[i])
  {
    var tokens := CourtTokens(courts);
    var ids := seq(|tokens|, i requires 0 <= i < |tokens| => Atoi(tokens[i]).ValueIgnoringError());
    CourtNumbersUniform(courts);
    NumbersOfLabels(Split(courts, ','));
    AllSuccesses(AtoiAll(tokens), ids);
  }

  // ---------------------------------------------------------------- spellings

  /** Digits without leading zeros; a lone zero stays. */
  function DropZeros(digits: string): string {
    if |digits| > 1 && digits[0] == '0' then DropZeros(digits[1..]) else digits
  }

  /** The spelling without plus sign and leading zeros, and without a minus before zero. */
  function Plain(s: string): string {
    if s == [] then []
    else
      var d := DropZeros(if s[0] == '-' || s[0] == '+' then s[1..] else s);
      if s[0] == '-' && d != "0" then "-" + d else d
  }

  lemma {:induction false} MagnitudeWithoutZero(digits: string)
    requires AllDigits(digits)
    ensures Magnitude(['0'] + digits) == Magnitude(digits)
  {
    if digits == [] {
      assert ['0'] + digits == ['0'] && ['0'][..0] == [];
    } else {
      var n := |digits| - 1;
      MagnitudeWithoutZero(digits[..n]);
      assert (['0'] + digits)[..n + 1] == ['0'] + digits[..n];
    }
  }

  lemma {:induction false} DropZerosReads(digits: string)
    requires digits != [] && AllDigits(digits)
    ensures var d := DropZeros(digits);
            d != [] && AllDigits(d) && Magnitude(d) == Magnitude(digits) && (|d| > 1 ==> d[0] != '0')
  {
    if |digits| > 1 && digits[0] == '0' {
      DropZerosReads(digits[1..]);
      MagnitudeWithoutZero(digits[1..]);
      assert digits == ['0'] + digits[1..];
    }
  }

  lemma OneDigit(c: char)
    requires IsDigit(c)
    ensures Magnitude([c]) == DigitValue(c) && NatText(DigitValue(c)) == [c]
    ensures c != '0' ==> DigitValue(c) > 0
  {
    assert [c][..0] == [];
  }

  lemma MagnitudeNext(front: string, c: char)
    requires AllDigits(front) && IsDigit(c)
    ensures AllDigits(front + [c]) && Magnitude(front + [c]) == Magnitude(front) * 10 + DigitValue(c)
  {
    assert (front + [c])[..|front|] == front;
  }

  /** Digits without leading zeros are what their value prints as. */
  lemma {:induction false} TextOfMagnitude(digits: string)
    requires digits != [] && AllDigits(digits) && (|digits| > 1 ==> digits[0] != '0')
    ensures NatText(Magnitude(digits)) == digits
    ensures digits[0] != '0' ==> Magnitude(digits) > 0
  {
    var front, last := digits[..|digits| - 1], digits[|digits| - 1];
    assert digits == front + [last];
    if front == [] {
      assert digits == [last];
      OneDigit(last);
    } else {
      TextOfMagnitude(front);
      MagnitudeNext(front, last);
      NextDigit(Magnitude(front), last);
    }
  }

  lemma NextDigit(m: nat, c: char)
    requires m > 0 && IsDigit(c)
    ensures NatText(m * 10 + DigitValue(c)) == NatText(m) + [c]
  {
    var k := m * 10 + DigitValue(c);
    assert k / 10 == m && k % 10 == DigitValue(c);
  }

  /** A readable entry in its plain spelling is what its number prints as. */
  lemma PlainIsPrinted(s: string)
    requires Atoi(s).Parsed?
    ensures Plain(s) == Itoa(Atoi(s).value)
  {
    var digits := if s[0] == '-' || s[0] == '+' then s[1..] else s;
    var d := DropZeros(digits);
    DropZerosReads(digits);
    TextOfMagnitude(d);
    assert d != "0" ==> d[0] != '0' by {
      if |d| == 1 && d[0] == '0' {
        assert d == "0";
      }
    }
    assert d == "0" ==> Magnitude(d) == 0 by {
      assert "0"[..0] == [];
    }
  }

  /** Two readable entries are the same number exactly when their plain spellings are the same. */
  lemma SameNumberIff(s: string, t: string)
    requires Atoi(s).Parsed? && Atoi(t).Parsed?
    ensures Atoi(s) == Atoi(t) <==> Plain(s) == Plain(t)
  {
    PlainIsPrinted(s);
    PlainIsPrinted(t);
    if Plain(s) == Plain(t) {
      ItoaInjective(Atoi(s).value, Atoi(t).value);
    }
  }

  ghost function PlainAll(tokens: seq<string>): (texts: seq<string>)
    ensures |texts| == |tokens| && forall i :: 0 <= i < |tokens| ==> texts[i] == Plain(tokens[i])
  {
    seq(|tokens|, i requires 0 <= i < |tokens| => Plain(tokens[i]))
  }

  /** An accepted list names different courts exactly when its entries differ even after plus signs and
      leading zeros are dropped. */
  lemma DifferentCourtsIff(courts: string)
    requires Accepted(courts)
    ensures Distinct(CourtNumbers(courts)) <==> Distinct(PlainAll(CourtTokens(courts)))
  {
    AcceptedNumbers(courts);
    var tokens, ids := CourtTokens(courts), CourtNumbers(courts);
    forall i, j | 0 <= i < j < |tokens| ensures ids[i] == ids[j] <==> PlainAll(tokens)[i] == PlainAll(tokens)[j] {
      SameNumber(tokens[i], tokens[j], ids[i], ids[j]);
    }
  }

  lemma SameNumber(s: string, t: string, a: int, b: int)
    requires Atoi(s) == Parsed(a) && Atoi(t) == Parsed(b)
    ensures a == b <==> Plain(s) == Plain(t)
  {
    SameNumberIff(s, t);
  }

  /** Entries already in plain spelling are never two spellings of one number. */
  lemma PlainSpellingSuffices(courts: string)
    requires Accepted(courts) && PlainAll(CourtTokens(courts)) == CourtTokens(courts)
    ensures Distinct(CourtNumbers(courts))
  {
    DifferentCourtsIff(courts);
  }

  lemma TwoSpellings()
    ensures CourtTokens("7,07") == ["7", "07"]
  {
    var parts := ["7", "07"];
    assert IsLabel("7") && IsLabel("07");
    assert JoinCourts(parts) == "7,07";
    CourtListRoundTrip(parts);
  }

  lemma ReadsAsSeven()
    ensures Atoi("7") == Parsed(7) && Atoi("07") == Parsed(7)
  {
    assert "7"[..0] == "" && "07"[..1] == "0" && "0"[..0] == "";
  }

  lemma BothReadAsSeven()
    ensures AtoiAll(["7", "07"]) == [Parsed(7), Parsed(7)] && Distinct(["7", "07"])
  {
    ReadsAsSeven();
    assert |"7"| != |"07"|;
  }

  /** Such a list: "7,07" is accepted, yet names court 7 twice. */
  lemma PreferenceNamesCourtTwice()
    ensures Accepted("7,07") && CourtNumbers("7,07") == [7, 7]
  {
    TwoSpellings();
    BothReadAsSeven();
    SevenTwice("7,07");
  }

  lemma SevenTwice(courts: string)
    requires |CourtTokens(courts)| == 2 && Distinct(CourtTokens(courts))
    requires AtoiAll(CourtTokens(courts)) == [Parsed(7), Parsed(7)]
    ensures Accepted(courts) && CourtNumbers(courts) == [7, 7]
  {
    AcceptedNumbers(courts);
  }
}
