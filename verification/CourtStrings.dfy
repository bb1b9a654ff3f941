/** The comma-separated court lists that games and venues store, and the numbers inside them. */
module CourtStrings {

  // ---------------------------------------------------------------- integers as text

  const INT_MAX := 0x7fff_ffff_ffff_ffff
  const INT_MIN := -0x8000_0000_0000_0000

  /** The outcome of reading a whole string as a decimal 64-bit integer. */
  datatype IntResult = Parsed(value: int) | Malformed | OutOfRange(clamped: int)
  {
    /** The number delivered alongside the error when the caller ignores the error. */
    function ValueIgnoringError(): int {
      match this
      case Parsed(v) => v
      case Malformed => 0
      case OutOfRange(v) => v
    }
  }

  predicate IsDigit(c: char) {
    '0' <= c <= '9'
  }

  function DigitChar(d: nat): char
    requires d < 10
  {
    '0' + d as char
  }

  function DigitValue(c: char): nat
    requires IsDigit(c)
  {
    (c - '0') as nat
  }

  predicate AllDigits(s: string) {
    forall i :: 0 <= i < |s| ==> IsDigit(s[i])
  }

  function Magnitude(s: string): nat
    requires AllDigits(s)
  {
    if s == [] then 0 else Magnitude(s[..|s| - 1]) * 10 + DigitValue(s[|s| - 1])
  }

  function InRange(v: int): IntResult {
    if v > INT_MAX then OutOfRange(INT_MAX) else if v < INT_MIN then OutOfRange(INT_MIN) else Parsed(v)
  }

  function Atoi(s: string): IntResult {
    if s == [] then Malformed
    else
      var signed := s[0] == '-' || s[0] == '+';
      var digits := if signed then s[1..] else s;
      if digits == [] || !AllDigits(digits) then Malformed
      else
        var m: int := Magnitude(digits);
        InRange(if s[0] == '-' then -m else m)
  }

  function NatText(n: nat): (s: string)
    ensures s != [] && AllDigits(s)
  {
    if n < 10 then [DigitChar(n)] else NatText(n / 10) + [DigitChar(n % 10)]
  }

  function Itoa(n: int): string {
    if n < 0 then "-" + NatText(-n) else NatText(n)
  }

  lemma {:induction false} MagnitudeOfText(n: nat)
    ensures Magnitude(NatText(n)) == n
  {
    if n >= 10 {
      MagnitudeOfText(n / 10);
      var s := NatText(n);
      assert s[..|s| - 1] == NatText(n / 10);
    }
  }

  lemma AtoiSigned(sign: string, digits: string)
    requires sign == "-" || sign == ""
    requires digits != [] && AllDigits(digits)
    ensures Atoi(sign + digits) == InRange(if sign == "-" then 0 - Magnitude(digits) else Magnitude(digits))
  {
    var s := sign + digits;
    if sign == "-" {
      assert s[0] == '-' && s[1..] == digits;
    } else {
      assert s == digits && IsDigit(s[0]);
    }
  }

  /** Printing a number and reading it back gives the number. */
  lemma AtoiItoa(n: int)
    requires INT_MIN <= n <= INT_MAX
    ensures Atoi(Itoa(n)) == Parsed(n)
  {
    var m := if n < 0 then -n else n;
    MagnitudeOfText(m);
    AtoiSigned(if n < 0 then "-" else "", NatText(m));
    assert "" + NatText(m) == NatText(m);
  }

  /** Two numbers never print alike. */
  lemma ItoaInjective(a: int, b: int)
    requires Itoa(a) == Itoa(b)
    ensures a == b
  {
    assert a >= 0 ==> IsDigit(Itoa(a)[0]);
    assert b >= 0 ==> IsDigit(Itoa(b)[0]);
    if a < 0 && b < 0 {
      assert Itoa(a)[1..] == NatText(-a) && Itoa(b)[1..] == NatText(-b);
      MagnitudeOfText(-a);
      MagnitudeOfText(-b);
    } else if a >= 0 && b >= 0 {
      MagnitudeOfText(a);
      MagnitudeOfText(b);
    }
  }

  lemma SameTextIff(a: int, b: int)
    ensures Itoa(a) == Itoa(b) <==> a == b
  {
    if Itoa(a) == Itoa(b) {
      ItoaInjective(a, b);
    }
  }

  // ---------------------------------------------------------------- white space

  predicate IsSpace(c: char) {
    || '\U{0009}' <= c <= '\U{000D}'
    || c == ' ' || c == '\U{0085}' || c == '\U{00A0}' || c == '\U{1680}'
    || '\U{2000}' <= c <= '\U{200A}'
    || c == '\U{2028}' || c == '\U{2029}' || c == '\U{202F}' || c == '\U{205F}' || c == '\U{3000}'
  }

  /** No white space at either end. */
  predicate Trimmed(s: string) {
    s != [] ==> !IsSpace(s[0]) && !IsSpace(s[|s| - 1])
  }

  function TrimSpace(s: string): (t: string)
    ensures Trimmed(t)
    ensures Trimmed(s) ==> t == s
  {
    if s == [] then []
    else if IsSpace(s[0]) then TrimSpace(s[1..])
    else if IsSpace(s[|s| - 1]) then TrimSpace(s[..|s| - 1])
    else s
  }

  lemma {:induction false} TrimDropsOnly(s: string, c: char)
    requires c in TrimSpace(s)
    ensures c in s
  {
    if s != [] && IsSpace(s[0]) {
      TrimDropsOnly(s[1..], c);
    } else if s != [] && IsSpace(s[|s| - 1]) {
      TrimDropsOnly(s[..|s| - 1], c);
    }
  }

  ghost predicate AllSpace(s: string) {
    forall c :: c in s ==> IsSpace(c)
  }

  lemma OneInFront(c: char, s: string, lead: string, t: string, trail: string)
    requires s == lead + t + trail && AllSpace(lead) && IsSpace(c)
    ensures [c] + s == [c] + lead + t + trail && AllSpace([c] + lead)
  {
  }

  lemma OneBehind(c: char, s: string, lead: string, t: string, trail: string)
    requires s == lead + t + trail && AllSpace(trail) && IsSpace(c)
    ensures s + [c] == lead + t + (trail + [c]) && AllSpace(trail + [c])
  {
  }

  /** What trimming leaves of a string, and what it takes away. */
  ghost predicate TrimmedTo(s: string, lead: string, trail: string) {
    s == lead + TrimSpace(s) + trail && AllSpace(lead) && AllSpace(trail)
  }

  lemma TrimFront(c: char, tail: string, lead: string, trail: string)
    requires IsSpace(c) && TrimmedTo(tail, lead, trail)
    ensures TrimmedTo([c] + tail, [c] + lead, trail)
  {
    assert ([c] + tail)[1..] == tail;
    OneInFront(c, tail, lead, TrimSpace(tail), trail);
  }

  lemma TrimBack(front: string, c: char, lead: string, trail: string)
    requires front != [] && !IsSpace(front[0]) && IsSpace(c) && TrimmedTo(front, lead, trail)
    ensures TrimmedTo(front + [c], lead, trail + [c])
  {
    var s := front + [c];
    assert s[..|s| - 1] == front && s[0] == front[0];
    OneBehind(c, front, lead, TrimSpace(front), trail);
  }

  lemma TrimNothing(s: string)
    requires Trimmed(s)
    ensures TrimmedTo(s, [], [])
  {
    assert [] + s + [] == s;
  }

  /** Trimming takes away white space at the ends and nothing else. */
  lemma {:induction false} TrimTakesEnds(s: string) returns (lead: string, trail: string)
    ensures TrimmedTo(s, lead, trail)
    decreases |s|
  {
    if s == [] || (!IsSpace(s[0]) && !IsSpace(s[|s| - 1])) {
      lead, trail := [], [];
      TrimNothing(s);
    } else if IsSpace(s[0]) {
      lead, trail := TrimTakesEnds(s[1..]);
      TrimFront(s[0], s[1..], lead, trail);
      lead := [s[0]] + lead;
      assert s == [s[0]] + s[1..];
    } else {
      var n := |s| - 1;
      lead, trail := TrimTakesEnds(s[..n]);
      TrimBack(s[..n], s[n], lead, trail);
      trail := trail + [s[n]];
      assert s == s[..n] + [s[n]];
    }
  }

  // ---------------------------------------------------------------- splitting and joining

  /** The position of the first separator, or the length. */
  function FindSep(s: string, sep: char): (i: nat)
    ensures i <= |s| && sep !in s[..i] && (i < |s| ==> s[i] == sep)
  {
    if s == [] || s[0] == sep then 0 else 1 + FindSep(s[1..], sep)
  }

  function Split(s: string, sep: char): (parts: seq<string>)
    ensures parts != []
    ensures forall p :: p in parts ==> sep !in p
    decreases |s|
  {
    var i := FindSep(s, sep);
    if i == |s| then [s] else [s[..i]] + Split(s[i + 1..], sep)
  }

  function Join(parts: seq<string>, sep: char): string {
    if parts == [] then []
    else if |parts| == 1 then parts[0]
    else parts[0] + [sep] + Join(parts[1..], sep)
  }

  lemma {:induction false} FindSepAt(front: string, tail: string, sep: char)
    requires sep !in front
    ensures FindSep(front + [sep] + tail, sep) == |front|
    ensures FindSep(front, sep) == |front|
  {
    if front != [] {
      FindSepAt(front[1..], tail, sep);
      assert (front + [sep] + tail)[1..] == front[1..] + [sep] + tail;
    }
  }

  lemma SplitFirst(head: string, tail: string, sep: char)
    requires sep !in head
    ensures Split(head + [sep] + tail, sep) == [head] + Split(tail, sep)
  {
    FindSepAt(head, tail, sep);
    var s := head + [sep] + tail;
    assert s[..|head|] == head && s[|head| + 1..] == tail;
  }

  lemma {:induction false} SplitJoin(parts: seq<string>, sep: char)
    requires parts != [] && forall p :: p in parts ==> sep !in p
    ensures Split(Join(parts, sep), sep) == parts
  {
    var head, rest := parts[0], parts[1..];
    assert parts == [head] + rest;
    if rest == [] {
      FindSepAt(head, [], sep);
    } else {
      SplitJoin(rest, sep);
      SplitFirst(head, Join(rest, sep), sep);
    }
  }

  lemma JoinFirst(head: string, rest: seq<string>, sep: char)
    requires rest != []
    ensures Join([head] + rest, sep) == head + [sep] + Join(rest, sep)
  {
    assert ([head] + rest)[1..] == rest;
  }

  lemma CutAt(s: string, i: nat, sep: char)
    requires i < |s| && s[i] == sep
    ensures s[..i] + [sep] + s[i + 1..] == s
  {
  }

  lemma SplitAt(s: string, sep: char)
    ensures var i := FindSep(s, sep);
            Split(s, sep) == if i == |s| then [s] else [s[..i]] + Split(s[i + 1..], sep)
  {
  }

  /** The parts of a string, joined again, are the string. */
  lemma {:induction false} JoinSplit(s: string, sep: char)
    ensures Join(Split(s, sep), sep) == s
    decreases |s|
  {
    var i := FindSep(s, sep);
    SplitAt(s, sep);
    if i < |s| {
      JoinSplit(s[i + 1..], sep);
      JoinFirst(s[..i], Split(s[i + 1..], sep), sep);
      CutAt(s, i, sep);
    }
  }

  // ---------------------------------------------------------------- court lists

  /** A court label as it appears in a stored list. */
  predicate IsLabel(p: string) {
    p != [] && Trimmed(p) && ',' !in p
  }

  /** The labels of a stored list: its comma-separated parts, trimmed, without the empty ones. */
  function Labels(parts: seq<string>): (out: seq<string>)
    ensures (forall p :: p in parts ==> ',' !in p) ==> forall p :: p in out ==> IsLabel(p)
  {
    if parts == [] then []
    else
      var n := |parts| - 1;
      var p := TrimSpace(parts[n]);
      assert ',' in p ==> ',' in parts[n] by {
        if ',' in p { TrimDropsOnly(parts[n], ','); }
      }
      Labels(parts[..n]) + (if p == [] then [] else [p])
  }

  function CourtTokens(courts: string): seq<string> {
    Labels(Split(courts, ','))
  }

  function JoinCourts(labels: seq<string>): string {
    Join(labels, ',')
  }

  method SplitCourts(courts: string) returns (out: seq<string>)
    ensures out == CourtTokens(courts)
    ensures forall p :: p in out ==> IsLabel(p)
  {
    var parts := Split(courts, ',');
    out := [];
    for i := 0 to |parts|
      invariant out == Labels(parts[..i])
    {
      var p := TrimSpace(parts[i]);
      assert parts[..i + 1][..i] == parts[..i];
      if p != [] {
        out := out + [p];
      }
    }
    assert parts[..|parts|] == parts;
  }

  lemma LabelsSnoc(front: seq<string>, last: string)
    requires IsLabel(last)
    ensures Labels(front + [last]) == Labels(front) + [last]
  {
    assert (front + [last])[..|front|] == front;
  }

  lemma {:induction false} LabelsOfLabels(labels: seq<string>)
    requires forall p :: p in labels ==> IsLabel(p)
    ensures Labels(labels) == labels
  {
    if labels != [] {
      var front, last := labels[..|labels| - 1], labels[|labels| - 1];
      assert labels == front + [last];
      LabelsOfLabels(front);
      LabelsSnoc(front, last);
    }
  }

  /** What is written back as a court list is read again as the same labels. */
  lemma CourtListRoundTrip(labels: seq<string>)
    requires forall p :: p in labels ==> IsLabel(p)
    ensures CourtTokens(JoinCourts(labels)) == labels
  {
    if labels == [] {
      assert Split("", ',') == [""];
      assert [""][..0] == [];
    } else {
      SplitJoin(labels, ',');
      LabelsOfLabels(labels);
    }
  }

  function ReadNumber(part: string): IntResult {
    Atoi(TrimSpace(part))
  }

  function ReadAll(parts: seq<string>): seq<IntResult> {
    seq(|parts|, i requires 0 <= i < |parts| => ReadNumber(parts[i]))
  }

  function Successes(results: seq<IntResult>): seq<int> {
    if results == [] then []
    else
      var n := |results| - 1;
      Successes(results[..n]) + (if results[n].Parsed? then [results[n].value] else [])
  }

  /** The numbers of a stored list, in order; parts that are not numbers are skipped. */
  function CourtNumbers(s: string): seq<int> {
    if s == "" then [] else Successes(ReadAll(Split(s, ',')))
  }

  /** The empty list is no special case. */
  lemma CourtNumbersUniform(s: string)
    ensures CourtNumbers(s) == Successes(ReadAll(Split(s, ',')))
  {
    if s == "" {
      var results := ReadAll(Split(s, ','));
      assert results == [ReadNumber("")];
      assert results[..0] == [];
    }
  }

  method ParseCourtIDs(s: string) returns (ids: seq<int>)
    ensures ids == CourtNumbers(s)
  {
    if s == "" {
      return [];
    }
    ids := [];
    var parts := Split(s, ',');
    ghost var results := ReadAll(parts);
    for i := 0 to |parts|
      invariant ids == Successes(results[..i])
    {
      assert results[..i + 1][..i] == results[..i];
      var id := Atoi(TrimSpace(parts[i]));
      if id.Parsed? {
        ids := ids + [id.value];
      }
    }
    assert results[..|parts|] == results;
  }

  function Itoas(ids: seq<int>): (out: seq<string>)
    ensures |out| == |ids| && forall i :: 0 <= i < |ids| ==> out[i] == Itoa(ids[i])
  {
    seq(|ids|, i requires 0 <= i < |ids| => Itoa(ids[i]))
  }

  lemma ItoaIsLabel(n: int)
    ensures IsLabel(Itoa(n))
  {
    var s := Itoa(n);
    var m := if n < 0 then -n else n;
    assert AllDigits(NatText(m));
    assert forall i :: 0 <= i < |s| ==> s[i] == '-' || IsDigit(s[i]);
  }

  lemma {:induction false} AllSuccesses(results: seq<IntResult>, ids: seq<int>)
    requires |results| == |ids| && forall i :: 0 <= i < |ids| ==> results[i] == Parsed(ids[i])
    ensures Successes(results) == ids
  {
    if ids != [] {
      var n := |ids| - 1;
      AllSuccesses(results[..n], ids[..n]);
      assert ids == ids[..n] + [ids[n]];
    }
  }

  /** A list of numbers written as a court list is parsed back as the same numbers. */
  lemma CourtNumbersRoundTrip(ids: seq<int>)
    requires forall i :: 0 <= i < |ids| ==> INT_MIN <= ids[i] <= INT_MAX
    ensures CourtNumbers(JoinCourts(Itoas(ids))) == ids
  {
    if ids != [] {
      forall p | p in Itoas(ids) ensures IsLabel(p) {
        var i :| 0 <= i < |ids| && Itoas(ids)[i] == p;
        ItoaIsLabel(ids[i]);
      }
      SplitJoin(Itoas(ids), ',');
      forall i | 0 <= i < |ids| ensures ReadAll(Itoas(ids))[i] == Parsed(ids[i]) {
        AtoiItoa(ids[i]);
        ItoaIsLabel(ids[i]);
      }
      AllSuccesses(ReadAll(Itoas(ids)), ids);
      ItoaIsLabel(ids[0]);
      assert JoinCourts(Itoas(ids)) != "" by {
        assert Split("", ',') == [""];
        assert Itoas(ids)[0] != "";
      }
    }
  }
}
