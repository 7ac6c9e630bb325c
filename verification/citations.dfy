/** Citation enforcement: the `[n]` markers of an answer against the chunks retrieved for it. */
module Citations {
  import opened Text
  import opened CacheKey

  /** `\d`; brackets are not digits. */
  predicate IsDigit(a: Alphabet, c: char) { c != '[' && c != ']' && 0 <= a.digit(c) <= 9 }

  function DigitsEnd(a: Alphabet, text: string, i: nat): (e: nat)
    requires i <= |text|
    ensures i <= e <= |text|
    decreases |text| - i
  {
    if i < |text| && IsDigit(a, text[i]) then DigitsEnd(a, text, i + 1) else i
  }

  /** `int(digits)` */
  function Value(a: Alphabet, digits: string): nat {
    if digits == "" then 0
    else
      var c := digits[|digits| - 1];
      10 * Value(a, digits[..|digits| - 1]) + if IsDigit(a, c) then a.digit(c) else 0
  }

  /** The end of a match of `\[(\d+)\]` at `i`, or 0. */
  function MatchAt(a: Alphabet, text: string, i: nat): (e: nat)
    requires i < |text|
    ensures e == 0 || i + 3 <= e <= |text|
  {
    if text[i] != '[' then 0
    else
      var e := DigitsEnd(a, text, i + 1);
      if e > i + 1 && e < |text| && text[e] == ']' then e + 1 else 0
  }

  /** `findall` from `i` on: leftmost matches, not overlapping. */
  function Citations(a: Alphabet, text: string, i: nat): seq<nat>
    requires i <= |text|
    decreases |text| - i
  {
    if i == |text| then []
    else
      var e := MatchAt(a, text, i);
      if e == 0 then Citations(a, text, i + 1)
      else [Value(a, text[i + 1..e - 1])] + Citations(a, text, e)
  }

  function ExtractCitations(a: Alphabet, text: string): seq<nat> { Citations(a, text, 0) }

  /** Brackets around nothing but digits, and at least one. */
  ghost predicate IsCitation(a: Alphabet, text: string, i: int, j: int) {
    && 0 <= i && i + 2 <= j < |text| && text[i] == '[' && text[j] == ']'
    && forall k :: i < k < j ==> text[k] != '[' && text[k] != ']' && 0 <= a.digit(text[k]) <= 9
  }

  lemma {:induction false} DigitsEndMeaning(a: Alphabet, text: string, i: nat, j: nat)
    requires i <= |text|
    ensures var e := DigitsEnd(a, text, i);
            && (forall k :: i <= k < e ==> IsDigit(a, text[k]))
            && (i <= j < |text| && !IsDigit(a, text[j]) && (forall k :: i <= k < j ==> IsDigit(a, text[k])) ==> e == j)
    decreases |text| - i
  {
    if i < |text| && IsDigit(a, text[i]) {
      DigitsEndMeaning(a, text, i + 1, j);
    }
  }

  lemma MatchIsCitation(a: Alphabet, text: string, i: nat, j: nat)
    requires i < |text|
    ensures MatchAt(a, text, i) != 0 ==> IsCitation(a, text, i, MatchAt(a, text, i) - 1)
    ensures IsCitation(a, text, i, j) ==> MatchAt(a, text, i) == j + 1
  {
    DigitsEndMeaning(a, text, i + 1, j);
  }

  ghost predicate CitedFrom(a: Alphabet, text: string, start: nat, n: nat) {
    exists i, j :: start <= i && IsCitation(a, text, i, j) && Value(a, text[i + 1..j]) == n
  }

  /** A citation from `start` on is the one there, or one past it. */
  lemma HereOrLater(a: Alphabet, text: string, start: nat, n: nat, i: int, j: int)
    requires start < |text| && start <= i && IsCitation(a, text, i, j) && Value(a, text[i + 1..j]) == n
    ensures var e := MatchAt(a, text, start);
            if e == 0 then CitedFrom(a, text, start + 1, n)
            else n == Value(a, text[start + 1..e - 1]) || CitedFrom(a, text, e, n)
  {
    var e := MatchAt(a, text, start);
    MatchIsCitation(a, text, start, j);
    if i != start {
      assert e != 0 ==> e <= i;
      assert start + 1 <= i;
    }
  }

  lemma CitedLater(a: Alphabet, text: string, start: nat, later: nat, n: nat)
    requires start <= later && CitedFrom(a, text, later, n)
    ensures CitedFrom(a, text, start, n)
  {
  }

  lemma CitedStep(a: Alphabet, text: string, start: nat, n: nat)
    requires start < |text|
    ensures var e := MatchAt(a, text, start);
            CitedFrom(a, text, start, n) <==>
              if e == 0 then CitedFrom(a, text, start + 1, n)
            else n == Value(a, text[start + 1..e - 1]) || CitedFrom(a, text, e, n)
  {
    var e := MatchAt(a, text, start);
    var later := if e == 0 then start + 1 else e;
    if CitedFrom(a, text, start, n) {
      var i, j :| start <= i && IsCitation(a, text, i, j) && Value(a, text[i + 1..j]) == n;
      HereOrLater(a, text, start, n, i, j);
    } else if CitedFrom(a, text, later, n) {
      CitedLater(a, text, start, later, n);
    } else if e != 0 {
      MatchIsCitation(a, text, start, e - 1);
    }
  }

  /** Nothing is cited that is not written, and every citation written is found. */
  lemma {:induction false} CitationsExactly(a: Alphabet, text: string, start: nat, n: nat)
    requires start <= |text|
    ensures n in Citations(a, text, start) <==> CitedFrom(a, text, start, n)
    decreases |text| - start
  {
    if start < |text| {
      var e := MatchAt(a, text, start);
      CitedStep(a, text, start, n);
      CitationsExactly(a, text, if e == 0 then start + 1 else e, n);
    }
  }

  /** The ten digits numbers are written with have their values. */
  ghost predicate ReadsDigits(a: Alphabet) { forall d: nat :: d < 10 ==> a.digit(Digit(d)) == d }

  lemma {:induction false} ValueOfDecimal(a: Alphabet, n: nat)
    requires ReadsDigits(a)
    ensures Value(a, Decimal(n)) == n && forall k :: 0 <= k < |Decimal(n)| ==> IsDigit(a, Decimal(n)[k])
  {
    DecimalParts(n);
    DigitValue(a, n % 10);
    if n >= 10 {
      ValueOfDecimal(a, n / 10);
    } else {
      assert Decimal(n)[..0] == "";
    }
  }

  lemma DigitValue(a: Alphabet, d: nat)
    requires d < 10 && ReadsDigits(a)
    ensures IsDigit(a, Digit(d)) && a.digit(Digit(d)) == d
  {
    assert ['0', '1', '2', '3', '4', '5', '6', '7', '8', '9'][d] == Digit(d);
  }

  /** A marker for chunk `n` is found wherever it is written. */
  lemma MarkerIsFound(a: Alphabet, before: string, n: nat, after: string)
    requires ReadsDigits(a)
    ensures n in ExtractCitations(a, before + ("[" + Decimal(n) + "]") + after)
  {
    var text := before + ("[" + Decimal(n) + "]") + after;
    var i, j := |before|, |before| + 1 + |Decimal(n)|;
    ValueOfDecimal(a, n);
    DecimalParts(n);
    assert text[i + 1..j] == Decimal(n);
    assert forall k :: i < k < j ==> text[k] == Decimal(n)[k - i - 1];
    assert IsCitation(a, text, i, j);
    CitationsExactly(a, text, 0, n);
  }

  /** Every citation written refers to one of `n` chunks. */
  ghost predicate CitesWithin(a: Alphabet, text: string, n: nat) {
    forall i, j :: IsCitation(a, text, i, j) ==> 1 <= Value(a, text[i + 1..j]) <= n
  }

  ghost predicate Cites(a: Alphabet, text: string) {
    exists i, j :: IsCitation(a, text, i, j)
  }

  // ---- Policy ----

  const MARKERS: seq<string> := [
    "don't have", "do not have", "couldn't find", "could not find", "no information", "not able to",
    "outside my scope", "out of scope", "can only answer", "reach out to", "contact the relevant"]

  const ABSTAIN_OPENING: string :=
    "I don't have enough grounded " + "information in the knowledge " + "base to answer that accurately. "
  const ABSTAIN_CLOSING: string :=
    "Please rephrase, or reach out " + "to the relevant team for " + "the most reliable answer."
  const ABSTAIN_MESSAGE: string := ABSTAIN_OPENING + ABSTAIN_CLOSING

  predicate LooksLikeAbstention(a: Alphabet, text: string) {
    exists k :: 0 <= k < |MARKERS| && Find(Lower(a, text), MARKERS[k], 0) != -1
  }

  /** An answer abstains exactly if it holds one of the phrases, in any case. */
  lemma AbstainsExactlyWhen(a: Alphabet, text: string)
    ensures LooksLikeAbstention(a, text) <==>
              exists marker, i :: marker in MARKERS && OccursAt(Lower(a, text), marker, i)
  {
    forall k | 0 <= k < |MARKERS|
      ensures Find(Lower(a, text), MARKERS[k], 0) != -1 <==> exists i :: OccursAt(Lower(a, text), MARKERS[k], i)
    {
      FindsFirst(Lower(a, text), MARKERS[k], 0);
    }
  }

  predicate IsSubstantive(a: Alphabet, text: string, minWords: int) { |Words(a, text)| >= minWords }

  datatype Reason = Fabricated | Valid | ExemptNonAnswer | Uncited

  function OutOfRange(cites: seq<nat>, n: nat): bool { exists k :: 0 <= k < |cites| && (cites[k] < 1 || cites[k] > n) }

  function Validate(a: Alphabet, text: string, n: nat): (bool, Reason) {
    var cites := ExtractCitations(a, text);
    if OutOfRange(cites, n) then (false, Fabricated)
    else if cites != [] then (true, Valid)
    else if LooksLikeAbstention(a, text) || !IsSubstantive(a, text, 12) then (true, ExemptNonAnswer)
    else if n > 0 then (false, Uncited)
    else (true, Valid)
  }

  function Enforce(a: Alphabet, text: string, n: nat): (string, Reason) {
    var (ok, reason) := Validate(a, text, n);
    if ok then (text, reason) else (ABSTAIN_MESSAGE, reason)
  }

  lemma RangeMeaning(a: Alphabet, text: string, n: nat)
    ensures OutOfRange(ExtractCitations(a, text), n) <==> !CitesWithin(a, text, n)
    ensures ExtractCitations(a, text) != [] <==> Cites(a, text)
  {
    var cites := ExtractCitations(a, text);
    if !CitesWithin(a, text, n) {
      var i, j :| IsCitation(a, text, i, j) && !(1 <= Value(a, text[i + 1..j]) <= n);
      CitationsExactly(a, text, 0, Value(a, text[i + 1..j]));
    }
    if OutOfRange(cites, n) {
      var k :| 0 <= k < |cites| && (cites[k] < 1 || cites[k] > n);
      CitationsExactly(a, text, 0, cites[k]);
    }
    if cites != [] {
      CitationsExactly(a, text, 0, cites[0]);
    }
    if Cites(a, text) {
      var i, j :| IsCitation(a, text, i, j);
      CitationsExactly(a, text, 0, Value(a, text[i + 1..j]));
    }
  }

  /**
   With chunks at hand, "ok" means exactly that the answer cites and cites nothing out of range.
   Without chunks it also covers a substantive answer with no citation at all.
   */
  lemma ValidExactlyWhen(a: Alphabet, text: string, n: nat)
    ensures Validate(a, text, n).1 == Valid <==>
              CitesWithin(a, text, n)
                && (Cites(a, text) || (n == 0 && !LooksLikeAbstention(a, text) && IsSubstantive(a, text, 12)))
    ensures Validate(a, text, n).0 <==>
              CitesWithin(a, text, n)
                && (n == 0 || Cites(a, text) || LooksLikeAbstention(a, text) || !IsSubstantive(a, text, 12))
  {
    RangeMeaning(a, text, n);
  }
}
