/**
 * The record order (SortFile/DataComparer.cs): text after the first `". "` compared ordinally,
 * ties broken by the unsigned 64-bit number before it.
 */
module DataComparer {
  import opened Wrappers
  import opened Decimal
  import opened Spans
  import opened Ordinal
  import opened DataDescription
  import Sorting

  /** `FindDelimiterIndex`: the first `". "`, rejected with `ArgumentException` when it is missing
      or starts the record. */
  function FindDelimiterIndex(value: string): (r: Result<nat>)
    ensures r.Ok? ==> 0 < r.value && r.value + 2 <= |value|
    ensures r.Err? ==> r.error == Argument
  {
    var index := IndexOf(value, TextSeparator);
    if index <= 0 then Err(Argument) else Ok(index)
  }

  /** The separator found is the first one, and there is none only when the record holds no
      separator or starts with one. */
  lemma FindDelimiterIndexIsFirstSeparator(value: string)
    ensures var r := FindDelimiterIndex(value);
            && (r.Ok? <==> !OccursAt(value, TextSeparator, 0) && exists j :: OccursAt(value, TextSeparator, j))
            && (r.Ok? ==> OccursAt(value, TextSeparator, r.value)
                          && forall j :: 0 <= j < r.value ==> !OccursAt(value, TextSeparator, j))
  {
    IndexOfFirst(value, TextSeparator);
  }

  /** A record built from digits, the separator and a text splits back into them. */
  lemma RecordParts(digits: string, text: string)
    requires |digits| >= 1 && AllDigits(digits)
    ensures var record := digits + TextSeparator + text;
            && FindDelimiterIndex(record) == Ok(|digits|)
            && record[..|digits|] == digits
            && GetText(record, |digits|) == Ok(text)
  {
    var record := digits + TextSeparator + text;
    var n := |digits|;
    assert record[..n] == digits;
    assert record[n..n + 2] == TextSeparator;
    forall j | 0 <= j < n
      ensures !OccursAt(record, TextSeparator, j)
    {
      assert record[j] == digits[j] && IsDigit(digits[j]);
      if j + 2 <= |record| {
        assert record[j..j + 2][0] == record[j];
      }
    }
    IndexOfIs(record, TextSeparator, n);
    assert record[n + 2..] == text;
  }

  /** `GetText`: everything after the separator; a start past the end is out of range. */
  function GetText(value: string, delimiter: int): (r: Result<string>)
    ensures r.Ok? <==> 0 <= delimiter + TextSeparatorLength <= |value|
    ensures r.Ok? ==> value == value[..delimiter + 2] + r.value
    ensures r.Err? ==> r.error == ArgumentOutOfRange
  {
    if 0 <= delimiter + |TextSeparator| <= |value| then Ok(value[delimiter + |TextSeparator|..])
    else Err(ArgumentOutOfRange)
  }

  /** `GetNumber`: `UInt64.Parse` of everything before the separator. */
  function GetNumber(value: string, delimiter: int): (r: Result<nat>)
    ensures r.Ok? <==> 0 <= delimiter <= |value| && Parse(value[..delimiter]).Ok?
    ensures r.Ok? ==> r.value <= UInt64Max && r.value == DigitsValue(value[..delimiter])
  {
    if 0 <= delimiter <= |value| then Parse(value[..delimiter]) else Err(ArgumentOutOfRange)
  }

  /** `UInt64.CompareTo`. */
  function CompareNumbers(x: nat, y: nat): (r: int)
    ensures r == (if x < y then -1 else if x == y then 0 else 1)
  {
    if x < y then -1 else if x > y then 1 else 0
  }

  /** The four-argument `Compare`, with the separator positions already known. */
  function CompareAt(x: string, xDelimiterIndex: int, y: string, yDelimiterIndex: int): (r: Result<int>)
    ensures r.Ok? ==> -1 <= r.value <= 1
    ensures r.Ok? <==>
      && GetText(x, xDelimiterIndex).Ok? && GetText(y, yDelimiterIndex).Ok?
      && (GetText(x, xDelimiterIndex) != GetText(y, yDelimiterIndex)
          || (GetNumber(x, xDelimiterIndex).Ok? && GetNumber(y, yDelimiterIndex).Ok?))
  {
    var xtext :- GetText(x, xDelimiterIndex);
    var ytext :- GetText(y, yDelimiterIndex);
    var compareText := CompareOrdinal(xtext, ytext);
    if compareText != 0 then Ok(compareText)
    else
      var xnumber :- GetNumber(x, xDelimiterIndex);
      var ynumber :- GetNumber(y, yDelimiterIndex);
      Ok(CompareNumbers(xnumber, ynumber))
  }

  /** The two-argument `Compare`. */
  function Compare(x: string, y: string): (r: Result<int>)
    ensures FindDelimiterIndex(x).Err? || FindDelimiterIndex(y).Err? ==> r == Err(Argument)
    ensures FindDelimiterIndex(x).Ok? && FindDelimiterIndex(y).Ok? ==>
              r == CompareAt(x, FindDelimiterIndex(x).value, y, FindDelimiterIndex(y).value)
  {
    var xindex :- FindDelimiterIndex(x);
    var yindex :- FindDelimiterIndex(y);
    CompareAt(x, xindex, y, yindex)
  }

  /** A record the comparer accepts in every position: a separator after at least one
      character, and a number before it that `UInt64.Parse` accepts. */
  predicate WellFormed(value: string) {
    FindDelimiterIndex(value).Ok? && GetNumber(value, FindDelimiterIndex(value).value).Ok?
  }

  /** The text of a well-formed record. */
  function Text(value: string): string
    requires WellFormed(value)
  {
    GetText(value, FindDelimiterIndex(value).value).value
  }

  /** The number of a well-formed record. */
  function Number(value: string): nat
    requires WellFormed(value)
  {
    GetNumber(value, FindDelimiterIndex(value).value).value
  }

  /** `x` sorts before `y` or ties with it. */
  predicate Le(x: string, y: string) {
    WellFormed(x) && WellFormed(y) && Compare(x, y).value <= 0
  }

  /** When the texts differ, their ordinal order decides, whatever the prefixes are: an
      unparsable number raises no error then. */
  lemma TextDecides(x: string, y: string)
    requires FindDelimiterIndex(x).Ok? && FindDelimiterIndex(y).Ok?
    ensures var xt := x[FindDelimiterIndex(x).value + 2..];
            var yt := y[FindDelimiterIndex(y).value + 2..];
            xt != yt ==> Compare(x, y) == Ok(CompareOrdinal(xt, yt))
  {
  }

  /** When the texts are equal, the numbers decide, and an unparsable number is an error. */
  lemma NumberBreaksTies(x: string, y: string)
    requires FindDelimiterIndex(x).Ok? && FindDelimiterIndex(y).Ok?
    requires x[FindDelimiterIndex(x).value + 2..] == y[FindDelimiterIndex(y).value + 2..]
    ensures var xn := Parse(x[..FindDelimiterIndex(x).value]);
            var yn := Parse(y[..FindDelimiterIndex(y).value]);
            Compare(x, y) ==
              if xn.Err? then Err(xn.error)
              else if yn.Err? then Err(yn.error)
              else Ok(CompareNumbers(xn.value, yn.value))
  {
  }

  /** Records `"1. "` and `"5. "` followed by the same text: the smaller number first. */
  lemma TieBreakOn(text: string)
    ensures Compare("1. " + text, "5. " + text) == Ok(-1)
    ensures Compare("5. " + text, "1. " + text) == Ok(1)
  {
    var x, y := "1. " + text, "5. " + text;
    assert x[0..2][0] != TextSeparator[0] && x[1..3] == TextSeparator;
    assert y[0..2][0] != TextSeparator[0] && y[1..3] == TextSeparator;
    IndexOfIs(x, TextSeparator, 1);
    IndexOfIs(y, TextSeparator, 1);
    assert FindDelimiterIndex(x) == Ok(1) && FindDelimiterIndex(y) == Ok(1);
    assert x[3..] == text == y[3..];
    NumberBreaksTies(x, y);
    NumberBreaksTies(y, x);
    assert x[..1] == "1" && y[..1] == "5";
    assert DigitsValue("1") == 1 && DigitsValue("5") == 5 by {
      assert "1"[..0] == [] && "5"[..0] == [];
    }
  }

  /** `"1. apple"` sorts before `"5. apple"`: equal texts, smaller number first. */
  lemma TieBreakExample()
    ensures Compare("1. apple", "5. apple") == Ok(-1)
    ensures Compare("5. apple", "1. apple") == Ok(1)
  {
    TieBreakOn("apple");
    assert "1. " + "apple" == "1. apple" && "5. " + "apple" == "5. apple";
  }

  /** On well-formed records `Compare` is the lexicographic order of (text, number). */
  lemma CompareIsKeyOrder(x: string, y: string)
    requires WellFormed(x) && WellFormed(y)
    ensures Compare(x, y).Ok?
    ensures Compare(x, y).value < 0 <==>
              CompareOrdinal(Text(x), Text(y)) < 0 || (Text(x) == Text(y) && Number(x) < Number(y))
    ensures Compare(x, y).value == 0 <==> Text(x) == Text(y) && Number(x) == Number(y)
  {
  }

  lemma CompareReflexive(x: string)
    requires WellFormed(x)
    ensures Compare(x, x) == Ok(0)
  {
  }

  lemma CompareAntisymmetric(x: string, y: string)
    requires WellFormed(x) && WellFormed(y)
    ensures Compare(y, x).value == -Compare(x, y).value
  {
    Antisymmetric(Text(x), Text(y));
  }

  lemma CompareTransitive(x: string, y: string, z: string)
    requires Le(x, y) && Le(y, z)
    ensures Le(x, z)
    ensures Compare(x, y).value < 0 || Compare(y, z).value < 0 ==> Compare(x, z).value < 0
  {
    CompareIsKeyOrder(x, y);
    CompareIsKeyOrder(y, z);
    CompareIsKeyOrder(x, z);
    if Text(x) != Text(y) || Text(y) != Text(z) {
      Transitive(Text(x), Text(y), Text(z));
    }
  }

  /** `Le` is total on well-formed records. */
  lemma LeTotal(x: string, y: string)
    requires WellFormed(x) && WellFormed(y)
    ensures Le(x, y) || Le(y, x)
  {
    CompareAntisymmetric(x, y);
  }

  /** `y` sorts before `x` or ties with it: the order of the merge's reverse comparer. */
  predicate Ge(x: string, y: string) {
    Le(y, x)
  }

  /** The record order is a total preorder on well-formed records. */
  lemma LeTotalPreorder()
    ensures Sorting.TotalPreorderOn(WellFormed, Le)
  {
    forall x, y, z | WellFormed(x) && WellFormed(y) && WellFormed(z) && Le(x, y) && Le(y, z)
      ensures Le(x, z)
    {
      CompareTransitive(x, y, z);
    }
    forall x, y | WellFormed(x) && WellFormed(y) ensures Le(x, y) || Le(y, x) {
      LeTotal(x, y);
    }
  }

  /** So is its reverse. */
  lemma GeTotalPreorder()
    ensures Sorting.TotalPreorderOn(WellFormed, Ge)
  {
    forall x, y, z | WellFormed(x) && WellFormed(y) && WellFormed(z) && Ge(x, y) && Ge(y, z)
      ensures Ge(x, z)
    {
      CompareTransitive(z, y, x);
    }
    forall x, y | WellFormed(x) && WellFormed(y) ensures Ge(x, y) || Ge(y, x) {
      LeTotal(x, y);
    }
  }
}
