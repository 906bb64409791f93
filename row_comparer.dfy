/**
 * The older comparer (SortFile/RowComparer.cs): the number ends at the first `'.'`, and the
 * text starts two characters later, whatever the character after the `'.'` is.
 */
module RowComparer {
  import opened Wrappers
  import opened Decimal
  import opened Spans
  import opened Ordinal
  import DataComparer
  import DataDescription

  const NumberSeparator: char := '.'
  /** The dot and the space after it. */
  const NumberSeparatorLength: nat := 2

  /** `GetText`: the text and, as the `out` parameter, the index of the first `'.'`. */
  function GetText(value: string): (r: Result<(string, nat)>)
    ensures r.Ok? <==> 0 < IndexOfElement(value, NumberSeparator) <= |value| - NumberSeparatorLength
    ensures r.Ok? ==> var (text, delimiter) := r.value;
              0 < delimiter && delimiter + NumberSeparatorLength <= |value| && value[delimiter] == NumberSeparator
              && (forall j :: 0 <= j < delimiter ==> value[j] != NumberSeparator)
              && text == value[delimiter + NumberSeparatorLength..]
    ensures r == Err(Argument) <==> IndexOfElement(value, NumberSeparator) <= 0
    ensures r == Err(ArgumentOutOfRange) <==> IndexOfElement(value, NumberSeparator) == |value| - 1 > 0
  {
    var delimiter := IndexOfElement(value, NumberSeparator);
    if delimiter <= 0 then Err(Argument)
    else if delimiter + NumberSeparatorLength > |value| then Err(ArgumentOutOfRange)
    else Ok((value[delimiter + NumberSeparatorLength..], delimiter))
  }

  function GetNumber(value: string, delimiter: nat): (r: Result<nat>)
    requires delimiter <= |value|
    ensures r.Ok? ==> r.value <= UInt64Max
  {
    Parse(value[..delimiter])
  }

  function Compare(x: string, y: string): (r: Result<int>)
    ensures r.Ok? ==> -1 <= r.value <= 1
    ensures GetText(x).Err? ==> r == Err(GetText(x).error)
    ensures GetText(x).Ok? && GetText(y).Err? ==> r == Err(GetText(y).error)
    ensures GetText(x).Ok? && GetText(y).Ok? && GetText(x).value.0 != GetText(y).value.0 ==>
              r == Ok(CompareOrdinal(GetText(x).value.0, GetText(y).value.0))
    ensures GetText(x).Ok? && GetText(y).Ok? && GetText(x).value.0 == GetText(y).value.0 ==>
              var xnumber := GetNumber(x, GetText(x).value.1);
              var ynumber := GetNumber(y, GetText(y).value.1);
              && (r.Ok? <==> xnumber.Ok? && ynumber.Ok?)
              && (xnumber.Err? ==> r == Err(xnumber.error))
              && (xnumber.Ok? && ynumber.Err? ==> r == Err(ynumber.error))
              && (r.Ok? ==> (r.value < 0 <==> xnumber.value < ynumber.value)
                            && (r.value == 0 <==> xnumber.value == ynumber.value))
  {
    var (xtext, xdelimiter) :- GetText(x);
    var (ytext, ydelimiter) :- GetText(y);
    var compareText := CompareOrdinal(xtext, ytext);
    if compareText != 0 then Ok(compareText)
    else
      var xnumber :- GetNumber(x, xdelimiter);
      var ynumber :- GetNumber(y, ydelimiter);
      Ok(DataComparer.CompareNumbers(xnumber, ynumber))
  }

  /** The first `". "` of a record whose first `'.'` is followed by a space starts at that `'.'`. */
  lemma DotSpaceDelimiter(value: string)
    requires 0 < IndexOfElement(value, NumberSeparator) < |value| - 1
    requires value[IndexOfElement(value, NumberSeparator) + 1] == ' '
    ensures DataComparer.FindDelimiterIndex(value) == Ok(IndexOfElement(value, NumberSeparator))
  {
    var d := IndexOfElement(value, NumberSeparator);
    assert value[d..d + 2] == DataDescription.TextSeparator;
    forall j | 0 <= j < d
      ensures !OccursAt(value, DataDescription.TextSeparator, j)
    {
      assert value[j..j + 2][0] == value[j] != '.';
    }
    IndexOfIs(value, DataDescription.TextSeparator, d);
  }

  /** On records whose first `'.'` is followed by a space, both comparers agree. */
  lemma AgreesWithDataComparer(x: string, y: string)
    requires 0 < IndexOfElement(x, NumberSeparator) < |x| - 1 && x[IndexOfElement(x, NumberSeparator) + 1] == ' '
    requires 0 < IndexOfElement(y, NumberSeparator) < |y| - 1 && y[IndexOfElement(y, NumberSeparator) + 1] == ' '
    ensures Compare(x, y) == DataComparer.Compare(x, y)
  {
    DotSpaceDelimiter(x);
    DotSpaceDelimiter(y);
  }

  /** The two comparers differ on a record whose `'.'` is not followed by a space: the older one
      skips whatever character follows the dot, the newer one finds no separator. */
  lemma DisagreesWithoutSpace()
    ensures Compare("1.xb", "2. a") == Ok(1)
    ensures DataComparer.Compare("1.xb", "2. a") == Err(Argument)
  {
    var x := "1.xb";
    assert x[0] != '.' && x[1] == '.';
    assert IndexOfElement(x, '.') == 1;
    assert "2. a"[0] != '.' && "2. a"[1] == '.';
    assert IndexOfElement("2. a", '.') == 1;
    assert x[3..] == "b" && "2. a"[3..] == "a";
    assert CompareOrdinal("b", "a") == 1;
    forall j ensures !OccursAt(x, DataDescription.TextSeparator, j) {
      if 0 <= j && j + 2 <= |x| {
        assert x[j..j + 2][1] == x[j + 1];
      }
    }
    IndexOfNone(x, DataDescription.TextSeparator);
  }
}
