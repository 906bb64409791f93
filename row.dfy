/**
 * The parsed-once record (SortFile/Row.cs): a readonly struct over a slice of characters that
 * remembers where the number ends and what it is.
 */
module Rows {
  import opened Wrappers
  import opened Decimal
  import opened Spans
  import opened Ordinal
  import DataComparer
  import RowComparer
  import DataDescription

  const NumberSeparator: char := '.'
  /** The dot and the space after it. */
  const NumberSeparatorLength: nat := 2
  const TextMaxLength: nat := 1024

  /** A `ReadOnlyMemory<char>`: a window of `span` characters starting at `start` in the
      object numbered `owner`. Two memories are equal when they are the same window of the same
      object; their characters are not compared. */
  datatype Memory = Memory(owner: nat, start: nat, span: string)

  datatype Row = Row(data: Memory, textStart: nat, number: nat)

  /** `Row.MaxString`: the digits of `UInt64.MaxValue`, the separator, 1024 `'Z'`s and `'|'`. */
  function MaxString(): (s: string)
    ensures |s| == |ToDigits(UInt64Max)| + NumberSeparatorLength + TextMaxLength + 1
    ensures s == ToDigits(UInt64Max) + ". " + DataDescription.Repeat('Z', TextMaxLength) + "|"
  {
    ToDigits(UInt64Max) + ". " + DataDescription.Repeat('Z', TextMaxLength) + "|"
  }

  /** `Row.MaxStringLength`. */
  lemma MaxStringLength()
    ensures |MaxString()| == 1047
  {
    FormatUInt64Length(UInt64Max);
  }

  /** The constructor: `ArgumentException` when the first `'.'` is missing or first, or when the
      number before it does not parse (`UInt64.TryParse` fails). */
  function NewRow(data: Memory): (r: Result<Row>)
    ensures r.Ok? <==> IndexOfElement(data.span, NumberSeparator) > 0
                       && Parse(data.span[..IndexOfElement(data.span, NumberSeparator)]).Ok?
    ensures r.Err? ==> r.error == Argument
    ensures r.Ok? ==>
              && r.value.data == data
              && r.value.textStart == IndexOfElement(data.span, NumberSeparator)
              && r.value.textStart < |data.span| && data.span[r.value.textStart] == NumberSeparator
              && r.value.number <= UInt64Max
              && Parse(data.span[..r.value.textStart]) == Ok(r.value.number)
  {
    var textStart := IndexOfElement(data.span, NumberSeparator);
    if textStart <= 0 then Err(Argument)
    else match Parse(data.span[..textStart])
      case Err(_) => Err(Argument)
      case Ok(number) => Ok(Row(data, textStart, number))
  }

  /** `Text`: the characters from two past the `'.'` to the end; out of range when the `'.'` is
      the last character. */
  function Text(row: Row): (r: Result<string>)
    ensures r.Ok? <==> row.textStart + NumberSeparatorLength <= |row.data.span|
    ensures r.Ok? ==> row.data.span == row.data.span[..row.textStart + 2] + r.value
    ensures r.Err? ==> r.error == ArgumentOutOfRange
  {
    if row.textStart + NumberSeparatorLength <= |row.data.span|
    then Ok(row.data.span[row.textStart + NumberSeparatorLength..])
    else Err(ArgumentOutOfRange)
  }

  /** `CompareTo`: ordinal text first, then the number. */
  function CompareTo(row: Row, other: Row): (r: Result<int>)
    ensures r.Ok? <==> Text(row).Ok? && Text(other).Ok?
    ensures r.Ok? ==> -1 <= r.value <= 1
    ensures r.Ok? ==> (r.value == 0 <==> Text(row) == Text(other) && row.number == other.number)
    ensures r.Ok? && Text(row) != Text(other) ==> r.value == CompareOrdinal(Text(row).value, Text(other).value)
    ensures r.Ok? && Text(row) == Text(other) ==> (r.value < 0 <==> row.number < other.number)
  {
    var text :- Text(row);
    var otherText :- Text(other);
    var compareText := CompareOrdinal(text, otherText);
    if compareText != 0 then Ok(compareText)
    else Ok(DataComparer.CompareNumbers(row.number, other.number))
  }

  /** `Equals(Row)`: the same window of the same object. */
  predicate Equals(row: Row, other: Row) {
    row.data.owner == other.data.owner && row.data.start == other.data.start
    && |row.data.span| == |other.data.span|
  }

  predicate NotEquals(row: Row, other: Row) { !Equals(row, other) }

  function Less(left: Row, right: Row): (r: Result<bool>)
    ensures r.Ok? <==> CompareTo(left, right).Ok?
  {
    var c :- CompareTo(left, right); Ok(c < 0)
  }

  function LessOrEqual(left: Row, right: Row): (r: Result<bool>)
    ensures r.Ok? <==> CompareTo(left, right).Ok?
  {
    var c :- CompareTo(left, right); Ok(c <= 0)
  }

  function Greater(left: Row, right: Row): (r: Result<bool>)
    ensures r.Ok? <==> CompareTo(left, right).Ok?
  {
    var c :- CompareTo(left, right); Ok(c > 0)
  }

  function GreaterOrEqual(left: Row, right: Row): (r: Result<bool>)
    ensures r.Ok? <==> CompareTo(left, right).Ok?
  {
    var c :- CompareTo(left, right); Ok(c >= 0)
  }

  /** The relational operators agree with the sign of `CompareTo`, with each other and with the
      swapped comparison: `<=` is `<` or a tie, `>=` is not `<`, and `a < b` exactly when `b > a`. */
  lemma OperatorsConsistent(a: Row, b: Row)
    requires Text(a).Ok? && Text(b).Ok?
    ensures Less(a, b).value == (CompareTo(a, b).value < 0)
    ensures LessOrEqual(a, b).value == (CompareTo(a, b).value <= 0)
    ensures Greater(a, b).value == (CompareTo(a, b).value > 0)
    ensures GreaterOrEqual(a, b).value == (CompareTo(a, b).value >= 0)
    ensures LessOrEqual(a, b).value == (Less(a, b).value || CompareTo(a, b).value == 0)
    ensures GreaterOrEqual(a, b).value == !Less(a, b).value
    ensures Greater(a, b).value == !LessOrEqual(a, b).value
    ensures Less(a, b).value == Greater(b, a).value
    ensures NotEquals(a, b) == !Equals(a, b)
  {
    Antisymmetric(Text(a).value, Text(b).value);
  }

  /** `==` compares identity, not content: two rows parsed from equal characters held by
      different objects are not equal, although neither sorts before the other. */
  lemma EqualityIsIdentity()
    ensures var a := NewRow(Memory(1, 0, "7. x"));
            var b := NewRow(Memory(2, 0, "7. x"));
            a.Ok? && b.Ok? && !Equals(a.value, b.value) && CompareTo(a.value, b.value) == Ok(0)
  {
    var s := "7. x";
    assert s[0] != '.' && s[1] == '.';
    assert IndexOfElement(s, '.') == 1;
    assert s[..1] == "7";
    assert DigitsValue("7") == 7 by { assert "7"[..0] == []; }
  }

  /** For rows that could be built, `CompareTo` is the older comparer applied to their characters. */
  lemma AgreesWithRowComparer(a: Row, b: Row, x: Memory, y: Memory)
    requires NewRow(x) == Ok(a) && NewRow(y) == Ok(b)
    ensures CompareTo(a, b).Ok? <==> RowComparer.Compare(x.span, y.span).Ok?
    ensures CompareTo(a, b).Ok? ==> CompareTo(a, b) == RowComparer.Compare(x.span, y.span)
  {
  }
}
