/**
 * The record layout `"<UInt64>. <text>"` and its limits (Common/DataDescription.cs).
 * The source selects its limits with `#if DEBUG`; here the build configuration is a parameter.
 */
module DataDescription {
  import opened Decimal

  datatype Build = Debug | Release

  /** The 62 ASCII letters and digits, upper case first, then lower case, then digits. */
  const TextCharacters: string := UpperLetters + LowerLetters + DecimalDigits
  const UpperLetters: string := "ABCDEFGHIJKLMNOPQRSTUVWXYZ"
  const LowerLetters: string := "abcdefghijklmnopqrstuvwxyz"
  const DecimalDigits: string := "0123456789"

  predicate IsAlphanumeric(c: char) { 'A' <= c <= 'Z' || 'a' <= c <= 'z' || '0' <= c <= '9' }

  /** Dot and space. */
  const TextSeparator: string := ". "
  const TextSeparatorFirstCharacter: char := '.'
  const TextSeparatorSecondCharacter: char := ' '
  const TextSeparatorLength: nat := 2

  /** Written after the text of every generated record in the Debug build. */
  const LastTextCharacter: char := '|'

  function TextMinLength(build: Build): nat {
    if build == Debug then 4 else 16
  }

  function TextMaxLength(build: Build): nat {
    if build == Debug then 16 else 1024
  }

  function Repeat(c: char, count: nat): (s: string)
    ensures |s| == count && forall i :: 0 <= i < count ==> s[i] == c
  {
    seq(count, _ => c)
  }

  /** The longest record: the digits of `UInt64.MaxValue`, the separator, `TextMaxLength` letters
      `'Z'`, and in the Debug build the end-of-text marker. Every buffer is sized by it. */
  function MaxString(build: Build): (s: string)
    ensures |s| == |ToDigits(UInt64Max)| + TextSeparatorLength + TextMaxLength(build)
                   + (if build == Debug then 1 else 0)
  {
    var core := ToDigits(UInt64Max) + TextSeparator + Repeat('Z', TextMaxLength(build));
    if build == Debug then core + [LastTextCharacter] else core
  }

  /** The separator constants describe the same two characters. */
  lemma SeparatorConstantsAgree()
    ensures TextSeparator == [TextSeparatorFirstCharacter, TextSeparatorSecondCharacter]
    ensures |TextSeparator| == TextSeparatorLength
  {
  }

  /** The text alphabet is exactly 62 ASCII letters and digits. */
  lemma TextCharactersAlphanumeric()
    ensures |TextCharacters| == 62
    ensures forall i :: 0 <= i < |TextCharacters| ==> IsAlphanumeric(TextCharacters[i])
  {
    assert forall i :: 0 <= i < |UpperLetters| ==> 'A' <= UpperLetters[i] <= 'Z';
    assert forall i :: 0 <= i < |LowerLetters| ==> 'a' <= LowerLetters[i] <= 'z';
    assert forall i :: 0 <= i < |DecimalDigits| ==> '0' <= DecimalDigits[i] <= '9';
  }

  /** Generated text never contains a character of the separator. */
  lemma TextCharactersExcludeSeparator()
    ensures TextSeparatorFirstCharacter !in TextCharacters
    ensures TextSeparatorSecondCharacter !in TextCharacters
  {
    TextCharactersAlphanumeric();
  }

  /** The Debug end-of-text marker is not a text character (the Debug-only assertion of the
      static constructor). */
  lemma TextCharactersExcludeLastTextCharacter()
    ensures LastTextCharacter !in TextCharacters
  {
    TextCharactersAlphanumeric();
  }

  lemma TextLengthBounds(build: Build)
    ensures 0 < TextMinLength(build) <= TextMaxLength(build)
  {
  }

  /** The longest record is 22 characters plus the text (plus the Debug marker). */
  lemma MaxStringLength(build: Build)
    ensures |MaxString(build)| == 22 + TextMaxLength(build) + (if build == Debug then 1 else 0)
  {
    FormatUInt64Length(UInt64Max);
  }
}
