/**
 * Ordinal string comparison (`StringComparison.Ordinal`): UTF-16 code unit by code unit, a
 * proper prefix first. A Dafny `char` is a Unicode scalar value, so a character above U+FFFF
 * is compared through its surrogate pair, as .NET holds it. Only the sign of .NET's result is
 * modelled, as -1, 0 or 1.
 */
module Ordinal {

  /** The UTF-16 code units of one character: itself below U+10000, else its surrogate pair. */
  function CodeUnits(c: char): (units: seq<int>)
    ensures |units| == 1 <==> c as int < 0x1_0000
    ensures |units| == 1 ==> units[0] == c as int
    ensures |units| == 2 ==>
              && 0xD800 <= units[0] < 0xDC00 <= units[1] < 0xE000
              && 0x1_0000 + (units[0] - 0xD800) * 0x400 + (units[1] - 0xDC00) == c as int
  {
    if c as int < 0x1_0000 then [c as int]
    else [0xD800 + (c as int - 0x1_0000) / 0x400, 0xDC00 + (c as int - 0x1_0000) % 0x400]
  }

  /** The UTF-16 form of a string: the code units of its characters, in order. */
  function Utf16(s: string): (units: seq<int>)
    ensures s == [] <==> units == []
  {
    if s == [] then [] else CodeUnits(s[0]) + Utf16(s[1..])
  }

  lemma {:induction false} Utf16Append(a: string, b: string)
    ensures Utf16(a + b) == Utf16(a) + Utf16(b)
    decreases |a|
  {
    if a != [] {
      assert (a + b)[0] == a[0] && (a + b)[1..] == a[1..] + b;
      Utf16Append(a[1..], b);
    } else {
      assert a + b == b;
    }
  }

  /** Different strings have different UTF-16 forms: no character's code units begin another's. */
  lemma {:induction false} Utf16Injective(a: string, b: string)
    requires Utf16(a) == Utf16(b)
    ensures a == b
    decreases |a|
  {
    if a != [] && b != [] {
      var x, y := CodeUnits(a[0]), CodeUnits(b[0]);
      assert Utf16(a)[0] == x[0] && Utf16(b)[0] == y[0];
      if |x| == 2 {
        assert Utf16(a)[1] == x[1] && Utf16(b)[1] == y[1];
      }
      assert a[0] == b[0];
      assert Utf16(a[1..]) == Utf16(a)[|x|..] == Utf16(b)[|y|..] == Utf16(b[1..]);
      Utf16Injective(a[1..], b[1..]);
    }
  }

  /** Lexicographic comparison of code unit sequences, a proper prefix first. */
  function CompareUnits(a: seq<int>, b: seq<int>): (r: int)
    ensures -1 <= r <= 1
    ensures r == 0 <==> a == b
  {
    if a == [] && b == [] then 0
    else if a == [] then -1
    else if b == [] then 1
    else if a[0] < b[0] then -1
    else if a[0] > b[0] then 1
    else
      var r := CompareUnits(a[1..], b[1..]);
      assert r == 0 ==> a == [a[0]] + a[1..] == [b[0]] + b[1..] == b;
      r
  }

  function CompareOrdinal(a: string, b: string): (r: int)
    ensures -1 <= r <= 1
    ensures r == 0 <==> a == b
  {
    var r := CompareUnits(Utf16(a), Utf16(b));
    assert r == 0 ==> a == b by {
      if r == 0 {
        Utf16Injective(a, b);
      }
    }
    r
  }

  lemma {:induction false} UnitsPrefixFirst(a: seq<int>, b: seq<int>)
    requires |a| < |b| && a == b[..|a|]
    ensures CompareUnits(a, b) == -1 && CompareUnits(b, a) == 1
  {
    if a != [] {
      assert a[1..] == b[1..][..|a| - 1];
      UnitsPrefixFirst(a[1..], b[1..]);
    }
  }

  lemma {:induction false} UnitsFirstDifference(a: seq<int>, b: seq<int>, k: nat)
    requires k < |a| && k < |b| && a[..k] == b[..k] && a[k] != b[k]
    ensures CompareUnits(a, b) == if a[k] < b[k] then -1 else 1
  {
    if k > 0 {
      assert a[0] == a[..k][0] == b[..k][0] == b[0];
      assert a[1..][..k - 1] == a[..k][1..] == b[..k][1..] == b[1..][..k - 1];
      UnitsFirstDifference(a[1..], b[1..], k - 1);
    }
  }

  /** A proper prefix sorts first. */
  lemma PrefixFirst(a: string, b: string)
    requires |a| < |b| && a == b[..|a|]
    ensures CompareOrdinal(a, b) == -1 && CompareOrdinal(b, a) == 1
  {
    var rest := b[|a|..];
    assert b == a + rest;
    Utf16Append(a, rest);
    assert Utf16(a) == Utf16(b)[..|Utf16(a)|];
    UnitsPrefixFirst(Utf16(a), Utf16(b));
  }

  /** Two different characters' code units part at a position both have. */
  lemma CodeUnitsDiverge(x: char, y: char) returns (j: nat)
    requires x != y
    ensures j < |CodeUnits(x)| && j < |CodeUnits(y)|
    ensures CodeUnits(x)[..j] == CodeUnits(y)[..j] && CodeUnits(x)[j] != CodeUnits(y)[j]
  {
    var u, v := CodeUnits(x), CodeUnits(y);
    if u[0] != v[0] {
      j := 0;
    } else {
      j := 1;
    }
  }

  /** A common prefix does not change the comparison. */
  lemma {:induction false} UnitsCommonPrefix(p: seq<int>, u: seq<int>, v: seq<int>)
    ensures CompareUnits(p + u, p + v) == CompareUnits(u, v)
    decreases |p|
  {
    if p == [] {
      assert p + u == u && p + v == v;
    } else {
      assert (p + u)[0] == p[0] == (p + v)[0];
      assert (p + u)[1..] == p[1..] + u && (p + v)[1..] == p[1..] + v;
      UnitsCommonPrefix(p[1..], u, v);
    }
  }

  /** Whatever follows two diverging code unit sequences does not matter. */
  lemma UnitsDecided(x: seq<int>, y: seq<int>, s: seq<int>, t: seq<int>, j: nat)
    requires j < |x| && j < |y| && x[..j] == y[..j] && x[j] != y[j]
    ensures CompareUnits(x + s, y + t) == CompareUnits(x, y)
  {
    assert (x + s)[..j] == x[..j] && (y + t)[..j] == y[..j];
    assert (x + s)[j] == x[j] && (y + t)[j] == y[j];
    UnitsFirstDifference(x + s, y + t, j);
    UnitsFirstDifference(x, y, j);
  }

  /** Otherwise the first differing character decides, through its code units. */
  lemma {:induction false} FirstDifference(a: string, b: string, k: nat)
    requires k < |a| && k < |b| && a[..k] == b[..k] && a[k] != b[k]
    ensures CompareOrdinal(a, b) == CompareOrdinal([a[k]], [b[k]])
    decreases k
  {
    if k == 0 {
      assert Utf16([a[0]]) == CodeUnits(a[0]) && Utf16([b[0]]) == CodeUnits(b[0]);
      var j := CodeUnitsDiverge(a[0], b[0]);
      UnitsDecided(CodeUnits(a[0]), CodeUnits(b[0]), Utf16(a[1..]), Utf16(b[1..]), j);
    } else {
      assert a[0] == a[..k][0] == b[..k][0] == b[0];
      assert a[1..][..k - 1] == a[..k][1..] == b[..k][1..] == b[1..][..k - 1];
      UnitsCommonPrefix(CodeUnits(a[0]), Utf16(a[1..]), Utf16(b[1..]));
      FirstDifference(a[1..], b[1..], k - 1);
    }
  }

  /** How two different characters are ordered: by code point when both lie below U+10000 or
      both above; otherwise a character above U+FFFF, whose first code unit is a high
      surrogate, sorts after U+0000-U+D7FF and before U+E000-U+FFFF. */
  lemma CharacterOrder(x: char, y: char)
    requires x != y
    ensures CompareOrdinal([x], [y]) ==
              if (x as int < 0x1_0000) == (y as int < 0x1_0000) then (if x < y then -1 else 1)
              else if x as int < 0x1_0000 then (if x as int < 0xD800 then -1 else 1)
              else (if y as int < 0xD800 then 1 else -1)
  {
    var u, v := CodeUnits(x), CodeUnits(y);
    assert Utf16([x]) == u && Utf16([y]) == v;
    var j := CodeUnitsDiverge(x, y);
    UnitsFirstDifference(u, v, j);
  }

  /** U+1F600 sorts before U+FF01, although its code point is the larger. */
  lemma SupplementaryBeforeHighBasicPlane()
    ensures CompareOrdinal("\U{1F600}", "\U{FF01}") == -1
  {
    CharacterOrder('\U{1F600}', '\U{FF01}');
  }

  lemma {:induction false} UnitsAntisymmetric(a: seq<int>, b: seq<int>)
    ensures CompareUnits(b, a) == -CompareUnits(a, b)
  {
    if a != [] && b != [] && a[0] == b[0] {
      UnitsAntisymmetric(a[1..], b[1..]);
    }
  }

  lemma Antisymmetric(a: string, b: string)
    ensures CompareOrdinal(b, a) == -CompareOrdinal(a, b)
  {
    UnitsAntisymmetric(Utf16(a), Utf16(b));
  }

  lemma {:induction false} UnitsTransitive(a: seq<int>, b: seq<int>, c: seq<int>)
    requires CompareUnits(a, b) <= 0 && CompareUnits(b, c) <= 0
    ensures CompareUnits(a, c) <= 0
    ensures CompareUnits(a, b) < 0 || CompareUnits(b, c) < 0 ==> CompareUnits(a, c) < 0
  {
    if a != [] && b != [] && c != [] && a[0] == b[0] == c[0] {
      UnitsTransitive(a[1..], b[1..], c[1..]);
    }
  }

  lemma Transitive(a: string, b: string, c: string)
    requires CompareOrdinal(a, b) <= 0 && CompareOrdinal(b, c) <= 0
    ensures CompareOrdinal(a, c) <= 0
    ensures CompareOrdinal(a, b) < 0 || CompareOrdinal(b, c) < 0 ==> CompareOrdinal(a, c) < 0
  {
    UnitsTransitive(Utf16(a), Utf16(b), Utf16(c));
  }
}
