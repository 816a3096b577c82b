/** The JavaScript string built-ins the controllers rely on (`trim`, `toLowerCase`,
    `replace` with a global regular expression, `split`, `startsWith`,
    `Number.prototype.toString`), written as functions on `seq<char>`. */
module Text {

  /** A character that JavaScript's `\s` matches; `String.prototype.trim` removes
      exactly these characters (WhiteSpace and LineTerminator of ECMAScript). */
  predicate IsSpace(c: char) {
    || c == ' ' || c == '\t' || c == '\n' || c == '\U{000B}' || c == '\U{000C}' || c == '\r'
    || c == '\U{00A0}' || c == '\U{1680}' || ('\U{2000}' <= c <= '\U{200A}')
    || c == '\U{2028}' || c == '\U{2029}' || c == '\U{202F}' || c == '\U{205F}'
    || c == '\U{3000}' || c == '\U{FEFF}'
  }

  predicate IsUpperAscii(c: char) { 'A' <= c <= 'Z' }

  predicate IsDigit(c: char) { '0' <= c <= '9' }

  // ---------------------------------------------------------------------------
  // trim

  /** Leading whitespace removed. */
  function TrimStart(s: string): (r: string)
    ensures |r| <= |s|
    decreases |s|
  {
    if |s| > 0 && IsSpace(s[0]) then TrimStart(s[1..]) else s
  }

  /** What `TrimStart` leaves is the suffix of `s` after its longest
      all-whitespace prefix. */
  lemma {:induction false} TrimStartShape(s: string)
    ensures TrimStart(s) == s[|s| - |TrimStart(s)|..]
    ensures forall i :: 0 <= i < |s| - |TrimStart(s)| ==> IsSpace(s[i])
    ensures TrimStart(s) == [] || !IsSpace(TrimStart(s)[0])
    decreases |s|
  {
    if |s| > 0 && IsSpace(s[0]) {
      TrimStartShape(s[1..]);
      var r := TrimStart(s);
      forall i | 0 <= i < |s| - |r| ensures IsSpace(s[i]) {
        if i > 0 {
          assert s[i] == s[1..][i - 1];
        }
      }
    }
  }

  /** Trailing whitespace removed. */
  function TrimEnd(s: string): (r: string)
    ensures |r| <= |s|
    decreases |s|
  {
    if |s| > 0 && IsSpace(s[|s| - 1]) then TrimEnd(s[..|s| - 1]) else s
  }

  /** What `TrimEnd` leaves is the prefix of `s` before its longest
      all-whitespace suffix. */
  lemma {:induction false} TrimEndShape(s: string)
    ensures TrimEnd(s) == s[..|TrimEnd(s)|]
    ensures forall i :: |TrimEnd(s)| <= i < |s| ==> IsSpace(s[i])
    ensures TrimEnd(s) == [] || !IsSpace(TrimEnd(s)[|TrimEnd(s)| - 1])
    decreases |s|
  {
    if |s| > 0 && IsSpace(s[|s| - 1]) {
      TrimEndShape(s[..|s| - 1]);
      var r := TrimEnd(s);
      forall i | |r| <= i < |s| ensures IsSpace(s[i]) {
        if i < |s| - 1 {
          assert s[i] == s[..|s| - 1][i];
        }
      }
    }
  }

  /** `s` neither starts nor ends with whitespace. */
  predicate IsTrimmed(s: string) {
    s == [] || (!IsSpace(s[0]) && !IsSpace(s[|s| - 1]))
  }

  /** `String.prototype.trim`. */
  function Trim(s: string): (r: string)
    ensures IsTrimmed(r)
    ensures |r| <= |s|
    ensures IsTrimmed(s) ==> r == s
  {
    var t := TrimStart(s);
    TrimStartShape(s);
    TrimEndShape(t);
    var r := TrimEnd(t);
    assert r != [] ==> r[0] == t[0];
    r
  }

  /** Every character of the trimmed string occurs in `s`. */
  lemma TrimKeepsChars(s: string)
    ensures forall i :: 0 <= i < |Trim(s)| ==> Trim(s)[i] in s
  {
    var t := TrimStart(s);
    TrimStartShape(s);
    TrimEndShape(t);
    var r := Trim(s);
    assert r == TrimEnd(t);
    forall i | 0 <= i < |r| ensures r[i] in s {
      assert r[i] == t[i] == s[|s| - |t| + i];
    }
  }

  // ---------------------------------------------------------------------------
  // toLowerCase (ASCII letters only)

  function LowerChar(c: char): (d: char)
    ensures !IsUpperAscii(d)
    ensures IsUpperAscii(c) || d == c
  {
    if IsUpperAscii(c) then (c as int + 32) as char else c
  }

  /** `String.prototype.toLowerCase`, restricted to the letters `A`-`Z`. */
  function ToLower(s: string): (r: string)
    ensures |r| == |s|
  {
    if s == [] then [] else [LowerChar(s[0])] + ToLower(s[1..])
  }

  /** Lower-casing works character by character. */
  lemma {:induction false} ToLowerChars(s: string)
    ensures forall i :: 0 <= i < |s| ==> ToLower(s)[i] == LowerChar(s[i])
  {
    if s != [] {
      ToLowerChars(s[1..]);
      forall i | 0 < i < |s| ensures ToLower(s)[i] == LowerChar(s[i]) {
        assert ToLower(s)[i] == ToLower(s[1..])[i - 1];
      }
    }
  }

  lemma {:induction false} ToLowerFixesLower(s: string)
    requires forall i :: 0 <= i < |s| ==> !IsUpperAscii(s[i])
    ensures ToLower(s) == s
  {
    if s != [] {
      ToLowerFixesLower(s[1..]);
    }
  }

  // ---------------------------------------------------------------------------
  // replace(/\s+/g, " ")

  /** Every whitespace character of `s` is a plain space and no two spaces are
      adjacent. */
  predicate IsSingleSpaced(s: string) {
    && (forall i :: 0 <= i < |s| && IsSpace(s[i]) ==> s[i] == ' ')
    && (forall i :: 0 <= i < |s| - 1 && s[i] == ' ' ==> s[i + 1] != ' ')
  }

  /** `s.replace(/\s+/g, " ")`: each maximal run of whitespace becomes one space. */
  function CollapseSpaces(s: string): (r: string)
    ensures |r| <= |s|
    ensures r == [] <==> s == []
    ensures r != [] ==> (IsSpace(r[0]) <==> IsSpace(s[0]))
    ensures IsSingleSpaced(r)
    decreases |s|
  {
    if s == [] then []
    else if IsSpace(s[0]) then
      TrimStartShape(s[1..]);
      [' '] + CollapseSpaces(TrimStart(s[1..]))
    else
      [s[0]] + CollapseSpaces(s[1..])
  }

  /** Every character of the collapsed string is a space or occurs in `s`. */
  lemma {:induction false} CollapseKeepsChars(s: string)
    ensures forall i :: 0 <= i < |CollapseSpaces(s)| ==> CollapseSpaces(s)[i] == ' ' || CollapseSpaces(s)[i] in s
    decreases |s|
  {
    if s != [] {
      var r := CollapseSpaces(s);
      var rest := if IsSpace(s[0]) then TrimStart(s[1..]) else s[1..];
      if IsSpace(s[0]) {
        TrimStartShape(s[1..]);
      }
      CollapseKeepsChars(rest);
      forall i | 0 < i < |r| ensures r[i] == ' ' || r[i] in s {
        assert r[i] == CollapseSpaces(rest)[i - 1];
        if r[i] != ' ' {
          var j :| 0 <= j < |rest| && rest[j] == r[i];
          assert rest[j] == s[|s| - |rest| + j];
        }
      }
    }
  }

  lemma {:induction false} CollapseFixesSingleSpaced(s: string)
    requires IsSingleSpaced(s)
    ensures CollapseSpaces(s) == s
    decreases |s|
  {
    if s != [] {
      assert IsSingleSpaced(s[1..]) by {
        assert forall i :: 0 <= i < |s[1..]| ==> s[1..][i] == s[i + 1];
      }
      if IsSpace(s[0]) {
        assert s[0] == ' ';
        assert s[1..] == [] || !IsSpace(s[1]);
        assert TrimStart(s[1..]) == s[1..];
      }
      CollapseFixesSingleSpaced(s[1..]);
    }
  }

  // ---------------------------------------------------------------------------
  // replace(/c/g, "")

  /** Every occurrence of `c` removed from `s`. */
  function RemoveAll(s: string, c: char): (r: string)
    ensures c !in r
    ensures c !in s ==> r == s
  {
    if s == [] then []
    else if s[0] == c then RemoveAll(s[1..], c)
    else [s[0]] + RemoveAll(s[1..], c)
  }

  /** Every character left occurs in `s`. */
  lemma {:induction false} RemoveAllKeepsChars(s: string, c: char)
    ensures forall i :: 0 <= i < |RemoveAll(s, c)| ==> RemoveAll(s, c)[i] in s
  {
    if s != [] {
      RemoveAllKeepsChars(s[1..], c);
      assert forall x :: x in s[1..] ==> x in s;
    }
  }

  // ---------------------------------------------------------------------------
  // split

  /** `s.split(sep)` for a one-character separator: the pieces between
      separators, always at least one (`"".split(",")` is `[""]`). */
  function Split(s: string, sep: char): (r: seq<string>)
    ensures |r| >= 1
  {
    if s == [] then [[]]
    else
      var rest := Split(s[1..], sep);
      if s[0] == sep then [[]] + rest
      else [[s[0]] + rest[0]] + rest[1..]
  }

  /** No piece holds the separator, and every character of a piece occurs in `s`. */
  lemma {:induction false} SplitPieces(s: string, sep: char)
    ensures forall i :: 0 <= i < |Split(s, sep)| ==> sep !in Split(s, sep)[i]
    ensures forall i, j :: 0 <= i < |Split(s, sep)| && 0 <= j < |Split(s, sep)[i]| ==> Split(s, sep)[i][j] in s
  {
    if s != [] {
      SplitPieces(s[1..], sep);
      var rest := Split(s[1..], sep);
      var r := Split(s, sep);
      forall i, j | 0 <= i < |r| && 0 <= j < |r[i]| ensures r[i][j] in s {
        if s[0] == sep {
          assert r[i][j] == rest[i - 1][j];
          assert rest[i - 1][j] in s[1..];
        } else if i == 0 {
          if j > 0 {
            assert r[0][j] == rest[0][j - 1];
            assert rest[0][j - 1] in s[1..];
          }
        } else {
          assert r[i][j] == rest[i][j];
          assert rest[i][j] in s[1..];
        }
      }
      forall i | 0 <= i < |r| ensures sep !in r[i] {
        if s[0] != sep && i == 0 {
          assert r[0] == [s[0]] + rest[0];
          assert sep !in rest[0];
        } else if s[0] != sep {
          assert r[i] == rest[i];
        } else if i > 0 {
          assert r[i] == rest[i - 1];
        }
      }
    }
  }

  /** `parts.join(sep)`. */
  function Join(parts: seq<string>, sep: char): string
  {
    if parts == [] then []
    else if |parts| == 1 then parts[0]
    else parts[0] + [sep] + Join(parts[1..], sep)
  }

  /** Splitting and re-joining on the same separator gives back the string. */
  lemma {:induction false} JoinSplit(s: string, sep: char)
    ensures Join(Split(s, sep), sep) == s
  {
    if s != [] {
      JoinSplit(s[1..], sep);
      var rest := Split(s[1..], sep);
      if s[0] == sep {
        assert Split(s, sep) == [[]] + rest;
        assert ([[]] + rest)[1..] == rest;
      } else {
        var r := [[s[0]] + rest[0]] + rest[1..];
        assert Split(s, sep) == r;
        if |rest| == 1 {
          assert Join(r, sep) == [s[0]] + rest[0];
        } else {
          assert r[1..] == rest[1..];
          assert Join(rest, sep) == rest[0] + [sep] + Join(rest[1..], sep);
        }
      }
    }
  }

  /** A string without the separator is one piece. */
  lemma {:induction false} SplitWithoutSep(s: string, sep: char)
    requires sep !in s
    ensures Split(s, sep) == [s]
  {
    if s != [] {
      SplitWithoutSep(s[1..], sep);
      assert s[0] != sep;
      assert [s[0]] + s[1..] == s;
    }
  }

  /** The pieces of `a + [sep] + b` are the pieces of `a` followed by those of `b`. */
  lemma {:induction false} SplitAtSep(a: string, b: string, sep: char)
    ensures Split(a + [sep] + b, sep) == Split(a, sep) + Split(b, sep)
  {
    if a == [] {
      assert [sep] + b == a + [sep] + b;
      assert ([sep] + b)[1..] == b;
    } else {
      var s := a + [sep] + b;
      assert s[1..] == a[1..] + [sep] + b;
      SplitAtSep(a[1..], b, sep);
    }
  }

  /** Splitting parts joined by a separator none of them contains gives the
      parts back. */
  lemma {:induction false} SplitJoin(parts: seq<string>, sep: char)
    requires parts != []
    requires forall i :: 0 <= i < |parts| ==> sep !in parts[i]
    ensures Split(Join(parts, sep), sep) == parts
    decreases |parts|
  {
    if |parts| == 1 {
      SplitWithoutSep(parts[0], sep);
    } else {
      SplitJoin(parts[1..], sep);
      SplitWithoutSep(parts[0], sep);
      SplitAtSep(parts[0], Join(parts[1..], sep), sep);
      assert [parts[0]] + parts[1..] == parts;
    }
  }

  // ---------------------------------------------------------------------------
  // Number.prototype.toString for integers

  function DigitChar(d: nat): (c: char)
    requires d < 10
    ensures IsDigit(c) && c as int - '0' as int == d
  {
    ('0' as int + d) as char
  }

  /** The decimal numeral of `n`, without leading zeros. */
  function NatToString(n: nat): (r: string)
    ensures |r| >= 1
  {
    if n < 10 then [DigitChar(n)] else NatToString(n / 10) + [DigitChar(n % 10)]
  }

  /** Every character of a numeral is a digit. */
  lemma {:induction false} NatToStringDigits(n: nat)
    ensures forall i :: 0 <= i < |NatToString(n)| ==> IsDigit(NatToString(n)[i])
  {
    if n >= 10 {
      NatToStringDigits(n / 10);
    }
  }

  /** The value of a string read as decimal digits, the last one the least
      significant. */
  function DigitsValue(s: string): int {
    if s == [] then 0
    else 10 * DigitsValue(s[..|s| - 1]) + (s[|s| - 1] as int - '0' as int)
  }

  /** A numeral read back as decimal digits is its number. */
  lemma {:induction false} DigitsValueOfNatToString(n: nat)
    ensures DigitsValue(NatToString(n)) == n
  {
    if n >= 10 {
      DigitsValueOfNatToString(n / 10);
      var s := NatToString(n);
      assert s[..|s| - 1] == NatToString(n / 10);
    }
  }

  /** `String(n)` for an integer `n`. */
  function IntToString(n: int): (r: string)
    ensures |r| >= 1
  {
    if n < 0 then "-" + NatToString(-n) else NatToString(n)
  }

  /** The numeral starts with a minus sign exactly for a negative number. */
  lemma IntToStringSign(n: int)
    ensures IntToString(n)[0] == '-' <==> n < 0
  {
    NatToStringDigits(if n < 0 then -n else n);
  }

  /** Different naturals have different numerals. */
  lemma NatToStringInjective(m: nat, n: nat)
    requires NatToString(m) == NatToString(n)
    ensures m == n
  {
    DigitsValueOfNatToString(m);
    DigitsValueOfNatToString(n);
  }

  /** Different integers have different numerals, so the integer can be read back. */
  lemma IntToStringInjective(a: int, b: int)
    requires IntToString(a) == IntToString(b)
    ensures a == b
  {
    IntToStringSign(a);
    IntToStringSign(b);
    if a < 0 {
      assert b < 0;
      assert IntToString(a)[1..] == NatToString(-a);
      assert IntToString(b)[1..] == NatToString(-b);
      NatToStringInjective(-a, -b);
    } else {
      NatToStringInjective(a, b);
    }
  }
}
