/**
 * String helpers with the semantics of the JavaScript string methods the editor calls:
 * `trim`, `split`, `toUpperCase` and the last element of a split (`split(sep).pop()`).
 */
module Text {

  /** The characters JavaScript's `trim` removes and its regex class `\s` matches:
      the WhiteSpace and LineTerminator code points of ECMAScript. */
  predicate IsWhitespace(c: char)
  {
    || c == ' ' || c == '\t' || c == '\n' || c == '\r'
    || c == '\U{000B}' || c == '\U{000C}' || c == '\U{00A0}' || c == '\U{1680}'
    || ('\U{2000}' <= c <= '\U{200A}')
    || c == '\U{2028}' || c == '\U{2029}' || c == '\U{202F}' || c == '\U{205F}'
    || c == '\U{3000}' || c == '\U{FEFF}'
  }

  predicate IsBlank(s: string)
  {
    forall i :: 0 <= i < |s| ==> IsWhitespace(s[i])
  }

  /** Drops leading whitespace. */
  function TrimStart(s: string): (r: string)
    ensures |r| <= |s|
    decreases |s|
  {
    if s == [] || !IsWhitespace(s[0]) then s else TrimStart(s[1..])
  }

  lemma {:induction false} TrimStartSpec(s: string)
    ensures var r := TrimStart(s);
      && |r| <= |s| && r == s[|s| - |r|..]
      && (r == [] || !IsWhitespace(r[0]))
      && IsBlank(s[..|s| - |r|])
    decreases |s|
  {
    if s != [] && IsWhitespace(s[0]) {
      TrimStartSpec(s[1..]);
      var r := TrimStart(s[1..]);
      assert s[1..][|s[1..]| - |r|..] == s[|s| - |r|..];
      assert s[1..][..|s[1..]| - |r|] == s[1..|s| - |r|];
      assert s[..|s| - |r|] == [s[0]] + s[1..|s| - |r|];
    }
  }

  /** Drops trailing whitespace. */
  function TrimEnd(s: string): string
    decreases |s|
  {
    if s == [] || !IsWhitespace(s[|s| - 1]) then s else TrimEnd(s[..|s| - 1])
  }

  lemma {:induction false} TrimEndSpec(s: string)
    ensures var r := TrimEnd(s);
      && |r| <= |s| && r == s[..|r|]
      && (r == [] || !IsWhitespace(r[|r| - 1]))
      && IsBlank(s[|r|..])
    decreases |s|
  {
    if s != [] && IsWhitespace(s[|s| - 1]) {
      TrimEndSpec(s[..|s| - 1]);
      var r := TrimEnd(s[..|s| - 1]);
      assert s[..|s| - 1][..|r|] == s[..|r|];
      assert s[..|s| - 1][|r|..] == s[|r|..|s| - 1];
      assert s[|r|..] == s[|r|..|s| - 1] + [s[|s| - 1]];
    }
  }

  /** `String.prototype.trim`. */
  function Trim(s: string): string
  {
    TrimEnd(TrimStart(s))
  }

  /** `trim` gives `s` with only a blank prefix and a blank suffix removed, and what it gives
      has no white space at either end. */
  lemma TrimSpec(s: string)
    ensures exists i, j :: 0 <= i <= j <= |s| && Trim(s) == s[i..j] && IsBlank(s[..i]) && IsBlank(s[j..])
    ensures Trim(s) == [] || (!IsWhitespace(Trim(s)[0]) && !IsWhitespace(Trim(s)[|Trim(s)| - 1]))
  {
    var a := TrimStart(s);
    TrimStartSpec(s);
    TrimEndSpec(a);
    var i := |s| - |a|;
    var j := i + |TrimEnd(a)|;
    TrimSlices(s, a, TrimEnd(a));
    assert Trim(s) == s[i..j] && IsBlank(s[..i]) && IsBlank(s[j..]);
  }

  /** Slicing step of `TrimSpec`: a blank-free middle cut out of a suffix of `s`. */
  lemma TrimSlices(s: string, a: string, r: string)
    requires |a| <= |s| && a == s[|s| - |a|..] && |r| <= |a| && r == a[..|r|]
    requires IsBlank(a[|r|..])
    ensures s[|s| - |a|..|s| - |a| + |r|] == r
    ensures IsBlank(s[|s| - |a| + |r|..])
  {
    assert s[|s| - |a| + |r|..] == a[|r|..];
  }

  /** A string trims to the empty string exactly when every character is whitespace. */
  lemma TrimEmptyIffBlank(s: string)
    ensures Trim(s) == [] <==> IsBlank(s)
  {
    var a := TrimStart(s);
    TrimStartSpec(s);
    TrimEndSpec(a);
    if Trim(s) == [] {
      assert IsBlank(a[0..]);
      assert s == s[..|s| - |a|] + a;
    } else {
      assert !IsWhitespace(Trim(s)[0]);
      assert Trim(s)[0] == a[0];
      assert a[0] == s[|s| - |a|];
    }
  }

  /** `length` of a JavaScript string: the number of UTF-16 code units, two for a character
      outside the Basic Multilingual Plane. */
  function Utf16Length(s: string): (n: nat)
    ensures |s| <= n <= 2 * |s|
    ensures (forall i :: 0 <= i < |s| ==> s[i] as int < 0x1_0000) ==> n == |s|
    ensures (forall i :: 0 <= i < |s| ==> s[i] as int >= 0x1_0000) ==> n == 2 * |s|
  {
    if s == [] then 0
    else Utf16Length(s[..|s| - 1]) + (if s[|s| - 1] as int < 0x1_0000 then 1 else 2)
  }

  /** `String.prototype.toUpperCase` restricted to ASCII letters. */
  function ToUpper(s: string): (r: string)
    ensures |r| == |s|
    ensures forall i :: 0 <= i < |s| ==> ('a' <= s[i] <= 'z' ==> r[i] as int == s[i] as int - 32)
    ensures forall i :: 0 <= i < |s| ==> (!('a' <= s[i] <= 'z') ==> r[i] == s[i])
  {
    seq(|s|, i requires 0 <= i < |s| => if 'a' <= s[i] <= 'z' then (s[i] as int - 32) as char else s[i])
  }

  /** Position of the first occurrence of `c` in `s`. */
  function IndexOf(s: string, c: char): (i: nat)
    requires c in s
    ensures i < |s| && s[i] == c && c !in s[..i]
  {
    if s[0] == c then 0 else 1 + IndexOf(s[1..], c)
  }

  /** Concatenation of `pieces` with `sep` between neighbours (`Array.prototype.join`). */
  function Join(pieces: seq<string>, sep: char): string
  {
    if pieces == [] then ""
    else if |pieces| == 1 then pieces[0]
    else pieces[0] + [sep] + Join(pieces[1..], sep)
  }

  /** `String.prototype.split` with a one-character separator: always at least one piece,
      no piece holds the separator, and joining the pieces gives back the input. */
  function Split(s: string, sep: char): (pieces: seq<string>)
    ensures |pieces| >= 1
    ensures forall i :: 0 <= i < |pieces| ==> sep !in pieces[i]
    ensures Join(pieces, sep) == s
    decreases |s|
  {
    if sep !in s then [s]
    else
      var i := IndexOf(s, sep);
      var rest := Split(s[i + 1..], sep);
      assert s == s[..i] + [sep] + s[i + 1..];
      [s[..i]] + rest
  }

  /** `s.split(sep).pop()`: the last piece of the split. */
  function LastPiece(s: string, sep: char): string
  {
    var pieces := Split(s, sep);
    pieces[|pieces| - 1]
  }

  /** `seg` is the text after the last `sep` in `s` (all of `s` when it holds no `sep`). */
  predicate IsTextAfterLast(seg: string, s: string, sep: char)
  {
    && |seg| <= |s| && seg == s[|s| - |seg|..]
    && sep !in seg
    && (|seg| < |s| ==> s[|s| - |seg| - 1] == sep)
  }

  /** The last piece of a split is the text after the last separator. */
  lemma {:induction false} LastPieceIsTextAfterLast(s: string, sep: char)
    ensures IsTextAfterLast(LastPiece(s, sep), s, sep)
    decreases |s|
  {
    if sep in s {
      var i := IndexOf(s, sep);
      var t := s[i + 1..];
      LastPieceIsTextAfterLast(t, sep);
      LastPieceSkipsFirst(s, sep);
      AfterLastExtends(s, i, LastPiece(t, sep), sep);
    } else {
      assert Split(s, sep) == [s];
    }
  }

  /** The last piece does not change when the text up to the first separator is dropped. */
  lemma LastPieceSkipsFirst(s: string, sep: char)
    requires sep in s
    ensures LastPiece(s, sep) == LastPiece(s[IndexOf(s, sep) + 1..], sep)
  {
    var i := IndexOf(s, sep);
    var rest := Split(s[i + 1..], sep);
    var pieces := [s[..i]] + rest;
    assert Split(s, sep) == pieces;
    assert pieces[|pieces| - 1] == rest[|rest| - 1];
  }

  /** The text after the last separator of a suffix that follows a separator is also the text
      after the last separator of the whole string. */
  lemma AfterLastExtends(s: string, i: int, seg: string, sep: char)
    requires 0 <= i < |s| && s[i] == sep && IsTextAfterLast(seg, s[i + 1..], sep)
    ensures IsTextAfterLast(seg, s, sep)
  {
    var t := s[i + 1..];
    assert s[|s| - |seg|..] == t[|t| - |seg|..];
    if |seg| < |t| {
      assert s[|s| - |seg| - 1] == t[|t| - |seg| - 1];
    }
  }

  /** No separator occurs in the part of `s` that the text after the last separator covers. */
  lemma NoSeparatorInTail(seg: string, s: string, sep: char)
    requires IsTextAfterLast(seg, s, sep)
    ensures forall j :: |s| - |seg| <= j < |s| ==> s[j] != sep
  {
    forall j | |s| - |seg| <= j < |s| ensures s[j] != sep {
      assert s[j] == seg[j - (|s| - |seg|)];
    }
  }

  /** The text after the last separator is determined by the string. */
  lemma TextAfterLastUnique(x: string, y: string, s: string, sep: char)
    requires IsTextAfterLast(x, s, sep) && IsTextAfterLast(y, s, sep)
    ensures x == y
  {
    NoSeparatorInTail(x, s, sep);
    NoSeparatorInTail(y, s, sep);
    if |x| < |s| {
      assert s[|s| - |x| - 1] == sep;
    }
    if |y| < |s| {
      assert s[|s| - |y| - 1] == sep;
    }
    assert |x| == |y|;
  }

  /** The number a string of decimal digits denotes, most significant digit first. */
  function DecimalValue(s: string): nat
    requires forall i :: 0 <= i < |s| ==> '0' <= s[i] <= '9'
  {
    if s == [] then 0 else 10 * DecimalValue(s[..|s| - 1]) + (s[|s| - 1] as int - '0' as int)
  }

  /** Decimal rendering of a natural number (template-literal interpolation of a number): digits
      with no leading zero that denote `n`. */
  function NatToString(n: nat): (r: string)
    ensures |r| >= 1
    ensures forall i :: 0 <= i < |r| ==> '0' <= r[i] <= '9'
    ensures |r| > 1 ==> r[0] != '0'
    ensures DecimalValue(r) == n
  {
    if n < 10 then [Digit(n)]
    else
      var p := NatToString(n / 10);
      var r := p + [Digit(n % 10)];
      assert r[..|r| - 1] == p;
      r
  }

  function Digit(d: nat): (c: char)
    requires d < 10
    ensures '0' <= c <= '9' && c as int - '0' as int == d
  {
    ('0' as int + d) as char
  }

  /** Different numbers are rendered differently. */
  lemma NatToStringInjective(m: nat, n: nat)
    ensures NatToString(m) == NatToString(n) ==> m == n
  {
  }
}
