/** Values and string operations shared by every part of the bot: optional values,
    results, 8-bit integers, and the Go standard-library string functions the source
    calls (strings.HasPrefix, strings.Split, strings.Join, strings.TrimSpace,
    slices.Index, slices.Delete, fmt's %d and %02x, len on a UTF-8 string). */
module Common {

  datatype Option<+T> = None | Some(value: T)

  datatype Result<+T, +E> = Ok(value: T) | Err(error: E)

  /** Go's uint8. */
  type uint8 = x: int | 0 <= x < 256

  // ---------------------------------------------------------------------------
  // Prefixes and substrings

  /** strings.HasPrefix */
  predicate HasPrefix(s: string, p: string) {
    |p| <= |s| && s[..|p|] == p
  }

  /** strings.TrimPrefix: removes one leading copy of p, if there is one. */
  function TrimPrefix(s: string, p: string): (r: string)
    ensures HasPrefix(s, p) ==> p + r == s
    ensures !HasPrefix(s, p) ==> r == s
  {
    if HasPrefix(s, p) then s[|p|..] else s
  }

  /** strings.Contains: sub occurs somewhere in s. */
  predicate ContainsSubstring(s: string, sub: string)
    decreases |s|
  {
    HasPrefix(s, sub) || (|s| > 0 && ContainsSubstring(s[1..], sub))
  }

  lemma {:induction false} ContainsSubstringAt(s: string, i: nat, sub: string)
    requires i + |sub| <= |s| && s[i..i + |sub|] == sub
    ensures ContainsSubstring(s, sub)
    decreases i
  {
    if i > 0 {
      assert s[1..][i - 1..i - 1 + |sub|] == s[i..i + |sub|];
      ContainsSubstringAt(s[1..], i - 1, sub);
    }
  }

  // ---------------------------------------------------------------------------
  // Searching and deleting in slices

  /** slices.Index: the first position of x in xs, or -1. */
  function IndexOf<T(==)>(xs: seq<T>, x: T): (i: int)
    ensures -1 <= i < |xs|
    ensures i == -1 <==> x !in xs
    ensures 0 <= i ==> xs[i] == x && x !in xs[..i]
  {
    if xs == [] then -1
    else if xs[0] == x then 0
    else
      var j := IndexOf(xs[1..], x);
      assert xs[1..][..(if j < 0 then 0 else j)] == xs[1..(if j < 0 then 1 else j + 1)];
      if j == -1 then -1 else j + 1
  }

  /** slices.Delete(xs, i, i+1) at i = slices.Index(xs, x): drops the first x, if any. */
  function RemoveFirst<T(==)>(xs: seq<T>, x: T): (r: seq<T>)
    ensures x !in xs ==> r == xs
    ensures x in xs ==> |r| == |xs| - 1
  {
    var i := IndexOf(xs, x);
    if i == -1 then xs else xs[..i] + xs[i + 1..]
  }

  /** Removing the first occurrence keeps everything before it and everything after it,
      in order, and takes exactly one x out of the multiset of elements. */
  lemma RemoveFirstSplits<T>(xs: seq<T>, x: T, i: nat)
    requires i < |xs| && xs[i] == x && x !in xs[..i]
    ensures RemoveFirst(xs, x) == xs[..i] + xs[i + 1..]
    ensures multiset(RemoveFirst(xs, x)) == multiset(xs) - multiset{x}
  {
    var j := IndexOf(xs, x);
    forall k | 0 <= k < i ensures xs[k] != x {
      assert xs[..i][k] == xs[k];
    }
    forall k | 0 <= k < j ensures xs[k] != x {
      assert xs[..j][k] == xs[k];
    }
    assert xs == xs[..i] + [x] + xs[i + 1..];
  }

  // ---------------------------------------------------------------------------
  // Splitting and joining on a separator

  /** strings.Split(s, string(sep)) for a one-character separator. */
  function Split(s: string, sep: char): (parts: seq<string>)
    ensures |parts| >= 1
    decreases |s|
  {
    if sep !in s then [s]
    else
      var i := IndexOf(s, sep);
      [s[..i]] + Split(s[i + 1..], sep)
  }

  /** strings.Join */
  function Join(parts: seq<string>, sep: string): (s: string)
  {
    if parts == [] then ""
    else if |parts| == 1 then parts[0]
    else parts[0] + sep + Join(parts[1..], sep)
  }

  /** The number of times c occurs in s. */
  function Count(s: string, c: char): nat
  {
    if s == [] then 0 else (if s[0] == c then 1 else 0) + Count(s[1..], c)
  }

  lemma {:induction false} CountAppend(a: string, b: string, c: char)
    ensures Count(a + b, c) == Count(a, c) + Count(b, c)
  {
    if a == [] {
      assert a + b == b;
    } else {
      assert (a + b)[0] == a[0] && (a + b)[1..] == a[1..] + b;
      CountAppend(a[1..], b, c);
    }
  }

  lemma {:induction false} CountAbsent(s: string, c: char)
    requires c !in s
    ensures Count(s, c) == 0
  {
    if s != [] {
      CountAbsent(s[1..], c);
    }
  }

  /** Splitting on a character and joining back with it gives the original string. */
  lemma {:induction false} SplitJoin(s: string, sep: char)
    ensures Join(Split(s, sep), [sep]) == s
    decreases |s|
  {
    if sep in s {
      var i := IndexOf(s, sep);
      var head, rest := s[..i], s[i + 1..];
      SplitJoin(rest, sep);
      var tail := Split(rest, sep);
      var parts := Split(s, sep);
      assert parts == [s[..i]] + Split(s[i + 1..], sep);
      assert |parts| >= 2 && parts[0] == head && parts[1..] == tail;
      assert Join(parts, [sep]) == head + [sep] + Join(tail, [sep]);
      assert s == head + [sep] + rest;
    }
  }

  /** There is one more part than there are separators. */
  lemma {:induction false} SplitCount(s: string, sep: char)
    ensures |Split(s, sep)| == Count(s, sep) + 1
    decreases |s|
  {
    if sep !in s {
      CountAbsent(s, sep);
    } else {
      var i := IndexOf(s, sep);
      var head, rest := s[..i], s[i + 1..];
      SplitCount(rest, sep);
      assert s == head + ([sep] + rest);
      SeparatorCount(head, rest, sep);
    }
  }

  lemma SeparatorCount(head: string, rest: string, sep: char)
    requires sep !in head
    ensures Count(head + ([sep] + rest), sep) == 1 + Count(rest, sep)
  {
    CountAppend(head, [sep] + rest, sep);
    CountAppend([sep], rest, sep);
    CountAbsent(head, sep);
  }

  // ---------------------------------------------------------------------------
  // Decimal and hexadecimal formatting

  predicate IsDigit(c: char) {
    '0' <= c <= '9'
  }

  function DigitChar(d: nat): (c: char)
    requires d < 10
    ensures IsDigit(c)
  {
    (('0' as int) + d) as char
  }

  /** fmt's %d for a non-negative integer. */
  function Decimal(n: nat): (s: string)
    ensures 1 <= |s|
    ensures forall c <- s :: IsDigit(c)
    decreases n
  {
    if n < 10 then [DigitChar(n)] else Decimal(n / 10) + [DigitChar(n % 10)]
  }

  /** The value of a string of decimal digits. */
  function DigitsValue(s: string): nat
    requires forall c <- s :: IsDigit(c)
  {
    if s == [] then 0
    else
      assert s[|s| - 1] in s;
      assert IsDigit(s[|s| - 1]);
      var last: nat := s[|s| - 1] as int - '0' as int;
      DigitsValue(s[..|s| - 1]) * 10 + last
  }

  /** Reading back what %d wrote gives the number. */
  lemma {:induction false} DecimalRoundTrip(n: nat)
    ensures DigitsValue(Decimal(n)) == n
    decreases n
  {
    if n >= 10 {
      DecimalRoundTrip(n / 10);
      var s := Decimal(n);
      assert s[..|s| - 1] == Decimal(n / 10);
    }
  }

  /** %d writes two digits exactly for the numbers 10 to 99. */
  lemma DecimalTwoDigits(n: nat)
    requires 10 <= n < 100
    ensures |Decimal(n)| == 2
  {
  }

  /** fmt's %0<width>d for a non-negative integer: left-padded with zeros. */
  function ZeroPad(n: nat, width: nat): (s: string)
    ensures |s| == if |Decimal(n)| < width then width else |Decimal(n)|
    ensures forall c <- s :: IsDigit(c)
  {
    var d := Decimal(n);
    if |d| < width then seq(width - |d|, _ => '0') + d else d
  }

  /** Leading zeros do not change the value of a digit string. */
  lemma {:induction false} LeadingZeros(k: nat, d: string)
    requires forall c <- d :: IsDigit(c)
    ensures forall c <- seq(k, _ => '0') + d :: IsDigit(c)
    ensures DigitsValue(seq(k, _ => '0') + d) == DigitsValue(d)
    decreases |d|
  {
    var z := seq(k, _ => '0');
    if d == [] {
      assert z + d == z;
      ZerosValue(k);
    } else {
      assert (z + d)[..|z + d| - 1] == z + d[..|d| - 1];
      LeadingZeros(k, d[..|d| - 1]);
    }
  }

  lemma {:induction false} ZerosValue(k: nat)
    ensures DigitsValue(seq(k, _ => '0')) == 0
  {
    if k > 0 {
      assert seq(k, _ => '0')[..k - 1] == seq(k - 1, _ => '0');
      ZerosValue(k - 1);
    }
  }

  /** Reading back a zero-padded number gives the number. */
  lemma ZeroPadRoundTrip(n: nat, width: nat)
    ensures DigitsValue(ZeroPad(n, width)) == n
  {
    DecimalRoundTrip(n);
    var d := Decimal(n);
    if |d| < width {
      LeadingZeros(width - |d|, d);
    }
  }

  function HexDigit(d: nat): (c: char)
    requires d < 16
  {
    if d < 10 then DigitChar(d) else (('a' as int) + d - 10) as char
  }

  predicate IsLowerHex(c: char) {
    IsDigit(c) || 'a' <= c <= 'f'
  }

  function HexValue(c: char): nat
    requires IsLowerHex(c)
  {
    if IsDigit(c) then c as int - '0' as int else c as int - 'a' as int + 10
  }

  /** fmt's %02x for a byte: two lower-case hexadecimal digits. */
  function Hex2(b: uint8): (s: string)
    ensures |s| == 2 && IsLowerHex(s[0]) && IsLowerHex(s[1])
    ensures HexValue(s[0]) * 16 + HexValue(s[1]) == b
  {
    [HexDigit(b / 16), HexDigit(b % 16)]
  }

  // ---------------------------------------------------------------------------
  // Byte length of a Go string (UTF-8)

  /** The number of bytes UTF-8 uses for c. */
  function Utf8Width(c: char): nat
  {
    if c as int < 0x80 then 1
    else if c as int < 0x800 then 2
    else if c as int < 0x10000 then 3
    else 4
  }

  /** Go's len on a string: its length in UTF-8 bytes. */
  function ByteLen(s: string): nat
  {
    if s == [] then 0 else Utf8Width(s[0]) + ByteLen(s[1..])
  }

  lemma {:induction false} ByteLenAppend(a: string, b: string)
    ensures ByteLen(a + b) == ByteLen(a) + ByteLen(b)
  {
    if a == [] {
      assert a + b == b;
    } else {
      assert (a + b)[0] == a[0] && (a + b)[1..] == a[1..] + b;
      ByteLenAppend(a[1..], b);
    }
  }

  /** An ASCII string has as many bytes as characters. */
  lemma {:induction false} ByteLenAscii(s: string)
    requires forall c <- s :: c as int < 0x80
    ensures ByteLen(s) == |s|
  {
    if s != [] {
      assert s[0] in s;
      assert forall c <- s[1..] :: c in s;
      ByteLenAscii(s[1..]);
    }
  }

  // ---------------------------------------------------------------------------
  // Key order

  /** bytes.Compare(a, b) < 0 on the UTF-8 encodings: UTF-8 keeps code-point order, so
      this is lexicographic order on the characters, a proper prefix first. */
  predicate Below(a: string, b: string) {
    if a == [] then b != []
    else if b == [] then false
    else if a[0] != b[0] then a[0] < b[0]
    else Below(a[1..], b[1..])
  }

  lemma {:induction false} BelowIrreflexive(a: string)
    ensures !Below(a, a)
  {
    if a != [] {
      BelowIrreflexive(a[1..]);
    }
  }

  lemma {:induction false} BelowTransitive(a: string, b: string, c: string)
    requires Below(a, b) && Below(b, c)
    ensures Below(a, c)
  {
    if a != [] && a[0] == b[0] && b[0] == c[0] {
      BelowTransitive(a[1..], b[1..], c[1..]);
    }
  }

  lemma BelowAsymmetric(a: string, b: string)
    ensures !(Below(a, b) && Below(b, a))
  {
    if Below(a, b) && Below(b, a) {
      BelowTransitive(a, b, a);
      BelowIrreflexive(a);
    }
  }

  lemma {:induction false} BelowTotal(a: string, b: string)
    ensures a == b || Below(a, b) || Below(b, a)
  {
    if a != [] && b != [] && a[0] == b[0] {
      BelowTotal(a[1..], b[1..]);
      assert a == [a[0]] + a[1..] && b == [b[0]] + b[1..];
    }
  }

  /** The least of a non-empty set of keys. */
  predicate IsLeast(x: string, keys: set<string>) {
    x in keys && forall k <- keys :: k == x || Below(x, k)
  }

  /** Every non-empty set of keys has a least one. */
  lemma {:induction false} LeastExists(keys: set<string>)
    requires keys != {}
    ensures exists x :: IsLeast(x, keys)
    decreases |keys|
  {
    var y :| y in keys;
    if keys == {y} {
      assert IsLeast(y, keys);
    } else {
      var rest := keys - {y};
      LeastExists(rest);
      var z :| IsLeast(z, rest);
      BelowTotal(y, z);
      if Below(y, z) {
        forall k <- keys ensures k == y || Below(y, k) {
          if k != y && k != z {
            BelowTransitive(y, z, k);
          }
        }
        assert IsLeast(y, keys);
      } else {
        assert IsLeast(z, keys);
      }
    }
  }

  // ---------------------------------------------------------------------------
  // White space and case

  /** unicode.IsSpace, which strings.TrimSpace uses. */
  predicate IsUnicodeSpace(c: char) {
    c == '\t' || c == '\n' || c == '\U{000B}' || c == '\U{000C}' || c == '\r' || c == ' '
    || c == '\U{0085}' || c == '\U{00A0}' || c == '\U{1680}'
    || ('\U{2000}' <= c <= '\U{200A}') || c == '\U{2028}' || c == '\U{2029}'
    || c == '\U{202F}' || c == '\U{205F}' || c == '\U{3000}'
  }

  /** Every character is white space. */
  predicate AllSpace(t: string) {
    forall c <- t :: IsUnicodeSpace(c)
  }

  /** strings.TrimSpace: the input with its leading and trailing white space cut off.
      What is cut is white space, and what is left neither starts nor ends with it. */
  function TrimSpace(s: string): (r: string)
    ensures |r| <= |s|
    ensures r != [] ==> !IsUnicodeSpace(r[0]) && !IsUnicodeSpace(r[|r| - 1])
    ensures exists i, j :: 0 <= i <= j <= |s| && r == s[i..j] && AllSpace(s[..i]) && AllSpace(s[j..])
  {
    var t := TrimLeft(s);
    var r := TrimRight(t);
    assert exists i, j :: 0 <= i <= j <= |s| && r == s[i..j] && AllSpace(s[..i]) && AllSpace(s[j..]) by {
      var i :| 0 <= i <= |s| && t == s[i..] && AllSpace(s[..i]);
      var j :| 0 <= j <= |t| && r == t[..j] && AllSpace(t[j..]);
      TrimmedSlice(s, i, j);
    }
    r
  }

  lemma TrimmedSlice(s: string, i: nat, j: nat)
    requires i <= |s| && j <= |s| - i && AllSpace(s[..i]) && AllSpace(s[i..][j..])
    ensures s[i..][..j] == s[i..i + j] && AllSpace(s[i + j..])
  {
    assert s[i + j..] == s[i..][j..];
  }

  /** strings.TrimLeftFunc with unicode.IsSpace: only leading white space is cut. */
  function TrimLeft(s: string): (r: string)
    ensures r != [] ==> !IsUnicodeSpace(r[0])
    ensures exists i :: 0 <= i <= |s| && r == s[i..] && AllSpace(s[..i])
    decreases |s|
  {
    if s != [] && IsUnicodeSpace(s[0]) then
      var r := TrimLeft(s[1..]);
      assert exists i :: 0 <= i <= |s| && r == s[i..] && AllSpace(s[..i]) by {
        var i :| 0 <= i <= |s[1..]| && r == s[1..][i..] && AllSpace(s[1..][..i]);
        SpacePrefixGrows(s, i);
      }
      r
    else
      assert s == s[0..] && s[..0] == [];
      s
  }

  lemma SpacePrefixGrows(s: string, i: nat)
    requires 0 < |s| && IsUnicodeSpace(s[0]) && i < |s| && AllSpace(s[1..][..i])
    ensures s[1..][i..] == s[i + 1..] && AllSpace(s[..i + 1])
  {
    assert s[..i + 1] == [s[0]] + s[1..][..i];
  }

  lemma SpaceSuffixGrows(s: string, j: nat)
    requires 0 < |s| && IsUnicodeSpace(s[|s| - 1]) && j < |s| && AllSpace(s[..|s| - 1][j..])
    ensures s[..|s| - 1][..j] == s[..j] && AllSpace(s[j..])
  {
    assert s[j..] == s[..|s| - 1][j..] + [s[|s| - 1]];
  }

  /** strings.TrimRightFunc with unicode.IsSpace: only trailing white space is cut. */
  function TrimRight(s: string): (r: string)
    ensures r != [] ==> !IsUnicodeSpace(r[|r| - 1])
    ensures r != [] && s != [] ==> r[0] == s[0]
    ensures exists j :: 0 <= j <= |s| && r == s[..j] && AllSpace(s[j..])
    decreases |s|
  {
    if s != [] && IsUnicodeSpace(s[|s| - 1]) then
      var r := TrimRight(s[..|s| - 1]);
      assert exists j :: 0 <= j <= |s| && r == s[..j] && AllSpace(s[j..]) by {
        var j :| 0 <= j <= |s| - 1 && r == s[..|s| - 1][..j] && AllSpace(s[..|s| - 1][j..]);
        SpaceSuffixGrows(s, j);
      }
      r
    else
      assert s == s[..|s|] && s[|s|..] == [];
      s
  }

  /** strings.ToLower as far as it can matter to a comparison with an ASCII name: the
      ASCII capitals, and the two other runes whose lower case is an ASCII letter,
      U+0130 (capital I with dot above, lowered to 'i') and U+212A (Kelvin sign,
      lowered to 'k'). */
  function ToLower(s: string): (r: string)
    ensures |r| == |s|
    ensures forall i :: 0 <= i < |s| ==> r[i] == LowerChar(s[i])
  {
    seq(|s|, i requires 0 <= i < |s| => LowerChar(s[i]))
  }

  function LowerChar(c: char): char {
    if 'A' <= c <= 'Z' then (c as int + 32) as char
    else if c == '\U{0130}' then 'i'
    else if c == '\U{212A}' then 'k'
    else c
  }

  /** A character that LowerChar changes. */
  predicate IsUpper(c: char) {
    'A' <= c <= 'Z' || c == '\U{0130}' || c == '\U{212A}'
  }

  predicate HasUpper(s: string) {
    exists i :: 0 <= i < |s| && IsUpper(s[i])
  }

  /** A lower-cased string never contains a character that lower-casing changes. */
  lemma ToLowerHasNoUpper(s: string)
    ensures !HasUpper(ToLower(s))
  {
  }

  /** Lower-casing leaves a string alone exactly when it has nothing to lower, so
      lowering twice is lowering once. */
  lemma ToLowerFixedPoints(s: string)
    ensures ToLower(s) == s <==> !HasUpper(s)
    ensures ToLower(ToLower(s)) == ToLower(s)
  {
    if ToLower(s) == s {
      ToLowerHasNoUpper(s);
    }
    if !HasUpper(s) {
      assert forall i :: 0 <= i < |s| ==> ToLower(s)[i] == s[i];
    }
    ToLowerHasNoUpper(s);
    assert forall i :: 0 <= i < |s| ==> ToLower(ToLower(s))[i] == ToLower(s)[i];
  }

  /** Lower-casing is the only thing needed for a typed word to match a lower-case
      ASCII name: "İnfo" and "INFO" both match "info", "KICK" with a Kelvin sign
      matches "kick". */
  lemma ToLowerExamples()
    ensures ToLower("\U{0130}nfo") == "info"
    ensures ToLower("INFO") == "info"
    ensures ToLower("\U{212A}ICK") == "kick"
  {
  }
}
