/** String primitives that the modelled TypeScript takes from the JavaScript
    runtime: ASCII case mapping, `trim`, `startsWith`, `includes`,
    `split`, removal of one character, and decimal formatting of a
    natural number. */
module Text {

  // ---------------------------------------------------------------------
  // Case mapping (ASCII letters only)
  // ---------------------------------------------------------------------

  function LowerChar(c: char): char {
    if 'A' <= c <= 'Z' then (c as int + 32) as char else c
  }

  function UpperChar(c: char): char {
    if 'a' <= c <= 'z' then (c as int - 32) as char else c
  }

  /** `s.toLowerCase()`, restricted to ASCII letters. */
  function ToLower(s: string): (r: string)
    ensures |r| == |s|
    ensures forall i :: 0 <= i < |s| ==> r[i] == LowerChar(s[i])
  {
    seq(|s|, i requires 0 <= i < |s| => LowerChar(s[i]))
  }

  /** `s.toUpperCase()`, restricted to ASCII letters. */
  function ToUpper(s: string): (r: string)
    ensures |r| == |s|
    ensures forall i :: 0 <= i < |s| ==> r[i] == UpperChar(s[i])
  {
    seq(|s|, i requires 0 <= i < |s| => UpperChar(s[i]))
  }

  /** Two strings that agree after lower-casing also agree after
      upper-casing: both mappings identify exactly the same letter pairs. */
  lemma SameLowerSameUpper(s: string, t: string)
    requires ToLower(s) == ToLower(t)
    ensures ToUpper(s) == ToUpper(t)
  {
    forall i | 0 <= i < |s|
      ensures UpperChar(s[i]) == UpperChar(t[i])
    {
      assert LowerChar(s[i]) == ToLower(s)[i] == ToLower(t)[i] == LowerChar(t[i]);
    }
  }

  // ---------------------------------------------------------------------
  // String.prototype.trim
  // ---------------------------------------------------------------------

  /** The characters ECMAScript's `trim` removes: WhiteSpace (tab,
      vertical tab, form feed, space, no-break space, the byte-order mark
      and the Unicode space separators) and LineTerminator. */
  predicate IsJsSpace(c: char) {
    c == '\t' || c == '\n' || c == 11 as char || c == 12 as char || c == '\r'
    || c == ' ' || c == 0xA0 as char || c == 0x1680 as char
    || (0x2000 as char <= c <= 0x200A as char)
    || c == 0x2028 as char || c == 0x2029 as char || c == 0x202F as char
    || c == 0x205F as char || c == 0x3000 as char || c == 0xFEFF as char
  }

  function TrimStart(s: string): (r: string)
    ensures |r| <= |s| && r == s[|s| - |r|..]
    ensures r != [] ==> !IsJsSpace(r[0])
    ensures forall i :: 0 <= i < |s| - |r| ==> IsJsSpace(s[i])
    decreases |s|
  {
    if |s| > 0 && IsJsSpace(s[0]) then
      var rest := s[1..];
      var r := TrimStart(rest);
      assert rest[|rest| - |r|..] == s[|s| - |r|..];
      r
    else s
  }

  function TrimEnd(s: string): (r: string)
    ensures |r| <= |s| && r == s[..|r|]
    ensures r != [] ==> !IsJsSpace(r[|r| - 1])
    ensures forall i :: |r| <= i < |s| ==> IsJsSpace(s[i])
    decreases |s|
  {
    if |s| > 0 && IsJsSpace(s[|s| - 1]) then
      var init := s[..|s| - 1];
      var r := TrimEnd(init);
      assert forall i :: 0 <= i < |init| ==> s[i] == init[i];
      assert init[..|r|] == s[..|r|];
      r
    else s
  }

  /** `s.trim()`: what is left once leading and trailing whitespace is
      removed. */
  function Trim(s: string): string {
    TrimEnd(TrimStart(s))
  }

  /** The trimmed string is no longer than the input and has no
      whitespace at either end. */
  lemma TrimEnds(s: string)
    ensures |Trim(s)| <= |s|
    ensures Trim(s) != [] ==> !IsJsSpace(Trim(s)[0]) && !IsJsSpace(Trim(s)[|Trim(s)| - 1])
  {
    var t := TrimStart(s);
    if Trim(s) != [] {
      assert Trim(s)[0] == t[0];
    }
  }

  /** A string with no whitespace at either end is its own trim. */
  lemma TrimKeepsEnds(s: string)
    requires |s| > 0 && !IsJsSpace(s[0]) && !IsJsSpace(s[|s| - 1])
    ensures Trim(s) == s
  {
    assert TrimStart(s) == s;
  }

  // ---------------------------------------------------------------------
  // startsWith, includes
  // ---------------------------------------------------------------------

  /** `s.startsWith(p)` */
  predicate IsPrefix(p: string, s: string) {
    |p| <= |s| && s[..|p|] == p
  }

  /** `s.includes(t)`: `t` occurs in `s` at some position. */
  predicate Contains(s: string, t: string) {
    exists i :: 0 <= i <= |s| && IsPrefix(t, s[i..])
  }

  lemma ContainsAt(s: string, t: string, i: nat)
    requires i <= |s| && IsPrefix(t, s[i..])
    ensures Contains(s, t)
  {
  }

  lemma ContainsLength(s: string, t: string)
    requires Contains(s, t)
    ensures |t| <= |s|
  {
  }

  // ---------------------------------------------------------------------
  // String.prototype.split with a one-character separator, and its inverse
  // ---------------------------------------------------------------------

  /** `s.split(sep)`: the maximal separator-free pieces, in order; the
      empty string splits into one empty piece. */
  function Split(s: string, sep: char): (r: seq<string>)
    ensures |r| >= 1
    decreases |s|
  {
    if s == [] then [""]
    else if s[0] == sep then [""] + Split(s[1..], sep)
    else
      var rest := Split(s[1..], sep);
      [[s[0]] + rest[0]] + rest[1..]
  }

  function Join(parts: seq<string>, sep: char): string
    requires |parts| >= 1
  {
    if |parts| == 1 then parts[0] else parts[0] + [sep] + Join(parts[1..], sep)
  }

  /** Splitting loses nothing: joining the pieces with the separator gives
      back the input. */
  lemma {:induction false} JoinSplit(s: string, sep: char)
    ensures Join(Split(s, sep), sep) == s
    decreases |s|
  {
    if s == [] {
    } else if s[0] == sep {
      JoinSplit(s[1..], sep);
      assert ([""] + Split(s[1..], sep))[1..] == Split(s[1..], sep);
    } else {
      var rest := Split(s[1..], sep);
      JoinSplit(s[1..], sep);
      var r := [[s[0]] + rest[0]] + rest[1..];
      if |rest| == 1 {
        assert Join(r, sep) == [s[0]] + rest[0];
      } else {
        assert r[1..] == rest[1..];
        assert Join(rest, sep) == rest[0] + [sep] + Join(rest[1..], sep);
      }
    }
  }

  /** No piece contains the separator. */
  lemma {:induction false} SplitPiecesClean(s: string, sep: char)
    ensures forall k :: 0 <= k < |Split(s, sep)| ==> sep !in Split(s, sep)[k]
    decreases |s|
  {
    if s != [] {
      SplitPiecesClean(s[1..], sep);
    }
  }

  // ---------------------------------------------------------------------
  // s.replace(/c/g, '')
  // ---------------------------------------------------------------------

  /** `s` with every occurrence of `c` deleted, other characters kept in
      order. */
  function Without(s: string, c: char): (r: string)
    ensures c !in r
    ensures forall x :: x in r <==> x in s && x != c
    ensures |r| <= |s|
  {
    if s == [] then []
    else (if s[0] == c then [] else [s[0]]) + Without(s[1..], c)
  }

  /** Every other character is kept as often as it occurs. */
  lemma {:induction false} WithoutCounts(s: string, c: char)
    ensures multiset(Without(s, c)) == multiset(s)[c := 0]
    ensures c !in s ==> Without(s, c) == s
  {
    if s != [] {
      var rest := s[1..];
      WithoutCounts(rest, c);
      assert s == [s[0]] + rest;
      var m := multiset(rest);
      assert multiset(s) == multiset{s[0]} + m;
      if s[0] == c {
        assert Without(s, c) == Without(rest, c);
        assert (multiset{c} + m)[c := 0] == m[c := 0];
      } else {
        assert Without(s, c) == [s[0]] + Without(rest, c);
        assert (multiset{s[0]} + m)[c := 0] == multiset{s[0]} + m[c := 0];
      }
    }
  }

  /** Removal works piece by piece, so the characters that are kept stay
      in their order: removing from a concatenation is removing from each
      part. */
  lemma {:induction false} WithoutConcat(s: string, t: string, c: char)
    ensures Without(s + t, c) == Without(s, c) + Without(t, c)
  {
    if s != [] {
      var head: string := if s[0] == c then [] else [s[0]];
      assert (s + t)[0] == s[0] && (s + t)[1..] == s[1..] + t;
      WithoutConcat(s[1..], t, c);
      calc {
        Without(s + t, c);
        head + Without(s[1..] + t, c);
        head + (Without(s[1..], c) + Without(t, c));
        (head + Without(s[1..], c)) + Without(t, c);
        Without(s, c) + Without(t, c);
      }
    } else {
      assert s + t == t;
    }
  }

  /** Removing twice is removing once. */
  lemma WithoutIdempotent(s: string, c: char)
    ensures Without(Without(s, c), c) == Without(s, c)
  {
    WithoutCounts(Without(s, c), c);
  }

  // ---------------------------------------------------------------------
  // Decimal formatting of a number in a template literal
  // ---------------------------------------------------------------------

  function DigitChar(d: nat): char
    requires d < 10
  {
    ('0' as int + d) as char
  }

  /** `${n}` for a natural number `n`. */
  function NatToString(n: nat): (r: string)
    ensures |r| >= 1
    ensures forall i :: 0 <= i < |r| ==> '0' <= r[i] <= '9'
  {
    if n < 10 then [DigitChar(n)] else NatToString(n / 10) + [DigitChar(n % 10)]
  }

  /** The value of a string of decimal digits. */
  function DecimalValue(s: string): nat
    requires forall i :: 0 <= i < |s| ==> '0' <= s[i] <= '9'
  {
    if s == [] then 0 else 10 * DecimalValue(s[..|s| - 1]) + (s[|s| - 1] as int - '0' as int)
  }

  /** Formatting is reversible: reading the digits back gives the number. */
  lemma {:induction false} DecimalRoundTrip(n: nat)
    ensures DecimalValue(NatToString(n)) == n
  {
    if n >= 10 {
      DecimalRoundTrip(n / 10);
      var s := NatToString(n);
      assert s[..|s| - 1] == NatToString(n / 10);
    }
  }
}
