/** String helpers shared by the server and the client pages: JavaScript's and
    SQLite's trimming, lower-casing, substring search and decimal formatting. */
module Text {

  /** The characters JavaScript's String.prototype.trim removes: WhiteSpace and
      LineTerminator of section 12.2 and 12.3 of ECMAScript 2024. */
  const JsWhitespace: set<char> := {
    '\t', '\n', '\U{000B}', '\U{000C}', '\r', ' ', '\U{00A0}', '\U{1680}',
    '\U{2000}', '\U{2001}', '\U{2002}', '\U{2003}', '\U{2004}', '\U{2005}',
    '\U{2006}', '\U{2007}', '\U{2008}', '\U{2009}', '\U{200A}',
    '\U{2028}', '\U{2029}', '\U{202F}', '\U{205F}', '\U{3000}', '\U{FEFF}'
  }

  /** The characters SQLite's one-argument TRIM(X) removes: the space only. */
  const SqlSpace: set<char> := {' '}

  /** Drops the leading characters that belong to `ws`. */
  function TrimStart(s: string, ws: set<char>): (r: string)
    ensures |r| <= |s| && r == s[|s| - |r|..]
    ensures r == [] || r[0] !in ws
    ensures forall i :: 0 <= i < |s| - |r| ==> s[i] in ws
  {
    if |s| > 0 && s[0] in ws then TrimStart(s[1..], ws) else s
  }

  /** Drops the trailing characters that belong to `ws`. */
  function TrimEnd(s: string, ws: set<char>): (r: string)
    ensures |r| <= |s| && r == s[..|r|]
    ensures r == [] || r[|r| - 1] !in ws
    ensures forall i :: |r| <= i < |s| ==> s[i] in ws
  {
    if |s| > 0 && s[|s| - 1] in ws then TrimEnd(s[..|s| - 1], ws) else s
  }

  /** Drops both the leading and the trailing characters that belong to `ws`:
      the result is a prefix of the suffix of `s` that starts after the
      leading run of `ws`, and what it leaves of that suffix belongs to
      `ws`. */
  function Trim(s: string, ws: set<char>): (r: string)
    ensures |r| <= |s|
    ensures r == [] || (r[0] !in ws && r[|r| - 1] !in ws)
    ensures r == [] <==> forall i :: 0 <= i < |s| ==> s[i] in ws
    ensures var a := |s| - |TrimStart(s, ws)|;
            && (forall i :: 0 <= i < a ==> s[i] in ws)
            && |r| <= |s[a..]| && r == s[a..][..|r|]
            && (forall i :: |r| <= i < |s[a..]| ==> s[a..][i] in ws)
  {
    var t := TrimStart(s, ws);
    assert t == [] ==> forall i :: 0 <= i < |s| ==> s[i] in ws;
    TrimEnd(t, ws)
  }

  /** Trimming twice is trimming once. */
  lemma TrimIdempotent(s: string, ws: set<char>)
    ensures Trim(Trim(s, ws), ws) == Trim(s, ws)
  {
    var r := Trim(s, ws);
    if r != [] {
      assert TrimStart(r, ws) == r;
      assert TrimEnd(r, ws) == r;
    }
  }

  /** A string that is not blank trims to a string that is not blank, and
      trimming that again changes nothing. */
  lemma JsTrimStable(s: string)
    requires !IsBlank(s)
    ensures !IsBlank(JsTrim(s)) && JsTrim(JsTrim(s)) == JsTrim(s)
  {
    TrimIdempotent(s, JsWhitespace);
  }

  /** `s.trim() === ''` in JavaScript: the string is empty or only whitespace. */
  predicate IsBlank(s: string) {
    forall i :: 0 <= i < |s| ==> s[i] in JsWhitespace
  }

  /** JavaScript's s.trim(). */
  function JsTrim(s: string): (r: string)
    ensures r == [] <==> IsBlank(s)
  {
    Trim(s, JsWhitespace)
  }

  /** Upper-case letters that toLowerCase folds in this model: A-Z and the
      Latin-1 capitals (U+00C0 to U+00DE, except the multiplication sign). */
  predicate IsUpper(c: char) {
    ('A' <= c <= 'Z') || ('\U{00C0}' <= c <= '\U{00DE}' && c != '\U{00D7}')
  }

  /** A capital becomes the small letter 32 code points above it. */
  function LowerChar(c: char): (d: char)
    ensures !IsUpper(d)
    ensures IsUpper(c) ==> d as int == c as int + 32
    ensures !IsUpper(c) ==> d == c
  {
    if IsUpper(c) then (c as int + 32) as char else c
  }

  /** JavaScript's s.toLowerCase(), restricted to the letters of IsUpper. */
  function ToLower(s: string): (r: string)
    ensures |r| == |s|
    ensures forall i :: 0 <= i < |r| ==> !IsUpper(r[i])
    ensures forall i :: 0 <= i < |r| ==> r[i] == LowerChar(s[i])
    ensures forall i :: 0 <= i < |r| && IsUpper(s[i]) ==> r[i] as int == s[i] as int + 32
  {
    seq(|s|, i requires 0 <= i < |s| => LowerChar(s[i]))
  }

  predicate IsPrefix(p: string, s: string) {
    |p| <= |s| && s[..|p|] == p
  }

  /** JavaScript's s.includes(needle). */
  predicate Contains(s: string, needle: string)
    decreases |s|
  {
    IsPrefix(needle, s) || (|s| > 0 && Contains(s[1..], needle))
  }

  /** The needle occurs in s at offset i. */
  predicate OccursAt(s: string, needle: string, i: int) {
    0 <= i <= |s| - |needle| && s[i..i + |needle|] == needle
  }

  /** `Contains` holds exactly when the needle occurs at some offset. */
  lemma {:induction false} ContainsAt(s: string, needle: string)
    ensures Contains(s, needle) <==> exists i :: OccursAt(s, needle, i)
    decreases |s|
  {
    if IsPrefix(needle, s) {
      assert OccursAt(s, needle, 0);
    } else {
      assert !OccursAt(s, needle, 0);
      if |s| == 0 {
        assert forall i :: OccursAt(s, needle, i) ==> i == 0;
      } else {
        var t := s[1..];
        ContainsAt(t, needle);
        if Contains(t, needle) {
          var j :| OccursAt(t, needle, j);
          assert s[j + 1..j + 1 + |needle|] == t[j..j + |needle|];
          assert OccursAt(s, needle, j + 1);
        } else {
          forall i | 0 < i <= |s| - |needle| ensures !OccursAt(s, needle, i) {
            assert t[i - 1..i - 1 + |needle|] == s[i..i + |needle|];
            assert !OccursAt(t, needle, i - 1);
          }
        }
      }
    }
  }

  function Digit(d: nat): (c: char)
    requires d < 10
    ensures '0' <= c <= '9'
  {
    ('0' as int + d) as char
  }

  /** The decimal numeral of n, without leading zeros (JavaScript's String(n)). */
  function NatToDecimal(n: nat): (r: string)
    ensures |r| >= 1
    ensures forall i :: 0 <= i < |r| ==> '0' <= r[i] <= '9'
    ensures |r| > 1 ==> r[0] != '0'
  {
    if n < 10 then [Digit(n)] else NatToDecimal(n / 10) + [Digit(n % 10)]
  }

  /** The value of a string of decimal digits. */
  function DecimalValue(s: string): nat
    requires forall i :: 0 <= i < |s| ==> '0' <= s[i] <= '9'
  {
    if s == [] then 0 else 10 * DecimalValue(s[..|s| - 1]) + (s[|s| - 1] as int - '0' as int)
  }

  /** Reading back a formatted numeral gives the number. */
  lemma {:induction false} DecimalRoundTrip(n: nat)
    ensures DecimalValue(NatToDecimal(n)) == n
  {
    if n >= 10 {
      DecimalRoundTrip(n / 10);
      var r := NatToDecimal(n);
      assert r[..|r| - 1] == NatToDecimal(n / 10);
    }
  }

  /** Different numbers have different numerals. */
  lemma NatToDecimalInjective(a: nat, b: nat)
    requires NatToDecimal(a) == NatToDecimal(b)
    ensures a == b
  {
    DecimalRoundTrip(a);
    DecimalRoundTrip(b);
  }

  /** JavaScript's String(n) for an integer n. */
  function IntToDecimal(n: int): string {
    if n < 0 then "-" + NatToDecimal(-n) else NatToDecimal(n)
  }

  /** The numeral of an integer starts with a minus sign exactly when it is negative. */
  lemma IntToDecimalSign(n: int)
    ensures |IntToDecimal(n)| >= 1
    ensures IntToDecimal(n)[0] == '-' <==> n < 0
  {
    if n >= 0 {
      assert '0' <= NatToDecimal(n)[0] <= '9';
    }
  }

  /** JavaScript's s.padStart(width, [c]). */
  function PadStart(s: string, width: nat, c: char): (r: string)
    ensures |r| == if |s| >= width then |s| else width
    ensures r[|r| - |s|..] == s
    ensures forall i :: 0 <= i < |r| - |s| ==> r[i] == c
  {
    if |s| >= width then s else seq(width - |s|, _ => c) + s
  }
}
