/** String operations the handlers rely on: JavaScript's `trim`,
    PostgreSQL's `TRIM`, case mapping (ASCII letters only), decimal
    digits, and the `base (N)` suffix that auto-generated team names carry.
    Strings are sequences of Unicode scalar values. */
module Text {
  import opened Http

  /** The characters JavaScript's `String.prototype.trim` removes:
      the WhiteSpace and LineTerminator productions of ECMAScript. */
  predicate IsJsSpace(c: char) {
    || c == ' ' || c == '\t' || c == '\n' || c == '\r'
    || c == '\U{000B}' || c == '\U{000C}' || c == '\U{00A0}' || c == '\U{1680}'
    || ('\U{2000}' <= c <= '\U{200A}')
    || c == '\U{2028}' || c == '\U{2029}' || c == '\U{202F}' || c == '\U{205F}'
    || c == '\U{3000}' || c == '\U{FEFF}'
  }

  predicate AllSpace(s: string) {
    forall i :: 0 <= i < |s| ==> IsJsSpace(s[i])
  }

  /** `s.trimStart()`: the longest suffix of `s` not starting with white space. */
  function TrimStart(s: string): (r: string)
    ensures |r| <= |s| && r == s[|s| - |r|..]
    ensures r != [] ==> !IsJsSpace(r[0])
    ensures AllSpace(s[..|s| - |r|])
  {
    if s != [] && IsJsSpace(s[0]) then TrimStart(s[1..]) else s
  }

  /** `s.trimEnd()`: the longest prefix of `s` not ending with white space. */
  function TrimEnd(s: string): (r: string)
    ensures |r| <= |s| && r == s[..|r|]
    ensures r != [] ==> !IsJsSpace(r[|r| - 1])
    ensures AllSpace(s[|r|..])
  {
    if s != [] && IsJsSpace(s[|s| - 1]) then TrimEnd(s[..|s| - 1]) else s
  }

  /** `s.trim()`. */
  function Trim(s: string): string {
    TrimEnd(TrimStart(s))
  }

  /** What `trim` leaves: a contiguous piece of the input with no white
      space at either end, and it is empty exactly when the input is all
      white space. */
  lemma TrimProperties(s: string)
    ensures exists i, j :: 0 <= i <= j <= |s| && Trim(s) == s[i..j]
    ensures Trim(s) != [] ==> !IsJsSpace(Trim(s)[0]) && !IsJsSpace(Trim(s)[|Trim(s)| - 1])
    ensures Trim(s) == [] <==> AllSpace(s)
  {
    var a := TrimStart(s);
    var k := |s| - |a|;
    assert a == s[k..];
    assert Trim(s) == s[k..k + |Trim(s)|];
    if Trim(s) == [] {
      assert AllSpace(a[0..]);
      forall i | 0 <= i < |s| ensures IsJsSpace(s[i]) {
        if i < k { assert s[..k][i] == s[i]; } else { assert a[i - k] == s[i]; }
      }
    } else {
      assert !IsJsSpace(s[k + |Trim(s)| - 1]);
    }
  }

  /** Trimming twice is trimming once. */
  lemma TrimIdempotent(s: string)
    ensures Trim(Trim(s)) == Trim(s)
  {
    var t := Trim(s);
    TrimProperties(s);
    if t != [] {
      assert TrimStart(t) == t;
      assert TrimEnd(t) == t;
    }
  }

  /** A string that neither starts nor ends with white space is its own
      `trim`. */
  lemma TrimOfUnpadded(s: string)
    requires s != [] && !IsJsSpace(s[0]) && !IsJsSpace(s[|s| - 1])
    ensures Trim(s) == s
  {
    assert TrimStart(s) == s;
  }

  /** PostgreSQL's `TRIM(x)`: removes spaces only, at both ends. */
  function PgTrim(s: string): (r: string)
    ensures |r| <= |s|
    ensures r != [] ==> r[0] != ' ' && r[|r| - 1] != ' '
    ensures (forall i :: 0 <= i < |s| ==> s[i] != ' ') ==> r == s
    decreases |s|
  {
    if s != [] && s[0] == ' ' then PgTrim(s[1..])
    else if s != [] && s[|s| - 1] == ' ' then PgTrim(s[..|s| - 1])
    else s
  }

  /** A string that neither starts nor ends with a space is its own
      `TRIM`; in particular whatever JavaScript's `trim` leaves. */
  lemma PgTrimOfTrimmed(s: string)
    ensures PgTrim(Trim(s)) == Trim(s)
  {
    TrimProperties(s);
  }

  /** Case mapping, modelled on ASCII letters (every other character is
      left unchanged). */
  function LowerChar(c: char): char {
    if 'A' <= c <= 'Z' then (c as int - 'A' as int + 'a' as int) as char else c
  }

  function UpperChar(c: char): char {
    if 'a' <= c <= 'z' then (c as int - 'a' as int + 'A' as int) as char else c
  }

  /** `LOWER(s)` in SQL, `s.toLowerCase()` in JavaScript. */
  function Lower(s: string): (r: string)
    ensures |r| == |s| && forall i :: 0 <= i < |s| ==> r[i] == LowerChar(s[i])
  {
    seq(|s|, i requires 0 <= i < |s| => LowerChar(s[i]))
  }

  /** `s.toUpperCase()`. */
  function Upper(s: string): (r: string)
    ensures |r| == |s| && forall i :: 0 <= i < |s| ==> r[i] == UpperChar(s[i])
  {
    seq(|s|, i requires 0 <= i < |s| => UpperChar(s[i]))
  }

  /** Upper-casing twice is upper-casing once. */
  lemma UpperIdempotent(s: string)
    ensures Upper(Upper(s)) == Upper(s)
  {
    assert forall i :: 0 <= i < |s| ==> UpperChar(UpperChar(s[i])) == UpperChar(s[i]);
  }

  /** Upper-casing first does not change the lower case. */
  lemma LowerOfUpper(s: string)
    ensures Lower(Upper(s)) == Lower(s)
  {
    assert forall i :: 0 <= i < |s| ==> LowerChar(UpperChar(s[i])) == LowerChar(s[i]);
  }

  /** Upper-casing keeps white space and non-space apart. */
  lemma UpperKeepsSpace(c: char)
    ensures IsJsSpace(UpperChar(c)) == IsJsSpace(c)
  {
  }

  /** A character outside the Basic Multilingual Plane, which UTF-16
      spells as a surrogate pair. */
  predicate IsAstral(c: char) {
    c as int > 0xFFFF
  }

  /** JavaScript's `s.length`: UTF-16 code units, two for every character
      above U+FFFF. It equals the number of characters exactly when none
      is above U+FFFF. */
  function Utf16Length(s: string): (n: nat)
    ensures |s| <= n <= 2 * |s|
    ensures n == |s| <==> forall i :: 0 <= i < |s| ==> !IsAstral(s[i])
  {
    if s == [] then 0
    else
      assert forall i :: 1 <= i < |s| ==> s[1..][i - 1] == s[i];
      (if IsAstral(s[0]) then 2 else 1) + Utf16Length(s[1..])
  }

  /** Four emoji are eight code units long. */
  lemma AstralCountsTwice()
    ensures Utf16Length("\U{1F600}\U{1F600}\U{1F600}\U{1F600}") == 8
  {
    var s := "\U{1F600}\U{1F600}\U{1F600}\U{1F600}";
    assert s[1..][1..][1..][1..] == [];
  }

  /** A string of characters above U+FFFF is twice as long in UTF-16. */
  lemma {:induction false} AllAstralDoubles(s: string)
    requires forall i :: 0 <= i < |s| ==> IsAstral(s[i])
    ensures Utf16Length(s) == 2 * |s|
  {
    if s != [] {
      assert forall i :: 0 <= i < |s[1..]| ==> s[1..][i] == s[i + 1];
      AllAstralDoubles(s[1..]);
    }
  }

  /** Lower-casing twice is lower-casing once. */
  lemma LowerIdempotent(s: string)
    ensures Lower(Lower(s)) == Lower(s)
  {
    assert forall i :: 0 <= i < |s| ==> Lower(Lower(s))[i] == Lower(s)[i];
  }

  lemma LowerDistributes(a: string, b: string)
    ensures Lower(a + b) == Lower(a) + Lower(b)
  {
    assert forall i :: 0 <= i < |a + b| ==> Lower(a + b)[i] == (Lower(a) + Lower(b))[i];
  }

  /** A slice of a string in lower case is in lower case. */
  lemma LowerSlice(s: string, i: nat, j: nat)
    requires Lower(s) == s && i <= j <= |s|
    ensures Lower(s[i..j]) == s[i..j]
  {
    forall k | 0 <= k < j - i ensures Lower(s[i..j])[k] == s[i..j][k] {
      assert s[i..j][k] == s[i + k] == Lower(s)[i + k];
    }
  }

  predicate IsDigit(c: char) { '0' <= c <= '9' }

  predicate IsDigits(s: string) {
    forall i :: 0 <= i < |s| ==> IsDigit(s[i])
  }

  function DigitChar(d: nat): (c: char)
    requires d < 10
    ensures IsDigit(c) && c as int - '0' as int == d
  {
    ('0' as int + d) as char
  }

  /** The decimal spelling of `n`, as SQL's `int || text` writes it. */
  function NatToDecimal(n: nat): (r: string)
    ensures r != [] && IsDigits(r)
  {
    if n < 10 then [DigitChar(n)] else NatToDecimal(n / 10) + [DigitChar(n % 10)]
  }

  /** The value of a run of decimal digits, as SQL's `::int` reads it
      (leading zeros allowed). */
  function DecimalValue(s: string): nat
    requires IsDigits(s)
  {
    if s == [] then 0 else DecimalValue(s[..|s| - 1]) * 10 + (s[|s| - 1] as int - '0' as int)
  }

  /** Reading back a number's decimal spelling gives the number. */
  lemma {:induction false} DecimalRoundTrip(n: nat)
    ensures DecimalValue(NatToDecimal(n)) == n
  {
    if n >= 10 {
      var r := NatToDecimal(n);
      assert r[..|r| - 1] == NatToDecimal(n / 10);
      DecimalRoundTrip(n / 10);
    }
  }

  /** The index where the run of digits that ends just before position
      `end` starts (`end` itself when `s[end - 1]` is not a digit). */
  function DigitRunStart(s: string, end: nat): (k: nat)
    requires end <= |s|
    ensures k <= end && IsDigits(s[k..end])
    ensures k > 0 ==> !IsDigit(s[k - 1])
  {
    if end > 0 && IsDigit(s[end - 1]) then
      var k := DigitRunStart(s, end - 1);
      assert s[k..end] == s[k..end - 1] + [s[end - 1]];
      k
    else end
  }

  /** Splits `h + " (" + d + ")"`, `d` a non-empty run of digits, into `h`
      and the value of `d`; `None` when `s` does not have that shape. */
  function SplitSuffix(s: string): Option<(string, nat)> {
    if |s| < 4 || s[|s| - 1] != ')' then None
    else
      var k := DigitRunStart(s, |s| - 1);
      if k == |s| - 1 || k < 2 || s[k - 1] != '(' || s[k - 2] != ' ' then None
      else Some((s[..k - 2], DecimalValue(s[k..|s| - 1])))
  }

  /** The suffix a generated team name carries is read back exactly. */
  lemma {:induction false} SplitSuffixOfNumbered(h: string, n: nat)
    ensures SplitSuffix(h + " (" + NatToDecimal(n) + ")") == Some((h, n))
  {
    var d := NatToDecimal(n);
    var s := h + " (" + d + ")";
    assert s[..|s| - 1] == h + " (" + d;
    DigitRunPrefix(h + " (", d, ")");
    assert s[|h| + 2..|s| - 1] == d;
    assert s[..|h|] == h;
    DecimalRoundTrip(n);
  }

  /** Walking back over a digit run `d` placed right after `p` stops at
      `|p|` when the last character of `p` is not a digit. */
  lemma {:induction false} DigitRunPrefix(p: string, d: string, tail: string)
    requires IsDigits(d) && p != [] && !IsDigit(p[|p| - 1])
    ensures DigitRunStart(p + d + tail, |p| + |d|) == |p|
    decreases |d|
  {
    var s := p + d + tail;
    if d != [] {
      assert IsDigit(s[|p| + |d| - 1]);
      assert s == p + d[..|d| - 1] + (d[|d| - 1..] + tail);
      DigitRunPrefix(p, d[..|d| - 1], d[|d| - 1..] + tail);
    } else {
      assert s[|p| - 1] == p[|p| - 1];
    }
  }

  predicate StartsWith(s: string, p: string) { |p| <= |s| && s[..|p|] == p }

  predicate EndsWith(s: string, p: string) { |p| <= |s| && s[|s| - |p|..] == p }
}
