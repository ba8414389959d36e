/** The JavaScript string operations the application relies on: `trim`,
    `toLowerCase`, `includes`, `split`, `length` in UTF-16 code units,
    `padStart`, `Number(text)` and decimal rendering of numbers. */
module JsText {
  import opened Wrappers

  // ---------------------------------------------------------------------
  // Whitespace, trim and blankness
  // ---------------------------------------------------------------------

  /** The characters `String.prototype.trim` removes and the regular
      expression class `\s` matches: WhiteSpace (TAB, VT, FF, ZWNBSP and the
      space separators) and LineTerminator (LF, CR, LS, PS). */
  predicate IsWhitespace(c: char) {
    || c == '\t' || c == '\n' || c == '\U{B}' || c == '\U{C}' || c == '\r'
    || c == ' ' || c == '\U{A0}' || c == '\U{1680}'
    || ('\U{2000}' <= c <= '\U{200A}')
    || c == '\U{2028}' || c == '\U{2029}' || c == '\U{202F}' || c == '\U{205F}'
    || c == '\U{3000}' || c == '\U{FEFF}'
  }

  predicate NoWhitespace(s: string) {
    forall i :: 0 <= i < |s| ==> !IsWhitespace(s[i])
  }

  /** Leading whitespace removed: the result is a suffix of `s`, everything cut
      off is whitespace, and the result does not start with whitespace. */
  function TrimStart(s: string): (r: string)
    ensures |r| <= |s| && r == s[|s| - |r|..]
    ensures forall i :: 0 <= i < |s| - |r| ==> IsWhitespace(s[i])
    ensures r == [] || !IsWhitespace(r[0])
  {
    if |s| > 0 && IsWhitespace(s[0]) then TrimStart(s[1..]) else s
  }

  /** Trailing whitespace removed: the result is a prefix of `s`, everything
      cut off is whitespace, and the result does not end with whitespace. */
  function TrimEnd(s: string): (r: string)
    ensures |r| <= |s| && r == s[..|r|]
    ensures forall i :: |r| <= i < |s| ==> IsWhitespace(s[i])
    ensures r == [] || !IsWhitespace(r[|r| - 1])
  {
    if |s| > 0 && IsWhitespace(s[|s| - 1]) then TrimEnd(s[..|s| - 1]) else s
  }

  /** `r` is the piece `s[k..k + |r|]` of `s` with only whitespace around it. */
  predicate TrimmedAt(s: string, r: string, k: int) {
    && 0 <= k <= |s| - |r| && r == s[k..k + |r|]
    && (forall i :: 0 <= i < k ==> IsWhitespace(s[i]))
    && (forall i :: k + |r| <= i < |s| ==> IsWhitespace(s[i]))
  }

  /** `s.trim()`: a contiguous piece of `s` with only whitespace around it,
      neither starting nor ending with whitespace. */
  function Trim(s: string): (r: string)
    ensures exists k :: TrimmedAt(s, r, k)
    ensures r != [] ==> !IsWhitespace(r[0]) && !IsWhitespace(r[|r| - 1])
  {
    TrimPieces(s);
    TrimEnd(TrimStart(s))
  }

  /** Trimming the start, then the end, leaves a piece with only whitespace
      around it. */
  lemma TrimPieces(s: string)
    ensures TrimmedAt(s, TrimEnd(TrimStart(s)), |s| - |TrimStart(s)|)
  {
    var t := TrimStart(s);
    TrimmedAtSuffix(s, |s| - |t|, t, TrimEnd(t));
  }

  /** A prefix `r` of the suffix `t == s[k..]`, with whitespace before `k`
      and after `r`, is a trimmed piece of `s`. */
  lemma TrimmedAtSuffix(s: string, k: nat, t: string, r: string)
    requires k <= |s| && t == s[k..] && |r| <= |t| && r == t[..|r|]
    requires forall i :: 0 <= i < k ==> IsWhitespace(s[i])
    requires forall j :: |r| <= j < |t| ==> IsWhitespace(t[j])
    ensures TrimmedAt(s, r, k)
  {
    assert r == s[k..k + |r|];
    forall i | k + |r| <= i < |s| ensures IsWhitespace(s[i]) {
      assert s[i] == t[i - k];
    }
  }

  /** `!s.trim()`, `s.trim() === ''` and `s.trim().length === 0` alike:
      nothing but whitespace (`BlankIffTrimEmpty`). */
  predicate IsBlank(s: string) {
    forall i :: 0 <= i < |s| ==> IsWhitespace(s[i])
  }

  /** A string is blank exactly when trimming leaves nothing. */
  lemma BlankIffTrimEmpty(s: string)
    ensures IsBlank(s) <==> Trim(s) == []
  {
    var r := Trim(s);
    var k :| TrimmedAt(s, r, k);
    if r != [] {
      assert s[k] == r[0];
    }
  }

  /** Trimming text without whitespace changes nothing. */
  lemma TrimNoWhitespace(s: string)
    requires NoWhitespace(s)
    ensures Trim(s) == s
  {
    assert TrimStart(s) == s;
    assert TrimEnd(s) == s;
  }

  /** Trimming twice is trimming once. */
  lemma TrimIdempotent(s: string)
    ensures Trim(Trim(s)) == Trim(s)
  {
    var r := Trim(s);
    assert TrimStart(r) == r;
    assert TrimEnd(r) == r;
  }

  // ---------------------------------------------------------------------
  // Length in UTF-16 code units (JavaScript's `length`)
  // ---------------------------------------------------------------------

  /** A character outside the Basic Multilingual Plane is a surrogate pair in
      JavaScript and counts 2 towards `length`. */
  function Utf16Length(s: string): (n: nat)
    ensures |s| <= n <= 2 * |s|
  {
    if s == [] then 0 else (if s[0] as int > 0xFFFF then 2 else 1) + Utf16Length(s[1..])
  }

  lemma {:induction false} Utf16LengthConcat(a: string, b: string)
    ensures Utf16Length(a + b) == Utf16Length(a) + Utf16Length(b)
  {
    if a == [] {
      assert a + b == b;
    } else {
      assert a + b != [] && (a + b)[0] == a[0];
      assert (a + b)[1..] == a[1..] + b;
      Utf16LengthConcat(a[1..], b);
    }
  }

  /** Trimming never makes a string longer, in UTF-16 code units. */
  lemma Utf16LengthTrim(s: string)
    ensures Utf16Length(Trim(s)) <= Utf16Length(s)
  {
    var r := Trim(s);
    var k :| TrimmedAt(s, r, k);
    Utf16LengthTrimmedAt(s, r, k);
  }

  lemma Utf16LengthTrimmedAt(s: string, r: string, k: int)
    requires TrimmedAt(s, r, k)
    ensures Utf16Length(r) <= Utf16Length(s)
  {
    Utf16LengthPiece(s, k, k + |r|);
  }

  /** A piece of a string is no longer than the string. */
  lemma Utf16LengthPiece(s: string, i: nat, j: nat)
    requires i <= j <= |s|
    ensures Utf16Length(s[i..j]) <= Utf16Length(s)
  {
    assert s[i..j] == s[..j][i..];
    Utf16LengthDrop(s[..j], i);
    Utf16LengthTake(s, j);
  }

  lemma {:induction false} Utf16LengthDrop(s: string, i: nat)
    requires i <= |s|
    ensures Utf16Length(s[i..]) <= Utf16Length(s)
    decreases i
  {
    if i > 0 {
      Utf16LengthDrop(s[1..], i - 1);
      assert s[1..][i - 1..] == s[i..];
    }
  }

  lemma {:induction false} Utf16LengthTake(s: string, j: nat)
    requires j <= |s|
    ensures Utf16Length(s[..j]) <= Utf16Length(s)
    decreases j
  {
    if j > 0 {
      Utf16LengthTake(s[1..], j - 1);
      assert s[..j][1..] == s[1..][..j - 1];
    }
  }

  // ---------------------------------------------------------------------
  // Lower-casing
  // ---------------------------------------------------------------------

  /** `toLowerCase` on the ASCII capitals and the Latin-1 capitals
      U+00C0..U+00DE (except the multiplication sign U+00D7); every other
      character is left as it is. */
  function LowerChar(c: char): (r: char)
    ensures ('A' <= c <= 'Z') ==> r as int == c as int + 32
    ensures !('A' <= c <= 'Z') && !('\U{C0}' <= c <= '\U{DE}') ==> r == c
  {
    if 'A' <= c <= 'Z' || ('\U{C0}' <= c <= '\U{DE}' && c != '\U{D7}') then
      (c as int + 32) as char
    else c
  }

  function ToLower(s: string): (r: string)
    ensures |r| == |s| && forall i :: 0 <= i < |s| ==> r[i] == LowerChar(s[i])
  {
    seq(|s|, i requires 0 <= i < |s| => LowerChar(s[i]))
  }

  /** Lower-casing twice is lower-casing once. */
  lemma ToLowerIdempotent(s: string)
    ensures ToLower(ToLower(s)) == ToLower(s)
  {
  }

  /** Lower-casing never turns whitespace into text or text into whitespace,
      so it keeps a string blank or non-blank. */
  lemma ToLowerKeepsBlank(s: string)
    ensures IsBlank(ToLower(s)) <==> IsBlank(s)
  {
    var l := ToLower(s);
    forall i | 0 <= i < |s| ensures IsWhitespace(l[i]) <==> IsWhitespace(s[i]) {
      LowerCharWhitespace(s[i]);
    }
  }

  lemma LowerCharWhitespace(c: char)
    ensures IsWhitespace(LowerChar(c)) <==> IsWhitespace(c)
  {
    if 'A' <= c <= 'Z' || ('\U{C0}' <= c <= '\U{DE}' && c != '\U{D7}') {
      assert !IsWhitespace(c);
      assert '\U{E0}' <= LowerChar(c) <= '\U{FE}' || 'a' <= LowerChar(c) <= 'z';
    }
  }

  // ---------------------------------------------------------------------
  // Substrings
  // ---------------------------------------------------------------------

  predicate StartsWith(s: string, p: string) {
    |p| <= |s| && s[..|p|] == p
  }

  /** `sub` occurs in `s` at position `i`. */
  predicate OccursAt(s: string, sub: string, i: int) {
    0 <= i <= |s| - |sub| && s[i..i + |sub|] == sub
  }

  lemma OccursShift(s: string, sub: string, i: int)
    requires |s| > 0 && i >= 0
    ensures OccursAt(s[1..], sub, i) <==> OccursAt(s, sub, i + 1)
  {
    if 0 <= i <= |s| - 1 - |sub| {
      assert s[1..][i..i + |sub|] == s[i + 1..i + 1 + |sub|];
    }
  }

  /** `s.includes(sub)`: `sub` occurs at some position of `s`. */
  function Contains(s: string, sub: string): (r: bool)
    ensures r <==> exists i :: OccursAt(s, sub, i)
    decreases |s|
  {
    if StartsWith(s, sub) then
      assert OccursAt(s, sub, 0);
      true
    else if s == [] then false
    else
      var r := Contains(s[1..], sub);
      if r then
        var i :| OccursAt(s[1..], sub, i);
        assert i >= 0;
        OccursShift(s, sub, i);
        true
      else
        assert !OccursAt(s, sub, 0);
        assert forall i :: 0 < i ==> !OccursAt(s, sub, i) by {
          forall i | 0 < i ensures !OccursAt(s, sub, i) {
            OccursShift(s, sub, i - 1);
          }
        }
        false
  }

  // ---------------------------------------------------------------------
  // Splitting on a separator character
  // ---------------------------------------------------------------------

  /** The index of the first `c` in `s`, or `|s|` if there is none. */
  function IndexOfChar(s: string, c: char): (i: nat)
    ensures i <= |s|
    ensures i < |s| ==> s[i] == c
    ensures forall j :: 0 <= j < i ==> s[j] != c
  {
    if s == [] then 0 else if s[0] == c then 0 else 1 + IndexOfChar(s[1..], c)
  }

  /** The first `c` sits at `i` when `s[i] == c` and no earlier character is `c`. */
  lemma IndexOfCharAt(s: string, c: char, i: nat)
    requires i < |s| && s[i] == c
    requires forall j :: 0 <= j < i ==> s[j] != c
    ensures IndexOfChar(s, c) == i
  {
  }

  /** `s.split(sep)` for a one-character separator: the pieces between
      consecutive separators, always at least one piece. */
  function Split(s: string, sep: char): (parts: seq<string>)
    ensures |parts| >= 1
    ensures forall k, j :: 0 <= k < |parts| && 0 <= j < |parts[k]| ==> parts[k][j] != sep
    decreases |s|
  {
    var i := IndexOfChar(s, sep);
    if i == |s| then [s] else [s[..i]] + Split(s[i + 1..], sep)
  }

  /** `parts.join(sep)`. */
  function Join(parts: seq<string>, sep: char): string
    requires |parts| >= 1
  {
    if |parts| == 1 then parts[0] else parts[0] + [sep] + Join(parts[1..], sep)
  }

  /** Splitting loses nothing: joining the pieces gives back the string. */
  lemma {:induction false} JoinSplit(s: string, sep: char)
    ensures Join(Split(s, sep), sep) == s
    decreases |s|
  {
    var i := IndexOfChar(s, sep);
    var parts := Split(s, sep);
    if i < |s| {
      var tail := Split(s[i + 1..], sep);
      JoinSplit(s[i + 1..], sep);
      assert parts == [s[..i]] + tail;
      assert parts[1..] == tail;
      assert Join(parts, sep) == s[..i] + [sep] + Join(tail, sep);
      assert s == s[..i] + [sep] + s[i + 1..];
    } else {
      assert parts == [s];
    }
  }

  /** The first piece is the text before the first separator. */
  lemma SplitFirst(s: string, sep: char)
    ensures Split(s, sep)[0] == s[..IndexOfChar(s, sep)]
  {
  }

  /** How a split continues after a separator at position `i`. */
  lemma SplitAt(s: string, sep: char, i: nat)
    requires i < |s| && s[i] == sep
    requires forall j :: 0 <= j < i ==> s[j] != sep
    ensures Split(s, sep) == [s[..i]] + Split(s[i + 1..], sep)
  {
    IndexOfCharAt(s, sep, i);
  }

  /** A string without the separator splits into itself. */
  lemma SplitNone(s: string, sep: char)
    requires forall j :: 0 <= j < |s| ==> s[j] != sep
    ensures Split(s, sep) == [s]
  {
  }

  /** Destructuring `const [a, b, c] = parts`: a missing element is `undefined`. */
  function Part(parts: seq<string>, i: nat): (r: Option<string>)
    ensures r.Some? <==> i < |parts|
    ensures i < |parts| ==> r.value == parts[i]
  {
    if i < |parts| then Some(parts[i]) else None
  }

  /** `${x}` in a template literal: `undefined` is rendered as its name. */
  function TemplateText(o: Option<string>): (r: string)
    ensures o.Some? ==> r == o.value
    ensures o.None? ==> r == "undefined"
  {
    match o
    case Some(s) => s
    case None => "undefined"
  }

  // ---------------------------------------------------------------------
  // Decimal digits, numbers and padding
  // ---------------------------------------------------------------------

  /** `\d` in a JavaScript regular expression: ASCII digits only. */
  predicate IsDigit(c: char) {
    '0' <= c <= '9'
  }

  predicate AllDigits(s: string) {
    forall i :: 0 <= i < |s| ==> IsDigit(s[i])
  }

  function DigitValue(c: char): nat
    requires IsDigit(c)
  {
    c as int - '0' as int
  }

  function DigitChar(d: nat): (c: char)
    requires d < 10
    ensures IsDigit(c) && DigitValue(c) == d
  {
    ('0' as int + d) as char
  }

  /** The value of a string of decimal digits. */
  function DecimalValue(s: string): nat
    requires AllDigits(s)
  {
    if s == [] then 0 else DecimalValue(s[..|s| - 1]) * 10 + DigitValue(s[|s| - 1])
  }

  /** `String(n)` for a natural number: its decimal digits, with no leading
      zero except for zero itself. */
  function NatToDecimal(n: nat): (r: string)
    ensures |r| >= 1 && AllDigits(r)
    ensures |r| > 1 ==> r[0] != '0'
    ensures n < 10 ==> |r| == 1
    ensures 10 <= n < 100 ==> |r| == 2
    ensures 100 <= n < 1000 ==> |r| == 3
    ensures 1000 <= n < 10000 ==> |r| == 4
  {
    if n < 10 then [DigitChar(n)] else NatToDecimal(n / 10) + [DigitChar(n % 10)]
  }

  /** Reading back the digits of `String(n)` gives `n`. */
  lemma {:induction false} DecimalRoundTrip(n: nat)
    ensures DecimalValue(NatToDecimal(n)) == n
  {
    var r := NatToDecimal(n);
    if n >= 10 {
      DecimalRoundTrip(n / 10);
      assert r[..|r| - 1] == NatToDecimal(n / 10);
    }
  }

  function Zeros(k: nat): (r: string)
    ensures |r| == k && forall i :: 0 <= i < k ==> r[i] == '0'
  {
    if k == 0 then [] else ['0'] + Zeros(k - 1)
  }

  /** `s.padStart(width, '0')` (used on digit strings, where the length in
      UTF-16 code units is the number of characters). */
  function PadStartZero(s: string, width: nat): (r: string)
    ensures |s| >= width ==> r == s
    ensures |s| < width ==>
              |r| == width && r[width - |s|..] == s && forall i :: 0 <= i < width - |s| ==> r[i] == '0'
  {
    if |s| >= width then s else Zeros(width - |s|) + s
  }

  /** Decimal digits every integer of which a double holds exactly. */
  const MaxExactDigits := 15

  function StripLeadingZeros(s: string): (r: string)
    ensures |r| <= |s| && r == s[|s| - |r|..]
    ensures forall i :: 0 <= i < |s| - |r| ==> s[i] == '0'
    ensures r == [] || r[0] != '0'
  {
    if |s| > 0 && s[0] == '0' then StripLeadingZeros(s[1..]) else s
  }

  /** `String(Number(text))` for `text` of possibly `undefined`:
      `undefined` is NaN, blank text is 0, and text that is ASCII digits
      around optional whitespace is that number written without leading
      zeros. That is exact in a double for at most 15 significant digits
      (below 2^53); longer digit strings, which a double rounds, are kept
      as written. Any other text is rendered "NaN" (see README's Left out). */
  function JsNumberText(o: Option<string>): (r: string)
    ensures o.None? ==> r == "NaN"
    ensures o.Some? && IsBlank(o.value) ==> r == "0"
    ensures o.Some? && o.value != [] && AllDigits(o.value) && |StripLeadingZeros(o.value)| <= MaxExactDigits ==>
              r == (var d := StripLeadingZeros(o.value); if d == [] then "0" else d)
  {
    match o
    case None => "NaN"
    case Some(text) =>
      DigitsAreTrimmed(text);
      BlankIffTrimEmpty(text);
      var t := Trim(text);
      if t == [] then "0"
      else if AllDigits(t) then
        var d := StripLeadingZeros(t);
        if d == [] then "0" else d
      else "NaN"
  }

  lemma DigitsAreTrimmed(s: string)
    ensures AllDigits(s) ==> Trim(s) == s
  {
    if AllDigits(s) {
      assert NoWhitespace(s) by {
        forall i | 0 <= i < |s| ensures !IsWhitespace(s[i]) {
          assert IsDigit(s[i]);
        }
      }
      TrimNoWhitespace(s);
    }
  }

  /** A two-digit field loses its leading zero: `Number("07")` is 7,
      `Number("12")` is 12. */
  lemma TwoDigitNumberText(a: char, b: char)
    requires IsDigit(a) && IsDigit(b)
    ensures JsNumberText(Some([a, b])) == if a == '0' then [b] else [a, b]
  {
    DigitPairText(a, b);
    StripDigitPair(a, b);
  }

  lemma DigitPairText(a: char, b: char)
    requires IsDigit(a) && IsDigit(b)
    ensures JsNumberText(Some([a, b])) == (var d := StripLeadingZeros([a, b]); if d == [] then "0" else d)
  {
    assert AllDigits([a, b]);
  }

  lemma StripDigitPair(a: char, b: char)
    ensures StripLeadingZeros([a, b]) == if a != '0' then [a, b] else if b != '0' then [b] else []
  {
    if a == '0' {
      assert [a, b][1..] == [b];
      if b == '0' {
        assert [b][1..] == [];
      }
    }
  }

  /** `Number(String(n).padStart(2, '0'))` is `n` again, written without
      padding, for every `n` below 100. */
  lemma NumberOfPaddedDecimal(n: nat)
    requires n < 100
    ensures JsNumberText(Some(PadStartZero(NatToDecimal(n), 2))) == NatToDecimal(n)
  {
    var d := NatToDecimal(n);
    var p := PadStartZero(d, 2);
    if n < 10 {
      assert p == ['0', d[0]];
      TwoDigitNumberText('0', d[0]);
      if d[0] == '0' {
        assert p == ['0', '0'];
      }
    } else {
      assert p == [d[0], d[1]];
      TwoDigitNumberText(d[0], d[1]);
    }
  }

  // ---------------------------------------------------------------------
  // ISO dates
  // ---------------------------------------------------------------------

  /** `s` begins with `YYYY-MM-DD`: the regular expression
      `^(\d{4})-(\d{2})-(\d{2})` matches it. */
  predicate HasIsoDatePrefix(s: string) {
    && |s| >= 10
    && IsDigit(s[0]) && IsDigit(s[1]) && IsDigit(s[2]) && IsDigit(s[3])
    && s[4] == '-'
    && IsDigit(s[5]) && IsDigit(s[6])
    && s[7] == '-'
    && IsDigit(s[8]) && IsDigit(s[9])
  }

  /** `s` is exactly `YYYY-MM-DD`: `^\d{4}-\d{2}-\d{2}$` matches it. */
  predicate IsIsoDate(s: string) {
    |s| == 10 && HasIsoDatePrefix(s)
  }

  /** An exact ISO date splits on '-' into its year, month and day. */
  lemma SplitIsoDate(s: string)
    requires IsIsoDate(s)
    ensures Split(s, '-') == [s[..4], s[5..7], s[8..10]]
  {
    assert forall j :: 0 <= j < 4 ==> s[j] != '-';
    SplitAt(s, '-', 4);
    var t := s[5..];
    assert t[2] == '-' && t[0] != '-' && t[1] != '-';
    SplitAt(t, '-', 2);
    assert t[..2] == s[5..7];
    var u := t[3..];
    assert u == s[8..10];
    assert u[0] != '-' && u[1] != '-';
    SplitNone(u, '-');
  }
}
