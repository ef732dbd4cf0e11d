/**
  The few pieces of JavaScript's built-in behaviour that the portfolio's
  components depend on: optional values and truthiness, the index rules of
  `Array.prototype.slice`, decimal formatting of integers in template
  literals, `String.prototype.toLowerCase`, `startsWith`, `Array.prototype.join`,
  `String.prototype.replace` with a one-character pattern, and the regular
  expression class `\s`.
 */
module JsBuiltins {

  /** A value that may be `undefined` or `null`. */
  datatype Option<+T> = None | Some(value: T)

  /** JavaScript truthiness of an optional string: `undefined`, `null` and `""` are falsy. */
  predicate Truthy(s: Option<string>) {
    s.Some? && s.value != ""
  }

  // ---------------------------------------------------------------------------
  // Sequence splitting, proved once outside any heavy context

  /** Splitting the first element off a concatenation. */
  lemma ConcatHead<T>(a: seq<T>, b: seq<T>)
    requires 0 < |a|
    ensures (a + b)[0] == a[0]
    ensures (a + b)[1..] == a[1..] + b
    ensures a == [a[0]] + a[1..]
    ensures a + b == [a[0]] + (a[1..] + b)
  {
  }

  lemma ConcatAssoc<T>(a: seq<T>, b: seq<T>, c: seq<T>)
    ensures a + (b + c) == (a + b) + c
  {
  }

  /** Concatenating an empty sequence on either side changes nothing. */
  lemma ConcatEmpty<T>(a: seq<T>, b: seq<T>)
    ensures |a| == 0 ==> a + b == b
    ensures |b| == 0 ==> a + b == a
  {
  }

  /** A prefix followed by the rest of the sequence is the whole sequence. */
  lemma PrefixThenRest<T>(p: seq<T>, s: seq<T>)
    requires p <= s
    ensures p + s[|p|..] == s
  {
    assert s == s[..|p|] + s[|p|..];
  }

  // ---------------------------------------------------------------------------
  // Array.prototype.slice

  /** How `slice` turns a relative index into a position: negative counts from the end, then clamp. */
  function RelativeIndex(k: int, len: nat): (r: nat)
    ensures r <= len
  {
    if k < 0 then (if len + k < 0 then 0 else len + k)
    else if k > len then len
    else k
  }

  /** `s.slice(start, end)` */
  function Slice<T>(s: seq<T>, start: int, end: int): (r: seq<T>)
    ensures |r| <= |s|
    ensures 0 <= start <= end <= |s| ==> r == s[start..end]
    ensures 0 <= end <= start ==> r == []
  {
    var from := RelativeIndex(start, |s|);
    var to := RelativeIndex(end, |s|);
    if from < to then s[from..to] else []
  }

  /** `s.slice(start)` */
  function SliceFrom<T>(s: seq<T>, start: int): (r: seq<T>)
    ensures |r| <= |s| && r == s[|s| - |r|..]
    ensures 0 <= start <= |s| ==> r == s[start..]
    ensures start < 0 ==> |r| == (if |s| + start < 0 then |s| else -start)
  {
    Slice(s, start, |s|)
  }

  /** Whatever the split point, the head `slice(0, k)` and the tail `slice(k)` put back together give the whole sequence. */
  lemma SliceSplit<T>(s: seq<T>, k: int)
    ensures Slice(s, 0, k) + SliceFrom(s, k) == s
  {
    var at := RelativeIndex(k, |s|);
    if at == 0 {
      assert Slice(s, 0, k) == [];
      assert SliceFrom(s, k) == s[0..|s|];
    } else {
      assert Slice(s, 0, k) == s[..at];
      assert SliceFrom(s, k) == s[at..];
    }
  }

  /** A head `slice(0, k)` is a prefix; for a non-negative `k` it holds `min(k, |s|)` elements. */
  lemma SliceHead<T>(s: seq<T>, k: int)
    ensures Slice(s, 0, k) <= s
    ensures 0 <= k ==> |Slice(s, 0, k)| == (if k < |s| then k else |s|)
    ensures k < 0 ==> |Slice(s, 0, k)| == (if |s| + k < 0 then 0 else |s| + k)
  {
    SliceSplit(s, k);
  }

  // ---------------------------------------------------------------------------
  // Decimal formatting of integers, as `${n}` and JSX text render them

  function DigitChar(d: nat): (c: char)
    requires d < 10
    ensures '0' <= c <= '9'
  {
    "0123456789"[d]
  }

  function DigitValue(c: char): (d: nat)
    requires '0' <= c <= '9'
    ensures d < 10 && DigitChar(d) == c
  {
    (c as int - '0' as int) as nat
  }

  predicate IsDigits(s: string) {
    forall i :: 0 <= i < |s| ==> '0' <= s[i] <= '9'
  }

  /** Every character of `s` from position `k` on is a decimal digit. */
  predicate DigitsFrom(s: string, k: nat) {
    forall i :: k <= i < |s| ==> '0' <= s[i] <= '9'
  }

  /** Decimal digits of `n`, most significant first, without leading zeros. */
  function NatToString(n: nat): (s: string)
    ensures 0 < |s| && IsDigits(s)
    ensures |s| > 1 ==> s[0] != '0'
    decreases n
  {
    if n < 10 then [DigitChar(n)] else NatToString(n / 10) + [DigitChar(n % 10)]
  }

  /** `${n}` for an integer `n` below 10^21 in magnitude (JavaScript prints `-0` as `0`). */
  function IntToString(n: int): (s: string)
    ensures 0 < |s|
    ensures n < 0 <==> s[0] == '-'
    ensures DigitsFrom(s, if n < 0 then 1 else 0)
    ensures n >= 0 && |s| > 1 ==> s[0] != '0'
    ensures n < 0 ==> 1 < |s| && s[1] != '0'
  {
    if n < 0 then "-" + NatToString(-n) else NatToString(n)
  }

  /** Reading decimal digits back, the inverse of `NatToString`. */
  function DigitsValue(s: string): nat
    requires IsDigits(s)
  {
    if |s| == 0 then 0 else DigitsValue(s[..|s| - 1]) * 10 + DigitValue(s[|s| - 1])
  }

  /** Reading unsigned decimal digits back; `None` for the empty text or a non-digit. */
  function DigitsOf(s: string): Option<int> {
    if 0 < |s| && IsDigits(s) then Some(DigitsValue(s)) else None
  }

  /** Reading an optionally signed decimal back. */
  function DecimalValue(s: string): Option<int> {
    if 0 < |s| && s[0] == '-' then
      match DigitsOf(s[1..])
      case Some(m) => Some(0 - m)
      case None => None
    else DigitsOf(s)
  }

  lemma {:induction false} NatToStringRoundTrip(n: nat)
    ensures DigitsValue(NatToString(n)) == n
    decreases n
  {
    if n >= 10 {
      NatToStringRoundTrip(n / 10);
      var s := NatToString(n);
      assert s[..|s| - 1] == NatToString(n / 10);
      assert DigitValue(s[|s| - 1]) == n % 10;
    }
  }

  /** The digits of `m`, with or without a leading `-`, read back as `m` or `-m`. */
  lemma NatToStringReadsBack(m: nat)
    ensures DecimalValue(NatToString(m)) == Some(m)
    ensures DecimalValue("-" + NatToString(m)) == Some(0 - m as int)
  {
    var t := NatToString(m);
    NatToStringRoundTrip(m);
    assert t[0] != '-';
    assert ("-" + t)[1..] == t;
  }

  /** The decimal text of an integer reads back as that integer. */
  lemma IntToStringRoundTrip(n: int)
    ensures DecimalValue(IntToString(n)) == Some(n)
  {
    if n < 0 {
      NatToStringReadsBack(-n);
    } else {
      NatToStringReadsBack(n);
    }
  }

  // ---------------------------------------------------------------------------
  // Strings

  predicate StartsWith(s: string, prefix: string) {
    |prefix| <= |s| && s[..|prefix|] == prefix
  }

  /** `String.prototype.indexOf(c)` for a character that occurs. */
  function IndexOf(s: string, c: char): (i: nat)
    requires c in s
    ensures i < |s| && s[i] == c && c !in s[..i]
  {
    if s[0] == c then 0
    else
      assert c in s[1..];
      var j := IndexOf(s[1..], c);
      assert s[..j + 1] == [s[0]] + s[1..][..j];
      j + 1
  }

  /** `String.prototype.replace(c, "")` with a one-character string pattern: drops the first `c` only. */
  function RemoveFirst(s: string, c: char): (r: string)
    ensures c !in s ==> r == s
    ensures c in s ==> |r| == |s| - 1 && c !in s[..IndexOf(s, c)] && r == s[..IndexOf(s, c)] + s[IndexOf(s, c) + 1..]
  {
    if c in s then
      var i := IndexOf(s, c);
      s[..i] + s[i + 1..]
    else s
  }

  /** `parts.join(sep)`: the first part opens the text and the last part closes it. */
  function Join(parts: seq<string>, sep: string): (r: string)
    ensures |parts| == 0 ==> r == ""
    ensures |parts| > 0 ==> |parts[0]| <= |r| && r[..|parts[0]|] == parts[0]
    ensures |parts| > 0 ==> |parts[|parts| - 1]| <= |r| && r[|r| - |parts[|parts| - 1]|..] == parts[|parts| - 1]
  {
    if |parts| == 0 then ""
    else if |parts| == 1 then parts[0]
    else
      var rest := Join(parts[1..], sep);
      assert (parts[0] + sep + rest)[..|parts[0]|] == parts[0];
      assert parts[|parts| - 1] == parts[1..][|parts[1..]| - 1];
      assert (parts[0] + sep + rest)[|parts[0] + sep + rest| - |rest|..] == rest;
      parts[0] + sep + rest
  }

  /** Joining from the other end: one more part adds the separator and that part at the back. */
  lemma {:induction false} JoinAppend(parts: seq<string>, x: string, sep: string)
    ensures Join(parts + [x], sep) == if |parts| == 0 then x else Join(parts, sep) + sep + x
  {
    if |parts| == 0 {
      assert parts + [x] == [x];
    } else if |parts| == 1 {
      assert parts + [x] == [parts[0], x];
      assert (parts + [x])[1..] == [x];
    } else {
      ConcatHead(parts, [x]);
      JoinAppend(parts[1..], x, sep);
      ConcatAssoc(parts[0] + sep, Join(parts[1..], sep), sep + x);
      ConcatAssoc(Join(parts[1..], sep), sep, x);
      ConcatAssoc(parts[0] + sep + Join(parts[1..], sep), sep, x);
    }
  }

  /**
    The regular-expression class `\s`: the ECMAScript WhiteSpace and
    LineTerminator code points.
   */
  predicate IsRegexSpace(c: char) {
    c == '\t' || c == '\n' || c == '\U{000B}' || c == '\U{000C}' || c == '\r' || c == ' '
    || c == '\U{00A0}' || c == '\U{1680}' || ('\U{2000}' <= c <= '\U{200A}')
    || c == '\U{2028}' || c == '\U{2029}' || c == '\U{202F}' || c == '\U{205F}'
    || c == '\U{3000}' || c == '\U{FEFF}'
  }

  predicate IsAsciiUpper(c: char) {
    'A' <= c <= 'Z'
  }

  /** A character that lower-casing leaves as it is (in this model). */
  predicate LowerFixed(c: char) {
    !IsAsciiUpper(c) && c != '\U{0130}' && c != '\U{212A}'
  }

  /**
    `toLowerCase` of one character. ASCII capitals map to ASCII small letters;
    U+0130 (capital I with dot above) maps to "i" followed by U+0307, and the
    Kelvin sign U+212A maps to "k" -- the only two non-ASCII characters whose
    lower case contains an ASCII character. Every other character is kept as it
    is: its true lower case is again non-ASCII and not white space.
   */
  function LowerChar(c: char): (r: string)
    ensures 0 < |r|
    ensures IsRegexSpace(c) ==> r == [c]
    ensures !IsRegexSpace(c) ==> forall i :: 0 <= i < |r| ==> !IsRegexSpace(r[i])
    ensures forall i :: 0 <= i < |r| ==> !IsAsciiUpper(r[i]) && LowerFixed(r[i])
    ensures LowerFixed(c) ==> r == [c]
    ensures IsAsciiUpper(c) ==> r == [(c as int + 32) as char] && 'a' <= r[0] <= 'z'
  {
    if IsAsciiUpper(c) then [(c as int + 32) as char]
    else if c == '\U{0130}' then ['i', '\U{0307}']
    else if c == '\U{212A}' then ['k']
    else [c]
  }

  /**
    `String.prototype.toLowerCase`: no capital ASCII letter is left, and on
    ASCII text each capital becomes its small letter while every other
    character stays where it is.
   */
  function ToLowerCase(s: string): (r: string)
    ensures |s| <= |r|
    ensures forall i :: 0 <= i < |r| ==> !IsAsciiUpper(r[i]) && LowerFixed(r[i])
    ensures (forall i :: 0 <= i < |s| ==> s[i] as int < 128) ==>
      |r| == |s| && forall i :: 0 <= i < |s| ==> r[i] == (if IsAsciiUpper(s[i]) then (s[i] as int + 32) as char else s[i])
  {
    if |s| == 0 then ""
    else
      LowerChar(s[0]) + ToLowerCase(s[1..])
  }

  /** Text made of characters that lower-casing keeps is its own lower case. */
  lemma {:induction false} ToLowerCaseOfFixed(s: string)
    requires forall i :: 0 <= i < |s| ==> LowerFixed(s[i])
    ensures ToLowerCase(s) == s
  {
    if |s| > 0 {
      ToLowerCaseOfFixed(s[1..]);
      ConcatHead(s, []);
    }
  }

  /** Lower-casing twice is lower-casing once. */
  lemma ToLowerCaseIdempotent(s: string)
    ensures ToLowerCase(ToLowerCase(s)) == ToLowerCase(s)
  {
    ToLowerCaseOfFixed(ToLowerCase(s));
  }

  lemma {:induction false} ToLowerCaseConcat(a: string, b: string)
    ensures ToLowerCase(a + b) == ToLowerCase(a) + ToLowerCase(b)
    decreases |a|
  {
    if |a| > 0 {
      ConcatHead(a, b);
      ToLowerCaseConcat(a[1..], b);
      ConcatAssoc(LowerChar(a[0]), ToLowerCase(a[1..]), ToLowerCase(b));
      assert ToLowerCase(a + b) == LowerChar(a[0]) + ToLowerCase(a[1..] + b);
      assert ToLowerCase(a) == LowerChar(a[0]) + ToLowerCase(a[1..]);
    } else {
      ConcatEmpty(a, b);
    }
  }

  /** `toUpperCase` restricted to ASCII letters, which is all it meets here (language codes). */
  function AsciiUpper(s: string): (r: string)
    ensures |r| == |s|
    ensures forall i :: 0 <= i < |s| && 'a' <= s[i] <= 'z' ==> r[i] == (s[i] as int - 32) as char
  {
    if |s| == 0 then ""
    else [if 'a' <= s[0] <= 'z' then (s[0] as int - 32) as char else s[0]] + AsciiUpper(s[1..])
  }
}
