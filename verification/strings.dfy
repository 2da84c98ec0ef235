/** Strings as `seq<char>` with the JavaScript string operations the pipeline uses:
    `trim`, `startsWith`, `includes`, `indexOf`, `split`/`join`, `replace` of the
    first occurrence, `substring(0, n)`, ASCII `toLowerCase`, `parseInt` and
    decimal rendering of a counter. */
module Strings {
  import opened Wrappers

  /** ECMAScript LineTerminator: the characters the regular-expression `.` does not match. */
  predicate IsLineTerminator(c: char) {
    c == '\n' || c == '\r' || c == '\U{2028}' || c == '\U{2029}'
  }

  /** ECMAScript WhiteSpace or LineTerminator: what `\s` matches and `trim` removes. */
  predicate IsSpace(c: char) {
    || IsLineTerminator(c)
    || c == ' ' || c == '\t' || c == '\U{0B}' || c == '\U{0C}'
    || c == '\U{A0}' || c == '\U{1680}' || ('\U{2000}' <= c <= '\U{200A}')
    || c == '\U{202F}' || c == '\U{205F}' || c == '\U{3000}' || c == '\U{FEFF}'
  }

  predicate AllSpace(s: string) {
    forall i :: 0 <= i < |s| ==> IsSpace(s[i])
  }

  /** Neither end of `s` is white space (what `trim` produces). */
  predicate IsTrimmed(s: string) {
    s == [] || (!IsSpace(s[0]) && !IsSpace(s[|s| - 1]))
  }

  /** `trimStart`: the suffix left after dropping the leading white space. */
  function TrimStart(s: string): (r: string)
    ensures |r| <= |s|
    ensures r == [] || !IsSpace(r[0])
    decreases |s|
  {
    if |s| > 0 && IsSpace(s[0]) then TrimStart(s[1..]) else s
  }

  /** `trimEnd`: the prefix left after dropping the trailing white space. */
  function TrimEnd(s: string): (r: string)
    ensures |r| <= |s|
    ensures r == [] || !IsSpace(r[|r| - 1])
    ensures r == [] || r[0] == s[0]
    decreases |s|
  {
    if |s| > 0 && IsSpace(s[|s| - 1]) then TrimEnd(s[..|s| - 1]) else s
  }

  /** `trim`. */
  function Trim(s: string): (r: string)
    ensures |r| <= |s|
    ensures IsTrimmed(r)
  {
    TrimEnd(TrimStart(s))
  }

  /** `trimStart` drops exactly the leading white space. */
  lemma {:induction false} TrimStartShape(s: string)
    ensures TrimStart(s) == s[|s| - |TrimStart(s)|..]
    ensures AllSpace(s[..|s| - |TrimStart(s)|])
    decreases |s|
  {
    if |s| > 0 && IsSpace(s[0]) {
      TrimStartShape(s[1..]);
      var n := |s| - |TrimStart(s)|;
      assert s[..n] == [s[0]] + s[1..][..n - 1];
    }
  }

  /** `trimEnd` drops exactly the trailing white space. */
  lemma {:induction false} TrimEndShape(s: string)
    ensures TrimEnd(s) == s[..|TrimEnd(s)|]
    ensures AllSpace(s[|TrimEnd(s)|..])
    decreases |s|
  {
    if |s| > 0 && IsSpace(s[|s| - 1]) {
      TrimEndShape(s[..|s| - 1]);
      var n := |TrimEnd(s)|;
      assert s[n..] == s[..|s| - 1][n..] + [s[|s| - 1]];
    }
  }

  /** `trim` gives "" exactly for all-white-space input. */
  lemma TrimEmptyIff(s: string)
    ensures Trim(s) == [] <==> AllSpace(s)
  {
    TrimStartShape(s);
    TrimEndShape(TrimStart(s));
    var t := TrimStart(s);
    if Trim(s) == [] {
      assert t == t[..0] && AllSpace(t[0..]);
      assert s == s[..|s| - |t|] + t;
    }
  }

  /** A string whose ends are not white space is its own trim. */
  lemma TrimOfTrimmed(s: string)
    requires IsTrimmed(s)
    ensures Trim(s) == s
  {
  }

  /** `s.startsWith(p)`. */
  predicate StartsWith(s: string, p: string) {
    |p| <= |s| && s[..|p|] == p
  }

  /** `p` occurs in `s` at position `i`. */
  predicate StartsAt(s: string, i: int, p: string) {
    0 <= i && i + |p| <= |s| && s[i..i + |p|] == p
  }

  /** `s.indexOf(p, i)`: the first position at or after `i` where `p` occurs. */
  function IndexOfFrom(s: string, p: string, i: nat): (r: Option<nat>)
    requires i <= |s|
    ensures r.Some? ==> i <= r.value <= |s| && StartsAt(s, r.value, p)
    ensures r.Some? ==> forall j :: i <= j < r.value ==> !StartsAt(s, j, p)
    ensures r.None? ==> forall j :: i <= j <= |s| ==> !StartsAt(s, j, p)
    decreases |s| - i
  {
    if StartsAt(s, i, p) then Some(i)
    else if i == |s| then None
    else IndexOfFrom(s, p, i + 1)
  }

  /** `s.includes(p)`. */
  predicate Contains(s: string, p: string) {
    IndexOfFrom(s, p, 0).Some?
  }

  lemma ContainsIff(s: string, p: string)
    ensures Contains(s, p) <==> exists j :: StartsAt(s, j, p)
  {
    if !Contains(s, p) {
      forall j | StartsAt(s, j, p) ensures false {
      }
    }
  }

  /** `parts.join(sep)`. */
  function Join(parts: seq<string>, sep: string): string
    decreases |parts|
  {
    if parts == [] then ""
    else if |parts| == 1 then parts[0]
    else parts[0] + sep + Join(parts[1..], sep)
  }

  /** `s.split(sep)` for a non-empty separator: the pieces between the successive
      leftmost non-overlapping occurrences of `sep`. */
  function Split(s: string, sep: string): (parts: seq<string>)
    requires |sep| > 0
    ensures |parts| >= 1
    ensures Join(parts, sep) == s
    decreases |s|
  {
    match IndexOfFrom(s, sep, 0)
    case None => [s]
    case Some(i) =>
      var rest := Split(s[i + |sep|..], sep);
      assert s == s[..i] + sep + s[i + |sep|..];
      [s[..i]] + rest
  }

  /** No piece of a split contains the separator. */
  lemma {:induction false} SplitPiecesFree(s: string, sep: string)
    requires |sep| > 0
    ensures forall k :: 0 <= k < |Split(s, sep)| ==> !Contains(Split(s, sep)[k], sep)
    decreases |s|
  {
    match IndexOfFrom(s, sep, 0)
    case None =>
      ContainsIff(s, sep);
    case Some(i) =>
      SplitPiecesFree(s[i + |sep|..], sep);
      var head := s[..i];
      ContainsIff(head, sep);
      forall j | 0 <= j && j + |sep| <= |head| ensures !StartsAt(head, j, sep) {
        assert !StartsAt(s, j, sep);
        assert head[j..j + |sep|] == s[j..j + |sep|];
      }
  }

  /** `render(xs[0], first) + render(xs[1], first + 1) + ...`: the text a `forEach`
      over `xs` appends, each element rendered with its running number. */
  function ConcatNumbered<T>(xs: seq<T>, first: nat, render: (T, nat) -> string): string
    decreases |xs|
  {
    if xs == [] then "" else render(xs[0], first) + ConcatNumbered(xs[1..], first + 1, render)
  }

  /** The element at index `i` is rendered with number `first + i`, between the
      renderings of the elements before and after it. */
  lemma {:induction false} ConcatNumberedAt<T>(xs: seq<T>, first: nat, render: (T, nat) -> string, i: nat)
    requires i < |xs|
    ensures ConcatNumbered(xs, first, render)
            == ConcatNumbered(xs[..i], first, render) + render(xs[i], first + i)
               + ConcatNumbered(xs[i + 1..], first + i + 1, render)
    decreases i
  {
    if i > 0 {
      ConcatNumberedAt(xs[1..], first + 1, render, i - 1);
      assert xs[1..][..i - 1] == xs[..i][1..];
      assert xs[1..][i - 1] == xs[i];
      assert xs[1..][i..] == xs[i + 1..];
      var head := render(xs[0], first);
      var before := ConcatNumbered(xs[..i][1..], first + 1, render);
      var mid := render(xs[i], first + i);
      var after := ConcatNumbered(xs[i + 1..], first + i + 1, render);
      assert ConcatNumbered(xs[..i], first, render) == head + before;
      assert head + (before + mid + after) == (head + before) + mid + after;
    } else {
      assert xs[..0] == [];
      assert xs[1..] == xs[i + 1..];
    }
  }

  /** `s.replace(p, "")` with a string pattern: deletes the first occurrence of `p`. */
  function RemoveFirst(s: string, p: string): (r: string)
    ensures !Contains(s, p) ==> r == s
    ensures Contains(s, p) ==> |r| == |s| - |p|
  {
    match IndexOfFrom(s, p, 0)
    case None => s
    case Some(i) => s[..i] + s[i + |p|..]
  }

  /** When `s` starts with `p`, the first occurrence is the prefix itself. */
  lemma RemoveFirstOfPrefix(s: string, p: string)
    requires StartsWith(s, p)
    ensures RemoveFirst(s, p) == s[|p|..]
  {
    assert StartsAt(s, 0, p);
  }

  /** ASCII `toLowerCase` of one character. */
  function Lower(c: char): char {
    if 'A' <= c <= 'Z' then (c as int + 32) as char else c
  }

  /** ASCII `toLowerCase`. */
  function ToLower(s: string): (r: string)
    ensures |r| == |s|
  {
    seq(|s|, i requires 0 <= i < |s| => Lower(s[i]))
  }

  predicate IsDigit(c: char) {
    '0' <= c <= '9'
  }

  predicate AllDigits(s: string) {
    forall i :: 0 <= i < |s| ==> IsDigit(s[i])
  }

  /** The value of `c` as a digit of a radix up to 36: '0' to '9', then 'a' or 'A'
      for 10 up to 'z' or 'Z' for 35; 36 for any other character. */
  function DigitValue(c: char): nat {
    if IsDigit(c) then c as int - '0' as int
    else if 'a' <= c <= 'z' then c as int - 'a' as int + 10
    else if 'A' <= c <= 'Z' then c as int - 'A' as int + 10
    else 36
  }

  /** `c` is a digit of the given radix. */
  predicate IsDigitIn(c: char, radix: nat) {
    DigitValue(c) < radix
  }

  function DigitChar(d: nat): (c: char)
    requires d < 10
    ensures IsDigit(c) && DigitValue(c) == d
  {
    ('0' as int + d) as char
  }

  /** The number a string of digits denotes in the given radix. */
  function DigitsValue(s: string, radix: nat): nat
    decreases |s|
  {
    if s == [] then 0 else DigitsValue(s[..|s| - 1], radix) * radix + DigitValue(s[|s| - 1])
  }

  /** Template-literal rendering `${n}` of a natural number. */
  function NatToString(n: nat): (r: string)
    ensures |r| >= 1 && AllDigits(r)
    decreases n
  {
    if n < 10 then [DigitChar(n)] else NatToString(n / 10) + [DigitChar(n % 10)]
  }

  /** Rendering a number in decimal and reading the digits back gives the number. */
  lemma {:induction false} NatToStringRoundTrip(n: nat)
    ensures DigitsValue(NatToString(n), 10) == n
    decreases n
  {
    if n >= 10 {
      NatToStringRoundTrip(n / 10);
      var r := NatToString(n);
      assert r[..|r| - 1] == NatToString(n / 10);
    }
  }

  /** The longest prefix of `s` made of digits of the radix. */
  function LeadingDigits(s: string, radix: nat): (r: string)
    ensures |r| <= |s|
    decreases |s|
  {
    if |s| > 0 && IsDigitIn(s[0], radix) then [s[0]] + LeadingDigits(s[1..], radix) else []
  }

  lemma {:induction false} LeadingDigitsShape(s: string, radix: nat)
    ensures LeadingDigits(s, radix) == s[..|LeadingDigits(s, radix)|]
    ensures forall i :: 0 <= i < |LeadingDigits(s, radix)| ==> IsDigitIn(s[i], radix)
    ensures |LeadingDigits(s, radix)| == |s| || !IsDigitIn(s[|LeadingDigits(s, radix)|], radix)
    decreases |s|
  {
    if |s| > 0 && IsDigitIn(s[0], radix) {
      LeadingDigitsShape(s[1..], radix);
      assert forall i :: 1 <= i < |s| ==> s[i] == s[1..][i - 1];
    }
  }

  /** `s` starts with "0x" or "0X". */
  predicate HasHexPrefix(s: string) {
    |s| >= 2 && s[0] == '0' && (s[1] == 'x' || s[1] == 'X')
  }

  /** `parseInt(s)` without a radix: leading white space, an optional sign, then a
      "0x" or "0X" prefix selects radix 16 and anything else radix 10; the longest
      run of digits of that radix follows. `None` stands for `NaN`, when there is
      no digit. */
  function ParseInt(s: string): (r: Option<int>)
  {
    var t := TrimStart(s);
    var negative := |t| > 0 && t[0] == '-';
    var body := if |t| > 0 && (t[0] == '-' || t[0] == '+') then t[1..] else t;
    var radix := if HasHexPrefix(body) then 16 else 10;
    var digits := LeadingDigits(if HasHexPrefix(body) then body[2..] else body, radix);
    var magnitude: int := DigitsValue(digits, radix);
    if digits == [] then None
    else Some(if negative then -magnitude else magnitude)
  }

  /** `parseInt` reads back every rendered page number. */
  lemma ParseIntOfNatToString(n: nat)
    ensures ParseInt(NatToString(n)) == Some(n)
  {
    var r := NatToString(n);
    assert !IsSpace(r[0]);
    assert TrimStart(r) == r;
    assert r[0] != '-' && r[0] != '+';
    assert !HasHexPrefix(r) by {
      if |r| >= 2 {
        assert IsDigit(r[1]);
      }
    }
    LeadingDigitsOfDigits(r, 10);
    NatToStringRoundTrip(n);
  }

  /** Without a radix, `parseInt` reads digits after "0x" as hexadecimal. */
  lemma ParseIntHex(digits: string)
    requires digits != [] && forall i :: 0 <= i < |digits| ==> IsDigitIn(digits[i], 16)
    ensures ParseInt("0x" + digits) == Some(DigitsValue(digits, 16))
  {
    var s := "0x" + digits;
    assert !IsSpace(s[0]);
    assert TrimStart(s) == s;
    assert HasHexPrefix(s) && s[2..] == digits;
    LeadingDigitsOfDigits(digits, 16);
  }

  lemma {:induction false} LeadingDigitsOfDigits(s: string, radix: nat)
    requires forall i :: 0 <= i < |s| ==> IsDigitIn(s[i], radix)
    ensures LeadingDigits(s, radix) == s
    decreases |s|
  {
    if s != [] {
      assert forall i :: 0 <= i < |s[1..]| ==> s[1..][i] == s[i + 1];
      LeadingDigitsOfDigits(s[1..], radix);
    }
  }
}
