/** The Python 2 unicode string operations the handler relies on:
    strip(), split(sep), join, lower(), upper(), replace(old, new),
    the regular-expression test for a digit and "%d" formatting. */
module Text {

  /** unicode.isspace() of Python 2.7 (Unicode 5.2): exactly the characters strip() removes. */
  predicate IsSpace(c: char)
  {
    || ('\t' <= c <= '\r')
    || ('\U{1C}' <= c <= '\U{1F}')
    || c == ' ' || c == '\U{85}' || c == '\U{A0}'
    || c == '\U{1680}' || c == '\U{180E}'
    || ('\U{2000}' <= c <= '\U{200A}')
    || c == '\U{2028}' || c == '\U{2029}' || c == '\U{202F}' || c == '\U{205F}' || c == '\U{3000}'
  }

  /** The end of the run of white space that starts at position i of s. */
  function SpaceRunEnd(s: string, i: nat): (k: nat)
    requires i <= |s|
    ensures i <= k <= |s|
    ensures forall j :: i <= j < k ==> IsSpace(s[j])
    ensures k == |s| || !IsSpace(s[k])
    decreases |s| - i
  {
    if i < |s| && IsSpace(s[i]) then SpaceRunEnd(s, i + 1) else i
  }

  /** The start of the run of white space that ends at position j of s, going back no further than lo. */
  function SpaceRunStart(s: string, lo: nat, j: nat): (k: nat)
    requires lo <= j <= |s|
    ensures lo <= k <= j
    ensures forall t :: k <= t < j ==> IsSpace(s[t])
    ensures k == lo || !IsSpace(s[k - 1])
    decreases j
  {
    if j > lo && IsSpace(s[j - 1]) then SpaceRunStart(s, lo, j - 1) else j
  }

  /** s.strip(): s is some white space, then the result, then some white space,
      and the result neither starts nor ends with white space. */
  function Strip(s: string): (r: string)
    ensures var a := SpaceRunEnd(s, 0);
      && a + |r| <= |s|
      && r == s[a..a + |r|]
      && (forall j :: 0 <= j < a ==> IsSpace(s[j]))
      && (forall j :: a + |r| <= j < |s| ==> IsSpace(s[j]))
    ensures Trimmed(r)
  {
    var a := SpaceRunEnd(s, 0);
    var b := SpaceRunStart(s, a, |s|);
    s[a..b]
  }

  /** Neither starts nor ends with white space: what strip() leaves. */
  predicate Trimmed(s: string)
  {
    s == [] || (!IsSpace(s[0]) && !IsSpace(s[|s| - 1]))
  }

  /** Stripping twice changes nothing. */
  lemma StripIdempotent(s: string)
    ensures Strip(Strip(s)) == Strip(s)
  {
    var r := Strip(s);
    assert SpaceRunEnd(r, 0) == 0;
    assert SpaceRunStart(r, 0, |r|) == |r|;
  }

  /** The position of the first occurrence of c in s, or |s| when there is none (s.find(c) with -1 as |s|). */
  function IndexOf(s: string, c: char): (k: nat)
    ensures k <= |s|
    ensures k < |s| ==> s[k] == c
    ensures c !in s[..k]
  {
    if |s| == 0 then 0
    else if s[0] == c then 0
    else
      var k := 1 + IndexOf(s[1..], c);
      assert s[..k] == [s[0]] + s[1..][..k - 1];
      k
  }

  /** s.split(sep) for a one-character separator: the pieces between the separators, never an empty list. */
  function Split(s: string, sep: char): (parts: seq<string>)
    ensures |parts| >= 1
    ensures forall i :: 0 <= i < |parts| ==> sep !in parts[i]
    decreases |s|
  {
    var k := IndexOf(s, sep);
    if k == |s| then
      assert s[..k] == s;
      [s]
    else
      [s[..k]] + Split(s[k + 1..], sep)
  }

  /** sep.join(parts). */
  function Join(sep: string, parts: seq<string>): string
  {
    if |parts| == 0 then ""
    else if |parts| == 1 then parts[0]
    else parts[0] + sep + Join(sep, parts[1..])
  }

  /** Joining the pieces of a split with the separator gives back the string. */
  lemma {:induction false} JoinSplit(s: string, sep: char)
    ensures Join([sep], Split(s, sep)) == s
    decreases |s|
  {
    var k := IndexOf(s, sep);
    if k < |s| {
      JoinSplit(s[k + 1..], sep);
      var rest := Split(s[k + 1..], sep);
      assert Split(s, sep) == [s[..k]] + rest;
      assert Split(s, sep)[1..] == rest;
      assert s == s[..k] + [sep] + s[k + 1..];
    }
  }

  /** The first occurrence of c in a + [c] + b is the one after a, when a holds none. */
  lemma {:induction false} IndexOfPrefix(a: string, c: char, b: string)
    requires c !in a
    ensures IndexOf(a + [c] + b, c) == |a|
    ensures IndexOf(a, c) == |a|
  {
    if |a| > 0 {
      assert a[0] in a;
      IndexOfPrefix(a[1..], c, b);
      assert (a + [c] + b)[1..] == a[1..] + [c] + b;
    }
  }

  /** Splitting a join of separator-free pieces gives back the pieces. */
  lemma {:induction false} SplitJoin(parts: seq<string>, sep: char)
    requires |parts| >= 1
    requires forall i :: 0 <= i < |parts| ==> sep !in parts[i]
    ensures Split(Join([sep], parts), sep) == parts
  {
    if |parts| == 1 {
      IndexOfPrefix(parts[0], sep, "");
    } else {
      var rest := Join([sep], parts[1..]);
      var s := parts[0] + [sep] + rest;
      assert Join([sep], parts) == s;
      IndexOfPrefix(parts[0], sep, rest);
      assert s[..|parts[0]|] == parts[0];
      assert s[|parts[0]| + 1..] == rest;
      SplitJoin(parts[1..], sep);
      assert parts == [parts[0]] + parts[1..];
    }
  }

  predicate IsUpperAscii(c: char)
  {
    'A' <= c <= 'Z'
  }

  predicate IsLowerAscii(c: char)
  {
    'a' <= c <= 'z'
  }

  function LowerChar(c: char): char
  {
    if IsUpperAscii(c) then (c as int - 'A' as int + 'a' as int) as char else c
  }

  function UpperChar(c: char): (u: char)
    ensures !IsLowerAscii(u)
    ensures IsLowerAscii(c) ==> LowerChar(u) == c
    ensures !IsLowerAscii(c) ==> u == c
  {
    if IsLowerAscii(c) then (c as int - 'a' as int + 'A' as int) as char else c
  }

  /** s.lower(), on the ASCII letters: same length, no upper-case letter left,
      every other character where it was. */
  function Lower(s: string): (r: string)
    ensures |r| == |s|
    ensures forall i :: 0 <= i < |r| ==> !IsUpperAscii(r[i])
    ensures forall i :: 0 <= i < |s| && !IsUpperAscii(s[i]) ==> r[i] == s[i]
    ensures forall i :: 0 <= i < |s| && IsUpperAscii(s[i]) ==> IsLowerAscii(r[i]) && UpperChar(r[i]) == s[i]
  {
    seq(|s|, i requires 0 <= i < |s| => LowerChar(s[i]))
  }

  /** s.replace(old, new) for single characters: same length, no `old` left
      (when old and new differ), every other character where it was. */
  function ReplaceChar(s: string, target: char, replacement: char): (r: string)
    ensures |r| == |s|
    ensures target != replacement ==> target !in r
    ensures forall i :: 0 <= i < |s| ==> r[i] == (if s[i] == target then replacement else s[i])
  {
    seq(|s|, i requires 0 <= i < |s| => if s[i] == target then replacement else s[i])
  }

  /** Replacing a character a second time changes nothing. */
  lemma ReplaceIdempotent(s: string, target: char, replacement: char)
    requires target != replacement
    ensures ReplaceChar(ReplaceChar(s, target, replacement), target, replacement) == ReplaceChar(s, target, replacement)
  {
    var r := ReplaceChar(s, target, replacement);
    assert forall i :: 0 <= i < |r| ==> r[i] != target;
  }

  predicate IsDigit(c: char)
  {
    '0' <= c <= '9'
  }

  predicate AllDigits(s: string)
  {
    forall i :: 0 <= i < |s| ==> IsDigit(s[i])
  }

  /** re.search('\d', s) finds a match. */
  predicate HasDigit(s: string)
  {
    exists i :: 0 <= i < |s| && IsDigit(s[i])
  }

  function DigitValue(c: char): nat
    requires IsDigit(c)
  {
    c as int - '0' as int
  }

  function DigitChar(d: nat): (c: char)
    requires d < 10
    ensures IsDigit(c) && DigitValue(c) == d
  {
    ('0' as int + d) as char
  }

  function Pow10(n: nat): (p: nat)
    ensures p >= 1
  {
    if n == 0 then 1 else 10 * Pow10(n - 1)
  }

  /** The number a string of decimal digits denotes. */
  function DecimalValue(s: string): nat
    requires AllDigits(s)
  {
    if |s| == 0 then 0 else DecimalValue(s[..|s| - 1]) * 10 + DigitValue(s[|s| - 1])
  }

  lemma {:induction false} DecimalValueBound(s: string)
    requires AllDigits(s)
    ensures DecimalValue(s) < Pow10(|s|)
  {
    if |s| > 0 {
      DecimalValueBound(s[..|s| - 1]);
    }
  }

  /** The last `width` decimal digits of n, zero-padded on the left (strftime's "%02d" / "%04d"). */
  function PadDecimal(n: nat, width: nat): (r: string)
    ensures |r| == width && AllDigits(r)
  {
    if width == 0 then "" else PadDecimal(n / 10, width - 1) + [DigitChar(n % 10)]
  }

  /** Padding a number that fits the width and reading it back gives the number. */
  lemma {:induction false} PadDecimalValue(n: nat, width: nat)
    requires n < Pow10(width)
    ensures DecimalValue(PadDecimal(n, width)) == n
  {
    if width > 0 {
      PadDecimalValue(n / 10, width - 1);
      var r := PadDecimal(n, width);
      assert r[..width - 1] == PadDecimal(n / 10, width - 1);
    } else {
      assert n == 0;
    }
  }

  /** Reading a digit string and padding it back to its own width gives the string. */
  lemma {:induction false} DecimalValuePad(s: string)
    requires AllDigits(s)
    ensures PadDecimal(DecimalValue(s), |s|) == s
  {
    if |s| > 0 {
      var init := s[..|s| - 1];
      DecimalValuePad(init);
      var n := DecimalValue(s);
      assert n / 10 == DecimalValue(init);
      assert n % 10 == DigitValue(s[|s| - 1]);
      assert s == init + [s[|s| - 1]];
    }
  }

  /** "%d" % n: the shortest decimal numeral of n. */
  function Decimal(n: nat): (r: string)
    ensures |r| >= 1 && AllDigits(r)
    ensures r[0] == '0' ==> n == 0
  {
    if n < 10 then [DigitChar(n)] else Decimal(n / 10) + [DigitChar(n % 10)]
  }

  /** The numeral "%d" writes reads back as the number. */
  lemma {:induction false} DecimalRoundTrip(n: nat)
    ensures DecimalValue(Decimal(n)) == n
  {
    if n >= 10 {
      DecimalRoundTrip(n / 10);
      var r := Decimal(n);
      assert r[..|r| - 1] == Decimal(n / 10);
    } else {
      assert Decimal(n)[..0] == "";
    }
  }
}
