/** String primitives of the JavaScript runtime that the dashboard's code uses:
    the `\d`/`\D` and `\s` character classes, ASCII case mapping,
    `String.prototype.includes`, `trim`, `parseInt` and the decimal rendering
    of integers. */
module Text {
  import opened Js
  import Lists

  predicate IsDigit(c: char) {
    '0' <= c <= '9'
  }

  predicate IsDigits(s: string) {
    forall i :: 0 <= i < |s| ==> IsDigit(s[i])
  }

  /** The ECMAScript WhiteSpace and LineTerminator code points: the class `\s`
      matches and the set `trim` and `parseInt` skip. */
  predicate IsSpace(c: char) {
    var n := c as int;
    || n == 0x09 || n == 0x0A || n == 0x0B || n == 0x0C || n == 0x0D
    || n == 0x20 || n == 0xA0 || n == 0x1680 || (0x2000 <= n <= 0x200A)
    || n == 0x2028 || n == 0x2029 || n == 0x202F || n == 0x205F
    || n == 0x3000 || n == 0xFEFF
  }

  predicate NoSpace(s: string) {
    forall i :: 0 <= i < |s| ==> !IsSpace(s[i])
  }

  predicate IsUpper(c: char) {
    'A' <= c <= 'Z'
  }

  /** ASCII part of `toLowerCase`. */
  function LowerChar(c: char): (r: char)
    ensures !IsUpper(r)
    ensures IsSpace(r) <==> IsSpace(c)
    ensures !IsUpper(c) ==> r == c
  {
    if IsUpper(c) then (c as int + 32) as char else c
  }

  /** ASCII part of `toUpperCase`. */
  function UpperChar(c: char): (r: char)
    ensures !('a' <= r <= 'z')
    ensures !('a' <= c <= 'z') ==> r == c
  {
    if 'a' <= c <= 'z' then (c as int - 32) as char else c
  }

  function ToLower(s: string): (r: string)
    ensures |r| == |s|
    ensures forall i :: 0 <= i < |s| ==> r[i] == LowerChar(s[i])
  {
    seq(|s|, i requires 0 <= i < |s| => LowerChar(s[i]))
  }

  lemma ToLowerIdempotent(s: string)
    ensures ToLower(ToLower(s)) == ToLower(s)
  {
  }

  /** `hay.includes(needle)`. */
  predicate Contains(hay: string, needle: string) {
    exists i :: 0 <= i <= |hay| && needle <= hay[i..]
  }

  lemma ContainsEmpty(hay: string)
    ensures Contains(hay, "")
  {
    assert "" <= hay[0..];
  }

  /** Lower-casing keeps a part of a text a part of it. */
  lemma ContainsLowerPart(pre: string, mid: string, post: string)
    ensures Contains(ToLower(pre + mid + post), ToLower(mid))
  {
    var s := pre + mid + post;
    assert forall k :: 0 <= k < |mid| ==> s[|pre| + k] == mid[k];
    assert ToLower(mid) <= ToLower(s)[|pre|..];
  }

  /** `s.replace(/\D/g, "")`: the decimal digits of `s`, in order. */
  function KeepDigits(s: string): (r: string)
    ensures IsDigits(r)
    ensures Lists.IsSubsequence(r, s)
    ensures forall c :: multiset(r)[c] == if IsDigit(c) then multiset(s)[c] else 0
  {
    var r := Lists.Filter(s, IsDigit);
    assert forall i :: 0 <= i < |r| ==> IsDigit(r[i]) by {
      forall i | 0 <= i < |r| ensures IsDigit(r[i]) {
        assert r[i] in r;
      }
    }
    r
  }

  /** Stripping non-digits from a string of digits leaves it as it is. */
  lemma KeepDigitsOfDigits(s: string)
    requires IsDigits(s)
    ensures KeepDigits(s) == s
  {
  }

  lemma KeepDigitsIdempotent(s: string)
    ensures KeepDigits(KeepDigits(s)) == KeepDigits(s)
  {
    KeepDigitsOfDigits(KeepDigits(s));
  }

  lemma {:induction false} KeepDigitsEmpty(s: string)
    ensures KeepDigits(s) == "" <==> forall i :: 0 <= i < |s| ==> !IsDigit(s[i])
  {
    var r := KeepDigits(s);
    if r == "" {
      forall i | 0 <= i < |s| ensures !IsDigit(s[i]) {
        assert s[i] in multiset(s);
      }
    } else {
      assert r[0] in multiset(r);
      assert multiset(s)[r[0]] > 0;
      var i :| 0 <= i < |s| && s[i] == r[0];
    }
  }

  // ---------------------------------------------------------------------
  // Decimal numerals

  function DigitChar(d: nat): (c: char)
    requires d < 10
    ensures IsDigit(c)
  {
    ('0' as int + d) as char
  }

  function DigitValue(c: char): (d: nat)
    requires IsDigit(c)
    ensures d < 10
    ensures DigitChar(d) == c
  {
    c as int - '0' as int
  }

  /** The value of a string of decimal digits (0 for the empty string). */
  function ValueOf(s: string): nat
    requires IsDigits(s)
  {
    if s == [] then 0 else ValueOf(s[..|s| - 1]) * 10 + DigitValue(s[|s| - 1])
  }

  /** A numeral without superfluous leading zeros: "0", or digits not
      starting with '0'. */
  predicate IsCanonical(s: string) {
    && |s| > 0
    && IsDigits(s)
    && (s[0] == '0' ==> |s| == 1)
  }

  /** The shortest decimal numeral of `n`, as `String(n)` renders a safe
      integer. */
  function Dec(n: nat): (r: string)
    ensures IsCanonical(r)
    ensures ValueOf(r) == n
  {
    if n < 10 then [DigitChar(n)]
    else
      var r := Dec(n / 10) + [DigitChar(n % 10)];
      assert r[..|r| - 1] == Dec(n / 10);
      r
  }

  lemma {:induction false} ValueOfPositive(s: string)
    requires IsCanonical(s) && s[0] != '0'
    ensures ValueOf(s) > 0
    decreases |s|
  {
    if |s| > 1 {
      ValueOfPositive(s[..|s| - 1]);
    } else {
      assert ValueOf(s) == DigitValue(s[0]);
    }
  }

  /** Reading a canonical numeral and writing it back gives it unchanged. */
  lemma {:induction false} DecOfValue(s: string)
    requires IsCanonical(s)
    ensures Dec(ValueOf(s)) == s
    decreases |s|
  {
    if |s| == 1 {
      assert ValueOf(s) == DigitValue(s[0]);
    } else {
      var p := s[..|s| - 1];
      ValueOfPositive(p);
      DecOfValue(p);
      var v := ValueOf(s);
      assert v == ValueOf(p) * 10 + DigitValue(s[|s| - 1]);
      assert v / 10 == ValueOf(p) && v % 10 == DigitValue(s[|s| - 1]);
      assert s == p + [s[|s| - 1]];
    }
  }

  /** Different numbers have different numerals. */
  lemma DecInjective(m: nat, n: nat)
    ensures Dec(m) == Dec(n) <==> m == n
  {
  }

  /** Drops leading zeros, keeping a single "0" for a string of zeros. */
  function Canonical(s: string): (r: string)
    requires IsDigits(s) && |s| > 0
    ensures IsCanonical(r)
    ensures ValueOf(r) == ValueOf(s)
    decreases |s|
  {
    if |s| > 1 && s[0] == '0' then
      ValueOfLeadingZero(s);
      Canonical(s[1..])
    else s
  }

  lemma {:induction false} ValueOfLeadingZero(s: string)
    requires IsDigits(s) && |s| > 0 && s[0] == '0'
    ensures ValueOf(s) == ValueOf(s[1..])
    decreases |s|
  {
    if |s| > 1 {
      var p := s[..|s| - 1];
      ValueOfLeadingZero(p);
      assert p[1..] == s[1..][..|s[1..]| - 1];
    }
  }

  /** The canonical numeral of a non-empty digit string is the decimal
      rendering of its value. */
  lemma DecOfDigits(s: string)
    requires IsDigits(s) && |s| > 0
    ensures Dec(ValueOf(s)) == Canonical(s)
  {
    DecOfValue(Canonical(s));
  }

  /** `String(i)` for an integer. */
  function IntText(i: int): (r: string)
    ensures i >= 0 ==> r == Dec(i)
    ensures i < 0 ==> |r| > 1 && r[0] == '-' && r[1..] == Dec(-i)
  {
    if i < 0 then "-" + Dec(-i) else Dec(i)
  }

  // ---------------------------------------------------------------------
  // parseInt and trim

  function TrimStart(s: string): (r: string)
    ensures |r| <= |s| && r == s[|s| - |r|..]
    ensures r == [] || !IsSpace(r[0])
    ensures forall i :: 0 <= i < |s| - |r| ==> IsSpace(s[i])
  {
    if s != [] && IsSpace(s[0]) then TrimStart(s[1..]) else s
  }

  function TrimEnd(s: string): (r: string)
    ensures |r| <= |s| && r == s[..|r|]
    ensures r == [] || !IsSpace(r[|r| - 1])
    ensures forall i :: |r| <= i < |s| ==> IsSpace(s[i])
  {
    if s != [] && IsSpace(s[|s| - 1]) then TrimEnd(s[..|s| - 1]) else s
  }

  /** `s.trim()`. */
  function Trim(s: string): string {
    TrimEnd(TrimStart(s))
  }

  /** A string trims to "" exactly when every character is white space. */
  lemma TrimEmpty(s: string)
    ensures Trim(s) == "" <==> forall i :: 0 <= i < |s| ==> IsSpace(s[i])
  {
    var t := TrimStart(s);
    if t != [] {
      assert t[0] == s[|s| - |t|];
    }
  }

  /** The longest prefix of `s` made of digits. */
  function DigitPrefix(s: string): (r: string)
    ensures IsDigits(r) && r <= s
    ensures |r| < |s| ==> !IsDigit(s[|r|])
  {
    if s != [] && IsDigit(s[0]) then [s[0]] + DigitPrefix(s[1..]) else []
  }

  /** `parseInt(s)` for the decimal strings the dashboard feeds it: leading
      white space, an optional sign, then the longest run of digits. `None`
      stands for `NaN`. */
  function ParseInt(s: string): Option<int> {
    var t := TrimStart(s);
    var signed := |t| > 0 && (t[0] == '-' || t[0] == '+');
    var d := DigitPrefix(if signed then t[1..] else t);
    if d == "" then None
    else
      var v: int := ValueOf(d);
      if signed && t[0] == '-' then Some(-v) else Some(v)
  }

  lemma {:induction false} DigitPrefixOfDigits(s: string)
    requires IsDigits(s)
    ensures DigitPrefix(s) == s
    decreases |s|
  {
    if s != [] {
      DigitPrefixOfDigits(s[1..]);
    }
  }

  /** On a non-empty digit string `parseInt` is the numeral's value. */
  lemma ParseIntOfDigits(s: string)
    requires IsDigits(s) && s != ""
    ensures ParseInt(s) == Some(ValueOf(s))
  {
    assert !IsSpace(s[0]);
    DigitPrefixOfDigits(s);
  }

  /** A minus sign before digits negates their value. */
  lemma ParseIntOfNegative(d: string)
    requires IsDigits(d) && d != ""
    ensures ParseInt("-" + d) == Some(-(ValueOf(d) as int))
  {
    ParseIntOfMinus("-" + d, d);
  }

  /** A text that starts with '-' and continues with digits only. */
  lemma ParseIntOfMinus(t: string, d: string)
    requires IsDigits(d) && d != "" && t == "-" + d
    ensures ParseInt(t) == Some(-(ValueOf(d) as int))
  {
    assert t[0] == '-' && t[1..] == d;
    TrimStartKeeps(t);
    DigitPrefixOfDigits(d);
  }

  /** Text that does not start with white space is left alone by `TrimStart`. */
  lemma TrimStartKeeps(s: string)
    requires s != [] && !IsSpace(s[0])
    ensures TrimStart(s) == s
  {
  }

  /** `parseInt(String(i)) === i`. */
  lemma ParseIntOfIntText(i: int)
    ensures ParseInt(IntText(i)) == Some(i)
  {
    if i < 0 {
      ParseIntOfNegative(Dec(-i));
    } else {
      ParseIntOfDigits(Dec(i));
    }
  }

  /** `n` as a numeral when `s` is a canonical numeral, otherwise `None`. */
  function ParseDec(s: string): (r: Option<nat>)
    ensures r.Some? <==> IsCanonical(s)
    ensures r.Some? ==> Dec(r.value) == s
  {
    if IsCanonical(s) then DecOfValue(s); Some(ValueOf(s)) else None
  }

  lemma ParseDecOfDec(n: nat)
    ensures ParseDec(Dec(n)) == Some(n)
  {
  }

  // ---------------------------------------------------------------------
  // Splitting at a separator

  /** Splits at the first occurrence of `sep`. */
  function SplitFirst(s: string, sep: char): (r: Option<(string, string)>)
    ensures r.Some? ==> s == r.value.0 + [sep] + r.value.1 && sep !in r.value.0
    ensures r.None? <==> sep !in s
  {
    if s == [] then None
    else if s[0] == sep then Some(([], s[1..]))
    else match SplitFirst(s[1..], sep)
      case None => None
      case Some(p) => Some(([s[0]] + p.0, p.1))
  }

  /** Splits at the last occurrence of `sep`. */
  function SplitLast(s: string, sep: char): (r: Option<(string, string)>)
    ensures r.Some? ==> s == r.value.0 + [sep] + r.value.1 && sep !in r.value.1
    ensures r.None? <==> sep !in s
  {
    if s == [] then None
    else if s[|s| - 1] == sep then Some((s[..|s| - 1], []))
    else match SplitLast(s[..|s| - 1], sep)
      case None =>
        assert s == s[..|s| - 1] + [s[|s| - 1]];
        None
      case Some(p) => Some((p.0, p.1 + [s[|s| - 1]]))
  }

  lemma SplitFirstOfJoin(a: string, sep: char, b: string)
    requires sep !in a
    ensures SplitFirst(a + [sep] + b, sep) == Some((a, b))
  {
    var r := SplitFirst(a + [sep] + b, sep);
    var (x, y) := r.value;
    JoinCancel(a, x, sep, b, y);
  }

  lemma SplitLastOfJoin(a: string, sep: char, b: string)
    requires sep !in b
    ensures SplitLast(a + [sep] + b, sep) == Some((a, b))
  {
    var r := SplitLast(a + [sep] + b, sep);
    var (x, y) := r.value;
    JoinCancelRight(a, x, sep, b, y);
  }

  /** Two splits of one string at a separator absent from both left parts agree. */
  lemma {:induction false} JoinCancel(a: string, x: string, sep: char, b: string, y: string)
    requires sep !in a && sep !in x
    requires a + [sep] + b == x + [sep] + y
    ensures a == x && b == y
    decreases |a|
  {
    if a == [] || x == [] {
      assert (a + [sep] + b)[0] == (x + [sep] + y)[0];
      assert a == [] && x == [];
      assert b == (a + [sep] + b)[1..];
      assert y == (x + [sep] + y)[1..];
    } else {
      assert a[0] == (a + [sep] + b)[0] == x[0];
      assert (a + [sep] + b)[1..] == a[1..] + [sep] + b;
      assert (x + [sep] + y)[1..] == x[1..] + [sep] + y;
      JoinCancel(a[1..], x[1..], sep, b, y);
      assert a == [a[0]] + a[1..];
      assert x == [x[0]] + x[1..];
    }
  }

  /** Two splits of one string at a separator absent from both right parts agree. */
  lemma {:induction false} JoinCancelRight(a: string, x: string, sep: char, b: string, y: string)
    requires sep !in b && sep !in y
    requires a + [sep] + b == x + [sep] + y
    ensures a == x && b == y
    decreases |b|
  {
    var s := a + [sep] + b;
    if b == [] || y == [] {
      assert s[|s| - 1] == (x + [sep] + y)[|s| - 1];
      assert b == [] && y == [];
      assert a == s[..|s| - 1];
      assert x == s[..|s| - 1];
    } else {
      var b' := b[..|b| - 1];
      var y' := y[..|y| - 1];
      assert b[|b| - 1] == s[|s| - 1] == y[|y| - 1];
      assert s[..|s| - 1] == a + [sep] + b';
      assert s[..|s| - 1] == x + [sep] + y';
      JoinCancelRight(a, x, sep, b', y');
      assert b == b' + [b[|b| - 1]];
      assert y == y' + [y[|y| - 1]];
    }
  }

  lemma DecHasNoSeparator(n: nat, sep: char)
    requires !IsDigit(sep)
    ensures sep !in Dec(n)
  {
    var d := Dec(n);
    forall i | 0 <= i < |d| ensures d[i] != sep {
      assert IsDigit(d[i]);
    }
  }

  /** Removes a fixed prefix and suffix, or fails when either is absent. */
  function Between(s: string, prefix: string, suffix: string): (r: Option<string>)
    ensures r.Some? ==> s == prefix + r.value + suffix
  {
    if |prefix| + |suffix| <= |s| && prefix <= s && s[|s| - |suffix|..] == suffix then
      var m := s[|prefix|..|s| - |suffix|];
      assert s == prefix + m + suffix;
      Some(m)
    else None
  }

  lemma BetweenOfJoin(prefix: string, m: string, suffix: string)
    ensures Between(prefix + m + suffix, prefix, suffix) == Some(m)
  {
    var s := prefix + m + suffix;
    assert s[|s| - |suffix|..] == suffix;
    assert s[|prefix|..|s| - |suffix|] == m;
  }
}
