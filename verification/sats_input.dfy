/** The sats amount input (src/app/satsInput.tsx): it forwards only the
    digits the user types, shows the raw value while focused, and shows the
    value with thousands separators (en-US: a comma every three digits from
    the right) otherwise. */
module SatsInput {
  import opened Text
  import Js
  import Lists

  /** The `value` prop: a text or a number. Numbers are whole and
      non-negative here. */
  datatype SatsValue = Text(text: string) | Num(n: nat)

  predicate Truthy(v: SatsValue) {
    match v
    case Text(s) => s != ""
    case Num(n) => n != 0
  }

  /** `String(v)`. */
  function ToText(v: SatsValue): string {
    match v
    case Text(s) => s
    case Num(n) => Dec(n)
  }

  /** The input's change handler: what it hands to the parent. */
  function HandleChange(typed: string): (r: string)
    ensures IsDigits(r)
    ensures Lists.IsSubsequence(r, typed)
    ensures forall c :: IsDigit(c) ==> multiset(r)[c] == multiset(typed)[c]
  {
    KeepDigits(typed)
  }

  /** A digit string with a ',' inserted between each group of three,
      counting from the right. */
  function Group(d: string): (r: string)
    requires IsDigits(d)
    decreases |d|
  {
    if |d| <= 3 then d else Group(d[..|d| - 3]) + "," + d[|d| - 3..]
  }

  /** The shape of a grouped numeral: non-empty, a ',' exactly at the
      positions that are a multiple of four from the end, digits elsewhere,
      and so no ',' first. */
  predicate WellGrouped(t: string) {
    && |t| > 0 && |t| % 4 != 0
    && forall i :: 0 <= i < |t| ==> (t[i] == ',' <==> (|t| - i) % 4 == 0) && (t[i] != ',' ==> IsDigit(t[i]))
  }

  /** Deletes the separators. */
  function RemoveCommas(t: string): (r: string)
    ensures ',' !in r
    ensures |r| <= |t|
  {
    if t == [] then []
    else (if t[0] == ',' then [] else [t[0]]) + RemoveCommas(t[1..])
  }

  /** Appending a separator and three digits to a grouped numeral keeps it
      grouped. */
  lemma GroupedAppend(g: string, l: string)
    requires WellGrouped(g) && |l| == 3 && IsDigits(l)
    ensures WellGrouped(g + "," + l)
  {
    var t := g + "," + l;
    forall i | 0 <= i < |t|
      ensures (t[i] == ',' <==> (|t| - i) % 4 == 0) && (t[i] != ',' ==> IsDigit(t[i]))
    {
      if i < |g| {
        assert t[i] == g[i];
        assert |t| - i == (|g| - i) + 4;
      } else if i > |g| {
        assert t[i] == l[i - |g| - 1];
      }
    }
  }

  lemma {:induction false} GroupWellGrouped(d: string)
    requires IsDigits(d) && |d| > 0
    ensures WellGrouped(Group(d))
    decreases |d|
  {
    if |d| > 3 {
      GroupWellGrouped(d[..|d| - 3]);
      GroupedAppend(Group(d[..|d| - 3]), d[|d| - 3..]);
    }
  }

  lemma {:induction false} RemoveCommasDigits(d: string)
    requires IsDigits(d)
    ensures RemoveCommas(d) == d
    decreases |d|
  {
    if d != [] {
      assert IsDigit(d[0]);
      RemoveCommasDigits(d[1..]);
    }
  }

  lemma {:induction false} RemoveCommasAppend(a: string, b: string)
    ensures RemoveCommas(a + b) == RemoveCommas(a) + RemoveCommas(b)
    decreases |a|
  {
    if a == [] {
      assert a + b == b;
    } else {
      var head := if a[0] == ',' then [] else [a[0]];
      assert (a + b)[0] == a[0];
      assert (a + b)[1..] == a[1..] + b;
      assert RemoveCommas(a + b) == head + RemoveCommas(a[1..] + b);
      RemoveCommasAppend(a[1..], b);
      assert head + (RemoveCommas(a[1..]) + RemoveCommas(b)) == (head + RemoveCommas(a[1..])) + RemoveCommas(b);
    }
  }

  lemma RemoveCommasJoin(g: string, l: string)
    ensures RemoveCommas(g + "," + l) == RemoveCommas(g) + RemoveCommas(l)
  {
    RemoveCommasAppend(g + ",", l);
    RemoveCommasAppend(g, ",");
  }

  lemma {:induction false} RemoveCommasGroup(d: string)
    requires IsDigits(d)
    ensures RemoveCommas(Group(d)) == d
    decreases |d|
  {
    if |d| <= 3 {
      RemoveCommasDigits(d);
    } else {
      var l := d[|d| - 3..];
      RemoveCommasGroup(d[..|d| - 3]);
      RemoveCommasJoin(Group(d[..|d| - 3]), l);
      RemoveCommasDigits(l);
      assert d == d[..|d| - 3] + l;
    }
  }

  /** The unfocused rendering: the digits of the value as a number, grouped;
      empty when the value has no digits. */
  function FormattedValue(v: SatsValue): (r: string)
    ensures KeepDigits(ToText(v)) == "" <==> r == ""
    ensures r != "" ==> WellGrouped(r) && RemoveCommas(r) == Canonical(KeepDigits(ToText(v)))
  {
    var digits := KeepDigits(ToText(v));
    if digits == "" then ""
    else
      var d := Dec(ValueOf(digits));
      GroupWellGrouped(d);
      RemoveCommasGroup(d);
      DecOfDigits(digits);
      Group(d)
  }

  /** A value with no digit at all renders as nothing. */
  lemma NoDigitsFormatEmpty(v: SatsValue)
    requires forall i :: 0 <= i < |ToText(v)| ==> !IsDigit(ToText(v)[i])
    ensures FormattedValue(v) == ""
  {
    KeepDigitsEmpty(ToText(v));
  }

  /** A number renders as its own decimal, grouped: removing the commas and
      reading the digits gives the number back. */
  lemma FormattedNumberRoundTrip(n: nat)
    ensures ParseDec(RemoveCommas(FormattedValue(Num(n)))) == Js.Some(n)
  {
    KeepDigitsOfDigits(Dec(n));
    DecOfValue(Dec(n));
    assert Canonical(Dec(n)) == Dec(n) by {
      DecOfDigits(Dec(n));
    }
    ParseDecOfDec(n);
  }

  /** What the input shows. */
  function DisplayValue(focused: bool, v: SatsValue): (r: string)
    ensures !Truthy(v) ==> r == ""
    ensures Truthy(v) && focused ==> r == ToText(v)
    ensures Truthy(v) && !focused ==> r == FormattedValue(v)
  {
    if !Truthy(v) then ""
    else if focused then ToText(v)
    else FormattedValue(v)
  }

  /** Leaving and re-entering the field shows the raw value again; what
      the parent stores is never changed by focus. */
  lemma FocusShowsRaw(v: SatsValue)
    requires Truthy(v)
    ensures DisplayValue(true, v) == ToText(v)
  {
  }

  /** The default placeholder "0" is shown as "0". */
  lemma PlaceholderZero()
    ensures FormattedValue(Text("0")) == "0"
  {
    KeepDigitsOfDigits("0");
    assert ValueOf("0") == 0;
  }

  /** A numeral without leading zeros is shown as itself, grouped. */
  lemma FormattedCanonical(d: string)
    requires IsCanonical(d)
    ensures FormattedValue(Text(d)) == Group(d)
  {
    KeepDigitsOfDigits(d);
    DecOfValue(d);
  }
}
