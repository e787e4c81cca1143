/** The LNURL link texts the LNURL-pay and LNURL-withdraw pages generate
    (src/app/lnurlPay.tsx, src/app/lnurlWidthdraw.tsx), built from a shared
    "slug" of the description, and readers that recover the parts of a link. */
module Lnurl {
  import opened Js
  import opened Text

  /** What `Collapse` writes for one character: '-' for the first white
      space of a run, nothing for the rest of the run, the character itself
      otherwise. */
  function Emit(c: char, inRun: bool): (r: string)
    ensures NoSpace(r) && |r| <= 1
    ensures !IsUpper(c) ==> forall i :: 0 <= i < |r| ==> !IsUpper(r[i])
  {
    if !IsSpace(c) then [c] else if inRun then "" else "-"
  }

  /** Replaces every maximal run of white space by one '-'. `inRun` says
      whether the text before `s` ended inside such a run. */
  function Collapse(s: string, inRun: bool): string {
    if s == [] then [] else Emit(s[0], inRun) + Collapse(s[1..], IsSpace(s[0]))
  }

  /** What `Collapse` leaves: no white space, no more characters than it
      read, and no upper case it did not read. */
  lemma {:induction false} CollapseFacts(s: string, inRun: bool)
    ensures NoSpace(Collapse(s, inRun))
    ensures |Collapse(s, inRun)| <= |s|
    ensures (forall i :: 0 <= i < |s| ==> !IsUpper(s[i])) ==> forall i :: 0 <= i < |Collapse(s, inRun)| ==> !IsUpper(Collapse(s, inRun)[i])
    decreases |s|
  {
    if s != [] {
      CollapseFacts(s[1..], IsSpace(s[0]));
      var head, rest := Emit(s[0], inRun), Collapse(s[1..], IsSpace(s[0]));
      assert forall i :: 0 <= i < |s| - 1 ==> s[1..][i] == s[i + 1];
      assert forall i :: |head| <= i < |head + rest| ==> (head + rest)[i] == rest[i - |head|];
    }
  }

  /** `description.toLowerCase().replace(/\s+/g, "-")`. */
  function Slug(description: string): (r: string)
    ensures NoSpace(r)
    ensures forall i :: 0 <= i < |r| ==> !IsUpper(r[i])
    ensures |r| <= |description|
  {
    CollapseFacts(ToLower(description), false);
    Collapse(ToLower(description), false)
  }

  /** Text without white space passes through `Collapse` unchanged. */
  lemma {:induction false} CollapseNoSpace(s: string, inRun: bool)
    requires NoSpace(s)
    ensures Collapse(s, inRun) == s
    decreases |s|
  {
    if s != [] {
      CollapseNoSpace(s[1..], false);
    }
  }

  /** A slug is its own slug. */
  lemma SlugIdempotent(description: string)
    ensures Slug(Slug(description)) == Slug(description)
  {
    var t := Slug(description);
    assert ToLower(t) == t;
    CollapseNoSpace(t, false);
  }

  /** Whether `Collapse` is inside a run after reading `x` from state `inRun`. */
  function RunAfter(x: string, inRun: bool): bool {
    if x == [] then inRun else IsSpace(x[|x| - 1])
  }

  /** `Collapse` works piecewise: collapsing `x + y` is collapsing `x`, then
      collapsing `y` from the state `x` left behind. */
  lemma {:induction false} CollapseAppend(x: string, y: string, inRun: bool)
    ensures Collapse(x + y, inRun) == Collapse(x, inRun) + Collapse(y, RunAfter(x, inRun))
    decreases |x|
  {
    if x == [] {
      assert x + y == y;
    } else {
      var next := IsSpace(x[0]);
      var head := Emit(x[0], inRun);
      var rest := Collapse(x[1..], next);
      var tail := Collapse(y, RunAfter(x, inRun));
      calc {
        Collapse(x + y, inRun);
        == { CollapseOfCons(x, y, inRun); }
        head + Collapse(x[1..] + y, next);
        == { CollapseAppend(x[1..], y, next); RunAfterTail(x, inRun); }
        head + (rest + tail);
        == { assert Collapse(x, inRun) == head + rest; }
        Collapse(x, inRun) + tail;
      }
    }
  }

  lemma CollapseOfCons(x: string, y: string, inRun: bool)
    requires x != []
    ensures Collapse(x + y, inRun) == Emit(x[0], inRun) + Collapse(x[1..] + y, IsSpace(x[0]))
  {
    var xy := x + y;
    assert xy[0] == x[0] && xy[1..] == x[1..] + y;
  }

  lemma RunAfterTail(x: string, inRun: bool)
    requires x != []
    ensures RunAfter(x[1..], IsSpace(x[0])) == RunAfter(x, inRun)
  {
    if |x| > 1 {
      assert x[1..][|x| - 2] == x[|x| - 1];
    }
  }

  lemma {:induction false} CollapseRun(run: string, inRun: bool)
    requires |run| > 0 && forall i :: 0 <= i < |run| ==> IsSpace(run[i])
    ensures Collapse(run, inRun) == if inRun then "" else "-"
    decreases |run|
  {
    if |run| > 1 {
      CollapseRun(run[1..], true);
    }
  }

  /** Two words separated by any non-empty run of white space slug to the
      lower-cased words joined by a single '-'; leading and trailing runs
      (an empty word) also become one '-'. */
  lemma SlugOfWords(w1: string, run: string, w2: string)
    requires NoSpace(w1) && NoSpace(w2)
    requires |run| > 0 && forall i :: 0 <= i < |run| ==> IsSpace(run[i])
    ensures Slug(w1 + run + w2) == ToLower(w1) + "-" + ToLower(w2)
  {
    var l1, lr, l2 := ToLower(w1), ToLower(run), ToLower(w2);
    ToLowerAppend(w1, run, w2);
    assert NoSpace(l1) && NoSpace(l2);
    assert forall i :: 0 <= i < |lr| ==> IsSpace(lr[i]);
    CollapseNoSpace(l1, false);
    CollapseNoSpace(l2, true);
    assert RunAfter(l1, false) == false;
    CollapseRun(lr, false);
    CollapseAppend(l1, lr, false);
    assert Collapse(l1 + lr, false) == l1 + "-";
    assert RunAfter(l1 + lr, false) by {
      assert (l1 + lr)[|l1 + lr| - 1] == lr[|lr| - 1];
    }
    CollapseAppend(l1 + lr, l2, false);
  }

  lemma ToLowerAppend(a: string, b: string, c: string)
    ensures ToLower(a + b + c) == ToLower(a) + ToLower(b) + ToLower(c)
  {
    var l, r := ToLower(a + b + c), ToLower(a) + ToLower(b) + ToLower(c);
    forall i | 0 <= i < |l| ensures l[i] == r[i] {
      if i < |a| {
        assert (a + b + c)[i] == a[i];
      } else if i < |a| + |b| {
        assert (a + b + c)[i] == b[i - |a|];
      } else {
        assert (a + b + c)[i] == c[i - |a| - |b|];
      }
    }
  }

  // -----------------------------------------------------------------------
  // LNURL-pay

  const PayPrefix := "lnurlp:"
  const Domain := "@satolink.app"

  /** `<slug>-min<min>`. */
  function MinPart(slug: string, min: nat): string {
    slug + "-" + ("min" + Dec(min))
  }

  /** `<slug>-min<min>-max<max>`. */
  function PayBody(slug: string, min: nat, max: nat): string {
    MinPart(slug, min) + "-" + ("max" + Dec(max))
  }

  /** `lnurlp:<slug>-min<min>-max<max>@satolink.app`, the link the LNURL-pay
      page generates from a description and the two amounts. */
  function PayLink(description: string, min: nat, max: nat): (r: string)
    ensures ParsePayLink(r) == Some(PayParts(Slug(description), min, max))
  {
    PayTextRoundTrip(Slug(description), min, max);
    PayPrefix + PayBody(Slug(description), min, max) + Domain
  }

  datatype PayParts = PayParts(slug: string, min: nat, max: nat)

  /** Reads a number written after a fixed tag, as in "max1500". */
  function TaggedNumber(tag: string, s: string): (r: Option<nat>)
    ensures r.Some? ==> s == tag + Dec(r.value)
  {
    if tag <= s then
      match ParseDec(s[|tag|..])
      case Some(n) =>
        assert s == tag + s[|tag|..];
        Some(n)
      case None => None
    else None
  }

  lemma TaggedNumberOf(tag: string, n: nat)
    ensures TaggedNumber(tag, tag + Dec(n)) == Some(n)
  {
    assert (tag + Dec(n))[|tag|..] == Dec(n);
  }

  /** Reads "<slug>-min<min>" from the right. */
  function ParseMinPart(a: string): (r: Option<(string, nat)>)
    ensures r.Some? ==> a == MinPart(r.value.0, r.value.1)
  {
    match SplitLast(a, '-')
    case None => None
    case Some((slug, c)) =>
      match TaggedNumber("min", c)
      case None => None
      case Some(min) => Some((slug, min))
  }

  /** Reads "<slug>-min<min>-max<max>" from the right. */
  function ParsePayBody(m: string): (r: Option<PayParts>)
    ensures r.Some? ==> m == PayBody(r.value.slug, r.value.min, r.value.max)
  {
    match SplitLast(m, '-')
    case None => None
    case Some((a, b)) =>
      match TaggedNumber("max", b)
      case None => None
      case Some(max) =>
        match ParseMinPart(a)
        case None => None
        case Some((slug, min)) => Some(PayParts(slug, min, max))
  }

  /** Recovers slug, minimum and maximum from an LNURL-pay link. The numbers
      are read from the right, because the slug may itself contain '-'. */
  function ParsePayLink(link: string): (r: Option<PayParts>)
    ensures r.Some? ==> link == PayPrefix + PayBody(r.value.slug, r.value.min, r.value.max) + Domain
  {
    match Between(link, PayPrefix, Domain)
    case None => None
    case Some(m) => ParsePayBody(m)
  }

  /** Every generated LNURL-pay link can be read back. */
  lemma PayLinkRoundTrip(description: string, min: nat, max: nat)
    ensures ParsePayLink(PayLink(description, min, max)) == Some(PayParts(Slug(description), min, max))
  {
  }

  /** The reader recovers the parts of a pay link whatever the slug is, even
      one containing '-'. */
  lemma PayTextRoundTrip(slug: string, min: nat, max: nat)
    ensures ParsePayLink(PayPrefix + PayBody(slug, min, max) + Domain) == Some(PayParts(slug, min, max))
  {
    var b := "max" + Dec(max);
    var c := "min" + Dec(min);
    var a := MinPart(slug, min);
    var m := PayBody(slug, min, max);
    BetweenOfJoin(PayPrefix, m, Domain);
    DecHasNoSeparator(max, '-');
    DecHasNoSeparator(min, '-');
    assert '-' !in b by { assert b == "max" + Dec(max); }
    assert '-' !in c by { assert c == "min" + Dec(min); }
    SplitLastOfJoin(a, '-', b);
    SplitLastOfJoin(slug, '-', c);
    TaggedNumberOf("max", max);
    TaggedNumberOf("min", min);
  }

  // -----------------------------------------------------------------------
  // LNURL-withdraw

  const WithdrawPrefix := "lnurlw:"
  const WithdrawSuffix := "sat@satolink.app"

  /** `<slug>-<amount>`, the part between prefix and suffix. */
  function WithdrawBody(slug: string, amount: nat): string {
    slug + "-" + Dec(amount)
  }

  /** `lnurlw:<slug>-<amount>sat@satolink.app`. */
  function WithdrawLink(description: string, amount: nat): (r: string)
    ensures ParseWithdrawLink(r) == Some(WithdrawParts(Slug(description), amount))
  {
    WithdrawTextRoundTrip(Slug(description), amount);
    WithdrawPrefix + WithdrawBody(Slug(description), amount) + WithdrawSuffix
  }

  datatype WithdrawParts = WithdrawParts(slug: string, amount: nat)

  /** Splits `<slug>-<amount>` at its last '-'. */
  function ParseWithdrawBody(m: string): (r: Option<WithdrawParts>)
    ensures r.Some? ==> m == WithdrawBody(r.value.slug, r.value.amount)
  {
    match SplitLast(m, '-')
    case None => None
    case Some((slug, d)) =>
      match ParseDec(d)
      case Some(amount) => Some(WithdrawParts(slug, amount))
      case None => None
  }

  /** Recovers slug and amount from an LNURL-withdraw link. */
  function ParseWithdrawLink(link: string): (r: Option<WithdrawParts>)
    ensures r.Some? ==> link == WithdrawPrefix + WithdrawBody(r.value.slug, r.value.amount) + WithdrawSuffix
  {
    match Between(link, WithdrawPrefix, WithdrawSuffix)
    case None => None
    case Some(m) => ParseWithdrawBody(m)
  }

  /** Every generated LNURL-withdraw link can be read back. */
  lemma WithdrawLinkRoundTrip(description: string, amount: nat)
    ensures ParseWithdrawLink(WithdrawLink(description, amount)) == Some(WithdrawParts(Slug(description), amount))
  {
  }

  /** The reader recovers slug and amount of a withdraw link whatever the
      slug is. */
  lemma WithdrawTextRoundTrip(slug: string, amount: nat)
    ensures ParseWithdrawLink(WithdrawPrefix + WithdrawBody(slug, amount) + WithdrawSuffix) == Some(WithdrawParts(slug, amount))
  {
    var m := WithdrawBody(slug, amount);
    BetweenOfJoin(WithdrawPrefix, m, WithdrawSuffix);
    DecHasNoSeparator(amount, '-');
    SplitLastOfJoin(slug, '-', Dec(amount));
  }
}
