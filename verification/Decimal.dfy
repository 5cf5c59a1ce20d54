/**
  Canonical decimal text of full-width counters (decimal.rs).

  Text is a sequence of bytes; `Print` is how an unsigned integer is written.
 */
module Decimal {
  import opened Prelude

  type Text = seq<int>

  const ZERO := 48

  predicate IsDigit(b: int) {
    ZERO <= b < ZERO + 10
  }

  function Print(n: nat): Text {
    if n < 10 then [ZERO + n] else Print(n / 10) + [ZERO + n % 10]
  }

  predicate Digits(s: Text) {
    forall i :: 0 <= i < |s| ==> IsDigit(s[i])
  }

  function Number(s: Text): nat
    requires Digits(s)
  {
    if s == [] then 0 else Number(s[..|s| - 1]) * 10 + (s[|s| - 1] - ZERO)
  }

  /** Digits without a leading zero. */
  predicate Canonical(s: Text) {
    s != [] && Digits(s) && (|s| > 1 ==> s[0] != ZERO)
  }

  lemma {:induction false} PrintCanonical(n: nat)
    ensures Canonical(Print(n)) && Number(Print(n)) == n
    ensures n > 0 ==> Print(n)[0] != ZERO
  {
    if n >= 10 {
      PrintCanonical(n / 10);
      var head := Print(n / 10);
      assert Print(n)[..|Print(n)| - 1] == head;
      assert Print(n)[0] == head[0];
    }
  }

  lemma {:induction false} NumberPositive(s: Text)
    requires Digits(s) && s != [] && s[0] != ZERO
    ensures Number(s) > 0
  {
    if |s| > 1 { NumberPositive(s[..|s| - 1]); }
  }

  /** Only the canonical text of a number denotes it canonically. */
  lemma {:induction false} CanonicalPrints(s: Text)
    requires Canonical(s)
    ensures Print(Number(s)) == s
  {
    var n := |s| - 1;
    var init, last := s[..n], s[n] - ZERO;
    assert s == init + [s[n]];
    if n == 0 {
      assert Number(init) == 0;
    } else {
      NumberPositive(init);
      CanonicalPrints(init);
      assert Number(s) / 10 == Number(init) && Number(s) % 10 == last;
    }
  }

  lemma {:induction false} PrintLonger(a: nat, b: nat)
    requires a <= b
    ensures |Print(a)| <= |Print(b)|
  {
    if b >= 10 {
      PrintLonger(a / 10, b / 10);
      if a < 10 { PrintNonempty(b / 10); }
    }
  }

  lemma {:induction false} PrintNonempty(n: nat)
    ensures |Print(n)| >= 1
  {}

  /** `decimal_digits`: exactly as many digits as the number prints. */
  method DecimalDigits(n: nat) returns (digits: nat)
    ensures digits == |Print(n)|
  {
    var value := n;
    digits := 1;
    while value >= 10
      invariant digits - 1 + |Print(value)| == |Print(n)|
    {
      value := value / 10;
      digits := digits + 1;
    }
  }

  datatype DecimalError =
    | Empty
    | TooLong(max: nat, actual: nat)
    | InvalidCharacter(index: nat)
    | LeadingZero
    | Overflow

  datatype ParseResult = Parsed(value: int) | Refused(error: DecimalError)

  lemma NumberStep(s: Text, k: nat)
    requires Digits(s) && k < |s|
    ensures Digits(s[..k]) && Digits(s[..k + 1]) && Number(s[..k + 1]) == Number(s[..k]) * 10 + (s[k] - ZERO)
  {
    assert s[..k + 1][..k] == s[..k];
  }

  lemma {:induction false} NumberPrefix(s: Text, k: nat)
    requires Digits(s) && k <= |s|
    ensures Number(s[..k]) <= Number(s)
    decreases |s| - k
  {
    if k == |s| {
      assert s[..k] == s;
    } else {
      NumberStep(s, k);
      NumberPrefix(s, k + 1);
    }
  }

  /** Accumulates digits with checked 64-bit arithmetic. */
  method ParseU64(s: Text) returns (r: Option<int>)
    requires Digits(s)
    ensures r == if Number(s) <= U64_MAX then Some(Number(s)) else None
  {
    var value := 0;
    for k := 0 to |s|
      invariant value == Number(s[..k]) <= U64_MAX
    {
      NumberStep(s, k);
      NumberPrefix(s, k + 1);
      if value * 10 > U64_MAX || value * 10 + (s[k] - ZERO) > U64_MAX {
        return None;
      }
      value := value * 10 + (s[k] - ZERO);
    }
    assert s[..|s|] == s;
    r := Some(value);
  }

  /** `parse_bounded_u64`: accepts exactly the printed text of a number within
      the maximum, and returns that number. */
  method ParseBoundedU64(s: Text, maximum: int) returns (r: ParseResult)
    requires 0 <= maximum <= U64_MAX
    ensures r.Parsed? ==> 0 <= r.value <= maximum && Print(r.value) == s
    ensures forall v :: 0 <= v <= maximum && Print(v) == s ==> r == Parsed(v)
    ensures r == Refused(Empty) <==> s == []
    ensures r.Refused? && r.error.InvalidCharacter? ==>
            r.error.index < |s| && !IsDigit(s[r.error.index]) && Digits(s[..r.error.index])
    ensures s != [] && |s| > |Print(maximum)| ==> r == Refused(TooLong(|Print(maximum)|, |s|))
    ensures s != [] && |s| <= |Print(maximum)| && !Digits(s) ==> r.Refused? && r.error.InvalidCharacter?
    ensures 1 < |s| <= |Print(maximum)| && Digits(s) && s[0] == ZERO ==> r == Refused(LeadingZero)
    ensures |s| <= |Print(maximum)| && Canonical(s) && Number(s) > maximum ==> r == Refused(Overflow)
  {
    forall v | 0 <= v <= maximum && Print(v) == s ensures Canonical(s) && Number(s) == v {
      PrintCanonical(v);
    }
    forall v | 0 <= v <= maximum ensures |Print(v)| <= |Print(maximum)| { PrintLonger(v, maximum); }
    if s == [] {
      return Refused(Empty);
    }
    var maxLen := DecimalDigits(maximum);
    if |s| > maxLen {
      return Refused(TooLong(maxLen, |s|));
    }
    for k := 0 to |s|
      invariant Digits(s[..k])
    {
      if !IsDigit(s[k]) {
        return Refused(InvalidCharacter(k));
      }
    }
    assert s[..|s|] == s;
    if |s| > 1 && s[0] == ZERO {
      return Refused(LeadingZero);
    }
    var parsed := ParseU64(s);
    if parsed.None? || parsed.value > maximum {
      return Refused(Overflow);
    }
    CanonicalPrints(s);
    r := Parsed(parsed.value);
  }
}
