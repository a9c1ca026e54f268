/** The visitor counter: the transaction updater that adds one visit and the
    six-digit, zero-padded display of the count. */
module VisitorCounter {

  /** The value at the counter's database node: absent (null) or a number. */
  datatype DbValue = Null | Num(n: int)

  /** JavaScript truthiness of a node value: null and 0 are falsy. */
  predicate Truthy(v: DbValue)
  {
    v.Num? && v.n != 0
  }

  /** The number `v || 0` stands for. The only falsy number is 0 itself, so
      `|| 0` changes nothing but null. */
  function OrZero(v: DbValue): (r: int)
    ensures v.Num? ==> r == v.n
    ensures v.Null? ==> r == 0
  {
    if Truthy(v) then v.n else 0
  }

  /** The transaction updater `(currentValue || 0) + 1`. */
  function Increment(current: DbValue): (r: int)
    ensures !Truthy(current) ==> r == 1
    ensures current.Num? ==> r == current.n + 1
  {
    OrZero(current) + 1
  }

  /** The count the listener shows, `data || 0`, is the one the updater counts up
      from: applied to a node value it then reads back, the updater adds exactly one. */
  lemma IncrementAddsOneToShown(v: DbValue)
    ensures OrZero(Num(Increment(v))) == OrZero(v) + 1
  {
  }

  // ---------------------------------------------------------------- decimal text

  predicate IsDigit(c: char)
  {
    '0' <= c <= '9'
  }

  predicate AllDigits(s: string)
  {
    forall i :: 0 <= i < |s| ==> IsDigit(s[i])
  }

  function DigitChar(d: nat): (c: char)
    requires d < 10
    ensures IsDigit(c)
    ensures DigitValue(c) == d
  {
    ('0' as int + d) as char
  }

  function DigitValue(c: char): nat
    requires IsDigit(c)
  {
    c as int - '0' as int
  }

  /** `n.toString()` for a non-negative integer: its decimal digits, with no
      leading zero unless the number is 0. */
  function Decimal(n: nat): (s: string)
    ensures |s| >= 1 && AllDigits(s)
    ensures n > 0 ==> s[0] != '0'
    ensures n < 10 <==> |s| == 1
    decreases n
  {
    if n < 10 then [DigitChar(n)] else Decimal(n / 10) + [DigitChar(n % 10)]
  }

  /** `Number.prototype.toString()` on an integer. */
  function NumberText(n: int): (s: string)
    ensures n >= 0 ==> AllDigits(s) && Value(s) == n
    ensures n < 0 ==> |s| >= 2 && s[0] == '-' && AllDigits(s[1..]) && Value(s[1..]) == -n
  {
    if n < 0 then
      ValueOfDecimal(-n);
      assert ("-" + Decimal(-n))[1..] == Decimal(-n);
      "-" + Decimal(-n)
    else
      ValueOfDecimal(n);
      Decimal(n)
  }

  /** The number a string of decimal digits denotes; leading zeros allowed. */
  function Value(s: string): nat
    requires AllDigits(s)
    decreases |s|
  {
    if s == [] then 0 else 10 * Value(s[..|s| - 1]) + DigitValue(s[|s| - 1])
  }

  function Zeros(k: nat): (s: string)
    ensures |s| == k && forall i :: 0 <= i < k ==> s[i] == '0'
  {
    seq(k, _ => '0')
  }

  function StripLeadingZeros(s: string): (r: string)
    decreases |s|
  {
    if s != [] && s[0] == '0' then StripLeadingZeros(s[1..]) else s
  }

  /** `String.prototype.padStart(len, '0')`. */
  function PadStart(s: string, len: nat): (r: string)
    ensures |r| == if |s| >= len then |s| else len
    ensures r == Zeros(|r| - |s|) + s
  {
    if |s| >= len then s else Zeros(len - |s|) + s
  }

  /** The display width. */
  const Width: nat := 6

  /** `displayCount`: the count padded to six characters, all zeros when falsy. */
  function DisplayCount(count: DbValue): (r: string)
    ensures !Truthy(count) ==> r == "000000"
    ensures Truthy(count) ==>
              |r| == (if |NumberText(count.n)| >= Width then |NumberText(count.n)| else Width)
    ensures Truthy(count) ==> r == Zeros(|r| - |NumberText(count.n)|) + NumberText(count.n)
    ensures Truthy(count) && |NumberText(count.n)| >= Width ==> r == NumberText(count.n)
  {
    if Truthy(count) then PadStart(NumberText(count.n), Width) else "000000"
  }

  lemma {:induction false} ValueOfDecimal(n: nat)
    ensures Value(Decimal(n)) == n
    decreases n
  {
    var s := Decimal(n);
    if n >= 10 {
      ValueOfDecimal(n / 10);
      assert s[..|s| - 1] == Decimal(n / 10);
    }
  }

  lemma {:induction false} ValueOfZeros(k: nat)
    ensures AllDigits(Zeros(k)) && Value(Zeros(k)) == 0
    decreases k
  {
    if k > 0 {
      ValueOfZeros(k - 1);
      assert Zeros(k)[..k - 1] == Zeros(k - 1);
    }
  }

  lemma {:induction false} ValueIgnoresLeadingZeros(k: nat, s: string)
    requires AllDigits(s)
    ensures AllDigits(Zeros(k) + s) && Value(Zeros(k) + s) == Value(s)
    decreases |s|
  {
    var t := Zeros(k) + s;
    if s == [] {
      assert t == Zeros(k);
      ValueOfZeros(k);
    } else {
      ValueIgnoresLeadingZeros(k, s[..|s| - 1]);
      assert t[..|t| - 1] == Zeros(k) + s[..|s| - 1];
    }
  }

  lemma {:induction false} StripZerosPrefix(k: nat, s: string)
    requires s == [] || s[0] != '0'
    ensures StripLeadingZeros(Zeros(k) + s) == s
    decreases k
  {
    if k > 0 {
      assert (Zeros(k) + s)[1..] == Zeros(k - 1) + s;
      StripZerosPrefix(k - 1, s);
    } else {
      assert Zeros(k) + s == s;
    }
  }

  /** Reading the display of a non-negative count as a decimal number gives the count back. */
  lemma DisplayRoundTrip(n: nat)
    ensures AllDigits(DisplayCount(Num(n)))
    ensures Value(DisplayCount(Num(n))) == n
  {
    if n == 0 {
      assert DisplayCount(Num(n)) == Zeros(6);
      ValueOfZeros(6);
    } else {
      var d := DisplayCount(Num(n));
      ValueIgnoresLeadingZeros(|d| - |Decimal(n)|, Decimal(n));
      ValueOfDecimal(n);
    }
  }

  /** Padding only adds leading zeros: removing them from the display of a
      positive count gives its decimal text. */
  lemma DisplayStripsToDecimal(n: nat)
    requires n > 0
    ensures StripLeadingZeros(DisplayCount(Num(n))) == Decimal(n)
  {
    var d := DisplayCount(Num(n));
    StripZerosPrefix(|d| - |Decimal(n)|, Decimal(n));
  }

  // ---------------------------------------------------------------- rendering

  /** One `<span key={index}>` per digit. */
  datatype DigitSpan = DigitSpan(key: nat, digit: char)

  /** `s.split('').map((digit, index) => …)`, numbering from `first`. */
  function SpansFrom(s: string, first: nat): (r: seq<DigitSpan>)
    ensures |r| == |s|
    ensures forall i :: 0 <= i < |s| ==> r[i] == DigitSpan(first + i, s[i])
    decreases |s|
  {
    if s == [] then [] else [DigitSpan(first, s[0])] + SpansFrom(s[1..], first + 1)
  }

  /** The digit elements of the counter: one per character of the display, in order. */
  function RenderDigits(count: DbValue): (r: seq<DigitSpan>)
    ensures |r| == |DisplayCount(count)| >= Width
    ensures forall i :: 0 <= i < |r| ==> r[i] == DigitSpan(i, DisplayCount(count)[i])
  {
    SpansFrom(DisplayCount(count), 0)
  }
}
