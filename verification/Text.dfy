/** Stock result types, and the text forms segment names and partition dates are made of. */
module Text {
  datatype Option<+T> = None | Some(value: T)

  predicate IsDigit(c: char) {
    '0' <= c <= '9'
  }

  predicate AllDigits(s: string) {
    forall i :: 0 <= i < |s| ==> IsDigit(s[i])
  }

  function Digit(n: nat): char
    requires n < 10
  {
    '0' + n as char
  }

  /** `{n:0width}`: at least `width` digits, and no more than the number needs. */
  function Padded(n: nat, width: nat): (s: string)
    ensures |s| >= 1 && |s| >= width && AllDigits(s)
    decreases n, width
  {
    if n < 10 && width <= 1 then [Digit(n)]
    else Padded(n / 10, if width == 0 then 0 else width - 1) + [Digit(n % 10)]
  }

  /** The same with a sign, which takes one of the places. */
  function Signed(n: int, width: nat): string {
    if n < 0 then "-" + Padded(-n, if width == 0 then 0 else width - 1) else Padded(n, width)
  }

  function ValueOf(s: string): nat
    requires AllDigits(s)
  {
    if s == "" then 0 else 10 * ValueOf(s[..|s| - 1]) + (s[|s| - 1] as int - '0' as int)
  }

  /** An unsigned parse: digits, after at most one `+`. */
  function ParseUnsigned(s: string): Option<nat> {
    var digits := if s != "" && s[0] == '+' then s[1..] else s;
    if digits != "" && AllDigits(digits) then Some(ValueOf(digits)) else None
  }

  /** A signed parse: digits, after at most one `+` or `-`. */
  function ParseSigned(s: string): Option<int> {
    if s != "" && s[0] == '-' then
      if s != "-" && AllDigits(s[1..]) then Some(0 - (ValueOf(s[1..]) as int)) else Option<int>.None
    else
      match ParseUnsigned(s)
      case Some(n) => Some(n)
      case None => None
  }

  function Pow10(w: nat): (p: nat)
    ensures p >= 1
  {
    if w == 0 then 1 else 10 * Pow10(w - 1)
  }

  /** A number is short enough for its width exactly when padding adds no place to it. */
  lemma {:induction false} PaddedWidth(n: nat, width: nat)
    requires width >= 1
    ensures |Padded(n, width)| == width <==> n < Pow10(width)
    decreases width
  {
    if width == 1 {
      assert Pow10(1) == 10 * Pow10(0) == 10;
      if n >= 10 { assert |Padded(n / 10, 0)| >= 1; }
    } else {
      PaddedWidth(n / 10, width - 1);
    }
  }

  lemma {:induction false} ValueOfPadded(n: nat, width: nat)
    ensures ValueOf(Padded(n, width)) == n
    decreases n, width
  {
    if n < 10 && width <= 1 {
      assert Padded(n, width)[..0] == "";
    } else {
      var rest := if width == 0 then 0 else width - 1;
      ValueOfPadded(n / 10, rest);
      assert Padded(n, width)[..|Padded(n, width)| - 1] == Padded(n / 10, rest);
    }
  }

  lemma {:induction false} PaddedOfValue(s: string)
    requires s != "" && AllDigits(s)
    ensures Padded(ValueOf(s), |s|) == s
    decreases |s|
  {
    var front, last := s[..|s| - 1], s[|s| - 1] as int - '0' as int;
    if |s| > 1 {
      PaddedOfValue(front);
      assert ValueOf(s) / 10 == ValueOf(front) && ValueOf(s) % 10 == last;
      assert s == front + [s[|s| - 1]];
    } else {
      assert front == "" && ValueOf(s) == last;
    }
  }

  lemma ParsePadded(n: nat, width: nat)
    ensures ParseUnsigned(Padded(n, width)) == Some(n)
    ensures ParseSigned(Padded(n, width)) == Some(n)
  {
    ValueOfPadded(n, width);
    assert IsDigit(Padded(n, width)[0]);
  }

  lemma ParseSignedText(n: int, width: nat)
    ensures ParseSigned(Signed(n, width)) == Some(n)
  {
    if n < 0 {
      var rest := if width == 0 then 0 else width - 1;
      ValueOfPadded(-n, rest);
      assert Signed(n, width)[1..] == Padded(-n, rest);
    } else {
      ParsePadded(n, width);
    }
  }

  /** Byte order of strings, as `<` on `str`. */
  predicate Before(s: string, t: string) {
    t != "" && (s == "" || s[0] < t[0] || (s[0] == t[0] && Before(s[1..], t[1..])))
  }

  /** Of two texts either is first, or they are the same. */
  lemma {:induction false} BeforeOrSame(s: string, t: string)
    ensures Before(s, t) || Before(t, s) || s == t
    ensures !(Before(s, t) && Before(t, s)) && !Before(s, s)
    decreases |s|
  {
    if s != "" {
      BeforeOrSame(s[1..], s[1..]);
      if t != "" {
        BeforeOrSame(s[1..], t[1..]);
        assert s == [s[0]] + s[1..] && t == [t[0]] + t[1..];
      }
    }
  }

  lemma {:induction false} BeforeThrough(s: string, t: string, u: string)
    requires Before(s, t) && Before(t, u)
    ensures Before(s, u)
    decreases |s|
  {
    if s != "" && s[0] == t[0] == u[0] { BeforeThrough(s[1..], t[1..], u[1..]); }
  }

  lemma {:induction false} BeforeAppend(s: string, s': string, t: string, t': string)
    requires |s| == |s'|
    ensures Before(s + t, s' + t') <==> Before(s, s') || (s == s' && Before(t, t'))
    decreases |s|
  {
    if s == "" {
      assert s + t == t && s' + t' == t';
    } else {
      BeforeAppend(s[1..], s'[1..], t, t');
      assert (s + t)[1..] == s[1..] + t && (s' + t')[1..] == s'[1..] + t';
      assert s == [s[0]] + s[1..] && s' == [s'[0]] + s'[1..];
    }
  }

  lemma BeforeDigit(a: nat, b: nat)
    requires a < 10 && b < 10
    ensures Before([Digit(a)], [Digit(b)]) <==> a < b
  {
    assert [Digit(a)][1..] == [Digit(b)][1..] == "";
  }

  lemma BeforePadded(a: nat, b: nat, width: nat)
    requires width > 1 && |Padded(a / 10, width - 1)| == |Padded(b / 10, width - 1)|
    ensures Before(Padded(a, width), Padded(b, width)) <==>
            (Before(Padded(a / 10, width - 1), Padded(b / 10, width - 1)) || (a / 10 == b / 10 && a % 10 < b % 10))
  {
    ValueOfPadded(a / 10, width - 1);
    ValueOfPadded(b / 10, width - 1);
    BeforeAppend(Padded(a / 10, width - 1), Padded(b / 10, width - 1), [Digit(a % 10)], [Digit(b % 10)]);
    BeforeDigit(a % 10, b % 10);
  }

  /** Zero-padded numbers of one width compare as text the way they compare as numbers. */
  lemma {:induction false} PaddedOrder(a: nat, b: nat, width: nat)
    requires width >= 1 && a < Pow10(width) && b < Pow10(width)
    ensures Before(Padded(a, width), Padded(b, width)) <==> a < b
    decreases width
  {
    if width == 1 {
      assert Pow10(1) == 10 * Pow10(0) == 10;
      BeforeDigit(a, b);
    } else {
      PaddedOrder(a / 10, b / 10, width - 1);
      PaddedWidth(a / 10, width - 1);
      PaddedWidth(b / 10, width - 1);
      BeforePadded(a, b, width);
    }
  }
}
