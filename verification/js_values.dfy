/** The few JavaScript value rules the storefront's logic depends on: the identifier
    values that reach the cart (strings from `data-id` attributes, numbers from stored
    JSON, `null`/`undefined` when a field is missing), their truthiness, strict
    equality, `String(...)` coercion, whitespace as `\s` and `trim()` see it, and
    `startsWith`. */
module JsValues {
  import opened Options

  /** A product or line identifier as a JavaScript value. Strict equality `===`
      is equality of these values: `Num(1) !== Str("1")`. */
  datatype Id = Undefined | Null | Str(s: string) | Num(n: int)

  /** JavaScript truthiness of an identifier: `""`, `0`, `null` and `undefined` are falsy. */
  predicate Truthy(id: Id)
  {
    match id
    case Undefined => false
    case Null => false
    case Str(s) => s != ""
    case Num(n) => n != 0
  }

  /** Truthiness of an optional string (`null`, `undefined` and `""` are falsy). */
  predicate TruthyText(t: Option<string>)
  {
    t.Some? && t.value != ""
  }

  function DigitChar(d: nat): (c: char)
    requires d < 10
    ensures '0' <= c <= '9'
  {
    "0123456789"[d]
  }

  /** Decimal digits of a natural number, most significant first, no leading zeros. */
  function NatDigits(n: nat): (r: string)
    ensures |r| >= 1
    ensures forall i | 0 <= i < |r| :: '0' <= r[i] <= '9'
    ensures r[0] == '0' ==> n == 0
    decreases n
  {
    if n < 10 then [DigitChar(n)]
    else NatDigits(n / 10) + [DigitChar(n % 10)]
  }

  /** `String(n)` for an integer. */
  function IntToString(n: int): string
  {
    if n < 0 then "-" + NatDigits(-n) else NatDigits(n)
  }

  /** `String(id)`: the coercion the cart uses for its lenient id comparison. */
  function ToJsString(id: Id): (r: string)
    ensures id.Str? ==> r == id.s
  {
    match id
    case Undefined => "undefined"
    case Null => "null"
    case Str(s) => s
    case Num(n) => IntToString(n)
  }

  /** Both identifiers are of the same kind: two strings, two numbers, or the same
      one of `null` and `undefined`. */
  predicate SameKind(a: Id, b: Id)
  {
    || (a.Str? && b.Str?)
    || (a.Num? && b.Num?)
    || (a.Null? && b.Null?)
    || (a.Undefined? && b.Undefined?)
  }

  /** Different digits are different characters. */
  lemma DigitCharInjective(m: nat, n: nat)
    requires m < 10 && n < 10 && DigitChar(m) == DigitChar(n)
    ensures m == n
  {
  }

  /** Decimal notation is unambiguous: different naturals have different digit strings. */
  lemma {:induction false} NatDigitsInjective(m: nat, n: nat)
    requires NatDigits(m) == NatDigits(n)
    ensures m == n
    decreases m + n
  {
    if m < 10 && n < 10 {
      DigitCharInjective(m, n);
    } else if m >= 10 && n >= 10 {
      var dm, dn := NatDigits(m), NatDigits(n);
      assert dm[|dm| - 1] == DigitChar(m % 10) && dn[|dn| - 1] == DigitChar(n % 10);
      DigitCharInjective(m % 10, n % 10);
      assert dm[..|dm| - 1] == NatDigits(m / 10);
      assert dn[..|dn| - 1] == NatDigits(n / 10);
      NatDigitsInjective(m / 10, n / 10);
    }
  }

  /** A number's string starts with a minus sign exactly when the number is negative. */
  lemma IntToStringSign(n: int)
    ensures |IntToString(n)| >= 1
    ensures IntToString(n)[0] == '-' <==> n < 0
  {
  }

  lemma SignCancels(d: string, e: string)
    requires "-" + d == "-" + e
    ensures d == e
  {
    assert ("-" + d)[1..] == d;
    assert ("-" + e)[1..] == e;
  }

  /** `String(n)` is unambiguous on integers. */
  lemma IntToStringInjective(m: int, n: int)
    requires IntToString(m) == IntToString(n)
    ensures m == n
  {
    IntToStringSign(m);
    IntToStringSign(n);
    if m < 0 {
      var a: nat, b: nat := -m, -n;
      var dm, dn := NatDigits(a), NatDigits(b);
      assert IntToString(m) == "-" + dm;
      assert IntToString(n) == "-" + dn;
      SignCancels(dm, dn);
      NatDigitsInjective(a, b);
    } else {
      NatDigitsInjective(m, n);
    }
  }

  /** `String(...)` identifies only values of different kinds: two identifiers with
      the same string form are strictly equal unless one is a number and the other a
      string, or one is `null`/`undefined` and the other the string spelling it.
      The number 1 and the string "1" are such a pair. */
  lemma CoercionIsCoarser()
    ensures forall a: Id, b: Id :: ToJsString(a) == ToJsString(b) ==> a == b || !SameKind(a, b)
    ensures Num(1) != Str("1") && ToJsString(Num(1)) == ToJsString(Str("1"))
  {
    forall a: Id, b: Id | ToJsString(a) == ToJsString(b) && SameKind(a, b)
      ensures a == b
    {
      if a.Num? {
        IntToStringInjective(a.n, b.n);
      }
    }
    assert NatDigits(1) == "1";
  }

  /** The characters matched by the regular-expression class `\s` (the ECMAScript
      WhiteSpace and LineTerminator code points); `String.prototype.trim` strips
      exactly these. */
  predicate IsWhitespace(c: char)
  {
    || ('\U{9}' <= c <= '\U{D}')       // tab, line feed, vertical tab, form feed, carriage return
    || c == ' ' || c == '\U{A0}' || c == '\U{1680}'
    || ('\U{2000}' <= c <= '\U{200A}')
    || c == '\U{2028}' || c == '\U{2029}' || c == '\U{202F}' || c == '\U{205F}'
    || c == '\U{3000}' || c == '\U{FEFF}'
  }

  /** `s.startsWith(prefix)`. */
  predicate StartsWith(s: string, prefix: string)
  {
    |prefix| <= |s| && s[..|prefix|] == prefix
  }

  /** `s.trim()`: removes leading and trailing whitespace. */
  function Trim(s: string): (r: string)
    ensures r == "" || (!IsWhitespace(r[0]) && !IsWhitespace(r[|r| - 1]))
    ensures exists i, j | 0 <= i <= j <= |s| :: r == s[i..j]
              && (forall k | 0 <= k < i :: IsWhitespace(s[k]))
              && (forall k | j <= k < |s| :: IsWhitespace(s[k]))
  {
    var i := SkipLeading(s, 0);
    var j := SkipTrailing(s, i, |s|);
    s[i..j]
  }

  /** The first index at or after `from` holding no whitespace, or `|s|`. */
  function SkipLeading(s: string, from: nat): (i: nat)
    requires from <= |s|
    ensures from <= i <= |s|
    ensures forall k | from <= k < i :: IsWhitespace(s[k])
    ensures i < |s| ==> !IsWhitespace(s[i])
    decreases |s| - from
  {
    if from == |s| || !IsWhitespace(s[from]) then from else SkipLeading(s, from + 1)
  }

  /** The end of `s[lo..hi]` once trailing whitespace is removed. */
  function SkipTrailing(s: string, lo: nat, hi: nat): (j: nat)
    requires lo <= hi <= |s|
    ensures lo <= j <= hi
    ensures forall k | j <= k < hi :: IsWhitespace(s[k])
    ensures lo < j ==> !IsWhitespace(s[j - 1])
    decreases hi
  {
    if hi == lo || !IsWhitespace(s[hi - 1]) then hi else SkipTrailing(s, lo, hi - 1)
  }
}
