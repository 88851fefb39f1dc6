/**
 * Literal values and the three recognisers the lexer uses to classify a
 * token buffer as a literal (src/literal.rs).
 *
 * A number keeps the spelling it was written with. Whether a spelling is a
 * number follows the grammar of Rust's `f64::from_str`; the value it denotes
 * is the exact decimal value, which is what the `==` of `f64` compares up to
 * rounding to the nearest double.
 */
module Literals {
  import opened Wrappers

  datatype Literal = Num(spelling: string) | Str(text: string) | Nil

  /** `Display for Literal`: numbers as written, strings between single quotes, nil as "Φ". */
  function Display(l: Literal): (r: string)
    ensures l.Num? ==> r == l.spelling
    ensures l.Str? ==> |r| == |l.text| + 2 && r[0] == '\'' && r[|r| - 1] == '\'' && r[1..|r| - 1] == l.text
    ensures l.Nil? ==> r == "Φ"
  {
    match l
    case Num(s) => s
    case Str(t) => "'" + t + "'"
    case Nil => "Φ"
  }

  // ---------------------------------------------------------------------
  // Numbers
  // ---------------------------------------------------------------------

  /** The value of an `f64` as far as `==` can observe it. */
  datatype FloatValue = Finite(value: real) | Infinite(negative: bool) | NaN

  predicate IsDigit(c: char)
  {
    '0' <= c <= '9'
  }

  predicate AllDigits(s: string)
  {
    forall i :: 0 <= i < |s| ==> IsDigit(s[i])
  }

  function DigitsValue(s: string): nat
    requires AllDigits(s)
  {
    if s == [] then 0 else DigitsValue(s[..|s| - 1]) * 10 + (s[|s| - 1] as int - '0' as int)
  }

  function Pow10(n: nat): (p: nat)
    ensures p > 0
  {
    if n == 0 then 1 else 10 * Pow10(n - 1)
  }

  /** m * 10^k as an exact real. */
  function Scaled(m: nat, k: int): (r: real)
    ensures r >= 0.0
  {
    if k >= 0 then (m * Pow10(k)) as real else m as real / Pow10(-k) as real
  }

  /** ASCII lower-casing, as the case-insensitive words of the float grammar need. */
  function Lower(s: string): (r: string)
    ensures |r| == |s|
    ensures forall i :: 0 <= i < |s| ==> r[i] == (if 'A' <= s[i] <= 'Z' then (s[i] as int + 32) as char else s[i])
  {
    if s == [] then []
    else
      var c := s[0];
      [if 'A' <= c <= 'Z' then (c as int + 32) as char else c] + Lower(s[1..])
  }

  /** The first index holding `a` or `b`, or |s| when there is none. */
  function FirstIndex(s: string, a: char, b: char): (k: nat)
    ensures k <= |s|
    ensures forall i :: 0 <= i < k ==> s[i] != a && s[i] != b
    ensures k < |s| ==> s[k] == a || s[k] == b
  {
    if s == [] then 0
    else if s[0] == a || s[0] == b then 0
    else 1 + FirstIndex(s[1..], a, b)
  }

  /** `Sign? Digit+`, the exponent of a decimal. */
  function SignedDigits(s: string): Option<int>
  {
    var negative := |s| > 0 && s[0] == '-';
    var digits := if |s| > 0 && (s[0] == '+' || s[0] == '-') then s[1..] else s;
    if |digits| > 0 && AllDigits(digits) then
      var v: int := DigitsValue(digits);
      Some(if negative then -v else v)
    else None
  }

  /**
   * `( Digit+ | Digit+ '.' Digit* | Digit* '.' Digit+ ) Exp?` with its exact value.
   */
  function DecimalValue(s: string): (v: Option<real>)
    ensures v.Some? ==> v.value >= 0.0
  {
    var e := FirstIndex(s, 'e', 'E');
    var mantissa := s[..e];
    var p := FirstIndex(mantissa, '.', '.');
    var whole := mantissa[..p];
    var fraction := if p < |mantissa| then mantissa[p + 1..] else "";
    var exponent := if e < |s| then SignedDigits(s[e + 1..]) else Some(0);
    if AllDigits(whole) && AllDigits(fraction) && |whole| + |fraction| > 0 && exponent.Some? then
      Some(Scaled(DigitsValue(whole + fraction), exponent.value - |fraction|))
    else None
  }

  /**
   * `s.parse::<f64>()`: `Sign? ( 'inf' | 'infinity' | 'nan' | Decimal )`, the
   * three words in any letter case.
   */
  function FloatOf(s: string): (r: Option<FloatValue>)
    ensures r.Some? && r.value.Infinite? ==> (r.value.negative <==> |s| > 0 && s[0] == '-')
    ensures r.Some? && r.value.Finite? && r.value.value < 0.0 ==> |s| > 0 && s[0] == '-'
  {
    var negative := |s| > 0 && s[0] == '-';
    var body := if |s| > 0 && (s[0] == '+' || s[0] == '-') then s[1..] else s;
    var word := Lower(body);
    if word == "inf" || word == "infinity" then Some(Infinite(negative))
    else if word == "nan" then Some(NaN)
    else
      match DecimalValue(body)
      case Some(r) => Some(Finite(if negative then -r else r))
      case None => None
  }

  /** `Literal::num`. */
  function ParseNum(s: string): (r: Option<Literal>)
    ensures r.Some? ==> r.value == Num(s)
  {
    if FloatOf(s).Some? then Some(Num(s)) else None
  }

  /** `==` on `f64`: NaN equals nothing, and 0.0 equals -0.0. */
  predicate FloatEq(a: FloatValue, b: FloatValue): (r: bool)
    ensures r <==> a == b && !a.NaN?
  {
    match (a, b)
    case (Finite(x), Finite(y)) => x == y
    case (Infinite(m), Infinite(n)) => m == n
    case _ => false
  }

  /** The derived `PartialEq` of `Literal`, which the pattern-guard lambda uses. */
  predicate LiteralEq(a: Literal, b: Literal): (r: bool)
    ensures r ==> a.Num? == b.Num? && a.Str? == b.Str? && a.Nil? == b.Nil?
    ensures !a.Num? ==> (r <==> a == b)
    ensures a.Num? && FloatOf(a.spelling) == Some(NaN) ==> !r
  {
    match (a, b)
    case (Num(s), Num(t)) =>
      if FloatOf(s).Some? && FloatOf(t).Some? then FloatEq(FloatOf(s).value, FloatOf(t).value) else s == t
    case (Str(x), Str(y)) => x == y
    case (Nil, Nil) => true
    case _ => false
  }

  /** Characters a number's spelling can contain. */
  predicate IsFloatChar(c: char)
  {
    IsDigit(c) || c in {'+', '-', '.', 'e', 'E', 'i', 'I', 'n', 'N', 'f', 'F', 'a', 'A', 't', 'T', 'y', 'Y'}
  }

  lemma LowerWord(body: string, w: string)
    requires Lower(body) == w
    requires forall i :: 0 <= i < |w| ==> w[i] in {'i', 'n', 'f', 'a', 't', 'y'}
    ensures forall i :: 0 <= i < |body| ==> IsFloatChar(body[i])
  {
    forall i | 0 <= i < |body|
      ensures IsFloatChar(body[i])
    {
      assert Lower(body)[i] == w[i];
    }
  }

  lemma WordLetters(w: string)
    requires w == "inf" || w == "infinity" || w == "nan"
    ensures forall i :: 0 <= i < |w| ==> w[i] in {'i', 'n', 'f', 'a', 't', 'y'}
  {
    forall i | 0 <= i < |w|
      ensures w[i] in {'i', 'n', 'f', 'a', 't', 'y'}
    {
      if w == "infinity" {
        assert w == ['i', 'n', 'f', 'i', 'n', 'i', 't', 'y'];
      } else if w == "inf" {
        assert w == ['i', 'n', 'f'];
      } else {
        assert w == ['n', 'a', 'n'];
      }
    }
  }

  lemma DecimalChars(s: string)
    requires DecimalValue(s).Some?
    ensures forall i :: 0 <= i < |s| ==> IsFloatChar(s[i])
  {
    var e := FirstIndex(s, 'e', 'E');
    var mantissa := s[..e];
    var p := FirstIndex(mantissa, '.', '.');
    var whole := mantissa[..p];
    var fraction := if p < |mantissa| then mantissa[p + 1..] else "";
    forall i | 0 <= i < |s|
      ensures IsFloatChar(s[i])
    {
      if i < p {
        assert s[i] == whole[i];
      } else if i == p {
      } else if i < e {
        assert s[i] == fraction[i - p - 1];
      } else if i > e {
        var x := s[e + 1..];
        var digits := if |x| > 0 && (x[0] == '+' || x[0] == '-') then x[1..] else x;
        if |x| > 0 && (x[0] == '+' || x[0] == '-') && i > e + 1 {
          assert s[i] == digits[i - e - 2];
        } else if !(|x| > 0 && (x[0] == '+' || x[0] == '-')) {
          assert s[i] == digits[i - e - 1];
        }
      }
    }
  }

  /** A number's spelling holds only digits, signs, '.', exponent marks and the letters of inf/nan. */
  lemma {:induction false} NumChars(s: string)
    requires FloatOf(s).Some?
    ensures forall i :: 0 <= i < |s| ==> IsFloatChar(s[i])
  {
    var body := if |s| > 0 && (s[0] == '+' || s[0] == '-') then s[1..] else s;
    var word := Lower(body);
    if word == "inf" || word == "infinity" || word == "nan" {
      WordLetters(word);
      LowerWord(body, word);
    } else {
      DecimalChars(body);
    }
    forall i | 0 <= i < |s|
      ensures IsFloatChar(s[i])
    {
      if body != s && i > 0 {
        assert s[i] == body[i - 1];
      }
    }
  }

  // The readings of a few spellings. Each takes the spelling as a parameter
  // so that the solver works through the definitions one step at a time.

  lemma FiveIsFive(s: string)
    requires s == "5"
    ensures FloatOf(s) == Some(Finite(5.0))
  {
    assert Lower(s) == s;
    assert FirstIndex(s, 'e', 'E') == 1;
    assert FirstIndex(s, '.', '.') == 1;
    assert s[..1] == s;
    assert DigitsValue(s) == 5 by { assert s[..0] == ""; }
    assert DecimalValue(s) == Some(5.0);
  }

  lemma FivePointZeroIsFive(s: string)
    requires s == "5.0"
    ensures FloatOf(s) == Some(Finite(5.0))
  {
    assert Lower(s) == s;
    assert FirstIndex(s, 'e', 'E') == 3;
    assert s[..3] == s;
    assert FirstIndex(s, '.', '.') == 1;
    assert s[..1] == "5";
    assert s[2..] == "0";
    assert "5" + "0" == "50";
    assert DigitsValue("50") == 50 by {
      assert "50"[..1] == "5";
      assert "5"[..0] == "";
    }
    assert Scaled(50, -1) == 5.0;
    assert DecimalValue(s) == Some(5.0);
  }

  lemma SignedZeroIsZero(s: string)
    requires s == "-0"
    ensures FloatOf(s) == Some(Finite(0.0))
  {
    assert s[1..] == "0";
    UnsignedZeroIsZero(s[1..]);
  }

  lemma UnsignedZeroIsZero(s: string)
    requires s == "0"
    ensures FloatOf(s) == Some(Finite(0.0))
    ensures DecimalValue(s) == Some(0.0) && Lower(s) == s
  {
    assert Lower(s) == s;
    assert FirstIndex(s, 'e', 'E') == 1;
    assert s[..1] == s;
    assert FirstIndex(s, '.', '.') == 1;
    assert DigitsValue(s) == 0 by { assert s[..0] == ""; }
    assert DecimalValue(s) == Some(0.0);
  }

  lemma NanIsNan(s: string)
    requires s == "nan"
    ensures FloatOf(s) == Some(NaN)
  {
    assert Lower(s) == s;
  }

  lemma InfWord(s: string)
    requires s == "inf"
    ensures FloatOf(s) == Some(Infinite(false))
  {
    assert Lower(s) == s;
  }

  lemma InfinityWord(s: string)
    requires s == "Infinity"
    ensures FloatOf(s) == Some(Infinite(false))
  {
    var w := Lower(s);
    assert s[0] == 'I' && w[0] == 'i';
    assert forall i :: 1 <= i < 8 ==> w[i] == s[i];
    assert w == "infinity";
  }

  /**
   * The guard equality compares numbers by value, not by spelling: "5" equals
   * "5.0", 0 equals -0, NaN equals nothing (not even itself), and the
   * infinity words are case-insensitive.
   */
  lemma NumEqualityIsByValue()
    ensures LiteralEq(Num("5"), Num("5.0"))
    ensures LiteralEq(Num("0"), Num("-0"))
    ensures !LiteralEq(Num("nan"), Num("nan"))
    ensures LiteralEq(Num("inf"), Num("Infinity"))
  {
    FiveIsFive("5");
    FivePointZeroIsFive("5.0");
    SignedZeroIsZero("-0");
    UnsignedZeroIsZero("0");
    NanIsNan("nan");
    InfWord("inf");
    InfinityWord("Infinity");
  }

  // ---------------------------------------------------------------------
  // Strings
  // ---------------------------------------------------------------------

  /** The number of bytes UTF-8 takes for a character. */
  function Utf8Length(c: char): (n: nat)
    ensures 1 <= n <= 4
    ensures n == 1 <==> c as int < 0x80
  {
    if c as int < 0x80 then 1
    else if c as int < 0x800 then 2
    else if c as int < 0x10000 then 3
    else 4
  }

  predicate IsAscii(s: string)
  {
    forall i :: 0 <= i < |s| ==> s[i] as int < 0x80
  }

  /** `str::len`: the length of the UTF-8 encoding in bytes, which exceeds the character count exactly when a character is not ASCII. */
  function ByteLength(s: string): (n: nat)
    ensures n >= |s|
    ensures n == |s| <==> IsAscii(s)
  {
    if s == [] then 0
    else
      assert IsAscii(s) <==> s[0] as int < 0x80 && IsAscii(s[1..]) by {
        if s[0] as int < 0x80 && IsAscii(s[1..]) {
          forall i | 0 < i < |s| ensures s[i] as int < 0x80 {
            assert s[i] == s[1..][i - 1];
          }
        }
      }
      Utf8Length(s[0]) + ByteLength(s[1..])
  }

  /**
   * The scan of `Literal::string` from character index i. `last` is
   * `s.len() - 1`, a byte count: an unescaped '"' may only sit at index 0 or
   * `last`, a '\' may not sit at `last`, and a '\' makes the scan skip the
   * character after it.
   */
  predicate EscapesOk(s: string, last: int, i: nat)
    decreases |s| - i
  {
    if i >= |s| then true
    else if s[i] == '"' && !(i == 0 || i == last) then false
    else if s[i] == '\\' && i == last then false
    else if s[i] == '\\' then EscapesOk(s, last, i + 2)
    else EscapesOk(s, last, i + 1)
  }

  /**
   * What `Literal::string` returns for a buffer. Its byte slice
   * `s[1..=(s.len() - 2)]` drops the one-byte quotes at both ends, so the
   * payload is the characters between them.
   */
  function QuotedString(s: string): (r: Option<Literal>)
    ensures r.Some? ==> |s| >= 2 && s[0] == '"' && s[|s| - 1] == '"' && r.value == Str(s[1..|s| - 1])
  {
    if ByteLength(s) <= 1 then None
    else if !(s[0] == '"' && s[|s| - 1] == '"') then None
    else if !EscapesOk(s, ByteLength(s) - 1, 0) then None
    else Some(Str(s[1..|s| - 1]))
  }

  /** `Literal::string`, with its enumerate-and-skip loop. */
  method ParseString(s: string) returns (r: Option<Literal>)
    ensures r == QuotedString(s)
  {
    var len := ByteLength(s);
    if len <= 1 {
      return None;
    }
    if !(s[0] == '"' && s[|s| - 1] == '"') {
      return None;
    }
    var i := 0;
    while i < |s|
      invariant 0 <= i <= |s| + 1
      invariant EscapesOk(s, len - 1, 0) == EscapesOk(s, len - 1, i)
      decreases |s| - i
    {
      var c := s[i];
      if c == '"' && !(i == 0 || i == len - 1) {
        return None;
      }
      if c == '\\' && i == len - 1 {
        return None;
      }
      if c == '\\' {
        i := i + 2;
      } else {
        i := i + 1;
      }
    }
    return Some(Str(s[1..|s| - 1]));
  }

  /** A '"' or '\' in a payload, written with a '\' before it. */
  function Escape(p: string): (r: string)
    ensures IsAscii(p) ==> IsAscii(r)
  {
    if p == [] then []
    else if p[0] == '"' || p[0] == '\\' then ['\\', p[0]] + Escape(p[1..])
    else [p[0]] + Escape(p[1..])
  }

  lemma {:induction false} EscapedScan(pre: string, p: string, post: string)
    requires |pre| > 0 && post == "\""
    ensures var s := pre + Escape(p) + post; EscapesOk(s, |s| - 1, |pre|)
    decreases |p|
  {
    var s := pre + Escape(p) + post;
    if p == [] {
      assert s == pre + post;
      assert s[|pre|] == '"' && |pre| == |s| - 1;
      assert EscapesOk(s, |s| - 1, |pre| + 1);
    } else if p[0] == '"' || p[0] == '\\' {
      var pre' := pre + ['\\', p[0]];
      assert s == pre' + Escape(p[1..]) + post;
      assert s[|pre|] == '\\' && |pre| < |s| - 1;
      EscapedScan(pre', p[1..], post);
    } else {
      var pre' := pre + [p[0]];
      assert s == pre' + Escape(p[1..]) + post;
      assert s[|pre|] == p[0];
      EscapedScan(pre', p[1..], post);
    }
  }

  /**
   * Any ASCII payload with its quotes and backslashes escaped is accepted
   * between two quotes, and comes back with the escapes still in it (they
   * are not decoded).
   */
  lemma EscapedStringAccepted(p: string)
    requires IsAscii(p)
    ensures QuotedString("\"" + Escape(p) + "\"") == Some(Str(Escape(p)))
  {
    var s := "\"" + Escape(p) + "\"";
    QuotedAscii(Escape(p));
    assert ByteLength(s) - 1 == |s| - 1;
    EscapedScan("\"", p, "\"");
    assert EscapesOk(s, ByteLength(s) - 1, 0);
    assert s[1..|s| - 1] == Escape(p);
  }

  lemma QuotedAscii(t: string)
    requires IsAscii(t)
    ensures IsAscii("\"" + t + "\"")
  {
    var s := "\"" + t + "\"";
    forall i | 0 <= i < |s| ensures s[i] as int < 0x80 {
      if 0 < i < |s| - 1 {
        assert s[i] == t[i - 1];
      }
    }
  }

  /**
   * The positions the scan steps on, from i up to j: it moves on by one
   * character, or by two after a '\'. A character the scan steps on is
   * unescaped.
   */
  predicate Visits(s: string, i: nat, j: nat): (b: bool)
    ensures b ==> i <= j
    decreases j - i
  {
    if i >= j then i == j
    else Visits(s, Next(s, i), j)
  }

  function Next(s: string, i: nat): (n: nat)
    ensures i < n <= i + 2
  {
    if i < |s| && s[i] == '\\' then i + 2 else i + 1
  }

  lemma {:induction false} VisitsNext(s: string, i: nat, k: nat)
    requires Visits(s, i, k)
    ensures Visits(s, i, Next(s, k))
    decreases k - i
  {
    if i < k {
      VisitsNext(s, Next(s, i), k);
    } else {
      assert Visits(s, Next(s, k), Next(s, k));
    }
  }

  /** Every position is stepped on, or skipped right after a '\' that is. */
  lemma {:induction false} VisitedOrSkipped(s: string, k: nat)
    requires k <= |s|
    ensures Visits(s, 0, k) || (0 < k && s[k - 1] == '\\' && Visits(s, 0, k - 1))
  {
    if k > 0 {
      VisitedOrSkipped(s, k - 1);
      if Visits(s, 0, k - 1) {
        if s[k - 1] != '\\' {
          VisitsNext(s, 0, k - 1);
        }
      } else {
        VisitsNext(s, 0, k - 2);
      }
    } else {
      assert Visits(s, 0, 0);
    }
  }

  /** A character that does not follow a '\' is stepped on by the scan. */
  lemma UnescapedAfterPlain(s: string, j: nat)
    requires 0 < j <= |s| && s[j - 1] != '\\'
    ensures Visits(s, 0, j)
  {
    VisitedOrSkipped(s, j);
  }

  lemma {:induction false} ReachedQuoteRejects(s: string, last: int, i: nat, j: nat)
    requires Visits(s, i, j) && j < |s| && 0 < j && j != last && s[j] == '"'
    ensures !EscapesOk(s, last, i)
    decreases j - i
  {
    if i < j && EscapesOk(s, last, i) {
      assert EscapesOk(s, last, Next(s, i));
      ReachedQuoteRejects(s, last, Next(s, i), j);
    }
  }

  /** A quote strictly inside the text that the scan steps on (an unescaped one) rejects it. */
  lemma InteriorQuoteRejected(s: string, j: nat)
    requires 0 < j < |s| - 1 && s[j] == '"' && Visits(s, 0, j)
    ensures QuotedString(s) == None
  {
    if ByteLength(s) > 1 && s[0] == '"' && s[|s| - 1] == '"' {
      ReachedQuoteRejects(s, ByteLength(s) - 1, 0, j);
    }
  }

  /**
   * With a character outside ASCII, `s.len() - 1` lies past the last
   * character index, so the closing quote counts as interior: the text is
   * rejected whenever the scan steps on its closing quote.
   */
  lemma NonAsciiRejected(s: string)
    requires !IsAscii(s) && |s| >= 2 && Visits(s, 0, |s| - 1)
    ensures QuotedString(s) == None
  {
    if s[0] == '"' && s[|s| - 1] == '"' {
      ReachedQuoteRejects(s, ByteLength(s) - 1, 0, |s| - 1);
    }
  }

  /** `"é"` (quote, e-acute, quote) is not a string literal. */
  lemma AccentedStringRejected(s: string)
    requires s == "\"é\""
    ensures QuotedString(s) == None
  {
    assert s[1] == 'é' && !IsAscii(s);
    UnescapedAfterPlain(s, 2);
    NonAsciiRejected(s);
  }

  /** The scan skips a character after '\', so "\"" (quote, backslash, quote) is accepted with payload "\". */
  lemma EscapedClosingQuoteAccepted()
    ensures QuotedString("\"\\\"") == Some(Str("\\"))
  {
    var s := "\"\\\"";
    assert |s| == 3 && s[0] == '"' && s[1] == '\\' && s[2] == '"';
    assert ByteLength(s) == 3 by {
      assert IsAscii(s);
    }
    assert EscapesOk(s, 2, 3);
    assert EscapesOk(s, 2, 1);
    assert EscapesOk(s, 2, 0);
    assert s[1..2] == "\\";
  }

  /** A spelling holding a character no number can contain is not a number. */
  lemma NotNumber(s: string, i: nat)
    requires i < |s| && !IsFloatChar(s[i])
    ensures ParseNum(s) == None
  {
    if FloatOf(s).Some? {
      NumChars(s);
    }
  }

  /** The empty spelling is not a number. */
  lemma EmptyIsNotNumber()
    ensures ParseNum("") == None
  {
    assert Lower("") == "";
    assert FirstIndex("", 'e', 'E') == 0;
    assert DecimalValue("") == None;
  }

  /** A buffer ending in '\' is never a string: its last character is not a quote. */
  lemma TrailingBackslashRejected(s: string)
    requires |s| > 0 && s[|s| - 1] == '\\'
    ensures QuotedString(s) == None
  {
  }

  // ---------------------------------------------------------------------
  // Nil
  // ---------------------------------------------------------------------

  /** `Literal::nil`: the two spellings of nil. */
  function ParseNil(s: string): (r: Option<Literal>)
    ensures r.Some? ==> r.value == Nil
  {
    if s == "Φ" || s == "nil" then Some(Nil) else None
  }

  /** Printing nil and reading it back gives nil. */
  lemma NilRoundTrip()
    ensures ParseNil(Display(Nil)) == Some(Nil)
  {
  }
}
