/**
 * `int.TryParse(string, out int)`: the `NumberStyles.Integer` grammar (optional leading
 * and trailing white space, an optional `+`/`-` sign, one or more decimal digits) with the
 * value required to fit in a 32-bit signed integer; and the decimal rendering `int.ToString()`
 * used when an integer id is interpolated into a message.
 */
module Numbers {
  import opened Wrappers
  import opened Text

  const Int32Min: int := -0x8000_0000
  const Int32Max: int := 0x7FFF_FFFF

  predicate InInt32(n: int) {
    Int32Min <= n <= Int32Max
  }

  predicate AllDigits(s: string) {
    forall i :: 0 <= i < |s| ==> IsDigit(s[i])
  }

  function DigitValue(c: char): nat
    requires IsDigit(c)
  {
    c as int - '0' as int
  }

  function DigitChar(d: nat): (c: char)
    requires d < 10
    ensures IsDigit(c) && DigitValue(c) == d
  {
    ('0' as int + d) as char
  }

  /** The value of a run of decimal digits, most significant first. */
  function DigitsValue(ds: string): nat
    requires AllDigits(ds)
    decreases |ds|
  {
    if |ds| == 0 then 0 else 10 * DigitsValue(ds[..|ds| - 1]) + DigitValue(ds[|ds| - 1])
  }

  /** `s.TrimStart()` over the parser's white space. */
  function TrimStartWhite(s: string): (r: string)
    ensures |r| <= |s| && r == s[|s| - |r|..]
    ensures |r| > 0 ==> !IsWhite(r[0])
    ensures forall i :: 0 <= i < |s| - |r| ==> IsWhite(s[i])
    decreases |s|
  {
    if |s| > 0 && IsWhite(s[0]) then TrimStartWhite(s[1..]) else s
  }

  /** `s.TrimEnd()` over the parser's white space. */
  function TrimEndWhite(s: string): (r: string)
    ensures |r| <= |s| && r == s[..|r|]
    ensures |r| > 0 ==> !IsWhite(r[|r| - 1])
    ensures forall i :: |r| <= i < |s| ==> IsWhite(s[i])
    decreases |s|
  {
    if |s| > 0 && IsWhite(s[|s| - 1]) then TrimEndWhite(s[..|s| - 1]) else s
  }

  /** An optionally signed run of at least one digit, with nothing around it. */
  function ParseSigned(body: string): Option<int> {
    if |body| >= 2 && (body[0] == '-' || body[0] == '+') && AllDigits(body[1..]) then
      var magnitude: int := DigitsValue(body[1..]);
      Some(if body[0] == '-' then -magnitude else magnitude)
    else if |body| >= 1 && AllDigits(body) then
      Some(DigitsValue(body))
    else
      None
  }

  /** `int.TryParse(s, out n)`: `Some(n)` on success; a null string never parses. */
  function TryParseInt32(s: NString): (r: Option<int>)
    ensures r.Some? ==> InInt32(r.value)
  {
    if s.None? then None
    else
      match ParseSigned(TrimEndWhite(TrimStartWhite(s.value)))
      case Some(n) => if InInt32(n) then Some(n) else None
      case None => None
  }

  /** `n.ToString()` for a non-negative integer. */
  function FormatNat(n: nat): (r: string)
    ensures |r| >= 1 && AllDigits(r)
    decreases n
  {
    if n < 10 then [DigitChar(n)] else FormatNat(n / 10) + [DigitChar(n % 10)]
  }

  /** `n.ToString()`: a minus sign for negative values, then the decimal digits. */
  function FormatInt(n: int): string {
    if n < 0 then "-" + FormatNat(-n) else FormatNat(n)
  }

  /** The digits `FormatNat` writes are worth the number it was given. */
  lemma {:induction false} FormatNatValue(n: nat)
    ensures DigitsValue(FormatNat(n)) == n
    decreases n
  {
    if n >= 10 {
      var f := FormatNat(n / 10) + [DigitChar(n % 10)];
      assert f[..|f| - 1] == FormatNat(n / 10);
      FormatNatValue(n / 10);
    }
  }

  /** Text that starts and ends with a non-white character is not trimmed. */
  lemma TrimNothing(s: string)
    requires |s| > 0 && !IsWhite(s[0]) && !IsWhite(s[|s| - 1])
    ensures TrimEndWhite(TrimStartWhite(s)) == s
  {
  }

  /** Round trip: every 32-bit integer parses back from its decimal rendering. */
  lemma ParseFormatted(n: int)
    requires InInt32(n)
    ensures TryParseInt32(Some(FormatInt(n))) == Some(n)
  {
    var f := FormatInt(n);
    if n < 0 {
      FormatNatValue(-n);
      assert f[1..] == FormatNat(-n);
      assert IsDigit(f[|f| - 1]);
    } else {
      FormatNatValue(n);
      assert IsDigit(f[0]);
    }
    TrimNothing(f);
  }

  /** A signed digit run holds no letter. */
  lemma SignedRejectsLetter(body: string, j: int)
    requires 0 <= j < |body| && IsLetter(body[j])
    ensures ParseSigned(body) == None
  {
    if j >= 1 {
      assert body[1..][j - 1] == body[j];
      assert !AllDigits(body[1..]);
    }
    assert !AllDigits(body);
  }

  /** A string holding a letter never parses as an integer. */
  lemma ParseRejectsLetters(s: string)
    requires HasLetter(s)
    ensures TryParseInt32(Some(s)) == None
  {
    var i :| 0 <= i < |s| && IsLetter(s[i]);
    var t := TrimStartWhite(s);
    var body := TrimEndWhite(t);
    var k := |s| - |t|;
    assert !IsWhite(s[i]);
    assert k <= i;
    assert t[i - k] == s[i];
    assert i - k < |body|;
    assert body[i - k] == s[i];
    SignedRejectsLetter(body, i - k);
  }
}
