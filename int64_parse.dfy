/**
 * `long.TryParse(string?, out long)` with the default integer style: optional
 * leading and trailing white space, an optional sign, decimal digits, and a
 * value that must fit in a signed 64-bit integer.
 */
module Int64Parse {
  import opened Wrappers

  const Int64Min: int := -0x8000_0000_0000_0000
  const Int64Max: int := 0x7FFF_FFFF_FFFF_FFFF

  predicate IsDigit(c: char) { '0' <= c <= '9' }

  predicate AllDigits(s: string) { forall i :: 0 <= i < |s| ==> IsDigit(s[i]) }

  /** The white space the integer style allows around the number: U+0009 to U+000D and U+0020. */
  predicate IsWhite(c: char) { c == ' ' || ('\t' <= c <= '\r') }

  /** The value of a string of decimal digits, most significant first. */
  function DigitsValue(ds: string): nat
    requires AllDigits(ds)
  {
    if ds == [] then 0
    else DigitsValue(ds[..|ds| - 1]) * 10 + (ds[|ds| - 1] as int - '0' as int)
  }

  /** `s` without its leading white space: only white space is dropped, and all of it. */
  function TrimStart(s: string): (r: string)
    ensures r == [] || !IsWhite(r[0])
    ensures |r| <= |s| && r == s[|s| - |r|..]
    ensures forall i :: 0 <= i < |s| - |r| ==> IsWhite(s[i])
  {
    if s != [] && IsWhite(s[0]) then TrimStart(s[1..]) else s
  }

  /** `s` without its trailing white space: only white space is dropped, and all of it. */
  function TrimEnd(s: string): (r: string)
    ensures r == [] || !IsWhite(r[|r| - 1])
    ensures |r| <= |s| && r == s[..|r|]
    ensures forall i :: |r| <= i < |s| ==> IsWhite(s[i])
  {
    if s != [] && IsWhite(s[|s| - 1]) then TrimEnd(s[..|s| - 1]) else s
  }

  /** `long.TryParse`: `None` is the `false` return; null input is `None` too. */
  function TryParseLong(s: Option<string>): (r: Option<int>)
    ensures r.Some? ==> Int64Min <= r.value <= Int64Max
    ensures s.None? ==> r.None?
  {
    if s.None? then None
    else
      var t := TrimEnd(TrimStart(s.value));
      var negative := |t| > 0 && t[0] == '-';
      var digits := if |t| > 0 && (t[0] == '-' || t[0] == '+') then t[1..] else t;
      ParseSigned(negative, digits)
  }

  /** Decimal digits of a natural number, most significant first, without leading zeros. */
  function Digits(m: nat): string
  {
    if m < 10 then ['0' + m as char] else Digits(m / 10) + ['0' + (m % 10) as char]
  }

  /** The invariant-culture decimal text of an integer: `n.ToString()`. */
  function Format(n: int): string
  {
    if n < 0 then "-" + Digits(-n) else Digits(n)
  }

  lemma {:induction false} DigitsRoundTrip(m: nat)
    ensures |Digits(m)| > 0 && AllDigits(Digits(m))
    ensures DigitsValue(Digits(m)) == m
  {
    if m >= 10 {
      DigitsRoundTrip(m / 10);
      var ds := Digits(m);
      assert ds[..|ds| - 1] == Digits(m / 10);
    }
  }

  lemma TrimUnchanged(s: string)
    requires s != [] && !IsWhite(s[0]) && !IsWhite(s[|s| - 1])
    ensures TrimEnd(TrimStart(s)) == s
  {
  }

  /** Parsing the decimal text of an integer gives it back exactly when it fits in 64 bits. */
  lemma ParseFormat(n: int)
    ensures TryParseLong(Some(Format(n))) == if Int64Min <= n <= Int64Max then Some(n) else None
  {
    var m: nat := if n < 0 then -n else n;
    DigitsRoundTrip(m);
    var ds := Digits(m);
    var f := Format(n);
    assert IsDigit(ds[0]) && IsDigit(ds[|ds| - 1]);
    if n < 0 {
      assert f == "-" + ds;
      assert f[|f| - 1] == ds[|ds| - 1];
      assert f[1..] == ds;
      TrimUnchanged(f);
      assert TryParseLong(Some(f)) == ParseSigned(true, ds);
    } else {
      assert f == ds;
      TrimUnchanged(f);
      assert TryParseLong(Some(f)) == ParseSigned(false, ds);
    }
  }

  /** The last step of `TryParseLong`, once the sign and the digits are known. */
  function ParseSigned(negative: bool, digits: string): Option<int>
  {
    if digits == [] || !AllDigits(digits) then None
    else
      var v: int := if negative then -(DigitsValue(digits) as int) else DigitsValue(digits);
      if Int64Min <= v <= Int64Max then Some(v) else None
  }

  /**
   * What a successful parse means: once the surrounding white space is
   * trimmed, the text is an optional sign followed by at least one decimal
   * digit and nothing else, and the result is the signed value of those
   * digits. Every other text (empty, a lone sign, `12a`, `1 2`, `--1`) fails.
   */
  lemma ParseSucceeds(s: string, v: int)
    requires TryParseLong(Some(s)) == Some(v)
    ensures var t := TrimEnd(TrimStart(s));
      && t != []
      && var signed := t[0] == '-' || t[0] == '+';
      && var digits := if signed then t[1..] else t;
      && digits != [] && AllDigits(digits)
      && v == (if t[0] == '-' then -(DigitsValue(digits) as int) else DigitsValue(digits))
  {
    ParseTrimmed(s, TrimEnd(TrimStart(s)));
  }

  /**
   * The converse of `ParseSucceeds`: any text that trims to an optional sign
   * followed by at least one decimal digit parses to the signed value of the
   * digits whenever that value fits in 64 bits, leading zeros, `+` and `-0`
   * included.
   */
  lemma ParseWellFormed(s: string, sign: string, ds: string)
    requires sign == "" || sign == "+" || sign == "-"
    requires ds != [] && AllDigits(ds)
    requires TrimEnd(TrimStart(s)) == sign + ds
    requires Int64Min <= (if sign == "-" then -(DigitsValue(ds) as int) else DigitsValue(ds)) <= Int64Max
    ensures TryParseLong(Some(s)) == Some(if sign == "-" then -(DigitsValue(ds) as int) else DigitsValue(ds))
  {
    SignedDigits(sign, ds);
    ParseTrimmed(s, sign + ds);
  }

  /** `TryParseLong` only looks at the trimmed text. */
  lemma ParseTrimmed(s: string, t: string)
    requires TrimEnd(TrimStart(s)) == t
    ensures TryParseLong(Some(s)) ==
      ParseSigned(|t| > 0 && t[0] == '-', if |t| > 0 && (t[0] == '-' || t[0] == '+') then t[1..] else t)
  {
  }

  /** Splitting `sign + ds` back into its sign and its digits. */
  lemma SignedDigits(sign: string, ds: string)
    requires sign == "" || sign == "+" || sign == "-"
    requires ds != [] && AllDigits(ds)
    ensures var t := sign + ds;
      && |t| > 0 && (t[0] == '-' <==> sign == "-")
      && (if t[0] == '-' || t[0] == '+' then t[1..] else t) == ds
  {
    var t := sign + ds;
    if sign == "" {
      assert t == ds;
      assert IsDigit(t[0]);
    } else {
      assert t[0] == sign[0] && t[1..] == ds;
    }
  }

  /** A sign that is not followed by digits, or a stray character, makes the parse fail. */
  lemma ParseExamplesRejected()
    ensures TryParseLong(Some("+")).None?
    ensures TryParseLong(Some("--1")).None?
    ensures TryParseLong(Some("1 2")).None?
    ensures TryParseLong(Some("12a")).None?
    ensures TryParseLong(Some("")).None?
  {
    TrimUnchanged("+");
    assert "+"[1..] == [];
    TrimUnchanged("--1");
    assert "--1"[1..] == "-1";
    assert !AllDigits("-1") by { assert !IsDigit("-1"[0]); }
    TrimUnchanged("1 2");
    assert !AllDigits("1 2") by { assert !IsDigit("1 2"[1]); }
    TrimUnchanged("12a");
    assert !AllDigits("12a") by { assert !IsDigit("12a"[2]); }
  }

  /** Surrounding white space is ignored. */
  lemma ParseExampleWhite()
    ensures TryParseLong(Some(" 42\t")) == Some(42)
  {
    var s := " 42\t";
    assert TrimStart(s) == s[1..];
    assert s[1..] == "42\t";
    assert TrimEnd("42\t") == "42\t"[..2];
    assert "42\t"[..2] == "42";
    assert "42"[..1] == "4";
    assert "4"[..0] == "";
    assert DigitsValue("42") == 42;
    assert ParseSigned(false, "42") == Some(42);
  }
}
