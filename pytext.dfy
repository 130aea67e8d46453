/**
 * The Python string built-ins the watcher applies to scraped cell text:
 * `str.strip()`, `str.rstrip('.')` and `int(str)` in base 10.
 */
module PyText {
  import opened Wrappers

  /** `c.isspace()` for Python 3 strings: the characters with the
      whitespace property or the bidirectional class WS, B or S. */
  predicate IsSpace(c: char) {
    var n := c as int;
    || n == 0x20
    || 0x09 <= n <= 0x0D
    || 0x1C <= n <= 0x1F
    || n == 0x85 || n == 0xA0 || n == 0x1680
    || 0x2000 <= n <= 0x200A
    || n == 0x2028 || n == 0x2029 || n == 0x202F || n == 0x205F || n == 0x3000
  }

  predicate IsDigit(c: char) {
    '0' <= c <= '9'
  }

  /** `s.lstrip()`: drops the leading whitespace, and only that. */
  function TrimStart(s: string): string {
    if |s| > 0 && IsSpace(s[0]) then TrimStart(s[1..]) else s
  }

  /** `s.rstrip()`: drops the trailing whitespace, and only that. */
  function TrimEnd(s: string): string {
    if |s| > 0 && IsSpace(s[|s| - 1]) then TrimEnd(s[..|s| - 1]) else s
  }

  /** `s.strip()` */
  function Strip(s: string): string {
    TrimEnd(TrimStart(s))
  }

  /** `s.rstrip('.')`: drops every trailing full stop, and only those. */
  function TrimDots(s: string): string {
    if |s| > 0 && s[|s| - 1] == '.' then TrimDots(s[..|s| - 1]) else s
  }

  /** `lstrip()` removes a prefix of whitespace, and all of it. */
  lemma {:induction false} TrimStartSpec(s: string)
    ensures |TrimStart(s)| <= |s| && TrimStart(s) == s[|s| - |TrimStart(s)|..]
    ensures forall i | 0 <= i < |s| - |TrimStart(s)| :: IsSpace(s[i])
    ensures |TrimStart(s)| == 0 || !IsSpace(TrimStart(s)[0])
  {
    if |s| > 0 && IsSpace(s[0]) {
      var t := s[1..];
      TrimStartSpec(t);
      assert TrimStart(s) == TrimStart(t);
      assert forall i | 1 <= i < |s| :: s[i] == t[i - 1];
    }
  }

  /** `rstrip()` removes a suffix of whitespace, and all of it. */
  lemma {:induction false} TrimEndSpec(s: string)
    ensures |TrimEnd(s)| <= |s| && TrimEnd(s) == s[..|TrimEnd(s)|]
    ensures forall i | |TrimEnd(s)| <= i < |s| :: IsSpace(s[i])
    ensures |TrimEnd(s)| == 0 || !IsSpace(TrimEnd(s)[|TrimEnd(s)| - 1])
  {
    if |s| > 0 && IsSpace(s[|s| - 1]) {
      TrimEndSpec(s[..|s| - 1]);
    }
  }

  /** `rstrip('.')` removes a suffix of full stops, and all of it. */
  lemma {:induction false} TrimDotsSpec(s: string)
    ensures |TrimDots(s)| <= |s| && TrimDots(s) == s[..|TrimDots(s)|]
    ensures forall i | |TrimDots(s)| <= i < |s| :: s[i] == '.'
    ensures |TrimDots(s)| == 0 || TrimDots(s)[|TrimDots(s)| - 1] != '.'
  {
    if |s| > 0 && s[|s| - 1] == '.' {
      TrimDotsSpec(s[..|s| - 1]);
    }
  }

  /** `strip()` leaves the text between the leading and the trailing
      whitespace: no whitespace at either end, and only whitespace removed. */
  lemma StripSpec(s: string)
    ensures var i := |s| - |TrimStart(s)|;
      && 0 <= i <= i + |Strip(s)| <= |s|
      && Strip(s) == s[i..i + |Strip(s)|]
      && (forall k | 0 <= k < i :: IsSpace(s[k]))
      && (forall k | i + |Strip(s)| <= k < |s| :: IsSpace(s[k]))
    ensures |Strip(s)| == 0 || (!IsSpace(Strip(s)[0]) && !IsSpace(Strip(s)[|Strip(s)| - 1]))
  {
    var u := TrimStart(s);
    TrimStartSpec(s);
    TrimEndSpec(u);
    var t := Strip(s);
    var i := |s| - |u|;
    assert t == s[i..i + |t|];
  }

  /** The digit part `int()` accepts: ASCII digits, where a single underscore
      may stand between two digits (PEP 515 grouping). */
  predicate IsDigitRun(s: string) {
    && |s| > 0
    && IsDigit(s[0])
    && forall i | 0 <= i < |s| :: IsDigit(s[i]) || (s[i] == '_' && i + 1 < |s| && IsDigit(s[i + 1]))
  }

  /** The value of a digit run, underscores ignored. */
  function RunValue(s: string): (n: nat)
  {
    if |s| == 0 then 0
    else if IsDigit(s[|s| - 1]) then RunValue(s[..|s| - 1]) * 10 + (s[|s| - 1] as int - '0' as int)
    else RunValue(s[..|s| - 1])
  }

  /** `int(s)`: surrounding whitespace, an optional sign and a digit run;
      `None` is the `ValueError` Python raises for anything else. */
  function ParseInt(s: string): Option<int>
  {
    var t := Strip(s);
    if |t| == 0 then None
    else if t[0] == '-' || t[0] == '+' then
      if IsDigitRun(t[1..]) then
        var v: int := RunValue(t[1..]);
        Some(if t[0] == '-' then -v else v)
      else None
    else if IsDigitRun(t) then Some(RunValue(t))
    else None
  }

  /** The decimal digits of a natural number, most significant first. */
  function Digits(n: nat): (s: string)
    decreases n
  {
    if n < 10 then [('0' as int + n) as char]
    else Digits(n / 10) + [('0' as int + n % 10) as char]
  }

  /** `str(n)` for an integer. */
  function Decimal(n: int): string {
    if n < 0 then "-" + Digits(-n) else Digits(n)
  }

  lemma {:induction false} DigitsIsRun(n: nat)
    ensures IsDigitRun(Digits(n)) && RunValue(Digits(n)) == n
    ensures forall i | 0 <= i < |Digits(n)| :: IsDigit(Digits(n)[i])
    decreases n
  {
    if n >= 10 {
      DigitsIsRun(n / 10);
      var s := Digits(n);
      assert s[..|s| - 1] == Digits(n / 10);
    }
  }

  /** Text that neither starts nor ends with whitespace is its own strip. */
  lemma StripUnchanged(s: string)
    requires |s| > 0 && !IsSpace(s[0]) && !IsSpace(s[|s| - 1])
    ensures Strip(s) == s
  {
    assert TrimStart(s) == s;
  }

  lemma {:induction false} DecimalShape(n: int)
    ensures |Decimal(n)| > 0 && !IsSpace(Decimal(n)[0])
    ensures IsDigit(Decimal(n)[|Decimal(n)| - 1])
  {
    var m := if n < 0 then -n else n;
    DigitsIsRun(m);
    var d := Digits(m);
    var s := Decimal(n);
    assert s[|s| - 1] == d[|d| - 1];
  }

  /** `int(str(n)) == n`: the parser reads back every integer Python prints. */
  lemma ParseIntDecimal(n: int)
    ensures ParseInt(Decimal(n)) == Some(n)
  {
    var m := if n < 0 then -n else n;
    DigitsIsRun(m);
    DecimalShape(n);
    StripUnchanged(Decimal(n));
    if n < 0 {
      assert Decimal(n)[1..] == Digits(m);
    }
  }

  /** A digit run never ends in a full stop. */
  lemma DotEndsNoRun(t: string)
    requires |t| > 0 && t[|t| - 1] == '.'
    ensures !IsDigitRun(t)
  {
    var i := |t| - 1;
    assert !IsDigit(t[i]) && t[i] != '_';
  }

  /** `int()` refuses a label that still ends in a full stop, which is why
      the builder strips the full stops first. */
  lemma ParseIntRejectsDot(s: string)
    ensures ParseInt(s + ".") == None
  {
    var l := s + ".";
    var u := TrimStart(l);
    TrimStartSpec(l);
    TrimEndSpec(u);
    assert !IsSpace(l[|l| - 1]);
    assert u[|u| - 1] == l[|l| - 1] == '.';
    var t := Strip(l);
    assert t == u;
    DotEndsNoRun(t);
    if |t| > 1 {
      assert t[1..][|t| - 2] == t[|t| - 1];
      DotEndsNoRun(t[1..]);
    }
  }

  /** A rank label as the screener prints it, `"<n>."`, parses back to `n`
      once stripped of whitespace and trailing full stops. */
  lemma RankLabelDecimal(n: int)
    ensures ParseInt(TrimDots(Strip(Decimal(n) + "."))) == Some(n)
  {
    var s := Decimal(n);
    var l := s + ".";
    DecimalShape(n);
    assert l[0] == s[0];
    StripUnchanged(l);
    assert l[..|l| - 1] == s;
    assert TrimDots(s) == s;
    ParseIntDecimal(n);
  }

  /** Text made of whitespace only. */
  predicate AllSpace(s: string) {
    forall i | 0 <= i < |s| :: IsSpace(s[i])
  }

  /** Text made of full stops only. */
  predicate AllDots(s: string) {
    forall i | 0 <= i < |s| :: s[i] == '.'
  }

  /** `lstrip()` passes over a whitespace prefix. */
  lemma {:induction false} TrimStartSkips(w: string, s: string)
    requires AllSpace(w)
    ensures TrimStart(w + s) == TrimStart(s)
    decreases |w|
  {
    if |w| > 0 {
      assert (w + s)[0] == w[0];
      assert (w + s)[1..] == w[1..] + s;
      TrimStartSkips(w[1..], s);
    } else {
      assert w + s == s;
    }
  }

  /** `rstrip()` passes over a whitespace suffix. */
  lemma {:induction false} TrimEndSkips(s: string, w: string)
    requires AllSpace(w)
    ensures TrimEnd(s + w) == TrimEnd(s)
    decreases |w|
  {
    if |w| > 0 {
      AppendInit(s, w);
      TrimEndSkips(s, w[..|w| - 1]);
    } else {
      assert s + w == s;
    }
  }

  /** `rstrip('.')` passes over a suffix of full stops. */
  lemma {:induction false} TrimDotsSkips(s: string, d: string)
    requires AllDots(d)
    ensures TrimDots(s + d) == TrimDots(s)
    decreases |d|
  {
    if |d| > 0 {
      AppendInit(s, d);
      TrimDotsSkips(s, d[..|d| - 1]);
    } else {
      assert s + d == s;
    }
  }

  /** `strip()` removes exactly the whitespace padding around a text that
      neither starts nor ends with whitespace. */
  lemma StripPadded(pre: string, body: string, post: string)
    requires AllSpace(pre) && AllSpace(post)
    requires |body| > 0 && !IsSpace(body[0]) && !IsSpace(body[|body| - 1])
    ensures Strip(pre + body + post) == body
  {
    assert pre + body + post == pre + (body + post);
    assert (body + post)[0] == body[0];
    TrimStartSkips(pre, body + post);
    assert TrimStart(body + post) == body + post;
    TrimEndSkips(body, post);
  }

  /** A rank cell holding `str(n)`, any number of trailing full stops and
      any whitespace around them reads back as `n`:
      `int(cell.strip().rstrip('.')) == n`. */
  lemma RankLabelPadded(n: int, pre: string, dots: string, post: string)
    requires AllSpace(pre) && AllDots(dots) && AllSpace(post)
    ensures ParseInt(TrimDots(Strip(pre + Decimal(n) + dots + post))) == Some(n)
  {
    var d := Decimal(n);
    DecimalShape(n);
    var body := d + dots;
    assert body[0] == d[0];
    assert body[|body| - 1] == (if |dots| > 0 then dots[|dots| - 1] else d[|d| - 1]);
    StripPadded(pre, body, post);
    assert pre + d + dots + post == pre + body + post;
    TrimDotsSkips(d, dots);
    assert TrimDots(d) == d;
    ParseIntDecimal(n);
  }
}
