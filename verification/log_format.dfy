/**
 * The logger's pure formatting: level prefixes, the layout of a log line, and
 * the name a log file is rotated to, `<name>.YYYYMMDD` cut to the 199
 * characters a 200-byte buffer holds.
 */
module LogFormat {

  import opened Wrappers

  /** Message levels. */
  datatype Level = Ok | Info | Warning | Error | Fatal

  /** The three-letter tag of each level. */
  function Prefix(l: Level): (p: string)
    ensures |p| == 3
  {
    match l
    case Ok => "OK!"
    case Warning => "WRN"
    case Info => "INF"
    case Error => "ERR"
    case Fatal => "FTL"
  }

  /** The level a tag stands for, if any. */
  function LevelOf(p: string): (r: Option<Level>)
    ensures r.Some? ==> Prefix(r.value) == p
  {
    if p == "OK!" then Some(Ok)
    else if p == "WRN" then Some(Warning)
    else if p == "INF" then Some(Info)
    else if p == "ERR" then Some(Error)
    else if p == "FTL" then Some(Fatal)
    else None
  }

  /** Every level's tag reads back as that level: the tags are distinct. */
  lemma PrefixRoundTrip(l: Level)
    ensures LevelOf(Prefix(l)) == Some(l)
  {
    match l
    case Ok =>
    case Warning => assert "WRN" != "OK!" by { assert "WRN"[0] != "OK!"[0]; }
    case Info =>
      assert "INF" != "OK!" by { assert "INF"[0] != "OK!"[0]; }
      assert "INF" != "WRN" by { assert "INF"[0] != "WRN"[0]; }
    case Error =>
      assert "ERR" != "OK!" by { assert "ERR"[0] != "OK!"[0]; }
      assert "ERR" != "WRN" by { assert "ERR"[0] != "WRN"[0]; }
      assert "ERR" != "INF" by { assert "ERR"[0] != "INF"[0]; }
    case Fatal =>
      assert "FTL" != "OK!" by { assert "FTL"[0] != "OK!"[0]; }
      assert "FTL" != "WRN" by { assert "FTL"[0] != "WRN"[0]; }
      assert "FTL" != "INF" by { assert "FTL"[0] != "INF"[0]; }
      assert "FTL" != "ERR" by { assert "FTL"[0] != "ERR"[0]; }
  }

  const Separator: string := " *** "

  /** One log line: `[<stamp>] *** <tag> *** <message>` and a newline. */
  function FormatLine(stamp: string, l: Level, msg: string): (line: string)
    ensures |line| == |stamp| + |msg| + 16
    ensures line[0] == '[' && line[|line| - 1] == '\n'
  {
    "[" + stamp + "]" + Separator + Prefix(l) + Separator + msg + "\n"
  }

  /** Index of the first `c` in `s`, or |s|. */
  function IndexOf(s: string, c: char): (r: nat)
    ensures r <= |s| && (r < |s| ==> s[r] == c)
    ensures forall i :: 0 <= i < r ==> s[i] != c
  {
    if |s| == 0 then 0
    else if s[0] == c then 0
    else 1 + IndexOf(s[1..], c)
  }

  /** Splits a log line back into stamp, level and message; the stamp ends at the first `]`. */
  function ParseLine(line: string): Option<(string, Level, string)>
  {
    if |line| < 16 || line[0] != '[' || line[|line| - 1] != '\n' then None
    else
      var body := line[1..|line| - 1];
      var j := IndexOf(body, ']');
      if j + 14 > |body| then None
      else
        var rest := body[j..];
        var tag := LevelOf(rest[6..9]);
        if rest[..6] != "]" + Separator || rest[9..14] != Separator || tag.None? then None
        else Some((body[..j], tag.value, rest[14..]))
  }

  /** Whatever line parses is exactly the formatting of what it parses to. */
  lemma ParseLineSound(line: string)
    ensures ParseLine(line).Some? ==>
      FormatLine(ParseLine(line).value.0, ParseLine(line).value.1, ParseLine(line).value.2) == line
  {
    var r := ParseLine(line);
    if r.Some? {
      var body := line[1..|line| - 1];
      var j := IndexOf(body, ']');
      var rest := body[j..];
      var stamp, l, msg := r.value.0, r.value.1, r.value.2;
      assert Prefix(l) == rest[6..9];
      assert rest == rest[..6] + rest[6..9] + rest[9..14] + rest[14..];
      assert rest == "]" + Separator + Prefix(l) + Separator + msg;
      assert body == stamp + rest;
      assert line == "[" + body + "\n";
      FormatLineShape(stamp, l, msg);
    }
  }

  /** A formatted line is `[`, then the stamp followed by the rest, then a newline. */
  lemma FormatLineShape(stamp: string, l: Level, msg: string)
    ensures FormatLine(stamp, l, msg) == "[" + (stamp + ("]" + Separator + Prefix(l) + Separator + msg)) + "\n"
  {
  }

  /** Round trip: a line reads back as the stamp, level and message it was written from, when the stamp holds no `]`. */
  lemma ParseFormatLine(stamp: string, l: Level, msg: string)
    requires forall i :: 0 <= i < |stamp| ==> stamp[i] != ']'
    ensures ParseLine(FormatLine(stamp, l, msg)) == Some((stamp, l, msg))
  {
    var line := FormatLine(stamp, l, msg);
    var rest := "]" + Separator + Prefix(l) + Separator + msg;
    LineParts(stamp, rest, line);
    var body := line[1..|line| - 1];
    IndexOfPrefix(stamp, rest, ']');
    RestParts(Prefix(l), msg);
    PrefixRoundTrip(l);
    assert body[..|stamp|] == stamp;
    assert body[|stamp|..] == rest;
  }

  /** The pieces after the stamp sit at fixed offsets. */
  lemma RestParts(p: string, msg: string)
    requires |p| == 3
    ensures var rest := "]" + Separator + p + Separator + msg;
      && |rest| == 14 + |msg|
      && rest[..6] == "]" + Separator && rest[6..9] == p && rest[9..14] == Separator && rest[14..] == msg
  {
  }

  /** A formatted line is `[`, the stamp and the rest, and a newline. */
  lemma LineParts(stamp: string, rest: string, line: string)
    requires line == "[" + stamp + rest + "\n"
    ensures |line| >= 2 && line[0] == '[' && line[|line| - 1] == '\n'
    ensures line[1..|line| - 1] == stamp + rest
  {
  }

  lemma {:induction false} IndexOfPrefix(a: string, b: string, c: char)
    requires (forall i :: 0 <= i < |a| ==> a[i] != c) && |b| > 0 && b[0] == c
    ensures IndexOf(a + b, c) == |a|
  {
    if |a| > 0 {
      assert (a + b)[1..] == a[1..] + b;
      IndexOfPrefix(a[1..], b, c);
    }
  }

  // ---------------------------------------------------------------------
  // Decimal numbers, as printf's %u and %0Nu write them

  function DigitChar(d: nat): char
    requires d < 10
  {
    "0123456789"[d]
  }

  predicate IsDigit(c: char) { '0' <= c <= '9' }

  predicate AllDigits(s: string) { forall i :: 0 <= i < |s| ==> IsDigit(s[i]) }

  /** The decimal digits of n, without leading zeros (a single 0 for zero). */
  function Digits(n: nat): (s: string)
    ensures |s| >= 1 && AllDigits(s)
  {
    if n < 10 then [DigitChar(n)] else Digits(n / 10) + [DigitChar(n % 10)]
  }

  /** The value of a string of decimal digits. */
  function Value(s: string): nat
    requires AllDigits(s)
  {
    if |s| == 0 then 0 else 10 * Value(s[..|s| - 1]) + (s[|s| - 1] as int - '0' as int)
  }

  function Zeros(k: nat): (s: string)
    ensures |s| == k && AllDigits(s)
  {
    if k == 0 then "" else Zeros(k - 1) + "0"
  }

  /** `%0<w>u`: n in decimal, left-padded with zeros to at least w characters. */
  function Pad(n: nat, w: nat): (s: string)
    ensures AllDigits(s)
  {
    var d := Digits(n);
    if |d| >= w then d else Zeros(w - |d|) + d
  }

  /** Digits are read back as the number written. */
  lemma {:induction false} DigitsValue(n: nat)
    ensures Value(Digits(n)) == n
  {
    if n >= 10 {
      DigitsValue(n / 10);
      var s := Digits(n);
      assert s[..|s| - 1] == Digits(n / 10);
    }
  }

  /** A number below 10^k has at most k digits. */
  lemma {:induction false} DigitsLength(n: nat, k: nat, bound: nat)
    requires bound == Pow10(k) && n < bound && k >= 1
    ensures |Digits(n)| <= k
  {
    if n >= 10 {
      assert k >= 2;
      assert n / 10 < Pow10(k - 1);
      DigitsLength(n / 10, k - 1, Pow10(k - 1));
    }
  }

  function Pow10(k: nat): (p: nat)
    ensures p >= 1
  {
    if k == 0 then 1 else 10 * Pow10(k - 1)
  }

  /** Leading zeros do not change the value. */
  lemma {:induction false} ZerosValue(k: nat, s: string)
    requires AllDigits(s)
    ensures AllDigits(Zeros(k) + s) && Value(Zeros(k) + s) == Value(s)
  {
    var t := Zeros(k) + s;
    assert AllDigits(t) by {
      forall i | 0 <= i < |t| ensures IsDigit(t[i]) {
        if i >= k { assert t[i] == s[i - k]; }
      }
    }
    if |s| == 0 {
      assert t == Zeros(k);
      ZerosZero(k);
    } else {
      assert t[..|t| - 1] == Zeros(k) + s[..|s| - 1];
      ZerosValue(k, s[..|s| - 1]);
    }
  }

  lemma {:induction false} ZerosZero(k: nat)
    ensures Value(Zeros(k)) == 0
  {
    if k > 0 {
      assert Zeros(k)[..k - 1] == Zeros(k - 1);
      ZerosZero(k - 1);
    }
  }

  /** Padding reads back as the number, and a number below 10^w pads to exactly w characters. */
  lemma PadValue(n: nat, w: nat)
    ensures Value(Pad(n, w)) == n
    ensures w >= 1 && n < Pow10(w) ==> |Pad(n, w)| == w
  {
    DigitsValue(n);
    if |Digits(n)| < w {
      ZerosValue(w - |Digits(n)|, Digits(n));
    }
    if w >= 1 && n < Pow10(w) {
      DigitsLength(n, w, Pow10(w));
    }
  }

  // ---------------------------------------------------------------------
  // The rotated file name

  /** A calendar date, as the clock breaks an instant down. */
  datatype Date = Date(year: nat, month: nat, day: nat)

  /** A date packed as YYYYMMDD, the number dates are compared by. */
  function DateKey(d: Date): nat
  {
    d.year * 10000 + d.month * 100 + d.day
  }

  predicate ValidDate(d: Date)
  {
    1 <= d.month <= 12 && 1 <= d.day <= 31
  }

  /** On real dates the packed number orders dates by year, then month, then day. */
  lemma DateKeyOrder(a: Date, b: Date)
    requires ValidDate(a) && ValidDate(b)
    ensures DateKey(a) > DateKey(b) <==>
      (a.year > b.year || (a.year == b.year && (a.month > b.month || (a.month == b.month && a.day > b.day))))
    ensures DateKey(a) == DateKey(b) <==> a == b
  {
    var ka, kb := a.month * 100 + a.day, b.month * 100 + b.day;
    assert 101 <= ka < 10000 && 101 <= kb < 10000;
    if a.year > b.year {
      assert a.year * 10000 >= b.year * 10000 + 10000;
    } else if a.year < b.year {
      assert b.year * 10000 >= a.year * 10000 + 10000;
    }
  }

  const RotatedNameMax: nat := 199

  /** snprintf into a buffer of RotatedNameMax + 1 bytes keeps at most RotatedNameMax characters. */
  function Truncate(s: string, n: nat): (r: string)
    ensures |r| <= n && |r| <= |s| && r == s[..|r|]
    ensures |s| <= n ==> r == s
  {
    if |s| <= n then s else s[..n]
  }

  /** `<name>.YYYYMMDD`, cut to RotatedNameMax characters. */
  function RotatedName(name: string, d: Date): (r: string)
    ensures |r| <= RotatedNameMax
  {
    Truncate(name + "." + Pad(d.year, 4) + Pad(d.month, 2) + Pad(d.day, 2), RotatedNameMax)
  }

  /**
   * For a name short enough and a four-digit year, the rotated name is the
   * name, a dot and eight digits that read back as year, month and day.
   */
  lemma RotatedNameRoundTrip(name: string, d: Date)
    requires |name| + 9 <= RotatedNameMax && d.year < 10000 && d.month < 100 && d.day < 100
    ensures var r := RotatedName(name, d);
      && |r| == |name| + 9 && r[..|name|] == name && r[|name|] == '.'
      && AllDigits(r[|name| + 1..])
      && Value(r[|name| + 1..|name| + 5]) == d.year
      && Value(r[|name| + 5..|name| + 7]) == d.month
      && Value(r[|name| + 7..]) == d.day
  {
    PadValue(d.year, 4);
    PadValue(d.month, 2);
    PadValue(d.day, 2);
    assert Pow10(4) == 10000 && Pow10(2) == 100;
    var y, m, dd := Pad(d.year, 4), Pad(d.month, 2), Pad(d.day, 2);
    var full := name + "." + y + m + dd;
    assert |full| == |name| + 9;
    var r := RotatedName(name, d);
    assert r == full;
    var n := |name|;
    assert full[n + 1..] == y + m + dd;
    assert full[n + 1..n + 5] == y;
    assert full[n + 5..n + 7] == m;
    assert full[n + 7..] == dd;
    assert full[..n] == name;
  }
}
