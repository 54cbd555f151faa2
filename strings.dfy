/**
 * The pieces of Go's `fmt` and `strings` packages that the query layer of
 * db/db.go relies on, written out over `seq<char>`:
 *  - `fmt.Sprintf(format, arg)` with a single string operand,
 *  - `%v` of an `int` (decimal rendering),
 *  - `strings.Split(s, sep)` for a one-character separator and
 *    `strings.Join(parts, sep)` for any separator.
 */
module GoStrings {

  /* ---------------------------------------------------------------------- */
  /* Sprintf with one string operand                                        */
  /* ---------------------------------------------------------------------- */

  /** The format text that prints `s` literally: every '%' is doubled. */
  function Escape(s: string): (r: string)
    ensures |r| >= |s|
  {
    if s == [] then []
    else (if s[0] == '%' then "%%" else [s[0]]) + Escape(s[1..])
  }

  /**
   * `fmt.Sprintf(format, arg)` for one string operand: "%%" prints '%', the
   * first "%v" prints `arg`, a later "%v" prints "%!v(MISSING)", a '%' at the
   * very end prints "%!(NOVERB)", and an operand no verb used is reported as
   * "%!(EXTRA string=arg)" after the text.
   */
  function Sprintf(format: string, arg: string): (r: string)
    ensures '%' !in format ==> r == format + "%!(EXTRA string=" + arg + ")"
  {
    if '%' in format then Render(format, arg, false)
    else RenderPlain(format, arg, false); Render(format, arg, false)
  }

  /** Renders `f`; `used` records whether the operand has been consumed. */
  function Render(f: string, arg: string, used: bool): string
    decreases |f|
  {
    if f == [] then
      (if used then "" else "%!(EXTRA string=" + arg + ")")
    else if f[0] == '%' && |f| == 1 then
      "%!(NOVERB)" + Render([], arg, used)
    else if f[0] == '%' && f[1] == '%' then
      "%" + Render(f[2..], arg, used)
    else if f[0] == '%' && f[1] == 'v' then
      (if used then "%!v(MISSING)" else arg) + Render(f[2..], arg, true)
    else
      [f[0]] + Render(f[1..], arg, used)
  }

  /** Text without '%' is copied as it is, followed by the report of an unused operand. */
  lemma {:induction false} RenderPlain(f: string, arg: string, used: bool)
    requires '%' !in f
    ensures Render(f, arg, used) == f + (if used then "" else "%!(EXTRA string=" + arg + ")")
  {
    if f != [] {
      assert f[0] != '%';
      assert forall ch :: ch in f[1..] ==> ch in f;
      RenderPlain(f[1..], arg, used);
      assert f == [f[0]] + f[1..];
    }
  }

  /** Text without '%' needs no escaping. */
  lemma {:induction false} EscapePlain(s: string)
    requires '%' !in s
    ensures Escape(s) == s
  {
    if s != [] {
      assert forall ch :: ch in s[1..] ==> ch in s;
      EscapePlain(s[1..]);
      assert s == [s[0]] + s[1..];
    }
  }

  /** Escaped text renders back to itself and leaves the rest of the format alone. */
  lemma {:induction false} RenderEscaped(s: string, rest: string, arg: string, used: bool)
    ensures Render(Escape(s) + rest, arg, used) == s + Render(rest, arg, used)
  {
    if s != [] {
      var f := Escape(s) + rest;
      RenderEscaped(s[1..], rest, arg, used);
      assert Escape(s) == (if s[0] == '%' then "%%" else [s[0]]) + Escape(s[1..]);
      if s[0] == '%' {
        assert f == "%%" + (Escape(s[1..]) + rest);
        assert f[2..] == Escape(s[1..]) + rest;
        assert Render(f, arg, used) == "%" + Render(f[2..], arg, used);
      } else {
        assert f == [s[0]] + (Escape(s[1..]) + rest);
        assert f[1..] == Escape(s[1..]) + rest;
        assert Render(f, arg, used) == [s[0]] + Render(f[1..], arg, used);
      }
      assert s == [s[0]] + s[1..];
    } else {
      assert Escape(s) + rest == rest;
    }
  }

  /** A format with exactly one "%v" slot substitutes the operand there, once. */
  lemma SprintfOneSlot(head: string, tail: string, arg: string)
    ensures Sprintf(Escape(head) + "%v" + Escape(tail), arg) == head + arg + tail
  {
    var g := "%v" + Escape(tail);
    assert Escape(head) + "%v" + Escape(tail) == Escape(head) + g;
    RenderEscaped(head, g, arg, false);
    assert g[0] == '%' && g[1] == 'v' && g[2..] == Escape(tail) + [];
    assert Render(g, arg, false) == arg + Render(Escape(tail) + [], arg, true);
    RenderEscaped(tail, [], arg, true);
  }

  /** A '%' on each side of the slot is what "%%%v%%" escapes. */
  lemma EscapeAroundSlot(head: string, tail: string)
    ensures Escape(head + "%") + "%v" + Escape("%" + tail) == Escape(head) + "%%%v%%" + Escape(tail)
  {
    assert Escape("%") == "%%";
    EscapeConcat(head, "%");
    EscapeConcat("%", tail);
  }

  /** The SQL `LIKE` slot "%%%v%%" wraps the operand in wildcards: `%arg%`. */
  lemma SprintfLikeSlot(head: string, tail: string, arg: string)
    ensures Sprintf(Escape(head) + "%%%v%%" + Escape(tail), arg) == head + "%" + arg + "%" + tail
  {
    EscapeAroundSlot(head, tail);
    SprintfOneSlot(head + "%", "%" + tail, arg);
  }

  lemma {:induction false} EscapeConcat(a: string, b: string)
    ensures Escape(a + b) == Escape(a) + Escape(b)
  {
    if a != [] {
      assert (a + b)[0] == a[0];
      assert (a + b)[1..] == a[1..] + b;
      EscapeConcat(a[1..], b);
    } else {
      assert a + b == b;
    }
  }

  /* ---------------------------------------------------------------------- */
  /* Split, Join and character replacement                                  */
  /* ---------------------------------------------------------------------- */

  /** Number of occurrences of `c` in `s`. */
  function Count(s: string, c: char): nat
  {
    if s == [] then 0 else (if s[0] == c then 1 else 0) + Count(s[1..], c)
  }

  /**
   * `strings.Split(s, string(c))`: the pieces of `s` between occurrences of
   * `c`; an empty `s` gives one empty piece.
   */
  function Split(s: string, c: char): (r: seq<string>)
    ensures |r| == Count(s, c) + 1
    ensures forall i :: 0 <= i < |r| ==> c !in r[i]
  {
    if s == [] then [[]]
    else
      var rest := Split(s[1..], c);
      if s[0] == c then [[]] + rest
      else
        var r := [[s[0]] + rest[0]] + rest[1..];
        assert forall i :: 1 <= i < |r| ==> r[i] == rest[i];
        r
  }

  /** Total length of the pieces. */
  function Lengths(parts: seq<string>): nat
  {
    if parts == [] then 0 else |parts[0]| + Lengths(parts[1..])
  }

  /**
   * `strings.Join(parts, sep)`: the pieces with one `sep` between each two;
   * the first piece starts the result.
   */
  function Join(parts: seq<string>, sep: string): (r: string)
    ensures |parts| == 0 ==> r == []
    ensures |parts| > 0 ==> |r| == Lengths(parts) + (|parts| - 1) * |sep|
    ensures |parts| > 0 ==> r[..|parts[0]|] == parts[0]
  {
    if |parts| == 0 then []
    else if |parts| == 1 then parts[0]
    else
      var r := parts[0] + sep + Join(parts[1..], sep);
      assert r[..|parts[0]|] == parts[0];
      r
  }

  /** `s` with every occurrence of `c` replaced by `sub`. */
  function Replace(s: string, c: char, sub: string): string
  {
    if s == [] then []
    else (if s[0] == c then sub else [s[0]]) + Replace(s[1..], c, sub)
  }

  lemma {:induction false} CountPositive(s: string, c: char)
    ensures Count(s, c) > 0 <==> c in s
  {
    if s != [] {
      CountPositive(s[1..], c);
      assert s == [s[0]] + s[1..];
    }
  }

  /** Split gives more than one piece exactly when the separator occurs. */
  lemma {:induction false} SplitMany(s: string, c: char)
    ensures |Split(s, c)| > 1 <==> c in s
  {
    CountPositive(s, c);
  }

  lemma JoinCons(x: char, p: string, ps: seq<string>, sep: string)
    ensures Join([[x] + p] + ps, sep) == [x] + Join([p] + ps, sep)
  {
    if |ps| == 0 {
    } else {
      assert ([[x] + p] + ps)[1..] == ps;
      assert ([p] + ps)[1..] == ps;
    }
  }

  /** Joining the pieces of a split with `sub` replaces every separator by `sub`. */
  lemma {:induction false} JoinSplit(s: string, c: char, sub: string)
    ensures Join(Split(s, c), sub) == Replace(s, c, sub)
  {
    if s != [] {
      var rest := Split(s[1..], c);
      JoinSplit(s[1..], c, sub);
      if s[0] == c {
        assert ([[]] + rest)[1..] == rest;
      } else {
        JoinCons(s[0], rest[0], rest[1..], sub);
        assert [rest[0]] + rest[1..] == rest;
      }
    }
  }

  lemma {:induction false} ReplaceSelf(s: string, c: char)
    ensures Replace(s, c, [c]) == s
  {
    if s != [] {
      ReplaceSelf(s[1..], c);
      assert s == [s[0]] + s[1..];
    }
  }

  /** Joining the pieces with the separator itself gives back the original text. */
  lemma {:induction false} SplitJoinRoundTrip(s: string, c: char)
    ensures Join(Split(s, c), [c]) == s
  {
    JoinSplit(s, c, [c]);
    ReplaceSelf(s, c);
  }

  /* ---------------------------------------------------------------------- */
  /* Decimal rendering of integers (the `%v` of an int)                     */
  /* ---------------------------------------------------------------------- */

  predicate IsDigit(ch: char) { '0' <= ch <= '9' }

  function DigitChar(d: nat): (ch: char)
    requires d < 10
    ensures IsDigit(ch)
  {
    (d + 48) as char
  }

  function DigitValue(ch: char): int
  {
    ch as int - 48
  }

  /** The base-ten digits of `n`, most significant first, without leading zeros. */
  function Digits(n: nat): (r: string)
    ensures |r| >= 1
    ensures forall i :: 0 <= i < |r| ==> IsDigit(r[i])
    ensures r[0] == '0' ==> n == 0
  {
    if n < 10 then [DigitChar(n)] else Digits(n / 10) + [DigitChar(n % 10)]
  }

  /**
   * `fmt.Sprint(n)` for an `int`: a '-' sign exactly for negatives, then
   * digits only, with no leading zero unless the number is 0.
   */
  function Decimal(n: int): (r: string)
    ensures var start := if n < 0 then 1 else 0;
      start < |r| && (r[0] == '-' <==> n < 0) &&
      (forall i :: start <= i < |r| ==> IsDigit(r[i])) &&
      (r[start] == '0' ==> n == 0 && |r| == 1)
  {
    if n < 0 then "-" + Digits(-n) else Digits(n)
  }

  function ParseDigits(s: string): int
  {
    if s == [] then 0 else 10 * ParseDigits(s[..|s| - 1]) + DigitValue(s[|s| - 1])
  }

  /** Reads back an optionally signed decimal numeral. */
  function ParseDecimal(s: string): int
  {
    if |s| > 0 && s[0] == '-' then -ParseDigits(s[1..]) else ParseDigits(s)
  }

  lemma {:induction false} DigitsRoundTrip(n: nat)
    ensures ParseDigits(Digits(n)) == n
  {
    if n >= 10 {
      var d := Digits(n);
      assert d[..|d| - 1] == Digits(n / 10);
      DigitsRoundTrip(n / 10);
    }
  }

  /** The rendering of an int reads back as the same int and holds no space. */
  lemma DecimalRoundTrip(n: int)
    ensures ParseDecimal(Decimal(n)) == n
    ensures ' ' !in Decimal(n)
  {
    var d := Decimal(n);
    if n < 0 {
      assert d == "-" + Digits(-n);
      assert d[0] == '-' && d[1..] == Digits(-n);
      DigitsRoundTrip(-n);
      assert forall i :: 1 <= i < |d| ==> IsDigit(d[i]);
    } else {
      DigitsRoundTrip(n);
      assert forall i :: 0 <= i < |d| ==> IsDigit(d[i]);
    }
    assert !IsDigit(' ');
  }
}
