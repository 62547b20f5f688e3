/** Command-argument streams. The source reads its command arguments with
    `std::istream >>` from whitespace-separated text; here a stream is the
    sequence of its whitespace-separated tokens, and one extraction consumes
    one whole token. This module holds the pieces every command parser of the
    source repeats: `::tolower` on the keyword, the typed extractions with
    their failure behaviour, and the keyword loop that stops at an unknown
    keyword and fails on an argument it cannot read. */
module Streams {
  import opened Options

  /** `::tolower` in the "C" locale: only 'A'..'Z' change. */
  function LowerChar(c: char): char {
    if 'A' <= c <= 'Z' then (c as int + 32) as char else c
  }

  /** `std::transform(cmd.begin(), cmd.end(), cmd.begin(), ::tolower)` */
  function Lower(s: string): (r: string)
    ensures |r| == |s|
    ensures forall i :: 0 <= i < |s| ==> r[i] == LowerChar(s[i])
  {
    seq(|s|, i requires 0 <= i < |s| => LowerChar(s[i]))
  }

  /** Lower-casing leaves no upper-case letter and is idempotent. */
  lemma LowerIsLower(s: string)
    ensures forall i :: 0 <= i < |s| ==> !('A' <= Lower(s)[i] <= 'Z')
    ensures Lower(Lower(s)) == Lower(s)
  {
  }

  predicate IsDigit(c: char) {
    '0' <= c <= '9'
  }

  predicate AllDigits(s: string) {
    forall i :: 0 <= i < |s| ==> IsDigit(s[i])
  }

  /** The value of a string of decimal digits. */
  function DigitsValue(s: string): (n: nat)
    requires AllDigits(s)
    decreases |s|
  {
    if s == [] then 0
    else DigitsValue(s[..|s| - 1]) * 10 + (s[|s| - 1] as int - '0' as int)
  }

  /** A decimal integer token: an optional sign and at least one digit. */
  function ParseInt(tok: string): Option<int> {
    var neg := |tok| > 0 && tok[0] == '-';
    var body := if |tok| > 0 && (tok[0] == '-' || tok[0] == '+') then tok[1..] else tok;
    if |body| > 0 && AllDigits(body) then
      var v: int := DigitsValue(body);
      Some(if neg then -v else v)
    else None
  }

  function Pow10(k: nat): (p: nat)
    ensures p >= 1
  {
    if k == 0 then 1 else 10 * Pow10(k - 1)
  }

  /** A decimal floating-point token: an optional sign, then digits with at
      most one decimal point and at least one digit. */
  function ParseReal(tok: string): Option<real> {
    var neg := |tok| > 0 && tok[0] == '-';
    var body := if |tok| > 0 && (tok[0] == '-' || tok[0] == '+') then tok[1..] else tok;
    var dot := DotPosition(body, 0);
    var whole := body[..dot];
    var frac := if dot < |body| then body[dot + 1..] else "";
    if |whole| + |frac| > 0 && AllDigits(whole) && AllDigits(frac) then
      var mag := DigitsValue(whole) as real + DigitsValue(frac) as real / Pow10(|frac|) as real;
      Some(if neg then -mag else mag)
    else None
  }

  /** The position of the first '.' in `s` at or after `from`, or `|s|`. */
  function DotPosition(s: string, from: nat): (k: nat)
    requires from <= |s|
    ensures from <= k <= |s|
    ensures k < |s| ==> s[k] == '.'
    decreases |s| - from
  {
    if from == |s| || s[from] == '.' then from else DotPosition(s, from + 1)
  }

  /** The outcome of one extraction `is >> v`: the value `v` holds
      afterwards, whether the stream is still good, and what is left. */
  datatype Extracted<T> = Extracted(value: T, ok: bool, rest: seq<string>)

  /** `is >> s` for a string: takes the next token; at the end of the stream
      the extraction fails and `s` keeps its value. */
  function ReadWord(ts: seq<string>, current: string): (e: Extracted<string>)
    ensures |e.rest| <= |ts|
    ensures e.ok <==> |ts| > 0
  {
    if |ts| == 0 then Extracted(current, false, ts) else Extracted(ts[0], true, ts[1..])
  }

  /** The range of a 32-bit `int`. */
  const IntMin: int := -0x8000_0000
  const IntMax: int := 0x7fff_ffff

  /** `is >> n` for a 32-bit `int`, as C++11 specifies it: at the end of the
      stream the target is left alone; a token that is not a number stores 0
      and fails; a number beyond the range of `int` stores the bound it
      passed and fails. */
  function ReadInt(ts: seq<string>, current: int): (e: Extracted<int>)
    ensures |e.rest| <= |ts|
    ensures e.ok <==> |ts| > 0 && ParseInt(ts[0]).Some? && IntMin <= ParseInt(ts[0]).value <= IntMax
    ensures e.ok ==> e.value == ParseInt(ts[0]).value
    ensures |ts| == 0 ==> e.value == current
    ensures |ts| > 0 ==> IntMin <= e.value <= IntMax
    ensures |ts| > 0 && ParseInt(ts[0]).None? ==> e.value == 0
    ensures |ts| > 0 && ParseInt(ts[0]).Some? && ParseInt(ts[0]).value > IntMax ==> e.value == IntMax
    ensures |ts| > 0 && ParseInt(ts[0]).Some? && ParseInt(ts[0]).value < IntMin ==> e.value == IntMin
  {
    if |ts| == 0 then Extracted(current, false, ts)
    else match ParseInt(ts[0])
      case Some(n) =>
        if n > IntMax then Extracted(IntMax, false, ts[1..])
        else if n < IntMin then Extracted(IntMin, false, ts[1..])
        else Extracted(n, true, ts[1..])
      case None => Extracted(0, false, ts[1..])
  }

  /** A token that `is >> n` reads into an `int` without failing. */
  predicate IsInt32(tok: string) {
    ParseInt(tok).Some? && IntMin <= ParseInt(tok).value <= IntMax
  }

  function DigitChar(d: nat): char
    requires d < 10
  {
    ('0' as int + d) as char
  }

  /** The decimal digits of `n`, as `operator<<` writes them. */
  function Digits(n: nat): (s: string)
    ensures |s| > 0 && AllDigits(s)
    decreases n
  {
    if n < 10 then [DigitChar(n)] else Digits(n / 10) + [DigitChar(n % 10)]
  }

  /** Reading the digits of `n` gives `n` back. */
  lemma {:induction false} DigitsRoundTrip(n: nat)
    ensures DigitsValue(Digits(n)) == n
    decreases n
  {
    var s := Digits(n);
    if n >= 10 {
      DigitsRoundTrip(n / 10);
      assert s[..|s| - 1] == Digits(n / 10);
    } else {
      assert s[..|s| - 1] == [];
    }
  }

  /** `n` written in decimal, with a minus sign when negative. */
  function IntToken(n: int): string {
    if n < 0 then "-" + Digits(-n) else Digits(n)
  }

  /** Parsing a written integer gives it back. */
  lemma ParseIntToken(n: int)
    ensures ParseInt(IntToken(n)) == Some(n)
  {
    var tok := IntToken(n);
    if n < 0 {
      assert tok[1..] == Digits(-n);
      DigitsRoundTrip(-n);
    } else {
      DigitsRoundTrip(n);
    }
  }

  /** `is >> n` after `os << n`: a value in the range of `int` comes back
      and the stream stays good; one beyond it stores the bound it passed
      and fails. */
  lemma ReadIntToken(n: int, rest: seq<string>, current: int)
    ensures IntMin <= n <= IntMax ==> ReadInt([IntToken(n)] + rest, current) == Extracted(n, true, rest)
    ensures n > IntMax ==> ReadInt([IntToken(n)] + rest, current) == Extracted(IntMax, false, rest)
    ensures n < IntMin ==> ReadInt([IntToken(n)] + rest, current) == Extracted(IntMin, false, rest)
  {
    ParseIntToken(n);
    assert ([IntToken(n)] + rest)[1..] == rest;
  }

  /** `is >> d` after `os << n` for an integer `n`: the value comes back
      as a real. */
  lemma ReadRealToken(n: int, rest: seq<string>, current: real)
    ensures ReadReal([IntToken(n)] + rest, current) == Extracted(n as real, true, rest)
  {
    var tok := IntToken(n);
    var body := if n < 0 then Digits(-n) else Digits(n);
    assert n < 0 ==> tok[1..] == body;
    NoDot(body, 0);
    assert body[..|body|] == body;
    DigitsRoundTrip(if n < 0 then -n else n);
    assert ([tok] + rest)[1..] == rest;
  }

  /** A string of digits has no decimal point. */
  lemma {:induction false} NoDot(s: string, from: nat)
    requires AllDigits(s) && from <= |s|
    ensures DotPosition(s, from) == |s|
    decreases |s| - from
  {
    if from < |s| {
      NoDot(s, from + 1);
    }
  }

  /** `is >> d` for a floating-point value, with the same failure rules. */
  function ReadReal(ts: seq<string>, current: real): (e: Extracted<real>)
    ensures |e.rest| <= |ts|
    ensures e.ok <==> |ts| > 0 && ParseReal(ts[0]).Some?
  {
    if |ts| == 0 then Extracted(current, false, ts)
    else match ParseReal(ts[0])
      case Some(d) => Extracted(d, true, ts[1..])
      case None => Extracted(0.0, false, ts[1..])
  }

  /** `is >> b` for a `bool` without `boolalpha`: the token is read as an
      integer; 0 and 1 succeed, any other integer stores `true` and fails,
      anything else stores `false` and fails; at the end of the stream the
      target is left alone. */
  function ReadBool(ts: seq<string>, current: bool): (e: Extracted<bool>)
    ensures |e.rest| <= |ts|
    ensures e.ok <==> |ts| > 0 && ParseInt(ts[0]) in {Some(0), Some(1)}
    ensures e.ok ==> e.value == (ParseInt(ts[0]) == Some(1))
    ensures |ts| == 0 ==> e.value == current
  {
    if |ts| == 0 then Extracted(current, false, ts)
    else match ParseInt(ts[0])
      case Some(n) => Extracted(n != 0, n == 0 || n == 1, ts[1..])
      case None => Extracted(false, false, ts[1..])
  }

  /** `for(i = 0; i < n; ++i) is >> v[i];` over a vector already resized to
      `n = |current|`: the reads go in order, the first failing one stores
      its failure value and every later one leaves its element alone. */
  function ReadReals(ts: seq<string>, current: seq<real>): (e: Extracted<seq<real>>)
    ensures |e.value| == |current| && |e.rest| <= |ts|
    ensures e.ok <==> |current| <= |ts| && forall i :: 0 <= i < |current| ==> ParseReal(ts[i]).Some?
    ensures e.ok ==> e.rest == ts[|current|..]
    ensures e.ok ==> forall i :: 0 <= i < |current| ==> e.value[i] == ParseReal(ts[i]).value
    decreases |current|
  {
    if |current| == 0 then Extracted([], true, ts)
    else
      var first := ReadReal(ts, current[0]);
      if !first.ok then Extracted([first.value] + current[1..], false, first.rest)
      else
        var more := ReadReals(first.rest, current[1..]);
        assert first.rest == ts[1..];
        Extracted([first.value] + more.value, more.ok, more.rest)
  }

  /** What one keyword of a command parser does with the tokens after it:
      the keyword is not one of the command's (`Unknown`), or it was handled,
      giving the new options, the tokens left and whether the stream is still
      good, or it raised an exception (`Abort`). */
  datatype Step<O> = Unknown | Handled(opts: O, rest: seq<string>, ok: bool) | Abort

  /** The verdict of a command parser: the options it read, `false` returned
      because an argument could not be read, or an exception. */
  datatype Parsed<O> = Accepted(opts: O) | Rejected | Aborted

  /** A keyword handler never gives back more tokens than it was given. */
  ghost predicate Consumes<O(!new)>(handler: (string, seq<string>, O) -> Step<O>) {
    forall cmd, args, opts :: handler(cmd, args, opts).Handled? ==> |handler(cmd, args, opts).rest| <= |args|
  }

  /** The keyword loop of the source's command parsers:
      `while(!is.eof()) { is >> cmd; if(!is) break; lower-case cmd; dispatch;
       on an unknown keyword break; if(!is) return false; }`. */
  ghost function ParseSpec<O(!new)>(ts: seq<string>, opts: O, handler: (string, seq<string>, O) -> Step<O>): Parsed<O>
    requires Consumes(handler)
    decreases |ts|
  {
    if |ts| == 0 then Accepted(opts)
    else match handler(Lower(ts[0]), ts[1..], opts)
      case Unknown => Accepted(opts)
      case Abort => Aborted
      case Handled(o, rest, ok) => if ok then ParseSpec(rest, o, handler) else Rejected
  }

  /** The keyword loop, run over the token stream. */
  method ParseKeywords<O(!new)>(ts: seq<string>, init: O, handler: (string, seq<string>, O) -> Step<O>)
    returns (r: Parsed<O>)
    requires Consumes(handler)
    ensures r == ParseSpec(ts, init, handler)
  {
    var rest := ts;
    var opts := init;
    while |rest| > 0
      invariant ParseSpec(rest, opts, handler) == ParseSpec(ts, init, handler)
      decreases |rest|
    {
      var cmd := Lower(rest[0]);
      match handler(cmd, rest[1..], opts)
      case Unknown =>
        return Accepted(opts);
      case Abort =>
        return Aborted;
      case Handled(o, next, ok) =>
        if !ok {
          return Rejected;
        }
        rest, opts := next, o;
    }
    return Accepted(opts);
  }

  /** The first unrecognised keyword ends the parse successfully, whatever
      follows it. */
  lemma StopsAtUnknownKeyword<O(!new)>(kw: string, tail: seq<string>, opts: O, handler: (string, seq<string>, O) -> Step<O>)
    requires Consumes(handler)
    requires handler(Lower(kw), tail, opts).Unknown?
    ensures ParseSpec([kw] + tail, opts, handler) == Accepted(opts)
  {
    assert ([kw] + tail)[1..] == tail;
  }

  /** A keyword whose argument cannot be read makes the whole command fail,
      whatever follows. */
  lemma FailsOnUnreadableArgument<O(!new)>(kw: string, tail: seq<string>, opts: O, handler: (string, seq<string>, O) -> Step<O>)
    requires Consumes(handler)
    requires handler(Lower(kw), tail, opts).Handled? && !handler(Lower(kw), tail, opts).ok
    ensures ParseSpec([kw] + tail, opts, handler) == Rejected
  {
    assert ([kw] + tail)[1..] == tail;
  }

  /** Every handled keyword keeps `inv` of the options. */
  ghost predicate Keeps<O(!new)>(handler: (string, seq<string>, O) -> Step<O>, inv: O -> bool) {
    forall cmd, args, opts :: inv(opts) && handler(cmd, args, opts).Handled? ==> inv(handler(cmd, args, opts).opts)
  }

  /** What every keyword keeps, the whole parse keeps. */
  lemma {:induction false} ParseKeeps<O(!new)>(ts: seq<string>, opts: O, handler: (string, seq<string>, O) -> Step<O>, inv: O -> bool)
    requires Consumes(handler) && Keeps(handler, inv) && inv(opts)
    ensures ParseSpec(ts, opts, handler).Accepted? ==> inv(ParseSpec(ts, opts, handler).opts)
    decreases |ts|
  {
    if |ts| > 0 {
      match handler(Lower(ts[0]), ts[1..], opts)
      case Unknown =>
      case Abort =>
      case Handled(o, rest, ok) =>
        if ok {
          ParseKeeps(rest, o, handler, inv);
        }
    }
  }

  /** Keywords are matched without regard to case. */
  lemma KeywordCaseInsensitive<O(!new)>(a: string, b: string, tail: seq<string>, opts: O, handler: (string, seq<string>, O) -> Step<O>)
    requires Consumes(handler)
    requires Lower(a) == Lower(b)
    ensures ParseSpec([a] + tail, opts, handler) == ParseSpec([b] + tail, opts, handler)
  {
    assert ([a] + tail)[1..] == tail && ([b] + tail)[1..] == tail;
  }
}
