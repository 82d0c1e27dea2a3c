/** Models of the Go standard-library string helpers that the modelled code
    calls: strings.Split with a one-character separator, strings.TrimSpace,
    strconv.Itoa, strconv.ParseInt / strconv.Atoi in base 10 and
    net.SplitHostPort, and the UTF-8 bytes of a string. Strings are sequences
    of runes. */
module GoStrings {
  import opened Wrappers

  const MaxInt64: int := 0x7FFF_FFFF_FFFF_FFFF
  const MinInt64: int := -0x8000_0000_0000_0000
  const MaxUint64: int := 0xFFFF_FFFF_FFFF_FFFF

  // ---------------------------------------------------------------------
  // strings.Split and its inverse

  /** strings.Split(s, string(c)): the pieces of `s` between the occurrences of `c`. */
  function Split(s: string, c: char): (parts: seq<string>)
    ensures |parts| >= 1
    ensures forall i :: 0 <= i < |parts| ==> c !in parts[i]
  {
    if |s| == 0 then [""]
    else
      var rest := Split(s[1..], c);
      if s[0] == c then [""] + rest
      else [[s[0]] + rest[0]] + rest[1..]
  }

  /** strings.Join(parts, sep). */
  function Join(parts: seq<string>, sep: string): string
  {
    if |parts| == 0 then ""
    else if |parts| == 1 then parts[0]
    else parts[0] + sep + Join(parts[1..], sep)
  }

  lemma JoinAppend(parts: seq<string>, x: string, sep: string)
    requires |parts| >= 1
    ensures Join(parts + [x], sep) == Join(parts, sep) + sep + x
  {
    if |parts| > 1 {
      assert (parts + [x])[1..] == parts[1..] + [x];
      JoinAppend(parts[1..], x, sep);
    }
  }

  /** Joining the pieces with the separator gives back the input. */
  lemma {:induction false} JoinSplit(s: string, c: char)
    ensures Join(Split(s, c), [c]) == s
  {
    if |s| > 0 {
      JoinSplit(s[1..], c);
      var rest := Split(s[1..], c);
      if s[0] == c {
        assert ([""] + rest)[1..] == rest;
      } else if |rest| > 1 {
        assert ([[s[0]] + rest[0]] + rest[1..])[1..] == rest[1..];
      }
    }
  }

  lemma {:induction false} SplitWithoutSeparator(s: string, c: char)
    requires c !in s
    ensures Split(s, c) == [s]
  {
    if |s| > 0 {
      SplitWithoutSeparator(s[1..], c);
      assert [s[0]] + s[1..] == s;
    }
  }

  lemma {:induction false} SplitAtFirst(x: string, y: string, c: char)
    requires c !in x
    ensures Split(x + [c] + y, c) == [x] + Split(y, c)
  {
    if |x| == 0 {
      assert x + [c] + y == [c] + y;
      assert ([c] + y)[1..] == y;
    } else {
      assert (x + [c] + y)[1..] == x[1..] + [c] + y;
      SplitAtFirst(x[1..], y, c);
      assert [x[0]] + x[1..] == x;
    }
  }

  /** Splitting a join of separator-free pieces gives back those pieces. */
  lemma {:induction false} SplitJoin(parts: seq<string>, c: char)
    requires |parts| >= 1
    requires forall i :: 0 <= i < |parts| ==> c !in parts[i]
    ensures Split(Join(parts, [c]), c) == parts
  {
    if |parts| == 1 {
      SplitWithoutSeparator(parts[0], c);
    } else {
      var tail := parts[1..];
      assert forall i :: 0 <= i < |tail| ==> c !in tail[i] by {
        forall i | 0 <= i < |tail| ensures c !in tail[i] { assert tail[i] == parts[i + 1]; }
      }
      SplitJoin(tail, c);
      assert Join(parts, [c]) == parts[0] + [c] + Join(tail, [c]);
      SplitAtFirst(parts[0], Join(tail, [c]), c);
      assert [parts[0]] + tail == parts;
    }
  }

  /** The first piece is the longest separator-free prefix of `s`. */
  lemma SplitHead(s: string, c: char)
    ensures var h := Split(s, c)[0];
            |h| <= |s| && s[..|h|] == h && c !in h && (|h| < |s| ==> s[|h|] == c)
  {
    var parts := Split(s, c);
    JoinSplit(s, c);
    if |parts| > 1 {
      assert Join(parts, [c]) == parts[0] + [c] + Join(parts[1..], [c]);
      assert s[..|parts[0]|] == parts[0];
    }
  }

  // ---------------------------------------------------------------------
  // The bytes of a string

  /** The UTF-8 encoding of one rune, each byte written as the char whose
      code is that byte: what `string(s[i])` gives for each byte index `i`
      of a Go string `s`. Multi-byte encodings lead with a byte of at least
      0xC0 followed by bytes in 0x80..0xBF. */
  function RuneBytes(c: char): (b: seq<char>)
    ensures 1 <= |b| <= 4
    ensures forall i :: 0 <= i < |b| ==> b[i] as int < 0x100
    ensures b == [c] <==> c as int < 0x80
    ensures |b| > 1 ==> 0xC0 <= b[0] as int
    ensures forall i :: 1 <= i < |b| ==> 0x80 <= b[i] as int < 0xC0
  {
    var n := c as int;
    if n < 0x80 then [c]
    else if n < 0x800 then
      [(0xC0 + n / 0x40) as char, (0x80 + n % 0x40) as char]
    else if n < 0x1_0000 then
      [(0xE0 + n / 0x1000) as char, (0x80 + n / 0x40 % 0x40) as char, (0x80 + n % 0x40) as char]
    else
      [(0xF0 + n / 0x4_0000) as char, (0x80 + n / 0x1000 % 0x40) as char,
       (0x80 + n / 0x40 % 0x40) as char, (0x80 + n % 0x40) as char]
  }

  /** The code point that a one- to four-byte UTF-8 sequence spells. */
  function RuneValue(b: seq<char>): int
    requires 1 <= |b| <= 4
  {
    if |b| == 1 then b[0] as int
    else if |b| == 2 then (b[0] as int - 0xC0) * 0x40 + (b[1] as int - 0x80)
    else if |b| == 3 then
      (b[0] as int - 0xE0) * 0x1000 + (b[1] as int - 0x80) * 0x40 + (b[2] as int - 0x80)
    else
      (b[0] as int - 0xF0) * 0x4_0000 + (b[1] as int - 0x80) * 0x1000
      + (b[2] as int - 0x80) * 0x40 + (b[3] as int - 0x80)
  }

  /** Decoding the encoding of a rune gives the rune back. */
  lemma RuneBytesDecode(c: char)
    ensures RuneValue(RuneBytes(c)) == c as int
  {
    var n := c as int;
    if n >= 0x80 {
      assert n == n / 0x40 * 0x40 + n % 0x40;
      assert n / 0x40 == n / 0x1000 * 0x40 + n / 0x40 % 0x40;
      assert n / 0x1000 == n / 0x4_0000 * 0x40 + n / 0x1000 % 0x40;
    }
  }

  /** The bytes of a string's UTF-8 encoding, as `len(s)` counts them and
      `s[i]` indexes them. An ASCII string is its own encoding. */
  function Utf8(s: string): (b: seq<char>)
    ensures |b| >= |s|
    ensures forall i :: 0 <= i < |b| ==> b[i] as int < 0x100
    ensures (forall i :: 0 <= i < |s| ==> s[i] as int < 0x80) ==> b == s
  {
    if |s| == 0 then []
    else
      assert forall i :: 0 <= i < |s| - 1 ==> s[1..][i] == s[i + 1];
      RuneBytes(s[0]) + Utf8(s[1..])
  }

  // ---------------------------------------------------------------------
  // strings.TrimSpace

  /** unicode.IsSpace: the Unicode White_Space characters. */
  predicate IsSpace(c: char)
  {
    var n := c as int;
    n == 0x20 || (0x09 <= n <= 0x0D) || n == 0x85 || n == 0xA0 || n == 0x1680
    || (0x2000 <= n <= 0x200A) || n == 0x2028 || n == 0x2029 || n == 0x202F
    || n == 0x205F || n == 0x3000
  }

  /** Drops the leading white space: the result is the suffix of `s` after it. */
  function TrimLeft(s: string): (r: string)
    ensures |r| <= |s| && r == s[|s| - |r|..]
    ensures forall i :: 0 <= i < |s| - |r| ==> IsSpace(s[i])
    ensures |r| > 0 ==> !IsSpace(r[0])
  {
    if |s| > 0 && IsSpace(s[0]) then
      var r := TrimLeft(s[1..]);
      assert s[1..][|s| - 1 - |r|..] == s[|s| - |r|..];
      assert forall i :: 1 <= i < |s| - |r| ==> s[1..][i - 1] == s[i];
      r
    else s
  }

  /** Drops the trailing white space: the result is the prefix of `s` before it. */
  function TrimRight(s: string): (r: string)
    ensures |r| <= |s| && r == s[..|r|]
    ensures forall i :: |r| <= i < |s| ==> IsSpace(s[i])
    ensures |r| > 0 ==> !IsSpace(r[|r| - 1])
  {
    if |s| > 0 && IsSpace(s[|s| - 1]) then TrimRight(s[..|s| - 1]) else s
  }

  /** strings.TrimSpace: the part of `s` between its leading and trailing white space. */
  function TrimSpace(s: string): (r: string)
    ensures |r| <= |TrimLeft(s)| <= |s|
    ensures r == s[|s| - |TrimLeft(s)|..][..|r|]
    ensures |r| > 0 ==> !IsSpace(r[0]) && !IsSpace(r[|r| - 1])
    ensures forall i :: 0 <= i < |s| - |TrimLeft(s)| ==> IsSpace(s[i])
    ensures forall i :: |s| - |TrimLeft(s)| + |r| <= i < |s| ==> IsSpace(s[i])
  {
    var l := TrimLeft(s);
    var r := TrimRight(l);
    assert forall i :: |s| - |l| + |r| <= i < |s| ==> s[i] == l[i - (|s| - |l|)];
    r
  }

  /** TrimSpace yields "" exactly for strings made only of white space. */
  lemma TrimSpaceEmpty(s: string)
    ensures TrimSpace(s) == "" <==> forall i :: 0 <= i < |s| ==> IsSpace(s[i])
  {
    var l := TrimLeft(s);
    if l != "" { assert l[0] == s[|s| - |l|]; }
  }

  /** A string with no white space at either end is its own TrimSpace. */
  lemma TrimSpaceUnchanged(s: string)
    requires |s| > 0 ==> !IsSpace(s[0]) && !IsSpace(s[|s| - 1])
    ensures TrimSpace(s) == s
  {
  }

  /** Leading white space does not reach the result. */
  lemma TrimSpaceLeading(s: string)
    requires |s| > 0 && IsSpace(s[0])
    ensures TrimSpace(s) == TrimSpace(s[1..])
  {
  }

  // ---------------------------------------------------------------------
  // Decimal digits, strconv.Itoa and strconv.ParseInt(s, 10, 64)

  predicate IsDigit(c: char) { '0' <= c <= '9' }

  predicate AllDigits(s: string) { forall i :: 0 <= i < |s| ==> IsDigit(s[i]) }

  function DigitChar(d: int): (c: char)
    requires 0 <= d < 10
    ensures IsDigit(c) && c as int - '0' as int == d
  {
    ('0' as int + d) as char
  }

  /** The value of a string of decimal digits. */
  function DigitsValue(s: string): nat
    requires AllDigits(s)
  {
    if |s| == 0 then 0 else DigitsValue(s[..|s| - 1]) * 10 + (s[|s| - 1] as int - '0' as int)
  }

  /** The decimal digits of `n`, without leading zeros. */
  function NatToString(n: nat): (s: string)
    ensures |s| >= 1 && AllDigits(s)
    ensures |s| > 1 ==> s[0] != '0'
  {
    if n < 10 then [DigitChar(n)] else NatToString(n / 10) + [DigitChar(n % 10)]
  }

  lemma {:induction false} NatToStringValue(n: nat)
    ensures DigitsValue(NatToString(n)) == n
  {
    if n >= 10 {
      NatToStringValue(n / 10);
      var s := NatToString(n);
      assert s[..|s| - 1] == NatToString(n / 10);
    }
  }

  /** strconv.Itoa: decimal, with a leading '-' for negative numbers. */
  function Itoa(n: int): (s: string)
    ensures |s| >= 1
    ensures n < 0 <==> s[0] == '-'
  {
    if n < 0 then "-" + NatToString(-n) else NatToString(n)
  }

  /** Length of the longest all-digit prefix of `s`. */
  function DigitPrefix(s: string): (k: nat)
    ensures k <= |s| && AllDigits(s[..k])
    ensures k < |s| ==> !IsDigit(s[k])
  {
    if |s| > 0 && IsDigit(s[0]) then
      var k := 1 + DigitPrefix(s[1..]);
      assert s[..k] == [s[0]] + s[1..][..k - 1];
      k
    else 0
  }

  /** The digit prefix of digits followed by a non-digit is those digits. */
  lemma {:induction false} DigitPrefixOf(digits: string, t: string)
    requires AllDigits(digits)
    requires |t| > 0 ==> !IsDigit(t[0])
    ensures DigitPrefix(digits + t) == |digits|
  {
    if |digits| > 0 {
      assert (digits + t)[1..] == digits[1..] + t;
      DigitPrefixOf(digits[1..], t);
    } else {
      assert digits + t == t;
    }
  }

  datatype NumError = ErrSyntax | ErrRange

  /** The sign and the unsigned part of a ParseInt argument. */
  function Unsigned(s: string): string
  {
    if |s| > 0 && (s[0] == '+' || s[0] == '-') then s[1..] else s
  }

  predicate Negative(s: string) { |s| > 0 && s[0] == '-' }

  /** The value of a sign-and-digits string. */
  function SignedValue(s: string): int
    requires AllDigits(Unsigned(s))
  {
    if Negative(s) then -(DigitsValue(Unsigned(s)) as int) else DigitsValue(Unsigned(s))
  }

  /** strconv.ParseInt(s, 10, 64): an optional sign, then one or more decimal
      digits; a syntax error for anything else, a range error when the digits
      seen before the first non-digit already overflow uint64, or when the
      value does not fit int64. */
  function ParseInt(s: string): (r: Result<int, NumError>)
    ensures r.Success? ==> MinInt64 <= r.value <= MaxInt64
    ensures r.Success? <==> |Unsigned(s)| > 0 && AllDigits(Unsigned(s))
                            && MinInt64 <= SignedValue(s) <= MaxInt64
    ensures r.Success? ==> r.value == SignedValue(s)
  {
    var digits := Unsigned(s);
    var k := DigitPrefix(digits);
    var magnitude := DigitsValue(digits[..k]);
    assert k == |digits| ==> digits[..k] == digits;
    assert k < |digits| ==> !IsDigit(digits[k]);
    if |digits| == 0 then Failure(ErrSyntax)
    else if magnitude > MaxUint64 then Failure(ErrRange)
    else if k < |digits| then
      assert !IsDigit(digits[k]);
      Failure(ErrSyntax)
    else
      assert digits[..k] == digits;
      if !Negative(s) && magnitude > MaxInt64 then Failure(ErrRange)
      else if Negative(s) && magnitude > MaxInt64 + 1 then Failure(ErrRange)
      else
        var v: int := if Negative(s) then -(magnitude as int) else magnitude;
        Success(v)
  }

  /** Parsing what Itoa printed gives the number back. */
  lemma ParseItoa(n: int)
    requires MinInt64 <= n <= MaxInt64
    ensures ParseInt(Itoa(n)) == Success(n)
  {
    var s := Itoa(n);
    if n < 0 {
      NatToStringValue(-n);
      assert Unsigned(s) == NatToString(-n);
    } else {
      NatToStringValue(n);
      assert Unsigned(s) == NatToString(n);
    }
  }

  /** The integer strconv.Atoi returns beside its error: 0 on a syntax error,
      the int64 bound of the right sign on a range error. */
  function AtoiValue(s: string): (v: int)
    ensures MinInt64 <= v <= MaxInt64
    ensures ParseInt(s).Success? ==> v == ParseInt(s).value
    ensures ParseInt(s) == Failure(ErrSyntax) ==> v == 0
    ensures ParseInt(s) == Failure(ErrRange) ==> v == if Negative(s) then MinInt64 else MaxInt64
  {
    match ParseInt(s)
    case Success(v) => v
    case Failure(ErrSyntax) => 0
    case Failure(ErrRange) => if Negative(s) then MinInt64 else MaxInt64
  }

  // ---------------------------------------------------------------------
  // net.SplitHostPort

  function LastIndex(s: string, c: char): (i: int)
    ensures -1 <= i < |s|
    ensures i >= 0 ==> s[i] == c
    ensures forall j :: i < j < |s| ==> s[j] != c
  {
    if |s| == 0 then -1 else if s[|s| - 1] == c then |s| - 1 else LastIndex(s[..|s| - 1], c)
  }

  function Index(s: string, c: char): (i: int)
    ensures -1 <= i < |s|
    ensures i >= 0 ==> s[i] == c
    ensures forall j :: 0 <= j < |s| && (i < 0 || j < i) ==> s[j] != c
  {
    if |s| == 0 then -1 else if s[0] == c then 0
    else var k := Index(s[1..], c); if k < 0 then -1 else k + 1
  }

  datatype AddrError = MissingPort | TooManyColons | MissingBracket | UnexpectedOpenBracket | UnexpectedCloseBracket

  /** net.SplitHostPort: splits "host:port", "[host]:port" at the last ':'. */
  function SplitHostPort(hostport: string): (r: Result<(string, string), AddrError>)
    ensures r.Success? ==> ':' !in r.value.1
    ensures r.Success? ==>
      (hostport == r.value.0 + ":" + r.value.1 && ':' !in r.value.0)
      || hostport == "[" + r.value.0 + "]:" + r.value.1
    ensures ':' !in hostport ==> r == Failure(MissingPort)
  {
    var i := LastIndex(hostport, ':');
    if i < 0 then Failure(MissingPort)
    else
      var bracketed := hostport[0] == '[';
      var end := Index(hostport, ']');
      if bracketed && end < 0 then Failure(MissingBracket)
      else if bracketed && end + 1 == |hostport| then Failure(MissingPort)
      else if bracketed && end + 1 != i then
        (if hostport[end + 1] == ':' then Failure(TooManyColons) else Failure(MissingPort))
      else
        var host := if bracketed then hostport[1..end] else hostport[..i];
        var j := if bracketed then 1 else 0;
        var k := if bracketed then end + 1 else 0;
        if !bracketed && Index(host, ':') >= 0 then Failure(TooManyColons)
        else if Index(hostport[j..], '[') >= 0 then Failure(UnexpectedOpenBracket)
        else if Index(hostport[k..], ']') >= 0 then Failure(UnexpectedCloseBracket)
        else
          var port := hostport[i + 1..];
          AfterLastIndex(hostport, ':');
          if bracketed then
            BracketedHostPort(hostport, end, i);
            Success((host, port))
          else
            NotIndexed(host, ':');
            PlainHostPort(hostport, i);
            Success((host, port))
  }

  /** Nothing after the last occurrence of `c` is a `c`. */
  lemma AfterLastIndex(s: string, c: char)
    requires LastIndex(s, c) >= 0
    ensures c !in s[LastIndex(s, c) + 1..]
  {
    var i := LastIndex(s, c);
    var t := s[i + 1..];
    forall m | 0 <= m < |t| ensures t[m] != c { assert t[m] == s[i + 1 + m]; }
  }

  lemma NotIndexed(s: string, c: char)
    requires Index(s, c) < 0
    ensures c !in s
  {
    forall m | 0 <= m < |s| ensures s[m] != c { }
  }

  lemma PlainHostPort(s: string, i: int)
    requires 0 <= i < |s| && s[i] == ':'
    ensures s == s[..i] + ":" + s[i + 1..]
  {
    assert s == s[..i] + [s[i]] + s[i + 1..];
  }

  lemma BracketedHostPort(s: string, end: int, i: int)
    requires 1 <= end && end + 1 == i < |s| && s[0] == '[' && s[end] == ']' && s[i] == ':'
    ensures s == "[" + s[1..end] + "]:" + s[i + 1..]
  {
    assert s == s[..1] + s[1..end] + s[end..i + 1] + s[i + 1..];
    assert s[end..i + 1] == "]:";
  }

  /** SplitHostPort inverts the joining of a plain host and port. */
  lemma SplitHostPortJoin(host: string, port: string)
    requires ':' !in host && '[' !in host && ']' !in host
    requires ':' !in port && '[' !in port && ']' !in port
    ensures SplitHostPort(host + ":" + port) == Success((host, port))
  {
    var hp := host + ":" + port;
    assert hp == host + [':'] + port;
    LastIndexOf(host, port, ':');
    assert hp[..|host|] == host && hp[|host| + 1..] == port;
    assert hp[0..] == hp;
    assert '[' !in hp && ']' !in hp;
  }

  /** The last `c` of x + [c] + y is the one between them when y holds none. */
  lemma {:induction false} LastIndexOf(x: string, y: string, c: char)
    requires c !in y
    ensures LastIndex(x + [c] + y, c) == |x|
    decreases |y|
  {
    var s := x + [c] + y;
    if |y| > 0 {
      var init := y[..|y| - 1];
      assert s[..|s| - 1] == x + [c] + init;
      assert s[|s| - 1] == y[|y| - 1];
      assert c !in init by { forall j | 0 <= j < |init| ensures init[j] != c { assert init[j] == y[j]; } }
      LastIndexOf(x, init, c);
    } else {
      assert s == x + [c];
    }
  }
}
