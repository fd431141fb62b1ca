/**
 The opaque position handed to clients by /sync: printed as "s1_2_3_4" and read back with a
 scanner. The scanner is modelled on runes, with the rules of Go's formatted scanning: literals
 match exactly, blanks are skipped before a number (a newline is an error), a sign is optional,
 a number that does not fit 64 bits is an error, and input after the last number is ignored.
 */
module SyncToken {
  import opened Events

  const MIN_INT64: int := -0x8000_0000_0000_0000
  const MAX_INT64: int := 0x7FFF_FFFF_FFFF_FFFF

  type Int64 = x: int | MIN_INT64 <= x <= MAX_INT64

  datatype Token = Token(timeline: Int64, presence: Int64, receipt: Int64, toDevice: Int64)

  const ZERO_TOKEN := Token(0, 0, 0, 0)

  // ---------------------------------------------------------------- printing

  function DigitChar(d: nat): char
    requires d < 10
  {
    "0123456789"[d]
  }

  function Decimal(n: nat): string {
    if n < 10 then [DigitChar(n)] else Decimal(n / 10) + [DigitChar(n % 10)]
  }

  function ShowInt(x: int): (s: string)
    ensures s != ""
  {
    if x < 0 then "-" + Decimal(0 - x) else Decimal(x)
  }

  function Encode(t: Token): string {
    "s" + ShowInt(t.timeline) + "_" + ShowInt(t.presence) + "_" + ShowInt(t.receipt) + "_" + ShowInt(t.toDevice)
  }

  // ---------------------------------------------------------------- scanning

  predicate IsDigit(c: char) {
    '0' <= c <= '9'
  }

  predicate IsBlank(c: char) {
    || '\t' <= c <= '\r' || c == ' ' || c == '\U{85}' || c == '\U{A0}' || c == '\U{1680}'
    || '\U{2000}' <= c <= '\U{200A}' || c == '\U{2028}' || c == '\U{2029}' || c == '\U{202F}'
    || c == '\U{205F}' || c == '\U{3000}'
  }

  /** The input after leading blanks; a newline among them is an error. */
  function SkipBlanks(s: string): Option<string> {
    if s == "" || !IsBlank(s[0]) then Some(s)
    else if s[0] == '\n' then None
    else SkipBlanks(s[1..])
  }

  function DigitRun(s: string): (n: nat)
    ensures n <= |s|
  {
    if s == "" || !IsDigit(s[0]) then 0 else 1 + DigitRun(s[1..])
  }

  function DigitValue(c: char): nat
    requires IsDigit(c)
  {
    c as int - '0' as int
  }

  function Value(digits: string): nat
    requires forall c | c in digits :: IsDigit(c)
  {
    if digits == "" then 0
    else
      var last := digits[|digits| - 1];
      assert last in digits;
      10 * Value(digits[..|digits| - 1]) + DigitValue(last)
  }

  lemma {:induction false} DigitRunIsDigits(s: string)
    ensures forall c | c in s[..DigitRun(s)] :: IsDigit(c)
  {
    if s != "" && IsDigit(s[0]) {
      DigitRunIsDigits(s[1..]);
      assert s[..DigitRun(s)] == [s[0]] + s[1..][..DigitRun(s[1..])];
    }
  }

  function ScanLiteral(s: string, c: char): Option<string> {
    if s != "" && s[0] == c then Some(s[1..]) else None
  }

  /** At least one digit, and a value that fits 64 bits. */
  function ScanDigits(s: string, sign: int): Option<(Int64, string)> {
    var n := DigitRun(s);
    DigitRunIsDigits(s);
    if n > 0 && MIN_INT64 <= sign * Value(s[..n]) <= MAX_INT64 then Some((sign * Value(s[..n]), s[n..])) else None
  }

  function ScanSigned(s: string): Option<(Int64, string)> {
    if s != "" && s[0] == '-' then ScanDigits(s[1..], -1)
    else if s != "" && s[0] == '+' then ScanDigits(s[1..], 1)
    else ScanDigits(s, 1)
  }

  function ScanInt(s: string): Option<(Int64, string)> {
    match SkipBlanks(s)
    case None => None
    case Some(rest) => ScanSigned(rest)
  }

  /** A literal character and the number behind it. */
  function ScanField(s: string, c: char): Option<(Int64, string)> {
    match ScanLiteral(s, c)
    case None => None
    case Some(rest) => ScanInt(rest)
  }

  function Scan(s: string): Option<Token> {
    match ScanField(s, 's')
    case None => None
    case Some((a, s1)) =>
      match ScanField(s1, '_')
      case None => None
      case Some((b, s2)) =>
        match ScanField(s2, '_')
        case None => None
        case Some((c, s3)) =>
          match ScanField(s3, '_')
          case None => None
          case Some((d, _)) => Some(Token(a, b, c, d))
  }

  /** A string that does not scan stands for the zero token. */
  function ParseToken(s: string): Token {
    match Scan(s)
    case None => ZERO_TOKEN
    case Some(t) => t
  }

  // ---------------------------------------------------------------- round trip

  lemma {:induction false} DecimalReadsBack(n: nat)
    ensures Decimal(n) != "" && (forall c | c in Decimal(n) :: IsDigit(c))
    ensures Value(Decimal(n)) == n
  {
    if n < 10 {
      assert Decimal(n)[..0] == "";
      assert Value(Decimal(n)) == 10 * Value("") + n;
    } else {
      var init := Decimal(n / 10);
      DecimalReadsBack(n / 10);
      assert (init + [DigitChar(n % 10)])[..|init|] == init;
    }
  }

  predicate StartsWithDigit(s: string) {
    s != "" && IsDigit(s[0])
  }

  lemma {:induction false} DigitRunStops(digits: string, rest: string)
    requires forall c | c in digits :: IsDigit(c)
    requires !StartsWithDigit(rest)
    ensures DigitRun(digits + rest) == |digits|
  {
    if digits == "" {
      assert digits + rest == rest;
    } else {
      assert (digits + rest)[1..] == digits[1..] + rest;
      DigitRunStops(digits[1..], rest);
    }
  }

  lemma DigitsReadBack(n: nat, sign: int, rest: string)
    requires !StartsWithDigit(rest)
    requires MIN_INT64 <= sign * n <= MAX_INT64
    ensures ScanDigits(Decimal(n) + rest, sign) == Some((sign * n, rest))
  {
    var digits := Decimal(n);
    DecimalReadsBack(n);
    DigitRunStops(digits, rest);
    assert (digits + rest)[..|digits|] == digits && (digits + rest)[|digits|..] == rest;
  }

  // ---------------------------------------------------------------- which inputs are numbers

  ghost predicate AllZeros(s: string) {
    forall c | c in s :: c == '0'
  }

  /** A digit string is the decimal notation of its value behind zeros. */
  lemma {:induction false} DigitsAreDecimal(digits: string) returns (zeros: string, n: nat)
    requires digits != "" && forall c | c in digits :: IsDigit(c)
    ensures AllZeros(zeros) && digits == zeros + Decimal(n) && n == Value(digits)
  {
    var k := |digits| - 1;
    var init, d := digits[..k], DigitValue(digits[k]);
    assert digits == init + [digits[k]] && digits[k] == DigitChar(d);
    if init == "" {
      zeros, n := "", d;
    } else {
      var z, m := DigitsAreDecimal(init);
      if m == 0 {
        zeros, n := init, d;
        assert init == z + "0";
      } else {
        zeros, n := z, 10 * m + d;
        DecimalSnoc(m, d);
      }
    }
  }

  lemma DecimalSnoc(m: nat, d: nat)
    requires m > 0 && d < 10
    ensures Decimal(10 * m + d) == Decimal(m) + [DigitChar(d)]
  {
    assert (10 * m + d) / 10 == m && (10 * m + d) % 10 == d;
  }

  lemma {:induction false} ZerosAddNothing(zeros: string, digits: string)
    requires AllZeros(zeros) && forall c | c in digits :: IsDigit(c)
    ensures (forall c | c in zeros + digits :: IsDigit(c)) && Value(zeros + digits) == Value(digits)
  {
    if digits != "" {
      var k := |digits| - 1;
      assert (zeros + digits)[..|zeros + digits| - 1] == zeros + digits[..k];
      ZerosAddNothing(zeros, digits[..k]);
    } else if zeros != "" {
      var k := |zeros| - 1;
      assert zeros + digits == zeros && zeros[..k] + digits == zeros[..k];
      assert zeros[k] in zeros && forall c | c in zeros[..k] :: c in zeros;
      ZerosAddNothing(zeros[..k], digits);
    }
  }

  /** The input starts with the decimal notation of a number behind zeros, and no digit follows. */
  ghost predicate Spelled(s: string, n: nat, rest: string) {
    !StartsWithDigit(rest) && exists zeros :: AllZeros(zeros) && s == zeros + Decimal(n) + rest
  }

  lemma ScannedIsSpelled(s: string, sign: int) returns (n: nat)
    requires ScanDigits(s, sign).Some?
    ensures var (v, rest) := ScanDigits(s, sign).value; Spelled(s, n, rest) && v == sign * n
  {
    var k := DigitRun(s);
    DigitRunIsDigits(s);
    DigitRunEnds(s);
    var zeros;
    zeros, n := DigitsAreDecimal(s[..k]);
    assert s == zeros + Decimal(n) + s[k..];
  }

  lemma {:induction false} DigitRunEnds(s: string)
    ensures !StartsWithDigit(s[DigitRun(s)..])
  {
    if s != "" && IsDigit(s[0]) {
      DigitRunEnds(s[1..]);
      assert s[DigitRun(s)..] == s[1..][DigitRun(s[1..])..];
    }
  }

  lemma SpelledIsScanned(s: string, sign: int, n: nat, rest: string)
    requires Spelled(s, n, rest) && MIN_INT64 <= sign * n <= MAX_INT64
    ensures ScanDigits(s, sign) == Some((sign * n, rest))
  {
    var zeros :| AllZeros(zeros) && s == zeros + Decimal(n) + rest;
    DecimalReadsBack(n);
    ZerosAddNothing(zeros, Decimal(n));
    var digits := zeros + Decimal(n);
    DigitRunStops(digits, rest);
    assert s[..|digits|] == digits && s[|digits|..] == rest;
  }

  /** A number is scanned iff it is spelled out in full behind an optional sign, and fits. */
  lemma ScanSignedIff(s: string, v: Int64, rest: string)
    ensures ScanSigned(s) == Some((v, rest)) <==>
            exists n :: (v == n && Spelled(s, n, rest)) || (s != "" && Spelled(s[1..], n, rest) &&
              ((s[0] == '+' && v == n) || (s[0] == '-' && v + n == 0)))
  {
    if ScanSigned(s) == Some((v, rest)) {
      if s[0] == '-' {
        var n := ScannedIsSpelled(s[1..], -1);
      } else if s[0] == '+' {
        var n := ScannedIsSpelled(s[1..], 1);
      } else {
        var n := ScannedIsSpelled(s, 1);
      }
    }
    if n: nat :| v == n && Spelled(s, n, rest) {
      SpelledStartsWithDigit(s, n, rest);
      SpelledIsScanned(s, 1, n, rest);
    } else if n: nat :|
      s != "" && Spelled(s[1..], n, rest) && ((s[0] == '+' && v == n) || (s[0] == '-' && v + n == 0)) {
      SpelledIsScanned(s[1..], if s[0] == '+' then 1 else -1, n, rest);
    }
  }

  lemma SpelledStartsWithDigit(s: string, n: nat, rest: string)
    requires Spelled(s, n, rest)
    ensures StartsWithDigit(s)
  {
    var zeros :| AllZeros(zeros) && s == zeros + Decimal(n) + rest;
    DecimalReadsBack(n);
    if zeros != "" {
      assert s[0] == zeros[0] && zeros[0] in zeros;
    } else {
      assert s[0] == Decimal(n)[0] && Decimal(n)[0] in Decimal(n);
    }
  }

  // ---------------------------------------------------------------- every field

  lemma SignedRoundTrip(x: Int64, rest: string)
    requires !StartsWithDigit(rest)
    ensures ScanSigned(ShowInt(x) + rest) == Some((x, rest))
    ensures !IsBlank(ShowInt(x)[0])
  {
    if x < 0 {
      DigitsReadBack(0 - x, -1, rest);
      assert ("-" + Decimal(0 - x) + rest)[1..] == Decimal(0 - x) + rest;
    } else {
      DigitsReadBack(x, 1, rest);
      DecimalReadsBack(x);
      assert IsDigit(Decimal(x)[0]);
    }
  }

  lemma IntRoundTrip(x: Int64, rest: string)
    requires !StartsWithDigit(rest)
    ensures ScanInt(ShowInt(x) + rest) == Some((x, rest))
  {
    SignedRoundTrip(x, rest);
    assert (ShowInt(x) + rest)[0] == ShowInt(x)[0];
  }

  lemma FieldRoundTrip(c: char, x: Int64, rest: string)
    requires !StartsWithDigit(rest)
    ensures ScanField([c] + ShowInt(x) + rest, c) == Some((x, rest))
  {
    assert ([c] + ShowInt(x) + rest)[1..] == ShowInt(x) + rest;
    IntRoundTrip(x, rest);
  }

  lemma ScanOfFields(s: string, t: Token, s1: string, s2: string, s3: string, rest: string)
    requires ScanField(s, 's') == Some((t.timeline, s1))
    requires ScanField(s1, '_') == Some((t.presence, s2))
    requires ScanField(s2, '_') == Some((t.receipt, s3))
    requires ScanField(s3, '_') == Some((t.toDevice, rest))
    ensures ParseToken(s) == t
  {
  }

  lemma Regroup(front: string, number: string, rest: string)
    ensures front + "_" + number + rest == front + ("_" + number + rest)
  {
  }

  /** The same printed token, grouped to the right. */
  lemma EncodeGrouped(t: Token, s1: string, s2: string, s3: string, rest: string)
    requires s3 == "_" + ShowInt(t.toDevice) + rest
    requires s2 == "_" + ShowInt(t.receipt) + s3
    requires s1 == "_" + ShowInt(t.presence) + s2
    ensures Encode(t) + rest == "s" + ShowInt(t.timeline) + s1
  {
    var head := "s" + ShowInt(t.timeline);
    var mid := head + "_" + ShowInt(t.presence);
    var late := mid + "_" + ShowInt(t.receipt);
    Regroup(late, ShowInt(t.toDevice), rest);
    Regroup(mid, ShowInt(t.receipt), s3);
    Regroup(head, ShowInt(t.presence), s2);
  }

  /** What follows a printed token is ignored unless it would prolong the last number. */
  lemma TrailingInputIsIgnored(t: Token, rest: string)
    requires !StartsWithDigit(rest)
    ensures ParseToken(Encode(t) + rest) == t
  {
    var s3 := "_" + ShowInt(t.toDevice) + rest;
    var s2 := "_" + ShowInt(t.receipt) + s3;
    var s1 := "_" + ShowInt(t.presence) + s2;
    FieldRoundTrip('_', t.toDevice, rest);
    FieldRoundTrip('_', t.receipt, s3);
    FieldRoundTrip('_', t.presence, s2);
    FieldRoundTrip('s', t.timeline, s1);
    EncodeGrouped(t, s1, s2, s3, rest);
    ScanOfFields(Encode(t) + rest, t, s1, s2, s3, rest);
  }

  /** One token as clients see it. */
  lemma PrintedToken()
    ensures Encode(Token(-12, 0, 7, 305)) == "s-12_0_7_305"
  {
    assert Decimal(1) == "1" && Decimal(3) == "3" && Decimal(0) == "0" && Decimal(7) == "7";
    assert Decimal(12) == Decimal(1) + "2" && Decimal(30) == Decimal(3) + "0" && Decimal(305) == Decimal(30) + "5";
  }

  lemma ParseUndoesEncode(t: Token)
    ensures ParseToken(Encode(t)) == t
  {
    TrailingInputIsIgnored(t, "");
    assert Encode(t) + "" == Encode(t);
  }

  lemma EncodeIsInjective(t: Token, u: Token)
    requires Encode(t) == Encode(u)
    ensures t == u
  {
    ParseUndoesEncode(t);
    ParseUndoesEncode(u);
  }
}
