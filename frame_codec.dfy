/**
 * The framed ASCII protocol the data client speaks to the acquisition server
 * (main.go). A frame is a six-digit, zero-padded decimal length field, then the
 * payload, then a checksum of two upper-case hexadecimal digits; the length
 * counts the payload plus the two checksum characters.
 *
 * A Go string is a sequence of bytes. Here it is a `string` each of whose
 * characters stands for one byte; all traffic of this protocol is ASCII.
 */
module FrameCodec {
  import opened Wrappers

  /** The largest value the six-digit length field can carry. */
  const MaxLength: nat := 999999

  // ---------------------------------------------------------------------------
  // Decimal digits: the `%06d` of CreateCommand and the `strconv.Atoi` of
  // ParseResponse.
  // ---------------------------------------------------------------------------

  predicate IsDigit(c: char) {
    '0' <= c <= '9'
  }

  predicate IsDigits(s: string) {
    forall i :: 0 <= i < |s| ==> IsDigit(s[i])
  }

  function DigitChar(d: nat): (c: char)
    requires d < 10
    ensures IsDigit(c) && DigitValue(c) == d
  {
    ('0' as int + d) as char
  }

  function DigitValue(c: char): (d: nat)
    requires IsDigit(c)
    ensures d < 10
  {
    c as int - '0' as int
  }

  /** The value of a string of decimal digits, most significant first. */
  function DigitsValue(s: string): nat
    requires IsDigits(s)
  {
    if s == [] then 0 else DigitsValue(s[..|s| - 1]) * 10 + DigitValue(s[|s| - 1])
  }

  function Pow10(k: nat): (p: nat)
    ensures p >= 1
  {
    if k == 0 then 1 else 10 * Pow10(k - 1)
  }

  /** `fmt.Sprintf("%0*d", width, n)`: n in decimal, zero-padded on the left to at least `width` digits. */
  function Decimal(n: nat, width: nat): (s: string)
    ensures |s| >= 1 && |s| >= width
    decreases n + width
  {
    if n < 10 && width <= 1 then [DigitChar(n)]
    else Decimal(n / 10, if width == 0 then 0 else width - 1) + [DigitChar(n % 10)]
  }

  /** Formatting is inverted by reading the digits back; a value below 10^width takes exactly `width` digits. */
  lemma DecimalDigits(n: nat, width: nat)
    ensures IsDigits(Decimal(n, width))
    ensures DigitsValue(Decimal(n, width)) == n
    ensures width >= 1 && n < Pow10(width) ==> |Decimal(n, width)| == width
  {
    DecimalValue(n, width);
    if width >= 1 && n < Pow10(width) {
      DecimalWidth(n, width);
    }
  }

  lemma {:induction false} DecimalValue(n: nat, width: nat)
    ensures IsDigits(Decimal(n, width)) && DigitsValue(Decimal(n, width)) == n
    decreases n + width
  {
    if n < 10 && width <= 1 {
      DigitsSnoc([], DigitChar(n));
    } else {
      var w := if width == 0 then 0 else width - 1;
      DecimalValue(n / 10, w);
      DigitsSnoc(Decimal(n / 10, w), DigitChar(n % 10));
      DivMod10Split(n, 0);
    }
  }

  lemma {:induction false} DecimalWidth(n: nat, width: nat)
    requires width >= 1 && n < Pow10(width)
    ensures |Decimal(n, width)| == width
    decreases width
  {
    if !(n < 10 && width <= 1) {
      DivMod10Split(n, Pow10(width - 1));
      DecimalWidth(n / 10, width - 1);
    }
  }

  /** Appending a digit multiplies the value by ten and adds the digit. */
  lemma DigitsSnoc(s: string, c: char)
    requires IsDigits(s) && IsDigit(c)
    ensures IsDigits(s + [c])
    ensures DigitsValue(s + [c]) == DigitsValue(s) * 10 + DigitValue(c)
  {
    assert (s + [c])[..|s|] == s;
  }

  /** Every string of `width` >= 1 digits is the formatting of its own value: the length field has one spelling. */
  lemma {:induction false} DecimalOfDigits(s: string)
    requires IsDigits(s) && |s| >= 1
    ensures Decimal(DigitsValue(s), |s|) == s
    decreases |s|
  {
    var init := s[..|s| - 1];
    var last := s[|s| - 1];
    assert s == init + [last];
    var v := DigitsValue(s);
    assert v == DigitsValue(init) * 10 + DigitValue(last);
    if |s| == 1 {
      assert init == [];
      assert DigitChar(DigitValue(last)) == last;
    } else {
      DecimalOfDigits(init);
      DivMod10(DigitsValue(init), DigitValue(last));
      assert Decimal(v, |s|) == Decimal(v / 10, |s| - 1) + [DigitChar(v % 10)];
      assert DigitChar(DigitValue(last)) == last;
    }
  }

  lemma DivMod10(a: nat, b: nat)
    requires b < 10
    ensures (a * 10 + b) / 10 == a && (a * 10 + b) % 10 == b
  {
  }

  lemma DivMod10Split(n: nat, p: nat)
    ensures n / 10 * 10 + n % 10 == n && n % 10 < 10
    ensures n < 10 * p ==> n / 10 < p
  {
  }

  /** The length field CreateCommand writes for a length n: for a length that fits, six digits that read back as n. */
  function LengthField(n: nat): (field: string)
    ensures n <= MaxLength ==> |field| == 6 && IsDigits(field) && DigitsValue(field) == n
  {
    assert Pow10(6) == MaxLength + 1;
    DecimalDigits(n, 6);
    Decimal(n, 6)
  }

  // ---------------------------------------------------------------------------
  // Hexadecimal digits and the checksum (main.go:49-55).
  // ---------------------------------------------------------------------------

  predicate IsUpperHexDigit(c: char) {
    '0' <= c <= '9' || 'A' <= c <= 'F'
  }

  predicate IsHexDigit(c: char) {
    '0' <= c <= '9' || 'A' <= c <= 'F' || 'a' <= c <= 'f'
  }

  predicate IsHexPair(s: string) {
    |s| == 2 && IsHexDigit(s[0]) && IsHexDigit(s[1])
  }

  function HexDigitValue(c: char): (d: nat)
    requires IsHexDigit(c)
    ensures d < 16
  {
    if '0' <= c <= '9' then c as int - '0' as int
    else if 'A' <= c <= 'F' then c as int - 'A' as int + 10
    else c as int - 'a' as int + 10
  }

  /** The byte value a pair of hex digits (of either case) denotes. */
  function HexValue(s: string): (v: nat)
    requires IsHexPair(s)
    ensures v < 256
  {
    HexDigitValue(s[0]) * 16 + HexDigitValue(s[1])
  }

  function HexDigit(d: nat): (c: char)
    requires d < 16
    ensures IsUpperHexDigit(c) && HexDigitValue(c) == d
  {
    if d < 10 then ('0' as int + d) as char else ('A' as int + d - 10) as char
  }

  /** `fmt.Sprintf("%02X", v)` for a byte value v. */
  function Hex2(v: nat): (s: string)
    requires v < 256
    ensures |s| == 2 && IsUpperHexDigit(s[0]) && IsUpperHexDigit(s[1])
    ensures HexValue(s) == v
  {
    [HexDigit(v / 16), HexDigit(v % 16)]
  }

  /** The sum of the byte values of a string, the `total` CalculateChecksum accumulates. */
  function ByteSum(s: string): nat {
    if s == [] then 0 else ByteSum(s[..|s| - 1]) + s[|s| - 1] as int
  }

  /** The checksum of a payload: its byte sum modulo 256, as two upper-case hex digits. */
  function Checksum(data: string): (checksum: string)
    ensures |checksum| == 2 && IsUpperHexDigit(checksum[0]) && IsUpperHexDigit(checksum[1])
    ensures HexValue(checksum) == ByteSum(data) % 256
  {
    Hex2(ByteSum(data) % 256)
  }

  /** CalculateChecksum: sums the bytes in a loop, keeps the low eight bits, renders them with `%02X`. */
  method CalculateChecksum(data: string) returns (checksum: string)
    ensures checksum == Checksum(data)
  {
    var total := 0;
    var i := 0;
    while i < |data|
      invariant 0 <= i <= |data|
      invariant total == ByteSum(data[..i])
    {
      assert data[..i + 1][..i] == data[..i];
      total := total + data[i] as int;
      i := i + 1;
    }
    assert data[..i] == data;
    // total & 0xFF of a non-negative total
    checksum := Hex2(total % 256);
  }

  /** Two payloads with the same byte sum modulo 256, and only those, share a checksum. */
  lemma ChecksumInjective(a: string, b: string)
    ensures Checksum(a) == Checksum(b) <==> ByteSum(a) % 256 == ByteSum(b) % 256
  {
  }

  /** The sum is taken piecewise: the sum of a concatenation is the sum of the sums. */
  lemma {:induction false} ByteSumConcat(a: string, b: string)
    ensures ByteSum(a + b) == ByteSum(a) + ByteSum(b)
    decreases |b|
  {
    if b == [] {
      assert a + b == a;
    } else {
      var init := b[..|b| - 1];
      ByteSumConcat(a, init);
      assert (a + b)[..|a + b| - 1] == a + init;
      assert (a + b)[|a + b| - 1] == b[|b| - 1];
    }
  }

  lemma {:induction false} ByteSumUpdate(s: string, i: nat, c: char)
    requires i < |s|
    ensures ByteSum(s[i := c]) == ByteSum(s) - s[i] as int + c as int
    decreases |s|
  {
    var t := s[i := c];
    var n := |s| - 1;
    if i == n {
      assert t[..n] == s[..n];
    } else {
      assert t[..n] == s[..n][i := c];
      ByteSumUpdate(s[..n], i, c);
    }
  }

  /** Replacing any one byte of a payload by a different byte changes its checksum. */
  lemma ChecksumDetectsByteChange(data: string, i: nat, c: char)
    requires i < |data| && c != data[i]
    requires c as int < 256 && data[i] as int < 256
    ensures Checksum(data[i := c]) != Checksum(data)
  {
    ByteSumUpdate(data, i, c);
    var before, after := ByteSum(data), ByteSum(data[i := c]);
    var delta := c as int - data[i] as int;
    assert after == before + delta;
    assert -256 < delta < 256 && delta != 0;
    ChecksumInjective(data[i := c], data);
  }

  // ---------------------------------------------------------------------------
  // CreateCommand (main.go:58-70).
  // ---------------------------------------------------------------------------

  /** The frame for a payload: length field, payload, checksum. */
  function CreateCommand(data: string): (command: string)
    ensures |data| + 2 <= MaxLength ==>
      && |command| == |data| + 8
      && IsDigits(command[..6]) && DigitsValue(command[..6]) == |data| + 2
      && command[6..|data| + 6] == data
      && command[|data| + 6..] == Checksum(data)
  {
    DecimalDigits(|data| + 2, 6);
    var lengthStr := LengthField(|data| + 2);
    var command := lengthStr + data + Checksum(data);
    assert |data| + 2 <= MaxLength ==> command[..6] == lengthStr;
    command
  }

  /** The query the client sends every cycle. */
  lemma QueryCommand()
    ensures ByteSum("query") == 566
    ensures Checksum("query") == "36"
    ensures CreateCommand("query") == "000007query36"
  {
    QueryByteSum();
    QueryLengthField();
  }

  lemma QueryByteSum()
    ensures ByteSum("query") == 566
  {
    assert "query"[..4] == "quer" && "quer"[..3] == "que" && "que"[..2] == "qu" && "qu"[..1] == "q" && "q"[..0] == "";
  }

  lemma QueryLengthField()
    ensures LengthField(7) == "000007"
  {
    assert Decimal(0, 2) == "00" by { assert Decimal(0, 1) == "0"; }
    assert Decimal(0, 4) == "0000" by { assert Decimal(0, 3) == "000"; }
    assert Decimal(7, 6) == "000007" by { assert Decimal(0, 5) == "00000"; }
  }

  // ---------------------------------------------------------------------------
  // The framing half of ParseResponse (main.go:77-118).
  // ---------------------------------------------------------------------------

  datatype FrameError =
    | TooShort(actual: nat)
    | NonDigitInLength(position: nat, found: char)
    | Insufficient(needed: nat, actual: nat)
    | LengthBelowChecksum(length: nat)
    | ChecksumMismatch(receivedChecksum: string, calculated: string)

  /** The position of the first character that is not a digit, or |s| if there is none. */
  function FirstNonDigit(s: string): (k: nat)
    ensures k <= |s|
    ensures forall j :: 0 <= j < k ==> IsDigit(s[j])
    ensures k < |s| ==> !IsDigit(s[k])
  {
    if s == [] || !IsDigit(s[0]) then 0 else 1 + FirstNonDigit(s[1..])
  }

  /** `strings.ToUpper` on ASCII: lower-case letters become upper-case, nothing else changes. */
  function UpperChar(c: char): char {
    if 'a' <= c <= 'z' then (c as int - 32) as char else c
  }

  function LowerChar(c: char): char {
    if 'A' <= c <= 'Z' then (c as int + 32) as char else c
  }

  function UpperAscii(s: string): (u: string)
    ensures |u| == |s|
  {
    seq(|s|, i requires 0 <= i < |s| => UpperChar(s[i]))
  }

  /** Upper-casing leaves no lower-case ASCII letter and changes nothing but the case of letters. */
  lemma UpperAsciiChangesCaseOnly(s: string)
    ensures var u := UpperAscii(s);
      forall i :: 0 <= i < |u| ==> !('a' <= u[i] <= 'z') && LowerChar(u[i]) == LowerChar(s[i])
  {
  }

  function LowerAscii(s: string): (l: string)
    ensures |l| == |s|
  {
    seq(|s|, i requires 0 <= i < |s| => LowerChar(s[i]))
  }

  /**
   * What ParseResponse makes of a received string before its JSON step: the
   * payload, or the first check that fails. Go slices `rawData[6:6+length-2]`
   * without checking length >= 2; a length field of 000000 or 000001 makes that
   * slice panic, and here it is the error LengthBelowChecksum instead.
   */
  function ResponsePayload(raw: string): (r: Result<string, FrameError>)
    ensures r.Ok? ==>
      && |raw| >= 8 && IsDigits(raw[..6])
      && var length := DigitsValue(raw[..6]);
         && 2 <= length <= |raw| - 6
         && r.value == raw[6..6 + length - 2]
         && UpperAscii(raw[6 + length - 2..6 + length]) == UpperAscii(Checksum(r.value))
  {
    if |raw| < 6 then Err(TooShort(|raw|))
    else if FirstNonDigit(raw[..6]) < 6 then
      var k := FirstNonDigit(raw[..6]);
      Err(NonDigitInLength(k, raw[k]))
    else
      var length := DigitsValue(raw[..6]);
      if |raw| < 6 + length then Err(Insufficient(6 + length, |raw|))
      else if length < 2 then Err(LengthBelowChecksum(length))
      else
        var payload := raw[6..6 + length - 2];
        var received := raw[6 + length - 2..6 + length];
        if UpperAscii(received) != UpperAscii(Checksum(payload))
        then Err(ChecksumMismatch(received, Checksum(payload)))
        else Ok(payload)
  }

  /** ParseResponse up to its JSON step: checks the length field digit by digit, then bounds, then checksum. */
  method ParseResponse(rawData: string) returns (r: Result<string, FrameError>)
    ensures r == ResponsePayload(rawData)
  {
    if |rawData| < 6 {
      return Err(TooShort(|rawData|));
    }
    var lengthStr := rawData[..6];
    var i := 0;
    while i < 6
      invariant 0 <= i <= 6
      invariant forall j :: 0 <= j < i ==> IsDigit(lengthStr[j])
    {
      if lengthStr[i] < '0' || lengthStr[i] > '9' {
        return Err(NonDigitInLength(i, lengthStr[i]));
      }
      i := i + 1;
    }
    // strconv.Atoi cannot fail on six ASCII digits
    var length := DigitsValue(lengthStr);
    if |rawData| < 6 + length {
      return Err(Insufficient(6 + length, |rawData|));
    }
    if length < 2 {
      return Err(LengthBelowChecksum(length));
    }
    var dataPart := rawData[6..6 + length - 2];
    var receivedChecksum := rawData[6 + length - 2..6 + length];
    var calculatedChecksum := CalculateChecksum(dataPart);
    if UpperAscii(receivedChecksum) != UpperAscii(calculatedChecksum) {
      return Err(ChecksumMismatch(receivedChecksum, calculatedChecksum));
    }
    return Ok(dataPart);
  }

  /** Input shorter than the length field is rejected. */
  lemma RejectsShortInput(raw: string)
    requires |raw| < 6
    ensures ResponsePayload(raw) == Err(TooShort(|raw|))
  {
  }

  /**
   * A non-digit among the first six characters is reported at the first such
   * position, before any decimal conversion of the field is attempted.
   */
  lemma RejectsNonDigitLength(raw: string, j: nat)
    requires 6 <= |raw| && j < 6 && !IsDigit(raw[j])
    ensures ResponsePayload(raw).Err? && ResponsePayload(raw).error.NonDigitInLength?
    ensures var k := ResponsePayload(raw).error.position;
      k <= j && !IsDigit(raw[k]) && IsDigits(raw[..k]) && ResponsePayload(raw).error.found == raw[k]
  {
    assert !IsDigit(raw[..6][j]);
  }

  /** A frame whose length field asks for more bytes than were received is rejected. */
  lemma RejectsInsufficientBody(raw: string)
    requires 6 <= |raw| && IsDigits(raw[..6])
    requires |raw| < 6 + DigitsValue(raw[..6])
    ensures ResponsePayload(raw) == Err(Insufficient(6 + DigitsValue(raw[..6]), |raw|))
  {
  }

  /** Bytes beyond the 6 + N the length field announces are ignored. */
  lemma TrailingBytesIgnored(raw: string, extra: string)
    requires 6 <= |raw| && IsDigits(raw[..6])
    requires |raw| >= 6 + DigitsValue(raw[..6])
    ensures ResponsePayload(raw + extra) == ResponsePayload(raw)
  {
    var longer := raw + extra;
    assert longer[..6] == raw[..6];
    var n := DigitsValue(raw[..6]);
    if n >= 2 {
      assert longer[6..6 + n - 2] == raw[6..6 + n - 2];
      assert longer[6 + n - 2..6 + n] == raw[6 + n - 2..6 + n];
    }
  }

  /** Decoding inverts encoding for every payload whose length fits the length field. */
  lemma RoundTrip(data: string)
    requires |data| + 2 <= MaxLength
    ensures ResponsePayload(CreateCommand(data)) == Ok(data)
  {
    var command := CreateCommand(data);
    assert FirstNonDigit(command[..6]) == 6;
  }

  lemma UpperHexUnchanged(s: string)
    requires forall i :: 0 <= i < |s| ==> IsUpperHexDigit(s[i])
    ensures UpperAscii(s) == s
  {
  }

  lemma HexValueIgnoresCase(s: string)
    requires IsHexPair(s)
    ensures IsHexPair(UpperAscii(s)) && HexValue(UpperAscii(s)) == HexValue(s)
  {
  }

  /** A payload ResponsePayload returns sits in a frame whose length field and checksum it agrees with. */
  lemma AcceptedFrameMatchesCommand(raw: string)
    requires ResponsePayload(raw).Ok?
    ensures var p := ResponsePayload(raw).value;
      && |p| + 2 <= MaxLength
      && |raw| >= |p| + 8
      && raw[..6] == LengthField(|p| + 2)
      && raw[6..|p| + 6] == p
      && UpperAscii(raw[|p| + 6..|p| + 8]) == Checksum(p)
      && (IsUpperHexDigit(raw[|p| + 6]) && IsUpperHexDigit(raw[|p| + 7]) ==> raw[..|p| + 8] == CreateCommand(p))
  {
    var p := ResponsePayload(raw).value;
    var length := DigitsValue(raw[..6]);
    assert |p| + 2 == length && |p| + 8 <= |raw|;
    LengthFieldCanonical(raw[..6]);
    UpperHexUnchanged(Checksum(p));
    var received := raw[|p| + 6..|p| + 8];
    if IsUpperHexDigit(raw[|p| + 6]) && IsUpperHexDigit(raw[|p| + 7]) {
      UpperHexUnchanged(received);
      var frame := raw[..|p| + 8];
      assert frame[..6] == raw[..6] && frame[6..|p| + 6] == raw[6..|p| + 6] && frame[|p| + 6..] == received;
      FrameOfParts(frame, p);
    }
  }

  /** A string made of the length field, the payload and its checksum is the payload's frame. */
  lemma FrameOfParts(frame: string, p: string)
    requires |frame| == |p| + 8
    requires frame[..6] == LengthField(|p| + 2) && frame[6..|p| + 6] == p && frame[|p| + 6..] == Checksum(p)
    ensures frame == CreateCommand(p)
  {
    assert frame == frame[..6] + frame[6..|p| + 6] + frame[|p| + 6..];
  }

  /** A six-digit field carries at most MaxLength, and it is the length field of its own value. */
  lemma LengthFieldCanonical(field: string)
    requires |field| == 6 && IsDigits(field)
    ensures DigitsValue(field) <= MaxLength
    ensures LengthField(DigitsValue(field)) == field
  {
    var n := DigitsValue(field);
    DecimalOfDigits(field);
    if n > MaxLength {
      assert Pow10(6) == 1000000;
      DecimalNeedsDigits(n, 6);
    }
  }

  /** A value of at least 10^width is written with more than `width` digits. */
  lemma {:induction false} DecimalNeedsDigits(n: nat, width: nat)
    requires n >= Pow10(width)
    ensures |Decimal(n, width)| > width
    decreases n + width
  {
    if width == 0 {
      if n < 10 {
      } else {
        DecimalNeedsDigits(n / 10, 0);
      }
    } else {
      assert n >= 10;
      DecimalNeedsDigits(n / 10, width - 1);
    }
  }

  /**
   * In a frame with a correct length field, the received checksum is compared
   * ignoring letter case: the payload is accepted exactly when the upper-cased
   * checksum equals the calculated one.
   */
  lemma ChecksumComparedIgnoringCase(data: string, received: string)
    requires |data| + 2 <= MaxLength && |received| == 2
    ensures ResponsePayload(LengthField(|data| + 2) + data + received) ==
      if UpperAscii(received) == Checksum(data) then Ok(data)
      else Err(ChecksumMismatch(received, Checksum(data)))
  {
    DecimalDigits(|data| + 2, 6);
    var raw := LengthField(|data| + 2) + data + received;
    assert raw[..6] == LengthField(|data| + 2);
    assert FirstNonDigit(raw[..6]) == 6;
    assert raw[6..|data| + 6] == data;
    assert raw[|data| + 6..|data| + 8] == received;
    UpperHexUnchanged(Checksum(data));
  }

  /** Replacing the checksum by hex digits of another value makes the frame fail. */
  lemma TamperedChecksumRejected(data: string, received: string)
    requires |data| + 2 <= MaxLength && IsHexPair(received)
    requires HexValue(received) != ByteSum(data) % 256
    ensures ResponsePayload(LengthField(|data| + 2) + data + received) == Err(ChecksumMismatch(received, Checksum(data)))
  {
    ChecksumComparedIgnoringCase(data, received);
    HexValueIgnoresCase(received);
  }

  /** Writing the checksum in lower case does not make the frame fail. */
  lemma LowerCaseChecksumAccepted(data: string)
    requires |data| + 2 <= MaxLength
    ensures ResponsePayload(LengthField(|data| + 2) + data + LowerAscii(Checksum(data))) == Ok(data)
  {
    var cs := Checksum(data);
    ChecksumComparedIgnoringCase(data, LowerAscii(cs));
    UpperOfLowerHex(cs);
  }

  /** Upper-casing undoes lower-casing on upper-case hex digits. */
  lemma UpperOfLowerHex(s: string)
    requires forall i :: 0 <= i < |s| ==> IsUpperHexDigit(s[i])
    ensures UpperAscii(LowerAscii(s)) == s
  {
    var u := UpperAscii(LowerAscii(s));
    forall i | 0 <= i < |s| ensures u[i] == s[i] {
      assert LowerAscii(s)[i] == LowerChar(s[i]);
    }
  }

  // ---------------------------------------------------------------------------
  // The panic at main.go:104, as written.
  // ---------------------------------------------------------------------------

  /** The checks Go performs before it slices out the payload at main.go:104. */
  predicate GoReachesPayloadSlice(raw: string) {
    6 <= |raw| && IsDigits(raw[..6]) && |raw| >= 6 + DigitsValue(raw[..6])
  }

  /** Go's `s[lo:hi]` runs only when 0 <= lo <= hi <= len(s); otherwise it panics. */
  predicate GoSliceInRange(length: int, lo: int, hi: int) {
    0 <= lo <= hi <= length
  }

  /** As written, a length field of 000000 passes every check and reaches a slice with low bound above high bound. */
  lemma ShortLengthFieldPanics()
    ensures GoReachesPayloadSlice("000000")
    ensures var n := DigitsValue("000000");
      n == 0 && !GoSliceInRange(6, 6, 6 + n - 2)
  {
    var z := "000000";
    assert z[..6] == z;
    assert z[..5] == "00000" && "00000"[..4] == "0000" && "0000"[..3] == "000";
    assert "000"[..2] == "00" && "00"[..1] == "0" && "0"[..0] == "";
  }

  /**
   * The model never takes an out-of-range slice: whenever Go would reach the
   * payload slice, the model either returns LengthBelowChecksum (exactly when
   * the length is below 2) or slices within bounds.
   */
  lemma ResponsePayloadSlicesInRange(raw: string)
    ensures GoReachesPayloadSlice(raw) ==>
      var n := DigitsValue(raw[..6]);
      (ResponsePayload(raw) == Err(LengthBelowChecksum(n)) <==> n < 2)
      && (n >= 2 ==> GoSliceInRange(|raw|, 6, 6 + n - 2) && GoSliceInRange(|raw|, 6 + n - 2, 6 + n))
    ensures ResponsePayload(raw).Ok? ==> GoReachesPayloadSlice(raw) && DigitsValue(raw[..6]) >= 2
  {
    if GoReachesPayloadSlice(raw) {
      assert FirstNonDigit(raw[..6]) == 6;
    }
  }
}
