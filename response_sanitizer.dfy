/**
 * The byte filter QueryMeterData applies to a received response before
 * parsing it (main.go:165-175), and what it means for the frame codec: the
 * received bytes lose everything outside printable ASCII, and a frame that
 * was printable to begin with still decodes to its payload.
 */
module ResponseSanitizer {
  import opened Wrappers
  import opened FrameCodec

  /** A Go `byte` as received from the socket. */
  newtype byte = b: int | 0 <= b < 256

  /** The filter condition as written: printable ASCII, or an ASCII digit. */
  predicate KeptByte(b: byte) {
    (b >= 32 && b <= 126) || (b >= 48 && b <= 57)
  }

  predicate IsPrintable(b: byte) {
    32 <= b <= 126
  }

  /** The digit clause adds nothing: a byte is kept exactly when it is printable ASCII. */
  lemma KeptExactlyPrintable(b: byte)
    ensures KeptByte(b) <==> IsPrintable(b)
  {
  }

  /** The bytes the filter keeps, in their order of arrival. */
  function Sanitized(raw: seq<byte>): (clean: seq<byte>)
    ensures |clean| <= |raw|
  {
    if raw == [] then []
    else
      var last := raw[|raw| - 1];
      Sanitized(raw[..|raw| - 1]) + if KeptByte(last) then [last] else []
  }

  /** A byte occurs in the filtered bytes exactly when it occurs in the input and is printable. */
  lemma {:induction false} SanitizedMembers(raw: seq<byte>)
    ensures forall b :: b in Sanitized(raw) <==> b in raw && IsPrintable(b)
    decreases |raw|
  {
    if raw != [] {
      var init, last := raw[..|raw| - 1], raw[|raw| - 1];
      SanitizedMembers(init);
      assert raw == init + [last];
    }
  }

  /**
   * `string(bytes)`: each byte becomes the character with that code, so every
   * character is below 256 and converting the text back gives the same bytes.
   */
  function AsString(bytes: seq<byte>): (s: string)
    ensures |s| == |bytes| && forall i :: 0 <= i < |s| ==> s[i] as int < 256
    ensures AsBytes(s) == bytes
  {
    seq(|bytes|, i requires 0 <= i < |bytes| => bytes[i] as char)
  }

  /** `[]byte(s)` for a string whose characters are bytes: one byte per character. */
  function AsBytes(s: string): (bytes: seq<byte>)
    requires forall i :: 0 <= i < |s| ==> s[i] as int < 256
    ensures |bytes| == |s|
  {
    seq(|s|, i requires 0 <= i < |s| => s[i] as byte)
  }

  /** Converting text of byte-sized characters to bytes and back gives the text again. */
  lemma TextBytesRoundTrip(s: string)
    requires forall i :: 0 <= i < |s| ==> s[i] as int < 256
    ensures AsString(AsBytes(s)) == s
  {
    var t := AsString(AsBytes(s));
    forall i | 0 <= i < |s| ensures t[i] == s[i] {
      assert AsBytes(s)[i] == s[i] as byte;
    }
  }

  /** The clean-up loop of QueryMeterData and the conversion of its result to a string. */
  method SanitizeResponse(rawBytes: seq<byte>) returns (response: string)
    ensures response == AsString(Sanitized(rawBytes))
  {
    var cleanBytes: seq<byte> := [];
    var i := 0;
    while i < |rawBytes|
      invariant 0 <= i <= |rawBytes|
      invariant cleanBytes == Sanitized(rawBytes[..i])
    {
      var b := rawBytes[i];
      assert rawBytes[..i + 1][..i] == rawBytes[..i];
      if (b >= 32 && b <= 126) || (b >= 48 && b <= 57) {
        cleanBytes := cleanBytes + [b];
      }
      i := i + 1;
    }
    assert rawBytes[..i] == rawBytes;
    response := AsString(cleanBytes);
  }

  /** Filtering works piecewise, so it keeps the order of the bytes it keeps. */
  lemma {:induction false} SanitizedAppend(a: seq<byte>, b: seq<byte>)
    ensures Sanitized(a + b) == Sanitized(a) + Sanitized(b)
    decreases |b|
  {
    if b == [] {
      assert a + b == a;
    } else {
      var init := b[..|b| - 1];
      assert (a + b)[..|a + b| - 1] == a + init;
      SanitizedAppend(a, init);
    }
  }

  /** Printable input passes the filter unchanged. */
  lemma {:induction false} PrintablePassesUnchanged(raw: seq<byte>)
    requires forall i :: 0 <= i < |raw| ==> IsPrintable(raw[i])
    ensures Sanitized(raw) == raw
    decreases |raw|
  {
    if raw != [] {
      var init, last := raw[..|raw| - 1], raw[|raw| - 1];
      assert forall i :: 0 <= i < |init| ==> init[i] == raw[i];
      PrintablePassesUnchanged(init);
      KeptExactlyPrintable(last);
      assert raw == init + [last];
    }
  }

  /** Printable input passes unchanged, and only printable input does. */
  lemma SanitizedIdentity(raw: seq<byte>)
    ensures Sanitized(raw) == raw <==> forall i :: 0 <= i < |raw| ==> IsPrintable(raw[i])
  {
    if forall i :: 0 <= i < |raw| ==> IsPrintable(raw[i]) {
      PrintablePassesUnchanged(raw);
    } else {
      var i :| 0 <= i < |raw| && !IsPrintable(raw[i]);
      SanitizedMembers(raw);
      assert raw[i] in raw && raw[i] !in Sanitized(raw);
    }
  }

  /** Filtering twice is filtering once. */
  lemma SanitizedIdempotent(raw: seq<byte>)
    ensures Sanitized(Sanitized(raw)) == Sanitized(raw)
  {
    var clean := Sanitized(raw);
    SanitizedMembers(raw);
    assert forall i :: 0 <= i < |clean| ==> IsPrintable(clean[i]) by {
      forall i | 0 <= i < |clean| ensures IsPrintable(clean[i]) {
        assert clean[i] in clean;
      }
    }
    SanitizedIdentity(clean);
  }

  /** Input with no printable byte filters to nothing. */
  lemma {:induction false} NoiseSanitizedAway(noise: seq<byte>)
    requires forall i :: 0 <= i < |noise| ==> !IsPrintable(noise[i])
    ensures Sanitized(noise) == []
    decreases |noise|
  {
    if noise != [] {
      NoiseSanitizedAway(noise[..|noise| - 1]);
    }
  }

  /** Non-printable noise inserted anywhere is removed without trace. */
  lemma NoiseRemoved(a: seq<byte>, noise: seq<byte>, b: seq<byte>)
    requires forall i :: 0 <= i < |noise| ==> !IsPrintable(noise[i])
    ensures Sanitized(a + noise + b) == Sanitized(a + b)
  {
    NoiseSanitizedAway(noise);
    SanitizedAppend(a + noise, b);
    SanitizedAppend(a, noise);
    SanitizedAppend(a, b);
  }

  predicate IsPrintableText(s: string) {
    forall i :: 0 <= i < |s| ==> ' ' <= s[i] <= '~'
  }

  /** The filtered bytes, read as text, are printable text. */
  lemma SanitizedTextPrintable(raw: seq<byte>)
    ensures IsPrintableText(AsString(Sanitized(raw)))
  {
    var clean := Sanitized(raw);
    SanitizedMembers(raw);
    forall i | 0 <= i < |clean| ensures ' ' <= AsString(clean)[i] <= '~' {
      assert clean[i] in clean;
    }
  }

  /** QueryMeterData's framing pipeline: filter the received bytes, then decode the frame; a payload it accepts is printable text. */
  function ReceivedPayload(rawBytes: seq<byte>): (r: Result<string, FrameError>)
    ensures r.Ok? ==> IsPrintableText(r.value)
  {
    SanitizedTextPrintable(rawBytes);
    ResponsePayload(AsString(Sanitized(rawBytes)))
  }

  lemma CommandIsPrintable(data: string)
    requires |data| + 2 <= MaxLength && IsPrintableText(data)
    ensures IsPrintableText(CreateCommand(data))
  {
    var command := CreateCommand(data);
    forall i | 0 <= i < |command| ensures ' ' <= command[i] <= '~' {
      if i < 6 {
        assert command[..6][i] == command[i];
      } else if i < |data| + 6 {
        assert command[6..|data| + 6][i - 6] == command[i];
      } else {
        assert command[|data| + 6..][i - |data| - 6] == command[i];
      }
    }
  }

  /** A printable character is a printable byte, and converting it to a byte and back gives it again. */
  lemma PrintableCharByte(c: char)
    requires ' ' <= c <= '~'
    ensures c as int < 256
    ensures IsPrintable(c as byte)
    ensures (c as byte) as char == c
  {
  }

  /** Printable text survives the round trip through bytes, and its bytes are all printable. */
  lemma PrintableTextBytes(s: string)
    requires IsPrintableText(s)
    ensures forall i :: 0 <= i < |s| ==> s[i] as int < 256
    ensures forall i :: 0 <= i < |AsBytes(s)| ==> IsPrintable(AsBytes(s)[i])
    ensures AsString(AsBytes(s)) == s
  {
    forall i | 0 <= i < |s|
      ensures s[i] as int < 256
    {
      PrintableCharByte(s[i]);
    }
    var b := AsBytes(s);
    forall i | 0 <= i < |s|
      ensures IsPrintable(b[i]) && AsString(b)[i] == s[i]
    {
      PrintableCharByte(s[i]);
    }
  }

  /**
   * A frame built from a printable payload, sent as bytes with non-printable
   * noise inserted at any one position, still decodes to that payload.
   */
  lemma NoisyRoundTrip(data: string, k: nat, noise: seq<byte>)
    requires |data| + 2 <= MaxLength && IsPrintableText(data)
    requires k <= |data| + 8
    requires forall i :: 0 <= i < |noise| ==> !IsPrintable(noise[i])
    ensures var sent := AsBytes(CreateCommand(data));
      ReceivedPayload(sent[..k] + noise + sent[k..]) == Ok(data)
  {
    var command := CreateCommand(data);
    CommandIsPrintable(data);
    PrintableTextBytes(command);
    var sent := AsBytes(command);
    NoiseRemoved(sent[..k], noise, sent[k..]);
    assert sent[..k] + sent[k..] == sent;
    SanitizedIdentity(sent);
    RoundTrip(data);
  }
}
