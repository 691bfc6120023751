/** The text handling of the message pipeline: the two fixed stack buffers
    that vsnprintf fills, the C-string view that "%s" and strlen take of a
    buffer, the severity tags, and the "%d" rendering used when an adopted
    configuration is reported. A `char` stands for one byte of a C string. */
module Format {
  import opened Configuration

  const NUL: char := '\0'

  /** Size of both stack buffers, msgbuf and buffer (0x800 = 2048 bytes). */
  const BufferSize: nat := 0x800

  const InfoTag: string := "[PROSPERO][INFO]: "
  const ErrorTag: string := "[PROSPERO][ERROR]: "
  const DebugTag: string := "[PROSPERO][DEBUG]: "

  predicate NulFree(s: string)
  {
    forall i :: 0 <= i < |s| ==> s[i] != NUL
  }

  /** The characters vsnprintf(buf, size, ...) stores before the terminator
      when the directives expand to `s`: all of `s` if it leaves room for the
      terminator, otherwise its first size - 1 characters. */
  function Snprintf(s: string, size: nat): (r: string)
    requires size > 0
    ensures r <= s && |r| < size
    ensures |s| < size ==> r == s
    ensures |s| >= size ==> |r| == size - 1
  {
    if |s| < size then s else s[..size - 1]
  }

  /** The position of the first NUL at or after `from`, or the end of the
      buffer if there is none: the count strlen makes. */
  function NulIndex(buf: string, from: nat): (k: nat)
    requires from <= |buf|
    ensures from <= k <= |buf|
    ensures forall i :: from <= i < k ==> buf[i] != NUL
    ensures k == |buf| || buf[k] == NUL
    decreases |buf| - from
  {
    if from == |buf| || buf[from] == NUL then from else NulIndex(buf, from + 1)
  }

  /** The string that strlen and "%s" see in a buffer: everything before
      the first NUL. */
  function CString(buf: string): (r: string)
    ensures r <= buf && NulFree(r)
    ensures |r| == |buf| || buf[|r|] == NUL
  {
    if NulFree(buf) then buf else buf[..NulIndex(buf, 0)]
  }

  /** The three properties of CString determine it. */
  lemma CStringUnique(buf: string, r: string)
    requires r <= buf && NulFree(r)
    requires |r| == |buf| || buf[|r|] == NUL
    ensures r == CString(buf)
  {
    var c := CString(buf);
    assert |r| == |c|;
  }

  /** A NUL-free buffer is read in full. */
  lemma CStringOfNulFree(s: string)
    requires NulFree(s)
    ensures CString(s) == s
  {
    CStringUnique(s, s);
  }

  /** Cutting a buffer to size and reading it as a C string can be done in
      either order. */
  lemma CStringOfSnprintf(s: string, size: nat)
    requires size > 0
    ensures CString(Snprintf(s, size)) == Snprintf(CString(s), size)
  {
    var p := Snprintf(s, size);
    var r := Snprintf(CString(s), size);
    assert r <= p;
    if |r| < |p| {
      assert p[|r|] == s[|r|];
    }
    CStringUnique(p, r);
  }

  /** The severity tag debugNetPrintf puts before the message; the empty
      string for every level other than INFO, ERROR and DEBUG. */
  function Tag(level: int): (r: string)
    ensures NulFree(r) && |r| < 20
    ensures r == [] <==> !IsSeverity(level)
  {
    if level == INFO then InfoTag
    else if level == ERROR then ErrorTag
    else if level == DEBUG then DebugTag
    else ""
  }

  /** What debugNetUDPPrintf hands to the send primitive when its format
      and arguments expand to `formatted`: the buffer read up to strlen. */
  function Wire(formatted: string): (r: string)
    ensures |r| < BufferSize && NulFree(r)
    ensures r <= formatted
    ensures NulFree(formatted) && |formatted| < BufferSize ==> r == formatted
  {
    CString(Snprintf(formatted, BufferSize))
  }

  /** What debugNetPrintf hands to debugNetUDPPrintf at a level that is
      sent: the tag, then msgbuf (the message cut to 2047 characters) read
      as a C string. */
  function Formatted(level: int, text: string): (r: string)
    ensures Tag(level) <= r && NulFree(r)
    ensures |r| < |Tag(level)| + BufferSize
  {
    var msg := CString(Snprintf(text, BufferSize));
    NulFreeConcat(Tag(level), msg);
    Tag(level) + msg
  }

  /** The datagram payload of a debugNetPrintf call that is sent. */
  function Payload(level: int, text: string): (r: string)
    ensures |r| < BufferSize && NulFree(r)
  {
    Wire(Formatted(level, text))
  }

  lemma SnprintfAfterPrefix(t: string, m: string, size: nat)
    requires |t| < size
    ensures Snprintf(t + m, size) == t + Snprintf(m, size - |t|)
  {
    if |t + m| >= size {
      assert (t + m)[..size - 1] == t + m[..size - 1 - |t|];
    }
  }

  lemma SnprintfTwice(s: string, big: nat, small: nat)
    requires 0 < small <= big
    ensures Snprintf(Snprintf(s, big), small) == Snprintf(s, small)
  {
  }

  lemma NulFreeConcat(a: string, b: string)
    requires NulFree(a) && NulFree(b)
    ensures NulFree(a + b)
  {
    assert forall i :: |a| <= i < |a + b| ==> (a + b)[i] == b[i - |a|];
  }

  /** The two truncations and the two C-string reads collapse into one
      description: the payload is the tag followed by the part of the
      message before its first NUL, cut so that the whole fits in 2047
      characters. */
  lemma PayloadShape(level: int, text: string)
    ensures Payload(level, text)
         == Tag(level) + Snprintf(CString(text), BufferSize - |Tag(level)|)
  {
    var t := Tag(level);
    var m := CString(Snprintf(text, BufferSize));
    CStringOfSnprintf(text, BufferSize);
    assert m == Snprintf(CString(text), BufferSize);
    NulFreeConcat(t, m);
    SnprintfAfterPrefix(t, m, BufferSize);
    var cut := Snprintf(t + m, BufferSize);
    assert cut == t + Snprintf(m, BufferSize - |t|);
    assert cut <= t + m;
    assert NulFree(cut) by {
      assert forall i :: 0 <= i < |cut| ==> cut[i] == (t + m)[i];
    }
    CStringOfNulFree(cut);
    SnprintfTwice(CString(text), BufferSize, BufferSize - |t|);
  }

  /** Every payload starts with its level's tag, and what follows the tag
      is a prefix of the message. */
  lemma PayloadStartsWithTag(level: int, text: string)
    ensures Tag(level) <= Payload(level, text)
    ensures Payload(level, text)[|Tag(level)|..] <= text
  {
    PayloadShape(level, text);
    var p := Payload(level, text);
    var t := Tag(level);
    var k := Snprintf(CString(text), BufferSize - |t|);
    assert p[|t|..] == k;
    assert k <= CString(text) <= text;
  }

  /** A NUL-free message that fits next to its tag is sent verbatim. */
  lemma PayloadVerbatim(level: int, text: string)
    requires NulFree(text) && |Tag(level)| + |text| < BufferSize
    ensures Payload(level, text) == Tag(level) + text
  {
    PayloadShape(level, text);
    CStringOfNulFree(text);
  }

  /** How the receiving side reads a datagram back: a known tag prefix gives
      the level, anything else is an untagged line. */
  datatype Line = Tagged(level: int, message: string) | Untagged(message: string)

  function Decode(d: string): (l: Line)
  {
    if InfoTag <= d then Tagged(INFO, d[|InfoTag|..])
    else if ErrorTag <= d then Tagged(ERROR, d[|ErrorTag|..])
    else if DebugTag <= d then Tagged(DEBUG, d[|DebugTag|..])
    else Untagged(d)
  }

  /** The tag of a severity level identifies the level.  */
  lemma DecodeTagged(level: int, m: string)
    requires IsSeverity(level)
    ensures Decode(Tag(level) + m) == Tagged(level, m)
  {
    var d := Tag(level) + m;
    assert d[..|Tag(level)|] == Tag(level);
    assert d[|Tag(level)|..] == m;
    if level == ERROR {
      assert d[11] == 'E' != InfoTag[11];
    } else if level == DEBUG {
      assert d[11] == 'D' != InfoTag[11];
      assert d[11] != ErrorTag[11];
    }
  }

  /** Decoding a severity-level payload gives back its level and the part of
      the message that fit. */
  lemma DecodePayload(level: int, text: string)
    requires IsSeverity(level)
    ensures Decode(Payload(level, text))
         == Tagged(level, Snprintf(CString(text), BufferSize - |Tag(level)|))
  {
    PayloadShape(level, text);
    DecodeTagged(level, Snprintf(CString(text), BufferSize - |Tag(level)|));
  }

  // ---- "%d" ----

  predicate IsDigit(c: char)
  {
    '0' <= c <= '9'
  }

  predicate AllDigits(s: string)
  {
    forall i :: 0 <= i < |s| ==> IsDigit(s[i])
  }

  /** The shape of a "%d" rendering: an optional minus sign, then digits. */
  predicate IsDecimal(s: string)
  {
    if |s| > 0 && s[0] == '-' then |s| > 1 && AllDigits(s[1..])
    else |s| > 0 && AllDigits(s)
  }

  function DigitChar(d: nat): (c: char)
    requires d < 10
    ensures IsDigit(c)
  {
    (48 + d) as char
  }

  function DigitValue(c: char): (d: nat)
    requires IsDigit(c)
    ensures d < 10
  {
    (c as int - 48) as nat
  }

  /** The decimal digits of `n`, without leading zeros. */
  function Digits(n: nat): (r: string)
    ensures |r| > 0 && AllDigits(r)
    ensures r[0] == '0' <==> n == 0
  {
    if n < 10 then [DigitChar(n)] else Digits(n / 10) + [DigitChar(n % 10)]
  }

  /** The "%d" rendering of a C int. */
  function Decimal(n: int): (r: string)
    ensures IsDecimal(r) && NulFree(r)
    ensures r[0] == '-' <==> n < 0
  {
    if n < 0 then "-" + Digits(-n) else Digits(n)
  }

  function ParseDigits(s: string): (n: nat)
    requires |s| > 0 && AllDigits(s)
  {
    if |s| == 1 then DigitValue(s[0])
    else ParseDigits(s[..|s| - 1]) * 10 + DigitValue(s[|s| - 1])
  }

  function ParseDecimal(s: string): (n: int)
    requires IsDecimal(s)
  {
    if s[0] == '-' then -(ParseDigits(s[1..]) as int) else ParseDigits(s)
  }

  lemma {:induction false} DigitsRoundTrip(n: nat)
    ensures ParseDigits(Digits(n)) == n
  {
    if n >= 10 {
      var p := Digits(n / 10);
      DigitsRoundTrip(n / 10);
      assert (p + [DigitChar(n % 10)])[..|p|] == p;
    }
  }

  /** A reader of the "%d" rendering recovers the number. */
  lemma DecimalRoundTrip(n: int)
    ensures ParseDecimal(Decimal(n)) == n
  {
    if n < 0 {
      var d := Digits(-n);
      assert Decimal(n)[1..] == d by {
        assert Decimal(n) == "-" + d;
      }
      DigitsRoundTrip(-n);
    } else {
      DigitsRoundTrip(n);
    }
  }
}
