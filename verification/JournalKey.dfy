/**
 Keys of the stream journal: "si" or "so", one digit of stream index, six hex
 digits of sequence number, read back with strtoul.
 */
module JournalKey {
  import opened Basics

  /** One journal record's place: which stream, and which record of it. */
  datatype Stream = Stream(input: bool, index: nat)

  datatype Parsed = Parsed(stream: Stream, seqno: nat)

  const STREAMS: nat := 8
  const SEQ_LIMIT: nat := 0x100_0000

  function HexChar(d: nat): char
    requires d < 16
  {
    "0123456789abcdef"[d]
  }

  /** Fixed-width lower-case hex, most significant digit first. */
  function ToHex(n: nat, width: nat): (r: string)
    ensures |r| == width
  {
    if width == 0 then "" else ToHex(n / 16, width - 1) + [HexChar(n % 16)]
  }

  function Format(s: Stream, seqno: nat): (r: string)
    requires s.index < STREAMS
    ensures |r| == 9
  {
    (if s.input then "si" else "so") + [HexChar(s.index)] + ToHex(seqno, 6)
  }

  // ---- strtoul, base 16 --------------------------------------------------

  predicate IsSpace(c: char) {
    c == ' ' || '\t' <= c <= '\r'
  }

  function DigitValue(c: char): Option<nat> {
    if '0' <= c <= '9' then Some((c - '0') as nat)
    else if 'a' <= c <= 'f' then Some((c - 'a') as nat + 10)
    else if 'A' <= c <= 'F' then Some((c - 'A') as nat + 10)
    else None
  }

  function SkipSpace(s: string): string {
    if s != "" && IsSpace(s[0]) then SkipSpace(s[1..]) else s
  }

  /** Digits from the front, and what is left after them. */
  function Scan(s: string, acc: nat): (nat, string) {
    if s != "" && DigitValue(s[0]).Some?
    then Scan(s[1..], acc * 16 + DigitValue(s[0]).value)
    else (acc, s)
  }

  /** The value strtoul returns on a 32-bit target, and where it stopped. */
  function Strtoul(s: string): (nat, string) {
    var unspaced := SkipSpace(s);
    var negative := unspaced != "" && unspaced[0] == '-';
    var signed := unspaced != "" && (unspaced[0] == '-' || unspaced[0] == '+');
    var unsigned := if signed then unspaced[1..] else unspaced;
    var prefixed := |unsigned| >= 3 && unsigned[0] == '0' && (unsigned[1] == 'x' || unsigned[1] == 'X')
                    && DigitValue(unsigned[2]).Some?;
    var digits := if prefixed then unsigned[2..] else unsigned;
    if digits == "" || DigitValue(digits[0]).None? then (0, s)
    else
      var (value, rest) := Scan(digits, 0);
      (if negative then (0x1_0000_0000 - value % 0x1_0000_0000) % 0x1_0000_0000 else value, rest)
  }

  function Parse(key: string): Option<Parsed> {
    if |key| != 9 then None
    else if key[..2] != "si" && key[..2] != "so" then None
    else if !('0' <= key[2] <= '7') then None
    else
      var (seqno, rest) := Strtoul(key[3..]);
      if rest != "" then None
      else Some(Parsed(Stream(key[..2] == "si", (key[2] - '0') as nat), seqno))
  }

  // ---- Formatting and parsing are inverse --------------------------------

  predicate LowerHex(s: string) {
    forall k :: 0 <= k < |s| ==> '0' <= s[k] <= '9' || 'a' <= s[k] <= 'f'
  }

  function Power16(n: nat): (r: nat)
    ensures r > 0
  {
    if n == 0 then 1 else 16 * Power16(n - 1)
  }

  lemma {:induction false} ScanAppend(s: string, c: char, acc: nat)
    requires Scan(s, acc).1 == "" && DigitValue(c).Some?
    ensures Scan(s + [c], acc) == (Scan(s, acc).0 * 16 + DigitValue(c).value, "")
    decreases |s|
  {
    if s != "" {
      assert (s + [c])[1..] == s[1..] + [c];
      ScanAppend(s[1..], c, acc * 16 + DigitValue(s[0]).value);
    } else {
      assert s + [c] == [c];
    }
  }

  lemma HexCharIsDigit(d: nat)
    requires d < 16
    ensures DigitValue(HexChar(d)) == Some(d)
    ensures '0' <= HexChar(d) <= '9' || 'a' <= HexChar(d) <= 'f'
  {
  }

  lemma DigitIsHexChar(c: char)
    requires '0' <= c <= '9' || 'a' <= c <= 'f'
    ensures DigitValue(c).Some? && DigitValue(c).value < 16
    ensures HexChar(DigitValue(c).value) == c
  {
  }

  lemma {:induction false} ScanToHex(n: nat, width: nat)
    requires n < Power16(width)
    ensures Scan(ToHex(n, width), 0) == (n, "")
    ensures LowerHex(ToHex(n, width))
    decreases width
  {
    if width > 0 {
      ScanToHex(n / 16, width - 1);
      HexCharIsDigit(n % 16);
      ScanAppend(ToHex(n / 16, width - 1), HexChar(n % 16), 0);
    }
  }

  lemma {:induction false} ToHexScan(s: string)
    requires LowerHex(s)
    ensures Scan(s, 0).1 == ""
    ensures Scan(s, 0).0 < Power16(|s|)
    ensures ToHex(Scan(s, 0).0, |s|) == s
    decreases |s|
  {
    if s != "" {
      var front, c := s[..|s| - 1], s[|s| - 1];
      assert s == front + [c];
      ToHexScan(front);
      ScanAppend(front, c, 0);
      DigitIsHexChar(c);
      var high, low := Scan(front, 0).0, DigitValue(c).value;
      assert (high * 16 + low) / 16 == high && (high * 16 + low) % 16 == low;
    }
  }

  lemma Power16Of6()
    ensures Power16(6) == SEQ_LIMIT
  {
    assert Power16(2) == 256;
    assert Power16(4) == 16 * (16 * Power16(2));
  }

  lemma PlainDigits(s: string)
    requires LowerHex(s) && s != ""
    ensures Strtoul(s) == Scan(s, 0)
  {
    assert SkipSpace(s) == s;
  }

  /** Reading back a formatted key gives what it was formatted from. */
  lemma ParseFormat(s: Stream, seqno: nat)
    requires s.index < STREAMS && seqno < SEQ_LIMIT
    ensures Parse(Format(s, seqno)) == Some(Parsed(s, seqno))
  {
    Power16Of6();
    ScanToHex(seqno, 6);
    var key := Format(s, seqno);
    assert key[3..] == ToHex(seqno, 6);
    assert key[..2] == if s.input then "si" else "so";
    assert key[2] == HexChar(s.index);
    PlainDigits(ToHex(seqno, 6));
  }

  /**
   The other way round only some keys come back: strtoul also takes spaces, a
   sign, an 0x prefix and capitals.  A key that parses is the formatted form
   of what it parses to exactly when its six digits are plain lower-case hex.
   */
  lemma FormatParse(key: string)
    requires Parse(key).Some?
    ensures var p := Parse(key).value;
            && p.stream.index < STREAMS
            && (p.seqno < SEQ_LIMIT && Format(p.stream, p.seqno) == key <==> LowerHex(key[3..]))
  {
    var p := Parse(key).value;
    Power16Of6();
    assert HexChar(p.stream.index) == key[2];
    assert key == key[..2] + [key[2]] + key[3..];
    if LowerHex(key[3..]) {
      PlainDigits(key[3..]);
      ToHexScan(key[3..]);
    }
    if p.seqno < SEQ_LIMIT && Format(p.stream, p.seqno) == key {
      ScanToHex(p.seqno, 6);
      assert Format(p.stream, p.seqno)[3..] == ToHex(p.seqno, 6);
    }
  }

  /** A key the code never writes, and reads as record 5 of the first input. */
  lemma SpacedKeyParses()
    ensures Parse("si0    +5") == Some(Parsed(Stream(true, 0), 5))
    ensures Format(Stream(true, 0), 5) != "si0    +5"
  {
    var digits := "    +5";
    assert "si0    +5"[3..] == digits;
    assert digits[1..] == "   +5" && digits[2..] == "  +5" && digits[3..] == " +5" && digits[4..] == "+5";
    assert digits[1..][1..] == digits[2..] && digits[2..][1..] == digits[3..] && digits[3..][1..] == digits[4..];
    assert SkipSpace(digits) == "+5";
    assert "+5"[1..] == "5" && Scan("5", 0) == (5, "");
    assert Strtoul(digits) == (5, "");
    FormatParse("si0    +5");
  }
}
