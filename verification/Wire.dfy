/**
 Frames on the wire: the printer (internal/protocol/wire.go), the length-prefixed reader
 (internal/broker/framing.go) and the reader of message sections (internal/broker/handlers.go).
 Commands and metadata are opaque bytes; whether they decode as protobuf is a parameter.
 */
module Wire {
  import opened Basics
  import opened Checksums

  const WORD: int := 0x1_0000_0000

  const MAGIC: Bytes := [0x0e, 0x01]

  // ---------- four-byte numbers ----------

  function Byte(n: nat): bv8
    requires n < 256
  {
    n as bv8
  }

  function Value(b: bv8): nat {
    b as nat
  }

  /** A length as uint32, most significant byte first; what does not fit is cut off. */
  function Size32(n: nat): (b: Bytes)
    ensures |b| == 4
  {
    [Byte(n / 0x100_0000 % 256), Byte(n / 0x1_0000 % 256), Byte(n / 0x100 % 256), Byte(n % 256)]
  }

  function ReadSize(b: Bytes): nat
    requires |b| == 4
  {
    Value(b[0]) * 0x100_0000 + Value(b[1]) * 0x1_0000 + Value(b[2]) * 0x100 + Value(b[3])
  }

  lemma NextByte(b: bv8)
    requires b != 255
    ensures Value(b + 1) == Value(b) + 1
  {
  }

  lemma {:induction false} EveryByte(n: nat) returns (b: bv8)
    requires n < 256
    ensures Value(b) == n
  {
    b := 0;
    if n == 0 {
    } else {
      b := EveryByte(n - 1);
      NextByte(b);
      b := b + 1;
    }
  }

  lemma ValueOfByte(n: nat)
    requires n < 256
    ensures Value(Byte(n)) == n
  {
    hide Byte, Value;
    var b := EveryByte(n);
    ByteOfValue(b);
  }

  lemma ByteOfValue(b: bv8)
    ensures Value(b) < 256 && Byte(Value(b)) == b
  {
  }

  lemma DigitsOf(n: nat)
    requires n < WORD
    ensures (n / 0x100_0000 % 256) * 0x100_0000 + (n / 0x1_0000 % 256) * 0x1_0000
          + (n / 0x100 % 256) * 0x100 + n % 256 == n
  {
  }

  lemma NumberOf(a: nat, b: nat, c: nat, d: nat)
    requires a < 256 && b < 256 && c < 256 && d < 256
    ensures var n := a * 0x100_0000 + b * 0x1_0000 + c * 0x100 + d;
      n < WORD && n / 0x100_0000 % 256 == a && n / 0x1_0000 % 256 == b && n / 0x100 % 256 == c && n % 256 == d
  {
    var n := a * 0x100_0000 + b * 0x1_0000 + c * 0x100 + d;
    DivisionUnique(n, a, b * 0x1_0000 + c * 0x100 + d, 0x100_0000);
    DivisionUnique(n, a * 0x100 + b, c * 0x100 + d, 0x1_0000);
    DivisionUnique(n, a * 0x1_0000 + b * 0x100 + c, d, 0x100);
    DivisionUnique(a, 0, a, 256);
    DivisionUnique(a * 0x100 + b, a, b, 256);
    DivisionUnique(a * 0x1_0000 + b * 0x100 + c, a * 0x100 + b, c, 256);
  }

  lemma ReadDigits(a: nat, b: nat, c: nat, d: nat)
    requires a < 256 && b < 256 && c < 256 && d < 256
    ensures ReadSize([Byte(a), Byte(b), Byte(c), Byte(d)]) == a * 0x100_0000 + b * 0x1_0000 + c * 0x100 + d
  {
    hide Byte, Value;
    ValueOfByte(a);
    ValueOfByte(b);
    ValueOfByte(c);
    ValueOfByte(d);
  }

  lemma SizeRoundTrip(n: nat)
    requires n < WORD
    ensures ReadSize(Size32(n)) == n
  {
    hide Byte, Value, ReadSize;
    ReadDigits(n / 0x100_0000 % 256, n / 0x1_0000 % 256, n / 0x100 % 256, n % 256);
    DigitsOf(n);
  }

  lemma SizeOfBytes(b: Bytes)
    requires |b| == 4
    ensures ReadSize(b) < WORD && Size32(ReadSize(b)) == b
  {
    hide Byte, Value;
    ByteOfValue(b[0]);
    ByteOfValue(b[1]);
    ByteOfValue(b[2]);
    ByteOfValue(b[3]);
    NumberOf(Value(b[0]), Value(b[1]), Value(b[2]), Value(b[3]));
  }

  predicate BigEndian(b: Bytes, n: int) {
    |b| == 4 && (b[0] as int) * 0x100_0000 + (b[1] as int) * 0x1_0000 + (b[2] as int) * 0x100 + (b[3] as int) == n
  }

  lemma SizeIsBigEndian(n: nat)
    requires n < 0x1_0000_0000
    ensures BigEndian(Size32(n), n)
  {
    SizeRoundTrip(n);
    hide Size32;
  }

  function Word32(c: bv32): (b: Bytes)
    ensures |b| == 4
  {
    [((c >> 24) & 0xFF) as bv8, ((c >> 16) & 0xFF) as bv8, ((c >> 8) & 0xFF) as bv8, (c & 0xFF) as bv8]
  }

  function ReadWord(b: Bytes): bv32
    requires |b| == 4
  {
    ((b[0] as bv32) << 24) | ((b[1] as bv32) << 16) | ((b[2] as bv32) << 8) | (b[3] as bv32)
  }

  lemma WordRoundTrip(c: bv32)
    ensures ReadWord(Word32(c)) == c
  {
  }

  lemma WordOfBytes(b: Bytes)
    requires |b| == 4
    ensures Word32(ReadWord(b)) == b
  {
  }

  lemma WordIsBigEndian(c: bv32)
    ensures var w := Word32(c);
      && w[0] as bv32 == c >> 24 && w[1] as bv32 == (c >> 16) & 0xff
      && w[2] as bv32 == (c >> 8) & 0xff && w[3] as bv32 == c & 0xff
  {
  }

  // ---------- frames ----------

  /** A frame is the length of all that follows, the length of the command, the command and the rest. */
  lemma FrameHeader(command: Bytes, rest: Bytes)
    requires 4 + |command| + |rest| < 0x1_0000_0000
    ensures var f := FrameBytes(command, rest);
      && |f| == 8 + |command| + |rest|
      && BigEndian(f[..4], 4 + |command| + |rest|) && BigEndian(f[4..8], |command|)
      && f[8..] == command + rest
  {
    SizeIsBigEndian(4 + |command| + |rest|);
    SizeIsBigEndian(|command|);
    hide Size32, BigEndian;
    FourPieces(Size32(4 + |command| + |rest|), Size32(|command|), command, rest);
  }

  lemma FourPieces(a: Bytes, b: Bytes, c: Bytes, d: Bytes)
    requires |a| == |b| == 4
    ensures var f := a + b + c + d;
      |f| == 8 + |c| + |d| && f[..4] == a && f[4..8] == b && f[8..] == c + d
  {
  }

  /** A command and whatever follows it, behind their two lengths. */
  function FrameBytes(command: Bytes, rest: Bytes): Bytes {
    Size32(4 + |command| + |rest|) + Size32(|command|) + command + rest
  }

  datatype Frame = Frame(command: Bytes, rest: Bytes)

  datatype FrameError = EndOfStream | CutOff | SizeZero | TooBig | NoCommandSize | BadCommandSize

  /** What a read of n bytes that the stream cannot satisfy fails with; it uses the stream up. */
  function ShortRead(s: Bytes): FrameError {
    if s == [] then EndOfStream else CutOff
  }

  /** The frame reader: its outcome, and what is left of the stream. */
  function ReadFrame(s: Bytes, max: nat): (Result<Frame, FrameError>, Bytes) {
    if |s| < 4 then (Failure(ShortRead(s)), [])
    else
      var size := ReadSize(s[..4]);
      var body := s[4..];
      if size == 0 then (Failure(SizeZero), body)
      else if size > max then (Failure(TooBig), body)
      else if |body| < size then (Failure(ShortRead(body)), [])
      else (SplitFrame(body[..size]), body[size..])
  }

  function SplitFrame(frame: Bytes): Result<Frame, FrameError> {
    if |frame| < 4 then Failure(NoCommandSize)
    else
      var size := ReadSize(frame[..4]);
      var rest := frame[4..];
      if size == 0 || size > |rest| then Failure(BadCommandSize)
      else Success(Frame(rest[..size], rest[size..]))
  }

  lemma JoinedParts(a: Bytes, b: Bytes, c: Bytes)
    ensures (a + b + c)[..|a|] == a && (a + b + c)[|a|..] == b + c
    ensures (b + c)[..|b|] == b && (b + c)[|b|..] == c
  {
  }

  /** A frame's contents split into exactly the command and rest they were joined from. */
  lemma SplitExactly(frame: Bytes, command: Bytes, rest: Bytes)
    requires |frame| < WORD
    ensures SplitFrame(frame) == Success(Frame(command, rest))
       <==> command != [] && frame == Size32(|command|) + command + rest
  {
    hide Size32, ReadSize;
    if command != [] && frame == Size32(|command|) + command + rest {
      SizeRoundTrip(|command|);
      JoinedParts(Size32(|command|), command, rest);
    }
    if SplitFrame(frame) == Success(Frame(command, rest)) {
      SizeOfBytes(frame[..4]);
      assert frame == frame[..4] + frame[4..];
      assert frame[4..] == command + rest;
    }
  }

  lemma PrintedFrameIsRead(max: nat, command: Bytes, rest: Bytes, left: Bytes)
    requires max < WORD && command != [] && 4 + |command| + |rest| <= max
    ensures ReadFrame(FrameBytes(command, rest) + left, max) == (Success(Frame(command, rest)), left)
  {
    hide Size32, ReadSize, SplitFrame;
    var inner := Size32(|command|) + command + rest;
    SizeRoundTrip(|inner|);
    assert FrameBytes(command, rest) + left == Size32(|inner|) + inner + left;
    JoinedParts(Size32(|inner|), inner, left);
    SplitExactly(inner, command, rest);
  }

  lemma ReadFrameIsPrinted(s: Bytes, max: nat, command: Bytes, rest: Bytes, left: Bytes)
    requires max < WORD && ReadFrame(s, max) == (Success(Frame(command, rest)), left)
    ensures command != [] && 4 + |command| + |rest| <= max && s == FrameBytes(command, rest) + left
  {
    hide Size32, ReadSize, SplitFrame;
    var inner := Size32(|command|) + command + rest;
    var size := ReadSize(s[..4]);
    var body := s[4..];
    SizeOfBytes(s[..4]);
    SplitExactly(body[..size], command, rest);
    assert body == body[..size] + body[size..];
    assert s == s[..4] + body;
    assert s == Size32(|inner|) + inner + left;
  }

  /** A frame that is cut off is an error, except right at its start or right after its length. */
  lemma CutFrameAnswer(command: Bytes, rest: Bytes, k: nat, max: nat)
    requires max < WORD && 4 + |command| + |rest| <= max && k < 8 + |command| + |rest|
    ensures |FrameBytes(command, rest)| == 8 + |command| + |rest|
    ensures ReadFrame(FrameBytes(command, rest)[..k], max).0
         == Failure(if k == 0 || k == 4 then EndOfStream else CutOff)
  {
    var size := 4 + |command| + |rest|;
    SizeRoundTrip(size);
    FourPieces(Size32(size), Size32(|command|), command, rest);
    hide Size32, ReadSize, ReadFrame;
    CutRead(FrameBytes(command, rest), k, max);
  }

  lemma CutRead(s: Bytes, k: nat, max: nat)
    requires |s| >= 4 && k < |s| && ReadSize(s[..4]) == |s| - 4 && 0 < |s| - 4 <= max
    ensures ReadFrame(s[..k], max).0 == Failure(if k == 0 || k == 4 then EndOfStream else CutOff)
  {
    hide ReadSize;
    if k >= 4 { assert s[..k][..4] == s[..4]; }
  }

  /** What a frame within the limit is answered with, by its two lengths. */
  lemma FrameAnswer(size: nat, body: Bytes, left: Bytes, max: nat)
    requires max < WORD && |body| == size <= max
    ensures ReadFrame(Size32(size) + body + left, max) ==
      (if size == 0 then Failure(SizeZero) else SplitFrame(body), left)
    ensures |body| < 4 ==> SplitFrame(body) == Failure(NoCommandSize)
    ensures |body| >= 4 && (ReadSize(body[..4]) == 0 || ReadSize(body[..4]) > size - 4) ==>
      SplitFrame(body) == Failure(BadCommandSize)
  {
    SizeRoundTrip(size);
    JoinedParts(Size32(size), body, left);
    hide Size32, ReadSize;
    if size == 0 { assert body == [] && body + left == left; }
  }

  /**
   Reading inverts printing, both ways: the reader accepts a frame exactly when the stream starts
   with that frame's printed form, its command is not empty and it is within the size limit.
   */
  lemma ReadExactly(s: Bytes, max: nat, command: Bytes, rest: Bytes, left: Bytes)
    requires max < WORD
    ensures ReadFrame(s, max) == (Success(Frame(command, rest)), left)
       <==> command != [] && 4 + |command| + |rest| <= max && s == FrameBytes(command, rest) + left
  {
    hide ReadFrame, FrameBytes;
    if command != [] && 4 + |command| + |rest| <= max { PrintedFrameIsRead(max, command, rest, left); }
    if ReadFrame(s, max) == (Success(Frame(command, rest)), left) { ReadFrameIsPrinted(s, max, command, rest, left); }
  }

  /** Of frames below four gigabytes the reader rejects what is over its limit, and what has no command. */
  lemma OversizedIsRejected(command: Bytes, rest: Bytes, max: nat, left: Bytes)
    requires 4 + |command| + |rest| < WORD
    ensures var r := ReadFrame(FrameBytes(command, rest) + left, max).0;
      && (4 + |command| + |rest| > max ==> r == Failure(TooBig))
      && (4 + |command| + |rest| <= max && command == [] ==> r == Failure(BadCommandSize))
  {
    hide Size32, ReadSize;
    var inner := Size32(|command|) + command + rest;
    SizeRoundTrip(|inner|);
    SizeRoundTrip(|command|);
    assert FrameBytes(command, rest) + left == Size32(|inner|) + inner + left;
    JoinedParts(Size32(|inner|), inner, left);
    JoinedParts(Size32(|command|), command, rest);
  }

  // ---------- message sections ----------

  /** What the checksum covers. */
  function Covered(meta: Bytes, payload: Bytes): Bytes {
    Size32(|meta|) + meta + payload
  }

  function Section(meta: Bytes, payload: Bytes): Bytes {
    MAGIC + Word32(Checksum(Covered(meta, payload))) + Covered(meta, payload)
  }

  datatype SectionError =
    | NoFrame | ShortMagic | BadMagic | ShortChecksum | ShortMetaSize | BadMetaSize | BadMeta | TooLarge | Mismatch

  datatype Content = Content(meta: Bytes, payload: Bytes)

  /** The section reader; a limit of zero or less is none, and decodes tells which metadata is well formed. */
  function ReadSection(s: Bytes, maxPayload: int, decodes: Bytes -> bool): Result<Content, SectionError> {
    if s == [] then Failure(NoFrame)
    else if |s| < 2 then Failure(ShortMagic)
    else if s[..2] != MAGIC then Failure(BadMagic)
    else if |s| < 6 then Failure(ShortChecksum)
    else if |s| < 10 then Failure(ShortMetaSize)
    else
      var size := ReadSize(s[6..10]);
      var rest := s[10..];
      if size == 0 || size > |rest| then Failure(BadMetaSize)
      else
        var meta, payload := rest[..size], rest[size..];
        if !decodes(meta) then Failure(BadMeta)
        else if maxPayload > 0 && |payload| > maxPayload then Failure(TooLarge)
        else if ReadWord(s[2..6]) != Checksum(s[6..10] + meta + payload) then Failure(Mismatch)
        else Success(Content(meta, payload))
  }

  predicate Acceptable(meta: Bytes, payload: Bytes, maxPayload: int, decodes: Bytes -> bool) {
    0 < |meta| < WORD && decodes(meta) && (maxPayload <= 0 || |payload| <= maxPayload)
  }

  lemma SectionParts(meta: Bytes, payload: Bytes)
    ensures var s := Section(meta, payload);
      && |s| >= 10 && s[..2] == MAGIC && s[2..6] == Word32(Checksum(Covered(meta, payload)))
      && s[6..] == Covered(meta, payload) && s[6..10] == Size32(|meta|) && s[10..] == meta + payload
  {
  }

  /** The first ten bytes of a section as numbers: the magic, the checksum and the metadata's length, all big-endian. */
  lemma SectionHeader(meta: Bytes, payload: Bytes)
    requires |meta| < 0x1_0000_0000
    ensures var s := Section(meta, payload);
            var sum := Checksum(s[6..]);
      && |s| == 10 + |meta| + |payload| && s[0] == 0x0e && s[1] == 0x01
      && s[2] as bv32 == sum >> 24 && s[3] as bv32 == (sum >> 16) & 0xff
      && s[4] as bv32 == (sum >> 8) & 0xff && s[5] as bv32 == sum & 0xff
      && BigEndian(s[6..10], |meta|) && s[10..] == meta + payload
  {
    SectionParts(meta, payload);
    SizeIsBigEndian(|meta|);
    hide Checksum;
    var s := Section(meta, payload);
    assert s[..2][0] == s[0] && s[..2][1] == s[1];
    var w := s[2..6];
    assert w[0] == s[2] && w[1] == s[3] && w[2] == s[4] && w[3] == s[5];
    WordIsBigEndian(Checksum(s[6..]));
  }

  lemma PrintedIsRead(maxPayload: int, decodes: Bytes -> bool, meta: Bytes, payload: Bytes)
    requires Acceptable(meta, payload, maxPayload, decodes)
    ensures ReadSection(Section(meta, payload), maxPayload, decodes) == Success(Content(meta, payload))
  {
    SectionParts(meta, payload);
    SizeRoundTrip(|meta|);
    JoinedParts([], meta, payload);
    WordRoundTrip(Checksum(Covered(meta, payload)));
    hide Size32, ReadSize, Word32, ReadWord, Checksum, Section;
    assert Section(meta, payload) != [];
  }

  lemma ReadIsPrinted(s: Bytes, maxPayload: int, decodes: Bytes -> bool, meta: Bytes, payload: Bytes)
    requires ReadSection(s, maxPayload, decodes) == Success(Content(meta, payload))
    ensures Acceptable(meta, payload, maxPayload, decodes) && s == Section(meta, payload)
  {
    hide Size32, ReadSize, Word32, ReadWord, Checksum;
    SizeOfBytes(s[6..10]);
    WordOfBytes(s[2..6]);
    assert s == s[..2] + s[2..6] + s[6..10] + s[10..];
    assert s[10..] == meta + payload;
    assert Covered(meta, payload) == s[6..10] + meta + payload;
  }

  /** Reading inverts printing for message sections, both ways. */
  lemma ReadSectionExactly(s: Bytes, maxPayload: int, decodes: Bytes -> bool, meta: Bytes, payload: Bytes)
    ensures ReadSection(s, maxPayload, decodes) == Success(Content(meta, payload))
       <==> 0 < |meta| < 0x1_0000_0000 && decodes(meta) && (maxPayload <= 0 || |payload| <= maxPayload)
            && s == Section(meta, payload)
  {
    hide ReadSection, Section;
    if Acceptable(meta, payload, maxPayload, decodes) { PrintedIsRead(maxPayload, decodes, meta, payload); }
    if ReadSection(s, maxPayload, decodes) == Success(Content(meta, payload)) {
      ReadIsPrinted(s, maxPayload, decodes, meta, payload);
    }
  }

  /** What a section with a correct size is answered with: the first thing wrong with it, in this order. */
  lemma SectionAnswer(magic: Bytes, sum: Bytes, meta: Bytes, payload: Bytes, maxPayload: int, decodes: Bytes -> bool)
    requires |magic| == 2 && |sum| == 4 && |meta| < 0x1_0000_0000
    ensures ReadSection(magic + sum + Size32(|meta|) + meta + payload, maxPayload, decodes) ==
      if magic != [0x0e, 0x01] then Failure(BadMagic)
      else if meta == [] then Failure(BadMetaSize)
      else if !decodes(meta) then Failure(BadMeta)
      else if maxPayload > 0 && |payload| > maxPayload then Failure(TooLarge)
      else if ReadWord(sum) != Checksum(Size32(|meta|) + meta + payload) then Failure(Mismatch)
      else Success(Content(meta, payload))
  {
    SizeRoundTrip(|meta|);
    SectionPieces(magic, sum, Size32(|meta|), meta, payload);
    JoinedParts([], meta, payload);
    hide Size32, ReadSize, ReadWord, Checksum;
  }

  lemma SectionPieces(a: Bytes, b: Bytes, c: Bytes, d: Bytes, e: Bytes)
    requires |a| == 2 && |b| == |c| == 4
    ensures var s := a + b + c + d + e;
      |s| >= 10 && s[..2] == a && s[2..6] == b && s[6..10] == c && s[10..] == d + e
  {
  }

  /** A section cut off before the end of its metadata is refused for the part that is missing. */
  lemma CutSectionAnswer(meta: Bytes, payload: Bytes, k: nat, maxPayload: int, decodes: Bytes -> bool)
    requires |meta| < 0x1_0000_0000 && k < 10 + |meta|
    ensures |Section(meta, payload)| >= 10 + |meta|
    ensures ReadSection(Section(meta, payload)[..k], maxPayload, decodes) == Failure(
      if k == 0 then NoFrame else if k == 1 then ShortMagic else if k < 6 then ShortChecksum
      else if k < 10 then ShortMetaSize else BadMetaSize)
  {
    SectionParts(meta, payload);
    SizeRoundTrip(|meta|);
    hide Size32, ReadSize, Word32, Checksum, Section;
    var s, t := Section(meta, payload), Section(meta, payload)[..k];
    assert |s| == 10 + |s[10..]|;
    if k >= 2 { assert t[..2] == s[..2]; }
    if k >= 10 { assert t[6..10] == s[6..10]; }
  }

  /** However the size field splits it, the receiver sums up everything after the stored checksum. */
  lemma AcceptedSum(s: Bytes, maxPayload: int, decodes: Bytes -> bool)
    requires ReadSection(s, maxPayload, decodes).Success?
    ensures |s| >= 10 && s[..2] == MAGIC && ReadWord(s[2..6]) == Checksum(s[6..])
  {
    hide ReadSize, ReadWord, Checksum;
    var size := ReadSize(s[6..10]);
    var rest := s[10..];
    assert s[6..10] + rest[..size] + rest[size..] == s[6..];
  }

  /** A section whose stored checksum is the sum of what follows, behind the magic number. */
  ghost predicate Sealed(s: Bytes) {
    |s| >= 10 && s[..2] == MAGIC && s[2..6] == Word32(Checksum(s[6..]))
  }

  lemma SectionSealed(meta: Bytes, payload: Bytes)
    ensures Sealed(Section(meta, payload))
  {
    SectionParts(meta, payload);
  }

  lemma AcceptedSealed(s: Bytes, maxPayload: int, decodes: Bytes -> bool)
    requires ReadSection(s, maxPayload, decodes).Success?
    ensures Sealed(s)
  {
    AcceptedSum(s, maxPayload, decodes);
    WordOfBytes(s[2..6]);
  }

  lemma DamagedBehind(a: Bytes, w: Bytes, v: Bytes, b: Bytes)
    requires |w| == |v| <= 4 && w != v && |a| >= 6 && Sealed(a + w + b)
    ensures !Sealed(a + v + b)
  {
    hide Word32, Checksum;
    var s, t := a + w + b, a + v + b;
    assert s[6..] == a[6..] + w + b && t[6..] == a[6..] + v + b;
    assert s[2..6] == a[2..6] && t[2..6] == a[2..6];
    BurstChangesChecksum(a[6..], w, v, b);
    WordRoundTrip(Checksum(s[6..]));
    WordRoundTrip(Checksum(t[6..]));
  }

  lemma SealedByTail(s: Bytes, t: Bytes)
    requires Sealed(s) && Sealed(t) && s[6..] == t[6..]
    ensures s == t
  {
    hide Word32, Checksum;
    assert s == s[..2] + s[2..6] + s[6..] && t == t[..2] + t[2..6] + t[6..];
  }

  lemma DamagedBefore(a: Bytes, w: Bytes, v: Bytes, b: Bytes)
    requires |w| == |v| && w != v && |a| + |w| <= 6 && Sealed(a + w + b)
    ensures !Sealed(a + v + b)
  {
    hide Word32, Checksum;
    var s, t := a + w + b, a + v + b;
    assert s[|a|..|a| + |w|] == w && t[|a|..|a| + |w|] == v;
    assert s[6..] == t[6..];
    if Sealed(t) { SealedByTail(s, t); }
  }

  /**
   Damage confined to four adjacent bytes, all in front of the checksummed part or all in it, makes
   the receiver reject a section: whatever it does to the sizes, and whatever metadata decodes.
   */
  lemma DamageIsRejected(meta: Bytes, payload: Bytes, a: Bytes, w: Bytes, v: Bytes, b: Bytes,
                         maxPayload: int, decodes: Bytes -> bool)
    requires Section(meta, payload) == a + w + b && |w| == |v| <= 4 && w != v
    requires |a| >= 6 || |a| + |w| <= 6
    ensures ReadSection(a + v + b, maxPayload, decodes).Failure?
  {
    hide Section, ReadSection, Sealed;
    SectionSealed(meta, payload);
    if |a| >= 6 { DamagedBehind(a, w, v, b); } else { DamagedBefore(a, w, v, b); }
    if ReadSection(a + v + b, maxPayload, decodes).Success? { AcceptedSealed(a + v + b, maxPayload, decodes); }
  }

  /** How long the rest of a section may be for a window of damage to be detected wherever it lies. */
  function Reach(window: nat): nat {
    if window <= 2 then 0x100_0000 else if window == 3 then 0x1_0000 else 0x100
  }

  lemma LeadingZeroes(n: nat, j: nat)
    requires 1 <= j <= 3 && n < Reach(j + 1)
    ensures forall i | 0 <= i < j :: Size32(n)[i] == 0
  {
    DivisionUnique(n, 0, n, 0x100_0000);
    if j >= 2 { DivisionUnique(n, 0, n, 0x1_0000); }
    if j == 3 { DivisionUnique(n, 0, n, 0x100); }
  }

  lemma NonZeroByte(b: bv8)
    requires b != 0
    ensures Value(b) >= 1
  {
  }

  lemma LeadingByteCounts(b: Bytes, j: nat, i: nat)
    requires |b| == 4 && 1 <= j <= 3 && i < j && b[i] != 0
    ensures ReadSize(b) >= Reach(j + 1)
  {
    hide Value;
    NonZeroByte(b[i]);
  }

  /** Damage reaching from the stored checksum into the size: a size byte that was zero makes the size too big. */
  lemma DamageAcross(meta: Bytes, payload: Bytes, a: Bytes, w1: Bytes, w2: Bytes, v1: Bytes, v2: Bytes, b: Bytes,
                     maxPayload: int, decodes: Bytes -> bool)
    requires Section(meta, payload) == a + w1 + (w2 + b) && |a| + |w1| == 6
    requires |w1| == |v1| && |w2| == |v2| && 1 <= |w2| <= 3 && w2 != v2
    requires |meta| + |payload| < Reach(|w2| + 1)
    ensures ReadSection(a + v1 + (v2 + b), maxPayload, decodes).Failure?
  {
    var s, t, j := Section(meta, payload), a + v1 + (v2 + b), |w2|;
    SectionParts(meta, payload);
    LeadingZeroes(|meta|, j);
    hide Size32, ReadSize, Section, Word32, Checksum, ReadWord;
    assert s[6..] == w2 + b && t[6..] == v2 + b;
    assert forall i | 0 <= i < j :: w2[i] == s[6..10][i];
    var i :| 0 <= i < j && v2[i] != w2[i];
    assert t[6..10][i] == v2[i];
    LeadingByteCounts(t[6..10], j, i);
    assert |t| == |s|;
  }

  /**
   In a section that is short enough, damage confined to up to four adjacent bytes is rejected
   wherever it lies: two bytes below sixteen megabytes, three below 64 kilobytes, four below 256.
   */
  lemma DamageAnywhereIsRejected(meta: Bytes, payload: Bytes, a: Bytes, w: Bytes, v: Bytes, b: Bytes,
                                 maxPayload: int, decodes: Bytes -> bool)
    requires Section(meta, payload) == a + w + b && |w| == |v| <= 4 && w != v
    requires |meta| + |payload| < Reach(|w|)
    ensures ReadSection(a + v + b, maxPayload, decodes).Failure?
  {
    hide ReadSection, Section;
    if |a| >= 6 || |a| + |w| <= 6 {
      DamageIsRejected(meta, payload, a, w, v, b, maxPayload, decodes);
    } else {
      var cut := 6 - |a|;
      var w1, w2, v1, v2 := w[..cut], w[cut..], v[..cut], v[cut..];
      assert w == w1 + w2 && v == v1 + v2;
      assert a + w + b == a + w1 + (w2 + b) && a + v + b == a + v1 + (v2 + b);
      if w2 == v2 {
        DamageIsRejected(meta, payload, a, w1, v1, w2 + b, maxPayload, decodes);
      } else {
        DamageAcross(meta, payload, a, w1, w2, v1, v2, b, maxPayload, decodes);
      }
    }
  }

  /** Any single changed byte is rejected, wherever it lies: magic, checksum, metadata size, metadata or payload. */
  lemma OneByteIsRejected(meta: Bytes, payload: Bytes, k: nat, x: bv8, maxPayload: int, decodes: Bytes -> bool)
    requires k < |Section(meta, payload)| && x != Section(meta, payload)[k]
    ensures ReadSection(Section(meta, payload)[k := x], maxPayload, decodes).Failure?
  {
    hide ReadSection, Section;
    var s := Section(meta, payload);
    assert s == s[..k] + [s[k]] + s[k + 1..] && s[k := x] == s[..k] + [x] + s[k + 1..];
    DamageIsRejected(meta, payload, s[..k], [s[k]], [x], s[k + 1..], maxPayload, decodes);
  }

  // ---------- streams ----------

  /** A connection's frames up to the first error, and that error. */
  function ReadStream(s: Bytes, max: nat): (seq<Frame>, FrameError)
    decreases |s|
  {
    var (r, left) := ReadFrame(s, max);
    match r
    case Failure(e) => ([], e)
    case Success(f) =>
      var (more, e) := ReadStream(left, max);
      ([f] + more, e)
  }

  function PrintFrames(frames: seq<Frame>): Bytes {
    if frames == [] then [] else FrameBytes(frames[0].command, frames[0].rest) + PrintFrames(frames[1..])
  }

  predicate Readable(f: Frame, max: nat) {
    f.command != [] && 4 + |f.command| + |f.rest| <= max
  }

  /** What the reader takes for the end of the stream: no more bytes, or only the length of a frame that never came. */
  predicate AtEnd(s: Bytes, max: nat) {
    s == [] || (|s| == 4 && 0 < ReadSize(s) <= max)
  }

  lemma EndExactly(s: Bytes, max: nat)
    ensures ReadFrame(s, max).0 == Failure(EndOfStream) <==> AtEnd(s, max)
  {
    hide ReadSize;
    if |s| == 4 { assert s[..4] == s; }
  }

  /** A stream cut off right after a length reads as an orderly end, though a frame was announced. */
  lemma BareLengthIsAnEnd(max: nat)
    requires 1 <= max < WORD
    ensures ReadStream([0, 0, 0, 1], max) == ([], EndOfStream) && PrintFrames([]) != [0, 0, 0, 1]
  {
    ZeroAndOne();
    hide Value;
    EndExactly([0, 0, 0, 1], max);
  }

  lemma ZeroAndOne()
    ensures Value(0) == 0 && Value(1) == 1
  {
  }

  /** The stream starts with the printed frames and then, for the reader, ends. */
  predicate Printed(s: Bytes, max: nat, frames: seq<Frame>) {
    PrintFrames(frames) <= s && AtEnd(s[|PrintFrames(frames)|..], max)
  }

  lemma PrintedStep(s: Bytes, max: nat, frames: seq<Frame>)
    requires frames != []
    ensures var first := FrameBytes(frames[0].command, frames[0].rest);
      Printed(s, max, frames) <==> first <= s && Printed(s[|first|..], max, frames[1..])
  {
    hide FrameBytes, AtEnd;
    var first, more := FrameBytes(frames[0].command, frames[0].rest), PrintFrames(frames[1..]);
    assert PrintFrames(frames) == first + more;
    if first <= s {
      assert s == first + s[|first|..];
      assert s[|first|..][..] == s[|first|..];
      if more <= s[|first|..] { assert s[|first|..][|more|..] == s[|first + more|..]; }
      if first + more <= s {
        assert s[|first|..] == more + s[|first + more|..];
      }
    }
  }

  /**
   Reading a stream returns these frames, in order, and then an end of stream, exactly when the
   frames are readable, the stream is their printed forms one after another, and nothing is left
   over but at most the bare length of one more frame.
   */
  lemma {:induction false} StreamExactly(s: Bytes, max: nat, frames: seq<Frame>)
    requires max < WORD
    ensures ReadStream(s, max) == (frames, EndOfStream)
       <==> (forall f | f in frames :: Readable(f, max)) && Printed(s, max, frames)
    decreases |frames|
  {
    hide FrameBytes, ReadFrame, AtEnd;
    if frames == [] {
      EndExactly(s, max);
      assert s[|PrintFrames(frames)|..] == s;
    } else {
      var f := frames[0];
      var first := FrameBytes(f.command, f.rest);
      forall g ensures g in frames <==> g == f || g in frames[1..] { assert frames == [f] + frames[1..]; }
      PrintedStep(s, max, frames);
      if first <= s && Readable(f, max) {
        var left := s[|first|..];
        assert s == first + left;
        ReadExactly(s, max, f.command, f.rest, left);
        StreamExactly(left, max, frames[1..]);
        assert ([f] + ReadStream(left, max).0)[1..] == ReadStream(left, max).0;
        assert [f] + frames[1..] == frames;
      }
      if ReadStream(s, max) == (frames, EndOfStream) {
        var (r, left) := ReadFrame(s, max);
        assert ([r.value] + ReadStream(left, max).0)[0] == r.value;
        ReadExactly(s, max, f.command, f.rest, left);
      }
    }
  }

  /** What the two printers put on a connection. */
  datatype Item = Command(command: Bytes) | Message(command: Bytes, meta: Bytes, payload: Bytes)

  function FrameOf(item: Item): Frame {
    match item
    case Command(command) => Frame(command, [])
    case Message(command, meta, payload) => Frame(command, Section(meta, payload))
  }

  function FramesOf(items: seq<Item>): seq<Frame> {
    seq(|items|, i requires 0 <= i < |items| => FrameOf(items[i]))
  }

  /** Any concatenation of printed commands and messages is read back whole, in order, with nothing remaining. */
  lemma StreamRoundTrip(items: seq<Item>, max: nat, maxPayload: int, decodes: Bytes -> bool)
    requires max < WORD && forall item | item in items :: Readable(FrameOf(item), max)
    requires forall item | item in items && item.Message? :: Acceptable(item.meta, item.payload, maxPayload, decodes)
    ensures var (frames, e) := ReadStream(PrintFrames(FramesOf(items)), max);
      && e == EndOfStream && |frames| == |items|
      && forall i | 0 <= i < |items| ::
           && frames[i].command == items[i].command
           && (items[i].Command? ==> frames[i].rest == [])
           && (items[i].Message? ==>
                 ReadSection(frames[i].rest, maxPayload, decodes) == Success(Content(items[i].meta, items[i].payload)))
  {
    hide Section, ReadSection, PrintFrames, ReadStream, Acceptable;
    var frames := FramesOf(items);
    forall f | f in frames ensures Readable(f, max) {
      var i :| 0 <= i < |frames| && frames[i] == f;
      assert items[i] in items;
    }
    StreamExactly(PrintFrames(frames), max, frames);
    assert PrintFrames(frames)[|PrintFrames(frames)|..] == [];
    forall i | 0 <= i < |items| && items[i].Message?
      ensures ReadSection(frames[i].rest, maxPayload, decodes) == Success(Content(items[i].meta, items[i].payload))
    {
      assert items[i] in items;
      PrintedIsRead(maxPayload, decodes, items[i].meta, items[i].payload);
    }
  }

  // ---------- the printer and the readers, step by step ----------

  class Buffer {
    var data: Bytes

    constructor ()
      ensures data == []
    {
      data := [];
    }

    method Write(p: Bytes)
      modifies this
      ensures data == old(data) + p
    {
      data := data + p;
    }
  }

  /** One write to the connection per frame. */
  method WriteSimpleCommand(w: Buffer, command: Bytes)
    modifies w
    ensures w.data == old(w.data) + FrameBytes(command, [])
  {
    hide Size32;
    var buf := new Buffer();
    buf.Write(Size32(4 + |command|));
    buf.Write(Size32(|command|));
    buf.Write(command);
    w.Write(buf.data);
  }

  method SumSection(sizeBuf: Bytes, meta: Bytes, payload: Bytes) returns (sum: bv32)
    ensures sum == Checksum(sizeBuf + meta + payload)
  {
    var crc := new Hasher();
    crc.Write(sizeBuf);
    crc.Write(meta);
    crc.Write(payload);
    sum := crc.sum;
    assert [] + sizeBuf + meta + payload == sizeBuf + meta + payload;
  }

  method WriteMessageFrame(w: Buffer, command: Bytes, meta: Bytes, payload: Bytes)
    modifies w
    ensures w.data == old(w.data) + FrameBytes(command, Section(meta, payload))
  {
    hide Size32, Word32, Checksum;
    var sizeBuf := Size32(|meta|);
    var checksum := SumSection(sizeBuf, meta, payload);
    var buf := new Buffer();
    buf.Write(Size32(|command|));
    buf.Write(command);
    buf.Write(MAGIC);
    buf.Write(Word32(checksum));
    buf.Write(sizeBuf);
    buf.Write(meta);
    buf.Write(payload);
    var inner := buf.data;
    assert inner == Size32(|command|) + command + Section(meta, payload);
    var frame := new Buffer();
    frame.Write(Size32(|inner|));
    frame.Write(inner);
    w.Write(frame.data);
  }

  class Reader {
    var left: Bytes

    constructor (s: Bytes)
      ensures left == s
    {
      left := s;
    }

    /** io.ReadFull for a positive count: all of it, or an error and the stream is used up. */
    method ReadFull(n: nat) returns (ok: bool, p: Bytes, e: FrameError)
      modifies this
      ensures ok <==> |old(left)| >= n
      ensures ok ==> p == old(left)[..n] && left == old(left)[n..]
      ensures !ok ==> e == ShortRead(old(left)) && left == []
    {
      if |left| < n {
        e := ShortRead(left);
        ok, p, left := false, left, [];
      } else {
        ok, p, e := true, left[..n], EndOfStream;
        left := left[n..];
      }
    }
  }

  method HandleFrame(conn: Reader, max: nat) returns (r: Result<Frame, FrameError>)
    modifies conn
    ensures (r, conn.left) == ReadFrame(old(conn.left), max)
  {
    hide ReadSize;
    var ok, sizeBuf, e := conn.ReadFull(4);
    if !ok { return Failure(e); }
    var total := ReadSize(sizeBuf);
    if total == 0 { return Failure(SizeZero); }
    if total > max { return Failure(TooBig); }
    var frame;
    ok, frame, e := conn.ReadFull(total);
    if !ok { return Failure(e); }
    r := HandleCommand(frame);
  }

  method HandleCommand(frame: Bytes) returns (r: Result<Frame, FrameError>)
    ensures r == SplitFrame(frame)
  {
    hide ReadSize;
    var inner := new Reader(frame);
    var ok, sizeBuf, e := inner.ReadFull(4);
    if !ok { return Failure(NoCommandSize); }
    var size := ReadSize(sizeBuf);
    if size == 0 || size > |inner.left| { return Failure(BadCommandSize); }
    var command;
    ok, command, e := inner.ReadFull(size);
    r := Success(Frame(command, inner.left));
  }

  method HandleSection(section: Bytes, maxPayload: int, decodes: Bytes -> bool)
    returns (r: Result<Content, SectionError>)
    ensures r == ReadSection(section, maxPayload, decodes)
  {
    hide ReadSize, ReadWord, Checksum;
    if |section| == 0 { return Failure(NoFrame); }
    var inner := new Reader(section);
    var ok, magic, e := inner.ReadFull(2);
    if !ok { return Failure(ShortMagic); }
    if magic != MAGIC { return Failure(BadMagic); }
    var sumBuf, sizeBuf, meta;
    ok, sumBuf, e := inner.ReadFull(4);
    if !ok { return Failure(ShortChecksum); }
    ok, sizeBuf, e := inner.ReadFull(4);
    if !ok { return Failure(ShortMetaSize); }
    assert sumBuf == section[2..6] && sizeBuf == section[6..10] && inner.left == section[10..];
    var size := ReadSize(sizeBuf);
    if size == 0 || size > |inner.left| { return Failure(BadMetaSize); }
    ok, meta, e := inner.ReadFull(size);
    if !decodes(meta) { return Failure(BadMeta); }
    var payload := inner.left;
    if maxPayload > 0 && |payload| > maxPayload { return Failure(TooLarge); }
    var sum := SumSection(sizeBuf, meta, payload);
    if ReadWord(sumBuf) != sum { return Failure(Mismatch); }
    r := Success(Content(meta, payload));
  }
}
