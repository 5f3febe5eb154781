/**
 The transport-wide congestion control feedback message, as a receiver reads it
 (draft-holmer-rmcat-transport-wide-cc-extensions-01, section 3.1), and the pieces the
 sender writes.
 */
module TwccFormat {
  import opened Words

  // --- reader: draft section 3.1 ---

  /** Section 3.1.1: 0 not received, 1 small delta, 2 large or negative delta, 3 reserved. */
  type Symbol = x: int | 0 <= x < 4

  datatype Report = Report(
    senderSsrc: u32, mediaSsrc: u32, base: u16, count: u16, refTime: int, fbCount: u8,
    symbols: seq<Symbol>, deltas: seq<int>,
    leftover: nat) // octets after the last delta that the announced padding does not cover

  function Quad(k: nat): (q: int)
    requires k < 7
    ensures 0 < q
  {
    [1, 4, 0x10, 0x40, 0x100, 0x400, 0x1000][k]
  }

  /** Sections 3.1.2 to 3.1.4: run length, one-bit vector and two-bit vector chunks. */
  function ChunkSymbols(c: u16): seq<Symbol>
  {
    if c < 0x8000 then
      seq(c % 0x2000, _ => c / 0x2000)
    else if c < 0xC000 then
      seq(14, i requires 0 <= i < 14 => c / Pow2(13 - i) % 2)
    else
      [c / 0x1000 % 4, c / 0x400 % 4, c / 0x100 % 4, c / 0x40 % 4, c / 0x10 % 4, c / 4 % 4, c % 4]
  }

  /** Reads chunks until `need` symbols are known; symbols past `need` are padding. */
  function ReadSymbols(b: seq<u8>, need: nat): Option<(seq<Symbol>, seq<u8>)>
    decreases |b|
  {
    if need == 0 then Some(([], b))
    else if |b| < 2 then None
    else
      var syms := ChunkSymbols(Be16(b, 0));
      if need <= |syms| then Some((syms[..need], b[2..]))
      else
        match ReadSymbols(b[2..], need - |syms|)
        case Some((more, rest)) => Some((syms + more, rest))
        case None => None
  }

  function Signed16(x: u16): int { if x < 0x8000 then x else x - 0x1_0000 }

  /** Section 3.1.5: one unsigned octet for a small delta, two signed octets for a large one. */
  function ReadDeltas(b: seq<u8>, syms: seq<Symbol>): Option<(seq<int>, seq<u8>)>
    decreases |syms|
  {
    if syms == [] then Some(([], b))
    else if syms[0] == 0 then ReadDeltas(b, syms[1..])
    else
      var width := syms[0];
      if width == 3 || |b| < width then None
      else
        var d: int := if width == 1 then b[0] else Signed16(Be16(b, 0));
        match ReadDeltas(b[width..], syms[1..])
        case Some((more, rest)) => Some(([d] + more, rest))
        case None => None
  }

  /** The padding a message announces: its last octet when the P bit is set. */
  function Announced(b: seq<u8>): nat
    requires b != []
  {
    if b[0] / 0x20 % 2 == 1 then b[|b| - 1] else 0
  }

  /** Version 2, FMT 15, PT 205, and an RTCP length field that names the buffer's size. */
  predicate IsFeedback(b: seq<u8>)
  {
    && |b| >= 20 && b[0] / 0x40 == 2 && b[0] % 0x20 == 15 && b[1] == 205
    && |b| == 4 * (Be16(b, 2) + 1)
  }

  function ReadFeedback(b: seq<u8>): Option<Report>
  {
    if IsFeedback(b) then ReadBody(b) else None
  }

  function ReadBody(b: seq<u8>): Option<Report>
    requires |b| >= 20
  {
    match ReadSymbols(b[20..], Be16(b, 14))
    case None => None
    case Some((syms, afterChunks)) =>
      match ReadDeltas(afterChunks, syms)
      case None => None
      case Some((deltas, tail)) =>
        if |tail| < Announced(b) then None
        else
          Some(Report(Be32(b, 4), Be32(b, 8), Be16(b, 12), Be16(b, 14),
                      (b[16] as int) * 0x1_0000 + Be16(b, 17), b[19], syms, deltas, |tail| - Announced(b)))
  }

  // --- sender ---

  datatype Status = NotReceived | SmallDelta | LargeDelta {
    function Code(): Symbol {
      match this
      case NotReceived => 0
      case SmallDelta => 1
      case LargeDelta => 2
    }
  }

  function Codes(st: seq<Status>): (r: seq<Symbol>)
    ensures |r| == |st|
  {
    seq(|st|, i requires 0 <= i < |st| => st[i].Code())
  }

  /** The symbol in slot `k` of a chunk; slots past the end of the list are "not received". */
  function SlotCode(st: seq<Status>, k: nat): (c: int)
    ensures 0 <= c < 3
  {
    if k < |st| then st[k].Code() else 0
  }

  /** The first `n` slots of a two-bit vector chunk, in place below the two type bits. */
  function PackedSlots(st: seq<Status>, n: nat): int
    requires n <= 7
  {
    if n == 0 then 0 else PackedSlots(st, n - 1) + SlotCode(st, n - 1) * Quad(7 - n)
  }

  lemma PackedSlotsAre(st: seq<Status>)
    ensures PackedSlots(st, 7) ==
            SlotCode(st, 0) * 0x1000 + SlotCode(st, 1) * 0x400 + SlotCode(st, 2) * 0x100 + SlotCode(st, 3) * 0x40 +
            SlotCode(st, 4) * 0x10 + SlotCode(st, 5) * 4 + SlotCode(st, 6)
    ensures 0 <= PackedSlots(st, 7) < 0x4000
  {
    assert PackedSlots(st, 1) == SlotCode(st, 0) * 0x1000;
    assert PackedSlots(st, 2) == PackedSlots(st, 1) + SlotCode(st, 1) * 0x400;
    assert PackedSlots(st, 3) == PackedSlots(st, 2) + SlotCode(st, 2) * 0x100;
    assert PackedSlots(st, 4) == PackedSlots(st, 3) + SlotCode(st, 3) * 0x40;
    assert PackedSlots(st, 5) == PackedSlots(st, 4) + SlotCode(st, 4) * 0x10;
    assert PackedSlots(st, 6) == PackedSlots(st, 5) + SlotCode(st, 5) * 4;
  }

  /** The bits a filled prefix leaves clear include the two the next slot is or-ed into. */
  lemma PackedSlotsClear(st: seq<Status>, n: nat)
    requires n < 7
    ensures PackedSlots(st, n) % (4 * Quad(6 - n)) == 0
  {
    var s0, s1, s2, s3 := SlotCode(st, 0), SlotCode(st, 1), SlotCode(st, 2), SlotCode(st, 3);
    var s4, s5 := SlotCode(st, 4), SlotCode(st, 5);
    assert PackedSlots(st, 1) == 0x1000 * s0;
    assert PackedSlots(st, 2) == 0x400 * (4 * s0 + s1);
    assert PackedSlots(st, 3) == 0x100 * (16 * s0 + 4 * s1 + s2);
    assert PackedSlots(st, 4) == 0x40 * (64 * s0 + 16 * s1 + 4 * s2 + s3);
    assert PackedSlots(st, 5) == 0x10 * (256 * s0 + 64 * s1 + 16 * s2 + 4 * s3 + s4);
    assert PackedSlots(st, 6) == 4 * (1024 * s0 + 256 * s1 + 64 * s2 + 16 * s3 + 4 * s4 + s5);
  }

  /** A two-bit vector chunk holding up to seven statuses. */
  function PackedChunk(st: seq<Status>): (c: u16)
    ensures 0xC000 <= c
  {
    PackedSlotsAre(st);
    0xC000 + PackedSlots(st, 7)
  }

  /** Quotients of a two-bit vector: each slot on top of the ones before it. */
  lemma QuadDigits(s0: int, s1: int, s2: int, s3: int, s4: int, s5: int, s6: int, c: int)
    requires 0 <= s0 < 4 && 0 <= s1 < 4 && 0 <= s2 < 4 && 0 <= s3 < 4 && 0 <= s4 < 4 && 0 <= s5 < 4 && 0 <= s6 < 4
    requires c == 0xC000 + s0 * 0x1000 + s1 * 0x400 + s2 * 0x100 + s3 * 0x40 + s4 * 0x10 + s5 * 4 + s6
    ensures c / 0x1000 % 4 == s0 && c / 0x400 % 4 == s1 && c / 0x100 % 4 == s2 && c / 0x40 % 4 == s3
    ensures c / 0x10 % 4 == s4 && c / 4 % 4 == s5 && c % 4 == s6
  {
    assert c / 4 == 12288 + s0 * 1024 + s1 * 256 + s2 * 64 + s3 * 16 + s4 * 4 + s5;
    assert c / 0x10 == 3072 + s0 * 256 + s1 * 64 + s2 * 16 + s3 * 4 + s4;
    assert c / 0x40 == 768 + s0 * 64 + s1 * 16 + s2 * 4 + s3;
    assert c / 0x100 == 192 + s0 * 16 + s1 * 4 + s2;
    assert c / 0x400 == 48 + s0 * 4 + s1;
    assert c / 0x1000 == 12 + s0;
  }

  /** A reader gets back the statuses of a packed chunk, and "not received" in the slots left over. */
  lemma PackedChunkReads(st: seq<Status>)
    requires |st| <= 7
    ensures |ChunkSymbols(PackedChunk(st))| == 7
    ensures ChunkSymbols(PackedChunk(st)) == Codes(st) + seq(7 - |st|, _ => 0)
  {
    PackedSlotsAre(st);
    QuadDigits(SlotCode(st, 0), SlotCode(st, 1), SlotCode(st, 2), SlotCode(st, 3),
               SlotCode(st, 4), SlotCode(st, 5), SlotCode(st, 6), PackedChunk(st));
    assert ChunkSymbols(PackedChunk(st)) ==
           [SlotCode(st, 0), SlotCode(st, 1), SlotCode(st, 2), SlotCode(st, 3),
            SlotCode(st, 4), SlotCode(st, 5), SlotCode(st, 6)];
  }

  /** The statuses of the next chunk: seven, or what is left. */
  function Group(st: seq<Status>): (g: seq<Status>)
    ensures |g| <= 7 && g <= st
    ensures st != [] ==> g != []
    ensures |g| < 7 ==> g == st
  {
    if |st| <= 7 then st else st[..7]
  }

  /** Seven statuses to a chunk, in order. */
  function StatusChunks(st: seq<Status>): (r: seq<u16>)
    ensures |r| == (|st| + 6) / 7
  {
    if st == [] then [] else [PackedChunk(Group(st))] + StatusChunks(st[|Group(st)|..])
  }

  function ChunkBytes(chunks: seq<u16>): (b: seq<u8>)
    ensures |b| == 2 * |chunks|
  {
    if chunks == [] then [] else Bytes16(chunks[0]) + ChunkBytes(chunks[1..])
  }

  lemma {:induction false} ChunkBytesAppend(chunks: seq<u16>, c: u16)
    ensures ChunkBytes(chunks + [c]) == ChunkBytes(chunks) + Bytes16(c)
  {
    if chunks != [] {
      ChunkBytesAppend(chunks[1..], c);
      assert (chunks + [c])[1..] == chunks[1..] + [c];
    }
  }

  lemma FirstChunkApart(st: seq<Status>, rest: seq<u8>)
    requires st != []
    ensures var g := Group(st);
            ChunkBytes(StatusChunks(st)) + rest ==
            Bytes16(PackedChunk(g)) + (ChunkBytes(StatusChunks(st[|g|..])) + rest)
  {
    var g := Group(st);
    assert StatusChunks(st)[1..] == StatusChunks(st[|g|..]);
    Assoc(Bytes16(PackedChunk(g)), ChunkBytes(StatusChunks(st[|g|..])), rest);
  }

  lemma CodesApart(st: seq<Status>, syms: seq<Symbol>)
    requires |syms| == 7 && forall k :: 0 <= k < 7 ==> syms[k] == SlotCode(Group(st), k)
    ensures if |st| <= 7 then syms[..|st|] == Codes(st) else Codes(st) == syms + Codes(st[7..])
  {
  }

  /** A reader of the chunks gets exactly the statuses, whatever follows them. */
  lemma {:induction false} ChunksRead(st: seq<Status>, rest: seq<u8>)
    ensures ReadSymbols(ChunkBytes(StatusChunks(st)) + rest, |st|) == Some((Codes(st), rest))
    decreases |st|
  {
    if st == [] {
      assert ChunkBytes(StatusChunks(st)) + rest == rest;
    } else {
      var g := Group(st);
      var tail := ChunkBytes(StatusChunks(st[|g|..])) + rest;
      FirstChunkApart(st, rest);
      PackedChunkReads(g);
      OneChunkReads(PackedChunk(g), tail, |st|);
      CodesApart(st, ChunkSymbols(PackedChunk(g)));
      if |st| <= 7 {
        assert tail == rest;
      } else {
        ChunksRead(st[7..], rest);
      }
    }
  }

  lemma OneChunkReads(c: u16, tail: seq<u8>, need: nat)
    requires 0 < need
    ensures ReadSymbols(Bytes16(c) + tail, need) ==
            var syms := ChunkSymbols(c);
            if need <= |syms| then Some((syms[..need], tail))
            else
              match ReadSymbols(tail, need - |syms|)
              case Some((more, rest)) => Some((syms + more, rest))
              case None => None
  {
    var b := Bytes16(c) + tail;
    assert Be16(b, 0) == Be16(Bytes16(c), 0) && b[2..] == tail;
  }

  // --- receive deltas ---

  function Clamp(d: int, lo: int, hi: int): int
  {
    if d < lo then lo else if hi < d then hi else d
  }

  /** What a delta is on the wire: limited to the range its status allows. */
  function SentDelta(s: Status, d: int): int
  {
    if s == SmallDelta then Clamp(d, 0, 255) else Clamp(d, -8192, 8191)
  }

  function ReceivedCount(st: seq<Status>): nat
  {
    if st == [] then 0 else ReceivedCount(st[1..]) + if st[0] == NotReceived then 0 else 1
  }

  /** The encoder's bytes for a status list and the deltas of its received packets, front first. */
  function DeltaBytes(st: seq<Status>, deltas: seq<int>): seq<u8>
  {
    if st == [] then []
    else if st[0] == NotReceived then DeltaBytes(st[1..], deltas)
    else if deltas == [] then DeltaBytes(st[1..], [])
    else
      var d := SentDelta(st[0], deltas[0]);
      (if st[0] == SmallDelta then [d] else Bytes16(Wrap16(d))) + DeltaBytes(st[1..], deltas[1..])
  }

  /** The deltas a reader recovers: each one limited, none moved or lost. */
  function SentDeltas(st: seq<Status>, deltas: seq<int>): seq<int>
    requires ReceivedCount(st) == |deltas|
  {
    if st == [] then []
    else if st[0] == NotReceived then SentDeltas(st[1..], deltas)
    else [SentDelta(st[0], deltas[0])] + SentDeltas(st[1..], deltas[1..])
  }

  lemma {:induction false} DeltasRead(st: seq<Status>, deltas: seq<int>, rest: seq<u8>)
    requires ReceivedCount(st) == |deltas|
    ensures ReadDeltas(DeltaBytes(st, deltas) + rest, Codes(st)) == Some((SentDeltas(st, deltas), rest))
    decreases |st|
  {
    var b := DeltaBytes(st, deltas) + rest;
    if st == [] {
      assert b == rest;
    } else {
      assert Codes(st)[1..] == Codes(st[1..]);
      if st[0] == NotReceived {
        DeltasRead(st[1..], deltas, rest);
      } else {
        var d := SentDelta(st[0], deltas[0]);
        var head: seq<u8> := if st[0] == SmallDelta then [d] else Bytes16(Wrap16(d));
        var tail := DeltaBytes(st[1..], deltas[1..]) + rest;
        assert b == head + tail;
        assert b[|head|..] == tail;
        if st[0] == LargeDelta {
          assert Be16(b, 0) == Be16(head, 0);
        }
        DeltasRead(st[1..], deltas[1..], rest);
      }
    }
  }

  lemma {:induction false} DeltaBytesLength(st: seq<Status>, deltas: seq<int>)
    ensures |DeltaBytes(st, deltas)| <= 2 * |st|
  {
    if st != [] {
      DeltaBytesLength(st[1..], deltas);
      if deltas != [] {
        DeltaBytesLength(st[1..], deltas[1..]);
      }
    }
  }

  // --- the whole message ---

  function Head(padded: bool, words: u16, media: u32, base: u16, count: u16, refTime: int, fbCount: u8): (h: seq<u8>)
    requires 0 <= refTime < 0x100_0000
    ensures |h| == 20
  {
    [if padded then 0xAF else 0x8F, 205] + Bytes16(words) + Bytes32(1) + Bytes32(media) +
    Bytes16(base) + Bytes16(count) + [refTime / 0x1_0000, refTime / 0x100 % 0x100, refTime % 0x100, fbCount]
  }

  /**
   What follows the last delta when `n` octets bring the body to a multiple of four: the
   sender counts twelve octets for the two SSRCs, which take eight, so four more zero octets
   are there; the last octet announces `n` alone.
   */
  function Tail(n: nat): (p: seq<u8>)
    requires n < 4
    ensures |p| == n + 4
    ensures n != 0 ==> p[|p| - 1] == n
  {
    if n == 0 then Zeros(4) else Zeros(n + 3) + [n]
  }

  function PadCount(n: nat): (p: nat)
    ensures p < 4 && (n + p) % 4 == 0
  {
    (4 - n % 4) % 4
  }

  /** The RTCP length field: words of 32 bits after the first. */
  function LengthWords(n: nat): (w: nat)
    ensures 4 * w == 20 + n + PadCount(n)
  {
    (20 + n + PadCount(n)) / 4
  }

  function Assemble(payload: seq<u8>, media: u32, base: u16, count: u16, refTime: int, fbCount: u8): (b: seq<u8>)
    requires |payload| <= 0x1_0000 && 0 <= refTime < 0x100_0000
    ensures |b| % 4 == 0
  {
    var pad := PadCount(|payload|);
    Head(pad != 0, LengthWords(|payload|), media, base, count, refTime, fbCount) + payload + Tail(pad)
  }

  function FeedbackBytes(media: u32, base: u16, refTime: int, fbCount: u8, st: seq<Status>,
                         deltas: seq<int>): (b: seq<u8>)
    requires |st| <= 8192 && 0 <= refTime < 0x100_0000
    ensures |b| % 4 == 0
  {
    DeltaBytesLength(st, deltas);
    Assemble(ChunkBytes(StatusChunks(st)) + DeltaBytes(st, deltas), media, base, |st|, refTime, fbCount)
  }

  /**
   A draft reader of the built message recovers every field, every symbol and every sent
   delta, and always finds four octets the announced padding does not cover.
   */
  lemma FeedbackReads(media: u32, base: u16, refTime: int, fbCount: u8, st: seq<Status>, deltas: seq<int>)
    requires |st| <= 8192 && 0 <= refTime < 0x100_0000
    requires ReceivedCount(st) == |deltas|
    ensures ReadFeedback(FeedbackBytes(media, base, refTime, fbCount, st, deltas)) ==
            Some(Report(1, media, base, |st|, refTime, fbCount, Codes(st), SentDeltas(st, deltas), 4))
  {
    DeltaBytesLength(st, deltas);
    var c, d := ChunkBytes(StatusChunks(st)), DeltaBytes(st, deltas);
    var pad := PadCount(|c + d|);
    ChunksRead(st, d + Tail(pad));
    DeltasRead(st, deltas, Tail(pad));
    AssembledReads(c, d, pad, LengthWords(|c + d|), media, base, |st|, refTime, fbCount,
                   Codes(st), SentDeltas(st, deltas));
  }

  lemma AssembledReads(c: seq<u8>, d: seq<u8>, pad: nat, words: u16, media: u32, base: u16, count: u16, refTime: int,
                       fbCount: u8, syms: seq<Symbol>, deltas: seq<int>)
    requires pad < 4 && 0 <= refTime < 0x100_0000
    requires 20 + |c + d| + pad == 4 * words
    requires ReadSymbols(c + (d + Tail(pad)), count) == Some((syms, d + Tail(pad)))
    requires ReadDeltas(d + Tail(pad), syms) == Some((deltas, Tail(pad)))
    ensures ReadFeedback(Head(pad != 0, words, media, base, count, refTime, fbCount) + (c + d) + Tail(pad)) ==
            Some(Report(1, media, base, count, refTime, fbCount, syms, deltas, 4))
  {
    var h := Head(pad != 0, words, media, base, count, refTime, fbCount);
    var b := h + (c + d) + Tail(pad);
    assert |b| == 4 * (words as int + 1);
    MessageParts(h, c, d, Tail(pad), b);
    HeadFields(pad != 0, words, media, base, count, refTime, fbCount, b);
    PartsRead(b, pad, syms, d + Tail(pad), deltas, Tail(pad));
  }

  lemma MessageParts(h: seq<u8>, c: seq<u8>, d: seq<u8>, p: seq<u8>, b: seq<u8>)
    requires |h| == 20 && b == h + (c + d) + p
    ensures b[..20] == h && b[20..] == c + (d + p)
    ensures p != [] ==> b[|b| - 1] == p[|p| - 1]
  {
  }

  lemma PartsRead(b: seq<u8>, pad: nat, syms: seq<Symbol>, afterChunks: seq<u8>, deltas: seq<int>, tail: seq<u8>)
    requires |b| >= 20 && pad < 4 && b[0] == (if pad != 0 then 0xAF else 0x8F) && b[1] == 205
    requires |b| == 4 * (Be16(b, 2) + 1)
    requires ReadSymbols(b[20..], Be16(b, 14)) == Some((syms, afterChunks))
    requires ReadDeltas(afterChunks, syms) == Some((deltas, tail)) && |tail| == pad + 4
    requires pad != 0 ==> b[|b| - 1] == pad
    ensures ReadFeedback(b) == Some(Report(Be32(b, 4), Be32(b, 8), Be16(b, 12), Be16(b, 14),
                                           (b[16] as int) * 0x1_0000 + Be16(b, 17), b[19], syms, deltas, 4))
  {
    assert IsFeedback(b) && Announced(b) == pad;
  }

  lemma HeadFields(padded: bool, words: u16, media: u32, base: u16, count: u16, refTime: int, fbCount: u8, b: seq<u8>)
    requires 0 <= refTime < 0x100_0000 && |b| >= 20
    requires b[..20] == Head(padded, words, media, base, count, refTime, fbCount)
    ensures b[0] == (if padded then 0xAF else 0x8F) && b[1] == 205 && b[19] == fbCount
    ensures Be16(b, 2) == words && Be32(b, 4) == 1 && Be32(b, 8) == media
    ensures Be16(b, 12) == base && Be16(b, 14) == count
    ensures (b[16] as int) * 0x1_0000 + Be16(b, 17) == refTime
  {
    var h := b[..20];
    assert forall i :: 0 <= i < 20 ==> b[i] == h[i];
    assert h[2..4] == Bytes16(words) && h[4..8] == Bytes32(1) && h[8..12] == Bytes32(media);
    assert h[12..14] == Bytes16(base) && h[14..16] == Bytes16(count);
    assert Be16(h[2..4], 0) == Be16(b, 2) && Be32(h[4..8], 0) == Be32(b, 4) && Be32(h[8..12], 0) == Be32(b, 8);
    assert Be16(h[12..14], 0) == Be16(b, 12) && Be16(h[14..16], 0) == Be16(b, 14);
    assert h[16..] == [refTime / 0x1_0000, refTime / 0x100 % 0x100, refTime % 0x100, fbCount];
  }

  lemma OneChunk()
    ensures ChunkBytes(StatusChunks([SmallDelta])) == [0xD0, 0]
  {
    var st := [SmallDelta];
    assert Group(st) == st && st[|st|..] == [];
    PackedSlotsAre(st);
    assert PackedChunk(st) == 0xD000;
    assert StatusChunks([]) == [];
    assert StatusChunks(st) == [0xD000];
    assert ChunkBytes([0xD000]) == Bytes16(0xD000) + ChunkBytes([]);
  }

  lemma OneDelta()
    ensures DeltaBytes([SmallDelta], [9]) == [9]
  {
    assert [SmallDelta][1..] == [] && [9][1..] == [];
    assert DeltaBytes([], []) == [];
  }

  lemma HeadOctets()
    ensures Head(true, 6, 0x0102_0304, 100, 1, 0, 7) ==
            [0xAF, 205, 0, 6, 0, 0, 0, 1, 1, 2, 3, 4, 0, 100, 0, 1, 0, 0, 0, 7]
  {
    assert Bytes16(6) == [0, 6] && Bytes16(100) == [0, 100] && Bytes16(1) == [0, 1];
    assert Bytes32(1) == [0, 0, 0, 1] && Bytes32(0x0102_0304) == [1, 2, 3, 4];
  }

  /** The message for one packet, number 100, in octets. */
  lemma OneArrivalInOctets()
    ensures FeedbackBytes(0x0102_0304, 100, 0, 7, [SmallDelta], [9]) ==
            [0xAF, 205, 0, 6, 0, 0, 0, 1, 1, 2, 3, 4, 0, 100, 0, 1, 0, 0, 0, 7] + ([0xD0, 0] + [9]) + [0, 0, 0, 0, 1]
  {
    OneChunk();
    OneDelta();
    HeadOctets();
    assert |[0xD0, 0] + [9]| == 3 && PadCount(3) == 1 && LengthWords(3) == 6;
    assert Tail(1) == [0, 0, 0, 0, 1];
  }
}
