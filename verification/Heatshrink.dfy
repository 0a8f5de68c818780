/**
 The heatshrink (LZSS) codec of compressed blob registers: the encoder of the Go client and the
 ring-window decoder that mirrors the firmware, both proved against one token stream.
 */
module Heatshrink {
  import opened Wire
  import opened Bits

  const WINDOW_BITS := 9
  const LOOKAHEAD_BITS := 5
  const WINDOW_SIZE := 512
  const LOOKAHEAD_SIZE := 32
  const MIN_MATCH := 2

  datatype Token = Literal(b: byte) | Backref(offset: nat, length: nat)

  /** The values a token has bits for. */
  predicate Fits(t: Token) {
    t.Backref? ==> 1 <= t.offset <= WINDOW_SIZE && 1 <= t.length <= LOOKAHEAD_SIZE
  }

  predicate AllFit(ts: seq<Token>) {
    forall i :: 0 <= i < |ts| ==> Fits(ts[i])
  }

  /** How many data bytes a token stands for. */
  function Span(t: Token): nat {
    if t.Literal? then 1 else t.length
  }

  function TokenBits(t: Token): seq<bool>
    requires Fits(t)
  {
    match t
    case Literal(b) => [true] + ToBits(8, b)
    case Backref(offset, length) => BackrefBits(offset - 1, length - 1)
  }

  function BackrefBits(index: nat, count: nat): seq<bool> {
    [false] + ToBits(WINDOW_BITS, index) + ToBits(LOOKAHEAD_BITS, count)
  }

  function StreamBits(ts: seq<Token>): seq<bool>
    requires AllFit(ts)
  {
    if ts == [] then [] else StreamBits(ts[..|ts| - 1]) + TokenBits(ts[|ts| - 1])
  }

  // ---------------------------------------------------------------- what an encoding is

  predicate Matches(data: seq<byte>, i: nat, pos: nat, length: nat) {
    i < pos && pos + length <= |data| && data[i..i + length] == data[pos..pos + length]
  }

  predicate InWindow(i: int, pos: nat) {
    0 <= i < pos && pos - WINDOW_SIZE <= i
  }

  /** No position of the window matches longer, and none farther away matches as long. */
  ghost predicate LongestFarthest(data: seq<byte>, pos: nat, length: nat, offset: nat) {
    && 1 <= offset <= pos && InWindow(pos - offset, pos)
    && length <= LOOKAHEAD_SIZE && Matches(data, pos - offset, pos, length)
    && forall i, l: nat ::
         InWindow(i, pos) && l <= LOOKAHEAD_SIZE && Matches(data, i, pos, l) ==>
           l <= length && (l == length ==> pos - offset <= i)
  }

  /** The token the format calls for at `pos`: the best back-reference if it saves bits. */
  ghost predicate GreedyToken(data: seq<byte>, pos: nat, t: Token) {
    match t
    case Backref(offset, length) => length >= MIN_MATCH && LongestFarthest(data, pos, length, offset)
    case Literal(b) =>
      && pos < |data| && b == data[pos]
      && forall i :: InWindow(i, pos) ==> !Matches(data, i, pos, MIN_MATCH)
  }

  /** `ts` is the greedy tokenisation of the first `end` bytes. */
  ghost predicate GreedyParse(data: seq<byte>, end: int, ts: seq<Token>)
    decreases |ts|
  {
    if ts == [] then end == 0
    else
      var t := ts[|ts| - 1];
      && 0 <= end - Span(t) && end <= |data|
      && GreedyToken(data, end - Span(t), t)
      && GreedyParse(data, end - Span(t), ts[..|ts| - 1])
  }

  /** `enc` packs the greedy tokens of `data`, padded with zero bits to whole bytes. */
  ghost predicate Encodes(data: seq<byte>, enc: seq<byte>, ts: seq<Token>) {
    && AllFit(ts) && GreedyParse(data, |data|, ts)
    && |enc| == (|StreamBits(ts)| + 7) / 8
    && Unpack(enc) == StreamBits(ts) + Zeros(8 * |enc| - |StreamBits(ts)|)
  }

  // ---------------------------------------------------------------- the reference decoder

  /** The byte `offset` places back, reading zeros before the start of the output. */
  function Back(out: seq<byte>, offset: nat): byte
    requires offset >= 1
  {
    if offset <= |out| then out[|out| - offset] else 0
  }

  function CopyBack(out: seq<byte>, offset: nat, n: nat): seq<byte>
    requires offset >= 1
    decreases n
  {
    if n == 0 then out else CopyBack(out + [Back(out, offset)], offset, n - 1)
  }

  /** Each copied byte is the one `offset` before it, which may itself be a copy; before the start are zeros. */
  lemma {:induction false} CopyBackIs(out: seq<byte>, offset: nat, n: nat, j: nat)
    requires offset >= 1 && |out| <= j < |out| + n
    ensures var r := CopyBack(out, offset, n);
            |r| == |out| + n && r[..|out|] == out && r[j] == if j >= offset then r[j - offset] else 0
    decreases n
  {
    var next := out + [Back(out, offset)];
    var r := CopyBack(next, offset, n - 1);
    if n > 1 {
      CopyBackIs(next, offset, n - 1, if j > |out| then j else |next|);
    }
    assert r[..|next|] == next && r[..|out|] == r[..|next|][..|out|] == out;
    if j == |out| {
      assert r[j] == r[..|next|][j] == Back(out, offset);
      assert offset <= j ==> r[j - offset] == r[..|out|][j - offset];
    }
  }

  /** The output after one more token. */
  function Perform(t: Token, out: seq<byte>): seq<byte>
    requires Fits(t)
  {
    match t
    case Literal(b) => out + [b]
    case Backref(offset, length) => CopyBack(out, offset, length)
  }

  /** Decodes over the whole output history instead of a ring window. */
  function NaiveDecode(bits: seq<bool>, out: seq<byte>): seq<byte>
    decreases |bits|
  {
    if |bits| < 1 then out
    else if bits[0] then
      if |bits| < 9 then out
      else NaiveDecode(bits[9..], out + [LiteralOf(bits)])
    else
      if |bits| < 15 then out
      else NaiveDecode(bits[15..], CopyBack(out, FromBits(bits[1..10]) + 1, FromBits(bits[10..15]) + 1))
  }

  function LiteralOf(bits: seq<bool>): byte
    requires |bits| >= 9
  {
    ToFromBits(bits[1..9]);
    Pow2Values();
    FromBits(bits[1..9])
  }

  // ---------------------------------------------------------------- round trip

  lemma {:induction false} CopyBackMatch(data: seq<byte>, pos: nat, offset: nat, n: nat, done: nat)
    requires 1 <= offset <= pos && Matches(data, pos - offset, pos, done + n)
    ensures CopyBack(data[..pos + done], offset, n) == data[..pos + done + n]
    decreases n
  {
    if n > 0 {
      var i := pos - offset;
      assert data[i..i + done + n][done] == data[pos..pos + done + n][done];
      assert data[..pos + done] + [Back(data[..pos + done], offset)] == data[..pos + done + 1];
      CopyBackMatch(data, pos, offset, n - 1, done + 1);
    }
  }

  /** Decoding one token's bits performs that token and leaves the rest of the stream. */
  lemma DecodeToken(t: Token, rest: seq<bool>, out: seq<byte>)
    requires Fits(t)
    ensures NaiveDecode(TokenBits(t) + rest, out) == NaiveDecode(rest, Perform(t, out))
  {
    hide FromBits, ToBits, CopyBack, Pow2;
    var bits := TokenBits(t) + rest;
    Pow2Values();
    match t
    case Literal(b) =>
      assert bits[1..9] == ToBits(8, b);
      FromToBits(8, b);
      assert bits[9..] == rest;
    case Backref(offset, length) =>
      assert bits[1..10] == ToBits(WINDOW_BITS, offset - 1);
      assert bits[10..15] == ToBits(LOOKAHEAD_BITS, length - 1);
      FromToBits(WINDOW_BITS, offset - 1);
      FromToBits(LOOKAHEAD_BITS, length - 1);
      assert bits[15..] == rest;
  }

  /** Performing the greedy token of a position yields the bytes it was taken from. */
  lemma PerformGreedy(data: seq<byte>, pos: nat, t: Token)
    requires GreedyToken(data, pos, t)
    ensures Fits(t) && pos + Span(t) <= |data|
    ensures Perform(t, data[..pos]) == data[..pos + Span(t)]
  {
    match t
    case Literal(b) => assert data[..pos] + [b] == data[..pos + 1];
    case Backref(offset, length) =>
      CopyBackMatch(data, pos, offset, length, 0);
      assert data[..pos + 0] == data[..pos];
  }

  lemma DecodeGreedyToken(data: seq<byte>, pos: nat, t: Token, rest: seq<bool>)
    requires Fits(t) && GreedyToken(data, pos, t)
    ensures pos + Span(t) <= |data|
    ensures NaiveDecode(TokenBits(t) + rest, data[..pos]) == NaiveDecode(rest, data[..pos + Span(t)])
  {
    PerformGreedy(data, pos, t);
    DecodeToken(t, rest, data[..pos]);
  }

  /** Greedy tokens decode to the bytes they were taken from, whatever bits follow. */
  lemma {:induction false} DecodeGreedy(data: seq<byte>, end: nat, ts: seq<Token>, rest: seq<bool>)
    requires end <= |data| && AllFit(ts) && GreedyParse(data, end, ts)
    ensures NaiveDecode(StreamBits(ts) + rest, []) == NaiveDecode(rest, data[..end])
    decreases |ts|
  {
    hide GreedyToken, NaiveDecode, TokenBits;
    if ts == [] {
      assert [] + rest == rest;
    } else {
      var t, before := ts[|ts| - 1], ts[..|ts| - 1];
      var pos := end - Span(t);
      Assoc(StreamBits(before), TokenBits(t), rest);
      DecodeGreedy(data, pos, before, TokenBits(t) + rest);
      DecodeGreedyToken(data, pos, t, rest);
    }
  }

  /** At most seven zero bits never form a token. */
  lemma PaddingIgnored(n: nat, out: seq<byte>)
    requires n < 8
    ensures NaiveDecode(Zeros(n), out) == out
  {
  }

  /** Decoding inverts encoding on every byte string. */
  lemma RoundTrip(data: seq<byte>, enc: seq<byte>, ts: seq<Token>)
    requires Encodes(data, enc, ts)
    ensures NaiveDecode(Unpack(enc), []) == data
  {
    var pad := 8 * |enc| - |StreamBits(ts)|;
    DecodeGreedy(data, |data|, ts, Zeros(pad));
    PaddingIgnored(pad, data);
    assert data[..|data|] == data;
  }

  /** A back-reference replaces at least two bytes, so a token never costs more than 9 bits a byte. */
  lemma {:induction false} StreamSize(data: seq<byte>, end: nat, ts: seq<Token>)
    requires AllFit(ts) && GreedyParse(data, end, ts)
    ensures |StreamBits(ts)| <= 9 * end
    decreases |ts|
  {
    if ts != [] {
      StreamSize(data, end - Span(ts[|ts| - 1]), ts[..|ts| - 1]);
    }
  }

  /** Where the fields of a token are: the tag, then a byte, or a nine-bit offset and a five-bit length. */
  lemma TokenLayout(t: Token)
    requires Fits(t)
    ensures var bits := TokenBits(t);
            match t
            case Literal(b) => |bits| == 9 && bits[0] && bits[1..9] == ToBits(8, b)
            case Backref(offset, length) =>
              |bits| == 15 && !bits[0] && bits[1..10] == ToBits(9, offset - 1) && bits[10..15] == ToBits(5, length - 1)
  {
  }

  /**
   Where some match is longer than the bits it saves justify, the format uses the longest one, at the
   farthest position; elsewhere it uses a literal.
   */
  lemma BackrefIffShorter(data: seq<byte>, pos: nat, t: Token, length: nat, offset: nat)
    requires pos < |data| && GreedyToken(data, pos, t) && LongestFarthest(data, pos, length, offset)
    ensures t == if 15 < 9 * length then Backref(offset, length) else Literal(data[pos])
  {
    if length >= MIN_MATCH {
      TwoByteMatch(data, pos, offset, length);
    }
    if t.Backref? {
      assert t.length == length && t.offset == offset;
    }
  }

  lemma GreedyTokenUnique(data: seq<byte>, pos: nat, t: Token, u: Token)
    requires GreedyToken(data, pos, t) && GreedyToken(data, pos, u)
    ensures t == u
  {
    if t.Backref? && u.Literal? {
      TwoByteMatch(data, pos, t.offset, t.length);
    } else if t.Literal? && u.Backref? {
      TwoByteMatch(data, pos, u.offset, u.length);
    }
  }

  lemma TwoByteMatch(data: seq<byte>, pos: nat, offset: nat, length: nat)
    requires length >= MIN_MATCH && LongestFarthest(data, pos, length, offset)
    ensures Matches(data, pos - offset, pos, MIN_MATCH)
  {
    var i := pos - offset;
    assert data[i..i + MIN_MATCH] == data[i..i + length][..MIN_MATCH];
    assert data[pos..pos + MIN_MATCH] == data[pos..pos + length][..MIN_MATCH];
  }

  /** Every prefix of a greedy tokenisation is one, and the next token is the greedy one there. */
  lemma {:induction false} GreedyPrefix(data: seq<byte>, end: nat, ts: seq<Token>, k: nat)
      returns (pos: nat)
    requires GreedyParse(data, end, ts) && k <= |ts|
    ensures pos <= end && GreedyParse(data, pos, ts[..k])
    ensures if k < |ts| then pos < end && GreedyToken(data, pos, ts[k]) else pos == end
    decreases |ts|
  {
    pos := end;
    if k < |ts| {
      var before := ts[..|ts| - 1];
      pos := GreedyPrefix(data, end - Span(ts[|ts| - 1]), before, k);
      assert before[..k] == ts[..k];
    } else {
      assert ts[..k] == ts;
    }
  }

  lemma {:induction false} GreedyAgree(data: seq<byte>, a: seq<Token>, b: seq<Token>, k: nat)
    requires GreedyParse(data, |data|, a) && GreedyParse(data, |data|, b)
    requires k <= |a| && k <= |b|
    ensures a[..k] == b[..k]
  {
    if k > 0 {
      GreedyAgree(data, a, b, k - 1);
      var pos := GreedyPrefix(data, |data|, a, k - 1);
      var pos' := GreedyPrefix(data, |data|, b, k - 1);
      GreedyEnd(data, pos, pos', a[..k - 1]);
      GreedyTokenUnique(data, pos, a[k - 1], b[k - 1]);
      assert a[..k] == a[..k - 1] + [a[k - 1]];
      assert b[..k] == b[..k - 1] + [b[k - 1]];
    }
  }

  lemma {:induction false} GreedyEnd(data: seq<byte>, end: nat, end': nat, ts: seq<Token>)
    requires GreedyParse(data, end, ts) && GreedyParse(data, end', ts)
    ensures end == end'
    decreases |ts|
  {
    if ts != [] {
      GreedyEnd(data, end - Span(ts[|ts| - 1]), end' - Span(ts[|ts| - 1]), ts[..|ts| - 1]);
    }
  }

  /** The format leaves the encoder no choice: a byte string has exactly one encoding. */
  lemma EncodingUnique(data: seq<byte>, a: seq<byte>, ts: seq<Token>, b: seq<byte>, us: seq<Token>)
    requires Encodes(data, a, ts) && Encodes(data, b, us)
    ensures ts == us && a == b
  {
    hide GreedyParse, GreedyToken, Unpack;
    var k := if |ts| <= |us| then |ts| else |us|;
    GreedyAgree(data, ts, us, k);
    assert ts[..|ts|] == ts && us[..|us|] == us;
    if |ts| < |us| {
      var pos := GreedyPrefix(data, |data|, us, k);
      GreedyEnd(data, pos, |data|, ts);
    } else if |us| < |ts| {
      var pos := GreedyPrefix(data, |data|, ts, k);
      GreedyEnd(data, pos, |data|, us);
    }
    UnpackInjective(a, b);
  }

  // ---------------------------------------------------------------- the encoder

  method CommonLength(data: seq<byte>, i: nat, pos: nat, maxLen: nat) returns (l: nat)
    requires i < pos && pos + maxLen <= |data|
    ensures l <= maxLen && Matches(data, i, pos, l)
    ensures forall m: nat :: l < m <= maxLen ==> !Matches(data, i, pos, m)
  {
    l := 0;
    while l < maxLen && data[i + l] == data[pos + l]
      invariant l <= maxLen && Matches(data, i, pos, l)
    {
      assert data[i..i + l + 1] == data[i..i + l] + [data[i + l]];
      assert data[pos..pos + l + 1] == data[pos..pos + l] + [data[pos + l]];
      l := l + 1;
    }
    forall m: nat | l < m <= maxLen ensures !Matches(data, i, pos, m) {
      assert data[i..i + m][l] == data[i + l] && data[pos..pos + m][l] == data[pos + l];
    }
  }

  /** What the search knows after trying the window positions below `i`. */
  ghost predicate BestBefore(data: seq<byte>, pos: nat, i: int, maxLen: nat, length: nat, offset: nat) {
    && length <= maxLen
    && (length > 0 ==> 1 <= offset <= pos && pos - offset < i && InWindow(pos - offset, pos)
                       && Matches(data, pos - offset, pos, length))
    && forall j, l: nat ::
         InWindow(j, pos) && j < i && 0 < l <= maxLen && Matches(data, j, pos, l) ==>
           l <= length && (l == length ==> pos - offset <= j)
  }

  lemma NothingBefore(data: seq<byte>, pos: nat, maxLen: nat)
    ensures BestBefore(data, pos, if pos < WINDOW_SIZE then 0 else pos - WINDOW_SIZE, maxLen, 0, 0)
  {
  }

  /** Trying one more position, whose longest match is `l`; one that cannot be beaten ends the search. */
  lemma BestNext(data: seq<byte>, pos: nat, i: nat, maxLen: nat, length: nat, offset: nat, l: nat)
    requires i < pos && InWindow(i, pos) && l <= maxLen && BestBefore(data, pos, i, maxLen, length, offset)
    requires Matches(data, i, pos, l) && forall m: nat :: l < m <= maxLen ==> !Matches(data, i, pos, m)
    ensures if l > length then BestBefore(data, pos, i + 1, maxLen, l, pos - i)
            else BestBefore(data, pos, i + 1, maxLen, length, offset)
    ensures l > length && l == maxLen ==> BestBefore(data, pos, pos, maxLen, l, pos - i)
  {
    hide Matches;
  }

  /** The match search of the encoder: first, hence farthest, longest match of the window. */
  method LongestMatch(data: seq<byte>, pos: nat) returns (bestLen: nat, bestOff: nat)
    requires pos < |data|
    ensures GreedyToken(data, pos, ChooseToken(data[pos], bestLen, bestOff))
  {
    hide BestBefore, Matches, GreedyToken;
    var start := if pos < WINDOW_SIZE then 0 else pos - WINDOW_SIZE;
    var maxLen := if pos + LOOKAHEAD_SIZE > |data| then |data| - pos else LOOKAHEAD_SIZE;
    bestLen, bestOff := 0, 0;
    var i := start;
    NothingBefore(data, pos, maxLen);
    while i < pos
      invariant start <= i <= pos
      invariant BestBefore(data, pos, i, maxLen, bestLen, bestOff)
    {
      var l := CommonLength(data, i, pos, maxLen);
      BestNext(data, pos, i, maxLen, bestLen, bestOff, l);
      if l > bestLen {
        bestLen := l;
        bestOff := pos - i;
        if l == maxLen {
          break;
        }
      }
      i := i + 1;
    }
    BestOverall(data, pos, maxLen, bestLen, bestOff);
  }

  /** A back-reference if it beats two literals, else a literal. */
  function ChooseToken(b: byte, bestLen: nat, bestOff: nat): Token {
    if bestLen >= MIN_MATCH then Backref(bestOff, bestLen) else Literal(b)
  }

  lemma BestOverall(data: seq<byte>, pos: nat, maxLen: nat, length: nat, offset: nat)
    requires maxLen == if pos + LOOKAHEAD_SIZE > |data| then |data| - pos else LOOKAHEAD_SIZE
    requires pos < |data| && BestBefore(data, pos, pos, maxLen, length, offset)
    ensures GreedyToken(data, pos, ChooseToken(data[pos], length, offset))
  {
  }

  lemma ParseSnoc(data: seq<byte>, pos: nat, ts: seq<Token>, t: Token)
    requires AllFit(ts) && GreedyParse(data, pos, ts) && GreedyToken(data, pos, t)
    ensures AllFit(ts + [t])
    ensures pos + Span(t) <= |data| && GreedyParse(data, pos + Span(t), ts + [t])
    ensures StreamBits(ts + [t]) == StreamBits(ts) + TokenBits(t)
  {
    assert (ts + [t])[..|ts|] == ts;
    PerformGreedy(data, pos, t);
  }

  lemma MarkerBits()
    ensures ToBits(1, 0) == [false] && ToBits(1, 1) == [true]
  {
  }

  method WriteBackref(w: BitWriter, index: nat, count: nat)
    requires w.Valid()
    modifies w
    ensures w.Valid() && w.written == old(w.written) + ([false] + ToBits(9, index) + ToBits(5, count))
  {
    MarkerBits();
    Assoc(w.written, [false], ToBits(WINDOW_BITS, index));
    Assoc(w.written, [false] + ToBits(WINDOW_BITS, index), ToBits(LOOKAHEAD_BITS, count));
    w.PushBits(1, 0);
    w.PushBits(WINDOW_BITS, index);
    w.PushBits(LOOKAHEAD_BITS, count);
  }

  method WriteLiteral(w: BitWriter, b: byte)
    requires w.Valid()
    modifies w
    ensures w.Valid() && w.written == old(w.written) + ([true] + ToBits(8, b))
  {
    MarkerBits();
    Assoc(w.written, [true], ToBits(8, b));
    w.PushBits(1, 1);
    w.PushBits(8, b);
  }

  method WriteToken(w: BitWriter, b: byte, bestLen: nat, bestOff: nat)
    requires w.Valid() && Fits(ChooseToken(b, bestLen, bestOff))
    modifies w
    ensures w.Valid() && w.written == old(w.written) + TokenBits(ChooseToken(b, bestLen, bestOff))
  {
    if bestLen >= MIN_MATCH {
      WriteBackref(w, bestOff - 1, bestLen - 1);
    } else {
      WriteLiteral(w, b);
    }
  }

  /** `written` holds the greedy tokens of the first `pos` bytes. */
  ghost predicate Emitted(data: seq<byte>, pos: nat, ts: seq<Token>, written: seq<bool>) {
    AllFit(ts) && GreedyParse(data, pos, ts) && written == StreamBits(ts)
  }

  /** One round of the encoder loop: search, emit, advance. */
  method EncodeToken(data: seq<byte>, pos: nat, w: BitWriter, ghost ts: seq<Token>)
      returns (next: nat, ghost ts': seq<Token>)
    requires pos < |data| && w.Valid() && Emitted(data, pos, ts, w.written)
    modifies w
    ensures pos < next <= |data| && w.Valid() && Emitted(data, next, ts', w.written)
  {
    hide TokenBits, GreedyToken, StreamBits;
    var bestLen, bestOff := LongestMatch(data, pos);
    ghost var t := ChooseToken(data[pos], bestLen, bestOff);
    ParseSnoc(data, pos, ts, t);
    ts' := ts + [t];
    WriteToken(w, data[pos], bestLen, bestOff);
    next := pos + if bestLen >= MIN_MATCH then bestLen else 1;
  }

  /** The token loop of the encoder, on a fresh bit packer. */
  method EncodeTokens(data: seq<byte>, w: BitWriter) returns (ghost ts: seq<Token>)
    requires w.Valid() && w.written == []
    modifies w
    ensures w.Valid() && Emitted(data, |data|, ts, w.written)
  {
    var pos := 0;
    ts := [];
    while pos < |data|
      invariant pos <= |data| && w.Valid() && Emitted(data, pos, ts, w.written)
    {
      pos, ts := EncodeToken(data, pos, w, ts);
    }
  }

  method HeatshrinkEncode(data: seq<byte>) returns (enc: seq<byte>)
    ensures exists ts :: Encodes(data, enc, ts)
    ensures NaiveDecode(Unpack(enc), []) == data
    ensures |enc| <= (9 * |data| + 7) / 8
  {
    var w := new BitWriter();
    ghost var ts := EncodeTokens(data, w);
    w.Flush();
    enc := w.out;
    assert Encodes(data, enc, ts);
    RoundTrip(data, enc, ts);
    StreamSize(data, |data|, ts);
  }

  // ---------------------------------------------------------------- the ring-window decoder

  /** The window holds the last 512 output bytes, older slots still being zero. */
  ghost predicate Mirrors(window: seq<byte>, out: seq<byte>) {
    |window| == WINDOW_SIZE
    && forall o :: 1 <= o <= WINDOW_SIZE ==> window[(|out| - o) % WINDOW_SIZE] == Back(out, o)
  }

  lemma MirrorsLength(window: seq<byte>, out: seq<byte>)
    ensures Mirrors(window, out) ==> |window| == WINDOW_SIZE
  {
  }

  lemma MirrorsPush(window: seq<byte>, out: seq<byte>, c: byte)
    requires Mirrors(window, out)
    ensures Mirrors(window[|out| % WINDOW_SIZE := c], out + [c])
  {
    var w' := window[|out| % WINDOW_SIZE := c];
    forall o | 1 <= o <= WINDOW_SIZE
      ensures w'[(|out + [c]| - o) % WINDOW_SIZE] == Back(out + [c], o)
    {
      if o > 1 {
        SlotsDiffer(|out|, o - 1);
        assert |out + [c]| - o == |out| - (o - 1);
        assert window[(|out| - (o - 1)) % WINDOW_SIZE] == Back(out, o - 1);
      }
    }
  }

  lemma SlotsDiffer(head: nat, o: nat)
    ensures 1 <= o < WINDOW_SIZE ==> (head - o) % WINDOW_SIZE != head % WINDOW_SIZE
  {
  }

  lemma StepLiteral(all: seq<bool>, start: nat, out: seq<byte>)
    requires start + 9 <= |all| && all[start]
    ensures FromBits(all[start + 1..start + 9]) < 256
    ensures NaiveDecode(all[start..], out)
         == NaiveDecode(all[start + 9..], out + [FromBits(all[start + 1..start + 9])])
  {
    var bits := all[start..];
    assert bits[1..9] == all[start + 1..start + 9];
    assert bits[9..] == all[start + 9..];
    ToFromBits(bits[1..9]);
    Pow2Values();
  }

  lemma StepBackref(all: seq<bool>, start: nat, out: seq<byte>, offset: nat, length: nat)
    requires start + 15 <= |all| && !all[start]
    requires offset == FromBits(all[start + 1..start + 10]) + 1
    requires length == FromBits(all[start + 10..start + 15]) + 1
    ensures offset <= WINDOW_SIZE
    ensures NaiveDecode(all[start..], out) == NaiveDecode(all[start + 15..], CopyBack(out, offset, length))
  {
    var bits := all[start..];
    assert bits[1..10] == all[start + 1..start + 10];
    assert bits[10..15] == all[start + 10..start + 15];
    assert bits[15..] == all[start + 15..];
    ToFromBits(bits[1..10]);
    Pow2Values();
  }

  /** Where the input ends inside a token, so does the output. */
  lemma StepEnds(all: seq<bool>, start: nat, out: seq<byte>)
    requires start <= |all|
    ensures start == |all| || start + (if all[start] then 9 else 15) > |all| ==> NaiveDecode(all[start..], out) == out
  {
  }

  lemma TagBit(all: seq<bool>, start: nat)
    ensures start < |all| ==> FromBits(all[start..start + 1]) == if all[start] then 1 else 0
  {
    if start < |all| {
      assert all[start..start + 1] == [] + [all[start]];
      FromBitsSnoc([], all[start]);
    }
  }

  /** Appends `length` bytes from `offset` back, through the window. */
  method CopyFromWindow(window: array<byte>, out: seq<byte>, offset: nat, length: nat)
      returns (out': seq<byte>)
    requires 1 <= offset <= WINDOW_SIZE && Mirrors(window[..], out)
    modifies window
    ensures out' == CopyBack(out, offset, length) && Mirrors(window[..], out')
  {
    out' := out;
    for i := 0 to length
      invariant Mirrors(window[..], out')
      invariant CopyBack(out', offset, length - i) == CopyBack(out, offset, length)
    {
      var head := |out'|;
      var c := window[(head - offset) % WINDOW_SIZE];
      assert c == window[..][(head - offset) % WINDOW_SIZE] == Back(out', offset);
      MirrorsPush(window[..], out', c);
      window[head % WINDOW_SIZE] := c;
      out' := out' + [c];
    }
  }

  /** One token of the decoder; `more` is false when the input ends inside it. */
  method DecodeStep(data: seq<byte>, bitPos: nat, window: array<byte>, out: seq<byte>)
      returns (more: bool, pos: nat, out': seq<byte>)
    requires bitPos <= 8 * |data| && Mirrors(window[..], out)
    modifies window
    ensures more ==> bitPos < pos <= 8 * |data| && Mirrors(window[..], out')
    ensures NaiveDecode(Unpack(data)[bitPos..], out)
         == if more then NaiveDecode(Unpack(data)[pos..], out') else out'
  {
    hide NaiveDecode, Unpack, FromBits, CopyBack, Back, Mirrors;
    ghost var all := Unpack(data);
    StepEnds(all, bitPos, out);
    out' := out;
    var tag, ok;
    tag, ok, pos := ReadBits(data, bitPos, 1);
    if !ok {
      return false, pos, out;
    }
    TagBit(all, bitPos);
    if tag == 1 {
      var b;
      b, ok, pos := ReadBits(data, pos, 8);
      if !ok {
        return false, pos, out;
      }
      StepLiteral(all, bitPos, out);
      MirrorsLength(window[..], out);
      MirrorsPush(window[..], out, b);
      window[|out| % WINDOW_SIZE] := b;
      return true, pos, out + [b];
    }
    var off, cnt;
    off, ok, pos := ReadBits(data, pos, WINDOW_BITS);
    if !ok {
      return false, pos, out;
    }
    cnt, ok, pos := ReadBits(data, pos, LOOKAHEAD_BITS);
    if !ok {
      return false, pos, out;
    }
    StepBackref(all, bitPos, out, off + 1, cnt + 1);
    out' := CopyFromWindow(window, out, off + 1, cnt + 1);
    more := true;
  }

  /** The ring-window decoder equals the history decoder on every byte string, and terminates. */
  method HsDecode(data: seq<byte>) returns (out: seq<byte>)
    ensures out == NaiveDecode(Unpack(data), [])
  {
    var window := new byte[WINDOW_SIZE](_ => 0);
    var bitPos, more := 0, true;
    out := [];
    ghost var all := Unpack(data);
    assert all[0..] == all;
    while more
      invariant bitPos <= 8 * |data| && fresh(window)
      invariant more ==> Mirrors(window[..], out)
      invariant NaiveDecode(all, []) == if more then NaiveDecode(all[bitPos..], out) else out
      decreases more, 8 * |data| - bitPos
    {
      var next;
      more, next, out := DecodeStep(data, bitPos, window, out);
      if more {
        bitPos := next;
      }
    }
  }

  /** Encoding a byte string and decoding the result gives it back. */
  method EncodeThenDecode(data: seq<byte>) returns (dec: seq<byte>)
    ensures dec == data
  {
    var enc := HeatshrinkEncode(data);
    dec := HsDecode(enc);
  }
}
