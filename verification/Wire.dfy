/**
 The wire format of udtcp: a frame is the payload's length as a 32-bit word in
 host order (little-endian here) followed by the payload.  `Encode` is what
 `buffer_copy` lays out in a send buffer; `Frames` and `Rest` are an independent
 reading of a byte stream, and the lemmas show the two are inverse.
 */
module Wire {

  newtype byte = x: int | 0 <= x < 256

  const WORD_SIZE := 4
  const LIMIT32 := 0x1_0000_0000
  const LIMIT31 := 0x8000_0000

  type Payload = p: seq<byte> | |p| < LIMIT32

  /** The conversion of a `uint32_t` to an `int`. */
  function Int32(n: nat): (i: int)
    requires n < LIMIT32
    ensures -LIMIT31 <= i < LIMIT31
    ensures (i - n) % LIMIT32 == 0
    ensures i > 0 <==> 0 < n < LIMIT31
  {
    if n < LIMIT31 then n else n - LIMIT32
  }

  function Header(n: nat): (h: seq<byte>)
    requires n < LIMIT32
    ensures |h| == WORD_SIZE
  {
    [(n % 0x100) as byte,
     (n / 0x100 % 0x100) as byte,
     (n / 0x1_0000 % 0x100) as byte,
     (n / 0x100_0000) as byte]
  }

  function Word(h: seq<byte>): (n: nat)
    requires |h| == WORD_SIZE
    ensures n < LIMIT32
  {
    h[0] as int + 0x100 * h[1] as int + 0x1_0000 * h[2] as int + 0x100_0000 * h[3] as int
  }

  /** The number that bytes stand for, the least significant first. */
  function Value(s: seq<byte>): nat {
    if s == [] then 0 else s[0] as int + 0x100 * Value(s[1..])
  }

  /** A header is the size in four bytes, the least significant first, and is read as such. */
  lemma LittleEndian(n: nat, h: seq<byte>)
    requires n < LIMIT32 && |h| == WORD_SIZE
    ensures Value(Header(n)) == n && Value(h) == Word(h)
  {
    WordOfHeader(n);
    ValueOfFour(h);
    ValueOfFour(Header(n));
  }

  lemma ValueOfFour(h: seq<byte>)
    requires |h| == WORD_SIZE
    ensures Value(h) == Word(h)
  {
    var t := h[1..];
    assert t[1..][1..] == [h[3]] && [h[3]][1..] == [];
    assert Value(t) == h[1] as int + 0x100 * Value(t[1..]);
    assert Value(t[1..]) == h[2] as int + 0x100 * Value(t[1..][1..]);
  }

  lemma WordOfHeader(n: nat)
    requires n < LIMIT32
    ensures Word(Header(n)) == n
  {
    assert n / 0x1_0000 == n / 0x100 / 0x100;
    assert n / 0x100_0000 == n / 0x100 / 0x100 / 0x100;
  }

  lemma HeaderOfWord(h: seq<byte>)
    requires |h| == WORD_SIZE
    ensures Header(Word(h)) == h
  {
    var n := Word(h);
    assert n % 0x100 == h[0] as int;
    var n1 := h[1] as int + 0x100 * h[2] as int + 0x1_0000 * h[3] as int;
    assert n / 0x100 == n1;
    var n2 := h[2] as int + 0x100 * h[3] as int;
    assert n / 0x1_0000 == n2 && n1 / 0x100 == n2;
  }

  function Encode(p: Payload): seq<byte> {
    Header(|p|) + p
  }

  function EncodeAll(ps: seq<Payload>): seq<byte> {
    if ps == [] then [] else Encode(ps[0]) + EncodeAll(ps[1..])
  }

  /** The bytes `s` stop inside a frame, or are empty. */
  predicate Incomplete(s: seq<byte>) {
    |s| < WORD_SIZE || |s| < WORD_SIZE + Word(s[..WORD_SIZE])
  }

  /** The payloads of the whole frames at the front of `s`. */
  function Frames(s: seq<byte>): seq<Payload>
    decreases |s|
  {
    if Incomplete(s) then []
    else
      var n := Word(s[..WORD_SIZE]);
      [s[WORD_SIZE..WORD_SIZE + n]] + Frames(s[WORD_SIZE + n..])
  }

  /** What is left of `s` after its whole frames. */
  function Rest(s: seq<byte>): seq<byte>
    decreases |s|
  {
    if Incomplete(s) then s else Rest(s[WORD_SIZE + Word(s[..WORD_SIZE])..])
  }

  lemma ReadOne(p: Payload, tail: seq<byte>)
    ensures !Incomplete(Encode(p) + tail)
    ensures Frames(Encode(p) + tail) == [p] + Frames(tail)
    ensures Rest(Encode(p) + tail) == Rest(tail)
  {
    var s := Encode(p) + tail;
    assert s[..WORD_SIZE] == Header(|p|);
    WordOfHeader(|p|);
    assert s[WORD_SIZE..WORD_SIZE + |p|] == p;
    assert s[WORD_SIZE + |p|..] == tail;
  }

  /** Whole frames at the front of a stream are read back one by one. */
  lemma {:induction false} FramesInFront(ps: seq<Payload>, tail: seq<byte>)
    ensures Frames(EncodeAll(ps) + tail) == ps + Frames(tail)
    ensures Rest(EncodeAll(ps) + tail) == Rest(tail)
  {
    hide Incomplete;
    hide Header;
    hide Word;
    if ps == [] {
      assert EncodeAll(ps) + tail == tail;
    } else {
      FramesInFront(ps[1..], tail);
      assert EncodeAll(ps) + tail == Encode(ps[0]) + (EncodeAll(ps[1..]) + tail);
      ReadOne(ps[0], EncodeAll(ps[1..]) + tail);
    }
  }

  /** A stream of which `front` has been read, whole frames only, and `tail` has arrived. */
  lemma FramesSoFar(ps: seq<Payload>, front: seq<byte>, tail: seq<byte>)
    requires front == EncodeAll(ps)
    ensures Frames(front + tail) == ps + Frames(tail) && Rest(front + tail) == Rest(tail)
  {
    FramesInFront(ps, tail);
  }

  /** Reading back what was encoded: the payload list is recovered exactly,
      whatever unfinished frame follows it. */
  lemma FramesOfEncodeAll(ps: seq<Payload>, tail: seq<byte>)
    requires Incomplete(tail)
    ensures Frames(EncodeAll(ps) + tail) == ps
    ensures Rest(EncodeAll(ps) + tail) == tail
  {
    FramesInFront(ps, tail);
  }

  /** Every byte string is the encoding of its frames followed by an unfinished one. */
  lemma {:induction false} EncodeAllOfFrames(s: seq<byte>)
    ensures s == EncodeAll(Frames(s)) + Rest(s)
    ensures Incomplete(Rest(s))
    decreases |s|
  {
    if !Incomplete(s) {
      hide Incomplete;
      hide Header;
      hide Word;
      var t := FirstFrame(s);
      EncodeAllOfFrames(t);
      assert EncodeAll(Frames(s)) == Encode(Frames(s)[0]) + EncodeAll(Frames(t));
    }
  }

  lemma FirstFrame(s: seq<byte>) returns (t: seq<byte>)
    requires !Incomplete(s)
    ensures |t| < |s| && Frames(s) != [] && Frames(s)[1..] == Frames(t) && Rest(s) == Rest(t)
    ensures s == Encode(Frames(s)[0]) + t
  {
    HeaderOfWord(s[..WORD_SIZE]);
    t := s[WORD_SIZE + Word(s[..WORD_SIZE])..];
  }

  lemma {:induction false} EncodeAllAppend(ps: seq<Payload>, qs: seq<Payload>)
    ensures EncodeAll(ps + qs) == EncodeAll(ps) + EncodeAll(qs)
  {
    if ps == [] {
      assert ps + qs == qs;
    } else {
      assert (ps + qs)[1..] == ps[1..] + qs;
      EncodeAllAppend(ps[1..], qs);
    }
  }

  lemma EncodeAllSnoc(ps: seq<Payload>, p: Payload)
    ensures EncodeAll(ps + [p]) == EncodeAll(ps) + Encode(p)
  {
    EncodeAllAppend(ps, [p]);
    assert EncodeAll([p]) == Encode(p);
  }

  /** A frame behind whole frames. */
  lemma OneMoreFrame(s: seq<byte>, p: Payload)
    requires Rest(s) == []
    ensures Rest(s + Encode(p)) == [] && Frames(s + Encode(p)) == Frames(s) + [p]
  {
    EncodeAllOfFrames(s);
    assert EncodeAll(Frames(s)) + [] == s;
    FramesSoFar(Frames(s), s, Encode(p));
    ReadOne(p, []);
    assert Encode(p) + [] == Encode(p);
  }

  /** Four bytes more than its payload for every frame. */
  function SizeOf(ps: seq<Payload>): nat {
    if ps == [] then 0 else WORD_SIZE + |ps[0]| + SizeOf(ps[1..])
  }

  lemma {:induction false} EncodeAllSize(ps: seq<Payload>)
    ensures |EncodeAll(ps)| == SizeOf(ps)
  {
    if ps != [] {
      EncodeAllSize(ps[1..]);
    }
  }

  /** More bytes never change the frames already read. */
  lemma {:induction false} FramesMonotone(s: seq<byte>, t: seq<byte>)
    requires s <= t
    ensures Frames(s) <= Frames(t)
    decreases |s|
  {
    if !Incomplete(s) {
      assert s[..WORD_SIZE] == t[..WORD_SIZE];
      var e := WORD_SIZE + Word(s[..WORD_SIZE]);
      assert s[WORD_SIZE..e] == t[WORD_SIZE..e];
      FramesMonotone(s[e..], t[e..]);
    }
  }

  /** The encoding is uniquely readable even from a cut-off stream: if the bytes
      read so far are the encoding of `xs`, and they are a prefix of the encoding
      of everything the peer sent, then `xs` is a prefix of what the peer sent. */
  lemma EncodingIsPrefixFree(xs: seq<Payload>, ys: seq<Payload>)
    requires EncodeAll(xs) <= EncodeAll(ys)
    ensures xs <= ys
  {
    FramesOfEncodeAll(xs, []);
    FramesOfEncodeAll(ys, []);
    assert EncodeAll(xs) + [] == EncodeAll(xs) && EncodeAll(ys) + [] == EncodeAll(ys);
    FramesMonotone(EncodeAll(xs), EncodeAll(ys));
  }

  // ---------- arrivals ----------

  /** The bytes `s` of a stream end between two frames, or inside a frame of which the
      header and at least one more byte are among them. */
  predicate StopsWell(s: seq<byte>) {
    Rest(s) == [] || |Rest(s)| > WORD_SIZE
  }

  /** Every message is of a size from 1 to `limit` - 1. */
  predicate Sized(s: seq<byte>, limit: nat) {
    forall p | p in Frames(s) :: 0 < |p| < limit
  }

  lemma SizedMonotone(s: seq<byte>, t: seq<byte>, limit: nat)
    requires s <= t && Sized(t, limit)
    ensures Sized(s, limit)
  {
    FramesMonotone(s, t);
  }

  // ---------- reports ----------

  /** At position `i` of `s` stands the frame of `p`. */
  predicate FrameAt(p: Payload, s: seq<byte>, i: nat) {
    i + WORD_SIZE + |p| <= |s| && s[i..i + WORD_SIZE + |p|] == Encode(p)
  }

  /** The frames of `ps` stand in `s`, one behind the other, perhaps with gaps. */
  ghost predicate Within(ps: seq<Payload>, s: seq<byte>)
    decreases |ps|
  {
    ps == [] || exists i: nat | i <= |s| :: FrameAt(ps[|ps| - 1], s, i) && Within(ps[..|ps| - 1], s[..i])
  }

  lemma WithinSnoc(ps: seq<Payload>, s: seq<byte>, p: Payload)
    requires Within(ps, s)
    ensures Within(ps + [p], s + Encode(p))
  {
    var qs, t := ps + [p], s + Encode(p);
    assert qs[..|qs| - 1] == ps && t[..|s|] == s && FrameAt(p, t, |s|);
  }

  lemma WithinMore(ps: seq<Payload>, s: seq<byte>, t: seq<byte>)
    requires Within(ps, s) && s <= t
    ensures Within(ps, t)
  {
    if ps != [] {
      var i: nat :| i <= |s| && FrameAt(ps[|ps| - 1], s, i) && Within(ps[..|ps| - 1], s[..i]);
      assert t[..i] == s[..i] && FrameAt(ps[|ps| - 1], t, i);
    }
  }
}
