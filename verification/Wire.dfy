/** Little-endian integers and streams of records that carry their own length.  The ACPI table
    builders emit such records; the readers of the tables find them again by their length fields
    alone. */
module Wire {
  import opened Wrappers

  type byte = b: int | 0 <= b < 256
  type Bytes = seq<byte>

  const U16_LIMIT := 0x1_0000
  const U32_LIMIT := 0x1_0000_0000
  const U64_LIMIT := 0x1_0000_0000_0000_0000

  function Le16(v: nat): (b: Bytes)
    ensures |b| == 2
  {
    [v % 256, v / 256 % 256]
  }

  function Le32(v: nat): (b: Bytes)
    ensures |b| == 4
  {
    Le16(v % U16_LIMIT) + Le16(v / U16_LIMIT)
  }

  function Le64(v: nat): (b: Bytes)
    ensures |b| == 8
  {
    Le32(v % U32_LIMIT) + Le32(v / U32_LIMIT)
  }

  function Zeros(n: nat): (b: Bytes)
    ensures |b| == n
  {
    seq(n, _ => 0)
  }

  function Get16(b: Bytes, at: nat): (v: nat)
    requires at + 2 <= |b|
    ensures v < U16_LIMIT
  {
    b[at] as int + 256 * (b[at + 1] as int)
  }

  function Get32(b: Bytes, at: nat): (v: nat)
    requires at + 4 <= |b|
    ensures v < U32_LIMIT
  {
    Get16(b, at) + U16_LIMIT * Get16(b, at + 2)
  }

  function Get64(b: Bytes, at: nat): (v: nat)
    requires at + 8 <= |b|
    ensures v < U64_LIMIT
  {
    Get32(b, at) + U32_LIMIT * Get32(b, at + 4)
  }

  lemma Get16RoundTrip(b: Bytes, at: nat, v: nat)
    requires at + 2 <= |b| && v < U16_LIMIT
    requires b[at..at + 2] == Le16(v)
    ensures Get16(b, at) == v
  {
    assert b[at] == b[at..at + 2][0] && b[at + 1] == b[at..at + 2][1];
  }

  lemma Get32RoundTrip(b: Bytes, at: nat, v: nat)
    requires at + 4 <= |b| && v < U32_LIMIT
    requires b[at..at + 4] == Le32(v)
    ensures Get32(b, at) == v
  {
    assert b[at..at + 2] == b[at..at + 4][..2] == Le16(v % U16_LIMIT);
    assert b[at + 2..at + 4] == b[at..at + 4][2..] == Le16(v / U16_LIMIT);
    Get16RoundTrip(b, at, v % U16_LIMIT);
    Get16RoundTrip(b, at + 2, v / U16_LIMIT);
  }

  lemma Get64RoundTrip(b: Bytes, at: nat, v: nat)
    requires at + 8 <= |b| && v < U64_LIMIT
    requires b[at..at + 8] == Le64(v)
    ensures Get64(b, at) == v
  {
    assert b[at..at + 4] == b[at..at + 8][..4] == Le32(v % U32_LIMIT);
    assert b[at + 4..at + 8] == b[at..at + 8][4..] == Le32(v / U32_LIMIT);
    Get32RoundTrip(b, at, v % U32_LIMIT);
    Get32RoundTrip(b, at + 4, v / U32_LIMIT);
  }

  /** An array of 32-bit words. */
  function Words(ws: seq<nat>): (b: Bytes)
    ensures |b| == 4 * |ws|
  {
    if ws == [] then [] else Words(ws[..|ws| - 1]) + Le32(ws[|ws| - 1])
  }

  lemma {:induction false} WordReadsBack(pre: Bytes, ws: seq<nat>, post: Bytes, i: nat)
    requires i < |ws| && ws[i] < U32_LIMIT
    ensures Get32(pre + Words(ws) + post, |pre| + 4 * i) == ws[i]
  {
    var init, tail := ws[..|ws| - 1], Le32(ws[|ws| - 1]);
    var all := pre + Words(ws) + post;
    assert all == pre + Words(init) + (tail + post);
    if i < |init| {
      WordReadsBack(pre, init, tail + post, i);
    } else {
      assert all[|pre| + 4 * i..|pre| + 4 * i + 4] == tail;
      Get32RoundTrip(all, |pre| + 4 * i, ws[i]);
    }
  }

  function Concat(chunks: seq<Bytes>): Bytes {
    if chunks == [] then [] else chunks[0] + Concat(chunks[1..])
  }

  lemma {:induction false} ConcatAppend(a: seq<Bytes>, b: seq<Bytes>)
    ensures Concat(a + b) == Concat(a) + Concat(b)
  {
    hide Concat;
    if a == [] {
      assert a + b == b;
      ConcatNothing();
      assert [] + Concat(b) == Concat(b);
    } else {
      ConcatAppend(a[1..], b);
      assert (a + b)[0] == a[0] && (a + b)[1..] == a[1..] + b;
      ConcatHead(a + b);
      ConcatHead(a);
      PlusAssociates(a[0], Concat(a[1..]), Concat(b));
    }
  }

  lemma PlusAssociates(a: Bytes, b: Bytes, c: Bytes)
    ensures a + (b + c) == a + b + c
  {
  }

  lemma ConcatNothing()
    ensures Concat([]) == []
  {
  }

  lemma ConcatOne(a: seq<Bytes>, c: Bytes)
    ensures Concat(a + [c]) == Concat(a) + c
  {
    ConcatAppend(a, [c]);
    assert Concat([c]) == c + Concat([]) == c;
  }

  /** Where chunk `k` starts when the stream starts at `base`. */
  function Start(chunks: seq<Bytes>, base: nat, k: nat): nat
    requires k <= |chunks|
  {
    base + |Concat(chunks[..k])|
  }

  /** Where a record keeps its length: a field of one or two bytes. */
  datatype LengthField = LengthField(at: nat, wide: bool) {
    function End(): nat {
      if wide then at + 2 else at + 1
    }

    function Of(b: Bytes): nat
      requires End() <= |b|
    {
      if wide then Get16(b, at) else b[at]
    }
  }

  /** The chunk states its own length. */
  ghost predicate Framed(chunk: Bytes, len: LengthField) {
    len.End() <= |chunk| && len.Of(chunk) == |chunk|
  }

  /** A reader that steps from record to record by their length fields. */
  function Frames(b: Bytes, len: LengthField): Option<seq<Bytes>>
    decreases |b|
  {
    if b == [] then Some([])
    else if |b| < len.End() then None
    else
      var n := len.Of(b);
      if n < len.End() || |b| < n then None
      else
        match Frames(b[n..], len)
        case None => None
        case Some(rest) => Some([b[..n]] + rest)
  }

  lemma {:induction false} FramesRecovered(chunks: seq<Bytes>, len: LengthField)
    requires forall c :: c in chunks ==> Framed(c, len)
    ensures Frames(Concat(chunks), len) == Some(chunks)
  {
    if chunks != [] {
      var c, rest := chunks[0], Concat(chunks[1..]);
      FramesRecovered(chunks[1..], len);
      assert c in chunks;
      assert len.Of(c + rest) == len.Of(c);
      assert (c + rest)[..|c|] == c && (c + rest)[|c|..] == rest;
      assert Concat(chunks) == c + rest && [c] + chunks[1..] == chunks;
    }
  }

  /** Conversely, a walk that finds the chunks shows that each states its own length. */
  lemma {:induction false} FramesFramed(chunks: seq<Bytes>, len: LengthField)
    requires forall c :: c in chunks ==> len.End() <= |c|
    requires Frames(Concat(chunks), len) == Some(chunks)
    ensures forall c :: c in chunks ==> Framed(c, len)
  {
    if chunks != [] {
      var c, rest := chunks[0], Concat(chunks[1..]);
      assert c in chunks;
      assert len.Of(c + rest) == len.Of(c);
      var n := len.Of(c);
      var all := c + rest;
      assert Frames(all, len).value[0] == all[..n];
      assert |c| == n;
      assert all[n..] == rest;
      assert Frames(rest, len) == Some(chunks[1..]);
      FramesFramed(chunks[1..], len);
    }
  }

  /** The record that starts at `offset`, as a reader finds it by walking from `base`. */
  function IndexAt(chunks: seq<Bytes>, base: nat, offset: nat): Option<nat> {
    if chunks == [] then None
    else if offset == base then Some(0)
    else
      match IndexAt(chunks[1..], base + |chunks[0]|, offset)
      case None => None
      case Some(k) => Some(k + 1)
  }

  lemma {:induction false} IndexAtStart(chunks: seq<Bytes>, base: nat, k: nat)
    requires forall c :: c in chunks ==> 0 < |c|
    requires k < |chunks|
    ensures IndexAt(chunks, base, Start(chunks, base, k)) == Some(k)
  {
    if k > 0 {
      IndexAtStart(chunks[1..], base + |chunks[0]|, k - 1);
      assert chunks[..k][1..] == chunks[1..][..k - 1];
      assert chunks[0] in chunks;
    }
  }

  /** Chunk `k` occupies its own stretch of the stream. */
  lemma ChunkAt(chunks: seq<Bytes>, k: nat)
    requires k < |chunks|
    ensures var at := Start(chunks, 0, k);
            at + |chunks[k]| <= |Concat(chunks)| && Concat(chunks)[at..at + |chunks[k]|] == chunks[k]
  {
    hide Concat;
    ConcatAppend(chunks[..k], chunks[k..]);
    assert chunks[..k] + chunks[k..] == chunks;
    ConcatHead(chunks[k..]);
  }

  lemma ConcatHead(chunks: seq<Bytes>)
    requires chunks != []
    ensures Concat(chunks) == chunks[0] + Concat(chunks[1..])
  {
  }

  /** Equal-sized chunks form an array. */
  lemma {:induction false} UniformStart(chunks: seq<Bytes>, size: nat, k: nat)
    requires k <= |chunks| && forall c :: c in chunks ==> |c| == size
    ensures Start(chunks, 0, k) == size * k
  {
    hide Concat;
    if k == 0 {
      assert chunks[..0] == [];
      ConcatNothing();
      assert size * 0 == 0;
    } else {
      UniformStart(chunks, size, k - 1);
      ConcatOne(chunks[..k - 1], chunks[k - 1]);
      assert chunks[..k - 1] + [chunks[k - 1]] == chunks[..k];
      assert chunks[k - 1] in chunks;
      TimesNext(size, k - 1);
    }
  }

  lemma TimesNext(size: nat, k: nat)
    ensures size * (k + 1) == size * k + size
  {
  }

  /** Element `k` of an array that stands behind a header. */
  lemma ElementAt(head: Bytes, chunks: seq<Bytes>, tail: Bytes, size: nat, k: nat)
    requires k < |chunks| && forall c :: c in chunks ==> |c| == size
    ensures |Concat(chunks)| == size * |chunks|
    ensures var at := |head| + size * k;
            && at + size <= |head + Concat(chunks) + tail|
            && (head + Concat(chunks) + tail)[at..at + size] == chunks[k]
  {
    hide Concat;
    UniformStart(chunks, size, k);
    UniformStart(chunks, size, |chunks|);
    assert chunks[..|chunks|] == chunks;
    ChunkAt(chunks, k);
    assert chunks[k] in chunks;
    SliceBehind(head, Concat(chunks), tail, Start(chunks, 0, k), size);
  }

  lemma SliceBehind(head: Bytes, body: Bytes, tail: Bytes, at: nat, size: nat)
    requires at + size <= |body|
    ensures |head| + at + size <= |head + body + tail|
    ensures (head + body + tail)[|head| + at..|head| + at + size] == body[at..at + size]
  {
  }
}
