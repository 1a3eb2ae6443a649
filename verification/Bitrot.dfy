/**
 Files protected against bit rot. The streaming form interleaves each shard of the payload with its
 hash; the writer, the verifier, the reader and the size arithmetic must agree on that framing.
 */
module Bitrot {
  import opened Options
  import opened Bytes

  newtype int64 = x: int | -0x8000_0000_0000_0000 <= x < 0x8000_0000_0000_0000

  const MAX_INT64: int64 := 0x7fff_ffff_ffff_ffff

  const HASH_SIZE := 32

  const BLOCK_SIZE: int64 := 10485760

  datatype Algorithm = SHA256 | BLAKE2b512 | HighwayHash256 | HighwayHash256S | Unsupported {
    predicate Available() { !Unsupported? }

    predicate Streaming() { HighwayHash256S? }
  }

  /** The sum of the streaming algorithm: any function with results of this width. */
  type Digest = s: seq<byte> | |s| == HASH_SIZE witness seq(HASH_SIZE, _ => 0)

  type Hash = seq<byte> -> Digest

  function Min(a: int, b: int): int { if a < b then a else b }

  // ---- The format ----

  /** Each shard of the payload, preceded by its hash; all shards are full but the last. */
  function Encode(h: Hash, payload: seq<byte>, shard: nat): seq<byte>
    requires shard > 0
    decreases |payload|
  {
    if payload == [] then []
    else
      var k := Min(|payload|, shard);
      h(payload[..k]) + payload[..k] + Encode(h, payload[k..], shard)
  }

  function ShardCount(n: nat, shard: nat): nat
    requires shard > 0
    decreases n
  {
    if n == 0 then 0 else 1 + ShardCount(n - Min(n, shard), shard)
  }

  function EncodedSize(n: nat, shard: nat): nat
    requires shard > 0
  {
    ShardCount(n, shard) * HASH_SIZE + n
  }

  lemma {:induction false} EncodedLength(h: Hash, payload: seq<byte>, shard: nat)
    requires shard > 0
    ensures |Encode(h, payload, shard)| == EncodedSize(|payload|, shard)
    decreases |payload|
  {
    if payload != [] { EncodedLength(h, payload[Min(|payload|, shard)..], shard); }
  }

  // ---- Sizes ----

  lemma {:induction false} CountBounds(n: nat, shard: nat)
    requires shard > 0
    ensures (ShardCount(n, shard) - 1) * shard < n <= ShardCount(n, shard) * shard
    decreases n
  {
    if n > 0 {
      var more := n - Min(n, shard);
      CountBounds(more, shard);
      Distribute(ShardCount(more, shard), shard);
    }
  }

  lemma BetweenMultiples(a: int, b: int, n: int, shard: nat)
    requires shard > 0 && (a - 1) * shard < n <= a * shard && (b - 1) * shard < n <= b * shard
    ensures a == b
  {}

  lemma MultiplyMonotone(a: int, b: int, shard: nat)
    requires a <= b
    ensures a * shard <= b * shard
  {}

  lemma Distribute(q: int, d: int)
    ensures (q + 1) * d == q * d + d && (q - 1) * d == q * d - d
  {}

  function RoundedUp(q: int, r: int): int { q + if r != 0 then 1 else 0 }

  lemma QuotientBetween(n: int, d: int)
    requires d > 0
    ensures (RoundedUp(n / d, n % d) - 1) * d < n <= RoundedUp(n / d, n % d) * d
  {}

  /** The number of shards is the quotient rounded up. */
  lemma CountIsQuotient(n: nat, shard: nat)
    requires shard > 0
    ensures ShardCount(n, shard) == RoundedUp(n / shard, n % shard)
  {
    CountBounds(n, shard);
    QuotientBetween(n, shard);
    BetweenMultiples(RoundedUp(n / shard, n % shard), ShardCount(n, shard), n, shard);
  }

  lemma QuotientSmall(n: nat, shard: nat)
    requires shard > 0
    ensures 0 <= n / shard <= n
    ensures n % shard != 0 ==> n / shard < n
  {
    var q, r := n / shard, n % shard;
    assert n == q * shard + r;
    assert q * shard >= q by { MultiplyMonotone(1, shard, q); }
  }

  /** The size of a protected file, or -1. */
  function ShardFileSize(size: int64, shardSize: int64, algo: Algorithm): (r: int64)
    ensures r == -1 <==>
            size < 0 || !algo.Available()
            || (algo.Streaming()
                && (shardSize <= 0 || shardSize > 10_485_760
                    || EncodedSize(size as int, shardSize as int) > MAX_INT64 as int))
    ensures r != -1 && algo.Streaming() ==> r as int == EncodedSize(size as int, shardSize as int)
    ensures r != -1 && !algo.Streaming() ==> r == size
  {
    if size < 0 || !algo.Available() then -1
    else if !algo.Streaming() then size
    else if shardSize <= 0 || shardSize > BLOCK_SIZE then -1
    else
      QuotientSmall(size as int, shardSize as int);
      CountIsQuotient(size as int, shardSize as int);
      var n := if size % shardSize != 0 then size / shardSize + 1 else size / shardSize;
      if n > (MAX_INT64 - size) / HASH_SIZE as int64 then -1 else n * HASH_SIZE as int64 + size
  }

  /** Go's division truncates toward zero. */
  function Quotient(n: int, d: int): int
    requires d > 0
  {
    if n > 0 then n / d else -((-n) / d)
  }

  /** The ceiling of a fraction with a positive denominator. */
  function Ceiling(n: int, d: int): (r: int)
    requires d > 0
    ensures (r - 1) * d < n <= r * d
  {
    if n > 0 && n % d != 0 then
      QuotientBetween(n, d);
      Quotient(n, d) + 1
    else if n > 0 then
      QuotientBetween(n, d);
      Quotient(n, d)
    else
      TruncatedBetween(-n, d);
      Quotient(n, d)
  }

  lemma TruncatedBetween(m: int, d: int)
    requires m >= 0 && d > 0
    ensures (-(m / d) - 1) * d < -m <= -(m / d) * d
  {}

  /** The ceiling of a fraction, and zero for a zero denominator. */
  function CeilFrac(numerator: int, denominator: int): (r: int)
    ensures denominator > 0 ==> (r - 1) * denominator < numerator <= r * denominator
    ensures denominator < 0 ==> (r - 1) * denominator > numerator >= r * denominator
    ensures denominator == 0 ==> r == 0
  {
    if denominator == 0 then 0
    else if denominator < 0 then
      var r := Ceiling(-numerator, -denominator);
      NegateProducts(r, denominator);
      r
    else Ceiling(numerator, denominator)
  }

  lemma NegateProducts(r: int, d: int)
    ensures r * -d == -(r * d) && (r - 1) * -d == -((r - 1) * d)
  {}

  /** The size announced when a file is created. Multiplication and addition wrap around. */
  function Wrap(x: int): (r: int)
    ensures -0x8000_0000_0000_0000 <= r < 0x8000_0000_0000_0000
  {
    (x + 0x8000_0000_0000_0000) % 0x1_0000_0000_0000_0000 - 0x8000_0000_0000_0000
  }

  function CreateSize(length: int, shardSize: int): int {
    if length == -1 then -1 else Wrap(Wrap(CeilFrac(length, shardSize) * HASH_SIZE) + length)
  }

  lemma WrapSum(a: nat, b: nat)
    ensures Wrap(Wrap(a) + b) == a + b <==> a + b <= MAX_INT64 as int
  {}

  lemma CeilFracIsCount(n: nat, shard: nat)
    requires shard > 0
    ensures CeilFrac(n, shard) == ShardCount(n, shard)
  {
    CountBounds(n, shard);
    BetweenMultiples(CeilFrac(n, shard), ShardCount(n, shard), n, shard);
  }

  /** The announced size is the size of the encoding exactly when the size function does not refuse. */
  lemma CreateSizeExact(length: int64, shardSize: int64)
    requires length >= 0 && 0 < shardSize <= BLOCK_SIZE
    ensures CreateSize(length as int, shardSize as int) == EncodedSize(length as int, shardSize as int)
       <==> ShardFileSize(length, shardSize, HighwayHash256S) != -1
  {
    CeilFracIsCount(length as int, shardSize as int);
    WrapSum(ShardCount(length as int, shardSize as int) * HASH_SIZE, length as int);
  }

  // ---- Verification ----

  /** The stream is the encoding of some payload of the given length. */
  ghost predicate Matches(h: Hash, stream: seq<byte>, n: nat, shard: nat)
    requires shard > 0
  {
    exists payload :: |payload| == n && stream == Encode(h, payload, shard)
  }

  predicate FrameOk(h: Hash, stream: seq<byte>, k: nat) {
    |stream| >= HASH_SIZE + k && stream[..HASH_SIZE] == h(stream[HASH_SIZE..HASH_SIZE + k])
  }

  lemma FirstFrame(h: Hash, payload: seq<byte>, shard: nat, k: nat)
    requires shard > 0 && payload != [] && k == Min(|payload|, shard)
    ensures FrameOk(h, Encode(h, payload, shard), k)
    ensures Encode(h, payload, shard)[HASH_SIZE..HASH_SIZE + k] == payload[..k]
    ensures Encode(h, payload, shard)[HASH_SIZE + k..] == Encode(h, payload[k..], shard)
  {}

  lemma Slice(r: seq<byte>, at: nat, end: nat, i: nat, j: nat)
    requires at <= end <= |r| && i <= j <= end - at
    ensures r[at..end][i..j] == r[at + i..at + j]
  {
    forall x | 0 <= x < j - i ensures r[at..end][i..j][x] == r[at + i..at + j][x] {
      assert r[at..end][i..j][x] == r[at..end][i + x];
    }
  }

  lemma JoinFrame(h: Hash, stream: seq<byte>, more: seq<byte>, shard: nat, k: nat)
    requires shard > 0 && 0 < k && k == Min(k + |more|, shard)
    requires FrameOk(h, stream, k) && stream[HASH_SIZE + k..] == Encode(h, more, shard)
    ensures stream == Encode(h, stream[HASH_SIZE..HASH_SIZE + k] + more, shard)
  {}

  lemma MatchesHead(h: Hash, stream: seq<byte>, n: nat, shard: nat, k: nat)
    requires shard > 0 && n > 0 && k == Min(n, shard) && Matches(h, stream, n, shard)
    ensures FrameOk(h, stream, k) && Matches(h, stream[HASH_SIZE + k..], n - k, shard)
  {
    var payload :| |payload| == n && stream == Encode(h, payload, shard);
    FirstFrame(h, payload, shard, k);
    assert |payload[k..]| == n - k;
  }

  lemma MatchesBy(h: Hash, stream: seq<byte>, payload: seq<byte>, n: nat, shard: nat)
    requires shard > 0 && |payload| == n && stream == Encode(h, payload, shard)
    ensures Matches(h, stream, n, shard)
  {}

  lemma MatchesCons(h: Hash, stream: seq<byte>, n: nat, shard: nat, k: nat)
    requires shard > 0 && n > 0 && k == Min(n, shard)
    requires FrameOk(h, stream, k) && Matches(h, stream[HASH_SIZE + k..], n - k, shard)
    ensures Matches(h, stream, n, shard)
  {
    var more :| |more| == n - k && stream[HASH_SIZE + k..] == Encode(h, more, shard);
    JoinFrame(h, stream, more, shard, k);
    MatchesBy(h, stream, stream[HASH_SIZE..HASH_SIZE + k] + more, n, shard);
  }

  lemma MatchesNothing(h: Hash, shard: nat)
    requires shard > 0
    ensures Matches(h, [], 0, shard)
  {}

  lemma MatchesLength(h: Hash, stream: seq<byte>, n: nat, shard: nat)
    requires shard > 0 && Matches(h, stream, n, shard)
    ensures |stream| == EncodedSize(n, shard)
  {
    var payload :| |payload| == n && stream == Encode(h, payload, shard);
    EncodedLength(h, payload, shard);
  }

  /** What verification promises, for the whole-file algorithms and for the streaming one. */
  ghost predicate Intact(h: Hash, sum: seq<byte> -> seq<byte>, r: seq<byte>, wantSize: int, partSize: int,
                         algo: Algorithm, want: seq<byte>, shardSize: int) {
    && wantSize >= 0 && partSize >= 0 && algo.Available()
    && if algo.Streaming()
       then 0 < shardSize <= BLOCK_SIZE as int && wantSize <= |r| && Matches(h, r[..wantSize], partSize, shardSize)
       else |r| == wantSize && sum(r) == want
  }

  /** Verifies a stream. `h` is the sum of the streaming algorithm, `sum` that of the chosen whole-file one. */
  method Verify(h: Hash, sum: seq<byte> -> seq<byte>, r: seq<byte>, wantSize: int64, partSize: int64,
                algo: Algorithm, want: seq<byte>, shardSize: int64) returns (ok: bool)
    ensures ok <==> Intact(h, sum, r, wantSize as int, partSize as int, algo, want, shardSize as int)
  {
    if wantSize < 0 || partSize < 0 || !algo.Available() { return false; }
    if algo.Streaming() && (shardSize <= 0 || shardSize > BLOCK_SIZE) { return false; }
    if !algo.Streaming() { return |r| == wantSize as int && sum(r) == want; }
    var left := wantSize;
    if left != ShardFileSize(partSize, shardSize, algo) {
      WrongSize(h, r, wantSize, partSize, shardSize);
      return false;
    }
    ok := Frames(h, r, wantSize, partSize, shardSize);
  }

  lemma WrongSize(h: Hash, r: seq<byte>, wantSize: int64, partSize: int64, shardSize: int64)
    requires wantSize >= 0 && partSize >= 0 && 0 < shardSize <= BLOCK_SIZE
    requires wantSize != ShardFileSize(partSize, shardSize, HighwayHash256S)
    ensures wantSize as int <= |r| ==> !Matches(h, r[..wantSize], partSize as int, shardSize as int)
  {
    if wantSize as int <= |r| && Matches(h, r[..wantSize], partSize as int, shardSize as int) {
      MatchesLength(h, r[..wantSize], partSize as int, shardSize as int);
      assert false;
    }
  }

  /** The loop of verification: `left` counts down to zero, and the shard size shrinks at the end. */
  method Frames(h: Hash, r: seq<byte>, wantSize: int64, partSize: int64, shardSize0: int64) returns (ok: bool)
    requires partSize >= 0 && 0 < shardSize0 && wantSize as int == EncodedSize(partSize as int, shardSize0 as int)
    ensures ok <==> wantSize as int <= |r| && Matches(h, r[..wantSize], partSize as int, shardSize0 as int)
  {
    var left, shardSize, at := wantSize, shardSize0, 0;
    ghost var n: nat, full: nat, end: nat := partSize as int, shardSize0 as int, wantSize as int;
    while left > 0
      invariant 0 <= left <= wantSize && at == end - left as int && at <= |r|
      invariant left as int == EncodedSize(n, full)
      invariant n > 0 ==> shardSize as int == full
      invariant end <= |r| ==> (Matches(h, r[..end], partSize as int, full) <==> Matches(h, r[at..end], n, full))
      decreases left
    {
      LastShard(n, full);
      if |r| - at < HASH_SIZE { return false; }
      var hashBytes := r[at..at + HASH_SIZE];
      left := left - HASH_SIZE as int64;
      if left < shardSize { shardSize := left; }
      if |r| - at - HASH_SIZE < shardSize as int { return false; }
      var shard := r[at + HASH_SIZE..at + HASH_SIZE + shardSize as int];
      left := left - shardSize;
      if end <= |r| { NextFrame(h, r, at, end, n, full, shardSize as int); }
      if h(shard) != hashBytes { return false; }
      at, n := at + HASH_SIZE + shardSize as int, n - shardSize as int;
    }
    assert EncodedSize(n, full) == 0 ==> n == 0;
    assert at <= |r| && r[at..end] == [];
    MatchesNothing(h, full);
    ok := true;
  }

  lemma Unfolded(n: nat, shard: nat)
    requires shard > 0 && n > 0
    ensures EncodedSize(n, shard) == HASH_SIZE + Min(n, shard) + EncodedSize(n - Min(n, shard), shard)
  {}

  /** The verifier's choice of the next shard's length, from the bytes left alone, is right. */
  lemma LastShard(n: nat, shard: nat)
    requires shard > 0 && EncodedSize(n, shard) > 0
    ensures n > 0
    ensures Min(EncodedSize(n, shard) - HASH_SIZE, shard) == Min(n, shard)
    ensures EncodedSize(n, shard) == HASH_SIZE + Min(n, shard) + EncodedSize(n - Min(n, shard), shard)
  {
    if n <= shard { assert ShardCount(0, shard) == 0; }
  }

  lemma NextFrame(h: Hash, r: seq<byte>, at: nat, end: nat, n: nat, shard: nat, k: nat)
    requires shard > 0 && n > 0 && at <= end <= |r| && end - at == EncodedSize(n, shard) && k == Min(n, shard)
    ensures at + HASH_SIZE + k <= end
    ensures Matches(h, r[at..end], n, shard)
       <==> h(r[at + HASH_SIZE..at + HASH_SIZE + k]) == r[at..at + HASH_SIZE]
            && Matches(h, r[at + HASH_SIZE + k..end], n - k, shard)
  {
    var stream := r[at..end];
    Unfolded(n, shard);
    Slice(r, at, end, 0, HASH_SIZE);
    Slice(r, at, end, HASH_SIZE, HASH_SIZE + k);
    Slice(r, at, end, HASH_SIZE + k, end - at);
    var tail := r[at + HASH_SIZE + k..end];
    assert stream[HASH_SIZE + k..] == tail;
    if Matches(h, stream, n, shard) {
      MatchesHead(h, stream, n, shard, k);
    } else if FrameOk(h, stream, k) && Matches(h, tail, n - k, shard) {
      MatchesCons(h, stream, n, shard, k);
    }
  }

  // ---- Writing ----

  /** What one call of the writer adds. */
  function Framed(h: Hash, chunk: seq<byte>): seq<byte> { if chunk == [] then [] else h(chunk) + chunk }

  class StreamingWriter {
    const h: Hash
    var stream: seq<byte>

    constructor (h: Hash)
      ensures stream == [] && this.h == h
    {
      this.h := h;
      stream := [];
    }

    /** The underlying write may fail, having written part of its argument. */
    method Append(bytes: seq<byte>) returns (ok: bool)
      modifies this
      ensures ok ==> stream == old(stream) + bytes
      ensures !ok ==> exists n :: 0 <= n <= |bytes| && stream == old(stream) + bytes[..n]
    {
      if * {
        stream := stream + bytes;
        return true;
      }
      var n :| 0 <= n <= |bytes|;
      stream := stream + bytes[..n];
      return false;
    }

    method Write(p: seq<byte>) returns (ok: bool)
      modifies this
      ensures ok ==> stream == old(stream) + Framed(h, p)
      ensures !ok ==> p != [] && exists n :: 0 <= n <= |Framed(h, p)| && stream == old(stream) + Framed(h, p)[..n]
    {
      if |p| == 0 { return true; }
      var hashBytes := h(p);
      ok := Append(hashBytes);
      if !ok {
        ghost var n :| 0 <= n <= |hashBytes| && stream == old(stream) + hashBytes[..n];
        assert Framed(h, p)[..n] == hashBytes[..n];
        return false;
      }
      ghost var was := stream;
      ok := Append(p);
      if !ok {
        ghost var n :| 0 <= n <= |p| && stream == was + p[..n];
        assert Framed(h, p)[..HASH_SIZE + n] == hashBytes + p[..n];
      }
    }
  }

  function Written(h: Hash, chunks: seq<seq<byte>>): seq<byte> {
    if chunks == [] then [] else Framed(h, chunks[0]) + Written(h, chunks[1..])
  }

  function Joined(chunks: seq<seq<byte>>): seq<byte> {
    if chunks == [] then [] else chunks[0] + Joined(chunks[1..])
  }

  /** Full chunks, then one that may be shorter; empty ones do not matter. */
  predicate Sharded(chunks: seq<seq<byte>>, shard: nat) {
    chunks == []
    || ((chunks[0] == [] || |chunks[0]| == shard || (|chunks[0]| < shard && Joined(chunks[1..]) == []))
        && Sharded(chunks[1..], shard))
  }

  /** The writer's output over a payload cut into shards is the encoding of the payload. */
  lemma {:induction false} WrittenIsEncoded(h: Hash, chunks: seq<seq<byte>>, shard: nat)
    requires shard > 0 && Sharded(chunks, shard)
    ensures Written(h, chunks) == Encode(h, Joined(chunks), shard)
  {
    if chunks != [] {
      WrittenIsEncoded(h, chunks[1..], shard);
      var first, more := chunks[0], Joined(chunks[1..]);
      if first == [] {
        assert first + more == more;
      } else {
        assert (first + more)[..|first|] == first && (first + more)[|first|..] == more;
        assert |first| == Min(|first + more|, shard);
      }
    }
  }

  /** Every output of the writer verifies, whatever follows it in the file. */
  lemma WrittenVerifies(h: Hash, sum: seq<byte> -> seq<byte>, chunks: seq<seq<byte>>, shard: nat, after: seq<byte>,
                        want: seq<byte>)
    requires 0 < shard <= BLOCK_SIZE as int && Sharded(chunks, shard)
    ensures Intact(h, sum, Written(h, chunks) + after, |Written(h, chunks)|, |Joined(chunks)|, HighwayHash256S, want,
                   shard)
  {
    WrittenIsEncoded(h, chunks, shard);
    assert (Written(h, chunks) + after)[..|Written(h, chunks)|] == Written(h, chunks);
  }

  // ---- Reading ----

  datatype Outcome = Unexpected | OpenFailed | ShortRead | Corrupt | Data(bytes: seq<byte>)

  datatype Reader = Reader(rc: Option<seq<byte>>, currOffset: int)

  /** The part of a file between two offsets, as far as it exists. */
  function Section(file: seq<byte>, from: int, to: int): seq<byte> {
    if 0 <= from <= to && from <= |file| then file[from..Min(to, |file|)] else []
  }

  function StreamOffset(offset: int, shard: int): int
    requires shard > 0
  {
    Quotient(offset, shard) * HASH_SIZE + offset
  }

  /** Where the stream of a payload that is read up to `till` ends. */
  function StreamEnd(till: int, shard: int): int { CeilFrac(till, shard) * HASH_SIZE + till }

  /** One read, from the state of the reader before it to its outcome and the state after it. */
  function Read(h: Hash, file: seq<byte>, shard: int, till: int, st: Reader, n: nat, offset: int, opens: bool): (Reader,
                Outcome)
    requires shard > 0
  {
    if offset % shard != 0 then (st, Unexpected)
    else if st.rc.None? && !opens then (st.(currOffset := offset), OpenFailed)
    else
      var now := if st.rc.Some? then st else Reader(Some(Section(file, StreamOffset(offset, shard), till)), offset);
      var rc := now.rc.value;
      if offset != now.currOffset then (now, Unexpected)
      else if |rc| < HASH_SIZE + n then (now.(rc := Some([])), ShortRead)
      else
        var data, after := rc[HASH_SIZE..HASH_SIZE + n], now.(rc := Some(rc[HASH_SIZE + n..]));
        if h(data) != rc[..HASH_SIZE] then (after, Corrupt) else (after.(currOffset := offset + n), Data(data))
  }

  class StreamingReader {
    const h: Hash
    const file: seq<byte>
    const shardSize: int
    const tillOffset: int
    var rc: Option<seq<byte>>
    var currOffset: int

    ghost function State(): Reader
      reads this
    {
      Reader(rc, currOffset)
    }

    constructor (h: Hash, file: seq<byte>, tillOffset: int, shardSize: int)
      ensures this.h == h && this.file == file && this.shardSize == shardSize
      ensures this.tillOffset == StreamEnd(tillOffset, shardSize)
      ensures State() == Reader(None, 0)
    {
      this.h, this.file, this.shardSize := h, file, shardSize;
      this.tillOffset := StreamEnd(tillOffset, shardSize);
      rc, currOffset := None, 0;
    }

    /** Fills `buf` from the open stream; at a short end everything left is consumed. */
    method ReadFull(buf: array<byte>) returns (ok: bool)
      requires rc.Some?
      modifies `rc, buf
      ensures ok <==> |old(rc).value| >= buf.Length
      ensures ok ==> buf[..] == old(rc).value[..buf.Length] && rc == Some(old(rc).value[buf.Length..])
      ensures !ok ==> rc == Some([])
    {
      var s := rc.value;
      var n := Min(|s|, buf.Length);
      forall i | 0 <= i < n { buf[i] := s[i]; }
      rc := Some(s[n..]);
      return n == buf.Length;
    }

    method ReadAt(buf: array<byte>, offset: int, opens: bool) returns (outcome: Outcome)
      requires shardSize > 0
      modifies this, buf
      ensures (State(), outcome) == Read(h, file, shardSize, tillOffset, old(State()), buf.Length, offset, opens)
      ensures outcome.Data? ==> outcome.bytes == buf[..]
    {
      if offset % shardSize != 0 { return Unexpected; }
      if rc.None? {
        currOffset := offset;
        var streamOffset := Quotient(offset, shardSize) * HASH_SIZE + offset;
        if !opens { return OpenFailed; }
        rc := Some(Section(file, streamOffset, tillOffset));
      }
      if offset != currOffset { return Unexpected; }
      ghost var s := rc.value;
      var hashBytes := new byte[HASH_SIZE];
      var ok := ReadFull(hashBytes);
      if !ok { return ShortRead; }
      ok := ReadFull(buf);
      if !ok { return ShortRead; }
      assert buf[..] == s[HASH_SIZE..HASH_SIZE + buf.Length];
      assert s[HASH_SIZE..][buf.Length..] == s[HASH_SIZE + buf.Length..];
      if h(buf[..]) != hashBytes[..] { return Corrupt; }
      currOffset := currOffset + buf.Length;
      return Data(buf[..]);
    }
  }

  // ---- Cutting between shards ----

  /** A multiple of the shard size. */
  predicate Aligned(n: nat, shard: nat)
    requires shard > 0
    decreases n
  {
    n == 0 || (n >= shard && Aligned(n - shard, shard))
  }

  lemma {:induction false} AlignedIsMultiple(n: nat, shard: nat)
    requires shard > 0
    ensures Aligned(n, shard) <==> n % shard == 0
    decreases n
  {
    if n >= shard {
      AlignedIsMultiple(n - shard, shard);
      ModuloLess(n, shard);
    }
  }

  lemma ModuloLess(n: nat, d: nat)
    requires 0 < d <= n
    ensures n % d == (n - d) % d
  {
    var q, r := (n - d) / d, (n - d) % d;
    assert n - d == q * d + r;
    Distribute(q, d);
    QuotientUnique(n, q + 1, r, d);
  }

  lemma QuotientUnique(n: nat, q: int, r: int, d: nat)
    requires d > 0 && n == q * d + r && 0 <= r < d
    ensures n % d == r
  {
    var a, b := n / d, n % d;
    assert n == a * d + b;
    if a < q { MultiplyMonotone(a + 1, q, d); Distribute(a, d); }
    if q < a { MultiplyMonotone(q + 1, a, d); Distribute(q, d); }
  }

  /** A cut between shards. */
  lemma {:induction false} EncodeSplit(h: Hash, p: seq<byte>, shard: nat, at: nat)
    requires shard > 0 && Aligned(at, shard) && at <= |p|
    ensures Encode(h, p, shard) == Encode(h, p[..at], shard) + Encode(h, p[at..], shard)
    decreases at
  {
    if at == 0 {
      assert p[at..] == p;
    } else {
      var q := p[shard..];
      EncodeSplit(h, q, shard, at - shard);
      assert q[..at - shard] == p[..at][shard..] && q[at - shard..] == p[at..];
      assert p[..at][..shard] == p[..shard];
      Associate(h(p[..shard]) + p[..shard], Encode(h, q[..at - shard], shard), Encode(h, p[at..], shard));
    }
  }

  lemma Associate(a: seq<byte>, b: seq<byte>, c: seq<byte>)
    ensures a + (b + c) == (a + b) + c
  {}

  /** The stream offset of a cut between shards is the length of the encoding before it. */
  lemma StreamOffsetExact(h: Hash, p: seq<byte>, shard: nat, at: nat)
    requires shard > 0 && Aligned(at, shard) && at <= |p|
    ensures StreamOffset(at, shard) == |Encode(h, p[..at], shard)|
  {
    AlignedIsMultiple(at, shard);
    CountIsQuotient(at, shard);
    EncodedLength(h, p[..at], shard);
  }

  /** Where a read may stop: between shards, or at the end. */
  predicate Cut(p: seq<byte>, shard: nat, at: nat)
    requires shard > 0
  {
    at <= |p| && (Aligned(at, shard) || at == |p|)
  }

  predicate Prefixed(file: seq<byte>, stream: seq<byte>) { |stream| <= |file| && file[..|stream|] == stream }

  lemma CutPrefix(h: Hash, p: seq<byte>, shard: nat, till: nat)
    requires shard > 0 && Cut(p, shard, till)
    ensures Encode(h, p, shard) == Encode(h, p[..till], shard) + Encode(h, p[till..], shard)
    ensures |Encode(h, p[..till], shard)| == StreamEnd(till, shard)
  {
    if till == |p| {
      assert p[..till] == p && p[till..] == [];
    } else {
      EncodeSplit(h, p, shard, till);
    }
    EncodedLength(h, p[..till], shard);
    CeilFracIsCount(till, shard);
  }

  lemma SectionOf(file: seq<byte>, before: seq<byte>, middle: seq<byte>)
    requires Prefixed(file, before + middle)
    ensures Section(file, |before|, |before + middle|) == middle
  {}

  lemma PrefixedShorter(file: seq<byte>, a: seq<byte>, b: seq<byte>)
    requires Prefixed(file, a + b)
    ensures Prefixed(file, a)
  {}

  /** The stream a reader opens is the encoding of the payload between its offsets. */
  lemma SectionIsEncoded(h: Hash, file: seq<byte>, p: seq<byte>, shard: nat, from: nat, till: nat)
    requires shard > 0 && Cut(p, shard, till) && from <= till && Aligned(from, shard)
    requires Prefixed(file, Encode(h, p, shard))
    ensures Section(file, StreamOffset(from, shard), StreamEnd(till, shard))
         == Encode(h, p[from..till], shard)
  {
    CutPrefix(h, p, shard, till);
    PrefixedShorter(file, Encode(h, p[..till], shard), Encode(h, p[till..], shard));
    var q := p[..till];
    EncodeSplit(h, q, shard, from);
    StreamOffsetExact(h, q, shard, from);
    SectionOf(file, Encode(h, q[..from], shard), Encode(h, q[from..], shard));
    assert q[from..] == p[from..till];
  }

  lemma NonNegative(n: nat, shard: nat)
    requires shard > 0
    ensures Quotient(n, shard) >= 0 && CeilFrac(n, shard) >= 0
  {
    CountIsQuotient(n, shard);
    CeilFracIsCount(n, shard);
  }

  lemma HashesFit(hashes: int, n: nat)
    requires hashes >= 0
    ensures 0 <= hashes * HASH_SIZE <= hashes * HASH_SIZE + n
  {}

  lemma SectionInside(h: Hash, p: seq<byte>, shard: nat, from: nat, till: nat)
    requires shard > 0 && Cut(p, shard, till) && from <= till && Aligned(from, shard)
    ensures StreamOffset(from, shard) <= StreamEnd(till, shard) <= |Encode(h, p, shard)|
  {
    CutPrefix(h, p, shard, till);
    var q := p[..till];
    EncodeSplit(h, q, shard, from);
    StreamOffsetExact(h, q, shard, from);
  }

  /** Within a file whose size is a 64-bit number no offset the reader computes leaves 64 bits. */
  lemma OffsetsFit(h: Hash, p: seq<byte>, shard: nat, from: nat, till: nat)
    requires shard > 0 && Cut(p, shard, till) && from <= till && Aligned(from, shard)
    requires |Encode(h, p, shard)| <= MAX_INT64 as int
    ensures 0 <= Quotient(from, shard) * HASH_SIZE <= StreamOffset(from, shard) <= StreamEnd(till, shard)
    ensures 0 <= CeilFrac(till, shard) * HASH_SIZE <= StreamEnd(till, shard) <= MAX_INT64 as int
  {
    NonNegative(from, shard);
    NonNegative(till, shard);
    HashesFit(Quotient(from, shard), from);
    HashesFit(CeilFrac(till, shard), till);
    SectionInside(h, p, shard, from, till);
  }

  /** A reader as it appears to a caller: a state, a length and an offset to a state and an outcome. */
  type Source = (Reader, nat, int) -> (Reader, Outcome)

  function SourceOf(h: Hash, file: seq<byte>, shard: nat, end: int): Source
    requires shard > 0
  {
    (st: Reader, n: nat, offset: int) => Read(h, file, shard, end, st, n, offset, true)
  }

  lemma SourceReads(h: Hash, file: seq<byte>, shard: nat, end: int, st: Reader, n: nat, offset: int,
                    r: (Reader, Outcome))
    requires shard > 0 && Read(h, file, shard, end, st, n, offset, true) == r
    ensures SourceOf(h, file, shard, end)(st, n, offset) == r
  {}

  /** Over an open stream at its own offset a read returns bytes exactly when a frame stands next, and these. */
  ghost predicate ReadsFrames(read: Source, h: Hash, shard: nat)
    requires shard > 0
  {
    forall s: seq<byte>, n: nat, offset: nat {:trigger read(Reader(Some(s), offset), n, offset)} ::
      Aligned(offset, shard) ==> ReadsFrame(h, s, n, offset, read(Reader(Some(s), offset), n, offset))
  }

  predicate ReadsFrame(h: Hash, s: seq<byte>, n: nat, offset: nat, r: (Reader, Outcome)) {
    && (r.1.Data? <==> FrameOk(h, s, n))
    && (r.1.Data? ==> r == (Reader(Some(s[HASH_SIZE + n..]), offset + n), Data(s[HASH_SIZE..HASH_SIZE + n])))
  }

  lemma ReadIsFrame(h: Hash, file: seq<byte>, shard: nat, end: int, s: seq<byte>, n: nat, offset: nat)
    requires shard > 0 && offset % shard == 0
    ensures ReadsFrame(h, s, n, offset, Read(h, file, shard, end, Reader(Some(s), offset), n, offset, true))
  {}

  lemma SourceReadsFrames(h: Hash, file: seq<byte>, shard: nat, end: int)
    requires shard > 0
    ensures ReadsFrames(SourceOf(h, file, shard, end), h, shard)
  {
    var read := SourceOf(h, file, shard, end);
    forall s: seq<byte>, n: nat, offset: nat | Aligned(offset, shard)
      ensures ReadsFrame(h, s, n, offset, read(Reader(Some(s), offset), n, offset))
    {
      AlignedIsMultiple(offset, shard);
      ReadIsFrame(h, file, shard, end, s, n, offset);
      SourceReads(h, file, shard, end, Reader(Some(s), offset), n, offset,
                  Read(h, file, shard, end, Reader(Some(s), offset), n, offset, true));
    }
  }

  /** Up to `count` reads in a row, each of a full shard or of what is left before `till`. */
  function ReadMany(read: Source, shard: nat, till: nat, st: Reader, offset: nat, count: nat): (int, Outcome)
    decreases count
  {
    if count == 0 || offset >= till then (offset, Data([]))
    else
      var n := Min(shard, till - offset);
      var r := read(st, n, offset);
      if !r.1.Data? then (offset, r.1)
      else
        var more := ReadMany(read, shard, till, r.0, offset + n, count - 1);
        (more.0, if more.1.Data? then Data(r.1.bytes + more.1.bytes) else more.1)
  }

  /** How far reads get. */
  function Reached(from: nat, till: nat, shard: nat, count: nat): (to: nat)
    ensures from <= till ==> from <= to <= till
    decreases count
  {
    if count == 0 || from >= till then from else Reached(from + Min(shard, till - from), till, shard, count - 1)
  }

  lemma {:induction false} ReachedExact(from: nat, till: nat, shard: nat, count: nat)
    requires from <= till
    ensures Reached(from, till, shard, count) == Min(from + count * shard, till)
    decreases count
  {
    if count > 0 {
      Distribute(count - 1, shard);
      assert (count - 1) * shard >= 0;
      if from < till { ReachedExact(from + Min(shard, till - from), till, shard, count - 1); }
    }
  }

  /** The first read of a fresh reader is a read of the stream it opens. */
  lemma Opening(h: Hash, file: seq<byte>, shard: nat, till: nat, end: int, from: nat, count: nat)
    requires shard > 0
    ensures ReadMany(SourceOf(h, file, shard, end), shard, till, Reader(None, 0), from, count)
         == ReadMany(SourceOf(h, file, shard, end), shard, till,
                     Reader(Some(Section(file, StreamOffset(from, shard), end)), from), from, count)
  {}

  // ---- What reads return ----

  lemma FramePrefix(h: Hash, s: seq<byte>, d: seq<byte>, shard: nat, k: nat)
    requires shard > 0 && d != [] && k == Min(|d|, shard)
    ensures Prefixed(s, Encode(h, d, shard)) <==>
            && FrameOk(h, s, k) && s[HASH_SIZE..HASH_SIZE + k] == d[..k]
            && Prefixed(s[HASH_SIZE + k..], Encode(h, d[k..], shard))
  {
    var frame, more := h(d[..k]) + d[..k], Encode(h, d[k..], shard);
    assert Encode(h, d, shard) == frame + more;
    if Prefixed(s, frame + more) {
      SplitPrefix(s, frame, more);
      assert s[..HASH_SIZE] == s[..HASH_SIZE + k][..HASH_SIZE];
    } else if FrameOk(h, s, k) && s[HASH_SIZE..HASH_SIZE + k] == d[..k] && Prefixed(s[HASH_SIZE + k..], more) {
      assert s[..HASH_SIZE + k] == frame;
      JoinPrefix(s, frame, more);
    }
  }

  lemma SplitPrefix(s: seq<byte>, a: seq<byte>, b: seq<byte>)
    requires Prefixed(s, a + b)
    ensures Prefixed(s, a) && Prefixed(s[|a|..], b)
  {
    assert s[..|a|] == s[..|a + b|][..|a|];
    assert s[|a|..][..|b|] == s[..|a + b|][|a|..];
  }

  lemma JoinPrefix(s: seq<byte>, a: seq<byte>, b: seq<byte>)
    requires Prefixed(s, a) && Prefixed(s[|a|..], b)
    ensures Prefixed(s, a + b)
  {
    assert s[..|a + b|] == s[..|a|] + s[|a|..][..|b|];
  }

  lemma ReadManyStep(read: Source, h: Hash, shard: nat, till: nat, s: seq<byte>, from: nat, count: nat, n: nat)
    requires shard > 0 && from < till && Aligned(from, shard) && count > 0 && n == Min(shard, till - from)
    requires ReadsFrames(read, h, shard)
    ensures from + n <= till && (from + n == till || Aligned(from + n, shard))
    ensures var r := ReadMany(read, shard, till, Reader(Some(s), from), from, count);
            if !FrameOk(h, s, n) then !r.1.Data?
            else
              var more := ReadMany(read, shard, till, Reader(Some(s[HASH_SIZE + n..]), from + n), from + n, count - 1);
              && r.0 == more.0 && (r.1.Data? <==> more.1.Data?)
              && (r.1.Data? ==> r.1.bytes == s[HASH_SIZE..HASH_SIZE + n] + more.1.bytes)
  {
    assert ReadsFrame(h, s, n, from, read(Reader(Some(s), from), n, from));
    assert n == shard ==> Aligned(from + n, shard);
  }

  /** The bytes returned, if any, are those between two offsets. */
  predicate Spans(r: (int, Outcome), from: nat, to: nat) { r.1.Data? ==> r.0 == to && |r.1.bytes| == to - from }

  lemma ReachedStep(from: nat, till: nat, shard: nat, count: nat, n: nat)
    requires from < till && count > 0 && n == Min(shard, till - from)
    ensures Reached(from, till, shard, count) == Reached(from + n, till, shard, count - 1)
  {}

  /** What reads return, if anything, has the length asked for. */
  lemma {:induction false} ServedLength(read: Source, h: Hash, shard: nat, till: nat, s: seq<byte>, from: nat,
                                        count: nat)
    requires shard > 0 && from <= till && (from == till || Aligned(from, shard)) && ReadsFrames(read, h, shard)
    ensures Spans(ReadMany(read, shard, till, Reader(Some(s), from), from, count), from,
                  Reached(from, till, shard, count))
    decreases count
  {
    if count > 0 && from < till {
      var n := Min(shard, till - from);
      ReadManyStep(read, h, shard, till, s, from, count, n);
      ReachedStep(from, till, shard, count, n);
      if FrameOk(h, s, n) {
        ServedLength(read, h, shard, till, s[HASH_SIZE + n..], from + n, count - 1);
      }
    }
  }

  lemma SameHalves(a: seq<byte>, b: seq<byte>, d: seq<byte>, n: nat)
    requires |a| == n <= |d|
    ensures a + b == d <==> a == d[..n] && b == d[n..]
  {
    if a + b == d { assert a == (a + b)[..n] && b == (a + b)[n..]; }
  }

  lemma {:induction false} ServedExactly(read: Source, h: Hash, shard: nat, till: nat, s: seq<byte>, from: nat,
                                         count: nat, d: seq<byte>)
    requires shard > 0 && from <= till && (from == till || Aligned(from, shard)) && ReadsFrames(read, h, shard)
    requires |d| == Reached(from, till, shard, count) - from
    ensures ReadMany(read, shard, till, Reader(Some(s), from), from, count).1 == Data(d) <==>
            Prefixed(s, Encode(h, d, shard))
    decreases count
  {
    if count > 0 && from < till {
      var n := Min(shard, till - from);
      ReadManyStep(read, h, shard, till, s, from, count, n);
      assert n == Min(|d|, shard);
      FramePrefix(h, s, d, shard, n);
      if FrameOk(h, s, n) {
        var rest := s[HASH_SIZE + n..];
        ServedExactly(read, h, shard, till, rest, from + n, count - 1, d[n..]);
        var more := ReadMany(read, shard, till, Reader(Some(rest), from + n), from + n, count - 1);
        if more.1.Data? { SameHalves(s[HASH_SIZE..HASH_SIZE + n], more.1.bytes, d, n); }
      }
    }
  }

  /** Reading serves no damaged data: over any file at all, reads from an offset between shards return some bytes
      exactly when these have the length asked for and the file holds, from the corresponding offset on, the very
      frames that encode them. */
  lemma ReadsServeOnlyFrames(h: Hash, file: seq<byte>, shard: nat, from: nat, till: nat, end: int, count: nat,
                             d: seq<byte>)
    requires shard > 0 && from <= till && Aligned(from, shard)
    ensures ReadMany(SourceOf(h, file, shard, end), shard, till, Reader(None, 0), from, count).1 == Data(d) <==>
            && |d| == Reached(from, till, shard, count) - from
            && Prefixed(Section(file, StreamOffset(from, shard), end), Encode(h, d, shard))
    ensures Spans(ReadMany(SourceOf(h, file, shard, end), shard, till, Reader(None, 0), from, count), from,
                  Reached(from, till, shard, count))
  {
    var s, read := Section(file, StreamOffset(from, shard), end), SourceOf(h, file, shard, end);
    Opening(h, file, shard, till, end, from, count);
    SourceReadsFrames(h, file, shard, end);
    ServedLength(read, h, shard, till, s, from, count);
    if |d| == Reached(from, till, shard, count) - from {
      ServedExactly(read, h, shard, till, s, from, count, d);
    }
  }

  lemma {:induction false} ReachedAligned(from: nat, till: nat, shard: nat, count: nat)
    requires shard > 0 && from <= till
    ensures Reached(from, till, shard, count) == till || Aligned(Reached(from, till, shard, count) - from, shard)
    decreases count
  {
    if count > 0 && from < till {
      var n := Min(shard, till - from);
      ReachedStep(from, till, shard, count, n);
      ReachedAligned(from + n, till, shard, count - 1);
    }
  }

  lemma PrefixedBy(s: seq<byte>, a: seq<byte>, b: seq<byte>)
    requires s == a + b
    ensures Prefixed(s, a)
  {}

  lemma PayloadPrefix(h: Hash, q: seq<byte>, shard: nat, at: nat)
    requires shard > 0 && Cut(q, shard, at)
    ensures Prefixed(Encode(h, q, shard), Encode(h, q[..at], shard))
  {
    CutPrefix(h, q, shard, at);
    PrefixedBy(Encode(h, q, shard), Encode(h, q[..at], shard), Encode(h, q[at..], shard));
  }

  lemma SectionPrefix(h: Hash, section: seq<byte>, p: seq<byte>, shard: nat, from: nat, to: nat, till: nat)
    requires shard > 0 && from <= to <= till <= |p| && section == Encode(h, p[from..till], shard)
    requires to == till || Aligned(to - from, shard)
    ensures Prefixed(section, Encode(h, p[from..to], shard))
  {
    var q := p[from..till];
    assert q[..to - from] == p[from..to] by { Slice(p, from, till, 0, to - from); }
    assert Cut(q, shard, to - from);
    PayloadPrefix(h, q, shard, to - from);
  }

  /** Main result of reading: from a fresh reader over a file that starts with the encoding of a payload, any
      number of reads in a row from any offset between shards yields exactly the payload from there on. */
  lemma ReadsReturnPayload(h: Hash, file: seq<byte>, p: seq<byte>, shard: nat, from: nat, till: nat, count: nat)
    requires shard > 0 && Cut(p, shard, till) && from <= till && Aligned(from, shard)
    requires Prefixed(file, Encode(h, p, shard))
    ensures ReadMany(SourceOf(h, file, shard, StreamEnd(till, shard)), shard, till, Reader(None, 0), from, count)
         == (Reached(from, till, shard, count), Data(p[from..Reached(from, till, shard, count)]))
  {
    var to := Reached(from, till, shard, count);
    SectionIsEncoded(h, file, p, shard, from, till);
    ReachedAligned(from, till, shard, count);
    SectionPrefix(h, Section(file, StreamOffset(from, shard), StreamEnd(till, shard)), p, shard, from, to, till);
    ReadsServeOnlyFrames(h, file, shard, from, till, StreamEnd(till, shard), count, p[from..to]);
  }

  // ---- The layout ----

  lemma SliceAfter(front: seq<byte>, more: seq<byte>, n: nat)
    requires n <= |more|
    ensures (front + more)[|front|..|front| + n] == more[..n]
  {}

  lemma HeadOf(h: Hash, q: seq<byte>, shard: nat, k: nat)
    requires shard > 0 && q != [] && k == Min(|q|, shard)
    ensures 32 + k <= |Encode(h, q, shard)| && Encode(h, q, shard)[..32 + k] == h(q[..k]) + q[..k]
  {
    FirstFrame(h, q, shard, k);
    var stream := Encode(h, q, shard);
    assert stream[..32 + k] == stream[..32] + stream[32..32 + k];
  }

  /** Where things are: a shard stands behind its own hash, after all shards before it and their hashes of 32 bytes. */
  lemma FrameAt(h: Hash, p: seq<byte>, shard: nat, at: nat, k: nat)
    requires shard > 0 && at % shard == 0 && at < |p| && k == Min(|p| - at, shard)
    ensures var offset := at / shard * 32 + at;
            && 0 <= offset && offset + 32 + k <= |Encode(h, p, shard)|
            && Encode(h, p, shard)[offset..offset + 32 + k] == h(p[at..at + k]) + p[at..at + k]
  {
    AlignedIsMultiple(at, shard);
    EncodeSplit(h, p, shard, at);
    StreamOffsetExact(h, p, shard, at);
    HeadOf(h, p[at..], shard, k);
    SliceAfter(Encode(h, p[..at], shard), Encode(h, p[at..], shard), 32 + k);
    assert p[at..][..k] == p[at..at + k];
  }
}
