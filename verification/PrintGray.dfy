/** Counting black ink alone (src/lpacct/drop.c, pxcost_gray): one rounding and one 32-bit product a
    chunk, against one rounding a pixel. */
module PrintGray {
  import opened PrintSource

  const WRAP := 0x1_0000_0000

  // ---------- Sums over pixels ----------

  /** The n samples of one colour channel together. */
  function Channel(data: seq<Sample>, n: nat, o: nat): nat
    requires 3 * n <= |data| && o < 3
  {
    if n == 0 then 0 else Channel(data, n - 1, o) + data[3 * (n - 1) + o]
  }

  function Weight(r: Sample, g: Sample, b: Sample): nat { 78 * r + 151 * g + 27 * b }

  function WeightAt(data: seq<Sample>, i: nat): (w: nat)
    requires 3 * i + 2 < |data|
    ensures w <= 65280
  {
    Weight(data[3 * i], data[3 * i + 1], data[3 * i + 2])
  }

  function Weighted(data: seq<Sample>, n: nat): (w: nat)
    requires 3 * n <= |data|
    ensures w <= 65280 * n
  {
    if n == 0 then 0 else Weighted(data, n - 1) + WeightAt(data, n - 1)
  }

  lemma {:induction false} WeightedByChannel(data: seq<Sample>, n: nat)
    requires 3 * n <= |data|
    ensures Weighted(data, n) == 78 * Channel(data, n, 0) + 151 * Channel(data, n, 1) + 27 * Channel(data, n, 2)
  {
    if n > 0 {
      WeightedByChannel(data, n - 1);
    }
  }

  /** The darkness of each pixel, rounded by itself. */
  function PixelSum(data: seq<Sample>, n: nat): nat
    requires 3 * n <= |data|
  {
    if n == 0 then 0 else PixelSum(data, n - 1) + (255 - WeightAt(data, n - 1) / 256)
  }

  // ---------- A chunk ----------

  /** The program's product, of 32 bits. */
  function RgbToGray(r: nat, g: nat, b: nat): nat { (78 * r + 151 * g + 27 * b) % WRAP / 256 }

  function Gray(data: seq<Sample>, n: nat): (g: nat)
    requires 3 * n <= |data|
    ensures g <= 255 * n
  {
    Weighted(data, n) % WRAP / 256
  }

  function ChunkInk(data: seq<Sample>): nat { 255 * (|data| / 3) - Gray(data, |data| / 3) }

  lemma WrappedSums(r: nat, g: nat, b: nat)
    ensures RgbToGray(r % WRAP, g % WRAP, b % WRAP) == RgbToGray(r, g, b)
  {
    var k := 78 * (r / WRAP) + 151 * (g / WRAP) + 27 * (b / WRAP);
    assert 78 * r + 151 * g + 27 * b == 78 * (r % WRAP) + 151 * (g % WRAP) + 27 * (b % WRAP) + k * WRAP;
    Multiples(78 * (r % WRAP) + 151 * (g % WRAP) + 27 * (b % WRAP), k);
  }

  lemma Multiples(x: nat, k: nat)
    ensures (x + k * WRAP) % WRAP == x % WRAP
  {
  }

  /** One more sample on a 32-bit sum. */
  function Add32(data: seq<Sample>, n: nat, o: nat, sum: nat): (r: nat)
    requires 3 * n + 2 < |data| && o < 3 && sum == Channel(data, n, o) % WRAP
    ensures r == Channel(data, n + 1, o) % WRAP
  {
    Multiples(sum + data[3 * n + o], Channel(data, n, o) / WRAP);
    (sum + data[3 * n + o]) % WRAP
  }

  /** The pixel loop: three 32-bit sums. */
  method CountGray(buffer: array<Sample>, pixels: nat) returns (gray: nat)
    requires 3 * pixels <= buffer.Length
    ensures gray == Gray(buffer[..], pixels)
  {
    hide Weighted, WeightAt, RgbToGray, Channel, Add32;
    NoSum(buffer[..]);
    var r: nat, g: nat, b: nat, current := 0, 0, 0, 0;
    for i := 0 to pixels
      invariant current == 3 * i
      invariant r == Channel(buffer[..], i, 0) % WRAP && g == Channel(buffer[..], i, 1) % WRAP
                && b == Channel(buffer[..], i, 2) % WRAP
    {
      r := Add32(buffer[..], i, 0, r);
      g := Add32(buffer[..], i, 1, g);
      b := Add32(buffer[..], i, 2, b);
      current := current + 3;
    }
    WrappedSums(Channel(buffer[..], pixels, 0), Channel(buffer[..], pixels, 1), Channel(buffer[..], pixels, 2));
    GrayByChannel(buffer[..], pixels);
    gray := RgbToGray(r, g, b);
  }

  lemma NoSum(data: seq<Sample>)
    ensures Channel(data, 0, 0) == 0 && Channel(data, 0, 1) == 0 && Channel(data, 0, 2) == 0
  {
  }

  lemma GrayByChannel(data: seq<Sample>, n: nat)
    requires 3 * n <= |data|
    ensures Gray(data, n) == RgbToGray(Channel(data, n, 0), Channel(data, n, 1), Channel(data, n, 2))
  {
    WeightedByChannel(data, n);
  }

  /** A chunk's ink is its exact darkness rounded up, as long as the product stays below 2^32. */
  lemma ChunkRoundsUp(data: seq<Sample>)
    requires |data| / 3 <= 65793
    ensures var n := |data| / 3;
            Gray(data, n) == Weighted(data, n) / 256 && ChunkInk(data) == (65280 * n - Weighted(data, n) + 255) / 256
  {
    Fits(|data| / 3, Weighted(data, |data| / 3));
    Ceiling(|data| / 3, Weighted(data, |data| / 3));
  }

  lemma Fits(n: nat, w: nat)
    requires n <= 65793 && w <= 65280 * n
    ensures w % WRAP == w
  {
  }

  lemma Ceiling(n: nat, w: nat)
    requires w <= 65280 * n
    ensures 255 * n - w / 256 == (65280 * n - w + 255) / 256
  {
  }

  /** A chunk of one pixel: the weights of the three colours, and darkness as the complement. */
  lemma OnePixel(r: Sample, g: Sample, b: Sample)
    ensures Weighted([r, g, b], 1) == 78 * r + 151 * g + 27 * b
    ensures ChunkInk([r, g, b]) == 255 - (78 * r + 151 * g + 27 * b) / 256 == PixelSum([r, g, b], 1)
  {
    var data := [r, g, b];
    assert Weighted(data, 1) == Weighted(data, 0) + WeightAt(data, 0);
    assert PixelSum(data, 1) == PixelSum(data, 0) + (255 - WeightAt(data, 0) / 256);
    Fits(1, Weighted(data, 1));
  }

  /** Weights add up over pieces. */
  lemma {:induction false} WeightedConcat(a: seq<Sample>, m: nat, b: seq<Sample>, n: nat)
    requires |a| == 3 * m && 3 * n <= |b|
    ensures Weighted(a + b, m + n) == Weighted(a, m) + Weighted(b, n)
  {
    if n == 0 {
      WeightedPrefix(a, a + b, m);
    } else {
      WeightedConcat(a, m, b, n - 1);
      assert WeightAt(a + b, m + n - 1) == WeightAt(b, n - 1);
    }
  }

  /** No chunk of n pixels loses ink to the 32-bit product. */
  ghost predicate AllExact(n: nat) {
    forall data: seq<Sample> :: |data| == 3 * n ==> Gray(data, n) == Weighted(data, n) / 256
  }

  /** m white pixels, then black ones. */
  function WhiteThenBlack(m: nat, n: nat): (data: seq<Sample>)
    ensures |data| == 3 * n && forall i :: 0 <= i < 3 * n ==> data[i] == if i < 3 * m then 255 else 0
  {
    seq(3 * n, i requires 0 <= i < 3 * n => if i < 3 * m then 255 else 0)
  }

  lemma WhiteAt(m: nat, n: nat, i: nat)
    requires i < n
    ensures WeightAt(WhiteThenBlack(m, n), i) == if i < m then 65280 else 0
  {
  }

  lemma {:induction false} WhiteWeight(m: nat, n: nat, k: nat)
    requires k <= n
    ensures Weighted(WhiteThenBlack(m, n), k) == 65280 * if k < m then k else m
  {
    hide WhiteThenBlack, WeightAt;
    if k > 0 {
      WhiteWeight(m, n, k - 1);
      WhiteAt(m, n, k - 1);
    }
  }

  /** Chunks are exact up to 65793 pixels, and not beyond; the program's have at most 65536. */
  lemma AllExactIff(n: nat)
    ensures AllExact(n) <==> n <= 65793
  {
    hide Weighted, WhiteThenBlack;
    if n <= 65793 {
      forall data: seq<Sample> | |data| == 3 * n
        ensures Gray(data, n) == Weighted(data, n) / 256
      {
        Fits(n, Weighted(data, n));
      }
    } else {
      var data := WhiteThenBlack(65794, n);
      WhiteWeight(65794, n, n);
      WrappedProduct();
      assert Gray(data, n) != Weighted(data, n) / 256;
    }
  }

  lemma WrappedProduct()
    ensures 65280 * 65794 % WRAP / 256 == 254 && 65280 * 65794 / 256 == 16777470
  {
  }

  /** Rounding once a chunk saves less than a droplet a pixel against rounding every pixel. */
  lemma ChunkAgainstPixels(data: seq<Sample>)
    requires 0 < |data| / 3 <= 65793
    ensures ChunkInk(data) <= PixelSum(data, |data| / 3) < ChunkInk(data) + |data| / 3
  {
    ChunkRoundsUp(data);
    PixelsAgainstWeight(data, |data| / 3);
  }

  lemma {:induction false} PixelsAgainstWeight(data: seq<Sample>, n: nat)
    requires 3 * n <= |data|
    ensures 65280 * n - Weighted(data, n) <= 256 * PixelSum(data, n) <= 65280 * n - Weighted(data, n) + 255 * n
  {
    if n > 0 {
      PixelsAgainstWeight(data, n - 1);
    }
  }

  // ---------- An image ----------

  /** The ink of an image read in chunks of `size` bytes. */
  function GrayInk(data: seq<Sample>, size: nat): nat
    requires size > 0
    decreases |data|
  {
    if |data| == 0 then 0
    else if |data| <= size then ChunkInk(data)
    else ChunkInk(data[..size]) + GrayInk(data[size..], size)
  }

  /** Made of whole chunks. */
  predicate Whole(data: seq<Sample>, size: nat)
    requires size > 0
    decreases |data|
  {
    data == [] || (|data| >= size && Whole(data[size..], size))
  }

  /** Whole chunks and one more, perhaps short. */
  lemma {:induction false} GrayInkAppend(a: seq<Sample>, b: seq<Sample>, size: nat)
    requires size > 0 && Whole(a, size) && 0 < |b| <= size
    ensures GrayInk(a + b, size) == GrayInk(a, size) + ChunkInk(b)
    ensures |b| == size ==> Whole(a + b, size)
    decreases |a|
  {
    hide ChunkInk;
    if a == [] {
      assert a + b == b;
      if |b| == size { assert b[size..] == []; }
    } else {
      assert (a + b)[..size] == a[..size] && (a + b)[size..] == a[size..] + b;
      GrayInkAppend(a[size..], b, size);
      if |a| == size { assert a[..size] == a && a[size..] == []; }
    }
  }

  lemma {:induction false} PixelSumPrefix(a: seq<Sample>, b: seq<Sample>, n: nat)
    requires 3 * n <= |a| && a <= b
    ensures PixelSum(b, n) == PixelSum(a, n)
  {
    if n > 0 {
      PixelSumPrefix(a, b, n - 1);
    }
  }

  lemma {:induction false} PixelSumConcat(a: seq<Sample>, m: nat, b: seq<Sample>, n: nat)
    requires |a| == 3 * m && 3 * n <= |b|
    ensures PixelSum(a + b, m + n) == PixelSum(a, m) + PixelSum(b, n)
  {
    if n == 0 {
      PixelSumPrefix(a, a + b, m);
    } else {
      PixelSumConcat(a, m, b, n - 1);
      assert WeightAt(a + b, m + n - 1) == WeightAt(b, n - 1);
    }
  }

  lemma FirstChunkAgainstPixels(data: seq<Sample>, size: nat)
    requires 0 < size <= 3 * 65793 && size % 3 == 0 && |data| % 3 == 0 && |data| > size
    ensures |data| / 3 == size / 3 + |data[size..]| / 3
    ensures var rest := PixelSum(data[size..], |data[size..]| / 3);
            ChunkInk(data[..size]) + rest <= PixelSum(data, |data| / 3) < ChunkInk(data[..size]) + rest + size / 3
  {
    hide ChunkInk, PixelSum;
    ChunkAgainstPixels(data[..size]);
    PixelSumConcat(data[..size], size / 3, data[size..], (|data| - size) / 3);
    assert data == data[..size] + data[size..];
  }

  /** Over a whole image the total never exceeds the sum of its pixels, and misses it by less than a
      droplet a pixel; each chunk gives its exact darkness rounded up. */
  lemma {:induction false} GrayAgainstPixels(data: seq<Sample>, size: nat)
    requires 0 < size <= 3 * 65793 && size % 3 == 0 && |data| % 3 == 0 && data != []
    ensures GrayInk(data, size) <= PixelSum(data, |data| / 3) < GrayInk(data, size) + |data| / 3
    decreases |data|
  {
    hide ChunkInk;
    if |data| <= size {
      ChunkAgainstPixels(data);
    } else {
      GrayAgainstPixels(data[size..], size);
      FirstChunkAgainstPixels(data, size);
    }
  }

  // ---------- The analyzer ----------

  /** What was read of a page, and its ink. */
  ghost predicate Counted(page: seq<Sample>, rem0: nat, rem: nat, size: nat, ink: nat) {
    && size > 0 && rem <= rem0 && rem0 - rem <= |page|
    && (rem > 0 ==> Whole(page[..rem0 - rem], size)) && ink == GrayInk(page[..rem0 - rem], size)
  }

  lemma CountedStart(page: seq<Sample>, rem0: nat, size: nat)
    requires size > 0
    ensures Counted(page, rem0, rem0, size, 0)
  {
    assert page[..0] == [];
  }

  lemma CountedChunk(page: seq<Sample>, rem0: nat, rem: nat, size: nat, ink: nat, chunk: seq<Sample>)
    requires Counted(page, rem0, rem, size, ink) && rem > 0 && |chunk| == Min(rem, size) && chunk <= page[rem0 - rem..]
    ensures Counted(page, rem0, rem - |chunk|, size, ink + ChunkInk(chunk))
  {
    var done := page[..rem0 - rem];
    GrayInkAppend(done, chunk, size);
    assert page[..rem0 - rem + |chunk|] == done + chunk;
  }

  /** The chunk's contribution, from the start of the buffer. */
  lemma {:induction false} WeightedPrefix(a: seq<Sample>, b: seq<Sample>, n: nat)
    requires 3 * n <= |a| && a <= b
    ensures Weighted(b, n) == Weighted(a, n)
  {
    if n > 0 {
      WeightedPrefix(a, b, n - 1);
    }
  }

  /** PPM input: the running total never goes below zero, and the result is the ink of what was read. */
  method AnalyzePpm(pipe: Pipe, image: Image) returns (ret: int, k: nat)
    requires image.buffer.Length % 3 == 0 && image.buffer.Length > 0
    modifies pipe, image`remBytes, image.buffer
    ensures Counted(old(pipe.rest), old(image.remBytes), image.remBytes, image.buffer.Length, k)
    ensures ret <= 0 && (ret == 0 <==> image.remBytes == 0)
    ensures ret == 0 ==> pipe.rest == old(pipe.rest)[old(image.remBytes)..]
    ensures Quiet(old(pipe.script)) && old(image.remBytes) <= |old(pipe.rest)| ==> ret == 0
  {
    hide Counted, Quiet, Weighted;
    ghost var page, rem0, size := pipe.rest, image.remBytes, image.buffer.Length;
    k := 0;
    CountedStart(page, rem0, size);
    while true
      invariant image.remBytes <= rem0 && rem0 - image.remBytes <= |page| && pipe.rest == page[rem0 - image.remBytes..]
      invariant Counted(page, rem0, image.remBytes, size, k)
      invariant Quiet(old(pipe.script)) ==> Quiet(pipe.script)
      decreases image.remBytes
    {
      ghost var rest, rem := pipe.rest, image.remBytes;
      ret := image.ChunkNext(pipe);
      if ret <= 0 { break; }
      var pixels := ret / 3;
      k := k + 255 * pixels;
      var gray := CountGray(image.buffer, pixels);
      WeightedPrefix(rest[..ret], image.buffer[..], pixels);
      k := k - gray;
      CountedChunk(page, rem0, rem, size, k - ChunkInk(rest[..ret]), rest[..ret]);
    }
  }

  /** PGM input is black already: every sample is a pixel. */
  function PgmInk(data: seq<Sample>, n: nat): nat
    requires n <= |data|
  {
    if n == 0 then 0 else PgmInk(data, n - 1) + (255 - data[n - 1])
  }

  lemma {:induction false} PgmSplit(data: seq<Sample>, m: nat, chunk: seq<Sample>, n: nat)
    requires m + |chunk| <= |data| && chunk == data[m..m + |chunk|] && n <= |chunk|
    ensures PgmInk(data, m + n) == PgmInk(data, m) + PgmInk(chunk, n)
  {
    if n > 0 {
      PgmSplit(data, m, chunk, n - 1);
    }
  }

  /** One pixel's darkness is what its sample lacks of 255. */
  lemma PgmOnePixel(x: Sample)
    ensures PgmInk([x], 1) == 255 - x && PgmInk([], 0) == 0
  {
    assert PgmInk([x], 0) == 0;
  }

  method AnalyzePgm(pipe: Pipe, image: Image) returns (ret: int, k: nat)
    requires image.buffer.Length > 0
    modifies pipe, image`remBytes, image.buffer
    ensures image.remBytes <= old(image.remBytes) && old(image.remBytes) - image.remBytes <= |old(pipe.rest)|
    ensures k == PgmInk(old(pipe.rest), old(image.remBytes) - image.remBytes)
    ensures ret <= 0 && (ret == 0 <==> image.remBytes == 0)
    ensures Quiet(old(pipe.script)) && old(image.remBytes) <= |old(pipe.rest)| ==> ret == 0
  {
    hide Quiet;
    ghost var page, rem0 := pipe.rest, image.remBytes;
    k := 0;
    while true
      invariant image.remBytes <= rem0 && rem0 - image.remBytes <= |page| && pipe.rest == page[rem0 - image.remBytes..]
      invariant k == PgmInk(page, rem0 - image.remBytes)
      invariant Quiet(old(pipe.script)) ==> Quiet(pipe.script)
      decreases image.remBytes
    {
      ghost var done := rem0 - image.remBytes;
      ret := image.ChunkNext(pipe);
      if ret <= 0 { break; }
      var more := CountPgm(image.buffer, ret);
      PgmSplit(image.buffer[..], 0, image.buffer[..ret], ret);
      PgmSplit(page, done, image.buffer[..ret], ret);
      k := k + more;
    }
  }

  method CountPgm(buffer: array<Sample>, pixels: nat) returns (k: nat)
    requires pixels <= buffer.Length
    ensures k == PgmInk(buffer[..], pixels)
  {
    k := 255 * pixels;
    for i := 0 to pixels
      invariant k == PgmInk(buffer[..], i) + 255 * (pixels - i)
    {
      k := k - buffer[i];
    }
  }
}
