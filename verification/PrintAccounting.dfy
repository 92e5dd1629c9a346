/** Counting ink (src/lpacct/drop.c, and the page loop of image.c): chunk-wise integer arithmetic against
    a specification by pixels. One droplet is 1/255 of a pixel's full colour. */
module PrintAccounting {
  import opened PrintSource

  datatype Cost = Cost(c: nat, m: nat, y: nat, k: nat)

  const NOTHING := Cost(0, 0, 0, 0)

  function Plus(a: Cost, b: Cost): Cost { Cost(a.c + b.c, a.m + b.m, a.y + b.y, a.k + b.k) }

  // ---------- The cost of a pixel ----------

  function Abs(x: int): nat { if x < 0 then -x else x }

  function Min3(a: nat, b: nat, c: nat): nat {
    var r := if a < b then a else b;
    if r < c then r else c
  }

  function Mean3(a: nat, b: nat, c: nat): nat { (a + b + c) / 3 }

  /** Squared distance to the gray diagonal, rounded up. */
  function Kdist(r: nat, g: nat, b: nat): nat {
    var x, y, z := Abs(r - g), Abs(r - b), Abs(g - b);
    (x * x + y * y + z * z + 2) / 3
  }

  /** A part x of w, on the scale of a full drop. */
  function Share(x: nat, w: nat): nat
    requires w > 0
  {
    255 * x / w
  }

  /** From inverted samples: the common part is black, and the rest is scaled to what white is left. */
  function CmykInk(c: Sample, m: Sample, y: Sample): Cost {
    var k := Min3(c, m, y);
    if k == 255 then Cost(0, 0, 0, k)
    else
      var w := 255 - k;
      Cost(Share(c - k, w), Share(m - k, w), Share(y - k, w), k)
  }

  /** A pixel close to gray is printed in black alone, any other in colour alone. */
  function CmypkInk(c: Sample, m: Sample, y: Sample): Cost {
    if Kdist(c, m, y) <= 8 then Cost(0, 0, 0, Mean3(c, m, y)) else Cost(c, m, y, 0)
  }

  function CmyInk(c: Sample, m: Sample, y: Sample): Cost { Cost(c, m, y, 0) }

  /** Ink for samples as they are in the image, 255 being white. */
  type Ink = (Sample, Sample, Sample) -> Cost

  function OfImage(ink: Ink): Ink { (r: Sample, g: Sample, b: Sample) => ink(255 - r, 255 - g, 255 - b) }

  /** What a pixel may cost: black and every colour at most one full drop, and a gray pixel in CMYK
      exactly its darkness in black. */
  lemma PixelBounds(c: Sample, m: Sample, y: Sample)
    ensures var x := CmykInk(c, m, y); x.c <= 255 && x.m <= 255 && x.y <= 255 && x.k <= 255
    ensures c == m == y ==> CmykInk(c, m, y) == Cost(0, 0, 0, c)
    ensures var x := CmypkInk(c, m, y); x.c <= 255 && x.m <= 255 && x.y <= 255 && x.k <= 255
    ensures c == m == y ==> CmypkInk(c, m, y) == Cost(0, 0, 0, c)
  {
    var k := Min3(c, m, y);
    if k != 255 {
      Scaled(c - k, 255 - k);
      Scaled(m - k, 255 - k);
      Scaled(y - k, 255 - k);
    }
  }

  lemma Scaled(x: nat, w: nat)
    requires x <= w && w > 0
    ensures Share(x, w) <= 255 && (x == 0 ==> Share(x, w) == 0)
  {
    Quotient(255 * x, w, 255);
  }

  lemma Quotient(a: nat, w: nat, q: nat)
    requires w > 0 && a <= q * w
    ensures a / w <= q
  {
    var d := a / w;
    assert d * w <= a;
    Larger(q + 1, d, w);
  }

  lemma Larger(a: nat, b: nat, w: nat)
    ensures a <= b ==> a * w <= b * w
  {
  }

  /** The exact share of a colour: 255 parts of what white is left by black, rounded down. */
  lemma CmykIsShare(c: Sample, m: Sample, y: Sample)
    ensures var k, x := CmykInk(c, m, y).k, CmykInk(c, m, y);
            && k <= c && k <= m && k <= y && (k == c || k == m || k == y)
            && (k < 255 ==>
                  && x.c * (255 - k) <= 255 * (c - k) < (x.c + 1) * (255 - k)
                  && x.m * (255 - k) <= 255 * (m - k) < (x.m + 1) * (255 - k)
                  && x.y * (255 - k) <= 255 * (y - k) < (x.y + 1) * (255 - k))
            && (k == 255 ==> x.c == 0 && x.m == 0 && x.y == 0)
  {
    var k := Min3(c, m, y);
    if k != 255 {
      RoundedDown(255 * (c - k), 255 - k);
      RoundedDown(255 * (m - k), 255 - k);
      RoundedDown(255 * (y - k), 255 - k);
    }
  }

  lemma RoundedDown(a: nat, w: nat)
    requires w > 0
    ensures a / w * w <= a < (a / w + 1) * w
  {
  }

  /** So a colour at its full strength costs a full drop, unless the pixel is black. */
  lemma FullColour(c: Sample, m: Sample, y: Sample)
    ensures var x := CmykInk(c, m, y);
            x.k < 255 ==> (c == 255 ==> x.c == 255) && (m == 255 ==> x.m == 255) && (y == 255 ==> x.y == 255)
  {
    CmykIsShare(c, m, y);
    PixelBounds(c, m, y);
    var x := CmykInk(c, m, y);
    if x.k < 255 {
      if c == 255 { Larger(x.c + 1, 255, 255 - x.k); }
      if m == 255 { Larger(x.m + 1, 255, 255 - x.k); }
      if y == 255 { Larger(x.y + 1, 255, 255 - x.k); }
    }
  }

  /** In CMY+K a pixel is printed in black, with the mean of its samples, if the squares of their
      differences come to at most 24, and otherwise in its three colours as they are. */
  lemma CmypkIsEither(c: Sample, m: Sample, y: Sample)
    ensures CmypkInk(c, m, y) == if (c - m) * (c - m) + (c - y) * (c - y) + (m - y) * (m - y) <= 24
                                 then Cost(0, 0, 0, (c + m + y) / 3)
                                 else Cost(c, m, y, 0)
  {
    SquareOfAbs(c - m);
    SquareOfAbs(c - y);
    SquareOfAbs(m - y);
  }

  lemma SquareOfAbs(x: int)
    ensures Abs(x) * Abs(x) == x * x
  {
  }

  /** The distance is a third of that sum, rounded up, as the program's floating-point form has it. */
  lemma DistanceRoundedUp(r: Sample, g: Sample, b: Sample)
    ensures var squares := (r - g) * (r - g) + (r - b) * (r - b) + (g - b) * (g - b);
            squares <= 3 * Kdist(r, g, b) < squares + 3
  {
    SquareOfAbs(r - g);
    SquareOfAbs(r - b);
    SquareOfAbs(g - b);
  }

  // ---------- The cost of an image ----------

  /** The sum over the first n pixels. */
  function Total(ink: Ink, data: seq<Sample>, n: nat): Cost
    requires 3 * n <= |data|
  {
    if n == 0 then NOTHING else Plus(Total(ink, data, n - 1), ink(data[3 * n - 3], data[3 * n - 2], data[3 * n - 1]))
  }

  lemma NothingTotal(ink: Ink, data: seq<Sample>)
    ensures Total(ink, data, 0) == NOTHING
  {
  }

  lemma TotalStep(ink: Ink, data: seq<Sample>, n: nat)
    requires 3 * n + 3 <= |data|
    ensures Total(ink, data, n + 1) == Plus(Total(ink, data, n), ink(data[3 * n], data[3 * n + 1], data[3 * n + 2]))
  {
  }

  lemma {:induction false} TotalPrefix(ink: Ink, a: seq<Sample>, b: seq<Sample>, n: nat)
    requires 3 * n <= |a|
    ensures Total(ink, a + b, n) == Total(ink, a, n)
  {
    if n > 0 {
      TotalPrefix(ink, a, b, n - 1);
    }
  }

  /** Whole pixels in two pieces cost what the pieces cost. */
  lemma {:induction false} TotalConcat(ink: Ink, a: seq<Sample>, na: nat, b: seq<Sample>, nb: nat)
    requires |a| == 3 * na && 3 * nb <= |b|
    ensures Total(ink, a + b, na + nb) == Plus(Total(ink, a, na), Total(ink, b, nb))
  {
    if nb == 0 {
      TotalPrefix(ink, a, b, na);
    } else {
      TotalConcat(ink, a, na, b, nb - 1);
      var i := 3 * nb;
      assert (a + b)[|a| + i - 3] == b[i - 3] && (a + b)[|a| + i - 2] == b[i - 2] && (a + b)[|a| + i - 1] == b[i - 1];
    }
  }

  predicate Inverted(a: seq<Sample>, b: seq<Sample>) { |a| <= |b| && forall i :: 0 <= i < |a| ==> b[i] == 255 - a[i] }

  lemma {:induction false} TotalInverted(ink: Ink, a: seq<Sample>, b: seq<Sample>, n: nat)
    requires 3 * n <= |a| && Inverted(a, b)
    ensures Total(ink, b, n) == Total(OfImage(ink), a, n)
  {
    if n > 0 {
      TotalInverted(ink, a, b, n - 1);
    }
  }

  // ---------- The analyzers ----------

  /** What was read of a page and what it costs: whole pixels, until the page is used up. */
  ghost predicate Counted(page: seq<Sample>, rem0: nat, rem: nat, ink: Ink, cost: Cost) {
    && rem <= rem0 && rem0 - rem <= |page| && ((rem0 - rem) % 3 == 0 || rem == 0)
    && cost == Total(ink, page, (rem0 - rem) / 3)
  }

  lemma CountedStart(page: seq<Sample>, rem0: nat, ink: Ink)
    ensures Counted(page, rem0, rem0, ink, NOTHING)
  {
  }

  /** One more chunk, of whole pixels or the last one, is counted. */
  lemma CountedChunk(page: seq<Sample>, rem0: nat, rem: nat, ink: Ink, cost: Cost, block: nat, chunk: seq<Sample>)
    requires Counted(page, rem0, rem, ink, cost) && 0 < block <= rem && (block % 3 == 0 || block == rem)
    requires |chunk| == block && chunk <= page[rem0 - rem..]
    ensures Counted(page, rem0, rem - block, ink, Plus(cost, Total(ink, chunk, block / 3)))
  {
    var done := rem0 - rem;
    var head, tail := page[..done], page[done + block..];
    assert page == head + chunk + tail;
    ThreePieces(ink, head, done / 3, chunk, block / 3, tail);
    assert (done + block) / 3 == done / 3 + block / 3;
  }

  lemma ThreePieces(ink: Ink, a: seq<Sample>, na: nat, b: seq<Sample>, nb: nat, c: seq<Sample>)
    requires |a| == 3 * na && 3 * nb <= |b|
    ensures Total(ink, a + b + c, na + nb) == Plus(Total(ink, a + b + c, na), Total(ink, b, nb))
  {
    TotalConcat(ink, a, na, b, nb);
    TotalPrefix(ink, a + b, c, na + nb);
    TotalPrefix(ink, a, b, na);
    TotalPrefix(ink, a + b, c, na);
  }

  /** The pixel loop of pxcost_cmyk, over a buffer inverted before. */
  method CountCmyk(buffer: array<Sample>, pixels: nat) returns (sum: Cost)
    requires 3 * pixels <= buffer.Length
    ensures sum == Total(CmykInk, buffer[..], pixels)
  {
    hide Share, Total;
    var tc: nat, tm: nat, ty: nat, tk: nat, current := 0, 0, 0, 0, 0;
    NothingTotal(CmykInk, buffer[..]);
    for i := 0 to pixels
      invariant current == 3 * i && Cost(tc, tm, ty, tk) == Total(CmykInk, buffer[..], i)
    {
      TotalStep(CmykInk, buffer[..], i);
      var k := Min3(buffer[current], buffer[current + 1], buffer[current + 2]);
      if k != 255 {
        var w := 255 - k;
        tc := tc + Share(buffer[current] - k, w);
        tm := tm + Share(buffer[current + 1] - k, w);
        ty := ty + Share(buffer[current + 2] - k, w);
      }
      tk := tk + k;
      current := current + 3;
    }
    sum := Cost(tc, tm, ty, tk);
  }

  /** The pixel loop of pxcost_cmypk, over a buffer inverted before. */
  method CountCmypk(buffer: array<Sample>, pixels: nat) returns (sum: Cost)
    requires 3 * pixels <= buffer.Length
    ensures sum == Total(CmypkInk, buffer[..], pixels)
  {
    hide Kdist, Mean3, Total;
    var tc: nat, tm: nat, ty: nat, tk: nat, current := 0, 0, 0, 0, 0;
    NothingTotal(CmypkInk, buffer[..]);
    for i := 0 to pixels
      invariant current == 3 * i && Cost(tc, tm, ty, tk) == Total(CmypkInk, buffer[..], i)
    {
      TotalStep(CmypkInk, buffer[..], i);
      if Kdist(buffer[current], buffer[current + 1], buffer[current + 2]) <= 8 {
        tk := tk + Mean3(buffer[current], buffer[current + 1], buffer[current + 2]);
      } else {
        tc := tc + buffer[current];
        tm := tm + buffer[current + 1];
        ty := ty + buffer[current + 2];
      }
      current := current + 3;
    }
    sum := Cost(tc, tm, ty, tk);
  }

  lemma CmyStep(data: seq<Sample>, n: nat)
    requires 3 * n + 3 <= |data|
    ensures Total(OfImage(CmyInk), data, n + 1)
            == Plus(Total(OfImage(CmyInk), data, n),
                    Cost(255 - data[3 * n], 255 - data[3 * n + 1], 255 - data[3 * n + 2], 0))
  {
    var ink, i := OfImage(CmyInk), 3 * n;
    assert ink(data[i], data[i + 1], data[i + 2]) == Cost(255 - data[i], 255 - data[i + 1], 255 - data[i + 2], 0);
  }

  /** The pixel loop of pxcost_cmy: full colour first, and every sample taken off. */
  method CountCmy(buffer: array<Sample>, pixels: nat) returns (sum: Cost)
    requires 3 * pixels <= buffer.Length
    ensures sum == Total(OfImage(CmyInk), buffer[..], pixels)
  {
    hide OfImage, CmyInk;
    var c: nat, m: nat, y: nat, current := 255 * pixels, 255 * pixels, 255 * pixels, 0;
    for i := 0 to pixels
      invariant current == 3 * i
      invariant var left := 255 * (pixels - i);
                Cost(c, m, y, 0) == Plus(Total(OfImage(CmyInk), buffer[..], i), Cost(left, left, left, 0))
    {
      CmyStep(buffer[..], i);
      c := c - buffer[current];
      m := m - buffer[current + 1];
      y := y - buffer[current + 2];
      current := current + 3;
    }
    sum := Cost(c, m, y, 0);
  }

  datatype Colorspace = CMYK | CMYPK | CMY

  function InkOf(space: Colorspace): Ink {
    OfImage(match space case CMYK => CmykInk case CMYPK => CmypkInk case CMY => CmyInk)
  }

  /** Samples of the image are light, and what they lack of 255 is what has to be printed. */
  lemma InkOfImage(r: Sample, g: Sample, b: Sample)
    ensures InkOf(CMY)(r, g, b) == Cost(255 - r, 255 - g, 255 - b, 0)
    ensures InkOf(CMYK)(r, g, b) == CmykInk(255 - r, 255 - g, 255 - b)
    ensures InkOf(CMYPK)(r, g, b) == CmypkInk(255 - r, 255 - g, 255 - b)
  {
    hide CmykInk, CmypkInk;
    assert InkOf(CMY)(r, g, b) == CmyInk(255 - r, 255 - g, 255 - b);
  }

  /** Costs add colour by colour. */
  lemma OnePixelTotal(ink: Ink, r: Sample, g: Sample, b: Sample, x: Cost)
    ensures Total(ink, [r, g, b], 1) == ink(r, g, b)
    ensures Plus(x, ink(r, g, b)) == Cost(x.c + ink(r, g, b).c, x.m + ink(r, g, b).m, x.y + ink(r, g, b).y,
                                          x.k + ink(r, g, b).k)
  {
    assert Total(ink, [r, g, b], 0) == NOTHING;
  }

  /** One chunk that was read into the buffer. */
  method CountChunk(image: Image, space: Colorspace, base: nat, block: nat, ghost data: seq<Sample>) returns (sum: Cost)
    requires base % WORD == 0 && block <= image.buffer.Length && image.buffer[..block] == data
    modifies image.buffer
    ensures sum == Total(InkOf(space), data, block / 3)
  {
    var pixels := block / 3;
    if space == CMY {
      sum := CountCmy(image.buffer, pixels);
      assert image.buffer[..] == data + image.buffer[block..];
      TotalPrefix(InkOf(space), data, image.buffer[block..], pixels);
    } else {
      image.Invert(base);
      assert Inverted(data, image.buffer[..]);
      TotalInverted(if space == CMYK then CmykInk else CmypkInk, data, image.buffer[..], pixels);
      if space == CMYK { sum := CountCmyk(image.buffer, pixels); } else { sum := CountCmypk(image.buffer, pixels); }
    }
  }

  /** The chunk loop of the three colour analyzers: whatever sizes the reads come in, the cost is the sum
      over the pixels of what was read, and that is the whole page unless a read fails. */
  method Analyze(pipe: Pipe, image: Image, space: Colorspace, base: nat) returns (ret: int, cost: Cost)
    requires base % WORD == 0 && image.buffer.Length % 3 == 0 && image.buffer.Length > 0
    modifies pipe, image`remBytes, image.buffer
    ensures Counted(old(pipe.rest), old(image.remBytes), image.remBytes, InkOf(space), cost)
    ensures ret <= 0 && (ret == 0 <==> image.remBytes == 0)
    ensures ret == 0 ==> pipe.rest == old(pipe.rest)[old(image.remBytes)..]
    ensures Quiet(old(pipe.script)) && old(image.remBytes) <= |old(pipe.rest)| ==> ret == 0
  {
    hide Counted, Total, InkOf, Quiet, Plus;
    ghost var page, rem0, ink := pipe.rest, image.remBytes, InkOf(space);
    cost := NOTHING;
    CountedStart(page, rem0, ink);
    while true
      invariant image.remBytes <= rem0 && rem0 - image.remBytes <= |page| && pipe.rest == page[rem0 - image.remBytes..]
      invariant Counted(page, rem0, image.remBytes, ink, cost)
      invariant Quiet(old(pipe.script)) ==> Quiet(pipe.script)
      decreases image.remBytes
    {
      ghost var rest, rem := pipe.rest, image.remBytes;
      ret := image.ChunkNext(pipe);
      if ret <= 0 { break; }
      var more := CountChunk(image, space, base, ret, rest[..ret]);
      CountedChunk(page, rem0, rem, ink, cost, ret, rest[..ret]);
      cost := Plus(cost, more);
    }
  }

  predicate AtMost(x: Cost, n: nat) { x.c <= n && x.m <= n && x.y <= n && x.k <= n }

  lemma InkBound(space: Colorspace, r: Sample, g: Sample, b: Sample)
    ensures AtMost(InkOf(space)(r, g, b), 255)
  {
    hide CmykInk, CmypkInk;
    PixelBounds(255 - r, 255 - g, 255 - b);
    match space
    case CMYK => assert InkOf(space)(r, g, b) == CmykInk(255 - r, 255 - g, 255 - b);
    case CMYPK => assert InkOf(space)(r, g, b) == CmypkInk(255 - r, 255 - g, 255 - b);
    case CMY => assert InkOf(space)(r, g, b) == CmyInk(255 - r, 255 - g, 255 - b);
  }

  /** The 64-bit sums hold any image of up to 2^54 pixels, their total included. */
  lemma {:induction false} TotalBound(space: Colorspace, data: seq<Sample>, n: nat)
    requires 3 * n <= |data|
    ensures AtMost(Total(InkOf(space), data, n), 255 * n)
    ensures n <= 0x40_0000_0000_0000 ==> Drops(Total(InkOf(space), data, n)) < 0x1_0000_0000_0000_0000
  {
    if n > 0 {
      TotalBound(space, data, n - 1);
      InkBound(space, data[3 * n - 3], data[3 * n - 2], data[3 * n - 1]);
    }
  }

  // ---------- The document's account ----------

  function Drops(x: Cost): nat { x.c + x.m + x.y + x.k }

  function Sum(pages: seq<Cost>): Cost {
    if pages == [] then NOTHING else Plus(Sum(pages[..|pages| - 1]), pages[|pages| - 1])
  }

  /** A document's account after one more page, and what makes its total. */
  lemma OnePageMore(pages: seq<Cost>, x: Cost)
    ensures var s := Sum(pages); Sum(pages + [x]) == Cost(s.c + x.c, s.m + x.m, s.y + x.y, s.k + x.k)
    ensures Sum([]) == Cost(0, 0, 0, 0) && Drops(x) == x.c + x.m + x.y + x.k
  {
    assert (pages + [x])[..|pages|] == pages;
  }

  class Account {
    var c: nat
    var m: nat
    var y: nat
    var k: nat
    var t: nat
    var p: nat

    /** Everything that was counted is in the total. */
    ghost predicate Valid()
      reads this
    {
      t == Drops(Content())
    }

    function Content(): Cost
      reads this
    {
      Cost(c, m, y, k)
    }

    constructor ()
      ensures Valid() && Content() == NOTHING && p == 0
    {
      c, m, y, k, t, p := 0, 0, 0, 0, 0, 0;
    }

    method Add(page: Cost)
      requires Valid()
      modifies this
      ensures Valid() && Content() == Plus(old(Content()), page) && p == old(p)
    {
      c, m, y, k := c + page.c, m + page.m, y + page.y, k + page.k;
      t := t + page.c + page.m + page.y + page.k;
    }

    /** The page loop's accounting. */
    method AddPages(pages: seq<Cost>)
      requires Valid() && Content() == NOTHING && p == 0
      modifies this
      ensures Valid() && Content() == Sum(pages) && p == |pages| && t == Drops(Sum(pages))
    {
      for i := 0 to |pages|
        invariant Valid() && Content() == Sum(pages[..i]) && p == i
      {
        assert pages[..i + 1][..i] == pages[..i];
        Add(pages[i]);
        p := p + 1;
      }
      assert pages[..|pages|] == pages;
    }
  }
}
