/** Reading the pixels of a page (src/lpacct/image.c): a pipe with short reads, the chunk reader, and the
    word-wise inversion of the buffer. */
module PrintSource {
  type Sample = x: int | 0 <= x < 256

  const EPIPE := 32

  /** What is still in the pipe, and how the coming read calls behave: a number below 0 is an error, any
      other asks for that many bytes less one at most. Once the script is used up, reads are full. */
  class Pipe {
    var rest: seq<Sample>
    var script: seq<int>

    constructor (rest: seq<Sample>, script: seq<int>)
      ensures this.rest == rest && this.script == script
    {
      this.rest, this.script := rest, script;
    }

    /** A read call for n bytes: an error, at least one byte, or 0 at the end of the pipe. */
    method Read(n: nat) returns (ret: int, data: seq<Sample>)
      requires n > 0
      modifies this
      ensures ret < 0 ==> data == [] && old(script) != [] && ret == old(script)[0]
      ensures ret >= 0 ==> ret == |data| <= n && (ret == 0 <==> old(rest) == [])
      ensures old(rest) == data + rest
      ensures script == old(script)[if old(script) == [] then 0 else 1..]
    {
      data := [];
      var want := n;
      if script != [] {
        var s := script[0];
        script := script[1..];
        if s < 0 { return s, []; }
        want := if s + 1 < n then s + 1 else n;
      }
      if |rest| < want { want := |rest|; }
      data, rest := rest[..want], rest[want..];
      ret := want;
    }
  }

  /** No read call fails. */
  predicate Quiet(script: seq<int>) { forall i :: 0 <= i < |script| ==> script[i] >= 0 }

  // ---------- Words of memory ----------

  const WORD := 8

  function Power256(n: nat): (r: nat)
    ensures r > 0
  {
    if n == 0 then 1 else 256 * Power256(n - 1)
  }

  /** The number that bytes in memory make, least significant first. */
  function Number(bytes: seq<Sample>): nat {
    if bytes == [] then 0 else bytes[0] + 256 * Number(bytes[1..])
  }

  function Bytes(w: nat, n: nat): (bytes: seq<Sample>)
    ensures |bytes| == n
    decreases n
  {
    if n == 0 then [] else [w % 256] + Bytes(w / 256, n - 1)
  }

  lemma {:induction false} NumberFits(bytes: seq<Sample>)
    ensures Number(bytes) < Power256(|bytes|)
    decreases |bytes|
  {
    if bytes != [] {
      NumberFits(bytes[1..]);
    }
  }

  /** The complement of a number has the complements of its bytes. */
  lemma {:induction false} ComplementBytes(bytes: seq<Sample>)
    ensures Number(bytes) < Power256(|bytes|)
    ensures forall i :: 0 <= i < |bytes| ==> Bytes(Power256(|bytes|) - 1 - Number(bytes), |bytes|)[i] == 255 - bytes[i]
    decreases |bytes|
  {
    if bytes != [] {
      var m, rest := Power256(|bytes| - 1), Number(bytes[1..]);
      ComplementBytes(bytes[1..]);
      var w := Power256(|bytes|) - 1 - Number(bytes);
      assert w == 256 * (m - 1 - rest) + (255 - bytes[0]);
      assert w % 256 == 255 - bytes[0] && w / 256 == m - 1 - rest;
    }
  }

  class Image {
    const buffer: array<Sample>
    var remBytes: nat

    constructor (bufferSize: nat, remBytes: nat)
      ensures buffer.Length == bufferSize && this.remBytes == remBytes && fresh(buffer)
    {
      buffer := new Sample[bufferSize](i => 0);
      this.remBytes := remBytes;
    }

    /** The word at position p. */
    function Load(p: nat): (w: nat)
      requires p + WORD <= buffer.Length
      reads buffer
      ensures w < Power256(WORD)
    {
      NumberFits(buffer[p..p + WORD]);
      Number(buffer[p..p + WORD])
    }

    method Store(p: nat, w: nat)
      requires p + WORD <= buffer.Length
      modifies buffer
      ensures forall k :: 0 <= k < buffer.Length ==>
              buffer[k] == if p <= k < p + WORD then Bytes(w, WORD)[k - p] else old(buffer[k])
    {
      var bytes := Bytes(w, WORD);
      forall k | 0 <= k < WORD { buffer[p + k] := bytes[k]; }
    }

    method InvertWord(p: nat)
      requires p + WORD <= buffer.Length
      modifies buffer
      ensures forall k :: 0 <= k < buffer.Length ==>
              buffer[k] == if p <= k < p + WORD then 255 - old(buffer[k]) else old(buffer[k])
    {
      hide Bytes, Number, Power256;
      ghost var bytes := buffer[p..p + WORD];
      ComplementBytes(bytes);
      Store(p, Power256(WORD) - 1 - Load(p));
      forall k | p <= k < p + WORD ensures buffer[k] == 255 - old(buffer[k]) { assert bytes[k - p] == old(buffer[k]); }
    }

    /** Inverts every byte of the buffer once: whole words, then what is left behind the last word
        boundary. The buffer begins at the word-aligned address `base`. */
    method Invert(base: nat)
      requires base % WORD == 0
      modifies buffer
      ensures forall k :: 0 <= k < buffer.Length ==> buffer[k] == 255 - old(buffer[k])
    {
      var end := (base + buffer.Length) / WORD * WORD;
      var p := 0;
      while base + p < end
        invariant p % WORD == 0 && base + p <= end
        invariant forall k :: 0 <= k < buffer.Length ==>
                  buffer[k] == if k < p then 255 - old(buffer[k]) else old(buffer[k])
        decreases end - p
      {
        InvertWord(p);
        p := p + WORD;
      }
      while p < buffer.Length
        invariant p <= buffer.Length
        invariant forall k :: 0 <= k < buffer.Length ==>
                  buffer[k] == if k < p then 255 - old(buffer[k]) else old(buffer[k])
      {
        buffer[p] := 255 - buffer[p];
        p := p + 1;
      }
    }

    /** What a read call does to the buffer. */
    method Deliver(ptr: nat, data: seq<Sample>)
      requires ptr + |data| <= buffer.Length
      modifies buffer
      ensures buffer[..ptr + |data|] == old(buffer[..ptr]) + data
    {
      var i := 0;
      while i < |data|
        invariant i <= |data| && buffer[..ptr] == old(buffer[..ptr]) && buffer[ptr..ptr + i] == data[..i]
      {
        buffer[ptr + i] := data[i];
        i := i + 1;
      }
      assert buffer[..ptr + |data|] == buffer[..ptr] + buffer[ptr..ptr + |data|];
    }

    /** Reads the next chunk: its size, 0 at the end of the image, or a negative error. */
    method ChunkNext(pipe: Pipe) returns (ret: int)
      modifies pipe, this`remBytes, buffer
      ensures var block := Min(old(remBytes), buffer.Length);
              ret < 0 || (ret == block && remBytes == old(remBytes) - block
                          && |old(pipe.rest)| >= block && buffer[..block] == old(pipe.rest)[..block]
                          && pipe.rest == old(pipe.rest)[block..])
      ensures ret < 0 ==> remBytes == old(remBytes) > 0
      ensures ret < 0 ==> !Quiet(old(pipe.script)) || |old(pipe.rest)| < Min(old(remBytes), buffer.Length)
      ensures Quiet(old(pipe.script)) ==> Quiet(pipe.script)
    {
      if remBytes == 0 { return 0; }
      var block := Min(remBytes, buffer.Length);
      var ptr := 0;
      ghost var quiet := Quiet(pipe.script);
      while ptr < block
        invariant 0 <= ptr <= block && remBytes == old(remBytes) && quiet == Quiet(old(pipe.script))
        invariant ptr <= |old(pipe.rest)| && buffer[..ptr] == old(pipe.rest)[..ptr]
                  && pipe.rest == old(pipe.rest)[ptr..]
        invariant quiet ==> Quiet(pipe.script)
        decreases block - ptr
      {
        var got, data := pipe.Read(block - ptr);
        if got < 0 { return got; }
        if got == 0 { return -EPIPE; }
        Deliver(ptr, data);
        ptr := ptr + got;
      }
      remBytes := remBytes - block;
      return block;
    }
  }

  function Min(a: nat, b: nat): nat { if a < b then a else b }
}
