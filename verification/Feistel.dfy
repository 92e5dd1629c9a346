/** Feistel networks of sixteen rounds over an arbitrary round function and an arbitrary way of mixing
    words that undoes itself and whose order does not matter. */
module Feistel {

  const ROUNDS := 16

  datatype Block<W> = Block(l: W, r: W)

  /** Mixing twice with one word changes nothing, and two words may be mixed in in either order. */
  ghost predicate Mixes<W(!new)>(xor: (W, W) -> W) { forall a, b, c :: Law(xor, a, b, c) }

  ghost predicate Law<W>(xor: (W, W) -> W, a: W, b: W, c: W) {
    xor(xor(a, b), b) == a && xor(xor(a, b), c) == xor(xor(a, c), b)
  }

  datatype Cipher<!W> = Cipher(xor: (W, W) -> W, f: W -> W)

  // ---------- The network, as defined ----------

  /** One round, halves exchanged. */
  function Step<W>(c: Cipher<W>, b: Block<W>, k: W): Block<W> {
    var l := c.xor(b.l, k);
    Block(c.xor(b.r, c.f(l)), l)
  }

  function State<W>(c: Cipher<W>, p: seq<W>, b: Block<W>, n: nat): Block<W>
    requires n <= |p|
    decreases n, p
  {
    if n == 0 then b else Step(c, State(c, p, b, n - 1), p[n - 1])
  }

  /** The last exchange is undone, and the two remaining subkeys are mixed in. */
  function Finish<W>(c: Cipher<W>, e: Block<W>, k: W, k': W): Block<W> { Block(c.xor(e.r, k'), c.xor(e.l, k)) }

  /** Sixteen rounds with the first sixteen of eighteen subkeys. */
  function Network<W>(c: Cipher<W>, p: seq<W>, b: Block<W>): Block<W>
    requires |p| == ROUNDS + 2
  {
    Finish(c, State(c, p, b, ROUNDS), p[ROUNDS], p[ROUNDS + 1])
  }

  // ---------- Decryption ----------

  function Reversed<W>(p: seq<W>): (q: seq<W>)
    ensures |q| == |p| && forall i :: 0 <= i < |p| ==> q[i] == p[|p| - 1 - i]
  {
    seq(|p|, i requires 0 <= i < |p| => p[|p| - 1 - i])
  }

  /** A round of decryption, with the subkey that it undoes, leads from one round's end to its start. */
  lemma BackStep<W(!new)>(c: Cipher<W>, b: Block<W>, k: W, k': W, k'': W)
    requires Mixes(c.xor)
    ensures Step(c, Finish(c, Step(c, b, k), k', k''), k'') == Finish(c, b, k, k')
  {
    var e := Step(c, b, k);
    assert Law(c.xor, e.r, k'', k');
    assert Law(c.xor, c.xor(b.r, c.f(e.r)), k', c.f(e.r));
    assert Law(c.xor, b.r, c.f(e.r), k');
  }

  lemma {:induction false} DecryptState<W(!new)>(c: Cipher<W>, p: seq<W>, b: Block<W>, n: nat)
    requires Mixes(c.xor) && |p| == ROUNDS + 2 && n <= ROUNDS
    ensures State(c, Reversed(p), Network(c, p, b), n)
            == Finish(c, State(c, p, b, ROUNDS - n), p[ROUNDS - n], p[ROUNDS + 1 - n])
  {
    if n > 0 {
      var m := ROUNDS - n;
      DecryptState(c, p, b, n - 1);
      BackStep(c, State(c, p, b, m), p[m], p[m + 1], p[m + 2]);
    }
  }

  /** The network with its subkeys reversed undoes the network. */
  lemma NetworkUndone<W(!new)>(c: Cipher<W>, p: seq<W>, b: Block<W>)
    requires Mixes(c.xor) && |p| == ROUNDS + 2
    ensures Network(c, Reversed(p), Network(c, p, b)) == b
  {
    DecryptState(c, p, b, ROUNDS);
    assert State(c, p, b, 0) == b;
    assert Reversed(p)[ROUNDS] == p[1] && Reversed(p)[ROUNDS + 1] == p[0];
    assert Law(c.xor, b.l, p[0], p[0]) && Law(c.xor, b.r, p[1], p[1]);
  }

  // ---------- The program's form ----------

  /** What the program holds after n rounds, n even: the next subkey is mixed in already. */
  function Ahead<W>(c: Cipher<W>, p: seq<W>, b: Block<W>, n: nat): Block<W>
    requires n < |p|
  {
    var e := State(c, p, b, n);
    Block(c.xor(e.l, p[n]), e.r)
  }

  /** The program's round on (from, to): the following round's subkey is mixed in at the same time. */
  function Round<W>(c: Cipher<W>, from: W, to: W, k: W): W { c.xor(c.xor(to, k), c.f(from)) }

  /** Two of the program's rounds, halves kept in place, are two rounds of the network. */
  lemma TwoRounds<W(!new)>(c: Cipher<W>, p: seq<W>, b: Block<W>, n: nat)
    requires Mixes(c.xor) && n + 2 < |p|
    ensures var a := Ahead(c, p, b, n);
            var r := Round(c, a.l, a.r, p[n + 1]);
            Block(Round(c, r, a.l, p[n + 2]), r) == Ahead(c, p, b, n + 2)
  {
    var e := State(c, p, b, n);
    var e1 := Step(c, e, p[n]);
    assert State(c, p, b, n + 1) == e1;
    assert State(c, p, b, n + 2) == Step(c, e1, p[n + 1]);
    assert Law(c.xor, e.r, p[n + 1], c.f(e1.r));
    assert Law(c.xor, e1.r, p[n + 2], c.f(c.xor(e1.l, p[n + 1])));
  }

  lemma LastRounds<W>(c: Cipher<W>, p: seq<W>, b: Block<W>)
    requires |p| == ROUNDS + 2
    ensures var a := Ahead(c, p, b, ROUNDS); Network(c, p, b) == Block(c.xor(a.r, p[ROUNDS + 1]), a.l)
  {
  }

  /** The program's procedure: the halves stay where they are, and rounds alternate between them. */
  method EncryptInPlace<W(!new)>(c: Cipher<W>, p: seq<W>, l0: W, r0: W) returns (l: W, r: W)
    requires Mixes(c.xor) && |p| == ROUNDS + 2
    ensures Block(l, r) == Network(c, p, Block(l0, r0))
  {
    ghost var b := Block(l0, r0);
    l, r := c.xor(l0, p[0]), r0;
    var n := 0;
    while n < ROUNDS
      invariant n <= ROUNDS && n % 2 == 0
      invariant Block(l, r) == Ahead(c, p, b, n)
    {
      TwoRounds(c, p, b, n);
      r := Round(c, l, r, p[n + 1]);
      l := Round(c, r, l, p[n + 2]);
      n := n + 2;
    }
    LastRounds(c, p, b);
    l, r := c.xor(r, p[ROUNDS + 1]), l;
  }
}
