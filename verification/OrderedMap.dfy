/** An ordered string map: nodes in strictly increasing strcmp order of their keys, which is the
    order in which the map is traversed. */
module OrderedMap {
  import opened Prelude

  datatype OMap<V> = Nil | Node(key: string, val: V, next: OMap<V>)

  predicate Sorted<V>(m: OMap<V>) {
    m.Node? ==> (m.next.Node? ==> StrCmp(m.key, m.next.key) < 0) && Sorted(m.next)
  }

  function Lookup<V>(m: OMap<V>, k: string): Option<V> {
    match m
    case Nil => None
    case Node(key, val, next) => if key == k then Some(val) else Lookup(next, k)
  }

  function Keys<V>(m: OMap<V>): set<string> {
    match m
    case Nil => {}
    case Node(key, _, next) => {key} + Keys(next)
  }

  function Size<V>(m: OMap<V>): nat {
    match m
    case Nil => 0
    case Node(_, _, next) => 1 + Size(next)
  }

  /** Adds a node, or replaces the value of an existing one. */
  function Put<V>(m: OMap<V>, k: string, v: V): OMap<V> {
    match m
    case Nil => Node(k, v, Nil)
    case Node(key, val, next) =>
      if StrCmp(k, key) < 0 then Node(k, v, m)
      else if k == key then Node(k, v, next)
      else Node(key, val, Put(next, k, v))
  }

  function Del<V>(m: OMap<V>, k: string): OMap<V> {
    match m
    case Nil => Nil
    case Node(key, val, next) => if key == k then next else Node(key, val, Del(next, k))
  }

  /** The nodes whose keys are outside `gone`. */
  function Without<V>(m: OMap<V>, gone: set<string>): OMap<V> {
    match m
    case Nil => Nil
    case Node(key, val, next) => if key in gone then Without(next, gone) else Node(key, val, Without(next, gone))
  }

  function Append<V>(m: OMap<V>, n: OMap<V>): OMap<V> {
    match m
    case Nil => n
    case Node(key, val, next) => Node(key, val, Append(next, n))
  }

  function Drop<V>(m: OMap<V>, n: nat): OMap<V> {
    if n == 0 || m.Nil? then m else Drop(m.next, n - 1)
  }

  lemma {:induction false} InKeys<V>(m: OMap<V>, k: string)
    ensures k in Keys(m) <==> Lookup(m, k).Some?
  {
    if m.Node? {
      InKeys(m.next, k);
    }
  }

  lemma StrCmpStrict(a: string, b: string, c: string)
    requires StrCmp(a, b) < 0 && StrCmp(b, c) < 0
    ensures StrCmp(a, c) < 0
  {
    StrCmpTransitive(a, b, c);
    StrCmpZero(a, c);
    if a == c { StrCmpAntisymmetric(a, b); }
  }

  lemma {:induction false} BelowFirst<V>(m: OMap<V>, k: string)
    requires Sorted(m) && (m.Node? ==> StrCmp(k, m.key) < 0)
    ensures Lookup(m, k) == None
  {
    if m.Node? {
      StrCmpZero(k, k);
      if m.next.Node? { StrCmpStrict(k, m.key, m.next.key); }
      BelowFirst(m.next, k);
    }
  }

  lemma {:induction false} PutSorted<V>(m: OMap<V>, k: string, v: V)
    requires Sorted(m)
    ensures Sorted(Put(m, k, v))
    ensures Put(m, k, v).Node? && (Put(m, k, v).key == k || (m.Node? && Put(m, k, v).key == m.key))
  {
    if m.Node? {
      PutSorted(m.next, k, v);
      StrCmpZero(k, m.key);
      StrCmpAntisymmetric(k, m.key);
    }
  }

  lemma {:induction false} PutLookup<V>(m: OMap<V>, k: string, v: V, x: string)
    requires Sorted(m)
    ensures Lookup(Put(m, k, v), x) == if x == k then Some(v) else Lookup(m, x)
  {
    if m.Node? {
      StrCmpZero(k, m.key);
      PutLookup(m.next, k, v, x);
    }
  }

  lemma {:induction false} WithoutLookup<V>(m: OMap<V>, gone: set<string>, x: string)
    ensures Lookup(Without(m, gone), x) == if x in gone then None else Lookup(m, x)
  {
    if m.Node? {
      WithoutLookup(m.next, gone, x);
    }
  }

  lemma {:induction false} WithoutSorted<V>(m: OMap<V>, gone: set<string>)
    requires Sorted(m)
    ensures Sorted(Without(m, gone))
    ensures Without(m, gone).Node? ==>
            m.Node? && (m.key == Without(m, gone).key || StrCmp(m.key, Without(m, gone).key) < 0)
  {
    if m.Node? {
      WithoutSorted(m.next, gone);
      if m.next.Node? && Without(m.next, gone).Node? && m.next.key != Without(m.next, gone).key {
        StrCmpStrict(m.key, m.next.key, Without(m.next, gone).key);
      }
    }
  }

  lemma {:induction false} WithoutNothing<V>(m: OMap<V>, gone: set<string>)
    requires Keys(m) !! gone
    ensures Without(m, gone) == m
  {
    if m.Node? {
      WithoutNothing(m.next, gone);
    }
  }

  lemma {:induction false} WithoutAll<V>(m: OMap<V>, gone: set<string>)
    ensures Keys(m) <= gone <==> Without(m, gone) == Nil
  {
    if m.Node? {
      WithoutAll(m.next, gone);
    }
  }

  lemma {:induction false} WithoutTwice<V>(m: OMap<V>, a: set<string>, b: set<string>)
    ensures Without(Without(m, a), b) == Without(m, a + b)
  {
    if m.Node? {
      WithoutTwice(m.next, a, b);
    }
  }

  lemma {:induction false} FirstKeyUnique<V>(m: OMap<V>)
    requires Sorted(m) && m.Node?
    ensures m.key !in Keys(m.next)
  {
    BelowFirst(m.next, m.key);
    InKeys(m.next, m.key);
  }

  lemma {:induction false} DelIsWithout<V>(m: OMap<V>, k: string)
    requires Sorted(m)
    ensures Del(m, k) == Without(m, {k})
  {
    if m.Node? {
      if m.key == k {
        FirstKeyUnique(m);
        WithoutNothing(m.next, {k});
      } else {
        DelIsWithout(m.next, k);
      }
    }
  }

  /** Claiming one more key: a node with that key goes, and without one nothing changes. */
  lemma ClaimKey<V>(m: OMap<V>, gone: set<string>, k: string)
    requires Sorted(m)
    ensures Lookup(Without(m, gone), k) == if k in gone then None else Lookup(m, k)
    ensures Without(m, gone + {k})
            == if Lookup(Without(m, gone), k).Some? then Del(Without(m, gone), k) else Without(m, gone)
  {
    WithoutLookup(m, gone, k);
    WithoutSorted(m, gone);
    WithoutTwice(m, gone, {k});
    if Lookup(Without(m, gone), k).Some? {
      DelIsWithout(Without(m, gone), k);
    } else {
      InKeys(Without(m, gone), k);
      WithoutNothing(Without(m, gone), {k});
    }
  }

  /** A sorted map is determined by its contents, whatever the order in which it was filled. */
  lemma {:induction false} Canonical<V>(m: OMap<V>, n: OMap<V>)
    requires Sorted(m) && Sorted(n)
    requires forall k :: Lookup(m, k) == Lookup(n, k)
    ensures m == n
  {
    if m.Node? { assert Lookup(m, m.key) == Lookup(n, m.key); }
    if n.Node? { assert Lookup(m, n.key) == Lookup(n, n.key); }
    if m.Node? {
      SameFirstKey(m, n);
      forall k
        ensures Lookup(m.next, k) == Lookup(n.next, k)
      {
        assert Lookup(m, k) == Lookup(n, k);
        if k == m.key {
          BelowFirst(m.next, k);
          BelowFirst(n.next, k);
        }
      }
      Canonical(m.next, n.next);
    }
  }

  lemma SameFirstKey<V>(m: OMap<V>, n: OMap<V>)
    requires Sorted(m) && Sorted(n) && m.Node? && n.Node?
    requires Lookup(m, m.key) == Lookup(n, m.key) && Lookup(m, n.key) == Lookup(n, n.key)
    ensures m.key == n.key
  {
    StrCmpZero(m.key, n.key);
    StrCmpAntisymmetric(m.key, n.key);
    if StrCmp(m.key, n.key) < 0 {
      BelowFirst(n, m.key);
    } else if StrCmp(n.key, m.key) < 0 {
      BelowFirst(m, n.key);
    }
  }

  lemma {:induction false} AppendAssociative<V>(a: OMap<V>, b: OMap<V>, c: OMap<V>)
    ensures Append(Append(a, b), c) == Append(a, Append(b, c))
  {
    if a.Node? {
      AppendAssociative(a.next, b, c);
    }
  }

  lemma {:induction false} AppendNil<V>(a: OMap<V>)
    ensures Append(a, Nil) == a
  {
    if a.Node? {
      AppendNil(a.next);
    }
  }

  lemma {:induction false} FirstIsLeast<V>(m: OMap<V>, k: string)
    requires Sorted(m) && m.Node? && Lookup(m.next, k).Some?
    ensures StrCmp(m.key, k) < 0
  {
    if m.next.key != k {
      FirstIsLeast(m.next, k);
      StrCmpStrict(m.key, m.next.key, k);
    }
  }

  lemma {:induction false} LookupInside<V>(a: OMap<V>, k: string, v: V, b: OMap<V>)
    ensures Lookup(Append(a, Node(k, v, b)), k).Some?
  {
    if a.Node? {
      LookupInside(a.next, k, v, b);
    }
  }

  /** Putting a new value at the traversal's current key replaces that node and nothing else. */
  lemma {:induction false} PutInside<V>(a: OMap<V>, k: string, v: V, b: OMap<V>, v': V)
    requires Sorted(Append(a, Node(k, v, b)))
    ensures Put(Append(a, Node(k, v, b)), k, v') == Append(a, Node(k, v', b))
    ensures Sorted(Append(a, Node(k, v', b)))
  {
    StrCmpZero(k, k);
    if a.Node? {
      LookupInside(a.next, k, v, b);
      FirstIsLeast(Append(a, Node(k, v, b)), k);
      StrCmpAntisymmetric(a.key, k);
      StrCmpZero(a.key, k);
      PutInside(a.next, k, v, b, v');
    }
  }
}
