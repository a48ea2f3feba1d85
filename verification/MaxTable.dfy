/**
 * Dictionaries that keep one best candidate per state: what the tree tables are filled with. Candidates come
 * from a function of one table entry and one bit, or of one entry from each of two tables.
 */
module MaxTable {
  /** A value and the endpoint, or pair of endpoints, that attains it. */
  datatype Entry<+W> = Entry(value: int, wit: W)

  type Table<!S, +W> = map<S, Entry<W>>

  /** The candidate one table entry offers for one more bit. */
  type Extension<!S, !W> = (S, Entry<W>, bool) -> (S, Entry<W>)

  /** The candidate two table entries offer together. */
  type Pairing<!S, !W, !S2, !W2> = (S, Entry<W>, S, Entry<W>) -> (S2, Entry<W2>)

  /** Keep the candidate if its state is new or it is larger. */
  function Offer<S(==), W>(t: Table<S, W>, c: (S, Entry<W>)): Table<S, W> {
    if c.0 !in t || c.1.value > t[c.0].value then t[c.0 := c.1] else t
  }

  ghost predicate Beaten<S, W>(t: Table<S, W>, c: (S, Entry<W>)) {
    c.0 in t && c.1.value <= t[c.0].value
  }

  /** `next` holds one of the largest candidates of each state that the entries in `done` offer. */
  ghost predicate Extends<S(!new), W(!new)>(t: Table<S, W>, done: set<S>, f: Extension<S, W>, next: Table<S, W>) {
    && (forall s, bit :: s in t && s in done ==> Beaten(next, f(s, t[s], bit)))
    && (forall s2 :: s2 in next ==> exists s, bit :: s in t && s in done && (s2, next[s2]) == f(s, t[s], bit))
  }

  lemma OfferBeats<S, W>(t: Table<S, W>, c: (S, Entry<W>), d: (S, Entry<W>))
    ensures Beaten(Offer(t, c), c)
    ensures Beaten(t, d) ==> Beaten(Offer(t, c), d)
  {
  }

  lemma ExtendsMore<S(!new), W(!new)>(t: Table<S, W>, done: set<S>, f: Extension<S, W>, next: Table<S, W>, s: S)
    requires Extends(t, done, f, next) && s in t
    ensures Extends(t, done + {s}, f, Offer(Offer(next, f(s, t[s], false)), f(s, t[s], true)))
  {
    var mid := Offer(next, f(s, t[s], false));
    var end := Offer(mid, f(s, t[s], true));
    forall x, bit | x in t && x in done + {s} ensures Beaten(end, f(x, t[x], bit)) {
      OfferBeats(next, f(s, t[s], false), f(x, t[x], bit));
      OfferBeats(mid, f(s, t[s], true), f(x, t[x], bit));
      assert x == s ==> bit == true || bit == false;
    }
    forall s2 | s2 in end ensures exists x, bit :: x in t && x in done + {s} && (s2, end[s2]) == f(x, t[x], bit) {
      if (s2, end[s2]) != f(s, t[s], true) && (s2, end[s2]) != f(s, t[s], false) {
        var x, bit :| x in t && x in done && (s2, next[s2]) == f(x, t[x], bit);
      }
    }
  }

  /** One width of a table: every entry offers a candidate for either bit. */
  method Extend<S(==, !new), W(!new)>(t: Table<S, W>, f: Extension<S, W>) returns (next: Table<S, W>)
    ensures Extends(t, t.Keys, f, next)
  {
    next := map[];
    var todo := t.Keys;
    while todo != {}
      invariant todo <= t.Keys && Extends(t, t.Keys - todo, f, next)
      decreases todo
    {
      var s :| s in todo;
      ExtendsMore(t, t.Keys - todo, f, next, s);
      next := Offer(Offer(next, f(s, t[s], false)), f(s, t[s], true));
      assert t.Keys - (todo - {s}) == t.Keys - todo + {s};
      todo := todo - {s};
    }
  }

  /** `next` holds one of the largest candidates of each state that the pairs in `done` offer. */
  ghost predicate Pairs<S(!new), W, S2(!new), W2(!new)>(tx: Table<S, W>, ty: Table<S, W>, done: set<(S, S)>,
                                                        f: Pairing<S, W, S2, W2>, next: Table<S2, W2>) {
    && (forall x, y :: x in tx && y in ty && (x, y) in done ==> Beaten(next, f(x, tx[x], y, ty[y])))
    && (forall s2 :: s2 in next ==>
          exists x, y :: x in tx && y in ty && (x, y) in done && (s2, next[s2]) == f(x, tx[x], y, ty[y]))
  }

  lemma PairsMore<S(!new), W, S2(!new), W2(!new)>(tx: Table<S, W>, ty: Table<S, W>, done: set<(S, S)>,
                                                          f: Pairing<S, W, S2, W2>, next: Table<S2, W2>, x: S, y: S)
    requires Pairs(tx, ty, done, f, next) && x in tx && y in ty
    ensures Pairs(tx, ty, done + {(x, y)}, f, Offer(next, f(x, tx[x], y, ty[y])))
  {
    var c := f(x, tx[x], y, ty[y]);
    var end := Offer(next, c);
    forall a, b | a in tx && b in ty && (a, b) in done + {(x, y)} ensures Beaten(end, f(a, tx[a], b, ty[b])) {
      OfferBeats(next, c, f(a, tx[a], b, ty[b]));
    }
    forall s2 | s2 in end
      ensures exists a, b :: a in tx && b in ty && (a, b) in done + {(x, y)} && (s2, end[s2]) == f(a, tx[a], b, ty[b])
    {
      if (s2, end[s2]) != c {
        var a, b :| a in tx && b in ty && (a, b) in done && (s2, next[s2]) == f(a, tx[a], b, ty[b]);
      }
    }
  }

  /** The first table of a joint program: every pair of entries offers a candidate. */
  method Pair<S(==, !new), W, S2(==, !new), W2(!new)>(tx: Table<S, W>, ty: Table<S, W>, f: Pairing<S, W, S2, W2>)
    returns (next: Table<S2, W2>)
    ensures Pairs(tx, ty, set x, y | x in tx && y in ty :: (x, y), f, next)
  {
    next := map[];
    var todo := set x, y | x in tx && y in ty :: (x, y);
    ghost var all := todo;
    while todo != {}
      invariant todo <= all && Pairs(tx, ty, all - todo, f, next)
      decreases todo
    {
      var x, y :| (x, y) in todo;
      PairsMore(tx, ty, all - todo, f, next, x, y);
      next := Offer(next, f(x, tx[x], y, ty[y]));
      assert all - (todo - {(x, y)}) == all - todo + {(x, y)};
      todo := todo - {(x, y)};
    }
  }

  /** The state with the largest value, after a bonus that depends on the state. */
  method Largest<S(==), W>(t: Table<S, W>, bonus: S -> int) returns (s: S)
    requires t.Keys != {}
    ensures s in t
    ensures forall x :: x in t ==> t[x].value + bonus(x) <= t[s].value + bonus(s)
  {
    s :| s in t;
    var todo := t.Keys - {s};
    while todo != {}
      invariant s in t && todo <= t.Keys
      invariant forall x :: x in t && x !in todo ==> t[x].value + bonus(x) <= t[s].value + bonus(s)
      decreases todo
    {
      var x :| x in todo;
      if t[x].value + bonus(x) > t[s].value + bonus(s) {
        s := x;
      }
      todo := todo - {x};
    }
  }
}
