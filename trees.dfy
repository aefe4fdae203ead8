/** The ordered index each side of the book is kept in. The balanced tree
    of the original is abstracted to the sequence of its entries in
    comparator order; `insert` refuses an entry whose price is already
    present, `remove` drops the entry with an equal price, `find` returns it. */
module Trees {
  import opened Levels

  /** Strictly sorted by the side's order: no two entries share a price. */
  predicate Sorted(o: Order, s: seq<PriceLevel>) {
    forall i, j :: 0 <= i < j < |s| ==> Before(o, s[i].price, s[j].price)
  }

  /** The first entry of `s` at price `p`, scanning front to back. */
  function Lookup(s: seq<PriceLevel>, p: Price): (r: Option<PriceLevel>)
    ensures r.Some? ==> r.value in s && r.value.price == p
    ensures r.None? <==> forall i :: 0 <= i < |s| ==> s[i].price != p
  {
    if s == [] then None
    else if s[0].price == p then Some(s[0])
    else Lookup(s[1..], p)
  }

  /** Insertion into the ordered index: placed at its position by the
      comparator, or refused (`s` unchanged) when the price is present. */
  function InsertInto(o: Order, s: seq<PriceLevel>, x: PriceLevel): (r: seq<PriceLevel>)
    ensures forall y :: y in r ==> y in s || y == x
  {
    if s == [] then [x]
    else
      var c := Compare(o, x, s[0]);
      if c < 0 then [x] + s
      else if c == 0 then s
      else [s[0]] + InsertInto(o, s[1..], x)
  }

  /** Removal from the ordered index of the entry that compares equal to `x`. */
  function RemoveFrom(o: Order, s: seq<PriceLevel>, x: PriceLevel): (r: seq<PriceLevel>)
    ensures forall y :: y in r ==> y in s
    ensures |r| <= |s|
  {
    if s == [] then []
    else if Compare(o, s[0], x) == 0 then s[1..]
    else [s[0]] + RemoveFrom(o, s[1..], x)
  }

  /** In a sorted index every entry is the one found at its own price. */
  lemma LookupSorted(o: Order, s: seq<PriceLevel>, i: int)
    requires Sorted(o, s) && 0 <= i < |s|
    ensures Lookup(s, s[i].price) == Some(s[i])
  {
  }

  /** Putting before a sorted index an entry that precedes all of it keeps
      the index sorted. */
  lemma SortedCons(o: Order, x: PriceLevel, s: seq<PriceLevel>)
    requires Sorted(o, s)
    requires forall y :: y in s ==> Before(o, x.price, y.price)
    ensures Sorted(o, [x] + s)
  {
  }

  /** Inserting into a sorted index keeps it sorted. */
  lemma {:induction false} InsertIntoSorted(o: Order, s: seq<PriceLevel>, x: PriceLevel)
    requires Sorted(o, s)
    ensures Sorted(o, InsertInto(o, s, x))
  {
    if s != [] {
      var c := Compare(o, x, s[0]);
      if c < 0 {
        forall y | y in s
          ensures Before(o, x.price, y.price)
        {
          var k :| 0 <= k < |s| && s[k] == y;
          if k > 0 {
            assert Before(o, s[0].price, s[k].price);
          }
        }
        SortedCons(o, x, s);
      } else if c > 0 {
        var t := s[1..];
        assert Sorted(o, t);
        InsertIntoSorted(o, t, x);
        forall y | y in InsertInto(o, t, x)
          ensures Before(o, s[0].price, y.price)
        {
          if y != x {
            var k :| 0 <= k < |t| && t[k] == y;
            assert s[k + 1] == y;
          }
        }
        SortedCons(o, s[0], InsertInto(o, t, x));
      }
    }
  }

  /** Insertion leaves an index holding the price unchanged, and otherwise
      adds the entry at its price without changing any other price. */
  lemma {:induction false} InsertIntoLookup(o: Order, s: seq<PriceLevel>, x: PriceLevel)
    requires Sorted(o, s)
    ensures Lookup(s, x.price).Some? ==> InsertInto(o, s, x) == s
    ensures Lookup(s, x.price).None? ==>
      forall p :: Lookup(InsertInto(o, s, x), p) == if p == x.price then Some(x) else Lookup(s, p)
  {
    if s != [] {
      var c := Compare(o, x, s[0]);
      if c < 0 {
        forall i | 0 <= i < |s|
          ensures s[i].price != x.price
        {
          if i > 0 {
            assert Before(o, s[0].price, s[i].price);
          }
        }
        assert ([x] + s)[1..] == s;
      } else if c > 0 {
        var t := s[1..];
        assert Sorted(o, t);
        InsertIntoLookup(o, t, x);
        assert ([s[0]] + InsertInto(o, t, x))[1..] == InsertInto(o, t, x);
        assert Lookup(s, x.price) == Lookup(t, x.price);
      }
    }
  }

  /** Removing from a sorted index keeps it sorted and takes away exactly
      the entry at the removed price; an absent price changes nothing. */
  lemma {:induction false} RemoveFromLookup(o: Order, s: seq<PriceLevel>, x: PriceLevel)
    requires Sorted(o, s)
    ensures Sorted(o, RemoveFrom(o, s, x))
    ensures Lookup(s, x.price).None? ==> RemoveFrom(o, s, x) == s
    ensures forall p :: Lookup(RemoveFrom(o, s, x), p) == if p == x.price then None else Lookup(s, p)
  {
    if s != [] {
      var t := s[1..];
      assert Sorted(o, t);
      if Compare(o, s[0], x) == 0 {
        forall i | 0 <= i < |t|
          ensures t[i].price != x.price
        {
          assert Before(o, s[0].price, s[i + 1].price);
        }
      } else {
        RemoveFromLookup(o, t, x);
        forall y | y in RemoveFrom(o, t, x)
          ensures Before(o, s[0].price, y.price)
        {
          var k :| 0 <= k < |t| && t[k] == y;
          assert s[k + 1] == y;
        }
        SortedCons(o, s[0], RemoveFrom(o, t, x));
        assert ([s[0]] + RemoveFrom(o, t, x))[1..] == RemoveFrom(o, t, x);
      }
    }
  }

  /** A non-empty sequence finds its first entry at that entry's price. */
  lemma LookupHead(s: seq<PriceLevel>)
    ensures s != [] ==> Lookup(s, s[0].price) == Some(s[0])
  {
  }

  /** A sorted index is determined by what it holds at each price: two
      sorted indexes that agree at every price are the same sequence. */
  lemma {:induction false} SortedExtensional(o: Order, a: seq<PriceLevel>, b: seq<PriceLevel>)
    requires Sorted(o, a) && Sorted(o, b)
    requires forall p :: Lookup(a, p) == Lookup(b, p)
    ensures a == b
  {
    LookupHead(a);
    LookupHead(b);
    if a != [] && b != [] {
      var p := a[0].price;
      if a[0] != b[0] {
        assert false;
      }
      var ta, tb := a[1..], b[1..];
      assert Sorted(o, ta) && Sorted(o, tb);
      forall r
        ensures Lookup(ta, r) == Lookup(tb, r)
      {
        if r == p {
          forall i | 0 <= i < |ta|
            ensures ta[i].price != r
          {
            assert Before(o, a[0].price, a[i + 1].price);
          }
          forall i | 0 <= i < |tb|
            ensures tb[i].price != r
          {
            assert Before(o, b[0].price, b[i + 1].price);
          }
        } else {
          assert Lookup(a, r) == Lookup(ta, r);
          assert Lookup(b, r) == Lookup(tb, r);
        }
      }
      SortedExtensional(o, ta, tb);
      assert a == [a[0]] + ta && b == [b[0]] + tb;
    }
  }

  /** One side of the book: an ordered index of price levels, mutated in
      place by `Clear`, `Insert` and `Remove`. */
  class Tree {
    const order: Order
    var items: seq<PriceLevel>

    ghost predicate Valid()
      reads this
    {
      Sorted(order, items)
    }

    constructor (order: Order)
      ensures Valid()
      ensures this.order == order && items == []
    {
      this.order := order;
      items := [];
    }

    /** Removes every entry. */
    method Clear()
      modifies this
      ensures Valid()
      ensures items == []
    {
      items := [];
    }

    /** The entry whose price compares equal to `x`'s, if any. */
    method Find(x: PriceLevel) returns (found: Option<PriceLevel>)
      requires Valid()
      ensures found.Some? <==> exists i :: 0 <= i < |items| && items[i].price == x.price
      ensures found.Some? ==> found.value in items && found.value.price == x.price
    {
      found := Lookup(items, x.price);
    }

    /** Adds `x` unless its price is present; reports whether it was added. */
    method Insert(x: PriceLevel) returns (inserted: bool)
      requires Valid()
      modifies this
      ensures Valid()
      ensures inserted <==> Lookup(old(items), x.price).None?
      ensures items == InsertInto(order, old(items), x)
    {
      InsertIntoSorted(order, items, x);
      inserted := Lookup(items, x.price).None?;
      items := InsertInto(order, items, x);
    }

    /** Removes the entry at `x`'s price; reports whether there was one. */
    method Remove(x: PriceLevel) returns (removed: bool)
      requires Valid()
      modifies this
      ensures Valid()
      ensures removed <==> Lookup(old(items), x.price).Some?
      ensures items == RemoveFrom(order, old(items), x)
    {
      RemoveFromLookup(order, items, x);
      removed := Lookup(items, x.price).Some?;
      items := RemoveFrom(order, items, x);
    }
  }
}
