/**
 How good the greedy pass over the connection list is: it succeeds exactly if any choice of one
 direction per connection, bound in list order, respects the element order of every port. That is
 less than being orderable at all.
 */
module BindingOrder {
  import opened Text
  import opened PortBinder
  import opened PortOrder

  ghost predicate ChosenBefore(order: seq<Conn>, chosen: set<Conn>, n: nat, e: End)
    requires n <= |order|
  {
    exists m :: 0 <= m < n && order[m] in chosen && HasEnd(order[m], e)
  }

  /** When its turn comes, all smaller elements of both of its ports have been chosen before. */
  ghost predicate Prepared(order: seq<Conn>, chosen: set<Conn>, n: nat)
    requires n < |order|
  {
    && (forall k: nat :: k < order[n].src.index ==> ChosenBefore(order, chosen, n, End(order[n].src.port, k)))
    && (forall k: nat :: k < order[n].dst.index ==> ChosenBefore(order, chosen, n, End(order[n].dst.port, k)))
  }

  /** One direction of every connection, such that binding them in list order is in order at every port. */
  ghost predicate Workable(order: seq<Conn>, chosen: set<Conn>) {
    && (forall c :: c in order ==> (c in chosen) != (Flip(c) in chosen))
    && (forall n :: 0 <= n < |order| && order[n] in chosen ==> Prepared(order, chosen, n))
  }

  // ---------- a workable choice makes the pass succeed ----------

  ghost predicate Covered(made: seq<Conn>, c: Conn) { c in made || Flip(c) in made }

  lemma CoveredBound(made: seq<Conn>, c: Conn, e: End)
    requires Covered(made, c) && HasEnd(c, e)
    ensures IsBound(made, e)
  {
    SomeDirectionBound(made, c);
  }

  function Upto(order: seq<Conn>, n: nat): State
    requires n <= |order|
  {
    Pass(order[..n], State(Zero(order), []))
  }

  lemma UptoFacts(order: seq<Conn>, n: nat)
    requires WellFormed(order) && n <= |order|
    ensures Filled(Upto(order, n)) && forall c :: c in Upto(order, n).made ==> c in order
  {
    StartFilled(order);
    forall c | c in order[..n]
      ensures c in order && c.src != c.dst
    {
    }
    PassFills(order[..n], State(Zero(order), []));
    MadeFromOrder(order[..n], State(Zero(order), []));
  }

  lemma UptoStep(order: seq<Conn>, n: nat)
    requires n < |order|
    ensures Upto(order, n + 1) == Step(Upto(order, n), order[n])
    ensures forall c :: c in Upto(order, n).made ==> c in Upto(order, n + 1).made
  {
    assert order[..n + 1][..n] == order[..n];
  }

  /** An end whose predecessors are all bound, but which itself is not, is next in line. */
  lemma NextByPredecessors(st: State, e: End)
    requires Filled(st) && !IsBound(st.made, e)
    requires forall k: nat :: k < e.index ==> IsBound(st.made, End(e.port, k))
    ensures NextInLine(st.counts, e)
  {
    assert !IsBound(st.made, End(e.port, e.index));
    if e.index > 0 {
      assert IsBound(st.made, End(e.port, e.index - 1));
    }
  }

  lemma ChosenBound(order: seq<Conn>, chosen: set<Conn>, n: nat, e: End)
    requires n <= |order| && ChosenBefore(order, chosen, n, e)
    requires forall m :: 0 <= m < n && order[m] in chosen ==> Covered(Upto(order, n).made, order[m])
    ensures IsBound(Upto(order, n).made, e)
  {
    var m :| 0 <= m < n && order[m] in chosen && HasEnd(order[m], e);
    CoveredBound(Upto(order, n).made, order[m], e);
  }

  lemma UncoveredUnbound(order: seq<Conn>, n: nat, c: Conn, e: End)
    requires WellFormed(order) && n <= |order| && c in order && HasEnd(c, e)
    requires !Covered(Upto(order, n).made, c)
    ensures !IsBound(Upto(order, n).made, e)
  {
    var made := Upto(order, n).made;
    UptoFacts(order, n);
    forall k | 0 <= k < |made|
      ensures !HasEnd(made[k], e)
    {
      assert made[k] in made;
      if HasEnd(made[k], e) {
        OnePeer(order, c, made[k], e);
      }
    }
  }

  lemma ChosenGetsBound(order: seq<Conn>, chosen: set<Conn>, n: nat)
    requires WellFormed(order) && Workable(order, chosen) && n < |order| && order[n] in chosen
    requires ChosenCovered(order, chosen, n, Upto(order, n).made)
    ensures Covered(Upto(order, n + 1).made, order[n])
  {
    var st, c := Upto(order, n), order[n];
    UptoStep(order, n);
    if !Covered(st.made, c) {
      UptoFacts(order, n);
      assert Prepared(order, chosen, n);
      forall k: nat | k < c.src.index
        ensures IsBound(st.made, End(c.src.port, k))
      {
        ChosenBound(order, chosen, n, End(c.src.port, k));
      }
      forall k: nat | k < c.dst.index
        ensures IsBound(st.made, End(c.dst.port, k))
      {
        ChosenBound(order, chosen, n, End(c.dst.port, k));
      }
      UncoveredUnbound(order, n, c, c.src);
      UncoveredUnbound(order, n, c, c.dst);
      NextByPredecessors(st, c.src);
      NextByPredecessors(st, c.dst);
    }
  }

  ghost predicate ChosenCovered(order: seq<Conn>, chosen: set<Conn>, n: nat, made: seq<Conn>)
    requires n <= |order|
  {
    forall m :: 0 <= m < n && order[m] in chosen ==> Covered(made, order[m])
  }

  lemma OneMoreCovered(order: seq<Conn>, chosen: set<Conn>, n: nat, made: seq<Conn>, more: seq<Conn>)
    requires n < |order| && ChosenCovered(order, chosen, n, made) && (forall c :: c in made ==> c in more)
    requires order[n] in chosen ==> Covered(more, order[n])
    ensures ChosenCovered(order, chosen, n + 1, more)
  {
    forall m | 0 <= m < n && order[m] in chosen ensures Covered(more, order[m]) {
      CoveredStays(made, more, order[m]);
    }
  }

  lemma NextChosenBound(order: seq<Conn>, chosen: set<Conn>, n: nat)
    requires WellFormed(order) && Workable(order, chosen) && n < |order|
    requires ChosenCovered(order, chosen, n, Upto(order, n).made)
    ensures ChosenCovered(order, chosen, n + 1, Upto(order, n + 1).made)
  {
    var made, more := Upto(order, n).made, Upto(order, n + 1).made;
    if order[n] in chosen {
      ChosenGetsBound(order, chosen, n);
    }
    UptoStep(order, n);
    OneMoreCovered(order, chosen, n, made, more);
  }

  lemma {:induction false} ChosenAllBound(order: seq<Conn>, chosen: set<Conn>, n: nat)
    requires WellFormed(order) && Workable(order, chosen) && n <= |order|
    ensures ChosenCovered(order, chosen, n, Upto(order, n).made)
  {
    if n > 0 {
      ChosenAllBound(order, chosen, n - 1);
      NextChosenBound(order, chosen, n - 1);
    }
  }

  lemma CoveredStays(made: seq<Conn>, more: seq<Conn>, c: Conn)
    requires Covered(made, c) && forall d :: d in made ==> d in more
    ensures Covered(more, c)
  {
  }

  // ---------- a successful pass is a workable choice ----------

  lemma {:induction false} MadeAtItsTurn(order: seq<Conn>, n: nat, c: Conn) returns (m: nat)
    requires n <= |order| && c in Upto(order, n).made
    ensures m < n && order[m] == c
    ensures NextInLine(Upto(order, m).counts, c.src) && NextInLine(Upto(order, m).counts, c.dst)
  {
    if n == 0 {
      assert false;
    } else {
      UptoStep(order, n - 1);
      if c in Upto(order, n - 1).made {
        m := MadeAtItsTurn(order, n - 1, c);
      } else {
        m := n - 1;
      }
    }
  }

  lemma {:induction false} MadeStays(order: seq<Conn>, m: nat, n: nat)
    requires m <= n <= |order|
    ensures forall c :: c in Upto(order, m).made ==> c in Upto(order, n).made
  {
    if m < n {
      MadeStays(order, m, n - 1);
      UptoStep(order, n - 1);
    }
  }

  function MadeSet(order: seq<Conn>): set<Conn> { set c | c in Upto(order, |order|).made }

  lemma PredecessorMade(order: seq<Conn>, n: nat, e: End, k: nat)
    requires WellFormed(order) && n <= |order| && NextInLine(Upto(order, n).counts, e) && k < e.index
    ensures ChosenBefore(order, MadeSet(order), n, End(e.port, k))
  {
    UptoFacts(order, n);
    var made := Upto(order, n).made;
    assert IsBound(made, End(e.port, k));
    var i :| 0 <= i < |made| && HasEnd(made[i], End(e.port, k));
    assert made[i] in made;
    var m := MadeAtItsTurn(order, n, made[i]);
    MadeStays(order, n, |order|);
  }

  lemma MadeIsPrepared(order: seq<Conn>, n: nat)
    requires WellFormed(order) && n < |order| && order[n] in Upto(order, |order|).made
    ensures Prepared(order, MadeSet(order), n)
  {
    var c := order[n];
    var m := MadeAtItsTurn(order, |order|, c);
    assert order[m].src == order[n].src;
    assert m == n;
    forall k: nat | k < c.src.index
      ensures ChosenBefore(order, MadeSet(order), n, End(c.src.port, k))
    {
      PredecessorMade(order, n, c.src, k);
    }
    forall k: nat | k < c.dst.index
      ensures ChosenBefore(order, MadeSet(order), n, End(c.dst.port, k))
    {
      PredecessorMade(order, n, c.dst, k);
    }
  }

  // ---------- main result ----------

  /**
   The pass binds everything exactly if the list admits a workable choice: no single pass over the
   list in this order, however clever about which direction to bind when, can do more than the greedy one.
   */
  lemma GreedyExact(order: seq<Conn>)
    requires WellFormed(order)
    ensures 2 * |Bound(order).made| == |order| <==> exists chosen :: Workable(order, chosen)
  {
    var made := Bound(order).made;
    assert order[..|order|] == order;
    HalfCheckExact(order);
    if 2 * |made| == |order| {
      var chosen := MadeSet(order);
      forall n | 0 <= n < |order| && order[n] in chosen
        ensures Prepared(order, chosen, n)
      {
        MadeIsPrepared(order, n);
      }
      forall c | c in order
        ensures (c in chosen) != (Flip(c) in chosen)
      {
        assert BoundOneWay(made, c);
      }
      assert Workable(order, chosen);
    }
    if chosen :| Workable(order, chosen) {
      ChosenAllBound(order, chosen, |order|);
      BindingSound(order);
      forall c | c in order
        ensures BoundOneWay(made, c)
      {
        WorkableCovers(order, chosen, c);
      }
    }
  }

  /**
   The program on a well-formed list: it never looks up an unknown port, and it binds everything exactly if
   the sorted list admits a workable choice.
   */
  lemma BinderExact(connections: seq<Conn>)
    requires WellFormed(connections)
    ensures !Binding(SortConns(connections)).KeyError?
    ensures Binding(SortConns(connections)).Made? <==> exists chosen :: Workable(SortConns(connections), chosen)
  {
    SortedWellFormed(connections);
    GreedyExact(SortConns(connections));
  }

  lemma WorkableCovers(order: seq<Conn>, chosen: set<Conn>, c: Conn)
    requires WellFormed(order) && Workable(order, chosen) && c in order
    requires forall m :: 0 <= m < |order| && order[m] in chosen ==> Covered(Bound(order).made, order[m])
    requires forall d :: d in Bound(order).made ==> Flip(d) !in Bound(order).made
    ensures BoundOneWay(Bound(order).made, c)
  {
    var d := if c in chosen then c else Flip(c);
    assert d in chosen && d in order;
    var m :| 0 <= m < |order| && order[m] == d;
    assert Covered(Bound(order).made, d);
  }

  // ---------- sorting is not enough ----------

  function E(name: string, index: nat): End { End(Port("sys", name), index) }

  /** Three connections, sorted by name and index: a[0]-d[1], d[0]-z[1], y[0]-z[0]. */
  function SortedList(): seq<Conn> {
    [Conn(E("a", 0), E("d", 1)), Conn(E("d", 0), E("z", 1)), Conn(E("d", 1), E("a", 0)),
     Conn(E("y", 0), E("z", 0)), Conn(E("z", 0), E("y", 0)), Conn(E("z", 1), E("d", 0))]
  }

  /** The same list in another order. */
  function OtherList(): seq<Conn> {
    [Conn(E("y", 0), E("z", 0)), Conn(E("z", 1), E("d", 0)), Conn(E("d", 1), E("a", 0)),
     Conn(E("a", 0), E("d", 1)), Conn(E("d", 0), E("z", 1)), Conn(E("z", 0), E("y", 0))]
  }

  lemma SortedPass()
    ensures |Bound(SortedList()).made| == 2
  {
    var o := SortedList();
    assert o[..6] == o;
    SortedHalf();
    UptoStep(o, 3);
    assert Upto(o, 4).made == [o[3]] && Count(Upto(o, 4).counts, Port("sys", "z")) == 1;
    UptoStep(o, 4);
    UptoStep(o, 5);
  }

  /** Nothing in the first half of the list can be bound. */
  lemma SortedHalf()
    ensures Upto(SortedList(), 3) == State(Zero(SortedList()), [])
  {
    var o := SortedList();
    assert o[..0] == [];
    UptoStep(o, 0);
    assert Upto(o, 1) == Upto(o, 0);
    UptoStep(o, 1);
    assert Upto(o, 2) == Upto(o, 0);
    UptoStep(o, 2);
  }

  /** A connection whose ends are next in line is bound and moves both ports on. */
  lemma Taken(st: State, c: Conn)
    requires NextInLine(st.counts, c.src) && NextInLine(st.counts, c.dst) && c.src.port != c.dst.port
    ensures Step(st, c).made == st.made + [c]
    ensures forall p :: Count(Step(st, c).counts, p)
                     == Count(st.counts, p) + if p == c.src.port || p == c.dst.port then 1 else 0
  {
  }

  lemma OtherHalf()
    ensures var o := OtherList();
            var n := Upto(o, 3).counts;
            && |Upto(o, 3).made| == 3 && Count(n, E("a", 0).port) == 1 && Count(n, E("d", 0).port) == 2
            && Count(n, E("y", 0).port) == 1 && Count(n, E("z", 0).port) == 2
  {
    var o := OtherList();
    assert o[..0] == [];
    UptoStep(o, 0);
    Taken(Upto(o, 0), o[0]);
    UptoStep(o, 1);
    Taken(Upto(o, 1), o[1]);
    UptoStep(o, 2);
    Taken(Upto(o, 2), o[2]);
  }

  lemma OtherPass()
    ensures |Bound(OtherList()).made| == 3
  {
    var o := OtherList();
    OtherHalf();
    UptoStep(o, 3);
    UptoStep(o, 4);
    UptoStep(o, 5);
    assert o[..6] == o;
  }

  lemma SortedListWellFormed()
    ensures WellFormed(SortedList())
  {
    var o := SortedList();
    assert Flip(o[0]) == o[2] && Flip(o[1]) == o[5] && Flip(o[3]) == o[4];
    forall c | c in o
      ensures Flip(c) in o && c.src != c.dst
    {
      var i :| 0 <= i < |o| && o[i] == c;
    }
  }

  lemma SameConnections()
    ensures multiset(OtherList()) == multiset(SortedList())
  {
    var o := SortedList();
    assert SortedList() == [o[0], o[1], o[2], o[3], o[4], o[5]];
    assert OtherList() == [o[3], o[5], o[2], o[0], o[1], o[4]];
  }

  /** The list is in the order in which the program visits connections. */
  lemma SortedListInOrder()
    ensures forall i, j :: 0 <= i < j < |SortedList()| ==> Before(SortedList()[i], SortedList()[j])
  {
    NamesInOrder();
    var o := SortedList();
    assert EndBefore(o[0].src, o[1].src) && EndBefore(o[1].src, o[2].src) && EndBefore(o[2].src, o[3].src);
    assert EndBefore(o[3].src, o[4].src) && EndBefore(o[4].src, o[5].src);
    assert EndBefore(o[0].src, o[3].src) && EndBefore(o[0].src, o[4].src) && EndBefore(o[0].src, o[5].src);
    assert EndBefore(o[1].src, o[3].src) && EndBefore(o[1].src, o[4].src) && EndBefore(o[1].src, o[5].src);
    assert EndBefore(o[2].src, o[4].src) && EndBefore(o[2].src, o[5].src) && EndBefore(o[3].src, o[5].src);
    assert EndBefore(o[0].src, o[2].src);
  }

  lemma NamesInOrder()
    ensures TextBefore("a", "d") && TextBefore("a", "y") && TextBefore("a", "z")
    ensures TextBefore("d", "y") && TextBefore("d", "z") && TextBefore("y", "z")
  {
  }

  /**
   The comment in the program expects that one direction of each connection can be bound "because the
   connections are sorted". Here is a well-formed list, in sorted order, that the program rejects
   although the same connections can all be bound, in index order at every port, when visited differently.
   */
  lemma SortingIsNotEnough()
    ensures WellFormed(SortedList()) && multiset(OtherList()) == multiset(SortedList())
    ensures forall i, j :: 0 <= i < j < |SortedList()| ==> Before(SortedList()[i], SortedList()[j])
    ensures Binding(SortConns(SortedList())) == CannotOrder && Binding(SortConns(OtherList())) == CannotOrder
    ensures Binding(OtherList()).Made?
  {
    SortedListWellFormed();
    SameConnections();
    SortedPass();
    OtherPass();
    SortedListInOrder();
    SortsTo(SortedList(), SortedList());
    SortsTo(OtherList(), SortedList());
    SortedWellFormed(SortedList());
    OtherKnown();
  }

  lemma SortsTo(s: seq<Conn>, o: seq<Conn>)
    requires multiset(s) == multiset(o) && forall i, j :: 0 <= i < j < |o| ==> Before(o[i], o[j])
    ensures SortConns(s) == o
  {
    SortedInOrder(s);
    InOrderUnique(SortConns(s), o);
  }

  lemma OtherKnown()
    ensures !UnknownPort(OtherList())
  {
    var o := OtherList();
    forall k | 0 <= k < |o| ensures o[k].dst.port in Zero(o) {
      var i := 5 - k;
      assert o[i].src.port == o[k].dst.port;
      SourceKnown(o, i);
    }
    NeverUnknown(o, Zero(o));
  }
}
