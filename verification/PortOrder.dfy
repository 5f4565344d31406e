/**
 The order in which connections are visited: by object name, port name and element of the source, then of
 the target. It is total, so a list has exactly one sorted arrangement.
 */
module PortOrder {
  import opened Text
  import StableSorting

  datatype Port = Port(object_: string, name: string)

  /** Element `index` of a port. */
  datatype End = End(port: Port, index: nat)

  datatype Conn = Conn(src: End, dst: End)

  // ---------- comparing ----------

  predicate EndBefore(a: End, b: End) {
    || TextBefore(a.port.object_, b.port.object_)
    || (a.port.object_ == b.port.object_ && TextBefore(a.port.name, b.port.name))
    || (a.port == b.port && a.index < b.index)
  }

  predicate Before(c: Conn, d: Conn) { EndBefore(c.src, d.src) || (c.src == d.src && EndBefore(c.dst, d.dst)) }

  lemma EndOrder(a: End, b: End)
    ensures !EndBefore(a, a)
    ensures !(EndBefore(a, b) && EndBefore(b, a))
    ensures a == b || EndBefore(a, b) || EndBefore(b, a)
  {
    TextOrder(a.port.object_, b.port.object_);
    TextOrder(a.port.name, b.port.name);
  }

  lemma EndTransitive(a: End, b: End, c: End)
    requires EndBefore(a, b) && EndBefore(b, c)
    ensures EndBefore(a, c)
  {
    if TextBefore(a.port.object_, b.port.object_) && TextBefore(b.port.object_, c.port.object_) {
      TextTransitive(a.port.object_, b.port.object_, c.port.object_);
    } else if a.port.object_ == b.port.object_ == c.port.object_ {
      if TextBefore(a.port.name, b.port.name) && TextBefore(b.port.name, c.port.name) {
        TextTransitive(a.port.name, b.port.name, c.port.name);
      }
    }
  }

  /** Of two different connections exactly one comes first. */
  lemma ConnOrder(c: Conn, d: Conn)
    ensures !Before(c, c)
    ensures !(Before(c, d) && Before(d, c))
    ensures c == d || Before(c, d) || Before(d, c)
  {
    EndOrder(c.src, d.src);
    EndOrder(c.dst, d.dst);
    EndOrder(d.src, c.src);
    EndOrder(d.dst, c.dst);
  }

  lemma ConnTransitive(c: Conn, d: Conn, e: Conn)
    requires Before(c, d) && Before(d, e)
    ensures Before(c, e)
  {
    if EndBefore(c.src, d.src) && EndBefore(d.src, e.src) {
      EndTransitive(c.src, d.src, e.src);
    } else if c.src == d.src == e.src {
      EndTransitive(c.dst, d.dst, e.dst);
    }
  }

  // ---------- sorting ----------

  ghost predicate InOrder(s: seq<Conn>) {
    forall i, j :: 0 <= i < j < |s| ==> s[i] == s[j] || Before(s[i], s[j])
  }

  function Insert(s: seq<Conn>, c: Conn): (r: seq<Conn>)
    ensures |r| == |s| + 1
  {
    if s == [] || !Before(c, s[|s| - 1]) then s + [c] else Insert(s[..|s| - 1], c) + [s[|s| - 1]]
  }

  /** `sorted(connections)`. */
  function SortConns(s: seq<Conn>): (r: seq<Conn>)
    ensures |r| == |s|
  {
    if s == [] then [] else Insert(SortConns(s[..|s| - 1]), s[|s| - 1])
  }

  lemma {:induction false} InsertMultiset(s: seq<Conn>, c: Conn)
    ensures multiset(Insert(s, c)) == multiset(s) + multiset{c}
  {
    if s != [] && Before(c, s[|s| - 1]) {
      InsertMultiset(s[..|s| - 1], c);
      assert s == s[..|s| - 1] + [s[|s| - 1]];
    }
  }

  /** No connection of the list comes behind `c`. */
  ghost predicate AllUpTo(s: seq<Conn>, c: Conn) {
    forall i :: 0 <= i < |s| ==> s[i] == c || Before(s[i], c)
  }

  lemma AppendInOrder(s: seq<Conn>, c: Conn)
    requires InOrder(s) && AllUpTo(s, c)
    ensures InOrder(s + [c])
  {
  }

  lemma LastIsTop(s: seq<Conn>)
    requires InOrder(s) && s != []
    ensures AllUpTo(s, s[|s| - 1])
  {
  }

  lemma UpToMore(s: seq<Conn>, c: Conn, d: Conn)
    requires AllUpTo(s, c) && (c == d || Before(c, d))
    ensures AllUpTo(s, d)
  {
    forall i | 0 <= i < |s| ensures s[i] == d || Before(s[i], d) {
      if s[i] != c && c != d {
        ConnTransitive(s[i], c, d);
      }
    }
  }

  lemma {:induction false} InsertUpTo(s: seq<Conn>, c: Conn, d: Conn)
    requires AllUpTo(s, d) && Before(c, d)
    ensures AllUpTo(Insert(s, c), d)
  {
    if s != [] && Before(c, s[|s| - 1]) {
      InsertUpTo(s[..|s| - 1], c, d);
    }
  }

  lemma {:induction false} InsertInOrder(s: seq<Conn>, c: Conn)
    requires InOrder(s)
    ensures InOrder(Insert(s, c))
  {
    if s != [] {
      var init, last := s[..|s| - 1], s[|s| - 1];
      LastIsTop(s);
      ConnOrder(c, last);
      if Before(c, last) {
        InsertInOrder(init, c);
        InsertUpTo(init, c, last);
        AppendInOrder(Insert(init, c), last);
      } else {
        UpToMore(s, last, c);
        AppendInOrder(s, c);
      }
    }
  }

  /** The sorted list is in order and has the same connections. */
  lemma {:induction false} SortedInOrder(s: seq<Conn>)
    ensures InOrder(SortConns(s)) && multiset(SortConns(s)) == multiset(s)
  {
    if s != [] {
      var n := |s| - 1;
      SortedInOrder(s[..n]);
      InsertInOrder(SortConns(s[..n]), s[n]);
      InsertMultiset(SortConns(s[..n]), s[n]);
      assert s == s[..n] + [s[n]];
    }
  }

  /** Object first, then port, then element. */
  ghost predicate NotBehind(a: End, b: End) {
    && !TextBefore(b.port.object_, a.port.object_)
    && (a.port.object_ == b.port.object_ ==> !TextBefore(b.port.name, a.port.name))
    && (a.port == b.port ==> a.index <= b.index)
  }

  /** Field by field: the sources never fall back, and for the same source the targets do not. */
  lemma SortedByFields(conns: seq<Conn>, i: nat, j: nat)
    requires i < j < |conns|
    ensures var s := SortConns(conns);
            NotBehind(s[i].src, s[j].src) && (s[i].src == s[j].src ==> NotBehind(s[i].dst, s[j].dst))
  {
    SortedInOrder(conns);
    var c, d := SortConns(conns)[i], SortConns(conns)[j];
    ConnOrder(c, d);
    EndOrder(c.src, d.src);
    EndOrder(c.dst, d.dst);
  }

  /** There is no other such list. */
  lemma {:induction false} InOrderUnique(a: seq<Conn>, b: seq<Conn>)
    requires InOrder(a) && InOrder(b) && multiset(a) == multiset(b)
    ensures a == b
    decreases |a|
  {
    StableSorting.SameSize(a, b);
    if a != [] {
      SameLast(a, b);
      StableSorting.SameInits(a, b);
      InOrderUnique(a[..|a| - 1], b[..|b| - 1]);
    }
  }

  lemma SameLast(a: seq<Conn>, b: seq<Conn>)
    requires InOrder(a) && InOrder(b) && multiset(a) == multiset(b) && a != [] && b != []
    ensures a[|a| - 1] == b[|b| - 1]
  {
    var x, y := a[|a| - 1], b[|b| - 1];
    assert x in multiset(a) && x in multiset(b) && y in multiset(b) && y in multiset(a);
    var i :| 0 <= i < |b| && b[i] == x;
    var j :| 0 <= j < |a| && a[j] == y;
    ConnOrder(x, y);
  }
}
