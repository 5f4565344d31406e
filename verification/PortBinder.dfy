/**
 Binding ports from a configuration file. Every connection is listed in both directions; one greedy
 pass binds a connection when both of its ends are next in line at their ports.
 */
module PortBinder {
  import opened PortOrder

  function Flip(c: Conn): Conn { Conn(c.dst, c.src) }

  predicate HasEnd(c: Conn, e: End) { c.src == e || c.dst == e }

  // ---------- the pass ----------

  type Counts = map<Port, nat>

  datatype State = State(counts: Counts, made: seq<Conn>)

  function Count(counts: Counts, p: Port): nat { if p in counts then counts[p] else 0 }

  predicate NextInLine(counts: Counts, e: End) { Count(counts, e.port) == e.index }

  function Increment(counts: Counts, e: End): Counts { counts[e.port := Count(counts, e.port) + 1] }

  function Step(st: State, c: Conn): State {
    if NextInLine(st.counts, c.src) && NextInLine(st.counts, c.dst)
    then State(Increment(Increment(st.counts, c.src), c.dst), st.made + [c])
    else st
  }

  function Pass(order: seq<Conn>, start: State): State {
    if order == [] then start else Step(Pass(order[..|order| - 1], start), order[|order| - 1])
  }

  /** Every port that occurs as a source starts with nothing bound. */
  function Zero(conns: seq<Conn>): (counts: Counts)
    ensures forall p :: p in counts ==> counts[p] == 0
  {
    if conns == [] then map[] else Zero(conns[..|conns| - 1])[conns[|conns| - 1].src.port := 0]
  }

  function Bound(order: seq<Conn>): State { Pass(order, State(Zero(order), [])) }

  /**
   The pass looks up a target that is no source: there is no count for its port. The port of the source,
   which is looked up first, always has one.
   */
  predicate LooksUpUnknown(counts: Counts, known: Counts, c: Conn) {
    NextInLine(counts, c.src) && c.dst.port !in known
  }

  predicate UnknownIn(order: seq<Conn>, start: Counts) {
    order != [] &&
    var n := |order| - 1;
    UnknownIn(order[..n], start) || LooksUpUnknown(Pass(order[..n], State(start, [])).counts, start, order[n])
  }

  predicate UnknownPort(order: seq<Conn>) { UnknownIn(order, Zero(order)) }

  lemma {:induction false} UnknownStays(order: seq<Conn>, k: nat, start: Counts)
    requires k <= |order| && UnknownIn(order[..k], start)
    ensures UnknownIn(order, start)
    decreases |order| - k
  {
    if k == |order| {
      assert order[..k] == order;
    } else {
      assert order[..k + 1][..k] == order[..k];
      UnknownStays(order, k + 1, start);
    }
  }

  lemma {:induction false} NeverUnknown(order: seq<Conn>, start: Counts)
    requires forall k :: 0 <= k < |order| ==> order[k].dst.port in start
    ensures !UnknownIn(order, start)
  {
    if order != [] {
      NeverUnknown(order[..|order| - 1], start);
    }
  }

  lemma PassSnoc(order: seq<Conn>, k: nat, start: Counts)
    requires k < |order|
    ensures Pass(order[..k + 1], State(start, [])) == Step(Pass(order[..k], State(start, [])), order[k])
    ensures UnknownIn(order[..k + 1], start) <==>
            UnknownIn(order[..k], start) || LooksUpUnknown(Pass(order[..k], State(start, [])).counts, start, order[k])
  {
    assert order[..k + 1][..k] == order[..k];
  }

  datatype Outcome = Made(connections: seq<Conn>) | CannotOrder | KeyError

  /** Binding in a given order: fails at an unknown port, or if fewer than half of the directions were bound. */
  function Binding(order: seq<Conn>): Outcome {
    if UnknownPort(order) then KeyError
    else if 2 * |Bound(order).made| == |order| then Made(Bound(order).made)
    else CannotOrder
  }

  ghost predicate FailsAt(order: seq<Conn>, start: Counts, k: nat)
    requires k < |order|
  {
    LooksUpUnknown(Pass(order[..k], State(start, [])).counts, start, order[k])
  }

  lemma {:induction false} UnknownUpTo(order: seq<Conn>, start: Counts, n: nat)
    requires n <= |order|
    ensures UnknownIn(order[..n], start) <==> exists k :: 0 <= k < n && FailsAt(order, start, k)
  {
    if n > 0 {
      UnknownUpTo(order, start, n - 1);
      PassSnoc(order, n - 1, start);
      assert UnknownIn(order[..n], start) <==> UnknownIn(order[..n - 1], start) || FailsAt(order, start, n - 1);
    }
  }

  /** When it is the turn of this connection, its source is next in line, and its target is no connection's source. */
  ghost predicate TurnFails(order: seq<Conn>, k: nat)
    requires k < |order|
  {
    && Count(Pass(order[..k], State(Zero(order), [])).counts, order[k].src.port) == order[k].src.index
    && forall j :: 0 <= j < |order| ==> order[j].src.port != order[k].dst.port
  }

  /** A lookup fails exactly at such a connection; otherwise binding succeeds exactly if half of the list is bound. */
  lemma OutcomeExact(order: seq<Conn>)
    ensures Binding(order).KeyError? <==> exists k :: 0 <= k < |order| && TurnFails(order, k)
    ensures Binding(order).Made? ==> Binding(order).connections == Bound(order).made
    ensures Binding(order).Made? <==> !Binding(order).KeyError? && |order| == |Bound(order).made| + |Bound(order).made|
  {
    var zero := Zero(order);
    UnknownUpTo(order, zero, |order|);
    assert order[..|order|] == order;
    forall k | 0 <= k < |order| ensures TurnFails(order, k) <==> FailsAt(order, zero, k) {
      ZeroKeys(order, order[k].dst.port);
    }
  }

  method ZeroCounts(connections: seq<Conn>) returns (counts: Counts)
    ensures counts == Zero(connections)
  {
    counts := map[];
    for k := 0 to |connections|
      invariant counts == Zero(connections[..k])
    {
      assert connections[..k + 1][..k] == connections[..k];
      counts := counts[connections[k].src.port := 0];
    }
    assert connections[..|connections|] == connections;
  }

  /** One connection: bound if both of its ends are next in line. */
  method Visit(st: State, c: Conn, ghost known: Counts) returns (ok: bool, next: State)
    requires KnownOnly(st.counts, known) && c.src.port in known
    ensures ok <==> !LooksUpUnknown(st.counts, known, c)
    ensures ok ==> next == Step(st, c) && KnownOnly(next.counts, known)
  {
    next, ok := st, true;
    if st.counts[c.src.port] == c.src.index {
      if c.dst.port !in st.counts {
        return false, st;
      }
      if st.counts[c.dst.port] == c.dst.index {
        next := State(Increment(Increment(st.counts, c.src), c.dst), st.made + [c]);
      }
    }
  }

  /** Sorts the connections and binds them in one pass. */
  method BindPorts(connections: seq<Conn>) returns (r: Outcome)
    ensures r == Binding(SortConns(connections))
  {
    var order := SortConns(connections);
    var counts := ZeroCounts(connections);
    ZeroSorted(connections);
    var st := State(counts, []);
    for k := 0 to |order|
      invariant st == Pass(order[..k], State(counts, []))
      invariant KnownOnly(st.counts, counts)
      invariant !UnknownIn(order[..k], counts)
    {
      PassSnoc(order, k, counts);
      SourceKnown(order, k);
      var ok, next := Visit(st, order[k], counts);
      if !ok {
        UnknownStays(order, k + 1, counts);
        return KeyError;
      }
      st := next;
    }
    assert order[..|order|] == order;
    r := if |st.made| * 2 == |connections| then Made(st.made) else CannotOrder;
  }

  ghost predicate KnownOnly(counts: Counts, known: Counts) { counts.Keys == known.Keys }

  lemma {:induction false} ZeroKeys(conns: seq<Conn>, p: Port)
    ensures p in Zero(conns) <==> exists k :: 0 <= k < |conns| && conns[k].src.port == p
  {
    if conns != [] {
      ZeroKeys(conns[..|conns| - 1], p);
    }
  }

  lemma SourceKnown(order: seq<Conn>, k: nat)
    requires k < |order|
    ensures order[k].src.port in Zero(order)
  {
    ZeroKeys(order, order[k].src.port);
  }

  /** Sorting does not change which ports are sources. */
  lemma ZeroSorted(conns: seq<Conn>)
    ensures Zero(SortConns(conns)) == Zero(conns)
  {
    var order := SortConns(conns);
    SortedInOrder(conns);
    forall p ensures p in Zero(order) <==> p in Zero(conns) {
      ZeroKeys(order, p);
      ZeroKeys(conns, p);
      if k :| 0 <= k < |order| && order[k].src.port == p {
        assert order[k] in multiset(order) && order[k] in multiset(conns);
      }
      if k :| 0 <= k < |conns| && conns[k].src.port == p {
        assert conns[k] in multiset(conns) && conns[k] in multiset(order);
      }
    }
  }

  // ---------- well-formed connection lists ----------

  /** Both directions of every connection, each listed once; one peer per end, and never the end itself. */
  ghost predicate WellFormed(order: seq<Conn>) {
    && (forall c :: c in order ==> Flip(c) in order && c.src != c.dst)
    && (forall i, j :: 0 <= i < j < |order| ==> order[i].src != order[j].src)
  }

  /** A well-formed list stays so when it is sorted, and never looks up an unknown port. */
  lemma SortedWellFormed(conns: seq<Conn>)
    requires WellFormed(conns)
    ensures WellFormed(SortConns(conns)) && !UnknownPort(SortConns(conns))
  {
    var order := SortConns(conns);
    SortedInOrder(conns);
    forall c ensures c in order <==> c in conns {
      assert c in order <==> c in multiset(order);
      assert c in conns <==> c in multiset(conns);
    }
    DistinctSources(conns, order);
    forall k | 0 <= k < |order| ensures order[k].dst.port in Zero(order) {
      assert order[k] in order && Flip(order[k]) in order;
      var i :| 0 <= i < |order| && order[i] == Flip(order[k]);
      SourceKnown(order, i);
    }
    NeverUnknown(order, Zero(order));
  }

  lemma DistinctSources(conns: seq<Conn>, order: seq<Conn>)
    requires WellFormed(conns) && multiset(order) == multiset(conns)
    ensures forall i, j :: 0 <= i < j < |order| ==> order[i].src != order[j].src
  {
    forall i, j | 0 <= i < j < |order| ensures order[i].src != order[j].src {
      assert order[i] in multiset(conns) && order[j] in multiset(conns);
      var a :| 0 <= a < |conns| && conns[a] == order[i];
      var b :| 0 <= b < |conns| && conns[b] == order[j];
      if a == b {
        TwiceListed(order, i, j);
        OnceListed(conns, a);
      }
    }
  }

  lemma TwiceListed(s: seq<Conn>, i: nat, j: nat)
    requires i < j < |s| && s[i] == s[j]
    ensures multiset(s)[s[i]] >= 2
  {
    assert s == s[..j] + s[j..] && s[i] in s[..j] && s[j] in s[j..];
    assert multiset(s) == multiset(s[..j]) + multiset(s[j..]);
    assert s[i] in multiset(s[..j]) && s[j] in multiset(s[j..]);
  }

  lemma OnceListed(s: seq<Conn>, a: nat)
    requires a < |s| && forall i, j :: 0 <= i < j < |s| ==> s[i].src != s[j].src
    ensures multiset(s)[s[a]] == 1
  {
    assert s == s[..a] + [s[a]] + s[a + 1..];
    assert s[a] !in s[..a] && s[a] !in s[a + 1..];
    assert s[a] !in multiset(s[..a]) && s[a] !in multiset(s[a + 1..]);
  }

  lemma OnePeer(order: seq<Conn>, c: Conn, d: Conn, e: End)
    requires WellFormed(order) && c in order && d in order && HasEnd(c, e) && HasEnd(d, e)
    ensures d == c || d == Flip(c)
  {
    var c' := if c.src == e then c else Flip(c);
    var d' := if d.src == e then d else Flip(d);
    var i :| 0 <= i < |order| && order[i] == c';
    var j :| 0 <= j < |order| && order[j] == d';
    assert i == j;
  }

  // ---------- what every step keeps ----------

  ghost predicate IsBound(made: seq<Conn>, e: End) {
    exists k :: 0 <= k < |made| && HasEnd(made[k], e)
  }

  /** At every port exactly the elements below its count have been bound. */
  ghost predicate Filled(st: State) {
    forall p: Port, k: nat :: IsBound(st.made, End(p, k)) <==> k < Count(st.counts, p)
  }

  lemma BoundSnoc(made: seq<Conn>, c: Conn, e: End)
    ensures IsBound(made + [c], e) <==> IsBound(made, e) || HasEnd(c, e)
  {
    var m := made + [c];
    if IsBound(made, e) {
      var k :| 0 <= k < |made| && HasEnd(made[k], e);
      assert HasEnd(m[k], e);
    }
    if HasEnd(c, e) {
      assert HasEnd(m[|made|], e);
    }
    if IsBound(m, e) {
      var k :| 0 <= k < |m| && HasEnd(m[k], e);
      if k < |made| {
        assert HasEnd(made[k], e);
      }
    }
  }

  lemma StepFills(st: State, c: Conn)
    requires Filled(st) && c.src != c.dst
    ensures Filled(Step(st, c))
  {
    var st' := Step(st, c);
    if st' != st {
      assert c.src.port != c.dst.port;
      forall p: Port, k: nat
        ensures IsBound(st'.made, End(p, k)) <==> k < Count(st'.counts, p)
      {
        BoundSnoc(st.made, c, End(p, k));
      }
    }
  }

  lemma {:induction false} PassFills(order: seq<Conn>, start: State)
    requires Filled(start) && forall c :: c in order ==> c.src != c.dst
    ensures Filled(Pass(order, start))
  {
    if order != [] {
      PassFills(order[..|order| - 1], start);
      StepFills(Pass(order[..|order| - 1], start), order[|order| - 1]);
    }
  }

  lemma StartFilled(order: seq<Conn>)
    ensures Filled(State(Zero(order), []))
  {
  }

  /** The elements of port `p` that have been bound, in the order of binding. */
  function Attached(made: seq<Conn>, p: Port): seq<nat> {
    if made == [] then []
    else
      var c := made[|made| - 1];
      Attached(made[..|made| - 1], p)
      + (if c.src.port == p then [c.src.index] else []) + (if c.dst.port == p then [c.dst.index] else [])
  }

  function UpTo(n: nat): seq<nat> { seq(n, i => i) }

  lemma StepAttaches(st: State, c: Conn, p: Port)
    requires Attached(st.made, p) == UpTo(Count(st.counts, p)) && c.src != c.dst
    ensures Attached(Step(st, c).made, p) == UpTo(Count(Step(st, c).counts, p))
  {
    var st' := Step(st, c);
    if st' != st {
      assert c.src.port != c.dst.port;
      assert st'.made[..|st.made|] == st.made;
    }
  }

  /** The peers of every port are attached in index order: element 0 first, then 1, and so on. */
  lemma {:induction false} AttachedInOrder(order: seq<Conn>, start: State, p: Port)
    requires Attached(start.made, p) == UpTo(Count(start.counts, p)) && forall c :: c in order ==> c.src != c.dst
    ensures var st := Pass(order, start); Attached(st.made, p) == UpTo(Count(st.counts, p))
  {
    if order != [] {
      AttachedInOrder(order[..|order| - 1], start, p);
      StepAttaches(Pass(order[..|order| - 1], start), order[|order| - 1], p);
    }
  }

  lemma {:induction false} MadeFromOrder(order: seq<Conn>, start: State)
    ensures forall c :: c in Pass(order, start).made ==> c in start.made || c in order
  {
    if order != [] {
      MadeFromOrder(order[..|order| - 1], start);
      assert order == order[..|order| - 1] + [order[|order| - 1]];
    }
  }

  // ---------- at most once ----------

  /** No end is bound twice. */
  ghost predicate EndsOnce(made: seq<Conn>) {
    forall i, j :: 0 <= i < j < |made| ==>
      && !HasEnd(made[j], made[i].src) && !HasEnd(made[j], made[i].dst)
  }

  lemma {:induction false} PassEndsOnce(order: seq<Conn>, start: State)
    requires Filled(start) && EndsOnce(start.made) && forall c :: c in order ==> c.src != c.dst
    ensures EndsOnce(Pass(order, start).made)
  {
    if order != [] {
      var n := |order| - 1;
      PassEndsOnce(order[..n], start);
      PassFills(order[..n], start);
      StepEndsOnce(Pass(order[..n], start), order[n]);
    }
  }

  lemma StepEndsOnce(st: State, c: Conn)
    requires Filled(st) && EndsOnce(st.made)
    ensures EndsOnce(Step(st, c).made)
  {
    if Step(st, c) != st {
      forall i | 0 <= i < |st.made|
        ensures !HasEnd(c, st.made[i].src) && !HasEnd(c, st.made[i].dst)
      {
        EndTaken(st, st.made[i].src, i);
        EndTaken(st, st.made[i].dst, i);
      }
    }
  }

  lemma EndTaken(st: State, e: End, i: nat)
    requires Filled(st) && i < |st.made| && HasEnd(st.made[i], e)
    ensures !NextInLine(st.counts, e)
  {
    assert IsBound(st.made, End(e.port, e.index));
  }

  /**
   For every order of the list: each unordered pair is bound at most once, and the peers of every port
   are attached in index order.
   */
  lemma BindingSound(order: seq<Conn>)
    requires WellFormed(order)
    ensures var st := Bound(order);
            && EndsOnce(st.made)
            && (forall c :: c in st.made ==> c in order && Flip(c) !in st.made)
            && (forall p :: Attached(st.made, p) == UpTo(Count(st.counts, p)))
  {
    var start := State(Zero(order), []);
    var made := Bound(order).made;
    StartFilled(order);
    PassEndsOnce(order, start);
    MadeFromOrder(order, start);
    forall p
      ensures Attached(made, p) == UpTo(Count(Bound(order).counts, p))
    {
      AttachedInOrder(order, start, p);
    }
    forall c | c in made
      ensures Flip(c) !in made
    {
      NotBothWays(made, c);
    }
  }

  lemma NotBothWays(made: seq<Conn>, c: Conn)
    requires EndsOnce(made) && c in made && c.src != c.dst
    ensures Flip(c) !in made
  {
    var i :| 0 <= i < |made| && made[i] == c;
    forall j | 0 <= j < |made|
      ensures made[j] != Flip(c)
    {
      assert i < j ==> !HasEnd(made[j], made[i].src);
      assert j < i ==> !HasEnd(made[i], made[j].src);
    }
  }

  // ---------- the half-length check ----------

  ghost function EndsOf(made: seq<Conn>): set<End> {
    if made == [] then {}
    else EndsOf(made[..|made| - 1]) + {made[|made| - 1].src, made[|made| - 1].dst}
  }

  lemma {:induction false} EndsOfMembers(made: seq<Conn>, e: End)
    ensures e in EndsOf(made) <==> IsBound(made, e)
  {
    if made != [] {
      var n := |made| - 1;
      EndsOfMembers(made[..n], e);
      assert made == made[..n] + [made[n]];
      BoundSnoc(made[..n], made[n], e);
    }
  }

  lemma {:induction false} EndsOfSize(made: seq<Conn>)
    requires EndsOnce(made) && forall c :: c in made ==> c.src != c.dst
    ensures |EndsOf(made)| == 2 * |made|
  {
    if made != [] {
      var n := |made| - 1;
      EndsOfSize(made[..n]);
      EndsOfMembers(made[..n], made[n].src);
      EndsOfMembers(made[..n], made[n].dst);
      assert made[n] in made;
      assert |{made[n].src, made[n].dst}| == 2;
      assert EndsOf(made[..n]) !! {made[n].src, made[n].dst};
    }
  }

  ghost function Sources(order: seq<Conn>): set<End> {
    if order == [] then {} else Sources(order[..|order| - 1]) + {order[|order| - 1].src}
  }

  lemma {:induction false} SourcesMembers(order: seq<Conn>, e: End)
    ensures e in Sources(order) <==> exists i :: 0 <= i < |order| && order[i].src == e
  {
    if order != [] {
      SourcesMembers(order[..|order| - 1], e);
    }
  }

  lemma {:induction false} SourcesSize(order: seq<Conn>)
    requires forall i, j :: 0 <= i < j < |order| ==> order[i].src != order[j].src
    ensures |Sources(order)| == |order|
  {
    if order != [] {
      var n := |order| - 1;
      SourcesSize(order[..n]);
      SourcesMembers(order[..n], order[n].src);
    }
  }

  lemma SameSize(a: set<End>, b: set<End>)
    requires a <= b
    ensures |a| <= |b| && (|a| == |b| ==> a == b)
  {
    assert b == a + (b - a);
    assert |b| == |a| + |b - a|;
  }

  /** Exactly one of the two directions has been bound. */
  ghost predicate BoundOneWay(made: seq<Conn>, c: Conn) {
    (c in made) != (Flip(c) in made)
  }

  lemma BoundEndsAreSources(order: seq<Conn>)
    requires WellFormed(order)
    ensures EndsOf(Bound(order).made) <= Sources(order)
    ensures |EndsOf(Bound(order).made)| == 2 * |Bound(order).made| && |Sources(order)| == |order|
  {
    BindingSound(order);
    var made := Bound(order).made;
    EndsOfSize(made);
    SourcesSize(order);
    forall e | e in EndsOf(made)
      ensures e in Sources(order)
    {
      EndsOfMembers(made, e);
      var k :| 0 <= k < |made| && HasEnd(made[k], e);
      assert made[k] in made && made[k] in order && Flip(made[k]) in order;
      var d := if made[k].src == e then made[k] else Flip(made[k]);
      var i :| 0 <= i < |order| && order[i] == d;
      SourcesMembers(order, e);
    }
  }

  /** The half-length check passes exactly when every pair has been bound, and then exactly once. */
  lemma HalfCheckExact(order: seq<Conn>)
    requires WellFormed(order)
    ensures 2 * |Bound(order).made| == |order| <==> forall c :: c in order ==> BoundOneWay(Bound(order).made, c)
  {
    var made := Bound(order).made;
    BindingSound(order);
    BoundEndsAreSources(order);
    SameSize(EndsOf(made), Sources(order));
    if 2 * |made| == |order| {
      forall c | c in order
        ensures BoundOneWay(made, c)
      {
        BoundIfAllBound(order, c);
      }
    }
    if forall c :: c in order ==> BoundOneWay(made, c) {
      forall e | e in Sources(order)
        ensures e in EndsOf(made)
      {
        SourcesMembers(order, e);
        var i :| 0 <= i < |order| && order[i].src == e;
        assert order[i] in order;
        SomeDirectionBound(made, order[i]);
        EndsOfMembers(made, e);
      }
      assert EndsOf(made) == Sources(order);
    }
  }

  lemma SomeDirectionBound(made: seq<Conn>, c: Conn)
    requires c in made || Flip(c) in made
    ensures IsBound(made, c.src) && IsBound(made, c.dst)
  {
    var d := if c in made then c else Flip(c);
    var k :| 0 <= k < |made| && made[k] == d;
    assert HasEnd(made[k], c.src) && HasEnd(made[k], c.dst);
  }

  lemma BoundIfAllBound(order: seq<Conn>, c: Conn)
    requires WellFormed(order) && c in order && EndsOf(Bound(order).made) == Sources(order)
    ensures BoundOneWay(Bound(order).made, c)
  {
    var made := Bound(order).made;
    BindingSound(order);
    var i :| 0 <= i < |order| && order[i] == c;
    SourcesMembers(order, c.src);
    EndsOfMembers(made, c.src);
    var k :| 0 <= k < |made| && HasEnd(made[k], c.src);
    assert made[k] in made;
    OnePeer(order, c, made[k], c.src);
  }
}
