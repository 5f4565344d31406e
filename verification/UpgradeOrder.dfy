/**
 What the round-based schedule of the checkpoint upgrader guarantees: order, completeness, the exact
 reason for an abort, the final tag set, and independence of the enumeration order within a round.
 */
module UpgradeOrder {
  import opened CptUpgrader

  ghost predicate NoDup(s: seq<Tag>) {
    forall i, j :: 0 <= i < j < |s| ==> s[i] != s[j]
  }

  predicate UpOnly(reg: Registry, pending: set<Tag>) {
    forall t :: t in pending ==> IsUp(reg, t)
  }

  /** When each script of `log` runs, all it depends on is in the start set or has run before. */
  ghost predicate Ordered(reg: Registry, log: seq<Tag>, start: set<Tag>) {
    forall i :: 0 <= i < |log| ==> Ready(reg, log[i], start + Elems(log[..i]))
  }

  // ---------- exactly once, dependencies first ----------

  lemma TwiceCounted(s: seq<Tag>, i: nat, j: nat)
    requires i < j < |s| && s[i] == s[j]
    ensures multiset(s)[s[i]] >= 2
  {
    assert s == s[..i] + [s[i]] + s[i + 1..j] + [s[j]] + s[j + 1..];
  }

  lemma OrderOfSet(order: seq<Tag>, round: set<Tag>)
    requires multiset(order) == multiset(round)
    ensures |order| == |round| && NoDup(order) && Elems(order) == round
  {
    OrderLength(order, round);
    forall i, j | 0 <= i < j < |order|
      ensures order[i] != order[j]
    {
      if order[i] == order[j] {
        TwiceCounted(order, i, j);
      }
    }
    forall t
      ensures t in Elems(order) <==> t in round
    {
      assert t in order <==> t in multiset(order);
    }
  }

  lemma UpRound(reg: Registry, pending: set<Tag>, tags: set<Tag>)
    requires UpOnly(reg, pending)
    ensures var ready := ReadySet(reg, pending, tags);
            TagsAfter(reg, tags, ready) == tags + ready && UpOnly(reg, pending - ready)
  {
    var ready := ReadySet(reg, pending, tags);
    assert (set t | t in ready && IsUp(reg, t)) == ready;
  }

  lemma ReadyMore(reg: Registry, t: Tag, a: set<Tag>, b: set<Tag>)
    requires Ready(reg, t, a) && a <= b
    ensures Ready(reg, t, b)
  {
  }

  lemma OrderedJoin(reg: Registry, a: seq<Tag>, b: seq<Tag>, start: set<Tag>)
    requires forall i :: 0 <= i < |a| ==> Ready(reg, a[i], start)
    requires Ordered(reg, b, start + Elems(a))
    ensures Ordered(reg, a + b, start)
  {
    var log := a + b;
    forall i | 0 <= i < |log|
      ensures Ready(reg, log[i], start + Elems(log[..i]))
    {
      if i < |a| {
        ReadyMore(reg, log[i], start, start + Elems(log[..i]));
      } else {
        assert log[..i] == a + b[..i - |a|];
        ReadyMore(reg, log[i], start + Elems(a) + Elems(b[..i - |a|]), start + Elems(log[..i]));
      }
    }
  }

  /** A run applies every tag that does not get stuck exactly once, and no other. */
  lemma {:induction false} LogCovers(reg: Registry, pending: set<Tag>, tags: set<Tag>, log: seq<Tag>)
    requires FollowsRounds(log, Schedule(reg, pending, tags).rounds)
    ensures NoDup(log) && Elems(log) == pending - Schedule(reg, pending, tags).stuck
    decreases pending
  {
    var ready := ReadySet(reg, pending, tags);
    if ready != {} {
      var p := Schedule(reg, pending - ready, TagsAfter(reg, tags, ready));
      var a, b := SplitRounds(log, ready, p.rounds);
      OrderOfSet(a, ready);
      LogCovers(reg, pending - ready, TagsAfter(reg, tags, ready), b);
      CoverStep(a, b, ready, pending, p.stuck);
    }
  }

  lemma CoverStep(a: seq<Tag>, b: seq<Tag>, ready: set<Tag>, pending: set<Tag>, stuck: set<Tag>)
    requires NoDup(a) && NoDup(b) && ready <= pending && stuck <= pending - ready
    requires Elems(a) == ready && Elems(b) == pending - ready - stuck
    ensures NoDup(a + b) && Elems(a + b) == pending - stuck
  {
    JoinNoDup(a, b);
  }

  lemma {:induction false} LogOrdered(reg: Registry, pending: set<Tag>, tags: set<Tag>, log: seq<Tag>)
    requires UpOnly(reg, pending)
    requires FollowsRounds(log, Schedule(reg, pending, tags).rounds)
    ensures Ordered(reg, log, tags)
    decreases pending
  {
    var ready := ReadySet(reg, pending, tags);
    if ready != {} {
      UpRound(reg, pending, tags);
      var a, b := SplitRounds(log, ready, Schedule(reg, pending - ready, tags + ready).rounds);
      OrderOfSet(a, ready);
      LogOrdered(reg, pending - ready, tags + ready, b);
      forall i | 0 <= i < |a|
        ensures Ready(reg, a[i], tags)
      {
        NonEmptyElems(a, a[i]);
      }
      OrderedJoin(reg, a, b, tags);
    }
  }

  /** A completed run applies every pending upgrader exactly once and never before its dependencies. */
  lemma RunIsOrdered(reg: Registry, pending: set<Tag>, tags: set<Tag>, log: seq<Tag>)
    requires UpOnly(reg, pending)
    requires Schedule(reg, pending, tags).stuck == {}
    requires FollowsRounds(log, Schedule(reg, pending, tags).rounds)
    ensures NoDup(log) && Elems(log) == pending && Ordered(reg, log, tags)
  {
    LogCovers(reg, pending, tags, log);
    LogOrdered(reg, pending, tags, log);
  }

  lemma SplitRounds(log: seq<Tag>, round: set<Tag>, rounds: seq<set<Tag>>) returns (a: seq<Tag>, b: seq<Tag>)
    requires FollowsRounds(log, [round] + rounds)
    ensures log == a + b && multiset(a) == multiset(round) && FollowsRounds(b, rounds)
  {
    assert ([round] + rounds)[1..] == rounds;
    a, b := log[..|round|], log[|round|..];
  }

  lemma EmptyElems(s: seq<Tag>)
    requires Elems(s) == {}
    ensures s == []
  {
    if s != [] {
      assert s[0] in s;
      NonEmptyElems(s, s[0]);
    }
  }

  lemma NonEmptyElems(s: seq<Tag>, t: Tag)
    requires t in s
    ensures t in Elems(s)
  {
  }

  lemma JoinNoDup(a: seq<Tag>, b: seq<Tag>)
    requires NoDup(a) && NoDup(b) && Elems(a) !! Elems(b)
    ensures NoDup(a + b) && Elems(a + b) == Elems(a) + Elems(b)
  {
    forall i, j | 0 <= i < |a| && 0 <= j < |b|
      ensures a[i] != b[j]
    {
      assert a[i] in Elems(a) && b[j] in Elems(b);
    }
  }

  /** A script runs after every script that names it as a forward dependency, or that one was there already. */
  lemma ForwardRunsFirst(base: Registry, reg: Registry, log: seq<Tag>, start: set<Tag>, i: nat, u: Tag)
    requires Resolved(base, reg) && Ordered(reg, log, start)
    requires i < |log| && log[i] in base && Forwards(base, u, log[i])
    ensures u in start || u in log[..i]
  {
    assert DependsOn(reg, log[i], u);
    assert Ready(reg, log[i], start + Elems(log[..i]));
  }

  // ---------- the exact reason for an abort ----------

  ghost predicate Obstructed(reg: Registry, t: Tag, s: set<Tag>, pending: set<Tag>, tags: set<Tag>) {
    exists d :: DependsOn(reg, t, d) && (d in s || (d !in tags && d !in pending))
  }

  /** Every tag of `s` needs another one of `s`, or one that can never be had. */
  ghost predicate Blocked(reg: Registry, s: set<Tag>, pending: set<Tag>, tags: set<Tag>) {
    s <= pending && forall t :: t in s ==> Obstructed(reg, t, s, pending, tags)
  }

  lemma {:induction false} StuckIsBlocked(reg: Registry, pending: set<Tag>, tags: set<Tag>)
    requires UpOnly(reg, pending)
    ensures Blocked(reg, Schedule(reg, pending, tags).stuck, pending, tags)
    decreases pending
  {
    var ready, s := ReadySet(reg, pending, tags), Schedule(reg, pending, tags).stuck;
    if ready != {} {
      UpRound(reg, pending, tags);
      StuckIsBlocked(reg, pending - ready, tags + ready);
      forall t | t in s
        ensures Obstructed(reg, t, s, pending, tags)
      {
        assert Obstructed(reg, t, s, pending - ready, tags + ready);
      }
    } else {
      forall t | t in s
        ensures Obstructed(reg, t, s, pending, tags)
      {
        assert t !in ready && !Ready(reg, t, tags);
        var d :| d in reg[t].depends && d !in tags;
        assert DependsOn(reg, t, d);
      }
    }
  }

  lemma {:induction false} BlockedStaysStuck(reg: Registry, s: set<Tag>, pending: set<Tag>, tags: set<Tag>)
    requires UpOnly(reg, pending) && pending !! tags && Blocked(reg, s, pending, tags)
    ensures s <= Schedule(reg, pending, tags).stuck
    decreases pending
  {
    var ready := ReadySet(reg, pending, tags);
    if ready != {} {
      UpRound(reg, pending, tags);
      forall t | t in s
        ensures t !in ready && Obstructed(reg, t, s, pending - ready, tags + ready)
      {
        assert Obstructed(reg, t, s, pending, tags);
        var d :| DependsOn(reg, t, d) && (d in s || (d !in tags && d !in pending));
        assert d !in tags;
      }
      BlockedStaysStuck(reg, s, pending - ready, tags + ready);
    }
  }

  /**
   The run aborts exactly when some nonempty set of pending tags is blocked, and what it reports is
   the largest such set.
   */
  lemma AbortExact(reg: Registry, pending: set<Tag>, start: set<Tag>)
    requires UpOnly(reg, pending) && pending !! start
    ensures Schedule(reg, pending, start).stuck != {} <==> exists s :: s != {} && Blocked(reg, s, pending, start)
    ensures Blocked(reg, Schedule(reg, pending, start).stuck, pending, start)
    ensures forall s :: Blocked(reg, s, pending, start) ==> s <= Schedule(reg, pending, start).stuck
  {
    StuckIsBlocked(reg, pending, start);
    forall s | Blocked(reg, s, pending, start)
      ensures s <= Schedule(reg, pending, start).stuck
    {
      BlockedStaysStuck(reg, s, pending, start);
    }
  }

  // ---------- removing what is not there ----------

  /** With no tag that is loaded both as an upgrader and as a downgrader, there always is a tag to remove. */
  lemma DisjointNeverFails(reg: Registry, tagSet: set<Tag>, untagSet: set<Tag>, start: set<Tag>)
    requires Registered(tagSet, untagSet, reg) && tagSet !! untagSet
    ensures !RemovesMissing(reg, Schedule(reg, Pending(tagSet, untagSet, start), start).rounds, start)
  {
    var pending := Pending(tagSet, untagSet, start);
    forall t | t in pending && !IsUp(reg, t) ensures t in start {
      assert t in reg;
    }
    RoundsPending(reg, pending, start);
  }

  lemma {:induction false} RoundsPending(reg: Registry, pending: set<Tag>, tags: set<Tag>)
    ensures forall k :: 0 <= k < |Schedule(reg, pending, tags).rounds| ==>
              Schedule(reg, pending, tags).rounds[k] <= pending
    decreases pending
  {
    var ready := ReadySet(reg, pending, tags);
    if ready != {} {
      RoundsPending(reg, pending - ready, TagsAfter(reg, tags, ready));
    }
  }

  // ---------- the final tag set ----------

  lemma TagsAfterTwice(reg: Registry, tags: set<Tag>, a: set<Tag>, b: set<Tag>)
    requires a !! b
    ensures TagsAfter(reg, TagsAfter(reg, tags, a), b) == TagsAfter(reg, tags, a + b)
  {
    forall t
      ensures t in TagsAfter(reg, TagsAfter(reg, tags, a), b) <==> t in TagsAfter(reg, tags, a + b)
    {
    }
  }

  lemma {:induction false} PlanTags(reg: Registry, pending: set<Tag>, tags: set<Tag>)
    requires Schedule(reg, pending, tags).stuck == {}
    ensures Schedule(reg, pending, tags).tags == TagsAfter(reg, tags, pending)
    decreases pending
  {
    var ready := ReadySet(reg, pending, tags);
    if ready != {} {
      PlanTags(reg, pending - ready, TagsAfter(reg, tags, ready));
      TagsAfterTwice(reg, tags, ready, pending - ready);
      assert ready + (pending - ready) == pending;
    }
  }

  function Pending(tagSet: set<Tag>, untagSet: set<Tag>, start: set<Tag>): set<Tag> {
    (tagSet - start) + (untagSet * start)
  }

  /** Upgraders and downgraders alike: a completed run leaves exactly the tags it should. */
  lemma FinalTagsExact(reg: Registry, tagSet: set<Tag>, untagSet: set<Tag>, start: set<Tag>)
    requires Registered(tagSet, untagSet, reg) && tagSet !! untagSet
    requires Schedule(reg, Pending(tagSet, untagSet, start), start).stuck == {}
    ensures Schedule(reg, Pending(tagSet, untagSet, start), start).tags == (start + tagSet) - untagSet
  {
    var pending := Pending(tagSet, untagSet, start);
    PlanTags(reg, pending, start);
    forall t
      ensures t in TagsAfter(reg, start, pending) <==> t in (start + tagSet) - untagSet
    {
      assert t in reg <==> t in tagSet + untagSet;
      if t in reg {
        assert IsUp(reg, t) <==> t in tagSet;
      }
    }
  }

  /** Processing the result once more finds nothing to do. */
  lemma SecondRunIsIdle(reg: Registry, tagSet: set<Tag>, untagSet: set<Tag>, start: set<Tag>)
    requires Registered(tagSet, untagSet, reg) && tagSet !! untagSet
    requires Schedule(reg, Pending(tagSet, untagSet, start), start).stuck == {}
    ensures var tags := Schedule(reg, Pending(tagSet, untagSet, start), start).tags;
            Pending(tagSet, untagSet, tags) == {} && Schedule(reg, {}, tags) == Plan([], {}, tags)
  {
    FinalTagsExact(reg, tagSet, untagSet, start);
  }

  // ---------- independence of the enumeration order ----------

  ghost predicate Commute(reg: Registry, a: Tag, b: Tag) {
    forall c: Cpt :: Effect(reg, [a, b], c) == Effect(reg, [b, a], c)
  }

  ghost predicate Independent(reg: Registry, a: Tag, b: Tag) {
    a != b && !DependsOn(reg, a, b) && !DependsOn(reg, b, a)
  }

  /** A script may be moved in front of scripts it commutes with. */
  lemma {:induction false} MoveToFront(reg: Registry, a: seq<Tag>, t: Tag, cpt: Cpt)
    requires forall u :: u in a ==> Commute(reg, u, t)
    ensures Effect(reg, a + [t], cpt) == Effect(reg, [t] + a, cpt)
    decreases |a|
  {
    if a == [] {
      assert a + [t] == [t] + a;
    } else {
      var n := |a| - 1;
      var u, init := a[n], a[..n];
      assert a + [t] == init + [u, t] && init + [t, u] == (init + [t]) + [u];
      EffectConcat(reg, init, [u, t], cpt);
      EffectConcat(reg, init, [t, u], cpt);
      assert Commute(reg, u, t);
      MoveToFront(reg, init, t, cpt);
      EffectConcat(reg, init + [t], [u], cpt);
      EffectConcat(reg, [t] + init, [u], cpt);
      assert [t] + a == ([t] + init) + [u];
    }
  }

  /** `log` with its element `k` taken out. */
  function Without(log: seq<Tag>, k: nat): seq<Tag>
    requires k < |log|
  {
    log[..k] + log[k + 1..]
  }

  lemma PullOut(reg: Registry, log: seq<Tag>, k: nat, cpt: Cpt)
    requires k < |log| && forall u :: u in log[..k] ==> Commute(reg, u, log[k])
    ensures Effect(reg, log, cpt) == Effect(reg, Without(log, k), Effect(reg, [log[k]], cpt))
  {
    var t := log[k];
    MoveToFront(reg, log[..k], t, cpt);
    EffectConcat(reg, log[..k] + [t], log[k + 1..], cpt);
    EffectConcat(reg, [t], log[..k], cpt);
    EffectConcat(reg, log[..k], log[k + 1..], Effect(reg, [t], cpt));
    assert log == (log[..k] + [t]) + log[k + 1..];
  }

  lemma WithoutElems(log: seq<Tag>, k: nat)
    requires k < |log| && NoDup(log)
    ensures NoDup(Without(log, k)) && Elems(Without(log, k)) == Elems(log) - {log[k]}
  {
    var w := Without(log, k);
    forall t
      ensures t in w <==> t in log && t != log[k]
    {
      if t in log && t != log[k] {
        var i :| 0 <= i < |log| && log[i] == t;
        assert w[if i < k then i else i - 1] == t;
      }
    }
  }

  lemma WithoutPrefix(log: seq<Tag>, k: nat, i: nat, j: nat)
    requires k < |log| && i < |log| - 1 && j == if i < k then i else i + 1
    ensures Elems(log[..j]) <= {log[k]} + Elems(Without(log, k)[..i])
  {
    var w := Without(log, k);
    forall t | t in log[..j]
      ensures t == log[k] || t in w[..i]
    {
      var n :| 0 <= n < j && log[n] == t;
      if n != k {
        assert w[..i][if n < k then n else n - 1] == t;
      }
    }
  }

  lemma WithoutOrdered(reg: Registry, log: seq<Tag>, k: nat, start: set<Tag>)
    requires k < |log| && Ordered(reg, log, start)
    ensures Ordered(reg, Without(log, k), start + {log[k]})
  {
    var w := Without(log, k);
    forall i | 0 <= i < |w|
      ensures Ready(reg, w[i], start + {log[k]} + Elems(w[..i]))
    {
      var j := if i < k then i else i + 1;
      assert w[i] == log[j];
      WithoutPrefix(log, k, i, j);
      ReadyMore(reg, w[i], start + Elems(log[..j]), start + {log[k]} + Elems(w[..i]));
    }
  }

  /** What runs before `log[k]` there, and could run after it as well, is independent of it. */
  lemma IndependentOfFirst(reg: Registry, log: seq<Tag>, k: nat, start: set<Tag>)
    requires k < |log| && NoDup(log) && Ordered(reg, log, start) && Elems(log) !! start
    requires Ready(reg, log[k], start) && log[k] in reg
    ensures forall u :: u in log[..k] ==> Independent(reg, u, log[k])
  {
    forall u | u in log[..k]
      ensures Independent(reg, u, log[k])
    {
      var j :| 0 <= j < k && log[j] == u;
      assert Ready(reg, u, start + Elems(log[..j]));
      assert u in Elems(log) && log[k] in Elems(log);
      assert log[k] !in log[..j];
    }
  }

  /**
   All orders that respect the dependencies have the same effect, provided scripts without a direct
   dependency between them commute.
   */
  lemma {:induction false} OrdersAgree(reg: Registry, a: seq<Tag>, b: seq<Tag>, start: set<Tag>, cpt: Cpt)
    requires NoDup(a) && NoDup(b) && Elems(a) == Elems(b) && Elems(a) <= reg.Keys && Elems(a) !! start
    requires Ordered(reg, a, start) && Ordered(reg, b, start)
    requires forall t, u :: t in Elems(a) && u in Elems(a) && Independent(reg, t, u) ==> Commute(reg, t, u)
    ensures Effect(reg, a, cpt) == Effect(reg, b, cpt)
    decreases |a|
  {
    if a == [] {
      EmptyElems(b);
    } else {
      var t := a[0];
      assert t in Elems(a) && t in b;
      var k :| 0 <= k < |b| && b[k] == t;
      assert a[..0] == [] && start + Elems([]) == start;
      IndependentOfFirst(reg, b, k, start);
      forall u | u in b[..k]
        ensures Commute(reg, u, t)
      {
        assert u in Elems(b) && Independent(reg, u, t);
      }
      PullOut(reg, b, k, cpt);
      assert Without(a, 0) == a[1..];
      WithoutElems(a, 0);
      WithoutElems(b, k);
      WithoutOrdered(reg, a, 0, start);
      WithoutOrdered(reg, b, k, start);
      assert Effect(reg, [t], cpt) == reg[t].act(cpt);
      OrdersAgree(reg, a[1..], Without(b, k), start + {t}, reg[t].act(cpt));
    }
  }

  /** Whatever order the program enumerates each round in, the migrated checkpoint is the same. */
  lemma EnumerationOrderIrrelevant(reg: Registry, pending: set<Tag>, start: set<Tag>, a: seq<Tag>, b: seq<Tag>,
                                   cpt: Cpt)
    requires pending <= reg.Keys && UpOnly(reg, pending) && pending !! start
    requires Schedule(reg, pending, start).stuck == {}
    requires FollowsRounds(a, Schedule(reg, pending, start).rounds)
    requires FollowsRounds(b, Schedule(reg, pending, start).rounds)
    requires forall t, u :: t in pending && u in pending && Independent(reg, t, u) ==> Commute(reg, t, u)
    ensures Effect(reg, a, cpt) == Effect(reg, b, cpt)
  {
    RunIsOrdered(reg, pending, start, a);
    RunIsOrdered(reg, pending, start, b);
    OrdersAgree(reg, a, b, start, cpt);
  }

  /** Any two scripts of a round commute. */
  ghost predicate CommutingRound(reg: Registry, round: set<Tag>) {
    forall t, u :: t in round && u in round ==> Commute(reg, t, u)
  }

  lemma {:induction false} RoundOrdersAgree(reg: Registry, a: seq<Tag>, b: seq<Tag>, round: set<Tag>, cpt: Cpt)
    requires CommutingRound(reg, round) && NoDup(a) && NoDup(b) && Elems(a) == Elems(b) <= round
    ensures Effect(reg, a, cpt) == Effect(reg, b, cpt)
    decreases |a|
  {
    if a == [] {
      EmptyElems(b);
    } else {
      var t := a[0];
      assert t in Elems(a) && t in b;
      var k :| 0 <= k < |b| && b[k] == t;
      forall u | u in b[..k] ensures Commute(reg, u, t) {
        assert u in Elems(b);
      }
      PullOut(reg, b, k, cpt);
      assert Without(a, 0) == a[1..];
      WithoutElems(a, 0);
      WithoutElems(b, k);
      var next := Effect(reg, [t], cpt);
      assert Effect(reg, a, cpt) == Effect(reg, a[1..], next);
      RoundOrdersAgree(reg, a[1..], Without(b, k), round, next);
    }
  }

  /**
   For upgraders and downgraders alike: if the scripts of each round commute, every enumeration of the rounds
   gives the same checkpoint.
   */
  lemma {:induction false} RoundsAgree(reg: Registry, rounds: seq<set<Tag>>, a: seq<Tag>, b: seq<Tag>, cpt: Cpt)
    requires FollowsRounds(a, rounds) && FollowsRounds(b, rounds)
    requires forall k :: 0 <= k < |rounds| ==> CommutingRound(reg, rounds[k])
    ensures Effect(reg, a, cpt) == Effect(reg, b, cpt)
    decreases |rounds|
  {
    if rounds != [] {
      assert rounds == [rounds[0]] + rounds[1..];
      var a0, a1 := SplitRounds(a, rounds[0], rounds[1..]);
      var b0, b1 := SplitRounds(b, rounds[0], rounds[1..]);
      OrderOfSet(a0, rounds[0]);
      OrderOfSet(b0, rounds[0]);
      RoundOrdersAgree(reg, a0, b0, rounds[0], cpt);
      EffectConcat(reg, a0, a1, cpt);
      EffectConcat(reg, b0, b1, cpt);
      RoundsAgree(reg, rounds[1..], a1, b1, Effect(reg, a0, cpt));
    }
  }

  // ---------- dependencies on downgraded tags ----------

  /** The documented rule: a tag with a downgrader has been removed by the time a dependent runs. */
  ghost predicate RemovedFirst(reg: Registry, untagSet: set<Tag>, log: seq<Tag>, start: set<Tag>) {
    forall i, d :: 0 <= i < |log| && DependsOn(reg, log[i], d) && d in untagSet ==> d !in start || d in log[..i]
  }

  lemma {:induction false} SomeOrder(s: set<Tag>) returns (order: seq<Tag>)
    ensures multiset(order) == multiset(s)
    decreases s
  {
    if s == {} {
      order := [];
    } else {
      var t :| t in s;
      order := SomeOrder(s - {t});
      MultisetAdd(s - {t}, t);
      assert s - {t} + {t} == s;
      order := order + [t];
    }
  }

  lemma FollowsCons(order: seq<Tag>, round: set<Tag>, log: seq<Tag>, rounds: seq<set<Tag>>)
    requires multiset(order) == multiset(round) && FollowsRounds(log, rounds)
    ensures FollowsRounds(order + log, [round] + rounds)
  {
    OrderLength(order, round);
    assert (order + log)[..|order|] == order && (order + log)[|order|..] == log;
    assert ([round] + rounds)[1..] == rounds;
  }

  lemma {:induction false} SomeLog(rounds: seq<set<Tag>>) returns (log: seq<Tag>)
    ensures FollowsRounds(log, rounds)
    decreases |rounds|
  {
    log := [];
    if rounds != [] {
      var order := SomeOrder(rounds[0]);
      log := SomeLog(rounds[1..]);
      FollowsCons(order, rounds[0], log, rounds[1..]);
      assert [rounds[0]] + rounds[1..] == rounds;
      log := order + log;
    }
  }

  lemma {:induction false} DependentRunsEarly(reg: Registry, pending: set<Tag>, tags: set<Tag>, t: Tag, d: Tag)
    returns (log: seq<Tag>, i: nat)
    requires Schedule(reg, pending, tags).stuck == {}
    requires t in pending && DependsOn(reg, t, d) && d in reg && !IsUp(reg, d)
    ensures d in tags
    ensures FollowsRounds(log, Schedule(reg, pending, tags).rounds)
    ensures i < |log| && log[i] == t && d !in log[..i]
    decreases pending
  {
    var ready := ReadySet(reg, pending, tags);
    var p := Schedule(reg, pending - ready, TagsAfter(reg, tags, ready));
    if t in ready {
      var order := OrderWithFirst(ready, t);
      log := SomeLog(p.rounds);
      FollowsCons(order, ready, log, p.rounds);
      log, i := order + log, 0;
    } else {
      log, i := DependentRunsEarly(reg, pending - ready, TagsAfter(reg, tags, ready), t, d);
      assert d !in ready;
      var order := SomeOrder(ready);
      FollowsCons(order, ready, log, p.rounds);
      i := ShiftedBy(order, ready, log, i, d);
      log := order + log;
    }
  }

  lemma OrderWithFirst(s: set<Tag>, t: Tag) returns (order: seq<Tag>)
    requires t in s
    ensures multiset(order) == multiset(s) && order != [] && order[0] == t
  {
    var rest := SomeOrder(s - {t});
    MultisetAdd(s - {t}, t);
    assert s - {t} + {t} == s;
    order := [t] + rest;
    assert multiset(order) == multiset{t} + multiset(rest);
  }

  lemma ShiftedBy(order: seq<Tag>, ready: set<Tag>, log: seq<Tag>, i: nat, d: Tag) returns (k: nat)
    requires multiset(order) == multiset(ready) && d !in ready && i < |log| && d !in log[..i]
    ensures k < |order + log| && (order + log)[k] == log[i] && d !in (order + log)[..k]
  {
    OrderOfSet(order, ready);
    k := |order| + i;
    assert (order + log)[..k] == order + log[..i];
    assert d !in Elems(order);
  }

  /**
   The header comment of the script says that a dependency on a tag with a downgrader is one on its
   removal. The program tests for presence instead: no completed registry with such a pending
   dependency keeps the documented rule for all enumeration orders, and only those without one do.
   */
  lemma DocumentedDowngradeRuleExact(reg: Registry, tagSet: set<Tag>, untagSet: set<Tag>, start: set<Tag>)
    requires Registered(tagSet, untagSet, reg) && tagSet !! untagSet
    requires Schedule(reg, Pending(tagSet, untagSet, start), start).stuck == {}
    ensures (forall log :: FollowsRounds(log, Schedule(reg, Pending(tagSet, untagSet, start), start).rounds)
                           ==> RemovedFirst(reg, untagSet, log, start))
       <==> (forall t, d :: t in Pending(tagSet, untagSet, start) && DependsOn(reg, t, d) ==> d !in untagSet)
  {
    var pending := Pending(tagSet, untagSet, start);
    var rounds := Schedule(reg, pending, start).rounds;
    if t, d :| t in pending && DependsOn(reg, t, d) && d in untagSet {
      assert d in reg && !IsUp(reg, d);
      var log, i := DependentRunsEarly(reg, pending, start, t, d);
      assert !RemovedFirst(reg, untagSet, log, start);
    } else {
      forall log | FollowsRounds(log, rounds)
        ensures RemovedFirst(reg, untagSet, log, start)
      {
        LogCovers(reg, pending, start, log);
        forall i, d | 0 <= i < |log| && DependsOn(reg, log[i], d)
          ensures d !in untagSet
        {
          assert log[i] in Elems(log);
        }
      }
    }
  }

  /** A downgrader, an upgrader that depends on its tag, and a checkpoint with that tag. */
  function OldTag(): Tag { Tag("old") }

  function NewTag(): Tag { Tag("new") }

  function OldAndNew(): Registry {
    map[OldTag() := Script([], [], false, c => c, 0), NewTag() := Script([OldTag()], [], true, c => c, 1)]
  }

  /** The documented rule fails: this run completes, and the dependent may run before the tag is removed. */
  lemma DowngradeRuleFails() returns (log: seq<Tag>)
    ensures var pending := Pending({NewTag()}, {OldTag()}, {OldTag()});
            && Registered({NewTag()}, {OldTag()}, OldAndNew())
            && Schedule(OldAndNew(), pending, {OldTag()}).stuck == {}
            && FollowsRounds(log, Schedule(OldAndNew(), pending, {OldTag()}).rounds)
            && !RemovedFirst(OldAndNew(), {OldTag()}, log, {OldTag()})
  {
    var reg, d, t := OldAndNew(), OldTag(), NewTag();
    assert d != t;
    var pending := Pending({t}, {d}, {d});
    assert pending == {t, d};
    assert ReadySet(reg, pending, {d}) == pending;
    assert pending - pending == {};
    assert ReadySet(reg, {}, TagsAfter(reg, {d}, pending)) == {};
    assert DependsOn(reg, t, d);
    var i;
    log, i := DependentRunsEarly(reg, pending, {d}, t, d);
  }
}
