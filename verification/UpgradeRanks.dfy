/**
 Exactly when a run with upgraders and downgraders completes: the pending tags can be given ranks such that
 dependencies on upgraders go down in rank and dependencies on downgraders do not. The ranks are the rounds.
 */
module UpgradeRanks {
  import opened CptUpgrader
  import opened UpgradeOrder

  type Ranks = map<Tag, nat>

  /** Pending upgraders are those whose tag is not there yet, pending downgraders those whose tag is. */
  ghost predicate Consistent(reg: Registry, pending: set<Tag>, tags: set<Tag>) {
    pending <= reg.Keys && forall t :: t in pending ==> (IsUp(reg, t) <==> t !in tags)
  }

  /**
   A dependency is met at the rank of `t`: an upgrader comes earlier, a downgrader not earlier, and any
   other tag is there.
   */
  ghost predicate DependencyMet(reg: Registry, tags: set<Tag>, r: Ranks, t: Tag, d: Tag)
    requires t in r
  {
    if d !in r then d in tags else if IsUp(reg, d) then r[d] < r[t] else r[t] <= r[d]
  }

  /** No rank is left out: a rank above one is one more than that of an upgrader it depends on. */
  ghost predicate Needed(reg: Registry, r: Ranks, t: Tag)
    requires t in r
  {
    r[t] == 1 || exists u :: u in r && IsUp(reg, u) && DependsOn(reg, t, u) && r[u] + 1 == r[t]
  }

  ghost predicate RankOk(reg: Registry, tags: set<Tag>, r: Ranks, t: Tag)
    requires t in r
  {
    && r[t] >= 1 && Needed(reg, r, t)
    && forall d :: DependsOn(reg, t, d) ==> DependencyMet(reg, tags, r, t, d)
  }

  ghost predicate Ranked(reg: Registry, pending: set<Tag>, tags: set<Tag>, r: Ranks) {
    r.Keys == pending && forall t :: t in r ==> RankOk(reg, tags, r, t)
  }

  // ---------- ranks make a run complete ----------

  ghost function First(r: Ranks): set<Tag> { set t | t in r && r[t] == 1 }

  /** The ranks that are left after the first round. */
  ghost function Next(r: Ranks): Ranks { map t | t in r && r[t] > 1 :: (r[t] - 1) as nat }

  lemma Positive(reg: Registry, pending: set<Tag>, tags: set<Tag>, r: Ranks)
    requires Ranked(reg, pending, tags, r)
    ensures forall t :: t in r ==> r[t] >= 1
  {
    forall t | t in r ensures r[t] >= 1 {
      assert RankOk(reg, tags, r, t);
    }
  }

  lemma {:induction false} SomeFirst(reg: Registry, pending: set<Tag>, tags: set<Tag>, r: Ranks, t: Tag)
    requires Ranked(reg, pending, tags, r) && t in r
    ensures First(r) != {}
    decreases r[t]
  {
    assert RankOk(reg, tags, r, t);
    if r[t] == 1 {
      assert t in First(r);
    } else {
      var u :| u in r && IsUp(reg, u) && DependsOn(reg, t, u) && r[u] + 1 == r[t];
      SomeFirst(reg, pending, tags, r, u);
    }
  }

  lemma FirstIsReady(reg: Registry, pending: set<Tag>, tags: set<Tag>, r: Ranks)
    requires Consistent(reg, pending, tags) && Ranked(reg, pending, tags, r)
    ensures ReadySet(reg, pending, tags) == First(r)
  {
    forall t | t in pending ensures Ready(reg, t, tags) <==> r[t] == 1 {
      assert RankOk(reg, tags, r, t);
      if r[t] == 1 {
        forall d | d in reg[t].depends ensures d in tags {
          assert DependsOn(reg, t, d) && DependencyMet(reg, tags, r, t, d);
          assert d in r ==> RankOk(reg, tags, r, d);
        }
      } else {
        var u :| u in r && IsUp(reg, u) && DependsOn(reg, t, u) && r[u] + 1 == r[t];
        assert u in reg[t].depends && u !in tags;
      }
    }
  }

  lemma NextRanked(reg: Registry, pending: set<Tag>, tags: set<Tag>, r: Ranks)
    requires Consistent(reg, pending, tags) && Ranked(reg, pending, tags, r)
    ensures var tags' := TagsAfter(reg, tags, First(r));
            Consistent(reg, pending - First(r), tags') && Ranked(reg, pending - First(r), tags', Next(r))
  {
    var n, tags' := Next(r), TagsAfter(reg, tags, First(r));
    forall t | t in pending ensures t in n <==> t !in First(r) {
      assert RankOk(reg, tags, r, t);
    }
    assert n.Keys == pending - First(r);
    forall t | t in n ensures RankOk(reg, tags', n, t) {
      assert RankOk(reg, tags, r, t);
      NextNeeded(reg, tags, r, t);
      forall d | DependsOn(reg, t, d) ensures DependencyMet(reg, tags', n, t, d) {
        assert DependencyMet(reg, tags, r, t, d);
        assert d in r ==> RankOk(reg, tags, r, d);
      }
    }
  }

  lemma NextNeeded(reg: Registry, tags: set<Tag>, r: Ranks, t: Tag)
    requires t in r && r[t] > 1 && RankOk(reg, tags, r, t)
    ensures Needed(reg, Next(r), t)
  {
    var u :| u in r && IsUp(reg, u) && DependsOn(reg, t, u) && r[u] + 1 == r[t];
    if r[t] > 2 {
      assert u in Next(r);
    }
  }

  /** Every tag is in the round of its rank. */
  ghost predicate InRounds(r: Ranks, rounds: seq<set<Tag>>) {
    forall t :: t in r ==> 1 <= r[t] <= |rounds| && t in rounds[r[t] - 1]
  }

  lemma OneMoreRound(r: Ranks, rounds: seq<set<Tag>>)
    requires (forall t :: t in r ==> r[t] >= 1) && InRounds(Next(r), rounds)
    ensures InRounds(r, [First(r)] + rounds)
  {
    var all := [First(r)] + rounds;
    forall t | t in r ensures 1 <= r[t] <= |all| && t in all[r[t] - 1] {
      if r[t] > 1 {
        assert t in Next(r) && all[r[t] - 1] == rounds[r[t] - 2];
      }
    }
  }

  /** With ranks the run completes, and a tag's rank is the number of its round. */
  lemma {:induction false} RankedCompletes(reg: Registry, pending: set<Tag>, tags: set<Tag>, r: Ranks)
    requires Consistent(reg, pending, tags) && Ranked(reg, pending, tags, r)
    ensures Schedule(reg, pending, tags).stuck == {} && InRounds(r, Schedule(reg, pending, tags).rounds)
    decreases pending
  {
    FirstIsReady(reg, pending, tags, r);
    if t :| t in pending {
      SomeFirst(reg, pending, tags, r, t);
      NextRanked(reg, pending, tags, r);
      Positive(reg, pending, tags, r);
      RankedCompletes(reg, pending - First(r), TagsAfter(reg, tags, First(r)), Next(r));
      OneMoreRound(r, Schedule(reg, pending - First(r), TagsAfter(reg, tags, First(r))).rounds);
    }
  }

  // ---------- a completed run gives ranks ----------

  /** Ranks for what is left after a round, moved on by one, with rank one for the round itself. */
  ghost function Shifted(ready: set<Tag>, r: Ranks): Ranks {
    map t | t in ready + r.Keys :: if t in ready then 1 else r[t] + 1
  }

  lemma ReadyRankOk(reg: Registry, pending: set<Tag>, tags: set<Tag>, r: Ranks, t: Tag)
    requires Consistent(reg, pending, tags) && r.Keys == pending - ReadySet(reg, pending, tags)
    requires t in ReadySet(reg, pending, tags)
    ensures RankOk(reg, tags, Shifted(ReadySet(reg, pending, tags), r), t)
  {
    var s := Shifted(ReadySet(reg, pending, tags), r);
    forall d | DependsOn(reg, t, d) ensures DependencyMet(reg, tags, s, t, d) {
      assert d in tags;
    }
  }

  lemma LaterRankOk(reg: Registry, pending: set<Tag>, tags: set<Tag>, r: Ranks, t: Tag)
    requires Consistent(reg, pending, tags)
    requires var ready := ReadySet(reg, pending, tags);
             Ranked(reg, pending - ready, TagsAfter(reg, tags, ready), r) && t in r
    ensures RankOk(reg, tags, Shifted(ReadySet(reg, pending, tags), r), t)
  {
    var ready := ReadySet(reg, pending, tags);
    var tags', s := TagsAfter(reg, tags, ready), Shifted(ready, r);
    assert RankOk(reg, tags', r, t);
    forall x | x in r ensures r[x] >= 1 {
      assert RankOk(reg, tags', r, x);
    }
    forall d | DependsOn(reg, t, d) ensures DependencyMet(reg, tags, s, t, d) {
      assert DependencyMet(reg, tags', r, t, d);
    }
    if r[t] == 1 {
      assert !Ready(reg, t, tags);
      var d :| d in reg[t].depends && d !in tags;
      assert DependsOn(reg, t, d) && DependencyMet(reg, tags', r, t, d);
      assert d in ready && IsUp(reg, d) && s[d] + 1 == s[t];
    } else {
      var u :| u in r && IsUp(reg, u) && DependsOn(reg, t, u) && r[u] + 1 == r[t];
      assert s[u] + 1 == s[t];
    }
  }

  lemma {:induction false} CompletedRanks(reg: Registry, pending: set<Tag>, tags: set<Tag>) returns (r: Ranks)
    requires Consistent(reg, pending, tags) && Schedule(reg, pending, tags).stuck == {}
    ensures Ranked(reg, pending, tags, r)
    decreases pending
  {
    var ready := ReadySet(reg, pending, tags);
    if ready == {} {
      r := map[];
    } else {
      var later := CompletedRanks(reg, pending - ready, TagsAfter(reg, tags, ready));
      r := Shifted(ready, later);
      forall t | t in r ensures RankOk(reg, tags, r, t) {
        if t in ready {
          ReadyRankOk(reg, pending, tags, later, t);
        } else {
          LaterRankOk(reg, pending, tags, later, t);
        }
      }
    }
  }

  // ---------- main result ----------

  /** A run aborts if and only if its pending tags have no ranks, and if they have, these are the rounds. */
  lemma CompletionExact(reg: Registry, tagSet: set<Tag>, untagSet: set<Tag>, start: set<Tag>)
    requires Registered(tagSet, untagSet, reg) && tagSet !! untagSet
    ensures var pending := Pending(tagSet, untagSet, start);
            Schedule(reg, pending, start).stuck == {} <==> exists r :: Ranked(reg, pending, start, r)
  {
    var pending := Pending(tagSet, untagSet, start);
    forall t | t in pending ensures t in reg && (IsUp(reg, t) <==> t !in start) {
      assert t in reg;
    }
    if Schedule(reg, pending, start).stuck == {} {
      var r := CompletedRanks(reg, pending, start);
    }
    if r :| Ranked(reg, pending, start, r) {
      RankedCompletes(reg, pending, start, r);
    }
  }

  lemma SameRanks(a: Ranks, b: Ranks)
    requires (forall t :: t in a ==> a[t] >= 1) && (forall t :: t in b ==> b[t] >= 1)
    requires a.Keys == b.Keys && First(a) == First(b) && Next(a) == Next(b)
    ensures a == b
  {
    forall t | t in a ensures a[t] == b[t] {
      assert t in First(a) <==> t in First(b);
      if a[t] > 1 {
        assert Next(a)[t] == Next(b)[t];
      }
    }
  }

  /** There is at most one way to rank the pending tags. */
  lemma {:induction false} RanksUnique(reg: Registry, pending: set<Tag>, tags: set<Tag>, a: Ranks, b: Ranks)
    requires Consistent(reg, pending, tags) && Ranked(reg, pending, tags, a) && Ranked(reg, pending, tags, b)
    ensures a == b
    decreases pending
  {
    FirstIsReady(reg, pending, tags, a);
    FirstIsReady(reg, pending, tags, b);
    if t :| t in pending {
      SomeFirst(reg, pending, tags, a, t);
      NextRanked(reg, pending, tags, a);
      NextRanked(reg, pending, tags, b);
      RanksUnique(reg, pending - First(a), TagsAfter(reg, tags, First(a)), Next(a), Next(b));
      Positive(reg, pending, tags, a);
      Positive(reg, pending, tags, b);
      SameRanks(a, b);
    }
  }
}
