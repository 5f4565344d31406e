/**
 The checkpoint upgrader: a set of migration scripts, each identified by a tag and depending on other
 tags, is applied to a checkpoint round by round. In every round all scripts whose dependencies are
 in the checkpoint's tag set run, in an order the program does not control.
 */
module CptUpgrader {
  import opened Text

  datatype Tag = Tag(name: string)
  datatype Cpt = Cpt(sections: map<string, map<string, string>>)

  /**
   A script: what it needs, who needs it, an upgrader (`up`) or a downgrader of the checkpoint, and the number
   of the file it comes from.
   */
  datatype Script = Script(depends: seq<Tag>, fwdDepends: seq<Tag>, up: bool, act: Cpt -> Cpt, file: nat)

  /** The script of a legacy version: a later file with the same tag takes its place in the registry. */
  datatype Legacy = Legacy(tag: Tag, file: nat)

  type Registry = map<Tag, Script>

  datatype Outcome =
    | Aborted(unresolved: set<Tag>)
    | KeyError
    | Done(cpt: Cpt, tags: set<Tag>, log: seq<Tag>)

  function Elems(s: seq<Tag>): set<Tag> { set t | t in s }

  predicate DependsOn(reg: Registry, t: Tag, d: Tag) { t in reg && d in reg[t].depends }

  // ---------- the schedule ----------

  predicate Ready(reg: Registry, t: Tag, tags: set<Tag>) {
    t in reg ==> forall d :: d in reg[t].depends ==> d in tags
  }

  function ReadySet(reg: Registry, pending: set<Tag>, tags: set<Tag>): (r: set<Tag>)
    ensures r <= pending
  {
    set t | t in pending && Ready(reg, t, tags)
  }

  predicate IsUp(reg: Registry, t: Tag) { t in reg && reg[t].up }

  /** The tag set after all scripts of a round have run. */
  function TagsAfter(reg: Registry, tags: set<Tag>, round: set<Tag>): set<Tag> {
    (tags + (set t | t in round && IsUp(reg, t))) - (set t | t in round && !IsUp(reg, t))
  }

  /** The rounds that are run, the tags left when none is possible any more, and the final tag set. */
  datatype Plan = Plan(rounds: seq<set<Tag>>, stuck: set<Tag>, tags: set<Tag>)

  function Schedule(reg: Registry, pending: set<Tag>, tags: set<Tag>): (p: Plan)
    ensures p.stuck <= pending
  {
    var ready := ReadySet(reg, pending, tags);
    if ready == {} then Plan([], pending, tags)
    else
      var p := Schedule(reg, pending - ready, TagsAfter(reg, tags, ready));
      p.(rounds := [ready] + p.rounds)
  }

  /** `log` runs the rounds one after the other, each in some order of its own. */
  ghost predicate FollowsRounds(log: seq<Tag>, rounds: seq<set<Tag>>) {
    if rounds == [] then log == []
    else
      var n := |rounds[0]|;
      && n <= |log|
      && multiset(log[..n]) == multiset(rounds[0])
      && FollowsRounds(log[n..], rounds[1..])
  }

  /** The checkpoint after the scripts of `log` have run in that order. */
  function Effect(reg: Registry, log: seq<Tag>, cpt: Cpt): Cpt {
    if log == [] then cpt
    else Effect(reg, log[1..], if log[0] in reg then reg[log[0]].act(cpt) else cpt)
  }

  // ---------- the program ----------

  /** A downgrader in the round whose tag there is nothing to remove of. */
  predicate NothingToRemove(reg: Registry, round: set<Tag>, tags: set<Tag>) {
    exists t :: t in round && !IsUp(reg, t) && t !in tags
  }

  predicate RemovesMissing(reg: Registry, rounds: seq<set<Tag>>, start: set<Tag>) {
    exists k :: 0 <= k < |rounds| && NothingToRemove(reg, rounds[k], start)
  }

  /** The outcome of a plan: a tag that is not there cannot be removed; else tags are stuck, or all rounds run. */
  ghost predicate Follows(r: Outcome, plan: Plan, reg: Registry, start: set<Tag>, cpt: Cpt) {
    match r
    case KeyError => RemovesMissing(reg, plan.rounds, start)
    case Aborted(left) => !RemovesMissing(reg, plan.rounds, start) && left != {} && left == plan.stuck
    case Done(after, tags, log) =>
      && !RemovesMissing(reg, plan.rounds, start)
      && plan.stuck == {}
      && FollowsRounds(log, plan.rounds)
      && tags == plan.tags
      && after == Effect(reg, log, cpt)
  }

  /** The two tag sets name exactly the registered scripts, each at least by what it does. */
  ghost predicate Registered(tagSet: set<Tag>, untagSet: set<Tag>, reg: Registry) {
    && tagSet + untagSet == reg.Keys
    && forall t :: t in reg ==> t in (if reg[t].up then tagSet else untagSet)
  }

  ghost predicate SameScripts(a: Registry, b: Registry) {
    a.Keys == b.Keys && forall t :: t in a ==> SameScript(a[t], b[t])
  }

  lemma RegisteredSame(tagSet: set<Tag>, untagSet: set<Tag>, a: Registry, b: Registry)
    requires Registered(tagSet, untagSet, a) && SameScripts(b, a)
    ensures Registered(tagSet, untagSet, b)
  {
  }

  class Upgraders {
    var tagSet: set<Tag>
    var untagSet: set<Tag>
    var byTag: Registry
    var legacy: map<int, Legacy>
    var files: nat

    ghost predicate Valid()
      reads this
    {
      && Registered(tagSet, untagSet, byTag)
      && (forall v :: v in legacy ==> legacy[v].tag in byTag && legacy[v].file < files)
      && DistinctVersions(legacy)
    }

    constructor ()
      ensures Valid() && byTag == map[] && tagSet == {} && untagSet == {} && legacy == map[] && files == 0
    {
      tagSet, untagSet, byTag, legacy, files := {}, {}, map[], map[], 0;
    }

    /** Registers the script of the next file, under its legacy version as well if it has one. */
    method Load(tag: Tag, script: Script, legacyVersion: Option<int>)
      requires Valid()
      modifies this
      ensures Valid() && files == old(files) + 1 && byTag == old(byTag)[tag := script.(file := old(files))]
      ensures tagSet == if script.up then old(tagSet) + {tag} else old(tagSet)
      ensures untagSet == if script.up then old(untagSet) else old(untagSet) + {tag}
      ensures legacy == if legacyVersion.None? then old(legacy)
                        else old(legacy)[legacyVersion.value := Legacy(tag, old(files))]
    {
      if script.up {
        tagSet := tagSet + {tag};
      } else {
        untagSet := untagSet + {tag};
      }
      if legacyVersion.Some? {
        legacy := legacy[legacyVersion.value := Legacy(tag, files)];
      }
      byTag := byTag[tag := script.(file := files)];
      files := files + 1;
    }

    /** What follows the loading: chain the legacy versions, then resolve and audit dependencies. */
    method ResolveAll() returns (ok: bool, ghost chained: Registry)
      requires Valid()
      modifies this`byTag
      ensures Valid()
      ensures !NoFirstVersion(legacy) ==> IsChained(old(byTag), legacy, chained)
      ensures ok <==> !(3 in legacy && 2 !in legacy) && NamesExist(old(byTag), legacy)
      ensures ok ==> Resolved(chained, byTag)
    {
      chained := byTag;
      if NoFirstVersion(legacy) {
        return false, chained;
      }
      var reg := ChainLegacy(byTag, legacy);
      chained := reg;
      ChainedNames(byTag, legacy, chained);
      ok, reg := ResolveForward(reg);
      if ok {
        RegisteredSame(tagSet, untagSet, byTag, chained);
        RegisteredSame(tagSet, untagSet, chained, reg);
        byTag := reg;
      }
    }

    /** Applies all pending scripts to a checkpoint that carries the tags `start`. */
    method ProcessFile(cpt: Cpt, start: set<Tag>) returns (r: Outcome)
      requires Valid()
      ensures Follows(r, Schedule(byTag, (tagSet - start) + (untagSet * start), start), byTag, start, cpt)
    {
      var tags, c, log := start, cpt, [];
      var toApply := (tagSet - tags) + (untagSet * tags);
      ghost var plan := Schedule(byTag, toApply, start);
      ghost var past: seq<set<Tag>> := [];
      while toApply != {}
        invariant toApply <= byTag.Keys && Underway(byTag, plan, past, toApply, tags, start, log)
        invariant c == Effect(byTag, log, cpt)
        decreases toApply
      {
        var ready := ReadySet(byTag, toApply, tags);
        if ready == {} {
          assert past + [] == past;
          return Aborted(toApply);
        }
        var ok, order;
        ghost var before := tags;
        ok, c, tags, order := RunRound(byTag, ready, c, tags);
        if !ok {
          StopsHere(byTag, plan, past, toApply, before, start, log);
          return KeyError;
        }
        RoundDone(byTag, plan, past, toApply, before, start, log, order);
        EffectConcat(byTag, log, order, cpt);
        log, past := log + order, past + [ready];
        toApply := toApply - ready;
      }
      assert past + [] == past;
      r := Done(c, tags, log);
    }
  }

  /** Some rounds of the plan have run, and the rest of it is the plan for what is left. */
  ghost predicate Underway(reg: Registry, plan: Plan, past: seq<set<Tag>>, pending: set<Tag>, tags: set<Tag>,
                           start: set<Tag>, log: seq<Tag>)
  {
    && Untouched(pending, tags, start)
    && (var p := Schedule(reg, pending, tags); plan == p.(rounds := past + p.rounds))
    && FollowsRounds(log, past) && !RemovesMissing(reg, past, start)
  }

  lemma RoundDone(reg: Registry, plan: Plan, past: seq<set<Tag>>, pending: set<Tag>, tags: set<Tag>,
                  start: set<Tag>, log: seq<Tag>, order: seq<Tag>)
    requires Underway(reg, plan, past, pending, tags, start, log)
    requires var ready := ReadySet(reg, pending, tags);
             ready != {} && multiset(order) == multiset(ready) && !NothingToRemove(reg, ready, tags)
    ensures var ready := ReadySet(reg, pending, tags);
            Underway(reg, plan, past + [ready], pending - ready, TagsAfter(reg, tags, ready), start, log + order)
  {
    var ready := ReadySet(reg, pending, tags);
    SameRemovals(reg, ready, pending, tags, start);
    FollowsSnoc(log, past, order, ready);
    ConcatAssoc(past, ready, Schedule(reg, pending - ready, TagsAfter(reg, tags, ready)).rounds);
  }

  lemma StopsHere(reg: Registry, plan: Plan, past: seq<set<Tag>>, pending: set<Tag>, tags: set<Tag>,
                  start: set<Tag>, log: seq<Tag>)
    requires Underway(reg, plan, past, pending, tags, start, log)
    requires var ready := ReadySet(reg, pending, tags); ready != {} && NothingToRemove(reg, ready, tags)
    ensures RemovesMissing(reg, plan.rounds, start)
  {
    var ready := ReadySet(reg, pending, tags);
    SameRemovals(reg, ready, pending, tags, start);
    assert plan.rounds[|past|] == ready;
  }

  /** No pending tag has been added or removed yet. */
  ghost predicate Untouched(pending: set<Tag>, tags: set<Tag>, start: set<Tag>) {
    forall t :: t in pending ==> (t in tags <==> t in start)
  }

  lemma SameRemovals(reg: Registry, ready: set<Tag>, pending: set<Tag>, tags: set<Tag>, start: set<Tag>)
    requires ready <= pending && Untouched(pending, tags, start)
    ensures NothingToRemove(reg, ready, tags) <==> NothingToRemove(reg, ready, start)
    ensures Untouched(pending - ready, TagsAfter(reg, tags, ready), start)
  {
  }

  lemma ConcatAssoc(a: seq<set<Tag>>, x: set<Tag>, b: seq<set<Tag>>)
    ensures a + ([x] + b) == (a + [x]) + b
  {
  }

  /** One round, in whatever order the set is enumerated. */
  method RunRound(reg: Registry, ready: set<Tag>, cpt: Cpt, tags: set<Tag>)
    returns (ok: bool, c: Cpt, tags': set<Tag>, order: seq<Tag>)
    requires ready <= reg.Keys
    ensures ok <==> !NothingToRemove(reg, ready, tags)
    ensures ok ==> multiset(order) == multiset(ready)
    ensures ok ==> c == Effect(reg, order, cpt) && tags' == TagsAfter(reg, tags, ready)
  {
    ok, c, tags', order := true, cpt, tags, [];
    var rest := ready;
    while rest != {}
      invariant rest <= ready && !NothingToRemove(reg, ready - rest, tags) && Untouched(rest, tags', tags)
      invariant multiset(order) == multiset(ready - rest)
      invariant c == Effect(reg, order, cpt) && tags' == TagsAfter(reg, tags, ready - rest)
      decreases rest
    {
      var t :| t in rest;
      RoundStep(reg, ready, rest, t, tags, order, cpt);
      c := reg[t].act(c);
      if reg[t].up {
        tags' := tags' + {t};
      } else {
        if t !in tags' {
          return false, c, tags', order;
        }
        tags' := tags' - {t};
      }
      order, rest := order + [t], rest - {t};
    }
    assert ready - rest == ready;
  }

  lemma RoundStep(reg: Registry, ready: set<Tag>, rest: set<Tag>, t: Tag, tags: set<Tag>, order: seq<Tag>, cpt: Cpt)
    requires ready <= reg.Keys && t in rest && rest <= ready && multiset(order) == multiset(ready - rest)
    ensures multiset(order + [t]) == multiset(ready - (rest - {t}))
    ensures Effect(reg, order + [t], cpt) == reg[t].act(Effect(reg, order, cpt))
    ensures var done := TagsAfter(reg, tags, ready - rest);
            TagsAfter(reg, tags, ready - (rest - {t})) == if reg[t].up then done + {t} else done - {t}
    ensures NothingToRemove(reg, ready - (rest - {t}), tags) <==>
            NothingToRemove(reg, ready - rest, tags) || (!reg[t].up && t !in tags)
  {
    EffectConcat(reg, order, [t], cpt);
    MoveOver(ready, rest, t);
    MultisetAdd(ready - rest, t);
    TagsAfterAdd(reg, tags, ready - rest, t);
    assert t in ready - (rest - {t});
  }

  lemma TagsAfterAdd(reg: Registry, tags: set<Tag>, round: set<Tag>, t: Tag)
    requires t !in round
    ensures TagsAfter(reg, tags, round + {t})
         == if IsUp(reg, t) then TagsAfter(reg, tags, round) + {t} else TagsAfter(reg, tags, round) - {t}
  {
    var ups, downs := set u | u in round && IsUp(reg, u), set u | u in round && !IsUp(reg, u);
    if IsUp(reg, t) {
      assert (set u | u in round + {t} && IsUp(reg, u)) == ups + {t};
      assert (set u | u in round + {t} && !IsUp(reg, u)) == downs;
    } else {
      assert (set u | u in round + {t} && IsUp(reg, u)) == ups;
      assert (set u | u in round + {t} && !IsUp(reg, u)) == downs + {t};
    }
  }

  lemma MoveOver(all: set<Tag>, rest: set<Tag>, t: Tag)
    requires t in rest && rest <= all
    ensures all - (rest - {t}) == (all - rest) + {t}
  {
  }

  lemma MultisetAdd(s: set<Tag>, t: Tag)
    requires t !in s
    ensures multiset(s + {t}) == multiset(s) + multiset{t}
  {
  }

  lemma {:induction false} EffectConcat(reg: Registry, a: seq<Tag>, b: seq<Tag>, cpt: Cpt)
    ensures Effect(reg, a + b, cpt) == Effect(reg, b, Effect(reg, a, cpt))
  {
    if a == [] {
      assert a + b == b;
    } else {
      assert (a + b)[1..] == a[1..] + b;
      EffectConcat(reg, a[1..], b, if a[0] in reg then reg[a[0]].act(cpt) else cpt);
    }
  }

  lemma OrderLength(order: seq<Tag>, round: set<Tag>)
    requires multiset(order) == multiset(round)
    ensures |order| == |round|
  {
    assert |multiset(order)| == |order| && |multiset(round)| == |round|;
  }

  lemma {:induction false} FollowsSnoc(log: seq<Tag>, rounds: seq<set<Tag>>, order: seq<Tag>, round: set<Tag>)
    requires FollowsRounds(log, rounds) && multiset(order) == multiset(round)
    ensures FollowsRounds(log + order, rounds + [round])
    decreases |rounds|
  {
    if rounds == [] {
      OrderLength(order, round);
      assert rounds + [round] == [round];
      assert log + order == order && order[..|order|] == order && order[|order|..] == [];
      assert [round][1..] == [];
    } else {
      var n := |rounds[0]|;
      FollowsSnoc(log[n..], rounds[1..], order, round);
      assert (log + order)[..n] == log[..n] && (log + order)[n..] == log[n..] + order;
      assert (rounds + [round])[1..] == rounds[1..] + [round];
    }
  }

  // ---------- loading ----------

  /** Every file stands behind one version at most. */
  ghost predicate DistinctVersions(legacy: map<int, Legacy>) {
    forall v, w :: v in legacy && w in legacy && legacy[v] == legacy[w] ==> v == w
  }

  /** The chain would start with a version that nothing provides. */
  predicate NoFirstVersion(legacy: map<int, Legacy>) { 3 in legacy && 2 !in legacy }

  /** Versions 2 up to and including `v` all exist. */
  ghost predicate InChain(legacy: map<int, Legacy>, v: int) {
    v >= 3 && forall u :: 2 <= u <= v ==> u in legacy
  }

  /** The script is still the one registered under its tag. */
  predicate Live(reg: Registry, l: Legacy) { l.tag in reg && reg[l.tag].file == l.file }

  /** Version `v` is the registered script of tag `t`. */
  ghost predicate Provides(reg: Registry, legacy: map<int, Legacy>, v: int, t: Tag) {
    v in legacy && legacy[v].tag == t && t in reg && reg[t].file == legacy[v].file
  }

  /** Each registered version of the unbroken chain from 3 on depends on the version before it and on nothing else. */
  ghost predicate IsChained(reg: Registry, legacy: map<int, Legacy>, r: Registry) {
    && SameScripts(r, reg)
    && (forall v :: InChain(legacy, v) && Provides(reg, legacy, v, legacy[v].tag) ==>
          r[legacy[v].tag] == reg[legacy[v].tag].(depends := [legacy[v - 1].tag]))
    && (forall t :: t in reg && (forall v :: InChain(legacy, v) ==> !Provides(reg, legacy, v, t)) ==> r[t] == reg[t])
  }

  /** The versions not yet visited. */
  ghost function Ahead(legacy: map<int, Legacy>, i: int): set<int> { set v | v in legacy.Keys && v >= i }

  lemma AheadShrinks(legacy: map<int, Legacy>, i: int)
    requires i in legacy
    ensures Ahead(legacy, i + 1) < Ahead(legacy, i)
  {
    assert i in Ahead(legacy, i) && i !in Ahead(legacy, i + 1);
  }

  /** Gives each legacy version the version before it as its dependency. */
  method ChainLegacy(reg: Registry, legacy: map<int, Legacy>) returns (r: Registry)
    requires DistinctVersions(legacy) && !NoFirstVersion(legacy)
    requires forall v :: v in legacy ==> legacy[v].tag in reg
    ensures IsChained(reg, legacy, r)
  {
    r := reg;
    var i := 3;
    while i in legacy
      invariant i >= 3 && (forall v :: 3 <= v < i ==> v in legacy)
      invariant ChainedTo(reg, legacy, r, i)
      decreases Ahead(legacy, i)
    {
      AheadShrinks(legacy, i);
      var l := legacy[i];
      ghost var before := r;
      if r[l.tag].file == l.file {
        r := r[l.tag := r[l.tag].(depends := [legacy[i - 1].tag])];
      }
      ChainStep(reg, legacy, before, r, i);
      i := i + 1;
    }
    ChainEnds(reg, legacy, r, i);
  }

  /** The loop stops where the unbroken chain does. */
  lemma ChainEnds(reg: Registry, legacy: map<int, Legacy>, r: Registry, i: int)
    requires !NoFirstVersion(legacy) && i >= 3 && i !in legacy && (forall v :: 3 <= v < i ==> v in legacy)
    requires ChainedTo(reg, legacy, r, i)
    ensures IsChained(reg, legacy, r)
  {
    assert forall v :: InChain(legacy, v) <==> 3 <= v < i;
  }

  ghost predicate ChainedTo(reg: Registry, legacy: map<int, Legacy>, r: Registry, i: int)
    requires forall v :: 3 <= v < i ==> v in legacy
    requires 3 in legacy ==> 2 in legacy
  {
    && SameScripts(r, reg)
    && (forall v :: 3 <= v < i && Live(reg, legacy[v]) ==>
          r[legacy[v].tag] == reg[legacy[v].tag].(depends := [legacy[v - 1].tag]))
    && (forall t :: t in reg && (forall v :: 3 <= v < i ==> !Provides(reg, legacy, v, t)) ==> r[t] == reg[t])
  }

  lemma ChainStep(reg: Registry, legacy: map<int, Legacy>, before: Registry, r: Registry, i: int)
    requires DistinctVersions(legacy) && 2 in legacy && i >= 3 && (forall v :: 3 <= v <= i ==> v in legacy)
    requires ChainedTo(reg, legacy, before, i) && legacy[i].tag in reg
    requires r == if !Live(before, legacy[i]) then before
                  else before[legacy[i].tag := before[legacy[i].tag].(depends := [legacy[i - 1].tag])]
    ensures ChainedTo(reg, legacy, r, i + 1)
  {
    var l := legacy[i];
    assert Live(before, l) <==> Live(reg, l);
    forall v | 3 <= v < i && Live(reg, legacy[v]) && Live(reg, l) ensures legacy[v].tag != l.tag {
      assert legacy[v] != l;
    }
    assert Live(reg, l) ==> before[l.tag] == reg[l.tag];
    forall t | t in reg && (forall v :: 3 <= v < i + 1 ==> !Provides(reg, legacy, v, t))
      ensures r[t] == reg[t]
    {
      assert !Provides(reg, legacy, i, t);
    }
  }

  /** The two differ in their dependencies at most. */
  ghost predicate SameScript(a: Script, b: Script) {
    a.fwdDepends == b.fwdDepends && a.up == b.up && a.act == b.act && a.file == b.file
  }

  /** `d` names `t` among its forward dependencies. */
  predicate Forwards(base: Registry, d: Tag, t: Tag) { d in base && t in base[d].fwdDepends }

  /** The forward dependencies of the processed scripts, and only those, have been turned around. */
  ghost predicate GrownBy(base: Registry, reg: Registry, processed: set<Tag>) {
    && SameScripts(reg, base)
    && forall t, d :: DependsOn(reg, t, d) <==>
                      DependsOn(base, t, d) || (t in base && d in processed && Forwards(base, d, t))
  }

  /** Forward dependencies have become dependencies of the tags they name; nothing else has changed. */
  ghost predicate Resolved(base: Registry, reg: Registry) {
    GrownBy(base, reg, base.Keys)
  }

  predicate Known(reg: Registry, s: seq<Tag>) { forall d :: d in s ==> d in reg }

  /** Everything that `t` names exists. */
  predicate Audited(base: Registry, t: Tag)
    requires t in base
  {
    Known(base, base[t].depends) && Known(base, base[t].fwdDepends)
  }

  predicate WellFormed(base: Registry) {
    forall t :: t in base ==> Audited(base, t)
  }

  /** The script of tag `t` is a legacy version that the chain gives a new dependency. */
  ghost predicate Rechained(reg: Registry, legacy: map<int, Legacy>, t: Tag) {
    exists v :: InChain(legacy, v) && Provides(reg, legacy, v, t)
  }

  /** Every tag that a script names exists, but for the former dependencies of chained versions. */
  ghost predicate NamesExist(reg: Registry, legacy: map<int, Legacy>) {
    forall t, d :: t in reg && (d in reg[t].fwdDepends || (DependsOn(reg, t, d) && !Rechained(reg, legacy, t))) ==>
      d in reg
  }

  lemma ChainedNames(reg: Registry, legacy: map<int, Legacy>, chained: Registry)
    requires IsChained(reg, legacy, chained) && forall v :: v in legacy ==> legacy[v].tag in reg
    ensures WellFormed(chained) <==> NamesExist(reg, legacy)
  {
    forall t | t in reg ensures Known(chained, chained[t].depends) <==>
                                Rechained(reg, legacy, t) || Known(reg, reg[t].depends)
    {
      if Rechained(reg, legacy, t) {
        var v :| InChain(legacy, v) && Provides(reg, legacy, v, t);
        assert chained[t].depends == [legacy[v - 1].tag] && v - 1 in legacy;
      }
    }
    if WellFormed(chained) {
      forall t, d | t in reg && (d in reg[t].fwdDepends || (DependsOn(reg, t, d) && !Rechained(reg, legacy, t)))
        ensures d in reg
      {
        assert Audited(chained, t);
      }
    }
    if NamesExist(reg, legacy) {
      forall t | t in chained ensures Audited(chained, t) {
        forall d | d in reg[t].depends && !Rechained(reg, legacy, t) ensures d in reg {
          assert DependsOn(reg, t, d);
        }
      }
    }
  }

  lemma AuditMeaning(base: Registry, reg: Registry, processed: set<Tag>, tag: Tag)
    requires GrownBy(base, reg, processed) && tag in base
    ensures Known(reg, reg[tag].depends) <==> Known(base, base[tag].depends)
  {
    forall d
      ensures d in reg[tag].depends <==> d in base[tag].depends || (d in processed && Forwards(base, d, tag))
    {
      assert DependsOn(reg, tag, d) <==> d in reg[tag].depends;
    }
  }

  /** Appends `tag` to the dependencies of every script that it names. */
  method AddForward(reg: Registry, tag: Tag, fwd: seq<Tag>) returns (ok: bool, r: Registry)
    ensures ok <==> Known(reg, fwd)
    ensures ok ==> SameScripts(r, reg)
    ensures ok ==> forall t, d :: DependsOn(r, t, d) <==> DependsOn(reg, t, d) || (t in fwd && d == tag)
  {
    r := reg;
    for k := 0 to |fwd|
      invariant SameScripts(r, reg) && Known(reg, fwd[..k])
      invariant forall t, d :: DependsOn(r, t, d) <==> DependsOn(reg, t, d) || (t in fwd[..k] && d == tag)
    {
      var fd := fwd[k];
      assert fwd[..k + 1] == fwd[..k] + [fd];
      if fd !in r {
        assert fd in fwd;
        return false, r;
      }
      ghost var before := r;
      r := r[fd := r[fd].(depends := r[fd].depends + [tag])];
      assert forall t, d :: DependsOn(r, t, d) <==> DependsOn(before, t, d) || (t == fd && d == tag);
    }
    assert fwd[..|fwd|] == fwd;
    ok := true;
  }

  method AllKnown(reg: Registry, deps: seq<Tag>) returns (ok: bool)
    ensures ok <==> Known(reg, deps)
  {
    for k := 0 to |deps|
      invariant forall j :: 0 <= j < k ==> deps[j] in reg
    {
      if deps[k] !in reg {
        return false;
      }
    }
    ok := true;
  }

  /** One script: pass its tag on to those it names, then audit its own dependencies. */
  method VisitScript(base: Registry, reg: Registry, tag: Tag, ghost processed: set<Tag>) returns (ok: bool, r: Registry)
    requires GrownBy(base, reg, processed) && tag in base && tag !in processed
    ensures ok <==> Audited(base, tag)
    ensures ok ==> GrownBy(base, r, processed + {tag})
  {
    ok, r := AddForward(reg, tag, reg[tag].fwdDepends);
    if ok {
      GrowStep(base, reg, r, processed, tag);
      ok := AllKnown(r, r[tag].depends);
      AuditMeaning(base, r, processed + {tag}, tag);
    }
  }

  /** Resolves forward dependencies and audits all of them, visiting the scripts in any order. */
  method ResolveForward(base: Registry) returns (ok: bool, reg: Registry)
    ensures ok <==> WellFormed(base)
    ensures ok ==> Resolved(base, reg)
  {
    reg := base;
    var todo := base.Keys;
    ghost var processed: set<Tag> := {};
    NothingGrown(base);
    while todo != {}
      invariant todo + processed == base.Keys && todo !! processed
      invariant GrownBy(base, reg, processed)
      invariant forall t :: t in processed ==> Audited(base, t)
      decreases todo
    {
      var tag :| tag in todo;
      ok, reg := VisitScript(base, reg, tag, processed);
      if !ok {
        return;
      }
      todo, processed := todo - {tag}, processed + {tag};
    }
    assert processed == base.Keys;
    ok := true;
  }

  lemma NothingGrown(base: Registry)
    ensures GrownBy(base, base, {})
  {
  }

  lemma GrowStep(base: Registry, before: Registry, reg: Registry, processed: set<Tag>, tag: Tag)
    requires GrownBy(base, before, processed) && tag in base && Known(before, base[tag].fwdDepends)
    requires SameScripts(reg, before)
    requires forall t, d :: DependsOn(reg, t, d) <==> DependsOn(before, t, d) || (t in base[tag].fwdDepends && d == tag)
    ensures GrownBy(base, reg, processed + {tag})
  {
    forall t | t in base
      ensures SameScript(reg[t], base[t])
    {
      assert SameScript(before[t], base[t]) && SameScript(reg[t], before[t]);
    }
  }
}
