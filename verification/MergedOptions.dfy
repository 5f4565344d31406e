/**
 What the merged configuration says, option by option: sections of the last checkpoint are taken over as they
 are, per-CPU sections of all checkpoints with their address and process number adapted, and the two sections
 at the end state totals over all checkpoints.
 */
module MergedOptions {
  import opened Text
  import opened SectionNames
  import opened Aggregator
  import opened MergedImage

  // ---------- one option set, the others untouched ----------

  lemma FindLast(sections: seq<Section>, s: Section, name: string)
    ensures Find(sections + [s], name) == if s.name == name then Some(s) else Find(sections, name)
  {
    assert (sections + [s])[..|sections|] == sections;
  }

  lemma {:induction false} OtherOptions(sections: seq<Section>, name: string, key: Key, value: string, n: string,
                                        k: Key)
    requires n != name || k != key
    ensures OptionOf(SetInSection(sections, name, key, value), n, k) == OptionOf(sections, n, k)
  {
    if sections != [] {
      var init, s := sections[..|sections| - 1], sections[|sections| - 1];
      assert sections == init + [s];
      FindLast(init, s, n);
      if s.name == name {
        FindLast(init, Section(name, SetItem(s.items, key, value)), n);
      } else {
        OtherOptions(init, name, key, value, n, k);
        FindLast(SetInSection(init, name, key, value), s, n);
      }
    }
  }

  /** The two sections that end the merged configuration. */
  function SystemSection(pages: nat, count: nat): Section {
    Section("system", [Item(PAGE_PTR, Decimal(pages)), Item(NEXT_PID, Decimal(count))])
  }

  function GlobalsSection(tick: nat): Section { Section("Globals", [Item(CUR_TICK, Decimal(tick))]) }

  lemma FinishIs(parts: seq<Section>, pages: nat, padded: nat, count: nat, tick: nat)
    requires Finish(parts, pages, padded, count, tick).Some?
    ensures Finish(parts, pages, padded, count, tick).value ==
            SetInSection(parts, STORE, RANGE_SIZE, Decimal(padded * PAGE)) + [SystemSection(pages, count)]
            + [GlobalsSection(tick)]
  {
  }

  lemma FinishedOption(parts: seq<Section>, pages: nat, padded: nat, count: nat, tick: nat, n: string, k: Key)
    requires Finish(parts, pages, padded, count, tick).Some? && !Special(n) && (n != STORE || k != RANGE_SIZE)
    ensures OptionOf(Finish(parts, pages, padded, count, tick).value, n, k) == OptionOf(parts, n, k)
  {
    var sized := SetInSection(parts, STORE, RANGE_SIZE, Decimal(padded * PAGE));
    FinishIs(parts, pages, padded, count, tick);
    OtherOptions(parts, STORE, RANGE_SIZE, Decimal(padded * PAGE), n, k);
    FindLast(sized, SystemSection(pages, count), n);
    FindLast(sized + [SystemSection(pages, count)], GlobalsSection(tick), n);
  }

  // ---------- the last checkpoint's sections ----------

  lemma {:induction false} PartKeeps(ss: seq<Section>, k: nat, last: nat, base: int) returns (p: nat)
    requires Part(ss, last, last, base).Some? && k < |ss| && !HasCpu(ss[k].name) && !Special(ss[k].name)
    ensures p < |Part(ss, last, last, base).value| && Part(ss, last, last, base).value[p] == ss[k]
  {
    if k == |ss| - 1 {
      p := |Part(ss, last, last, base).value| - 1;
    } else {
      p := PartKeeps(ss[..|ss| - 1], k, last, base);
    }
  }

  lemma PartsKeep(cpts: seq<Checkpoint>, k: nat) returns (p: nat)
    requires cpts != [] && Mergeable(cpts) && k < |cpts[|cpts| - 1].sections|
    requires var name := cpts[|cpts| - 1].sections[k].name; !HasCpu(name) && !Special(name)
    ensures var parts := Parts(cpts, |cpts|).value; p < |parts| && parts[p] == cpts[|cpts| - 1].sections[k]
  {
    var last := |cpts| - 1;
    p := PartKeeps(cpts[last].sections, k, last, PagesBefore(cpts, last) * PAGE);
    p := |Parts(cpts, last).value| + p;
  }

  /** Every other section of the last checkpoint is there with all its options, but for the size of the memory. */
  lemma LastKept(cpts: seq<Checkpoint>, memorySize: int, config: seq<Section>, k: nat, key: Key)
    requires CleanMerge(cpts, memorySize, config) && cpts != [] && k < |cpts[|cpts| - 1].sections|
    requires var s := cpts[|cpts| - 1].sections[k];
             !HasCpu(s.name) && s.name != "system" && s.name != "Globals" && !(s.name == STORE && key == RANGE_SIZE)
    ensures var s := cpts[|cpts| - 1].sections[k]; OptionOf(config, s.name, key) == Lookup(s.items, key)
  {
    var n, s := |cpts|, cpts[|cpts| - 1].sections[k];
    var p := PartsKeep(cpts, k);
    PartsDistinct(cpts, n);
    FindDistinct(Parts(cpts, n).value, p);
    var pages := PagesBefore(cpts, n);
    FinishedOption(Parts(cpts, n).value, pages, PaddedPages(pages, memorySize), n, MaxTick(cpts, n), s.name, key);
  }

  /** There is nothing else: every section is one of these, a renamed per-CPU section, or one of the two at the end. */
  lemma NothingElse(cpts: seq<Checkpoint>, memorySize: int, config: seq<Section>, t: Section) returns (i: nat, k: nat)
    requires Mergeable(cpts) && MergedConfig(cpts, memorySize) == Some(config) && t in config
    requires t.name != "system" && t.name != "Globals"
    ensures i < |cpts| && k < |cpts[i].sections|
    ensures var s, last := cpts[i].sections[k], |cpts| - 1;
            if HasCpu(s.name) then t.name == Rename(s.name, Zfill(i, |Decimal(last)|))
            else i == last && t.name == s.name && s.name != "system" && s.name != "Globals"
  {
    var parts := Parts(cpts, |cpts|).value;
    ConfigShape(cpts, memorySize);
    var j :| 0 <= j < |config| && config[j] == t;
    assert parts[j] in parts && parts[j].name == t.name;
    PartsOrigins(cpts, |cpts|);
    i, k :| 0 <= i < |cpts| && Origin(cpts, parts[j], i, k);
  }

  // ---------- per-CPU sections ----------

  /** The pattern for the section of a process: its name ends in "workload", one more character, and "FdMap256". */
  lemma FdMapExact(s: string)
    ensures IsFdMap(s) <==> exists pre: string, c: char :: c != '\n' && s == pre + "workload" + [c] + "FdMap256"
  {
    if IsFdMap(s) {
      var pre, c := s[..|s| - 17], s[|s| - 9];
      assert s == pre + s[|s| - 17..|s| - 9] + [c] + s[|s| - 8..];
      assert s == pre + "workload" + [c] + "FdMap256";
    }
    if pre: string, c: char :| c != '\n' && s == pre + "workload" + [c] + "FdMap256" {
      FdMapMatches(pre, c);
    }
  }

  lemma FdMapMatches(pre: string, c: char)
    requires c != '\n'
    ensures IsFdMap(pre + "workload" + [c] + "FdMap256")
  {
    var s := pre + "workload" + [c] + "FdMap256";
    assert s[|s| - 17..|s| - 9] == "workload" && s[|s| - 8..] == "FdMap256";
  }

  /** The process number becomes the checkpoint's index in such a section, and stays as it is in any other. */
  lemma ProcessNumber(cpts: seq<Checkpoint>, memorySize: int, config: seq<Section>, i: nat, k: nat)
    requires CleanMerge(cpts, memorySize, config)
    requires i < |cpts| && k < |cpts[i].sections| && HasCpu(cpts[i].sections[k].name)
    ensures var s := cpts[i].sections[k];
            var pid := OptionOf(config, Rename(s.name, Zfill(i, |Decimal(|cpts| - 1)|)), M5_PID);
            if exists pre: string, c: char :: c != '\n' && s.name == pre + "workload" + [c] + "FdMap256"
            then pid == Some(Decimal(i)) else pid == Lookup(s.items, M5_PID)
  {
    var s := cpts[i].sections[k];
    CpuSectionFound(cpts, memorySize, config, i, k);
    CpuSectionItems(s, i, |Decimal(|cpts| - 1)|, PagesBefore(cpts, i) * PAGE);
    FdMapExact(s.name);
  }

  // ---------- totals ----------

  lemma TwoItems(a: Item, b: Item, k: Key)
    ensures Lookup([a, b], k) == if b.key == k then Some(b.value) else if a.key == k then Some(a.value) else None
  {
    assert [a, b][..1] == [a] && [a][..0] == [];
    assert Lookup([a], k) == if a.key == k then Some(a.value) else None;
  }

  /** "system" states the number of pages and of checkpoints, and nothing else. */
  lemma SystemStates(cpts: seq<Checkpoint>, memorySize: int, config: seq<Section>, k: Key)
    requires Mergeable(cpts) && MergedConfig(cpts, memorySize) == Some(config)
    ensures OptionOf(config, "system", k) ==
            if k == Key("pagePtr") then Some(Decimal(PagesBefore(cpts, |cpts|)))
            else if k == Key("nextPID") then Some(Decimal(|cpts|)) else None
  {
    var n := |cpts|;
    var pages, tick := PagesBefore(cpts, n), MaxTick(cpts, n);
    var padded := PaddedPages(pages, memorySize);
    var sized := SetInSection(Parts(cpts, n).value, STORE, RANGE_SIZE, Decimal(padded * PAGE));
    FinishIs(Parts(cpts, n).value, pages, padded, n, tick);
    FindLast(sized, SystemSection(pages, n), "system");
    FindLast(sized + [SystemSection(pages, n)], GlobalsSection(tick), "system");
    TwoItems(Item(PAGE_PTR, Decimal(pages)), Item(NEXT_PID, Decimal(n)), k);
  }

  /** "Globals" states a tick that no checkpoint is past, and that some checkpoint is at unless it is zero. */
  lemma GlobalsState(cpts: seq<Checkpoint>, memorySize: int, config: seq<Section>) returns (tick: nat)
    requires Mergeable(cpts) && MergedConfig(cpts, memorySize) == Some(config)
    ensures OptionOf(config, "Globals", Key("curTick")) == Some(Decimal(tick))
    ensures forall i :: 0 <= i < |cpts| && cpts[i].curTick.Some? ==> cpts[i].curTick.value <= tick
    ensures tick == 0 || exists i :: 0 <= i < |cpts| && cpts[i].curTick == Some(tick)
  {
    var n := |cpts|;
    var pages := PagesBefore(cpts, n);
    var padded := PaddedPages(pages, memorySize);
    var sized := SetInSection(Parts(cpts, n).value, STORE, RANGE_SIZE, Decimal(padded * PAGE));
    tick := MaxTick(cpts, n);
    LatestTick(cpts, n);
    FinishIs(Parts(cpts, n).value, pages, padded, n, tick);
    FindLast(sized + [SystemSection(pages, n)], GlobalsSection(tick), "Globals");
    assert [Item(CUR_TICK, Decimal(tick))][..0] == [];
  }

  // ---------- when merging fails ----------

  lemma {:induction false} MoveItemsExact(items: seq<Item>, base: int)
    ensures MoveItems(items, base).Some? <==>
            forall j :: 0 <= j < |items| && items[j].key == Key("paddr") ==> ParseInt(items[j].value).Some?
  {
    if items != [] {
      MoveItemsExact(items[..|items| - 1], base);
      assert forall j :: 0 <= j < |items| - 1 ==> items[..|items| - 1][j] == items[j];
    }
  }

  /** Every address in the per-CPU sections is a number. */
  ghost predicate AddressesOk(ss: seq<Section>) {
    forall k, j :: 0 <= k < |ss| && HasCpu(ss[k].name) && 0 <= j < |ss[k].items| && ss[k].items[j].key == Key("paddr")
                   ==> ParseInt(ss[k].items[j].value).Some?
  }

  lemma {:induction false} PartExact(ss: seq<Section>, i: nat, last: nat, base: int)
    ensures Part(ss, i, last, base).Some? <==> AddressesOk(ss)
  {
    if ss != [] {
      var n := |ss| - 1;
      PartExact(ss[..n], i, last, base);
      assert forall k :: 0 <= k < n ==> ss[..n][k] == ss[k];
      MoveItemsExact(ss[n].items, base);
      OneMoreSection(ss, n);
    }
  }

  lemma OneMoreSection(ss: seq<Section>, n: nat)
    requires n == |ss| - 1
    ensures AddressesOk(ss) <==> AddressesOk(ss[..n]) && AddressesOk([ss[n]])
  {
    assert forall k :: 0 <= k < n ==> ss[..n][k] == ss[k];
    if AddressesOk(ss) {
      forall k, j | 0 <= k < n && HasCpu(ss[..n][k].name) && 0 <= j < |ss[..n][k].items|
                    && ss[..n][k].items[j].key == Key("paddr")
        ensures ParseInt(ss[..n][k].items[j].value).Some?
      {
        assert ss[k].items[j].key == Key("paddr");
      }
    }
    if AddressesOk(ss[..n]) && AddressesOk([ss[n]]) {
      forall k, j | 0 <= k < |ss| && HasCpu(ss[k].name) && 0 <= j < |ss[k].items| && ss[k].items[j].key == Key("paddr")
        ensures ParseInt(ss[k].items[j].value).Some?
      {
        if k < n {
          assert ss[..n][k].items[j].key == Key("paddr");
        } else {
          assert [ss[n]][0].items[j].key == Key("paddr");
        }
      }
    }
  }

  lemma {:induction false} PartsExact(cpts: seq<Checkpoint>, n: nat)
    requires n <= |cpts|
    ensures Parts(cpts, n).Some? <==> forall i :: 0 <= i < n ==> AddressesOk(cpts[i].sections)
  {
    if n > 0 {
      PartsExact(cpts, n - 1);
      PartExact(cpts[n - 1].sections, n - 1, |cpts| - 1, PagesBefore(cpts, n - 1) * PAGE);
    }
  }

  lemma {:induction false} FindExact(ss: seq<Section>, name: string)
    ensures Find(ss, name).Some? <==> exists k :: 0 <= k < |ss| && ss[k].name == name
  {
    if ss != [] {
      var n := |ss| - 1;
      FindExact(ss[..n], name);
      assert forall k :: 0 <= k < n ==> ss[..n][k] == ss[k];
      if k :| 0 <= k < n && ss[k].name == name {
        assert ss[..n][k].name == name;
      }
    }
  }

  /** Merging fails exactly for an address that is no number, or if the last checkpoint has no memory section. */
  lemma MergeExact(cpts: seq<Checkpoint>, memorySize: int)
    requires cpts != []
    ensures Mergeable(cpts) <==> forall i :: 0 <= i < |cpts| ==> AddressesOk(cpts[i].sections)
    ensures Mergeable(cpts) ==>
              (MergedConfig(cpts, memorySize).Some? <==>
               var ss := cpts[|cpts| - 1].sections; exists k :: 0 <= k < |ss| && ss[k].name == "system.physmem.store0")
  {
    PartsExact(cpts, |cpts|);
    if Mergeable(cpts) {
      NoC(STORE);
      SectionFound(cpts, STORE);
    }
  }

  lemma SectionFound(cpts: seq<Checkpoint>, name: string)
    requires cpts != [] && Mergeable(cpts) && !HasCpu(name) && !Special(name)
    ensures Find(Parts(cpts, |cpts|).value, name).Some? <==>
            var ss := cpts[|cpts| - 1].sections; exists k :: 0 <= k < |ss| && ss[k].name == name
  {
    var parts, ss := Parts(cpts, |cpts|).value, cpts[|cpts| - 1].sections;
    FindExact(parts, name);
    if k :| 0 <= k < |ss| && ss[k].name == name {
      var p := PartsKeep(cpts, k);
      assert parts[p].name == name;
    }
    if p :| 0 <= p < |parts| && parts[p].name == name {
      var k := LastOrigin(cpts, parts, p, name);
    }
  }

  lemma LastOrigin(cpts: seq<Checkpoint>, parts: seq<Section>, p: nat, name: string) returns (k: nat)
    requires cpts != [] && Parts(cpts, |cpts|) == Some(parts) && p < |parts| && parts[p].name == name && !HasCpu(name)
    ensures k < |cpts[|cpts| - 1].sections| && cpts[|cpts| - 1].sections[k].name == name
  {
    PartsOrigins(cpts, |cpts|);
    assert parts[p] in parts;
    var i: nat;
    i, k :| 0 <= i < |cpts| && Origin(cpts, parts[p], i, k);
    OutNameHasCpu(i, |cpts| - 1, cpts[i].sections[k].name);
  }
}
