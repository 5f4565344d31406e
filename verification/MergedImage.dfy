/**
 What merging checkpoints preserves: every byte of every image, the meaning of every physical address,
 and the identity of every per-CPU section.
 */
module MergedImage {
  import opened Text
  import opened Framing
  import opened SectionNames
  import opened Aggregator

  // ---------- memory ----------

  predicate HoldsItsPages(c: Checkpoint) { |c.store| >= c.pages * PAGE }

  predicate AllHold(cpts: seq<Checkpoint>, n: nat)
    requires n <= |cpts|
  {
    forall k :: 0 <= k < n ==> HoldsItsPages(cpts[k])
  }

  lemma {:induction false} ImagesLength(cpts: seq<Checkpoint>, i: nat)
    requires i <= |cpts|
    ensures |Images(cpts, i)| <= PagesBefore(cpts, i) * PAGE
    ensures |Images(cpts, i)| == PagesBefore(cpts, i) * PAGE <==> AllHold(cpts, i)
  {
    if i > 0 {
      ImagesLength(cpts, i - 1);
      ImageLength(cpts[i - 1]);
    }
  }

  lemma ImageLength(c: Checkpoint)
    ensures |Image(c)| <= c.pages * PAGE
    ensures |Image(c)| == c.pages * PAGE <==> HoldsItsPages(c)
  {
  }

  lemma {:induction false} ImageAt(cpts: seq<Checkpoint>, n: nat, i: nat, a: nat)
    requires i < n <= |cpts| && AllHold(cpts, n) && a < cpts[i].pages * PAGE
    ensures a < |cpts[i].store| && PagesBefore(cpts, i) * PAGE + a < |Images(cpts, n)|
    ensures Images(cpts, n)[PagesBefore(cpts, i) * PAGE + a] == cpts[i].store[a]
    decreases n
  {
    if i < n - 1 {
      ImageAt(cpts, n - 1, i, a);
    } else {
      LastImageAt(cpts, i, a);
    }
  }

  lemma LastImageAt(cpts: seq<Checkpoint>, i: nat, a: nat)
    requires i < |cpts| && AllHold(cpts, i + 1) && a < cpts[i].pages * PAGE
    ensures a < |cpts[i].store| && PagesBefore(cpts, i) * PAGE + a < |Images(cpts, i + 1)|
    ensures Images(cpts, i + 1)[PagesBefore(cpts, i) * PAGE + a] == cpts[i].store[a]
  {
    assert HoldsItsPages(cpts[i]);
    ImagesLength(cpts, i);
    ImageLength(cpts[i]);
    InSecond(Images(cpts, i), Image(cpts[i]), PagesBefore(cpts, i) * PAGE, a);
  }

  lemma InSecond(x: Bytes, y: Bytes, n: nat, a: nat)
    requires |x| == n && a < |y|
    ensures n + a < |x + y| && (x + y)[n + a] == y[a]
  {
  }

  /** Images do not overlap: each ends before the next one starts. */
  lemma {:induction false} ImagesApart(cpts: seq<Checkpoint>, i: nat, j: nat)
    requires i < j <= |cpts|
    ensures PagesBefore(cpts, i) + cpts[i].pages <= PagesBefore(cpts, j)
  {
    if i < j - 1 {
      ImagesApart(cpts, i, j - 1);
    }
  }

  lemma MemoryLength(cpts: seq<Checkpoint>, memorySize: int)
    ensures |MergedMemory(cpts, memorySize)| == PaddedPages(PagesBefore(cpts, |cpts|), memorySize) * PAGE
       <==> AllHold(cpts, |cpts|)
  {
    ImagesLength(cpts, |cpts|);
  }

  /** The option of a section that a configuration states. */
  function OptionOf(config: seq<Section>, name: string, key: Key): Option<string> {
    var s := Find(config, name);
    if s.None? then None else Lookup(s.value.items, key)
  }

  lemma {:induction false} OptionSet(sections: seq<Section>, name: string, key: Key, value: string)
    requires Find(sections, name).Some?
    ensures OptionOf(SetInSection(sections, name, key, value), name, key) == Some(value)
  {
    var r := SetInSection(sections, name, key, value);
    if sections[|sections| - 1].name != name {
      OptionSet(sections[..|sections| - 1], name, key, value);
      assert r[..|r| - 1] == SetInSection(sections[..|sections| - 1], name, key, value);
    }
  }

  lemma FindBefore(sections: seq<Section>, s: Section, name: string)
    requires s.name != name
    ensures Find(sections + [s], name) == Find(sections, name)
  {
    assert (sections + [s])[..|sections|] == sections;
  }

  lemma SizeAdvertised(parts: seq<Section>, pages: nat, padded: nat, count: nat, tick: int)
    requires tick >= 0 && Finish(parts, pages, padded, count, tick).Some?
    ensures OptionOf(Finish(parts, pages, padded, count, tick).value, STORE, RANGE_SIZE) == Some(Decimal(padded * PAGE))
  {
    var sized := SetInSection(parts, STORE, RANGE_SIZE, Decimal(padded * PAGE));
    var system := Section("system", [Item(PAGE_PTR, Decimal(pages)), Item(NEXT_PID, Decimal(count))]);
    var globals := Section("Globals", [Item(CUR_TICK, Decimal(tick))]);
    OptionSet(parts, STORE, RANGE_SIZE, Decimal(padded * PAGE));
    FindBefore(sized, system, STORE);
    FindBefore(sized + [system], globals, STORE);
    assert Finish(parts, pages, padded, count, tick).value == sized + [system] + [globals];
  }

  /**
   The merged memory has the size that the configuration advertises exactly if every store holds the
   pages its checkpoint declares; a store that is too short shifts everything behind it.
   */
  lemma MemoryLengthExact(cpts: seq<Checkpoint>, memorySize: int, config: seq<Section>)
    requires Mergeable(cpts) && MergedConfig(cpts, memorySize) == Some(config)
    ensures OptionOf(config, STORE, RANGE_SIZE) == Some(Decimal(|MergedMemory(cpts, memorySize)|))
       <==> AllHold(cpts, |cpts|)
  {
    var n := |cpts|;
    var padded := PaddedPages(PagesBefore(cpts, n), memorySize);
    SizeAdvertised(Parts(cpts, n).value, PagesBefore(cpts, n), padded, n, MaxTick(cpts, n));
    MemoryLength(cpts, memorySize);
    ValueDecimal(padded * PAGE);
    ValueDecimal(|MergedMemory(cpts, memorySize)|);
  }

  /** Byte `a` of image `i` is at `a` plus the size of the images before it. */
  lemma MergedByte(cpts: seq<Checkpoint>, memorySize: int, i: nat, a: nat)
    requires AllHold(cpts, |cpts|) && i < |cpts| && a < cpts[i].pages * PAGE
    ensures a < |cpts[i].store| && PagesBefore(cpts, i) * PAGE + a < |MergedMemory(cpts, memorySize)|
    ensures MergedMemory(cpts, memorySize)[PagesBefore(cpts, i) * PAGE + a] == cpts[i].store[a]
  {
    ImageAt(cpts, |cpts|, i, a);
  }

  // ---------- names ----------

  ghost predicate NamesDistinct(ss: seq<Section>) {
    forall j, k :: 0 <= j < k < |ss| ==> ss[j].name != ss[k].name
  }

  function OutName(i: nat, last: nat, name: string): string {
    if HasCpu(name) then Rename(name, Zfill(i, |Decimal(last)|)) else name
  }

  lemma OutNameHasCpu(i: nat, last: nat, name: string)
    ensures HasCpu(OutName(i, last, name)) <==> HasCpu(name)
  {
    if HasCpu(name) {
      IndexRecovered(name, Zfill(i, |Decimal(last)|));
    }
  }

  lemma OutNameInjective(i: nat, a: string, j: nat, b: string, last: nat)
    requires i <= last && j <= last && OutName(i, last, a) == OutName(j, last, b)
    ensures a == b && (HasCpu(a) ==> i == j)
  {
    OutNameHasCpu(i, last, a);
    OutNameHasCpu(j, last, b);
    if HasCpu(a) {
      RenameInjective(i, a, j, b, last);
    }
  }

  predicate Special(name: string) { name == "system" || name == "Globals" }

  /** Section `t` of the merged configuration stems from section `s` of checkpoint `i`. */
  predicate StemsFrom(t: Section, s: Section, i: nat, last: nat) {
    t.name == OutName(i, last, s.name) && (HasCpu(s.name) || (i == last && !Special(s.name)))
  }

  lemma {:induction false} PartOrigins(ss: seq<Section>, i: nat, last: nat, base: int)
    requires Part(ss, i, last, base).Some?
    ensures forall t :: t in Part(ss, i, last, base).value ==> exists k :: 0 <= k < |ss| && StemsFrom(t, ss[k], i, last)
  {
    if ss != [] {
      var n := |ss| - 1;
      PartOrigins(ss[..n], i, last, base);
      forall t | t in Part(ss, i, last, base).value
        ensures exists k :: 0 <= k < |ss| && StemsFrom(t, ss[k], i, last)
      {
        if t in Part(ss[..n], i, last, base).value {
          var k :| 0 <= k < n && StemsFrom(t, ss[..n][k], i, last);
          assert ss[k] == ss[..n][k];
        } else {
          assert StemsFrom(t, ss[n], i, last);
        }
      }
    }
  }

  lemma {:induction false} PartDistinct(ss: seq<Section>, i: nat, last: nat, base: int)
    requires Part(ss, i, last, base).Some? && NamesDistinct(ss) && i <= last
    ensures NamesDistinct(Part(ss, i, last, base).value)
  {
    if ss != [] {
      var n := |ss| - 1;
      PartDistinct(ss[..n], i, last, base);
      PartOrigins(ss[..n], i, last, base);
      var init := Part(ss[..n], i, last, base).value;
      forall j | 0 <= j < |init|
        ensures init[j].name != OutName(i, last, ss[n].name)
      {
        assert init[j] in init;
        var k :| 0 <= k < n && StemsFrom(init[j], ss[..n][k], i, last);
        if init[j].name == OutName(i, last, ss[n].name) {
          OutNameInjective(i, ss[k].name, i, ss[n].name, last);
        }
      }
    }
  }

  ghost predicate Origin(cpts: seq<Checkpoint>, t: Section, i: nat, k: nat) {
    i < |cpts| && k < |cpts[i].sections| && StemsFrom(t, cpts[i].sections[k], i, |cpts| - 1)
  }

  /** All these sections stem from the checkpoints from `lo` up to `hi`. */
  ghost predicate AllFrom(cpts: seq<Checkpoint>, ts: seq<Section>, lo: nat, hi: nat) {
    forall t :: t in ts ==> exists i: nat, k: nat :: lo <= i < hi && Origin(cpts, t, i, k)
  }

  lemma AllFromJoin(cpts: seq<Checkpoint>, a: seq<Section>, b: seq<Section>, lo: nat, mid: nat, hi: nat)
    requires lo <= mid <= hi && AllFrom(cpts, a, lo, mid) && AllFrom(cpts, b, mid, hi)
    ensures AllFrom(cpts, a + b, lo, hi)
  {
  }

  /** What checkpoint `n` contributes. */
  ghost function PartOf(cpts: seq<Checkpoint>, n: nat): Option<seq<Section>>
    requires n < |cpts|
  {
    Part(cpts[n].sections, n, |cpts| - 1, PagesBefore(cpts, n) * PAGE)
  }

  lemma PartFrom(cpts: seq<Checkpoint>, n: nat)
    requires n < |cpts| && PartOf(cpts, n).Some?
    ensures AllFrom(cpts, PartOf(cpts, n).value, n, n + 1)
  {
    var ss, part := cpts[n].sections, PartOf(cpts, n).value;
    PartOrigins(ss, n, |cpts| - 1, PagesBefore(cpts, n) * PAGE);
    forall t | t in part
      ensures exists i: nat, k: nat :: n <= i < n + 1 && Origin(cpts, t, i, k)
    {
      var k :| 0 <= k < |ss| && StemsFrom(t, ss[k], n, |cpts| - 1);
      assert Origin(cpts, t, n, k);
    }
  }

  lemma {:induction false} PartsOrigins(cpts: seq<Checkpoint>, n: nat)
    requires n <= |cpts| && Parts(cpts, n).Some?
    ensures AllFrom(cpts, Parts(cpts, n).value, 0, n)
  {
    if n > 0 {
      PartsOrigins(cpts, n - 1);
      PartFrom(cpts, n - 1);
      AllFromJoin(cpts, Parts(cpts, n - 1).value, PartOf(cpts, n - 1).value, 0, n - 1, n);
    }
  }

  lemma JoinDistinct(a: seq<Section>, b: seq<Section>)
    requires NamesDistinct(a) && NamesDistinct(b)
    requires forall t, u :: t in a && u in b ==> t.name != u.name
    ensures NamesDistinct(a + b)
  {
    forall j, k | 0 <= j < k < |a + b|
      ensures (a + b)[j].name != (a + b)[k].name
    {
      if j < |a| <= k {
        assert (a + b)[j] in a && (a + b)[k] in b;
      }
    }
  }

  /** Sections of different checkpoints never get the same name. */
  lemma OriginsApart(cpts: seq<Checkpoint>, t: Section, i: nat, k: nat, u: Section, j: nat, l: nat)
    requires Origin(cpts, t, i, k) && Origin(cpts, u, j, l) && i < j
    ensures t.name != u.name
  {
    if t.name == u.name {
      OutNameInjective(i, cpts[i].sections[k].name, j, cpts[j].sections[l].name, |cpts| - 1);
    }
  }

  lemma PartsApart(cpts: seq<Checkpoint>, a: seq<Section>, b: seq<Section>, n: nat)
    requires AllFrom(cpts, a, 0, n) && AllFrom(cpts, b, n, n + 1)
    ensures forall t, u :: t in a && u in b ==> t.name != u.name
  {
    forall t, u | t in a && u in b ensures t.name != u.name {
      var i: nat, k: nat :| 0 <= i < n && Origin(cpts, t, i, k);
      var j: nat, l: nat :| n <= j < n + 1 && Origin(cpts, u, j, l);
      OriginsApart(cpts, t, i, k, u, j, l);
    }
  }

  lemma {:induction false} PartsDistinct(cpts: seq<Checkpoint>, n: nat)
    requires n <= |cpts| && Parts(cpts, n).Some?
    requires forall i :: 0 <= i < |cpts| ==> NamesDistinct(cpts[i].sections)
    ensures NamesDistinct(Parts(cpts, n).value)
  {
    if n > 0 {
      var a, b := Parts(cpts, n - 1).value, PartOf(cpts, n - 1).value;
      PartsDistinct(cpts, n - 1);
      PartDistinct(cpts[n - 1].sections, n - 1, |cpts| - 1, PagesBefore(cpts, n - 1) * PAGE);
      PartsOrigins(cpts, n - 1);
      PartFrom(cpts, n - 1);
      PartsApart(cpts, a, b, n - 1);
      JoinDistinct(a, b);
    }
  }

  lemma SpecialNames()
    ensures !HasCpu("system") && !HasCpu("Globals")
  {
    NoC("system");
    NoC("Globals");
  }

  lemma {:induction false} NoC(s: string)
    requires 'c' !in s
    ensures !HasCpu(s)
  {
    if s != [] {
      CpuPu(s);
      NoC(s[1..]);
    }
  }

  lemma NotSpecial(cpts: seq<Checkpoint>, t: Section)
    requires Parts(cpts, |cpts|).Some? && t in Parts(cpts, |cpts|).value
    ensures !Special(t.name)
  {
    PartsOrigins(cpts, |cpts|);
    var i: nat, k: nat :| i < |cpts| && Origin(cpts, t, i, k);
    OutNameHasCpu(i, |cpts| - 1, cpts[i].sections[k].name);
    SpecialNames();
  }

  lemma ConfigShape(cpts: seq<Checkpoint>, memorySize: int)
    requires Mergeable(cpts) && MergedConfig(cpts, memorySize).Some?
    ensures var parts, config := Parts(cpts, |cpts|).value, MergedConfig(cpts, memorySize).value;
            && |config| == |parts| + 2 && config[|parts|].name == "system" && config[|parts| + 1].name == "Globals"
            && (forall k :: 0 <= k < |parts| ==> config[k].name == parts[k].name)
            && (forall k :: 0 <= k < |parts| && parts[k].name != STORE ==> config[k] == parts[k])
  {
  }

  /** If no input repeats a section name, neither does the merged configuration. */
  lemma MergedNamesDistinct(cpts: seq<Checkpoint>, memorySize: int)
    requires Mergeable(cpts) && MergedConfig(cpts, memorySize).Some?
    requires forall i :: 0 <= i < |cpts| ==> NamesDistinct(cpts[i].sections)
    ensures NamesDistinct(MergedConfig(cpts, memorySize).value)
  {
    var parts := Parts(cpts, |cpts|).value;
    PartsDistinct(cpts, |cpts|);
    forall t | t in parts
      ensures !Special(t.name)
    {
      NotSpecial(cpts, t);
    }
    ConfigShape(cpts, memorySize);
    AppendSpecials(parts, MergedConfig(cpts, memorySize).value);
  }

  lemma AppendSpecials(parts: seq<Section>, config: seq<Section>)
    requires NamesDistinct(parts) && (forall t :: t in parts ==> !Special(t.name))
    requires |config| == |parts| + 2 && config[|parts|].name == "system" && config[|parts| + 1].name == "Globals"
    requires forall k :: 0 <= k < |parts| ==> config[k].name == parts[k].name
    ensures NamesDistinct(config)
  {
    forall j, k | 0 <= j < k < |config|
      ensures config[j].name != config[k].name
    {
      if j < |parts| {
        assert parts[j] in parts;
      }
    }
  }

  lemma {:induction false} FindDistinct(ss: seq<Section>, k: nat)
    requires NamesDistinct(ss) && k < |ss|
    ensures Find(ss, ss[k].name) == Some(ss[k])
  {
    if k < |ss| - 1 {
      FindDistinct(ss[..|ss| - 1], k);
    }
  }

  // ---------- addresses ----------

  lemma {:induction false} MovedItems(items: seq<Item>, base: int)
    requires MoveItems(items, base).Some?
    ensures forall k :: k != PADDR ==> Lookup(MoveItems(items, base).value, k) == Lookup(items, k)
    ensures Lookup(items, PADDR).Some? ==>
              && MoveAddress(Lookup(items, PADDR).value, base).Some?
              && Lookup(MoveItems(items, base).value, PADDR) == MoveAddress(Lookup(items, PADDR).value, base)
  {
    if items != [] {
      var n := |items| - 1;
      MovedItems(items[..n], base);
      var init, r := MoveItems(items[..n], base).value, MoveItems(items, base).value;
      assert r[..|init|] == init;
    }
  }

  /** The options agree, but for the address and the process number. */
  ghost predicate SameOptions(a: seq<Item>, b: seq<Item>) {
    forall key :: key != PADDR && key != M5_PID ==> Lookup(a, key) == Lookup(b, key)
  }

  /** What becomes of a per-CPU section: every option is kept, the physical address is moved. */
  lemma CpuSectionItems(s: Section, i: nat, width: nat, base: int)
    requires CpuSection(s, i, width, base).Some?
    ensures var t := CpuSection(s, i, width, base).value;
            && SameOptions(t.items, s.items)
            && (Lookup(s.items, PADDR).Some? ==>
                  && MoveAddress(Lookup(s.items, PADDR).value, base).Some?
                  && Lookup(t.items, PADDR) == MoveAddress(Lookup(s.items, PADDR).value, base))
            && Lookup(t.items, M5_PID) == (if IsFdMap(s.name) then Some(Decimal(i)) else Lookup(s.items, M5_PID))
  {
    MovedItems(s.items, base);
  }

  lemma {:induction false} PartContains(ss: seq<Section>, k: nat, i: nat, last: nat, base: int) returns (p: nat)
    requires Part(ss, i, last, base).Some? && k < |ss| && HasCpu(ss[k].name)
    ensures CpuSection(ss[k], i, |Decimal(last)|, base).Some?
    ensures p < |Part(ss, i, last, base).value|
    ensures Part(ss, i, last, base).value[p] == CpuSection(ss[k], i, |Decimal(last)|, base).value
  {
    if k == |ss| - 1 {
      p := |Part(ss, i, last, base).value| - 1;
    } else {
      p := PartContains(ss[..|ss| - 1], k, i, last, base);
    }
  }

  lemma {:induction false} PartsContain(cpts: seq<Checkpoint>, n: nat, i: nat, k: nat) returns (p: nat)
    requires i < n <= |cpts| && Parts(cpts, n).Some? && k < |cpts[i].sections| && HasCpu(cpts[i].sections[k].name)
    ensures var t := CpuSection(cpts[i].sections[k], i, |Decimal(|cpts| - 1)|, PagesBefore(cpts, i) * PAGE);
            t.Some? && p < |Parts(cpts, n).value| && Parts(cpts, n).value[p] == t.value
  {
    if i == n - 1 {
      p := PartContains(cpts[i].sections, k, i, |cpts| - 1, PagesBefore(cpts, i) * PAGE);
      p := p + |Parts(cpts, n - 1).value|;
    } else {
      p := PartsContain(cpts, n - 1, i, k);
    }
  }

  /** The checkpoints merge, none of them repeats a section name, and `config` is the result. */
  ghost predicate CleanMerge(cpts: seq<Checkpoint>, memorySize: int, config: seq<Section>) {
    && Mergeable(cpts) && MergedConfig(cpts, memorySize) == Some(config)
    && forall j :: 0 <= j < |cpts| ==> NamesDistinct(cpts[j].sections)
  }

  lemma CpuSectionFound(cpts: seq<Checkpoint>, memorySize: int, config: seq<Section>, i: nat, k: nat)
    requires CleanMerge(cpts, memorySize, config)
    requires i < |cpts| && k < |cpts[i].sections| && HasCpu(cpts[i].sections[k].name)
    ensures var s := cpts[i].sections[k];
            var t := CpuSection(s, i, |Decimal(|cpts| - 1)|, PagesBefore(cpts, i) * PAGE);
            t.Some? && Find(config, OutName(i, |cpts| - 1, s.name)) == t
  {
    var s := cpts[i].sections[k];
    var p := PartsContain(cpts, |cpts|, i, k);
    MergedNamesDistinct(cpts, memorySize);
    ConfigShape(cpts, memorySize);
    OutNameHasCpu(i, |cpts| - 1, s.name);
    NotStore(config[p].name);
    FindDistinct(config, p);
  }

  lemma NotStore(name: string)
    requires HasCpu(name)
    ensures name != STORE
  {
    NoC(STORE);
  }

  /** The physical address that a section states. */
  function Address(s: Section): Option<int> {
    var v := Lookup(s.items, PADDR);
    if v.None? then None else ParseInt(v.value)
  }

  lemma MoveAddressMeaning(text: string, base: int)
    requires MoveAddress(text, base).Some?
    ensures ParseInt(text).Some? && ParseInt(MoveAddress(text, base).value) == Some(ParseInt(text).value + base)
  {
    ParseSigned(ParseInt(text).value + base);
  }

  /** Section `t` is `s` with its address moved by `base`. */
  ghost predicate MovedBy(s: Section, t: Section, base: int) {
    && SameOptions(t.items, s.items)
    && (Lookup(s.items, PADDR).Some? ==>
          && MoveAddress(Lookup(s.items, PADDR).value, base).Some?
          && Lookup(t.items, PADDR) == MoveAddress(Lookup(s.items, PADDR).value, base))
  }

  lemma MovedAddress(s: Section, t: Section, base: int)
    requires MovedBy(s, t, base) && Lookup(s.items, PADDR).Some?
    ensures Address(s).Some? && Address(t) == Some(Address(s).value + base)
  {
    MoveAddressMeaning(Lookup(s.items, PADDR).value, base);
  }

  /** The moved section is found under its new name, with all its other options and a moved address. */
  lemma SectionPreserved(cpts: seq<Checkpoint>, memorySize: int, config: seq<Section>, i: nat, k: nat)
    returns (t: Section)
    requires CleanMerge(cpts, memorySize, config)
    requires i < |cpts| && k < |cpts[i].sections| && HasCpu(cpts[i].sections[k].name)
    ensures Find(config, OutName(i, |cpts| - 1, cpts[i].sections[k].name)) == Some(t)
    ensures MovedBy(cpts[i].sections[k], t, PagesBefore(cpts, i) * PAGE)
  {
    var base, width := PagesBefore(cpts, i) * PAGE, |Decimal(|cpts| - 1)|;
    CpuSectionFound(cpts, memorySize, config, i, k);
    t := CpuSection(cpts[i].sections[k], i, width, base).value;
    CpuSectionItems(cpts[i].sections[k], i, width, base);
  }

  /**
   Merging preserves what an address means: the address of a moved section of checkpoint `i`, plus any
   offset, holds in the merged memory the byte that the old address held in the old memory.
   */
  lemma TranslationPreserved(cpts: seq<Checkpoint>, memorySize: int, i: nat, s: Section, t: Section, o: int)
    returns (a: int, b: int)
    requires i < |cpts| && AllHold(cpts, |cpts|)
    requires MovedBy(s, t, PagesBefore(cpts, i) * PAGE) && Lookup(s.items, PADDR).Some?
    ensures Address(s) == Some(a) && Address(t) == Some(b)
    ensures var memory := MergedMemory(cpts, memorySize);
            0 <= a + o < cpts[i].pages * PAGE ==>
              && a + o < |cpts[i].store| && 0 <= b + o < |memory|
              && memory[b + o] == cpts[i].store[a + o]
  {
    MovedAddress(s, t, PagesBefore(cpts, i) * PAGE);
    a, b := Address(s).value, Address(t).value;
    if 0 <= a + o < cpts[i].pages * PAGE {
      MergedByte(cpts, memorySize, i, a + o);
    }
  }

  // ---------- the rest ----------

  /** The merged current tick is the latest of all, and none of them is later. */
  lemma {:induction false} LatestTick(cpts: seq<Checkpoint>, n: nat)
    requires n <= |cpts|
    ensures forall i :: 0 <= i < n && cpts[i].curTick.Some? ==>
              cpts[i].curTick.value <= MaxTick(cpts, n)
    ensures MaxTick(cpts, n) == 0 ||
            exists i :: 0 <= i < n && cpts[i].curTick == Some(MaxTick(cpts, n))
  {
    if n > 0 {
      LatestTick(cpts, n - 1);
    }
  }
}
