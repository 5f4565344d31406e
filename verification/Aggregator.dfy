/**
 Merging checkpoints: the memory images are put one behind the other, physical addresses are moved
 accordingly, per-CPU sections are renamed, and the rest is taken from the last checkpoint.
 */
module Aggregator {
  import opened Text
  import opened Framing
  import opened SectionNames

  datatype Key = Key(text: string)
  datatype Item = Item(key: Key, value: string)
  datatype Section = Section(name: string, items: seq<Item>)

  /**
   A checkpoint: the sections of its configuration, the numbers read from two of them (`pagePtr` of
   "system" and, if there is such a section, `curTick` of "Globals"), and its uncompressed memory.
   */
  datatype Checkpoint = Checkpoint(sections: seq<Section>, pages: nat, curTick: Option<int>, store: Bytes)

  datatype Merged = Merged(config: seq<Section>, memory: Bytes) | Failed

  const PADDR := Key("paddr")
  const M5_PID := Key("M5_pid")
  const PAGE_PTR := Key("pagePtr")
  const NEXT_PID := Key("nextPID")
  const CUR_TICK := Key("curTick")
  const STORE := "system.physmem.store0"
  const RANGE_SIZE := Key("range_size")

  const PAGE := 4096
  const DUMMY: Bytes := seq(PAGE, _ => 0x30)  // 4096 times the character '0'

  // ---------- configuration files ----------

  function Lookup(items: seq<Item>, key: Key): Option<string> {
    if items == [] then None
    else if items[|items| - 1].key == key then Some(items[|items| - 1].value)
    else Lookup(items[..|items| - 1], key)
  }

  function Find(sections: seq<Section>, name: string): Option<Section> {
    if sections == [] then None
    else if sections[|sections| - 1].name == name then Some(sections[|sections| - 1])
    else Find(sections[..|sections| - 1], name)
  }

  /** Sets an option, replacing the value it has already. */
  function SetItem(items: seq<Item>, key: Key, value: string): (r: seq<Item>)
    ensures Lookup(r, key) == Some(value)
    ensures forall k :: k != key ==> Lookup(r, k) == Lookup(items, k)
  {
    if items == [] then
      assert [Item(key, value)][..0] == [];
      [Item(key, value)]
    else
      var init, last := items[..|items| - 1], items[|items| - 1];
      if last.key == key then
        assert (init + [Item(key, value)])[..|init|] == init;
        init + [Item(key, value)]
      else
        var r := SetItem(init, key, value);
        assert (r + [last])[..|r|] == r;
        r + [last]
  }

  function PagesBefore(cpts: seq<Checkpoint>, i: nat): (n: nat)
    requires i <= |cpts|
  {
    if i == 0 then 0 else PagesBefore(cpts, i - 1) + cpts[i - 1].pages
  }

  // ---------- one checkpoint's part of the merged configuration ----------

  /** `re.search("workload.FdMap256$", s)`. */
  predicate IsFdMap(s: string) {
    |s| >= 17 && s[|s| - 17..|s| - 9] == "workload" && s[|s| - 9] != '\n' && s[|s| - 8..] == "FdMap256"
  }

  function MoveAddress(text: string, base: int): Option<string> {
    var p := ParseInt(text);
    if p.None? then None else Some(Signed(p.value + base))
  }

  /** The items of a per-CPU section, physical addresses moved by `base` bytes. */
  function MoveItems(items: seq<Item>, base: int): Option<seq<Item>> {
    if items == [] then Some([])
    else
      var init, last := MoveItems(items[..|items| - 1], base), items[|items| - 1];
      if init.None? then None
      else if last.key != PADDR then Some(init.value + [last])
      else
        var v := MoveAddress(last.value, base);
        if v.None? then None else Some(init.value + [Item(PADDR, v.value)])
  }

  function CpuSection(s: Section, i: nat, width: nat, base: int): Option<Section> {
    var items := MoveItems(s.items, base);
    if items.None? then None
    else Some(Section(Rename(s.name, Zfill(i, width)),
                      if IsFdMap(s.name) then SetItem(items.value, M5_PID, Decimal(i)) else items.value))
  }

  /** What checkpoint `i` contributes, in order; `last` is the index of the last checkpoint. */
  function Part(sections: seq<Section>, i: nat, last: nat, base: int): Option<seq<Section>> {
    if sections == [] then Some([])
    else
      var init, s := Part(sections[..|sections| - 1], i, last, base), sections[|sections| - 1];
      if init.None? then None
      else if HasCpu(s.name) then
        var r := CpuSection(s, i, |Decimal(last)|, base);
        if r.None? then None else Some(init.value + [r.value])
      else if s.name == "system" || s.name == "Globals" || i != last then init
      else Some(init.value + [s])
  }

  /** The latest current tick of the first `i` checkpoints. */
  function MaxTick(cpts: seq<Checkpoint>, i: nat): (m: int)
    requires i <= |cpts|
    ensures m >= 0
  {
    if i == 0 then 0
    else
      var m, t := MaxTick(cpts, i - 1), cpts[i - 1].curTick;
      if t.Some? && t.value > m then t.value else m
  }

  // ---------- the program ----------

  /** One pass over the sections of a checkpoint. */
  method RenameSections(c: Checkpoint, i: nat, last: nat, base: int) returns (r: Option<seq<Section>>)
    ensures r == Part(c.sections, i, last, base)
  {
    var width, part := |Decimal(last)|, [];
    for k := 0 to |c.sections|
      invariant Part(c.sections[..k], i, last, base) == Some(part)
    {
      assert c.sections[..k + 1][..k] == c.sections[..k];
      var s := c.sections[k];
      if HasCpu(s.name) {
        var t := CpuSection(s, i, width, base);
        if t.None? {
          PartNone(c.sections, k + 1, i, last, base);
          return None;
        }
        part := part + [t.value];
      } else if s.name == "system" || s.name == "Globals" {
      } else if i == last {
        part := part + [s];
      }
    }
    assert c.sections[..|c.sections|] == c.sections;
    r := Some(part);
  }

  lemma {:induction false} PartNone(sections: seq<Section>, k: nat, i: nat, last: nat, base: int)
    requires k <= |sections| && Part(sections[..k], i, last, base).None?
    ensures Part(sections, i, last, base).None?
    decreases |sections| - k
  {
    if k < |sections| {
      assert sections[..k + 1][..k] == sections[..k];
      PartNone(sections, k + 1, i, last, base);
    } else {
      assert sections[..k] == sections;
    }
  }

  function Min(a: int, b: int): int { if a < b then a else b }

  /** The part of a store that is copied: the declared pages, as far as the store holds them. */
  function Image(c: Checkpoint): Bytes { c.store[..Min(c.pages * PAGE, |c.store|)] }

  method CopyPage(f: InFile, out: OutFile)
    requires f.Valid()
    modifies f, out
    ensures f.Valid() && f.pos == Min(old(f.pos) + PAGE, |f.data|)
    ensures out.data == old(out.data) + f.data[old(f.pos)..f.pos]
  {
    var page := f.Read(PAGE);
    out.Write(page);
  }

  lemma PrefixGrows(d: Bytes, s: Bytes, i: nat, j: nat)
    requires i <= j <= |s|
    ensures d + s[..i] + s[i..j] == d + s[..j]
  {
  }

  /** Copies `pages` pages of a store, one read per page. */
  method CopyPages(store: Bytes, pages: nat, out: OutFile)
    modifies out
    ensures out.data == old(out.data) + store[..Min(pages * PAGE, |store|)]
  {
    var f := new InFile(store);
    assert f.Rest() == store;
    var x := 0;
    while x < pages
      invariant 0 <= x <= pages && f.Valid() && fresh(f)
      invariant f.data == store && f.pos == Min(x * PAGE, |store|)
      invariant out.data == old(out.data) + store[..f.pos]
    {
      ghost var before := f.pos;
      CopyPage(f, out);
      PrefixGrows(old(out.data), store, before, f.pos);
      x := x + 1;
    }
  }

  function Images(cpts: seq<Checkpoint>, i: nat): Bytes
    requires i <= |cpts|
  {
    if i == 0 then [] else Images(cpts, i - 1) + Image(cpts[i - 1])
  }

  function Parts(cpts: seq<Checkpoint>, i: nat): Option<seq<Section>>
    requires i <= |cpts|
  {
    if i == 0 then Some([])
    else
      var init := Parts(cpts, i - 1);
      var p := Part(cpts[i - 1].sections, i - 1, |cpts| - 1, PagesBefore(cpts, i - 1) * PAGE);
      if init.None? || p.None? then None else Some(init.value + p.value)
  }

  /** Pages of the merged memory: those of the images, and more until `memorySize` is reached. */
  function PaddedPages(pages: nat, memorySize: int): (n: nat)
    ensures n >= pages && n * PAGE >= memorySize
    ensures n == pages || (n - 1) * PAGE < memorySize
    decreases memorySize - pages * PAGE
  {
    if pages * PAGE < memorySize then PaddedPages(pages + 1, memorySize) else pages
  }

  function Padding(n: nat): Bytes { seq(n * PAGE, _ => 0x30) }

  method Pad(out: OutFile, pages: nat, memorySize: int) returns (n: nat)
    modifies out
    ensures n == PaddedPages(pages, memorySize)
    ensures out.data == old(out.data) + Padding(n - pages)
  {
    n := pages;
    var fileSize := pages * PAGE;
    while fileSize < memorySize
      invariant n >= pages && fileSize == n * PAGE && PaddedPages(n, memorySize) == PaddedPages(pages, memorySize)
      invariant out.data == old(out.data) + Padding(n - pages)
      decreases memorySize - fileSize
    {
      assert Padding(n + 1 - pages) == Padding(n - pages) + DUMMY;
      out.Write(DUMMY);
      fileSize := fileSize + PAGE;
      n := n + 1;
    }
  }

  /** The two sections at the end of the merged configuration, and the size of the memory. */
  function Finish(parts: seq<Section>, pages: nat, padded: nat, count: nat, tick: int): Option<seq<Section>>
    requires tick >= 0
  {
    if Find(parts, STORE).None? then None
    else
      Some(SetInSection(parts, STORE, RANGE_SIZE, Decimal(padded * PAGE))
           + [Section("system", [Item(PAGE_PTR, Decimal(pages)), Item(NEXT_PID, Decimal(count))]),
              Section("Globals", [Item(CUR_TICK, Decimal(tick))])])
  }

  /** Sets an option in the last section of the given name. */
  function SetInSection(sections: seq<Section>, name: string, key: Key, value: string): (r: seq<Section>)
    ensures |r| == |sections|
    ensures forall k :: 0 <= k < |r| ==> r[k].name == sections[k].name
    ensures forall k :: 0 <= k < |r| && sections[k].name != name ==> r[k] == sections[k]
  {
    if sections == [] then []
    else
      var init, s := sections[..|sections| - 1], sections[|sections| - 1];
      if s.name == name then init + [Section(name, SetItem(s.items, key, value))]
      else SetInSection(init, name, key, value) + [s]
  }

  /** Every physical address in the inputs is a number. */
  predicate Mergeable(cpts: seq<Checkpoint>) { Parts(cpts, |cpts|).Some? }

  /** The loop over the checkpoints: configuration parts, page count, latest tick and memory images. */
  method MergeAll(cpts: seq<Checkpoint>, out: OutFile)
    returns (ok: bool, pagePtr: nat, maxTick: int, config: seq<Section>)
    requires cpts != [] && out.data == []
    modifies out
    ensures ok <==> Mergeable(cpts)
    ensures ok ==> pagePtr == PagesBefore(cpts, |cpts|) && maxTick == MaxTick(cpts, |cpts|)
    ensures ok ==> Parts(cpts, |cpts|) == Some(config) && out.data == Images(cpts, |cpts|)
  {
    pagePtr, maxTick, config := 0, 0, [];
    for i := 0 to |cpts|
      invariant pagePtr == PagesBefore(cpts, i) && maxTick == MaxTick(cpts, i)
      invariant Parts(cpts, i) == Some(config) && out.data == Images(cpts, i)
    {
      var part := RenameSections(cpts[i], i, |cpts| - 1, pagePtr * PAGE);
      if part.None? {
        PartsNone(cpts, i + 1);
        ok := false;
        return;
      }
      config := config + part.value;
      if cpts[i].curTick.Some? && cpts[i].curTick.value > maxTick {
        maxTick := cpts[i].curTick.value;
      }
      var pages := cpts[i].pages;
      pagePtr := pagePtr + pages;
      CopyPages(cpts[i].store, pages, out);
    }
    ok := true;
  }

  /** The merged memory: the images one behind the other, then padding. */
  function MergedMemory(cpts: seq<Checkpoint>, memorySize: int): Bytes {
    var pages := PagesBefore(cpts, |cpts|);
    Images(cpts, |cpts|) + Padding(PaddedPages(pages, memorySize) - pages)
  }

  function MergedConfig(cpts: seq<Checkpoint>, memorySize: int): Option<seq<Section>>
    requires Mergeable(cpts)
  {
    var n := |cpts|;
    var pages := PagesBefore(cpts, n);
    Finish(Parts(cpts, n).value, pages, PaddedPages(pages, memorySize), n, MaxTick(cpts, n))
  }

  method Aggregate(cpts: seq<Checkpoint>, memorySize: int) returns (m: Merged)
    requires cpts != []
    ensures m == if Mergeable(cpts) && MergedConfig(cpts, memorySize).Some?
                 then Merged(MergedConfig(cpts, memorySize).value, MergedMemory(cpts, memorySize)) else Failed
  {
    var out := new OutFile();
    var ok, pagePtr, maxTick, config := MergeAll(cpts, out);
    if !ok {
      return Failed;
    }
    var padded := Pad(out, pagePtr, memorySize);
    var finished := Finish(config, pagePtr, padded, |cpts|, maxTick);
    m := if finished.None? then Failed else Merged(finished.value, out.data);
  }

  lemma {:induction false} PartsNone(cpts: seq<Checkpoint>, k: nat)
    requires k <= |cpts| && Parts(cpts, k).None?
    ensures Parts(cpts, |cpts|).None?
    decreases |cpts| - k
  {
    if k < |cpts| {
      PartsNone(cpts, k + 1);
    }
  }
}
