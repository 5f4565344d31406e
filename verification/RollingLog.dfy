/** The rolling log: a list of lines that fills up and is then overwritten in a circle. */
module RollingLog {

  /** What a dump prints: from the index to the end, then from the start to the index. */
  function Dump<T>(lines: seq<T>, idx: nat): seq<T>
    requires idx <= |lines|
  {
    lines[idx..] + lines[..idx]
  }

  /** The last `n` lines, or all of them if there are fewer. */
  function Last<T>(all: seq<T>, n: nat): seq<T> { if |all| <= n then all else all[|all| - n..] }

  /** What a log of `target` lines keeps: a size below one never makes it wrap around. */
  function Kept<T>(all: seq<T>, target: int): seq<T> { if target < 1 then all else Last(all, target) }

  lemma DumpAfter<T>(lines: seq<T>, idx: nat, line: T)
    requires idx < |lines|
    ensures Dump(lines[idx := line], if idx == |lines| - 1 then 0 else idx + 1) == Dump(lines, idx)[1..] + [line]
  {
    assert Dump(lines, idx)[1..] == lines[idx + 1..] + lines[..idx];
    if idx == |lines| - 1 {
      assert lines[idx := line] == lines[..idx] + [line];
    } else {
      assert lines[idx := line][..idx + 1] == lines[..idx] + [line];
    }
  }

  lemma LastAfter<T>(all: seq<T>, n: nat, line: T)
    requires 1 <= n <= |all|
    ensures Last(all + [line], n) == Last(all, n)[1..] + [line]
  {
    assert Last(all, n) == all[|all| - n..];
  }

  /** Once full, the index is the place of the oldest line, which the next line replaces. */
  lemma Overwritten<T>(lines: seq<T>, idx: nat, all: seq<T>, line: T)
    requires idx < |lines| <= |all| && Dump(lines, idx) == Last(all, |lines|)
    ensures Dump(lines[idx := line], if idx == |lines| - 1 then 0 else idx + 1) == Last(all + [line], |lines|)
  {
    DumpAfter(lines, idx, line);
    LastAfter(all, |lines|, line);
  }

  /** The buffer holds the last lines of what was read, as a dump would print them. */
  ghost predicate Holds<T>(lines: seq<T>, idx: nat, read: seq<T>, target: int) {
    idx <= |lines| && Dump(lines, idx) == Kept(read, target)
  }

  /** Every dump so far printed the last lines read before it. */
  ghost predicate Right<T>(dumps: seq<seq<T>>, incoming: seq<T>, i: nat, target: int) {
    |dumps| == i + 1 && i <= |incoming| && forall j :: 0 <= j <= i ==> dumps[j] == Kept(incoming[..j], target)
  }

  lemma OneMoreDump<T>(dumps: seq<seq<T>>, incoming: seq<T>, i: nat, target: int, lines: seq<T>, idx: nat)
    requires Right(dumps, incoming, i, target) && i < |incoming| && Holds(lines, idx, incoming[..i + 1], target)
    ensures Right(dumps + [Dump(lines, idx)], incoming, i + 1, target)
  {
  }

  lemma PrefixLast<T>(incoming: seq<T>, j: nat, target: int)
    requires j <= |incoming|
    ensures Kept(incoming[..j], target) == incoming[if 1 <= target < j then j - target else 0..j]
  {
  }

  /** Each dump as a stretch of the lines read. */
  lemma DumpsAre<T>(dumps: seq<seq<T>>, incoming: seq<T>, target: int)
    requires Right(dumps, incoming, |incoming|, target)
    ensures forall j :: 0 <= j <= |incoming| ==> dumps[j] == incoming[if 1 <= target < j then j - target else 0..j]
  {
    forall j | 0 <= j <= |incoming| ensures dumps[j] == incoming[if 1 <= target < j then j - target else 0..j] {
      PrefixLast(incoming, j, target);
    }
  }

  /** The first loop: lines are appended until there are `target` of them. */
  method Fill<T>(target: int, incoming: seq<T>) returns (lines: seq<T>, idx: nat, i: nat, dumps: seq<seq<T>>)
    ensures Right(dumps, incoming, i, target) && Holds(lines, idx, incoming[..i], target)
    ensures i < |incoming| ==> 1 <= |lines| == target == i && idx == 0
  {
    idx, lines, i := 0, [], 0;
    dumps := [Dump(lines, idx)];
    while i < |incoming|
      invariant Right(dumps, incoming, i, target)
      invariant (target < 1 || i < target) && idx == |lines| && lines == incoming[..i]
    {
      lines := lines + [incoming[i]];
      assert lines == incoming[..i + 1];
      if idx == target - 1 {
        idx := 0;
        OneMoreDump(dumps, incoming, i, target, lines, idx);
        dumps, i := dumps + [Dump(lines, idx)], i + 1;
        return;
      }
      idx := idx + 1;
      OneMoreDump(dumps, incoming, i, target, lines, idx);
      dumps, i := dumps + [Dump(lines, idx)], i + 1;
    }
  }

  /**
   Reads all lines, keeping the last `target`, or all of them if that is below one. A dump may be asked for
   before the first line and after each; `dumps[i]` is what it prints after `i` lines, and the last one is printed
   at the end.
   */
  method Roll<T>(target: int, incoming: seq<T>) returns (dumps: seq<seq<T>>)
    ensures Right(dumps, incoming, |incoming|, target)
    ensures |dumps| == |incoming| + 1
    ensures forall j :: 0 <= j <= |incoming| ==>
              dumps[j] == incoming[if 1 <= target < j then j - target else 0..j]
  {
    var lines: seq<T>, idx: nat, i: nat;
    lines, idx, i, dumps := Fill(target, incoming);
    while i < |incoming|
      invariant Right(dumps, incoming, i, target) && Holds(lines, idx, incoming[..i], target)
      invariant i < |incoming| ==> |lines| == target <= i && idx < target
    {
      Overwritten(lines, idx, incoming[..i], incoming[i]);
      assert incoming[..i + 1] == incoming[..i] + [incoming[i]];
      lines := lines[idx := incoming[i]];
      idx := if idx == target - 1 then 0 else idx + 1;
      OneMoreDump(dumps, incoming, i, target, lines, idx);
      dumps, i := dumps + [Dump(lines, idx)], i + 1;
    }
    DumpsAre(dumps, incoming, target);
  }
}
