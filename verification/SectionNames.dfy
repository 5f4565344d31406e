/**
 Renaming the sections of a checkpoint: every "cpu" in a name is followed by the number of the
 checkpoint, zero-filled to a fixed width. Different sections never get the same name that way.
 */
module SectionNames {
  import opened Text

  predicate StartsWithCpu(s: string) { |s| >= 3 && s[..3] == "cpu" }

  /** `re.search("cpu", s)`. */
  predicate HasCpu(s: string) { s != [] && (StartsWithCpu(s) || HasCpu(s[1..])) }

  /** `re.sub("cpu", "cpu" + d, s)`. */
  function Rename(s: string, d: string): string {
    if StartsWithCpu(s) then "cpu" + d + Rename(s[3..], d)
    else if s == [] then []
    else [s[0]] + Rename(s[1..], d)
  }

  /** `str(i).zfill(w)`. */
  function Zfill(i: nat, w: nat): (r: string)
    ensures forall k :: 0 <= k < |r| ==> IsDigit(r[k])
    ensures |r| == if |Decimal(i)| < w then w else |Decimal(i)|
  {
    var s := Decimal(i);
    seq(if |s| < w then w - |s| else 0, _ => '0') + s
  }

  // ---------- the renaming can be undone ----------

  /** Drops the `w` characters behind every "cpu". */
  function Unrename(s: string, w: nat): string {
    if StartsWithCpu(s) && |s| >= 3 + w then "cpu" + Unrename(s[3 + w..], w)
    else if s == [] then []
    else [s[0]] + Unrename(s[1..], w)
  }

  /** The `w` characters behind the first "cpu". */
  function IndexText(s: string, w: nat): string {
    if StartsWithCpu(s) && |s| >= 3 + w then s[3..3 + w]
    else if s == [] then []
    else IndexText(s[1..], w)
  }

  predicate StartsWithPu(s: string) { |s| >= 2 && s[0] == 'p' && s[1] == 'u' }

  lemma CpuPu(s: string)
    ensures StartsWithCpu(s) <==> s != [] && s[0] == 'c' && StartsWithPu(s[1..])
  {
    if |s| >= 3 {
      assert s[..3] == [s[0], s[1], s[2]];
    }
  }

  lemma FirstKept(s: string, d: string)
    ensures (s == [] <==> Rename(s, d) == []) && (s != [] ==> Rename(s, d)[0] == s[0])
  {
    CpuPu(s);
  }

  /** The renaming does not create a "cpu" where there was none. */
  lemma PlainHeadStays(s: string, d: string)
    requires s != [] && !StartsWithCpu(s)
    ensures !StartsWithCpu(Rename(s, d)) && Rename(s, d)[1..] == Rename(s[1..], d)
  {
    var t := s[1..];
    FirstKept(t, d);
    CpuPu(s);
    CpuPu(Rename(s, d));
    if t != [] {
      CpuPu(t);
      FirstKept(t[1..], d);
    }
  }

  lemma CpuHead(s: string, d: string)
    requires StartsWithCpu(s)
    ensures var r := Rename(s, d);
            StartsWithCpu(r) && |r| >= 3 + |d| && r[3..3 + |d|] == d && r[3 + |d|..] == Rename(s[3..], d)
  {
  }

  lemma {:induction false} RenameUndone(s: string, d: string)
    ensures Unrename(Rename(s, d), |d|) == s
  {
    if StartsWithCpu(s) {
      CpuHead(s, d);
      RenameUndone(s[3..], d);
      UndoneAfterCpu(Rename(s, d), s, |d|);
    } else if s != [] {
      PlainHeadStays(s, d);
      FirstKept(s, d);
      RenameUndone(s[1..], d);
      UndoneAfterPlain(Rename(s, d), s, |d|);
    }
  }

  lemma UndoneAfterCpu(r: string, s: string, w: nat)
    requires StartsWithCpu(s) && StartsWithCpu(r) && |r| >= 3 + w && Unrename(r[3 + w..], w) == s[3..]
    ensures Unrename(r, w) == s
  {
    assert s == "cpu" + s[3..];
  }

  lemma UndoneAfterPlain(r: string, s: string, w: nat)
    requires s != [] && r != [] && !StartsWithCpu(r) && r[0] == s[0] && Unrename(r[1..], w) == s[1..]
    ensures Unrename(r, w) == s
  {
    assert s == [s[0]] + s[1..];
  }

  lemma {:induction false} IndexRecovered(s: string, d: string)
    requires HasCpu(s)
    ensures IndexText(Rename(s, d), |d|) == d && HasCpu(Rename(s, d))
  {
    if StartsWithCpu(s) {
      CpuHead(s, d);
    } else {
      PlainHeadStays(s, d);
      FirstKept(s, d);
      IndexRecovered(s[1..], d);
    }
  }

  // ---------- fixed width ----------

  lemma {:induction false} DecimalLengthMono(i: nat, n: nat)
    requires i <= n
    ensures |Decimal(i)| <= |Decimal(n)|
  {
    if i >= 10 {
      DecimalLengthMono(i / 10, n / 10);
    }
  }

  lemma {:induction false} LeadingZeros(k: nat, s: string)
    requires forall i :: 0 <= i < |s| ==> IsDigit(s[i])
    ensures Value(seq(k, _ => '0') + s) == Value(s)
    decreases |s| + k
  {
    var z := seq(k, _ => '0');
    if s != [] {
      LeadingZeros(k, s[..|s| - 1]);
      assert (z + s)[..|z + s| - 1] == z + s[..|s| - 1];
    } else if k > 0 {
      LeadingZeros(k - 1, s);
      assert (z + s)[..k - 1] == seq(k - 1, _ => '0') + s;
    } else {
      assert z + s == s;
    }
  }

  lemma ZfillInjective(i: nat, j: nat, w: nat)
    requires Zfill(i, w) == Zfill(j, w)
    ensures i == j
  {
    ZfillValue(i, w);
    ZfillValue(j, w);
  }

  lemma ZfillValue(i: nat, w: nat)
    ensures Value(Zfill(i, w)) == i
  {
    var s := Decimal(i);
    LeadingZeros(if |s| < w then w - |s| else 0, s);
    ValueDecimal(i);
  }

  /** With the width of the largest index, the pair of index and section name is determined by the new name. */
  lemma RenameInjective(i: nat, s: string, j: nat, t: string, last: nat)
    requires i <= last && j <= last && HasCpu(s) && HasCpu(t)
    requires Rename(s, Zfill(i, |Decimal(last)|)) == Rename(t, Zfill(j, |Decimal(last)|))
    ensures i == j && s == t
  {
    var w := |Decimal(last)|;
    DecimalLengthMono(i, last);
    DecimalLengthMono(j, last);
    IndexRecovered(s, Zfill(i, w));
    IndexRecovered(t, Zfill(j, w));
    ZfillInjective(i, j, w);
    RenameUndone(s, Zfill(i, w));
    RenameUndone(t, Zfill(j, w));
  }
}
