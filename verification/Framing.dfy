/**
 Length-prefixed messages in a byte stream. The prefix is a base-128 varint as in the section
 "Base 128 Varints" of the Protocol Buffers encoding specification, least significant group first,
 the top bit of a byte set if another one follows.
 */
module Framing {
  import opened Arith
  import opened Bits

  type byte = b: int | 0 <= b < 256
  type Bytes = seq<byte>

  const MASK := 0xffff_ffff
  const WORD := 0x1_0000_0000            // 2^32
  const MAX_SIGNED := 0x7fff_ffff_ffff_ffff
  const DWORD := 0x1_0000_0000_0000_0000 // 2^64

  // ---------- files ----------

  class InFile {
    const data: Bytes
    var pos: nat

    ghost predicate Valid()
      reads this
    {
      pos <= |data|
    }

    ghost function Rest(): Bytes
      requires Valid()
      reads this
    {
      data[pos..]
    }

    constructor (data: Bytes)
      ensures Valid() && this.data == data && pos == 0
    {
      this.data, pos := data, 0;
    }

    /** At most `n` bytes; all that are left if `n` is negative. */
    method Read(n: int) returns (buf: Bytes)
      requires Valid()
      modifies this
      ensures Valid() && buf == ReadUpTo(old(Rest()), n) && Rest() == old(Rest())[|buf|..] && pos == old(pos) + |buf|
      ensures buf <= old(Rest()) && |buf| == if 0 <= n <= |old(Rest())| then n else |old(Rest())|
    {
      var end := if n < 0 || pos + n > |data| then |data| else pos + n;
      buf := data[pos..end];
      pos := end;
    }
  }

  function ReadUpTo(rest: Bytes, n: int): Bytes {
    if n < 0 || n > |rest| then rest else rest[..n]
  }

  class OutFile {
    var data: Bytes

    constructor ()
      ensures data == []
    {
      data := [];
    }

    method Write(buf: Bytes)
      modifies this
      ensures data == old(data) + buf
    {
      data := data + buf;
    }
  }

  // ---------- varints ----------

  /** The number that the low seven bits of the bytes spell, least significant group first. */
  function Groups(s: Bytes): nat {
    if s == [] then 0 else s[0] % 128 + 128 * Groups(s[1..])
  }

  /** How many bytes announce a successor, counted up to ten. */
  function Announced(s: Bytes): (n: nat)
    ensures n <= |s| && n <= 10
    ensures forall i :: 0 <= i < n ==> s[i] >= 128
    ensures n < |s| && n < 10 ==> s[n] < 128
  {
    AnnouncedFrom(s, 0)
  }

  function AnnouncedFrom(s: Bytes, k: nat): (n: nat)
    requires k <= |s| && k <= 10 && forall i :: 0 <= i < k ==> s[i] >= 128
    ensures k <= n <= |s| && n <= 10
    ensures forall i :: 0 <= i < n ==> s[i] >= 128
    ensures n < |s| && n < 10 ==> s[n] < 128
    decreases 10 - k
  {
    if k == 10 || k == |s| || s[k] < 128 then k else AnnouncedFrom(s, k + 1)
  }

  /** What the decoder makes of the number: its low 32 bits, negative if the number does not fit in 63. */
  function Truncate(x: nat): int {
    if x > MAX_SIGNED then x % WORD - WORD else x % WORD
  }

  datatype Varint = Number(value: int, used: nat) | EndOfFile(used: nat) | TooLong(used: nat)

  function ReadVarint(s: Bytes): (v: Varint)
    ensures v.used <= 10 && v.used <= |s|
    ensures v.Number? ==> v.used > 0
  {
    var n := Announced(s);
    if n == 10 then TooLong(10)
    else if n == |s| then EndOfFile(n)
    else Number(Truncate(Groups(s[..n + 1])), n + 1)
  }

  lemma Powers()
    ensures Pow2(7) == 128 && Pow2(32) == WORD && Pow2(64) == DWORD
  {
    assert Pow2(4) == 16;
    Pow2Add(4, 3);
    Pow2Add(4, 4);
    Pow2Add(8, 8);
    Pow2Add(16, 16);
    Pow2Add(32, 32);
  }

  lemma {:induction false} GroupsSnoc(s: Bytes, b: byte)
    ensures Groups(s) < Pow2(7 * |s|)
    ensures Groups(s + [b]) == Groups(s) + b % 128 * Pow2(7 * |s|)
  {
    if s == [] {
      assert Groups([b][1..]) == 0;
    } else {
      GroupsSnoc(s[1..], b);
      assert (s + [b])[1..] == s[1..] + [b];
      NextWeight(|s|, b % 128, Groups(s[1..]));
    }
  }

  /** Each group weighs 128 times the one before it. */
  lemma NextWeight(n: nat, g: nat, low: nat)
    requires n > 0
    ensures Pow2(7 * n) == 128 * Pow2(7 * n - 7)
    ensures 128 * (low + g * Pow2(7 * n - 7)) == 128 * low + g * Pow2(7 * n)
  {
    Powers();
    Pow2Add(7, 7 * n - 7);
    var p := Pow2(7 * n - 7);
    assert 128 * (g * p) == g * (128 * p);
  }

  /** Shifting a group into place and or-ing it in adds it to the number read so far. */
  lemma OrGroup(s: Bytes, b: byte)
    ensures BitOr(Groups(s), BitAnd(b, 0x7f) * Pow2(7 * |s|)) == Groups(s + [b])
  {
    Powers();
    AndMask(b, 7);
    GroupsSnoc(s, b);
    OrAbove(Groups(s), b % 128, 7 * |s|);
  }

  lemma TopBit(b: byte)
    ensures BitAnd(b, 0x80) == 0 <==> b < 128
  {
    assert Pow2(7) == 128 by { Powers(); }
    AndBitIs(b, 7, 128);
    assert b / 128 == if b < 128 then 0 else 1;
  }

  /** The sign handling at the end of the decoder is `Truncate`. */
  lemma SignHandling(x: nat)
    ensures x > MAX_SIGNED ==> BitOr(x - DWORD, -WORD) == Truncate(x)
    ensures x <= MAX_SIGNED ==> BitAnd(x, MASK) == Truncate(x)
  {
    Powers();
    AndMask(x, 32);
    OrHighOnes(x - DWORD, 32);
    var q, r := x / WORD, x % WORD;
    assert x - DWORD == (q - WORD) * WORD + r;
    DivModUnique(x - DWORD, WORD, q - WORD, r);
  }

  method ReadByte(f: InFile, ghost s: Bytes, ghost pos: nat) returns (c: Bytes)
    requires f.Valid() && pos <= |s| && f.Rest() == s[pos..]
    modifies f
    ensures f.Valid() && f.pos == old(f.pos) + |c|
    ensures if pos == |s| then c == [] && f.Rest() == s[pos..] else c == [s[pos]] && f.Rest() == s[pos + 1..]
  {
    c := f.Read(1);
  }

  /** Ors the next group in, and tells whether it is the last. */
  method AddGroup(result: nat, b: byte, shift: nat, ghost s: Bytes, ghost pos: nat) returns (r: nat, last: bool)
    requires pos < |s| && b == s[pos] && shift == 7 * pos && result == Groups(s[..pos])
    ensures r == Groups(s[..pos + 1]) && (last <==> b < 128)
  {
    NextGroup(s, pos, b);
    r, last := BitOr(result, BitAnd(b, 0x7f) * Pow2(shift)), BitAnd(b, 0x80) == 0;
  }

  method DecodeVarint32(f: InFile) returns (v: Varint)
    requires f.Valid()
    modifies f
    ensures f.Valid() && v == ReadVarint(old(f.Rest())) && f.Rest() == old(f.Rest())[v.used..]
    ensures f.pos == old(f.pos) + v.used
  {
    var result, shift, pos := 0, 0, 0;
    ghost var s := f.Rest();
    while true
      invariant f.Valid() && f.pos == old(f.pos) + pos
      invariant 0 <= pos < 10 && GoesOn(s, pos) && f.Rest() == s[pos..]
      invariant shift == 7 * pos && result == Groups(s[..pos])
      decreases 10 - pos
    {
      var c := ReadByte(f, s, pos);
      if |c| == 0 {
        EndsEarly(s, pos);
        return EndOfFile(pos);
      }
      var b := c[0];
      var last;
      result, last := AddGroup(result, b, shift, s, pos);
      if last {
        result := FinishVarint(result);
        EndsHere(s, pos);
        return Number(result, pos + 1);
      }
      pos := pos + 1;
      shift := shift + 7;
      if shift >= 64 {
        NeverEnds(s);
        return TooLong(pos);
      }
    }
  }

  /** The first `n` bytes announce a successor. */
  ghost predicate GoesOn(s: Bytes, n: nat) {
    n <= |s| && forall i :: 0 <= i < n ==> s[i] >= 128
  }

  lemma EndsEarly(s: Bytes, pos: nat)
    requires pos == |s| < 10 && GoesOn(s, pos)
    ensures ReadVarint(s) == EndOfFile(pos)
  {
  }

  lemma EndsHere(s: Bytes, pos: nat)
    requires pos < |s| && pos < 10 && GoesOn(s, pos) && s[pos] < 128
    ensures ReadVarint(s) == Number(Truncate(Groups(s[..pos + 1])), pos + 1)
  {
    AnnouncedUnique(s, pos);
  }

  lemma NeverEnds(s: Bytes)
    requires GoesOn(s, 10)
    ensures ReadVarint(s) == TooLong(10)
  {
  }

  lemma NextGroup(s: Bytes, pos: nat, b: byte)
    requires pos < |s| && b == s[pos]
    ensures BitOr(Groups(s[..pos]), BitAnd(b, 0x7f) * Pow2(7 * pos)) == Groups(s[..pos + 1])
    ensures BitAnd(b, 0x80) == 0 <==> b < 128
  {
    OrGroup(s[..pos], b);
    TopBit(b);
    assert s[..pos + 1] == s[..pos] + [b];
  }

  method FinishVarint(x: nat) returns (result: int)
    ensures result == Truncate(x)
  {
    SignHandling(x);
    result := x;
    if result > MAX_SIGNED {
      result := result - DWORD;
      result := BitOr(result, -WORD);
    } else {
      result := BitAnd(result, MASK);
    }
  }

  /** On any stream: at most ten bytes are read, and the number is the one spelled, modulo `2^32`. */
  lemma DecodedNumber(s: Bytes)
    requires ReadVarint(s).Number?
    ensures var v := ReadVarint(s);
            && 1 <= v.used <= 10 && -WORD <= v.value < WORD
            && (v.value - Groups(s[..v.used])) % WORD == 0
            && (forall i :: 0 <= i < v.used - 1 ==> s[i] >= 128) && s[v.used - 1] < 128
  {
    var v := ReadVarint(s);
    var x := Groups(s[..v.used]);
    var q, r := x / WORD, x % WORD;
    if x > MAX_SIGNED {
      assert v.value - x == (-q - 1) * WORD;
      DivModUnique(v.value - x, WORD, -q - 1, 0);
    } else {
      assert v.value - x == (-q) * WORD;
      DivModUnique(v.value - x, WORD, -q, 0);
    }
  }

  // ---------- encoding ----------

  function VarintBytes(value: nat): Bytes {
    if value < 128 then [value] else [128 + value % 128] + VarintBytes(value / 128)
  }

  /** `value & 0x7f` and `value >> 7`. */
  lemma LowGroup(value: nat)
    ensures BitAnd(value, 0x7f) == value % 128
  {
    Powers();
    AndMask(value, 7);
  }

  lemma OrTop(bits: nat)
    requires bits < 128
    ensures BitOr(0x80, bits) == 128 + bits
  {
    Powers();
    OrAbove(bits, 1, 7);
    OrCommutes(0x80, bits);
  }

  method LowBits(value: nat) returns (bits: nat)
    ensures bits == value % 128
  {
    LowGroup(value);
    bits := BitAnd(value, 0x7f);
  }

  method Announcing(bits: nat) returns (b: byte)
    requires bits < 128
    ensures b == 128 + bits
  {
    OrTop(bits);
    b := BitOr(0x80, bits);
  }

  method EncodeVarint32(f: OutFile, value: nat)
    modifies f
    ensures f.data == old(f.data) + VarintBytes(value)
  {
    var bits := LowBits(value);
    var rest := value / 128;
    ghost var all, left := old(f.data) + VarintBytes(value), value;
    while rest != 0
      invariant left >= 0 && rest == left / 128 && bits == left % 128
      invariant f.data + VarintBytes(left) == all
      decreases rest
    {
      NextByte(f.data, left);
      var b := Announcing(bits);
      f.Write([b]);
      left := rest;
      bits := LowBits(rest);
      rest := rest / 128;
    }
    f.Write([bits]);
  }

  /** One more byte of a longer number. */
  lemma NextByte(data: Bytes, left: nat)
    requires left / 128 > 0
    ensures data + VarintBytes(left) == data + [128 + left % 128] + VarintBytes(left / 128)
  {
    var b, t := 128 + left % 128, VarintBytes(left / 128);
    assert VarintBytes(left) == [b] + t;
    ThreeParts(data, [b], t);
  }

  lemma {:induction false} VarintRoundTrip(value: nat, k: nat)
    requires value < Pow2(7 * k) && k > 0
    ensures var s := VarintBytes(value);
            && 1 <= |s| <= k && Groups(s) == value && s[|s| - 1] < 128
            && forall i :: 0 <= i < |s| - 1 ==> s[i] >= 128
  {
    if value < 128 {
      assert Groups(VarintBytes(value)[1..]) == 0;
    } else {
      OneGroupLess(value, k);
      VarintRoundTrip(value / 128, k - 1);
      var s, t := VarintBytes(value), VarintBytes(value / 128);
      assert s[1..] == t;
      forall i | 0 <= i < |s| - 1
        ensures s[i] >= 128
      {
        assert i > 0 ==> s[i] == t[i - 1];
      }
    }
  }

  lemma OneGroupLess(value: nat, k: nat)
    requires 128 <= value < Pow2(7 * k) && k > 0
    ensures k > 1 && value / 128 < Pow2(7 * (k - 1))
  {
    Powers();
    Pow2Add(7, 7 * k - 7);
    assert value == value / 128 * 128 + value % 128;
  }

  lemma AnnouncedUnique(s: Bytes, n: nat)
    requires n < |s| && n < 10 && s[n] < 128 && forall i :: 0 <= i < n ==> s[i] >= 128
    ensures Announced(s) == n
  {
  }

  /** On the encoder's output the decoder reads exactly the prefix, and truncates it if it is too large. */
  lemma PrefixReadBack(value: nat, rest: Bytes)
    requires value < Pow2(70)
    ensures ReadVarint(VarintBytes(value) + rest) == Number(Truncate(value), |VarintBytes(value)|)
  {
    VarintRoundTrip(value, 10);
    var p := VarintBytes(value);
    var s := p + rest;
    AnnouncedUnique(s, |p| - 1);
    assert s[..|p|] == p;
  }

  lemma OneGroupOff(value: nat, k: nat)
    requires value >= Pow2(7 * k) && k > 0
    ensures value >= 128 && value / 128 >= Pow2(7 * (k - 1))
  {
    Powers();
    var p := Pow2(7 * k - 7);
    Pow2Add(7, 7 * k - 7);
    MulMono(1, p, 128);
    DivMono(p * 128, value, 128);
    DivModUnique(p * 128, 128, p, 0);
  }

  /** A number with more than `k` groups announces at least `k` successors. */
  lemma {:induction false} LongVarint(value: nat, k: nat)
    requires value >= Pow2(7 * k)
    ensures |VarintBytes(value)| > k && forall i :: 0 <= i < k ==> VarintBytes(value)[i] >= 128
  {
    if k > 0 {
      OneGroupOff(value, k);
      LongVarint(value / 128, k - 1);
      var t := VarintBytes(value / 128);
      forall i | 0 <= i < k ensures VarintBytes(value)[i] >= 128 {
        assert i > 0 ==> VarintBytes(value)[i] == t[i - 1];
      }
    }
  }

  /** A longer prefix is refused. */
  lemma PrefixTooLong(value: nat, rest: Bytes)
    requires value >= Pow2(70)
    ensures ReadVarint(VarintBytes(value) + rest) == TooLong(10)
  {
    LongVarint(value, 10);
    var s := VarintBytes(value) + rest;
    assert forall i :: 0 <= i < 10 ==> s[i] >= 128;
  }

  // ---------- messages ----------

  function Frame(m: Bytes): Bytes { VarintBytes(|m|) + m }

  function Frames(ms: seq<Bytes>): Bytes {
    if ms == [] then [] else Frame(ms[0]) + Frames(ms[1..])
  }

  method EncodeMessage(f: OutFile, m: Bytes)
    modifies f
    ensures f.data == old(f.data) + Frame(m)
  {
    EncodeVarint32(f, |m|);
    f.Write(m);
  }

  datatype Message = Message(body: Bytes, used: nat) | NoMessage(used: nat)

  function ReadMessage(s: Bytes): (m: Message)
    ensures m.used <= |s|
    ensures m.Message? ==> m.used > 0
  {
    var v := ReadVarint(s);
    if !v.Number? || v.value == 0 then NoMessage(v.used)
    else
      var body := ReadUpTo(s[v.used..], v.value);
      Message(body, v.used + |body|)
  }

  /** What a call reports: a message, that there is none, or the library's exception for a bad body. */
  datatype Decoded = Got(body: Bytes) | NoneLeft | Unparsable

  function Report(m: Message, parses: Bytes -> bool): Decoded {
    if m.NoMessage? then NoneLeft else if parses(m.body) then Got(m.body) else Unparsable
  }

  method DecodeMessage(f: InFile, parses: Bytes -> bool) returns (r: Decoded)
    requires f.Valid()
    modifies f
    ensures f.Valid() && f.pos == old(f.pos) + ReadMessage(old(f.Rest())).used
    ensures f.Rest() == old(f.Rest())[ReadMessage(old(f.Rest())).used..]
    ensures r == Report(ReadMessage(old(f.Rest())), parses)
    ensures var m := ReadMessage(old(f.Rest()));
            && (r.NoneLeft? <==> m.NoMessage?) && (r.Unparsable? <==> m.Message? && !parses(m.body))
            && (r.Got? ==> r.body == m.body)
  {
    ghost var s := f.Rest();
    var v := DecodeVarint32(f);
    if !v.Number? || v.value == 0 {
      return NoneLeft;
    }
    var buf := f.Read(v.value);
    assert s[v.used..][|buf|..] == s[v.used + |buf|..];
    r := if parses(buf) then Got(buf) else Unparsable;
  }

  /** Reading until a message cannot be read. */
  function ReadAll(s: Bytes): seq<Bytes>
    decreases |s|
  {
    var m := ReadMessage(s);
    if m.NoMessage? then [] else [m.body] + ReadAll(s[m.used..])
  }

  predicate Framable(m: Bytes) { 0 < |m| < WORD }

  /** One call consumes exactly one frame. */
  lemma FrameReadBack(m: Bytes, rest: Bytes)
    requires Framable(m)
    ensures ReadMessage(Frame(m) + rest) == Message(m, |Frame(m)|)
    ensures (Frame(m) + rest)[|Frame(m)|..] == rest
  {
    var p, s := VarintBytes(|m|), Frame(m) + rest;
    ThreeParts(p, m, rest);
    LengthRead(m, rest, s);
    BodyRead(s, |p|, m, rest);
  }

  lemma LengthRead(m: Bytes, rest: Bytes, s: Bytes)
    requires |m| < WORD && s == VarintBytes(|m|) + (m + rest)
    ensures ReadVarint(s) == Number(|m|, |VarintBytes(|m|)|)
  {
    WordReadBack(|m|, m + rest, s);
    SmallTruncate(|m|);
  }

  lemma WordReadBack(n: nat, rest: Bytes, s: Bytes)
    requires n < WORD && s == VarintBytes(n) + rest
    ensures ReadVarint(s) == Number(Truncate(n), |VarintBytes(n)|)
  {
    WordInRange(n);
    PrefixReadBack(n, rest);
  }

  lemma SmallTruncate(n: nat)
    requires n < WORD
    ensures Truncate(n) == n
  {
  }

  lemma BodyRead(s: Bytes, used: nat, m: Bytes, rest: Bytes)
    requires m != [] && used <= |s| && ReadVarint(s) == Number(|m|, used) && s[used..] == m + rest
    ensures ReadMessage(s) == Message(m, used + |m|)
  {
    assert (m + rest)[..|m|] == m;
  }

  lemma WordInRange(n: nat)
    requires n < WORD
    ensures n < Pow2(70)
  {
    Powers();
    Pow2Add(64, 6);
  }

  lemma ThreeParts(a: Bytes, b: Bytes, c: Bytes)
    ensures (a + b) + c == a + (b + c)
    ensures (a + (b + c))[|a|..] == b + c && (b + c)[..|b|] == b && (a + b + c)[|a + b|..] == c
  {
  }

  /**
   The lengths whose prefix is read as a negative number: the decoder then takes all that is left, which
   is the message itself if it is the last one.
   */
  predicate TakesAll(m: Bytes) { MAX_SIGNED < |m| < Pow2(70) }

  lemma HugeFrame(m: Bytes, rest: Bytes)
    requires TakesAll(m)
    ensures ReadMessage(Frame(m) + rest) == Message(m + rest, |Frame(m) + rest|)
  {
    var p := VarintBytes(|m|);
    PrefixReadBack(|m|, m + rest);
    ThreeParts(p, m, rest);
  }

  lemma BadFrame(m: Bytes, rest: Bytes)
    requires !Framable(m) && !TakesAll(m)
    ensures ReadMessage(Frame(m) + rest).Message? ==> ReadMessage(Frame(m) + rest).body != m
  {
    var p, s := VarintBytes(|m|), m + rest;
    assert Frame(m) + rest == p + s;
    if |m| < Pow2(70) {
      PrefixReadBack(|m|, s);
      assert (p + s)[|p|..] == s;
      ShortRead(s, |m| % WORD, |m|);
    } else {
      PrefixTooLong(|m|, s);
    }
  }

  lemma ShortRead(s: Bytes, v: nat, n: nat)
    requires v == n % WORD && n <= |s| && !(0 < n < WORD)
    ensures v != 0 ==> |ReadUpTo(s, v)| == v < n
  {
  }

  /** Each message can be framed; the last one may also be one whose prefix takes all that is left. */
  predicate FramableList(ms: seq<Bytes>) {
    ms == [] || ((Framable(ms[0]) || (TakesAll(ms[0]) && |ms| == 1)) && FramableList(ms[1..]))
  }

  lemma {:induction false} AllFramable(ms: seq<Bytes>)
    requires forall i :: 0 <= i < |ms| ==> Framable(ms[i])
    ensures FramableList(ms)
  {
    if ms != [] {
      AllFramable(ms[1..]);
    }
  }

  /** A message other than the last that takes all that is left comes back too long. */
  lemma HugeFirst(ms: seq<Bytes>)
    requires ms != [] && TakesAll(ms[0])
    ensures ReadAll(Frames(ms)) == ms <==> |ms| == 1
  {
    var rest := Frames(ms[1..]);
    HugeFrame(ms[0], rest);
    EndReportsNone();
    assert Frames(ms)[|Frames(ms)|..] == [];
    assert ReadAll(Frames(ms)) == [ms[0] + rest];
    if |ms| == 1 {
      assert rest == [] && ms == [ms[0]] && ms[0] + rest == ms[0];
    }
  }

  /** Behind a message that can be framed, reading goes on with the rest. */
  lemma GoodFirst(ms: seq<Bytes>)
    requires ms != [] && Framable(ms[0])
    ensures ReadAll(Frames(ms)) == ms <==> ReadAll(Frames(ms[1..])) == ms[1..]
  {
    var rest := Frames(ms[1..]);
    FrameReadBack(ms[0], rest);
    assert ms == [ms[0]] + ms[1..];
    assert ReadAll(Frames(ms)) == [ms[0]] + ReadAll(rest);
    assert ReadAll(Frames(ms))[1..] == ReadAll(rest);
  }

  /**
   Messages written back to back are read back as the same list exactly if every one of them is
   nonempty and shorter than `2^32` bytes, but for a last one of `2^63` up to `2^70` bytes.
   */
  lemma {:induction false} FramesExact(ms: seq<Bytes>)
    ensures ReadAll(Frames(ms)) == ms <==> FramableList(ms)
  {
    if ms == [] {
      EndReportsNone();
    } else {
      var rest := Frames(ms[1..]);
      if Framable(ms[0]) {
        FramesExact(ms[1..]);
        GoodFirst(ms);
      } else if TakesAll(ms[0]) {
        HugeFirst(ms);
      } else {
        BadFrame(ms[0], rest);
      }
    }
  }

  /** At the end of the file the next call reports that there is no message. */
  lemma EndReportsNone()
    ensures ReadMessage([]) == NoMessage(0)
  {
    assert Announced([]) == 0;
  }
}
