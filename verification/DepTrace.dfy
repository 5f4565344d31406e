/**
 The text form of instruction dependency records: the printer of the trace decoder and the parser of
 the trace encoder, and exactly which records survive being printed and parsed.
 */
module DepTrace {
  import opened Text

  /** A dependency record; an absent optional field is `None`. Field ranges are those of natural numbers. */
  datatype Record = Record(
    seqNum: nat, kind: int, pAddr: Option<nat>, size: Option<nat>, flags: Option<nat>, robDeps: seq<nat>,
    compDelay: nat, regDeps: seq<nat>, weight: Option<nat>, pc: Option<nat>, vAddr: Option<nat>, asid: Option<nat>)

  datatype Result<+T> = Ok(value: T) | Err

  const INVALID := 0
  const LOAD := 1
  const STORE := 2
  const COMP := 3

  function KindName(kind: int): Option<string> {
    if kind == INVALID then Some("INVALID") else if kind == LOAD then Some("LOAD")
    else if kind == STORE then Some("STORE") else if kind == COMP then Some("COMP") else None
  }

  function KindNumber(name: string): Option<int> {
    if name == "INVALID" then Some(INVALID) else if name == "LOAD" then Some(LOAD)
    else if name == "STORE" then Some(STORE) else if name == "COMP" then Some(COMP) else None
  }

  // ---------- the printed form ----------

  function OrElse(o: Option<nat>, default: nat): nat {
    if o.Some? then o.value else default
  }

  function Present(o: Option<nat>): seq<string> {
    if o.Some? then [Decimal(o.value)] else []
  }

  /** The comma-separated part in front of the dependencies. */
  function InfoFields(r: Record, name: string): seq<string> {
    [Decimal(r.seqNum), Decimal(OrElse(r.pc, 0)), Decimal(OrElse(r.weight, 1)), name]
    + Present(r.pAddr) + Present(r.size) + Present(r.flags) + [Decimal(r.compDelay)]
  }

  function DepText(deps: seq<nat>): string {
    if deps == [] then "" else DepText(deps[..|deps| - 1]) + "," + Decimal(deps[|deps| - 1])
  }

  /** The line of a record, without its newline; a record of a nameless kind cannot be printed. */
  function Line(r: Record): Option<string> {
    var name := KindName(r.kind);
    if name.None? then None
    else Some(Join(InfoFields(r, name.value), ',') + ":" + DepText(r.robDeps) + ":" + DepText(r.regDeps))
  }

  method PrintDeps(deps: seq<nat>) returns (text: string)
    ensures text == DepText(deps)
  {
    text := "";
    for k := 0 to |deps|
      invariant text == DepText(deps[..k])
    {
      assert deps[..k + 1][..k] == deps[..k];
      text := text + "," + Decimal(deps[k]);
    }
    assert deps[..|deps|] == deps;
  }

  /** The body of the decoder's loop: one record is written piece by piece. */
  method PrintRecord(r: Record) returns (out: Option<string>)
    ensures out == Line(r)
  {
    var name := KindName(r.kind);
    if name.None? {
      return None;
    }
    var text := PrintInfo(r, name.value);
    text := text + ":";
    var rob := PrintDeps(r.robDeps);
    text := text + rob + ":";
    var reg := PrintDeps(r.regDeps);
    text := text + reg;
    out := Some(text);
  }

  method PrintInfo(r: Record, name: string) returns (text: string)
    ensures text == Join(InfoFields(r, name), ',')
  {
    text := Decimal(r.seqNum);
    ghost var fields := [Decimal(r.seqNum)];
    assert Decimal(0) == "0" && Decimal(1) == "1";
    text, fields := AppendField(text, fields, if r.pc.Some? then Decimal(r.pc.value) else "0");
    text, fields := AppendField(text, fields, if r.weight.Some? then Decimal(r.weight.value) else "1");
    text, fields := AppendField(text, fields, name);
    ghost var head := fields;
    text, fields := AppendPresent(text, fields, r.pAddr);
    text, fields := AppendPresent(text, fields, r.size);
    text, fields := AppendPresent(text, fields, r.flags);
    text, fields := AppendField(text, fields, Decimal(r.compDelay));
    assert head == [Decimal(r.seqNum), Decimal(OrElse(r.pc, 0)), Decimal(OrElse(r.weight, 1)), name];
    assert fields == InfoFields(r, name);
  }

  method AppendPresent(text: string, ghost fields: seq<string>, o: Option<nat>)
    returns (t: string, ghost f: seq<string>)
    requires fields != [] && text == Join(fields, ',')
    ensures f == fields + Present(o) && t == Join(f, ',') && f != []
  {
    t, f := text, fields;
    if o.Some? {
      t, f := AppendField(text, fields, Decimal(o.value));
    }
  }

  /** Writes one more field behind a comma. */
  method AppendField(text: string, ghost fields: seq<string>, field: string) returns (t: string, ghost f: seq<string>)
    requires fields != [] && text == Join(fields, ',')
    ensures f == fields + [field] && t == Join(f, ',') && f != []
  {
    t, f := text + "," + field, fields + [field];
    JoinSnoc(fields, field, ',');
  }

  lemma {:induction false} JoinSnoc(pieces: seq<string>, x: string, c: char)
    requires pieces != []
    ensures Join(pieces + [x], c) == Join(pieces, c) + [c] + x
  {
    if |pieces| == 1 {
      assert (pieces + [x])[1..] == [x];
    } else {
      JoinSnoc(pieces[1..], x, c);
      assert (pieces + [x])[1..] == pieces[1..] + [x];
    }
  }

  // ---------- the parser ----------

  /** `int(s)` stored into an unsigned field. */
  function Unsigned(s: string): Result<nat> {
    var v := ParseInt(s);
    if v.Some? && v.value >= 0 then Ok(v.value) else Err
  }

  /** The pieces that are not empty, each a number. */
  function Deps(pieces: seq<string>): Result<seq<nat>> {
    if pieces == [] then Ok([])
    else
      var init, last := Deps(pieces[..|pieces| - 1]), pieces[|pieces| - 1];
      if init.Err? || last == "" then init
      else
        var v := Unsigned(last);
        if v.Err? then Err else Ok(init.value + [v.value])
  }

  /** The optional part of a record: address, size, flags and delay, or the delay alone. */
  datatype Payload = Payload(pAddr: Option<nat>, size: Option<nat>, flags: Option<nat>, compDelay: nat)

  function ParsePayload(kind: int, info: seq<string>): Result<Payload>
    requires |info| >= 4
  {
    if kind == LOAD || kind == STORE then
      if |info| < 8 then Err
      else
        var a, s, f, d := Unsigned(info[4]), Unsigned(info[5]), Unsigned(info[6]), Unsigned(info[7]);
        if a.Err? || s.Err? || f.Err? || d.Err? then Err
        else Ok(Payload(Some(a.value), Some(s.value), Some(f.value), d.value))
    else if |info| < 5 then Err
    else
      var d := Unsigned(info[4]);
      if d.Err? then Err else Ok(Payload(None, None, None, d.value))
  }

  function ParseInfo(info: seq<string>, rob: seq<nat>, reg: seq<nat>): Result<Record> {
    if |info| < 4 then Err
    else
      var n, pc, w := Unsigned(info[0]), Unsigned(info[1]), Unsigned(info[2]);
      var kind := KindNumber(info[3]);
      if n.Err? || pc.Err? || w.Err? || kind.None? || kind.value == INVALID then Err
      else
        var p := ParsePayload(kind.value, info);
        if p.Err? then Err
        else Ok(Record(n.value, kind.value, p.value.pAddr, p.value.size, p.value.flags, rob, p.value.compDelay, reg,
                       Some(w.value), Some(pc.value), None, None))
  }

  function ParseLine(line: string): Result<Record> {
    var parts := Split(Strip(line), ':');
    if |parts| != 3 then Err
    else
      var rob, reg := Deps(Split(Strip(parts[1]), ',')), Deps(Split(parts[2], ','));
      if rob.Err? || reg.Err? then Err else ParseInfo(Split(parts[0], ','), rob.value, reg.value)
  }

  method ParseDeps(pieces: seq<string>) returns (r: Result<seq<nat>>)
    ensures r == Deps(pieces)
  {
    var deps: seq<nat> := [];
    for k := 0 to |pieces|
      invariant Deps(pieces[..k]) == Ok(deps)
    {
      assert pieces[..k + 1][..k] == pieces[..k];
      if pieces[k] != "" {
        var v := Unsigned(pieces[k]);
        if v.Err? {
          DepsErr(pieces, k + 1);
          return Err;
        }
        deps := deps + [v.value];
      }
    }
    assert pieces[..|pieces|] == pieces;
    r := Ok(deps);
  }

  lemma {:induction false} DepsErr(pieces: seq<string>, k: nat)
    requires k <= |pieces| && Deps(pieces[..k]).Err?
    ensures Deps(pieces).Err?
    decreases |pieces| - k
  {
    if k < |pieces| {
      assert pieces[..k + 1][..k] == pieces[..k];
      DepsErr(pieces, k + 1);
    } else {
      assert pieces[..k] == pieces;
    }
  }

  /** The body of the encoder's loop. Every failure ends the program, so their order does not matter. */
  method ReadRecord(line: string) returns (r: Result<Record>)
    ensures r == ParseLine(line)
  {
    var parts := Split(Strip(line), ':');
    if |parts| != 3 {
      return Err;
    }
    var info := Split(parts[0], ',');
    var rob := ParseDeps(Split(Strip(parts[1]), ','));
    var reg := ParseDeps(Split(parts[2], ','));
    if rob.Err? || reg.Err? {
      return Err;
    }
    r := ParseInfo(info, rob.value, reg.value);
  }

  // ---------- what is printed can be taken apart again ----------

  lemma {:induction false} SplitSnoc(s: string, c: char, a: string)
    requires c !in a
    ensures Split(s + [c] + a, c) == Split(s, c) + [a]
  {
    var t := s + [c] + a;
    if s == [] {
      assert t[1..] == a;
      SplitWhole(a, c);
    } else {
      assert t[1..] == s[1..] + [c] + a;
      SplitSnoc(s[1..], c, a);
    }
  }

  /** The dependencies come back; the piece in front of the first comma is empty. */
  lemma {:induction false} DepsReadBack(deps: seq<nat>)
    ensures Deps(Split(DepText(deps), ',')) == Ok(deps)
  {
    if deps == [] {
      assert [""][..0] == [];
    } else {
      var n := |deps| - 1;
      DepsReadBack(deps[..n]);
      DecimalPlain(deps[n]);
      SplitSnoc(DepText(deps[..n]), ',', Decimal(deps[n]));
      var pieces := Split(DepText(deps[..n]), ',');
      assert (pieces + [Decimal(deps[n])])[..|pieces|] == pieces;
      ParseDecimal(deps[n]);
      assert deps == deps[..n] + [deps[n]];
    }
  }

  /** Free of white space and of both separators' and newline's characters as far as they would confuse. */
  ghost predicate Plain(s: string) { NoSpace(s) && ':' !in s }

  lemma {:induction false} DepTextPlain(deps: seq<nat>)
    ensures Plain(DepText(deps))
  {
    if deps != [] {
      DepTextPlain(deps[..|deps| - 1]);
      DecimalPlain(deps[|deps| - 1]);
    }
  }

  lemma {:induction false} JoinPlain(pieces: seq<string>)
    requires forall i :: 0 <= i < |pieces| ==> Plain(pieces[i])
    ensures Plain(Join(pieces, ','))
  {
    if |pieces| > 1 {
      JoinPlain(pieces[1..]);
    }
  }

  ghost predicate Each(fields: seq<string>, p: string -> bool) {
    forall i :: 0 <= i < |fields| ==> p(fields[i])
  }

  lemma EachConcat(a: seq<string>, b: seq<string>, p: string -> bool)
    requires Each(a, p) && Each(b, p)
    ensures Each(a + b, p)
  {
  }

  /** What holds of numbers and of the kind's name holds of all fields. */
  lemma InfoFieldsEach(r: Record, name: string, p: string -> bool)
    requires p(name) && forall n :: p(Decimal(n))
    ensures Each(InfoFields(r, name), p)
  {
    var head := [Decimal(r.seqNum), Decimal(OrElse(r.pc, 0)), Decimal(OrElse(r.weight, 1)), name];
    EachConcat(head, Present(r.pAddr), p);
    EachConcat(head + Present(r.pAddr), Present(r.size), p);
    EachConcat(head + Present(r.pAddr) + Present(r.size), Present(r.flags), p);
    EachConcat(head + Present(r.pAddr) + Present(r.size) + Present(r.flags), [Decimal(r.compDelay)], p);
  }

  lemma InfoFieldsPlain(r: Record, name: string)
    requires KindName(r.kind) == Some(name)
    ensures forall i :: 0 <= i < |InfoFields(r, name)| ==>
              Plain(InfoFields(r, name)[i]) && ',' !in InfoFields(r, name)[i]
  {
    var plain := (s: string) => Plain(s) && ',' !in s;
    forall n: nat ensures plain(Decimal(n)) {
      DecimalPlain(n);
    }
    InfoFieldsEach(r, name, plain);
  }

  lemma LinePlain(r: Record)
    requires Line(r).Some?
    ensures NoSpace(Line(r).value) && '\n' !in Line(r).value && Line(r).value != ""
  {
    var name := KindName(r.kind).value;
    InfoFieldsPlain(r, name);
    JoinPlain(InfoFields(r, name));
    DepTextPlain(r.robDeps);
    DepTextPlain(r.regDeps);
    assert forall c :: c in Line(r).value ==> !IsSpace(c);
  }

  /** Parsing a printed line is parsing its fields. */
  lemma ParsePrinted(r: Record)
    requires Line(r).Some?
    ensures ParseLine(Line(r).value) == ParseInfo(InfoFields(r, KindName(r.kind).value), r.robDeps, r.regDeps)
  {
    var name := KindName(r.kind).value;
    var fields := InfoFields(r, name);
    var info, rob, reg := Join(fields, ','), DepText(r.robDeps), DepText(r.regDeps);
    LinePlain(r);
    StripNothing(Line(r).value);
    InfoFieldsPlain(r, name);
    JoinPlain(fields);
    DepTextPlain(r.robDeps);
    DepTextPlain(r.regDeps);
    SplitLine(info, rob, reg, Line(r).value);
    StripNothing(rob);
    SplitJoin(fields, ',');
    DepsReadBack(r.robDeps);
    DepsReadBack(r.regDeps);
  }

  /** The three parts of a line. */
  lemma SplitLine(info: string, rob: string, reg: string, line: string)
    requires line == info + ":" + rob + ":" + reg && ':' !in info && ':' !in rob && ':' !in reg
    ensures Split(line, ':') == [info, rob, reg]
  {
    assert line == info + [':'] + (rob + [':'] + reg);
    SplitFirst(info, ':', rob + [':'] + reg);
    SplitFirst(rob, ':', reg);
    SplitWhole(reg, ':');
  }

  // ---------- main result ----------

  /** What the text form keeps of a record: the defaults are spelled out. */
  function Normal(r: Record): Record {
    r.(pc := Some(OrElse(r.pc, 0)), weight := Some(OrElse(r.weight, 1)))
  }

  /** A named kind other than INVALID, with address, size and flags exactly for loads and stores. */
  predicate Convertible(r: Record) {
    && (r.kind == LOAD || r.kind == STORE || r.kind == COMP)
    && (if r.kind == COMP then r.pAddr.None? && r.size.None? && r.flags.None?
        else r.pAddr.Some? && r.size.Some? && r.flags.Some?)
    && r.vAddr.None? && r.asid.None?
  }

  lemma UnsignedDecimal(n: nat)
    ensures Unsigned(Decimal(n)) == Ok(n)
  {
    ParseDecimal(n);
  }

  /** The numbers and names of the kinds, as the message format has them. */
  lemma KindsAre()
    ensures KindName(0) == Some("INVALID") && KindName(1) == Some("LOAD")
    ensures KindName(2) == Some("STORE") && KindName(3) == Some("COMP")
    ensures forall k :: KindName(k).Some? <==> 0 <= k <= 3
    ensures forall k :: 0 <= k <= 3 ==> KindNumber(KindName(k).value) == Some(k)
    ensures forall name :: KindNumber(name).Some? <==> name in {"INVALID", "LOAD", "STORE", "COMP"}
  {
  }

  /** Which field of a line holds what. */
  lemma FieldsAre(r: Record, name: string)
    ensures var fields := InfoFields(r, name);
            && |fields| == 5 + |Present(r.pAddr)| + |Present(r.size)| + |Present(r.flags)|
            && fields[0] == Decimal(r.seqNum) && fields[1] == Decimal(OrElse(r.pc, 0))
            && fields[2] == Decimal(OrElse(r.weight, 1)) && fields[3] == name
            && fields[|fields| - 1] == Decimal(r.compDelay)
  {
  }

  /** An instruction without a program counter or weight is written with 0 and 1. */
  lemma DefaultsAre(r: Record, name: string)
    ensures var fields := InfoFields(r, name);
            && |fields| >= 5 && fields[1] == (if r.pc.Some? then Decimal(r.pc.value) else "0")
            && fields[2] == (if r.weight.Some? then Decimal(r.weight.value) else "1")
  {
    FieldsAre(r, name);
    assert Decimal(0) == "0" && Decimal(1) == "1";
  }

  lemma NameReadBack(kind: int, name: string)
    requires KindName(kind) == Some(name) && kind != INVALID
    ensures KindNumber(name) == Some(kind)
  {
  }

  lemma FieldsReadBack(r: Record, name: string)
    requires KindName(r.kind) == Some(name) && r.kind != INVALID
    ensures var fields := InfoFields(r, name);
            && |fields| == 5 + |Present(r.pAddr)| + |Present(r.size)| + |Present(r.flags)|
            && Unsigned(fields[0]) == Ok(r.seqNum) && Unsigned(fields[1]) == Ok(OrElse(r.pc, 0))
            && Unsigned(fields[2]) == Ok(OrElse(r.weight, 1)) && KindNumber(fields[3]) == Some(r.kind)
            && Unsigned(fields[|fields| - 1]) == Ok(r.compDelay)
  {
    FieldsAre(r, name);
    NameReadBack(r.kind, name);
    UnsignedDecimal(r.seqNum);
    UnsignedDecimal(OrElse(r.pc, 0));
    UnsignedDecimal(OrElse(r.weight, 1));
    UnsignedDecimal(r.compDelay);
  }

  lemma MemoryFields(r: Record, name: string)
    requires r.pAddr.Some? && r.size.Some? && r.flags.Some?
    ensures var fields := InfoFields(r, name);
            |fields| == 8 && Unsigned(fields[4]) == Ok(r.pAddr.value) && Unsigned(fields[5]) == Ok(r.size.value)
            && Unsigned(fields[6]) == Ok(r.flags.value)
  {
    UnsignedDecimal(r.pAddr.value);
    UnsignedDecimal(r.size.value);
    UnsignedDecimal(r.flags.value);
  }

  /** For the kinds that a line can name, parsing the printed fields loses nothing but the two extra fields. */
  lemma FieldsParse(r: Record, name: string)
    requires KindName(r.kind) == Some(name) && r.kind != INVALID
    ensures ParseInfo(InfoFields(r, name), r.robDeps, r.regDeps) == Ok(Normal(r)) <==> Convertible(r)
  {
    FieldsReadBack(r, name);
    if r.pAddr.Some? && r.size.Some? && r.flags.Some? {
      MemoryFields(r, name);
    }
  }

  /**
   A record is printed and read back unchanged, defaults spelled out, exactly if it is convertible.
   The numbers and the dependency lists may be arbitrarily long.
   */
  lemma RoundTripExact(r: Record)
    ensures (Line(r).Some? && ParseLine(Line(r).value) == Ok(Normal(r))) <==> Convertible(r)
  {
    var name := KindName(r.kind);
    if name.Some? {
      ParsePrinted(r);
      if r.kind == INVALID {
        assert InfoFields(r, name.value)[3] == "INVALID";
      } else {
        FieldsParse(r, name.value);
      }
    }
  }

  /** Whatever text is accepted, the record read from it is convertible and already normal. */
  lemma ParsedIsConvertible(line: string)
    requires ParseLine(line).Ok?
    ensures Convertible(ParseLine(line).value) && Normal(ParseLine(line).value) == ParseLine(line).value
  {
  }

  /** Hence reading and printing again settles after one pass. */
  lemma ReprintStable(line: string)
    requires ParseLine(line).Ok?
    ensures var r := ParseLine(line).value; Line(r).Some? && ParseLine(Line(r).value) == Ok(r)
  {
    ParsedIsConvertible(line);
    RoundTripExact(ParseLine(line).value);
  }
}
