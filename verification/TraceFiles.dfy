/**
 Whole trace files: from text to a framed binary file and back to text. How a record is serialized is
 left to a pair of functions, as the tools leave it to a library.
 */
module TraceFiles {
  import opened Text
  import opened DepTrace
  import opened Framing

  const MAGIC: Bytes := [0x67, 0x65, 0x6d, 0x35]  // "gem5"

  // ---------- text files ----------

  /** The lines of a text file as iteration yields them, each with the newline that ends it. */
  function FileLines(text: string): seq<string> {
    var p := Split(text, '\n');
    var n := |p| - 1;
    seq(n, i requires 0 <= i < n => p[i] + "\n") + if p[n] == "" then [] else [p[n]]
  }

  function Concat(ls: seq<string>): string { if ls == [] then "" else ls[0] + Concat(ls[1..]) }

  /** A newline is the end of a line, and only the last line may have none. */
  ghost predicate AreLines(ls: seq<string>) {
    forall i :: 0 <= i < |ls| ==>
      && ls[i] != "" && '\n' !in ls[i][..|ls[i]| - 1] && (i < |ls| - 1 ==> ls[i][|ls[i]| - 1] == '\n')
  }

  lemma {:induction false} ConcatJoin(p: seq<string>)
    requires p != []
    ensures Concat(seq(|p| - 1, i requires 0 <= i < |p| - 1 => p[i] + "\n") +
                   if p[|p| - 1] == "" then [] else [p[|p| - 1]])
         == Join(p, '\n')
  {
    var n := |p| - 1;
    var ls := seq(n, i requires 0 <= i < n => p[i] + "\n") + if p[n] == "" then [] else [p[n]];
    if n == 0 {
      assert ls == if p[0] == "" then [] else [p[0]];
      assert [p[0]][1..] == [];
    } else {
      var rest := p[1..];
      ConcatJoin(rest);
      assert ls[0] == p[0] + "\n";
      assert ls[1..] == seq(n - 1, i requires 0 <= i < n - 1 => rest[i] + "\n") + if p[n] == "" then [] else [p[n]];
    }
  }

  /** The lines of a text are the text, cut behind every newline. */
  lemma FileLinesExact(text: string)
    ensures Concat(FileLines(text)) == text && AreLines(FileLines(text))
  {
    var p := Split(text, '\n');
    JoinSplit(text, '\n');
    ConcatJoin(p);
    var ls := FileLines(text);
    forall i | 0 <= i < |ls|
      ensures ls[i] != "" && '\n' !in ls[i][..|ls[i]| - 1] && (i < |ls| - 1 ==> ls[i][|ls[i]| - 1] == '\n')
    {
      assert i < |p| - 1 ==> ls[i][..|ls[i]| - 1] == p[i];
      assert i == |p| - 1 ==> ls[i] == p[i];
    }
  }

  predicate Accepted(lines: seq<string>) {
    forall i :: 0 <= i < |lines| ==> ParseLine(lines[i]).Ok?
  }

  /** The records of accepted lines. */
  function Records(lines: seq<string>): (rs: seq<Record>)
    requires Accepted(lines)
    ensures |rs| == |lines|
  {
    seq(|lines|, i requires 0 <= i < |lines| => ParseLine(lines[i]).value)
  }

  predicate Printable(rs: seq<Record>) {
    forall i :: 0 <= i < |rs| ==> Line(rs[i]).Some?
  }

  function LinesOf(rs: seq<Record>): (ls: seq<string>)
    requires Printable(rs)
    ensures |ls| == |rs|
  {
    seq(|rs|, i requires 0 <= i < |rs| => Line(rs[i]).value)
  }

  function Unlines(ls: seq<string>): string {
    if ls == [] then "" else ls[0] + "\n" + Unlines(ls[1..])
  }

  /** The text that the decoder writes for a list of records; a record of a nameless kind stops it. */
  function TextOf(rs: seq<Record>): Option<string> {
    if Printable(rs) then Some(Unlines(LinesOf(rs))) else None
  }

  function MapSer(rs: seq<Record>, ser: Record -> Bytes): seq<Bytes> {
    seq(|rs|, i requires 0 <= i < |rs| => ser(rs[i]))
  }

  /** The library can parse every message. */
  predicate Parses(ms: seq<Bytes>, des: Bytes -> Option<Record>) {
    forall i :: 0 <= i < |ms| ==> des(ms[i]).Some?
  }

  function MapDes(ms: seq<Bytes>, des: Bytes -> Option<Record>): (rs: seq<Record>)
    requires Parses(ms, des)
    ensures |rs| == |ms|
  {
    seq(|ms|, i requires 0 <= i < |ms| => des(ms[i]).value)
  }

  // ---------- the two programs ----------

  function EncodedFile(rs: seq<Record>, header: Bytes, ser: Record -> Bytes): Bytes {
    MAGIC + (Frame(header) + Frames(MapSer(rs, ser)))
  }

  lemma {:induction false} FramesSnoc(ms: seq<Bytes>, m: Bytes)
    ensures Frames(ms + [m]) == Frames(ms) + Frame(m)
  {
    if ms == [] {
      assert ms + [m] == [m] && [m][1..] == [];
    } else {
      FramesSnoc(ms[1..], m);
      assert (ms + [m])[1..] == ms[1..] + [m];
    }
  }

  lemma EncodedSnoc(rs: seq<Record>, r: Record, header: Bytes, ser: Record -> Bytes)
    ensures EncodedFile(rs + [r], header, ser) == EncodedFile(rs, header, ser) + Frame(ser(r))
  {
    assert MapSer(rs + [r], ser) == MapSer(rs, ser) + [ser(r)];
    FramesSnoc(MapSer(rs, ser), ser(r));
    Regroup(MAGIC, Frame(header), Frames(MapSer(rs, ser)), Frame(ser(r)));
  }

  lemma Regroup(a: Bytes, b: Bytes, c: Bytes, d: Bytes)
    ensures a + (b + (c + d)) == (a + (b + c)) + d
  {
  }

  lemma EncodedNone(header: Bytes, ser: Record -> Bytes)
    ensures EncodedFile([], header, ser) == MAGIC + Frame(header)
  {
    assert MapSer([], ser) == [] && Frame(header) + [] == Frame(header);
  }

  /** The records of the first lines. */
  ghost predicate ReadSoFar(lines: seq<string>, rs: seq<Record>) {
    |rs| <= |lines| && forall i :: 0 <= i < |rs| ==> ParseLine(lines[i]) == Ok(rs[i])
  }

  lemma AllRead(lines: seq<string>, rs: seq<Record>)
    requires ReadSoFar(lines, rs) && |rs| == |lines|
    ensures Accepted(lines) && Records(lines) == rs
  {
  }

  lemma OneRefused(lines: seq<string>, k: nat)
    requires k < |lines| && ParseLine(lines[k]).Err?
    ensures !Accepted(lines)
  {
  }

  lemma OneMoreRead(lines: seq<string>, rs: seq<Record>, rec: Record)
    requires ReadSoFar(lines, rs) && |rs| < |lines| && ParseLine(lines[|rs|]) == Ok(rec)
    ensures ReadSoFar(lines, rs + [rec])
  {
  }

  method AppendRecord(f: OutFile, ghost rs: seq<Record>, rec: Record, ghost header: Bytes, ser: Record -> Bytes)
    requires f.data == EncodedFile(rs, header, ser)
    modifies f
    ensures f.data == EncodedFile(rs + [rec], header, ser)
  {
    EncodedSnoc(rs, rec, header, ser);
    EncodeMessage(f, ser(rec));
  }

  /** From text to the binary file; any line that cannot be parsed ends the program. */
  method EncodeTrace(text: string, header: Bytes, ser: Record -> Bytes) returns (r: Result<Bytes>)
    ensures var lines := FileLines(text);
            r == if Accepted(lines) then Ok(EncodedFile(Records(lines), header, ser)) else Err
  {
    var lines := FileLines(text);
    var f := new OutFile();
    f.Write(MAGIC);
    EncodeMessage(f, header);
    ghost var rs: seq<Record> := [];
    EncodedNone(header, ser);
    for k := 0 to |lines|
      invariant fresh(f) && |rs| == k && ReadSoFar(lines, rs)
      invariant f.data == EncodedFile(rs, header, ser)
    {
      var rec := ReadRecord(lines[k]);
      if rec.Err? {
        OneRefused(lines, k);
        return Err;
      }
      OneMoreRead(lines, rs, rec.value);
      AppendRecord(f, rs, rec.value, header, ser);
      rs := rs + [rec.value];
    }
    AllRead(lines, rs);
    r := Ok(f.data);
  }

  /** How the library parses the two kinds of messages in a file. */
  datatype Parser = Parser(header: Bytes -> bool, record: Bytes -> Option<Record>)

  /** The records in a binary file, or nothing if it is not such a file or holds a message that cannot be parsed. */
  function FileRecords(file: Bytes, p: Parser): Option<seq<Record>> {
    if |file| < 4 || file[..4] != MAGIC then None
    else
      var rest := file[4..];
      var header := ReadMessage(rest);
      var ms := ReadAll(rest[header.used..]);
      if Report(header, p.header).Unparsable? || !Parses(ms, p.record) then None else Some(MapDes(ms, p.record))
  }

  /** How many records have at least one dependency in the list chosen by `reg`. */
  function WithDeps(rs: seq<Record>, reg: bool): nat {
    if rs == [] then 0
    else
      var last := rs[|rs| - 1];
      WithDeps(rs[..|rs| - 1], reg) + if (if reg then last.regDeps else last.robDeps) != [] then 1 else 0
  }

  /** The loop condition of the decoder: the next message, if there is one. */
  method NextMessage(f: InFile, des: Bytes -> Option<Record>) returns (r: Decoded)
    requires f.Valid()
    modifies f
    ensures f.Valid()
    ensures r.NoneLeft? ==> ReadAll(old(f.Rest())) == []
    ensures r.Got? ==> des(r.body).Some? && ReadAll(old(f.Rest())) == [r.body] + ReadAll(f.Rest())
    ensures r.Got? ==> |f.Rest()| < |old(f.Rest())|
    ensures r.Unparsable? ==> !Parses(ReadAll(old(f.Rest())), des)
  {
    ghost var s := f.Rest();
    r := DecodeMessage(f, m => des(m).Some?);
    if r.Unparsable? {
      assert des(ReadAll(s)[0]).None?;
    }
  }

  /** From the binary file to text, counting packets on the way. */
  method DecodeTrace(file: Bytes, p: Parser) returns (ok: bool, o: Output)
    ensures ok <==> FileRecords(file, p).Some? && Printable(FileRecords(file, p).value)
    ensures ok ==> Written(o, FileRecords(file, p).value)
  {
    var f := new InFile(file);
    assert f.Rest() == file;
    var magic := f.Read(4);
    if magic != MAGIC {
      return false, Output("", 0, 0, 0);
    }
    var header := DecodeMessage(f, p.header);
    if header.Unparsable? {
      return false, Output("", 0, 0, 0);
    }
    ok, o := DecodeRecords(f, p.record);
  }

  /** What the decoder has written and counted so far. */
  datatype Output = Output(text: string, packets: nat, regs: nat, robs: nat)

  ghost predicate Written(o: Output, rs: seq<Record>) {
    TextOf(rs) == Some(o.text) && o.packets == |rs| && o.regs == WithDeps(rs, true) && o.robs == WithDeps(rs, false)
  }

  method WritePacket(o: Output, packet: Record, ghost rs: seq<Record>) returns (ok: bool, o': Output)
    requires Written(o, rs)
    ensures ok <==> Printable(rs + [packet])
    ensures ok ==> Written(o', rs + [packet])
  {
    TextSnoc(rs, packet);
    WithDepsSnoc(rs, packet);
    o' := o.(packets := o.packets + 1);
    var line := PrintRecord(packet);
    ok := line.Some?;
    if ok {
      o' := o'.(text := o.text + line.value + "\n");
      if packet.robDeps != [] {
        o' := o'.(robs := o.robs + 1);
      }
      if packet.regDeps != [] {
        o' := o'.(regs := o.regs + 1);
      }
    }
  }

  method DecodeRecords(f: InFile, des: Bytes -> Option<Record>) returns (ok: bool, o: Output)
    requires f.Valid()
    modifies f
    ensures var ms := ReadAll(old(f.Rest())); ok <==> Parses(ms, des) && Printable(MapDes(ms, des))
    ensures ok ==> Written(o, MapDes(ReadAll(old(f.Rest())), des))
  {
    o, ok := Output("", 0, 0, 0), true;
    ghost var got: seq<Bytes>, all := [], ReadAll(f.Rest());
    while true
      invariant f.Valid() && ok && all == got + ReadAll(f.Rest())
      invariant Parses(got, des) && Printable(MapDes(got, des)) && Written(o, MapDes(got, des))
      decreases |f.Rest()|
    {
      ghost var ahead := ReadAll(f.Rest());
      var r := NextMessage(f, des);
      if r.NoneLeft? {
        assert all == got;
        break;
      }
      if r.Unparsable? {
        NotParsed(got, ahead, des);
        ok := false;
        break;
      }
      GotOneMore(got, r.body, ReadAll(f.Rest()), des);
      ok, o := WritePacket(o, des(r.body).value, MapDes(got, des));
      got := got + [r.body];
      if !ok {
        NotPrintable(all, got, des);
        break;
      }
    }
  }

  lemma NotParsed(got: seq<Bytes>, ahead: seq<Bytes>, des: Bytes -> Option<Record>)
    requires !Parses(ahead, des)
    ensures !Parses(got + ahead, des)
  {
    var i :| 0 <= i < |ahead| && des(ahead[i]).None?;
    assert (got + ahead)[|got| + i] == ahead[i];
  }

  lemma GotOneMore(got: seq<Bytes>, m: Bytes, rest: seq<Bytes>, des: Bytes -> Option<Record>)
    requires Parses(got, des) && des(m).Some?
    ensures got + ([m] + rest) == (got + [m]) + rest
    ensures Parses(got + [m], des) && MapDes(got + [m], des) == MapDes(got, des) + [des(m).value]
  {
  }

  lemma WithDepsSnoc(rs: seq<Record>, r: Record)
    ensures WithDeps(rs + [r], true) == WithDeps(rs, true) + if r.regDeps != [] then 1 else 0
    ensures WithDeps(rs + [r], false) == WithDeps(rs, false) + if r.robDeps != [] then 1 else 0
  {
    assert (rs + [r])[..|rs|] == rs;
  }

  lemma {:induction false} UnlinesSnoc(ls: seq<string>, l: string)
    ensures Unlines(ls + [l]) == Unlines(ls) + l + "\n"
  {
    if ls == [] {
      assert ls + [l] == [l] && [l][1..] == [];
    } else {
      UnlinesSnoc(ls[1..], l);
      assert (ls + [l])[1..] == ls[1..] + [l];
    }
  }

  lemma TextSnoc(rs: seq<Record>, r: Record)
    requires TextOf(rs).Some?
    ensures TextOf(rs + [r]) == if Line(r).Some? then Some(TextOf(rs).value + Line(r).value + "\n") else None
  {
    if Line(r).Some? {
      assert LinesOf(rs + [r]) == LinesOf(rs) + [Line(r).value];
      UnlinesSnoc(LinesOf(rs), Line(r).value);
    } else {
      assert (rs + [r])[|rs|] == r;
    }
  }

  lemma NotPrintable(all: seq<Bytes>, got: seq<Bytes>, des: Bytes -> Option<Record>)
    requires got <= all && Parses(got, des) && !Printable(MapDes(got, des))
    ensures !(Parses(all, des) && Printable(MapDes(all, des)))
  {
    var i :| 0 <= i < |got| && Line(MapDes(got, des)[i]).None?;
    if Parses(all, des) {
      assert MapDes(all, des)[i] == MapDes(got, des)[i];
    }
  }

  // ---------- text round trip ----------

  ghost predicate AllConvertible(rs: seq<Record>) {
    forall i :: 0 <= i < |rs| ==> Convertible(rs[i])
  }

  function Normals(rs: seq<Record>): seq<Record> {
    seq(|rs|, i requires 0 <= i < |rs| => Normal(rs[i]))
  }

  lemma {:induction false} SplitUnlines(ls: seq<string>)
    requires forall i :: 0 <= i < |ls| ==> '\n' !in ls[i]
    ensures Split(Unlines(ls), '\n') == ls + [""]
  {
    if ls != [] {
      SplitUnlines(ls[1..]);
      assert Unlines(ls) == ls[0] + ['\n'] + Unlines(ls[1..]);
      SplitFirst(ls[0], '\n', Unlines(ls[1..]));
      assert ls + [""] == [ls[0]] + (ls[1..] + [""]);
    }
  }

  /** Iterating over the written text yields one line per record, each as printed. */
  lemma WrittenLines(ls: seq<string>)
    requires forall i :: 0 <= i < |ls| ==> '\n' !in ls[i]
    ensures var lines := FileLines(Unlines(ls));
            |lines| == |ls| && forall i :: 0 <= i < |ls| ==> lines[i] == ls[i] + "\n"
  {
    SplitUnlines(ls);
  }

  lemma ParseLineNewline(r: Record)
    requires Line(r).Some?
    ensures ParseLine(Line(r).value + "\n") == ParseLine(Line(r).value)
  {
    LinePlain(r);
    StripNothing(Line(r).value);
    StripNewline(Line(r).value);
  }

  lemma ConvertiblePrints(rs: seq<Record>)
    requires AllConvertible(rs)
    ensures Printable(rs)
  {
  }

  /** A whole printed trace is read back, defaults spelled out. */
  lemma TraceReadBack(rs: seq<Record>)
    requires AllConvertible(rs)
    ensures TextOf(rs).Some?
    ensures var lines := FileLines(TextOf(rs).value); Accepted(lines) && Records(lines) == Normals(rs)
  {
    ConvertiblePrints(rs);
    var ls := LinesOf(rs);
    forall i | 0 <= i < |rs|
      ensures '\n' !in ls[i] && ParseLine(ls[i] + "\n") == Ok(Normal(rs[i]))
    {
      LinePlain(rs[i]);
      ParseLineNewline(rs[i]);
      RoundTripExact(rs[i]);
    }
    WrittenLines(ls);
  }

  lemma NormalPrintsSame(rs: seq<Record>)
    requires AllConvertible(rs)
    ensures TextOf(Normals(rs)) == TextOf(rs)
  {
    forall i | 0 <= i < |rs|
      ensures Line(Normals(rs)[i]) == Line(rs[i])
    {
      assert InfoFields(Normal(rs[i]), KindName(rs[i].kind).value) == InfoFields(rs[i], KindName(rs[i].kind).value);
    }
    ConvertiblePrints(rs);
    assert LinesOf(Normals(rs)) == LinesOf(rs);
  }

  // ---------- binary round trip ----------

  /** The serializer's output for these records fits into frames, and the parser undoes it. */
  ghost predicate Serializes(rs: seq<Record>, ser: Record -> Bytes, des: Bytes -> Option<Record>) {
    forall r :: r in rs ==> Framable(ser(r)) && des(ser(r)) == Some(r)
  }

  /** The header is a message that can be framed and parsed. */
  ghost predicate HeaderOk(header: Bytes, p: Parser) { Framable(header) && p.header(header) }

  lemma DropMagic(a: Bytes)
    ensures |MAGIC + a| >= 4 && (MAGIC + a)[..4] == MAGIC && (MAGIC + a)[4..] == a
  {
  }

  lemma FileReadBack(rs: seq<Record>, header: Bytes, ser: Record -> Bytes, p: Parser)
    requires Serializes(rs, ser, p.record) && HeaderOk(header, p)
    ensures FileRecords(EncodedFile(rs, header, ser), p) == Some(rs)
  {
    var ms := MapSer(rs, ser);
    DropMagic(Frame(header) + Frames(ms));
    FrameReadBack(header, Frames(ms));
    SerializedReadBack(rs, ser, p.record);
    AllFramable(ms);
    FramesExact(ms);
  }

  lemma SerializedReadBack(rs: seq<Record>, ser: Record -> Bytes, des: Bytes -> Option<Record>)
    requires Serializes(rs, ser, des)
    ensures var ms := MapSer(rs, ser);
            && (forall i :: 0 <= i < |ms| ==> Framable(ms[i]))
            && Parses(ms, des) && MapDes(ms, des) == rs
  {
    var ms := MapSer(rs, ser);
    forall i | 0 <= i < |ms| ensures Framable(ms[i]) && des(ms[i]) == Some(rs[i]) {
      assert rs[i] in rs;
    }
  }

  /**
   Text to binary and back. Every text the encoder accepts comes back as the canonical text of the
   records it denotes, and encoding that text again gives the same file.
   */
  lemma TextThroughBinary(text: string, header: Bytes, ser: Record -> Bytes, p: Parser)
    requires Accepted(FileLines(text))
    requires Serializes(Records(FileLines(text)), ser, p.record) && HeaderOk(header, p)
    ensures var rs := Records(FileLines(text));
            && FileRecords(EncodedFile(rs, header, ser), p) == Some(rs)
            && TextOf(rs).Some?
            && Accepted(FileLines(TextOf(rs).value)) && Records(FileLines(TextOf(rs).value)) == rs
  {
    var lines := FileLines(text);
    var rs := Records(lines);
    FileReadBack(rs, header, ser, p);
    AcceptedNormal(lines);
    TraceReadBack(rs);
  }

  /** What is read from text is convertible, with the defaults spelled out. */
  lemma AcceptedNormal(lines: seq<string>)
    requires Accepted(lines)
    ensures AllConvertible(Records(lines)) && Normals(Records(lines)) == Records(lines)
  {
    var rs := Records(lines);
    forall i | 0 <= i < |rs|
      ensures Convertible(rs[i]) && Normal(rs[i]) == rs[i]
    {
      ParsedIsConvertible(lines[i]);
    }
  }

  /** Every text the decoder has written for convertible records goes through the binary file unchanged. */
  lemma WrittenTextUnchanged(rs: seq<Record>, header: Bytes, ser: Record -> Bytes, p: Parser)
    requires AllConvertible(rs) && Serializes(Normals(rs), ser, p.record) && HeaderOk(header, p)
    ensures TextOf(rs).Some? && Accepted(FileLines(TextOf(rs).value))
    ensures var back := Records(FileLines(TextOf(rs).value));
            FileRecords(EncodedFile(back, header, ser), p) == Some(back) && TextOf(back) == TextOf(rs)
  {
    TraceReadBack(rs);
    FileReadBack(Normals(rs), header, ser, p);
    NormalPrintsSame(rs);
  }

  // ---------- a serializer there is ----------

  ghost predicate Ascii(s: string) { forall i :: 0 <= i < |s| ==> s[i] as int < 128 }

  lemma {:induction false} DepTextAscii(deps: seq<nat>)
    ensures Ascii(DepText(deps))
  {
    if deps != [] {
      DepTextAscii(deps[..|deps| - 1]);
    }
  }

  lemma {:induction false} JoinAscii(pieces: seq<string>)
    requires forall i :: 0 <= i < |pieces| ==> Ascii(pieces[i])
    ensures Ascii(Join(pieces, ','))
  {
    if |pieces| > 1 {
      JoinAscii(pieces[1..]);
    }
  }

  lemma FieldsAscii(r: Record, name: string)
    requires KindName(r.kind) == Some(name)
    ensures forall i :: 0 <= i < |InfoFields(r, name)| ==> Ascii(InfoFields(r, name)[i])
  {
    InfoFieldsEach(r, name, s => Ascii(s));
  }

  lemma LineAscii(r: Record)
    requires Line(r).Some?
    ensures Ascii(Line(r).value)
  {
    var name := KindName(r.kind).value;
    FieldsAscii(r, name);
    JoinAscii(InfoFields(r, name));
    DepTextAscii(r.robDeps);
    DepTextAscii(r.regDeps);
  }

  function Encode(s: string): Bytes { seq(|s|, i requires 0 <= i < |s| => s[i] as int % 256) }

  function Decode(m: Bytes): string { seq(|m|, i requires 0 <= i < |m| => m[i] as char) }

  /** A file is refused exactly for a wrong start, a header or a message that cannot be parsed. */
  lemma RefusedExact(file: Bytes, p: Parser)
    ensures FileRecords(file, p).Some? <==>
            && MAGIC <= file
            && (ReadMessage(file[4..]).Message? ==> p.header(ReadMessage(file[4..]).body))
            && forall m :: m in ReadAll(file[4..][ReadMessage(file[4..]).used..]) ==> p.record(m).Some?
  {
    assert |file| >= 4 ==> (MAGIC <= file <==> file[..4] == MAGIC);
  }

  /** A file may end after its start. */
  lemma NothingBehindMagic(p: Parser)
    ensures FileRecords(MAGIC, p) == Some([])
  {
    assert MAGIC[4..] == [] && MAGIC[..4] == MAGIC;
    EndReportsNone();
    assert ReadMessage([]).NoMessage? && ReadAll([]) == [];
  }

  lemma MagicReads()
    ensures Decode(MAGIC) == "gem5"
  {
    assert forall i :: 0 <= i < 4 ==> Decode(MAGIC)[i] == "gem5"[i];
  }

  lemma DecodeEncode(s: string)
    requires Ascii(s)
    ensures Decode(Encode(s)) == s
  {
  }

  /** The line of a record, one byte per character. */
  function LineBytes(r: Record): Bytes {
    var line := Line(r);
    if line.None? then [] else Encode(line.value)
  }

  function BytesLine(m: Bytes): Option<Record> {
    var r := ParseLine(Decode(m));
    if r.Ok? then Some(r.value) else None
  }

  /**
   The assumption can be met: the lines themselves serialize all records that are read from text, as long
   as no line is too long for a frame.
   */
  lemma LinesSerialize(rs: seq<Record>)
    requires AllConvertible(rs) && Normals(rs) == rs
    requires forall r :: r in rs ==> |LineBytes(r)| < WORD
    ensures Serializes(rs, LineBytes, BytesLine)
  {
    forall r | r in rs ensures Framable(LineBytes(r)) && BytesLine(LineBytes(r)) == Some(r) {
      var i :| 0 <= i < |rs| && rs[i] == r;
      assert Normal(r) == Normals(rs)[i];
      LineSerializes(r);
    }
  }

  lemma LineSerializes(r: Record)
    requires Convertible(r) && Normal(r) == r
    ensures LineBytes(r) != [] && BytesLine(LineBytes(r)) == Some(r)
  {
    RoundTripExact(r);
    LinePlain(r);
    LineAscii(r);
    DecodeEncode(Line(r).value);
  }
}
