/** Python's text primitives as far as the trace tools use them: `split`, `strip`, `int` and `%d`. */
module Text {

  datatype Option<+T> = None | Some(value: T)

  // ---------- split ----------

  /** `s.split(c)`: always at least one piece. */
  function Split(s: string, c: char): (r: seq<string>)
    ensures |r| >= 1
  {
    if s == [] then [""]
    else if s[0] == c then [""] + Split(s[1..], c)
    else
      var r := Split(s[1..], c);
      [[s[0]] + r[0]] + r[1..]
  }

  /** `c.join(pieces)`. */
  function Join(pieces: seq<string>, c: char): string {
    if pieces == [] then ""
    else if |pieces| == 1 then pieces[0]
    else pieces[0] + [c] + Join(pieces[1..], c)
  }

  lemma {:induction false} SplitWhole(a: string, c: char)
    requires c !in a
    ensures Split(a, c) == [a]
  {
    if a != [] {
      SplitWhole(a[1..], c);
      assert [a[0]] + a[1..] == a;
    }
  }

  lemma {:induction false} SplitFirst(a: string, c: char, rest: string)
    requires c !in a
    ensures Split(a + [c] + rest, c) == [a] + Split(rest, c)
  {
    var s := a + [c] + rest;
    if a == [] {
      assert s[1..] == rest;
    } else {
      SplitFirst(a[1..], c, rest);
      assert s[1..] == a[1..] + [c] + rest;
      assert [a[0]] + a[1..] == a;
    }
  }

  /** Splitting undoes joining, for pieces that do not contain the separator. */
  lemma {:induction false} SplitJoin(pieces: seq<string>, c: char)
    requires pieces != [] && forall i :: 0 <= i < |pieces| ==> c !in pieces[i]
    ensures Split(Join(pieces, c), c) == pieces
  {
    if |pieces| == 1 {
      SplitWhole(pieces[0], c);
      assert pieces == [pieces[0]];
    } else {
      SplitFirst(pieces[0], c, Join(pieces[1..], c));
      SplitJoin(pieces[1..], c);
      assert pieces == [pieces[0]] + pieces[1..];
    }
  }

  /** Joining undoes splitting, and no piece contains the separator. */
  lemma {:induction false} JoinSplit(s: string, c: char)
    ensures Join(Split(s, c), c) == s
    ensures forall i :: 0 <= i < |Split(s, c)| ==> c !in Split(s, c)[i]
  {
    if s != [] {
      JoinSplit(s[1..], c);
      var r := Split(s[1..], c);
      assert s == [s[0]] + s[1..];
      if s[0] == c {
        assert ([""] + r)[1..] == r;
      } else if |r| > 1 {
        assert Split(s, c)[1..] == r[1..];
        assert [s[0]] + (r[0] + [c] + Join(r[1..], c)) == ([s[0]] + r[0]) + [c] + Join(r[1..], c);
      }
    }
  }

  // ---------- dictionary order ----------

  /** Text in dictionary order. */
  predicate TextBefore(a: string, b: string) {
    b != [] && (a == [] || a[0] < b[0] || (a[0] == b[0] && TextBefore(a[1..], b[1..])))
  }

  lemma {:induction false} TextOrder(a: string, b: string)
    ensures !TextBefore(a, a)
    ensures !(TextBefore(a, b) && TextBefore(b, a))
    ensures a == b || TextBefore(a, b) || TextBefore(b, a)
  {
    if a != [] {
      TextOrder(a[1..], if b == [] then [] else b[1..]);
      assert b != [] && a[0] == b[0] && a[1..] == b[1..] ==> [a[0]] + a[1..] == a && [b[0]] + b[1..] == b;
    }
  }

  lemma {:induction false} TextTransitive(a: string, b: string, c: string)
    requires TextBefore(a, b) && TextBefore(b, c)
    ensures TextBefore(a, c)
  {
    if a != [] && a[0] == b[0] == c[0] {
      TextTransitive(a[1..], b[1..], c[1..]);
    }
  }

  /** A proper prefix comes first, and otherwise the first difference decides. */
  lemma {:induction false} DictionaryOrder(a: string, b: string)
    ensures TextBefore(a, b) <==> a < b || exists k :: 0 <= k < |a| && k < |b| && a[..k] == b[..k] && a[k] < b[k]
  {
    if a != [] && b != [] {
      if a[0] == b[0] {
        DictionaryOrder(a[1..], b[1..]);
        SameFirst(a, b);
      } else if a[0] < b[0] {
        assert a[..0] == b[..0];
      }
    }
  }

  lemma SameFirst(a: string, b: string)
    requires a != [] && b != [] && a[0] == b[0]
    ensures a[1..] < b[1..] <==> a < b
    ensures (exists k :: 0 <= k < |a| - 1 && k < |b| - 1 && a[1..][..k] == b[1..][..k] && a[1..][k] < b[1..][k])
       <==> (exists k :: 0 <= k < |a| && k < |b| && a[..k] == b[..k] && a[k] < b[k])
  {
    assert a == [a[0]] + a[1..] && b == [b[0]] + b[1..];
    if k :| 0 <= k < |a| - 1 && k < |b| - 1 && a[1..][..k] == b[1..][..k] && a[1..][k] < b[1..][k] {
      assert a[..k + 1] == [a[0]] + a[1..][..k] && b[..k + 1] == [b[0]] + b[1..][..k];
      assert a[k + 1] < b[k + 1];
    }
    if k :| 0 <= k < |a| && k < |b| && a[..k] == b[..k] && a[k] < b[k] {
      assert k > 0;
      assert a[1..][..k - 1] == a[..k][1..] && b[1..][..k - 1] == b[..k][1..];
      assert a[1..][k - 1] < b[1..][k - 1];
    }
  }

  // ---------- strip ----------

  predicate IsSpace(c: char) { c in {' ', '\t', '\n', '\r'} }

  function StripLeft(s: string): string {
    if s != [] && IsSpace(s[0]) then StripLeft(s[1..]) else s
  }

  function StripRight(s: string): string {
    if s != [] && IsSpace(s[|s| - 1]) then StripRight(s[..|s| - 1]) else s
  }

  function Strip(s: string): string { StripRight(StripLeft(s)) }

  ghost predicate NoSpace(s: string) { forall i :: 0 <= i < |s| ==> !IsSpace(s[i]) }

  lemma StripNothing(s: string)
    requires NoSpace(s)
    ensures Strip(s) == s
  {
  }

  /** A line read from a file ends in a newline, and nothing else is stripped. */
  lemma StripNewline(s: string)
    requires NoSpace(s)
    ensures Strip(s + "\n") == s
  {
    var t := s + ['\n'];
    assert t[..|s|] == s;
    if s == [] {
      assert t[1..] == [];
      assert StripLeft(t) == StripLeft(t[1..]);
    } else {
      assert t[0] == s[0] && !IsSpace(s[0]);
      assert StripLeft(t) == t;
      assert t[|s|] == '\n' && StripRight(t) == StripRight(s);
      assert !IsSpace(s[|s| - 1]);
    }
  }

  ghost predicate AllSpace(s: string) { forall i :: 0 <= i < |s| ==> IsSpace(s[i]) }

  lemma {:induction false} StripLeftExact(s: string) returns (pre: string)
    ensures s == pre + StripLeft(s) && AllSpace(pre)
    ensures StripLeft(s) != [] ==> !IsSpace(StripLeft(s)[0])
  {
    pre := [];
    if s != [] && IsSpace(s[0]) {
      pre := StripLeftExact(s[1..]);
      assert s == [s[0]] + s[1..];
      pre := [s[0]] + pre;
    }
  }

  lemma {:induction false} StripRightExact(s: string) returns (post: string)
    ensures s == StripRight(s) + post && AllSpace(post)
    ensures StripRight(s) != [] ==> !IsSpace(StripRight(s)[|StripRight(s)| - 1])
  {
    post := [];
    if s != [] && IsSpace(s[|s| - 1]) {
      post := StripRightExact(s[..|s| - 1]);
      assert s == s[..|s| - 1] + [s[|s| - 1]];
      post := post + [s[|s| - 1]];
    }
  }

  /** Only space is stripped, at both ends, and all of it. */
  lemma StripExact(s: string) returns (pre: string, post: string)
    ensures s == pre + Strip(s) + post && AllSpace(pre) && AllSpace(post)
    ensures Strip(s) != [] ==> !IsSpace(Strip(s)[0]) && !IsSpace(Strip(s)[|Strip(s)| - 1])
  {
    pre := StripLeftExact(s);
    post := StripRightExact(StripLeft(s));
    assert pre + (Strip(s) + post) == pre + Strip(s) + post;
    assert Strip(s) != [] ==> Strip(s)[0] == StripLeft(s)[0];
  }

  lemma {:induction false} StripSpaces(pre: string, s: string)
    requires AllSpace(pre) && (s != [] ==> !IsSpace(s[0]))
    ensures StripLeft(pre + s) == s
  {
    if pre == [] {
      assert pre + s == s;
    } else {
      assert (pre + s)[1..] == pre[1..] + s;
      StripSpaces(pre[1..], s);
    }
  }

  lemma {:induction false} StripSpacesRight(s: string, post: string)
    requires AllSpace(post) && (s != [] ==> !IsSpace(s[|s| - 1]))
    ensures StripRight(s + post) == s
  {
    if post == [] {
      assert s + post == s;
    } else {
      assert (s + post)[..|s + post| - 1] == s + post[..|post| - 1];
      StripSpacesRight(s, post[..|post| - 1]);
    }
  }

  // ---------- numbers ----------

  predicate IsDigit(c: char) { '0' <= c <= '9' }

  function Digit(d: nat): (c: char)
    requires d < 10
    ensures IsDigit(c) && c as int - '0' as int == d
  {
    '0' + d as char
  }

  /** `'%d' % n` for a number that is not negative. */
  function Decimal(n: nat): (r: string)
    ensures r != [] && forall i :: 0 <= i < |r| ==> IsDigit(r[i])
  {
    if n < 10 then [Digit(n)] else Decimal(n / 10) + [Digit(n % 10)]
  }

  predicate AllDigits(s: string) { s != [] && forall i :: 0 <= i < |s| ==> IsDigit(s[i]) }

  /** The number that a string of digits denotes. */
  function Value(s: string): (n: nat)
    requires forall i :: 0 <= i < |s| ==> IsDigit(s[i])
  {
    if s == [] then 0
    else
      assert IsDigit(s[|s| - 1]);
      Value(s[..|s| - 1]) * 10 + (s[|s| - 1] as int - '0' as int)
  }

  /** `int(s)`, without Python's digit-group underscores. */
  function ParseInt(s: string): Option<int> {
    var t := Strip(s);
    if AllDigits(t) then Some(Value(t))
    else if t != [] && t[0] == '+' && AllDigits(t[1..]) then Some(Value(t[1..]))
    else if t != [] && t[0] == '-' && AllDigits(t[1..]) then Some(-(Value(t[1..]) as int))
    else None
  }

  lemma {:induction false} ValueDecimal(n: nat)
    ensures Value(Decimal(n)) == n
  {
    if n >= 10 {
      ValueDecimal(n / 10);
      assert Decimal(n)[..|Decimal(n)| - 1] == Decimal(n / 10);
    } else {
      assert Decimal(n)[..0] == [];
    }
  }

  /** Numbers survive being printed and read. */
  lemma ParseDecimal(n: nat)
    ensures ParseInt(Decimal(n)) == Some(n)
  {
    ValueDecimal(n);
    StripNothing(Decimal(n));
  }

  /** `'%d' % n` for any number. */
  function Signed(n: int): string {
    if n < 0 then "-" + Decimal(-n) else Decimal(n)
  }

  lemma MinusSign(t: string)
    requires AllDigits(t)
    ensures ParseInt("-" + t) == Some(-(Value(t) as int))
  {
    var s := "-" + t;
    StripNothing(s);
    assert s[0] == '-' && s[1..] == t && !AllDigits(s);
  }

  lemma ParseNegative(n: nat, s: string)
    requires s == "-" + Decimal(n)
    ensures ParseInt(s) == Some(-(n as int))
  {
    MinusSign(Decimal(n));
    ValueDecimal(n);
  }

  lemma ParseSigned(n: int)
    ensures ParseInt(Signed(n)) == Some(n)
  {
    var s := Signed(n);
    if n < 0 {
      ParseNegative(-n, s);
    } else {
      ParseDecimal(n);
    }
  }

  /** A sign and digits, with space around them. */
  ghost predicate IsNumber(s: string, pre: string, sign: string, digits: string, post: string) {
    && s == pre + (sign + digits) + post && AllSpace(pre) && AllSpace(post)
    && sign in {"", "+", "-"} && AllDigits(digits)
  }

  /** A text is a number exactly in this form. */
  lemma ParseIntShape(s: string) returns (pre: string, sign: string, digits: string, post: string)
    requires ParseInt(s).Some?
    ensures IsNumber(s, pre, sign, digits, post)
    ensures ParseInt(s).value == if sign == "-" then -(Value(digits) as int) else Value(digits)
  {
    pre, post := StripExact(s);
    var t := Strip(s);
    if AllDigits(t) {
      sign, digits := "", t;
    } else {
      sign, digits := t[..1], t[1..];
      assert t == [t[0]] + t[1..];
    }
    assert sign + digits == t;
  }

  lemma ParseIntOf(s: string, pre: string, sign: string, digits: string, post: string)
    requires IsNumber(s, pre, sign, digits, post)
    ensures ParseInt(s) == Some(if sign == "-" then -(Value(digits) as int) else Value(digits))
  {
    var t := sign + digits;
    assert !IsSpace(t[0]) && !IsSpace(t[|t| - 1]) && t[|t| - 1] == digits[|digits| - 1];
    StripSpaces(pre, t + post);
    assert pre + t + post == pre + (t + post);
    StripSpacesRight(t, post);
    if sign != "" {
      assert t[1..] == digits && !IsDigit(t[0]);
    } else {
      assert t == digits;
    }
  }

  lemma DecimalPlain(n: nat)
    ensures ',' !in Decimal(n) && ':' !in Decimal(n) && '\n' !in Decimal(n) && NoSpace(Decimal(n))
  {
  }
}
