/** Turning tokens into a string literal, and reading a string literal back. */
module Stringize {
  import opened Options

  /** A token's spelling, whether white space precedes it, whether it is a string literal or character constant. */
  datatype Tok = Tok(str: string, ws: bool, quoted: bool)

  // ---------- writing ----------

  function Escape(s: string): string {
    if s == "" then ""
    else Escape(s[..|s| - 1]) + EscapeChar(s[|s| - 1])
  }

  function EscapeChar(c: char): string {
    if c == '\"' || c == '\\' then ['\\', c] else [c]
  }

  /** The text between the quotes. */
  function Body(ts: seq<Tok>): string {
    if ts == [] then ""
    else
      var before, t := Body(ts[..|ts| - 1]), ts[|ts| - 1];
      before + (if t.ws && before != "" then " " else "") + (if t.quoted then Escape(t.str) else t.str)
  }

  /** The spellings, with one space where white space precedes a token that is not the first. */
  function Spelled(ts: seq<Tok>): string {
    if ts == [] then ""
    else
      var before, t := Spelled(ts[..|ts| - 1]), ts[|ts| - 1];
      before + (if t.ws && before != "" then " " else "") + t.str
  }

  /** The literal of the `#` operator. */
  method StringizeTokens(ts: seq<Tok>) returns (str: string)
    ensures str == "\"" + Body(ts) + "\""
  {
    str := "\"";
    for i := 0 to |ts|
      invariant str == "\"" + Body(ts[..i])
    {
      BodyNext(ts, i);
      var t := ts[i];
      if t.ws && |str| > 1 { str := str + " "; }
      if t.quoted {
        str := AppendEscaped(str, t.str);
      } else {
        str := str + t.str;
      }
    }
    assert ts[..|ts|] == ts;
    str := str + "\"";
  }

  lemma BodyNext(ts: seq<Tok>, i: nat)
    requires i < |ts|
    ensures var before, t := Body(ts[..i]), ts[i];
            "\"" + Body(ts[..i + 1])
            == (if t.ws && |"\"" + before| > 1 then "\"" + before + " " else "\"" + before)
               + (if t.quoted then Escape(t.str) else t.str)
  {
    hide Escape;
    assert ts[..i + 1][..i] == ts[..i];
  }

  method AppendEscaped(str: string, s: string) returns (r: string)
    ensures r == str + Escape(s)
  {
    r := str;
    for k := 0 to |s|
      invariant r == str + Escape(s[..k])
    {
      assert s[..k + 1][..k] == s[..k];
      if s[k] == '\"' || s[k] == '\\' { r := r + "\\"; }
      r := r + [s[k]];
    }
    assert s[..|s|] == s;
  }

  // ---------- reading ----------

  predicate Octal(c: char) {
    '0' <= c <= '7'
  }

  predicate Hex(c: char) {
    '0' <= c <= '9' || 'a' <= c <= 'f' || 'A' <= c <= 'F'
  }

  function XDigit(c: char): (v: nat)
    requires Hex(c)
    ensures v < 16
  {
    if c <= '9' then (c as int) - ('0' as int)
    else if c <= 'F' then (c as int) - ('A' as int) + 10
    else (c as int) - ('a' as int) + 10
  }

  function Byte(v: int): char {
    (v % 256) as char
  }

  /** The UTF-8 form of a character code. */
  function Utf8(v: nat): Option<string> {
    if v < 0x80 then Some([Byte(v)])
    else if v < 0x800 then Some([Byte(0xC0 + v / 0x40), Byte(0x80 + v % 0x40)])
    else if v < 0x10000 then Some([Byte(0xE0 + v / 0x1000), Byte(0x80 + v / 0x40 % 0x40), Byte(0x80 + v % 0x40)])
    else if v < 0x110000 then
      Some([Byte(0xF0 + v / 0x40000), Byte(0x80 + v / 0x1000 % 0x40), Byte(0x80 + v / 0x40 % 0x40),
          Byte(0x80 + v % 0x40)])
    else None
  }

  /** What an escape stands for, and the text behind it. */
  datatype Escaped = Bad | Got(val: string, rest: string)

  /** The text behind a backslash. */
  function ScanEscaped(s: string): (r: Escaped)
    ensures r.Got? ==> |r.rest| < |s| && |r.val| <= |s| - |r.rest|
  {
    if s == "" then Bad
    else
      var c, rest := s[0], s[1..];
      match c
      case '\\' => Got("\\", rest)
      case '\'' => Got("\'", rest)
      case '\"' => Got("\"", rest)
      case '?' => Got("?", rest)
      case 'a' => Got([Byte(7)], rest)
      case 'b' => Got([Byte(8)], rest)
      case 'f' => Got([Byte(12)], rest)
      case 'n' => Got([Byte(10)], rest)
      case 'r' => Got([Byte(13)], rest)
      case 't' => Got([Byte(9)], rest)
      case 'v' => Got([Byte(11)], rest)
      case 'e' => Got([Byte(27)], rest)
      case 'x' => if rest != "" && Hex(rest[0]) then ScanHex(rest, 0) else Bad
      case 'u' => ScanUCN(rest, 4, 0)
      case 'U' => ScanUCN(rest, 8, 0)
      case _ => if Octal(c) then ScanOctal(rest, 2, XDigit(c)) else Bad
  }

  function ScanHex(s: string, val: nat): (r: Escaped)
    ensures r.Got? && |r.rest| <= |s| && |r.val| == 1
    ensures s != "" && Hex(s[0]) ==> |r.rest| < |s|
  {
    if s != "" && Hex(s[0]) then ScanHex(s[1..], 16 * val + XDigit(s[0])) else Got([Byte(val)], s)
  }

  function ScanOctal(s: string, n: nat, val: nat): (r: Escaped)
    ensures r.Got? && |r.rest| <= |s| && |r.val| == 1
    decreases n
  {
    if n > 0 && s != "" && Octal(s[0]) then ScanOctal(s[1..], n - 1, 8 * val + XDigit(s[0])) else Got([Byte(val)], s)
  }

  function ScanUCN(s: string, n: nat, val: nat): (r: Escaped)
    ensures r.Got? ==> |r.rest| + n == |s| && |r.val| <= 4
    decreases n
  {
    if n == 0 then
      match Utf8(val)
      case None => Bad
      case Some(v) => Got(v, s)
    else if s == "" || !Hex(s[0]) then Bad
    else ScanUCN(s[1..], n - 1, 16 * val + XDigit(s[0]))
  }

  /** The value of a literal from behind its opening quote; `None` if it is malformed or does not end. */
  function Scan(s: string): Option<string>
    decreases |s|
  {
    if s == "" then None
    else if s[0] == '\"' then Some("")
    else if s[0] == '\\' then
      match ScanEscaped(s[1..])
      case Bad => None
      case Got(v, rest) => Prepend(v, Scan(rest))
    else Prepend([s[0]], Scan(s[1..]))
  }

  function Prepend(v: string, r: Option<string>): Option<string> {
    if r.None? then None else Some(v + r.value)
  }

  // ---------- the scanner as it runs ----------

  class Scanner {
    const text: string
    var p: nat

    ghost predicate Valid()
      reads this
    {
      p <= |text|
    }

    ghost function Rest(): string
      reads this
      requires Valid()
    {
      text[p..]
    }

    constructor (text: string)
      ensures Valid() && Rest() == text && this.text == text
    {
      this.text, p := text, 0;
    }

    method Next() returns (c: char)
      requires Valid() && Rest() != ""
      modifies this
      ensures Valid() && [c] + Rest() == old(Rest()) && c == old(Rest())[0] && Rest() == old(Rest())[1..]
    {
      c := text[p];
      p := p + 1;
    }

    /** The value of the literal that the text consists of; `None` for an error or a text that does not end. */
    method ScanLiteral() returns (r: Option<string>)
      requires Valid() && Rest() != "" && Rest()[0] == '\"'
      modifies this
      ensures Valid() && r == Scan(old(Rest())[1..])
    {
      var _ := Next();
      var val := "";
      ghost var start := Rest();
      PrependNothing(Scan(start));
      while p < |text| && text[p] != '\"'
        invariant Valid() && Prepend(val, Scan(Rest())) == Scan(start)
        decreases |text| - p
      {
        ghost var at, was := Rest(), val;
        var c := Next();
        if c == '\\' {
          var v := ParseEscaped();
          if v.None? { return None; }
          val := val + v.value;
          PrependTwice(was, v.value, Scan(Rest()));
        } else {
          val := val + [c];
          PrependTwice(was, [c], Scan(Rest()));
        }
      }
      if p == |text| { return None; }
      assert val + "" == val;
      return Some(val);
    }

    method ParseEscaped() returns (r: Option<string>)
      requires Valid()
      modifies this
      ensures Valid() && p >= old(p)
      ensures match ScanEscaped(old(Rest()))
              case Bad => r == None
              case Got(v, rest) => r == Some(v) && Rest() == rest
    {
      if p == |text| { return None; }
      ghost var start := Rest();
      var c := Next();
      match c
      case '\\' => return Some("\\");
      case '\'' => return Some("\'");
      case '\"' => return Some("\"");
      case '?' => return Some("?");
      case 'a' => return Some([Byte(7)]);
      case 'b' => return Some([Byte(8)]);
      case 'f' => return Some([Byte(12)]);
      case 'n' => return Some([Byte(10)]);
      case 'r' => return Some([Byte(13)]);
      case 't' => return Some([Byte(9)]);
      case 'v' => return Some([Byte(11)]);
      case 'e' => return Some([Byte(27)]);
      case 'x' => r := ParseHexEscaped();
      case 'u' => r := ParseUCN(4);
      case 'U' => r := ParseUCN(8);
      case _ =>
        if !Octal(c) { return None; }
        r := ParseOctEscaped(c);
    }

    method ParseHexEscaped() returns (r: Option<string>)
      requires Valid()
      modifies this
      ensures Valid() && p >= old(p)
      ensures var s := old(Rest());
              if s != "" && Hex(s[0]) then
                var e := ScanHex(s, 0); r == Some(e.val) && Rest() == e.rest
              else r == None
    {
      if p == |text| || !Hex(text[p]) { return None; }
      var val := 0;
      ghost var start := Rest();
      while p < |text| && Hex(text[p])
        invariant Valid() && p >= old(p) && val >= 0 && ScanHex(Rest(), val) == ScanHex(start, 0)
        decreases |text| - p
      {
        var c := Next();
        val := 16 * val + XDigit(c);
      }
      return Some([Byte(val)]);
    }

    method ParseOctEscaped(first: char) returns (r: Option<string>)
      requires Valid() && Octal(first)
      modifies this
      ensures Valid() && p >= old(p)
      ensures var e := ScanOctal(old(Rest()), 2, XDigit(first)); r == Some(e.val) && Rest() == e.rest
    {
      var val := XDigit(first);
      if p == |text| || !Octal(text[p]) { return Some([Byte(val)]); }
      var c := Next();
      val := 8 * val + XDigit(c);
      if p == |text| || !Octal(text[p]) { return Some([Byte(val)]); }
      c := Next();
      val := 8 * val + XDigit(c);
      return Some([Byte(val)]);
    }

    method ParseUCN(len: nat) returns (r: Option<string>)
      requires Valid()
      modifies this
      ensures Valid() && p >= old(p)
      ensures match ScanUCN(old(Rest()), len, 0)
              case Bad => r == None
              case Got(v, rest) => r == Some(v) && Rest() == rest
    {
      var val := 0;
      ghost var start := Rest();
      for i := 0 to len
        invariant Valid() && p >= old(p) && val >= 0 && ScanUCN(Rest(), len - i, val) == ScanUCN(start, len, 0)
      {
        if p == |text| { return None; }
        var c := Next();
        if !Hex(c) { return None; }
        val := 16 * val + XDigit(c);
      }
      r := Utf8(val);
    }
  }

  lemma PrependNothing(r: Option<string>)
    ensures Prepend("", r) == r
  {
    if r.Some? { assert "" + r.value == r.value; }
  }

  lemma PrependTwice(a: string, b: string, r: Option<string>)
    ensures Prepend(a, Prepend(b, r)) == Prepend(a + b, r)
  {
    if r.Some? { assert a + (b + r.value) == a + b + r.value; }
  }

  // ---------- round trip ----------

  /** A character of the spelling, and whether it is escaped when it needs it. */
  datatype Mark = Mark(c: char, quoted: bool)

  function Written(m: seq<Mark>): string {
    if m == [] then "" else (if m[0].quoted then EscapeChar(m[0].c) else [m[0].c]) + Written(m[1..])
  }

  function Plain(m: seq<Mark>): string {
    if m == [] then "" else [m[0].c] + Plain(m[1..])
  }

  predicate Safe(m: Mark) {
    m.quoted || (m.c != '\"' && m.c != '\\')
  }

  ghost predicate AllSafe(m: seq<Mark>) {
    forall i :: 0 <= i < |m| ==> Safe(m[i])
  }

  lemma ScanPlain(c: char, rest: string)
    requires c != '\"' && c != '\\'
    ensures Scan([c] + rest) == Prepend([c], Scan(rest))
  {
    assert ([c] + rest)[1..] == rest;
  }

  lemma ScanQuoted(c: char, rest: string)
    requires c == '\"' || c == '\\'
    ensures Scan(['\\', c] + rest) == Prepend([c], Scan(rest))
  {
    assert (['\\', c] + rest)[1..] == [c] + rest && ([c] + rest)[1..] == rest;
    assert ScanEscaped([c] + rest) == Got([c], rest);
  }

  lemma {:induction false} SafeRoundTrip(m: seq<Mark>)
    requires AllSafe(m)
    ensures Scan(Written(m) + "\"") == Some(Plain(m))
    decreases |m|
  {
    hide Scan, ScanEscaped;
    if m == [] {
      assert Written(m) + "\"" == "\"";
      ScanEnd();
    } else {
      SafeRoundTrip(m[1..]);
      var rest := Written(m[1..]) + "\"";
      var c := m[0].c;
      if c == '\"' || c == '\\' {
        assert Written(m) + "\"" == ['\\', c] + rest;
        ScanQuoted(c, rest);
      } else {
        assert Written(m) + "\"" == [c] + rest;
        ScanPlain(c, rest);
      }
    }
  }

  lemma ScanEnd()
    ensures Scan("\"") == Some("")
  {
  }

  // ---------- what an unescaped quote or backslash does ----------

  /** The text between `m` and the closing quote. */
  function Closed(m: seq<Mark>): string {
    Written(m) + "\""
  }

  lemma ClosedStep(m: seq<Mark>)
    requires m != []
    ensures if m[0].quoted && (m[0].c == '\"' || m[0].c == '\\') then
              Closed(m)[0] == '\\' && Closed(m)[1..] == [m[0].c] + Closed(m[1..])
            else Closed(m)[0] == m[0].c && Closed(m)[1..] == Closed(m[1..])
  {
    var rest := Closed(m[1..]);
    if m[0].quoted && (m[0].c == '\"' || m[0].c == '\\') {
      assert Closed(m) == ['\\'] + ([m[0].c] + rest);
    } else {
      assert Closed(m) == [m[0].c] + rest;
    }
  }

  /** Digits are never escaped, so an escape with digits ends between two characters. */
  lemma {:induction false} HexStops(m: seq<Mark>, val: nat) returns (j: nat)
    ensures j <= |m| && ScanHex(Closed(m), val).rest == Closed(m[j..])
    decreases |m|
  {
    j := 0;
    if m != [] {
      ClosedStep(m);
      if Hex(Closed(m)[0]) {
        var i := HexStops(m[1..], 16 * val + XDigit(Closed(m)[0]));
        j := i + 1;
        assert m[1..][i..] == m[j..];
      }
    }
  }

  lemma {:induction false} OctalStops(m: seq<Mark>, n: nat, val: nat) returns (j: nat)
    ensures j <= |m| && ScanOctal(Closed(m), n, val).rest == Closed(m[j..])
    decreases n
  {
    j := 0;
    if m != [] {
      ClosedStep(m);
      if n > 0 && Octal(Closed(m)[0]) {
        var i := OctalStops(m[1..], n - 1, 8 * val + XDigit(Closed(m)[0]));
        j := i + 1;
        assert m[1..][i..] == m[j..];
      }
    }
  }

  lemma {:induction false} UCNStops(m: seq<Mark>, n: nat, val: nat)
    requires ScanUCN(Closed(m), n, val).Got?
    ensures n <= |m| && ScanUCN(Closed(m), n, val).rest == Closed(m[n..])
    decreases n
  {
    if n > 0 {
      if m != [] {
        ClosedStep(m);
        UCNStops(m[1..], n - 1, 16 * val + XDigit(Closed(m)[0]));
        assert m[1..][n - 1..] == m[n..];
      }
    } else {
      assert m[0..] == m;
    }
  }

  /** No more characters are read than were written. */
  lemma {:induction false} ScanShort(m: seq<Mark>)
    ensures Scan(Closed(m)).Some? ==> |Scan(Closed(m)).value| <= |m|
    decreases |m|, 2
  {
    if m != [] {
      ClosedStep(m);
      var c := m[0].c;
      if m[0].quoted && (c == '\"' || c == '\\') {
        assert ([c] + Closed(m[1..]))[1..] == Closed(m[1..]);
        ScanShort(m[1..]);
      } else if c == '\\' {
        EscapeShort(m[1..]);
      } else if c != '\"' {
        ScanShort(m[1..]);
      }
    } else {
      assert Closed(m) == "\"";
    }
  }

  /** Behind a stray backslash too. */
  lemma {:induction false} EscapeShort(m: seq<Mark>)
    ensures var e := ScanEscaped(Closed(m));
            e.Got? && Scan(e.rest).Some? ==> |e.val| + |Scan(e.rest).value| <= |m|
    decreases |m|, 1
  {
    if m == [] {
      assert Closed(m) == "\"" && "\""[1..] == "";
    } else {
      ClosedStep(m);
      var c, rest := m[0].c, Closed(m[1..]);
      if m[0].quoted && (c == '\"' || c == '\\') {
        assert ([c] + rest)[1..] == rest;
        EscapeShort(m[1..]);
      } else {
        if c == 'x' { HexShort(m); }
        if c == 'u' { UCNShort(m, 4); }
        if c == 'U' { UCNShort(m, 8); }
        if Octal(c) { OctalShort(m); }
        ScanShort(m[1..]);
      }
    }
  }

  /** Escapes that read digits. */
  lemma HexShort(m: seq<Mark>)
    requires m != [] && m[0].c == 'x'
    ensures var e := ScanEscaped(Closed(m));
            e.Got? && Scan(e.rest).Some? ==> |e.val| + |Scan(e.rest).value| <= |m|
    decreases |m|, 0
  {
    hide Scan, ScanUCN, ScanOctal;
    ClosedStep(m);
    if Hex(Closed(m[1..])[0]) {
      var j := HexStops(m[1..], 0);
      ScanShort(m[1..][j..]);
    }
  }

  lemma UCNShort(m: seq<Mark>, n: nat)
    requires m != [] && (if n == 4 then m[0].c == 'u' else n == 8 && m[0].c == 'U')
    ensures var e := ScanEscaped(Closed(m));
            e.Got? && Scan(e.rest).Some? ==> |e.val| + |Scan(e.rest).value| <= |m|
    decreases |m|, 0
  {
    hide Scan, ScanUCN, ScanOctal, ScanHex;
    ClosedStep(m);
    if ScanUCN(Closed(m[1..]), n, 0).Got? {
      UCNStops(m[1..], n, 0);
      ScanShort(m[1..][n..]);
    }
  }

  lemma OctalShort(m: seq<Mark>)
    requires m != [] && Octal(m[0].c)
    ensures var e := ScanEscaped(Closed(m));
            e.Got? && Scan(e.rest).Some? ==> |e.val| + |Scan(e.rest).value| <= |m|
    decreases |m|, 0
  {
    hide Scan, ScanUCN, ScanOctal, ScanHex;
    ClosedStep(m);
    var j := OctalStops(m[1..], 2, XDigit(m[0].c));
    ScanShort(m[1..][j..]);
  }

  lemma {:induction false} UnsafeShorter(m: seq<Mark>)
    requires !AllSafe(m)
    ensures Scan(Closed(m)).Some? ==> |Scan(Closed(m)).value| < |m|
    decreases |m|
  {
    ClosedStep(m);
    if !Safe(m[0]) {
      if m[0].c == '\\' { EscapeShort(m[1..]); }
    } else {
      assert !AllSafe(m[1..]) by {
        var i :| 0 <= i < |m| && !Safe(m[i]);
        assert !Safe(m[1..][i - 1]);
      }
      UnsafeShorter(m[1..]);
      var c := m[0].c;
      if c == '\"' || c == '\\' { assert ([c] + Closed(m[1..]))[1..] == Closed(m[1..]); }
    }
  }

  // ---------- tokens ----------

  function MarkAll(s: string, quoted: bool): seq<Mark> {
    seq(|s|, i requires 0 <= i < |s| => Mark(s[i], quoted))
  }

  function Marks(ts: seq<Tok>): seq<Mark> {
    if ts == [] then []
    else
      var before, t := Marks(ts[..|ts| - 1]), ts[|ts| - 1];
      before + (if t.ws && before != [] then [Mark(' ', false)] else []) + MarkAll(t.str, t.quoted)
  }

  lemma {:induction false} WrittenAppend(a: seq<Mark>, b: seq<Mark>)
    ensures Written(a + b) == Written(a) + Written(b) && Plain(a + b) == Plain(a) + Plain(b)
    decreases |a|
  {
    if a == [] {
      assert a + b == b;
    } else {
      hide EscapeChar;
      assert (a + b)[0] == a[0] && (a + b)[1..] == a[1..] + b;
      WrittenAppend(a[1..], b);
      var head := if a[0].quoted then EscapeChar(a[0].c) else [a[0].c];
      assert head + Written(a[1..]) + Written(b) == head + (Written(a[1..]) + Written(b));
      assert [a[0].c] + Plain(a[1..]) + Plain(b) == [a[0].c] + (Plain(a[1..]) + Plain(b));
    }
  }

  lemma {:induction false} MarkAllIs(s: string, quoted: bool)
    ensures Written(MarkAll(s, quoted)) == (if quoted then Escape(s) else s) && Plain(MarkAll(s, quoted)) == s
    decreases |s|
  {
    if s != "" {
      var n := |s| - 1;
      MarkAllIs(s[..n], quoted);
      var last := [Mark(s[n], quoted)];
      assert MarkAll(s, quoted) == MarkAll(s[..n], quoted) + last;
      WrittenAppend(MarkAll(s[..n], quoted), last);
      assert last[1..] == [] && Written(last) == (if quoted then EscapeChar(s[n]) else [s[n]]) && Plain(last) == [s[n]];
      assert s == s[..n] + [s[n]];
    }
  }

  lemma {:induction false} MarksIs(ts: seq<Tok>)
    ensures Written(Marks(ts)) == Body(ts) && Plain(Marks(ts)) == Spelled(ts)
    ensures (Marks(ts) == [] <==> Body(ts) == "") && (Marks(ts) == [] <==> Spelled(ts) == "")
    decreases |ts|
  {
    if ts != [] {
      var t := ts[|ts| - 1];
      var before := Marks(ts[..|ts| - 1]);
      var space := if t.ws && before != [] then [Mark(' ', false)] else [];
      MarksIs(ts[..|ts| - 1]);
      MarkAllIs(t.str, t.quoted);
      WrittenAppend(before + space, MarkAll(t.str, t.quoted));
      WrittenAppend(before, space);
      assert space != [] ==> space[1..] == [] && Written(space) == " " && Plain(space) == " ";
    }
    NoMarks(Marks(ts));
  }

  lemma NoMarks(m: seq<Mark>)
    ensures (m == [] <==> Written(m) == "") && (m == [] <==> Plain(m) == "")
  {
  }

  /** A token that can be put between quotes as it is, or is escaped. */
  predicate Quotable(t: Tok) {
    t.quoted || ('\"' !in t.str && '\\' !in t.str)
  }

  lemma {:induction false} MarksSafe(ts: seq<Tok>)
    ensures AllSafe(Marks(ts)) <==> forall t :: t in ts ==> Quotable(t)
    decreases |ts|
  {
    if ts != [] {
      var init, t := ts[..|ts| - 1], ts[|ts| - 1];
      var space := if t.ws && Marks(init) != [] then [Mark(' ', false)] else [];
      MarksSafe(init);
      SafeAppend(Marks(init), space + MarkAll(t.str, t.quoted));
      SafeAppend(space, MarkAll(t.str, t.quoted));
      assert Marks(ts) == Marks(init) + (space + MarkAll(t.str, t.quoted));
      MarkAllSafe(t);
      assert forall x :: x in ts <==> x in init || x == t by { assert ts == init + [t]; }
    }
  }

  lemma SafeAppend(a: seq<Mark>, b: seq<Mark>)
    ensures AllSafe(a + b) <==> AllSafe(a) && AllSafe(b)
  {
    if AllSafe(a + b) {
      forall i | 0 <= i < |a| ensures Safe(a[i]) { assert (a + b)[i] == a[i]; }
      forall i | 0 <= i < |b| ensures Safe(b[i]) { assert (a + b)[|a| + i] == b[i]; }
    }
  }

  lemma MarkAllSafe(t: Tok)
    ensures AllSafe(MarkAll(t.str, t.quoted)) <==> Quotable(t)
  {
    var m := MarkAll(t.str, t.quoted);
    if AllSafe(m) && !t.quoted {
      forall i | 0 <= i < |t.str|
        ensures t.str[i] != '\"' && t.str[i] != '\\'
      {
        assert Safe(m[i]);
      }
    }
  }

  /** Reading back what `#` has written gives the spellings exactly when no token outside literals contains a
      quote or a backslash. (No token contains a newline.) */
  lemma RoundTripIff(ts: seq<Tok>)
    ensures Scan(Body(ts) + "\"") == Some(Spelled(ts)) <==> forall t :: t in ts ==> Quotable(t)
  {
    MarksIs(ts);
    MarksSafe(ts);
    var m := Marks(ts);
    if AllSafe(m) {
      SafeRoundTrip(m);
    } else {
      UnsafeShorter(m);
      PlainLength(m);
    }
  }

  lemma {:induction false} PlainLength(m: seq<Mark>)
    ensures |Plain(m)| == |m|
    decreases |m|
  {
    if m != [] { PlainLength(m[1..]); }
  }

  /** The two methods one after the other. */
  method WriteAndRead(ts: seq<Tok>) returns (r: Option<string>)
    ensures r == Some(Spelled(ts)) <==> forall t :: t in ts ==> Quotable(t)
  {
    var str := StringizeTokens(ts);
    assert str[1..] == Body(ts) + "\"";
    RoundTripIff(ts);
    var scanner := new Scanner(str);
    r := scanner.ScanLiteral();
  }
}
