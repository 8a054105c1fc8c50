/** Every way to spell the bytes of a string literal, and what the scanner makes of it. */
module Escapes {
  import opened Options
  import opened Stringize

  // ---------- numbers in digits ----------

  datatype Digit = Digit(v: nat, upper: bool)

  const Upper := "0123456789ABCDEF"
  const Lower := "0123456789abcdef"

  function Char(d: Digit): char
    requires d.v < 16
  {
    if d.upper then Upper[d.v] else Lower[d.v]
  }

  predicate Below(ds: seq<Digit>, base: nat) {
    forall i :: 0 <= i < |ds| ==> ds[i].v < base
  }

  function Chars(ds: seq<Digit>): (s: string)
    requires Below(ds, 16)
    ensures |s| == |ds|
  {
    if ds == [] then "" else [Char(ds[0])] + Chars(ds[1..])
  }

  function Power(base: nat, n: nat): nat {
    if n == 0 then 1 else base * Power(base, n - 1)
  }

  /** The first digit weighs most. */
  function Number(ds: seq<Digit>, base: nat): nat {
    if ds == [] then 0 else ds[0].v * Power(base, |ds| - 1) + Number(ds[1..], base)
  }

  // ---------- UTF-8 ----------

  predicate Follows(c: char) {
    0x80 <= c as int < 0xC0
  }

  function Six(c: char): int {
    c as int - 0x80
  }

  /** The code that bytes stand for, by the definition of UTF-8: only the shortest form is one. */
  function Decode(s: string): Option<int> {
    if s == "" then None
    else
      var lead := s[0] as int;
      if |s| == 1 && lead < 0x80 then Some(lead)
      else if |s| == 2 && 0xC0 <= lead < 0xE0 && Follows(s[1]) then
        Within(0x80, (lead - 0xC0) * 0x40 + Six(s[1]), 0x800)
      else if |s| == 3 && 0xE0 <= lead < 0xF0 && Follows(s[1]) && Follows(s[2]) then
        Within(0x800, (lead - 0xE0) * 0x1000 + Six(s[1]) * 0x40 + Six(s[2]), 0x10000)
      else if |s| == 4 && 0xF0 <= lead < 0xF8 && Follows(s[1]) && Follows(s[2]) && Follows(s[3]) then
        Within(0x10000, (lead - 0xF0) * 0x40000 + Six(s[1]) * 0x1000 + Six(s[2]) * 0x40 + Six(s[3]), 0x110000)
      else None
  }

  function Within(lo: int, v: int, hi: int): Option<int> {
    if lo <= v < hi then Some(v) else None
  }

  lemma SameParts(a: int, b: int, c: int, d: int)
    requires a * 0x40 + b == c * 0x40 + d && 0 <= b < 0x40 && 0 <= d < 0x40
    ensures a == c && b == d
  {
  }

  lemma ByteIs(v: nat)
    requires v < 0x100
    ensures Byte(v) as int == v
  {
  }

  lemma Two(v: nat)
    requires 0x80 <= v < 0x800
    ensures Decode([Byte(0xC0 + v / 0x40), Byte(0x80 + v % 0x40)]) == Some(v)
  {
    hide Byte;
    ByteIs(0xC0 + v / 0x40);
    ByteIs(0x80 + v % 0x40);
  }

  lemma Three(v: nat)
    requires 0x800 <= v < 0x10000
    ensures Decode([Byte(0xE0 + v / 0x1000), Byte(0x80 + v / 0x40 % 0x40), Byte(0x80 + v % 0x40)]) == Some(v)
  {
    hide Byte;
    var a := v / 0x40;
    assert v / 0x1000 == a / 0x40;
    ByteIs(0xE0 + a / 0x40);
    ByteIs(0x80 + a % 0x40);
    ByteIs(0x80 + v % 0x40);
  }

  lemma Four(v: nat)
    requires 0x10000 <= v < 0x110000
    ensures Decode([Byte(0xF0 + v / 0x40000), Byte(0x80 + v / 0x1000 % 0x40), Byte(0x80 + v / 0x40 % 0x40),
                    Byte(0x80 + v % 0x40)]) == Some(v)
  {
    hide Byte;
    var a, b := v / 0x40, v / 0x1000;
    assert b == a / 0x40 && v / 0x40000 == b / 0x40;
    ByteIs(0xF0 + b / 0x40);
    ByteIs(0x80 + b % 0x40);
    ByteIs(0x80 + a % 0x40);
    ByteIs(0x80 + v % 0x40);
  }

  lemma Utf8Decodes(v: nat)
    requires v < 0x110000
    ensures Utf8(v).Some? && Decode(Utf8(v).value) == Some(v)
  {
    hide Byte, Decode;
    if v < 0x80 {
      ByteIs(v);
      One(Byte(v));
    } else if v < 0x800 {
      Two(v);
    } else if v < 0x10000 {
      Three(v);
    } else {
      Four(v);
    }
  }

  lemma One(c: char)
    requires c as int < 0x80
    ensures Decode([c]) == Some(c as int)
  {
  }

  lemma DecodedOnce(s: string, t: string)
    requires Decode(s).Some? && Decode(s) == Decode(t)
    ensures s == t
  {
    DecodedLong(s);
    DecodedLong(t);
    var a, b := s[0] as int, t[0] as int;
    if |s| == 2 {
      SameParts(a, Six(s[1]), b, Six(t[1]));
    } else if |s| == 3 {
      SameParts(a * 0x40 + Six(s[1]), Six(s[2]), b * 0x40 + Six(t[1]), Six(t[2]));
      SameParts(a, Six(s[1]), b, Six(t[1]));
    } else if |s| == 4 {
      SameParts((a * 0x40 + Six(s[1])) * 0x40 + Six(s[2]), Six(s[3]),
                (b * 0x40 + Six(t[1])) * 0x40 + Six(t[2]), Six(t[3]));
      SameParts(a * 0x40 + Six(s[1]), Six(s[2]), b * 0x40 + Six(t[1]), Six(t[2]));
      SameParts(a, Six(s[1]), b, Six(t[1]));
    }
  }

  lemma DecodedLong(s: string)
    requires Decode(s).Some?
    ensures var v := Decode(s).value;
            0 <= v < 0x110000 && |s| == if v < 0x80 then 1 else if v < 0x800 then 2 else if v < 0x10000 then 3 else 4
  {
  }

  /** The bytes of a code are the only ones that stand for it, and a number that is no code has none. */
  lemma Utf8Iff(v: nat, s: string)
    ensures Utf8(v) == Some(s) <==> Decode(s) == Some(v)
  {
    hide Utf8, Decode;
    if Utf8(v) == Some(s) {
      Utf8Exists(v);
      Utf8Decodes(v);
    }
    if Decode(s) == Some(v) {
      DecodedLong(s);
      Utf8Decodes(v);
      DecodedOnce(s, Utf8(v).value);
    }
  }

  lemma Utf8Exists(v: nat)
    ensures Utf8(v).Some? <==> v < 0x110000
  {
  }

  // ---------- spellings ----------

  const Letters := "abtnvfre\"\'?\\"
  const Codes := [7, 8, 9, 10, 11, 12, 13, 27, 34, 39, 63, 92]

  /** One character of a literal as it is written. */
  datatype Piece = Plain(c: char)                              // itself
                 | Letter(k: nat)                              // `\n` and the like
                 | Oct(ds: seq<Digit>)                         // `\101`
                 | Hexa(ds: seq<Digit>)                        // `\x41`
                 | Ucn(ds: seq<Digit>, bytes: string)          // `\u00e4`, `\U000000e4`

  predicate Ok(p: Piece) {
    match p
    case Plain(c) => c != '\"' && c != '\\'
    case Letter(k) => k < |Letters|
    case Oct(ds) => 1 <= |ds| <= 3 && Below(ds, 8)
    case Hexa(ds) => 1 <= |ds| && Below(ds, 16)
    case Ucn(ds, bytes) => (|ds| == 4 || |ds| == 8) && Below(ds, 16) && Decode(bytes) == Some(Number(ds, 16))
  }

  function Text(p: Piece): string
    requires Ok(p)
  {
    match p
    case Plain(c) => [c]
    case Letter(k) => ['\\', Letters[k]]
    case Oct(ds) => "\\" + Chars(ds)
    case Hexa(ds) => "\\x" + Chars(ds)
    case Ucn(ds, _) => (if |ds| == 4 then "\\u" else "\\U") + Chars(ds)
  }

  /** The bytes that a piece stands for. */
  function Value(p: Piece): string
    requires Ok(p)
  {
    match p
    case Plain(c) => [c]
    case Letter(k) => [Codes[k] as char]
    case Oct(ds) => [(Number(ds, 8) % 256) as char]
    case Hexa(ds) => [(Number(ds, 16) % 256) as char]
    case Ucn(_, bytes) => bytes
  }

  /** The text behind does not begin with a digit that would belong to the piece. */
  predicate Stops(p: Piece, behind: string) {
    behind != "" ==>
      && (p.Oct? && |p.ds| < 3 ==> behind[0] !in "01234567")
      && (p.Hexa? ==> behind[0] !in "0123456789abcdefABCDEF")
  }

  predicate WellSpelled(ps: seq<Piece>)
    decreases |ps|, 0
  {
    ps == [] || (WellSpelled(ps[1..]) && Ok(ps[0]) && Stops(ps[0], TextOf(ps[1..])))
  }

  function TextOf(ps: seq<Piece>): string
    requires WellSpelled(ps)
    decreases |ps|, 1
  {
    if ps == [] then "" else Text(ps[0]) + TextOf(ps[1..])
  }

  function ValueOf(ps: seq<Piece>): string
    requires WellSpelled(ps)
  {
    if ps == [] then "" else Value(ps[0]) + ValueOf(ps[1..])
  }

  // ---------- digits ----------

  lemma CharIs(d: Digit)
    requires d.v < 16
    ensures Hex(Char(d)) && XDigit(Char(d)) == d.v && (Octal(Char(d)) <==> d.v < 8)
  {
    var n := d.v;
    assert n == 0 || n == 1 || n == 2 || n == 3 || n == 4 || n == 5 || n == 6 || n == 7 || n == 8 || n == 9
      || n == 10 || n == 11 || n == 12 || n == 13 || n == 14 || n == 15;
  }

  lemma DigitOf(c: char) returns (d: Digit)
    requires Hex(c)
    ensures d.v < 16 && Char(d) == c && (Octal(c) ==> d.v < 8)
  {
    d := Digit(XDigit(c), 'A' <= c <= 'F');
    var n := d.v;
    assert n == 0 || n == 1 || n == 2 || n == 3 || n == 4 || n == 5 || n == 6 || n == 7 || n == 8 || n == 9
      || n == 10 || n == 11 || n == 12 || n == 13 || n == 14 || n == 15;
  }

  lemma NoDigit(c: char)
    ensures (c !in "01234567" <==> !Octal(c)) && (c !in "0123456789abcdefABCDEF" <==> !Hex(c))
  {
    if Octal(c) {
      var d := DigitOf(c);
      assert c == "01234567"[d.v];
    }
    if Hex(c) {
      var d := DigitOf(c);
      assert c == "0123456789abcdefABCDEF"[if d.upper && d.v >= 10 then d.v + 6 else d.v];
    }
  }

  /** What comes of reading digits behind others that have given `val`. */
  function Reading(val: nat, ds: seq<Digit>, base: nat): nat {
    val * Power(base, |ds|) + Number(ds, base)
  }

  lemma ReadNothing(val: nat, base: nat)
    ensures Reading(val, [], base) == val
  {
  }

  lemma ReadAll(ds: seq<Digit>, base: nat)
    ensures Reading(0, ds, base) == Number(ds, base)
  {
  }

  /** A digit more: what was read weighs as many times more as there are digits to come. */
  lemma Weighs(val: nat, ds: seq<Digit>, base: nat)
    requires ds != []
    ensures Reading(val, ds, base) == Reading(base * val + ds[0].v, ds[1..], base)
  {
    var w := Power(base, |ds| - 1);
    assert val * (base * w) + ds[0].v * w == (base * val + ds[0].v) * w;
  }

  lemma CharsStep(ds: seq<Digit>, rest: string)
    requires ds != [] && Below(ds, 16)
    ensures Below(ds[1..], 16) && Chars(ds) + rest == [Char(ds[0])] + (Chars(ds[1..]) + rest)
  {
    hide Char;
  }

  lemma HexStep(c: char, rest: string, val: nat)
    requires Hex(c)
    ensures ScanHex([c] + rest, val) == ScanHex(rest, 16 * val + XDigit(c))
  {
    assert ([c] + rest)[1..] == rest;
  }

  lemma HexEnd(rest: string, val: nat)
    requires rest == "" || !Hex(rest[0])
    ensures ScanHex(rest, val) == Got([Byte(val)], rest)
  {
  }

  lemma {:induction false} HexIs(ds: seq<Digit>, rest: string, val: nat)
    requires Below(ds, 16) && (rest == "" || !Hex(rest[0]))
    ensures ScanHex(Chars(ds) + rest, val) == Got([Byte(Reading(val, ds, 16))], rest)
    decreases |ds|
  {
    hide Reading, ScanHex, Char, XDigit;
    if ds == [] {
      ReadNothing(val, 16);
      HexEnd(rest, val);
      assert Chars(ds) + rest == rest;
    } else {
      CharsStep(ds, rest);
      CharIs(ds[0]);
      HexStep(Char(ds[0]), Chars(ds[1..]) + rest, val);
      Weighs(val, ds, 16);
      HexIs(ds[1..], rest, 16 * val + ds[0].v);
    }
  }

  lemma OctalStep(c: char, rest: string, n: nat, val: nat)
    requires Octal(c) && n > 0
    ensures ScanOctal([c] + rest, n, val) == ScanOctal(rest, n - 1, 8 * val + XDigit(c))
  {
    assert ([c] + rest)[1..] == rest;
  }

  lemma OctalEnd(rest: string, n: nat, val: nat)
    requires n == 0 || rest == "" || !Octal(rest[0])
    ensures ScanOctal(rest, n, val) == Got([Byte(val)], rest)
  {
  }

  lemma {:induction false} OctIs(ds: seq<Digit>, n: nat, rest: string, val: nat)
    requires Below(ds, 8) && |ds| <= n && (|ds| == n || rest == "" || !Octal(rest[0]))
    ensures ScanOctal(Chars(ds) + rest, n, val) == Got([Byte(Reading(val, ds, 8))], rest)
    decreases |ds|
  {
    hide Reading, ScanOctal, Char, XDigit;
    if ds == [] {
      ReadNothing(val, 8);
      OctalEnd(rest, n, val);
      assert Chars(ds) + rest == rest;
    } else {
      CharsStep(ds, rest);
      CharIs(ds[0]);
      OctalStep(Char(ds[0]), Chars(ds[1..]) + rest, n, val);
      Weighs(val, ds, 8);
      OctIs(ds[1..], n - 1, rest, 8 * val + ds[0].v);
    }
  }

  lemma UCNStep(c: char, rest: string, n: nat, val: nat)
    requires Hex(c)
    ensures ScanUCN([c] + rest, n + 1, val) == ScanUCN(rest, n, 16 * val + XDigit(c))
  {
    assert ([c] + rest)[1..] == rest;
  }

  lemma UCNEnd(rest: string, val: nat)
    ensures ScanUCN(rest, 0, val) == match Utf8(val) case None => Bad case Some(v) => Got(v, rest)
  {
  }

  lemma {:induction false} UCNIs(ds: seq<Digit>, rest: string, val: nat)
    requires Below(ds, 16)
    ensures ScanUCN(Chars(ds) + rest, |ds|, val)
            == match Utf8(Reading(val, ds, 16)) case None => Bad case Some(v) => Got(v, rest)
    decreases |ds|
  {
    hide Utf8, Reading, ScanUCN, Char, XDigit;
    if ds == [] {
      ReadNothing(val, 16);
      UCNEnd(rest, val);
      assert Chars(ds) + rest == rest;
    } else {
      CharsStep(ds, rest);
      CharIs(ds[0]);
      UCNStep(Char(ds[0]), Chars(ds[1..]) + rest, |ds| - 1, val);
      Weighs(val, ds, 16);
      UCNIs(ds[1..], rest, 16 * val + ds[0].v);
    }
  }

  // ---------- what is written is read ----------

  lemma LetterIs(k: nat, rest: string)
    requires k < |Letters|
    ensures ScanEscaped([Letters[k]] + rest) == Got([Codes[k] as char], rest)
  {
    assert ([Letters[k]] + rest)[1..] == rest;
    assert k == 0 || k == 1 || k == 2 || k == 3 || k == 4 || k == 5 || k == 6 || k == 7 || k == 8 || k == 9
      || k == 10 || k == 11;
  }

  /** An escape with digits, by the character behind the backslash. */
  lemma EscapeBegins(c: char, rest: string)
    ensures c == 'x' && rest != "" && Hex(rest[0]) ==> ScanEscaped([c] + rest) == ScanHex(rest, 0)
    ensures c == 'u' ==> ScanEscaped([c] + rest) == ScanUCN(rest, 4, 0)
    ensures c == 'U' ==> ScanEscaped([c] + rest) == ScanUCN(rest, 8, 0)
    ensures Octal(c) ==> ScanEscaped([c] + rest) == ScanOctal(rest, 2, XDigit(c))
  {
    hide ScanHex, ScanUCN, ScanOctal, Utf8, XDigit;
    assert ([c] + rest)[1..] == rest;
  }

  lemma OctalEscape(ds: seq<Digit>, rest: string)
    requires Ok(Oct(ds)) && Stops(Oct(ds), rest)
    ensures ScanEscaped(Chars(ds) + rest) == Got(Value(Oct(ds)), rest)
  {
    hide ScanEscaped, ScanOctal, Char, XDigit, Reading, Number;
    CharsStep(ds, rest);
    CharIs(ds[0]);
    EscapeBegins(Char(ds[0]), Chars(ds[1..]) + rest);
    Weighs(0, ds, 8);
    ReadAll(ds, 8);
    if rest != "" { NoDigit(rest[0]); }
    OctIs(ds[1..], 2, rest, ds[0].v);
  }

  lemma HexEscape(ds: seq<Digit>, rest: string)
    requires Ok(Hexa(ds)) && Stops(Hexa(ds), rest)
    ensures ScanEscaped("x" + (Chars(ds) + rest)) == Got(Value(Hexa(ds)), rest)
  {
    hide ScanEscaped, ScanHex, Char, XDigit, Reading, Number;
    CharsStep(ds, rest);
    CharIs(ds[0]);
    ReadAll(ds, 16);
    if rest != "" { NoDigit(rest[0]); }
    HexIs(ds, rest, 0);
    EscapeBegins('x', Chars(ds) + rest);
  }

  lemma UCNEscape(ds: seq<Digit>, bytes: string, rest: string)
    requires Ok(Ucn(ds, bytes))
    ensures ScanEscaped((if |ds| == 4 then "u" else "U") + (Chars(ds) + rest)) == Got(bytes, rest)
  {
    hide Utf8, Decode, ScanEscaped, ScanUCN, Chars, Reading, Number;
    ReadAll(ds, 16);
    UCNIs(ds, rest, 0);
    Utf8Iff(Number(ds, 16), bytes);
    EscapeBegins(if |ds| == 4 then 'u' else 'U', Chars(ds) + rest);
  }

  lemma PieceScanned(p: Piece, rest: string)
    requires Ok(p) && Stops(p, rest)
    ensures Scan(Text(p) + rest) == Prepend(Value(p), Scan(rest))
  {
    hide ScanEscaped, Prepend, Decode, Number, Chars, Stops;
    var s := Text(p) + rest;
    match p
    case Plain(c) => assert s[1..] == rest;
    case Letter(k) =>
      LetterIs(k, rest);
      assert s[1..] == [Letters[k]] + rest;
    case Oct(ds) =>
      OctalEscape(ds, rest);
      assert s[1..] == Chars(ds) + rest;
    case Hexa(ds) =>
      HexEscape(ds, rest);
      assert s[1..] == "x" + (Chars(ds) + rest);
    case Ucn(ds, bytes) =>
      UCNEscape(ds, bytes, rest);
      assert s[1..] == (if |ds| == 4 then "u" else "U") + (Chars(ds) + rest);
  }

  lemma {:induction false} SpelledScanned(ps: seq<Piece>, more: string)
    requires WellSpelled(ps)
    ensures Scan(TextOf(ps) + "\"" + more) == Some(ValueOf(ps))
    decreases |ps|
  {
    hide Text, Value, Ok;
    if ps == [] {
      assert TextOf(ps) + "\"" + more == "\"" + more;
    } else {
      hide Scan;
      var behind := TextOf(ps[1..]) + "\"" + more;
      assert TextOf(ps) + "\"" + more == Text(ps[0]) + behind;
      SpelledScanned(ps[1..], more);
      PieceScanned(ps[0], behind);
    }
  }

  // ---------- what is read was written so ----------

  lemma DigitBefore(d: Digit, more: seq<Digit>, rest: string)
    requires d.v < 16 && Below(more, 16)
    ensures Below([d] + more, 16) && Chars([d] + more) + rest == [Char(d)] + (Chars(more) + rest)
  {
    assert ([d] + more)[1..] == more;
  }

  lemma NothingRead(s: string)
    ensures s == Chars([]) + s
  {
  }

  lemma {:induction false} HexRead(s: string, val: nat) returns (ds: seq<Digit>)
    ensures Below(ds, 16) && s == Chars(ds) + ScanHex(s, val).rest
    ensures var rest := ScanHex(s, val).rest; rest == "" || !Hex(rest[0])
    decreases |s|
  {
    hide Char, Chars, XDigit;
    NothingRead(s);
    ds := [];
    if s != "" && Hex(s[0]) {
      var d := DigitOf(s[0]);
      var more := HexRead(s[1..], 16 * val + XDigit(s[0]));
      ds := [d] + more;
      DigitBefore(d, more, ScanHex(s, val).rest);
    }
  }

  lemma {:induction false} OctalRead(s: string, n: nat, val: nat) returns (ds: seq<Digit>)
    ensures Below(ds, 8) && |ds| <= n && s == Chars(ds) + ScanOctal(s, n, val).rest
    ensures var rest := ScanOctal(s, n, val).rest; |ds| == n || rest == "" || !Octal(rest[0])
    decreases n
  {
    hide Char, Chars, XDigit;
    NothingRead(s);
    ds := [];
    if n > 0 && s != "" && Octal(s[0]) {
      var d := DigitOf(s[0]);
      var more := OctalRead(s[1..], n - 1, 8 * val + XDigit(s[0]));
      ds := [d] + more;
      DigitBefore(d, more, ScanOctal(s, n, val).rest);
    }
  }

  lemma {:induction false} UCNRead(s: string, n: nat, val: nat) returns (ds: seq<Digit>)
    requires ScanUCN(s, n, val).Got?
    ensures Below(ds, 16) && |ds| == n && s == Chars(ds) + ScanUCN(s, n, val).rest
    decreases n
  {
    hide Utf8, Char, Chars, XDigit;
    NothingRead(s);
    ds := [];
    if n > 0 {
      var d := DigitOf(s[0]);
      var more := UCNRead(s[1..], n - 1, 16 * val + XDigit(s[0]));
      ds := [d] + more;
      DigitBefore(d, more, ScanUCN(s, n, val).rest);
    }
  }

  lemma LetterOf(c: char) returns (k: nat)
    requires c in Letters
    ensures k < |Letters| && Letters[k] == c
  {
    k :| k < |Letters| && Letters[k] == c;
  }

  /** What stands behind a backslash. */
  lemma EscapeRead(s: string) returns (p: Piece)
    requires ScanEscaped(s).Got?
    ensures var e := ScanEscaped(s);
            Ok(p) && !p.Plain? && "\\" + s == Text(p) + e.rest && Value(p) == e.val && Stops(p, e.rest)
  {
    var c, rest := s[0], s[1..];
    if c in Letters {
      var k := LetterOf(c);
      p := Letter(k);
      assert s == [c] + rest;
      LetterIs(k, rest);
    } else if Octal(c) {
      p := OctalPiece(s);
    } else if c == 'x' {
      p := HexPiece(s);
    } else {
      p := UCNPiece(s);
    }
  }

  lemma OctalPiece(s: string) returns (p: Piece)
    requires s != "" && Octal(s[0])
    ensures var e := ScanEscaped(s);
            Ok(p) && !p.Plain? && "\\" + s == Text(p) + e.rest && Value(p) == e.val && Stops(p, e.rest)
  {
    hide ScanEscaped, ScanOctal, Number, Char, Chars, XDigit, Hex;
    DigitsHex(s[0]);
    var d := DigitOf(s[0]);
    var ds := OctalRead(s[1..], 2, XDigit(s[0]));
    var rest := ScanOctal(s[1..], 2, XDigit(s[0])).rest;
    p := Oct([d] + ds);
    DigitBefore(d, ds, rest);
    assert s == [s[0]] + s[1..];
    if rest != "" { NoDigit(rest[0]); }
    OctalEscape([d] + ds, rest);
  }

  lemma DigitsHex(c: char)
    requires Octal(c)
    ensures Hex(c)
  {
  }

  lemma HexPiece(s: string) returns (p: Piece)
    requires s != "" && s[0] == 'x' && ScanEscaped(s).Got?
    ensures var e := ScanEscaped(s);
            Ok(p) && !p.Plain? && "\\" + s == Text(p) + e.rest && Value(p) == e.val && Stops(p, e.rest)
  {
    hide ScanUCN, Utf8, ScanOctal, Number, Char;
    var ds := HexRead(s[1..], 0);
    var rest := ScanHex(s[1..], 0).rest;
    p := Hexa(ds);
    assert s == ['x'] + s[1..];
    if rest != "" { NoDigit(rest[0]); }
    HexEscape(ds, rest);
  }

  lemma UCNPiece(s: string) returns (p: Piece)
    requires s != "" && (s[0] == 'u' || s[0] == 'U') && ScanEscaped(s).Got?
    ensures var e := ScanEscaped(s);
            Ok(p) && !p.Plain? && "\\" + s == Text(p) + e.rest && Value(p) == e.val && Stops(p, e.rest)
  {
    hide Utf8, ScanHex, ScanOctal, Number, Char, ScanUCN, Decode;
    var n := if s[0] == 'u' then 4 else 8;
    assert ScanEscaped(s) == ScanUCN(s[1..], n, 0);
    var ds := UCNRead(s[1..], n, 0);
    var rest := ScanUCN(s[1..], n, 0).rest;
    UCNIs(ds, rest, 0);
    ReadAll(ds, 16);
    var bytes := ScanEscaped(s).val;
    Utf8Iff(Number(ds, 16), bytes);
    p := Ucn(ds, bytes);
    assert s == [s[0]] + s[1..];
  }

  lemma ScanBegins(s: string)
    requires Scan(s).Some?
    ensures s != ""
    ensures s[0] == '\\' ==> ScanEscaped(s[1..]).Got? && Scan(ScanEscaped(s[1..]).rest).Some?
    ensures s[0] != '\\' && s[0] != '\"' ==> Scan(s[1..]).Some?
  {
    hide ScanEscaped;
  }

  lemma PieceBefore(p: Piece, ps: seq<Piece>, more: string)
    requires WellSpelled(ps) && Ok(p) && Stops(p, TextOf(ps) + "\"" + more)
    ensures WellSpelled([p] + ps)
    ensures TextOf([p] + ps) + "\"" + more == Text(p) + (TextOf(ps) + "\"" + more)
  {
    hide Ok, Text;
    assert ([p] + ps)[1..] == ps;
    StopsShort(p, TextOf(ps), "\"" + more);
  }

  lemma StopsShort(p: Piece, a: string, b: string)
    requires Stops(p, a + b)
    ensures Stops(p, a)
  {
  }

  lemma PlainPiece(s: string) returns (p: Piece)
    requires s != "" && s[0] != '\\' && s[0] != '\"'
    ensures Ok(p) && s == Text(p) + s[1..] && Stops(p, s[1..])
  {
    p := Plain(s[0]);
  }

  lemma {:induction false} ScanRead(s: string) returns (ps: seq<Piece>, more: string)
    requires Scan(s).Some?
    ensures WellSpelled(ps) && s == TextOf(ps) + "\"" + more
    decreases |s|
  {
    hide Scan, TextOf, WellSpelled, ScanEscaped, Stops, Text, Ok, Value;
    ScanBegins(s);
    if s[0] == '\"' {
      ps, more := [], s[1..];
      NothingSpelled();
    } else {
      var p: Piece;
      var rest := s[1..];
      if s[0] == '\\' {
        p := EscapeRead(s[1..]);
        rest := ScanEscaped(s[1..]).rest;
        assert s == "\\" + s[1..];
      } else {
        p := PlainPiece(s);
      }
      ps, more := ScanRead(rest);
      PieceBefore(p, ps, more);
      ps := [p] + ps;
    }
  }

  lemma NothingSpelled()
    ensures WellSpelled([]) && TextOf([]) == ""
  {
  }

  /** The text begins with a literal behind its opening quote, and its characters stand for these bytes. */
  ghost predicate Stands(s: string, v: string) {
    exists ps: seq<Piece>, more: string :: WellSpelled(ps) && s == TextOf(ps) + "\"" + more && v == ValueOf(ps)
  }

  /** The scanner accepts exactly the texts that begin with a literal in which every character is written plainly,
      by its letter, in one to three octal digits, in hexadecimal digits, or by its code; and the value is the bytes
      that these stand for. */
  lemma ScanIff(s: string, v: string)
    ensures Scan(s) == Some(v) <==> Stands(s, v)
  {
    hide Scan, TextOf, ValueOf, WellSpelled;
    if Scan(s) == Some(v) {
      var ps, more := ScanRead(s);
      SpelledScanned(ps, more);
    }
    if Stands(s, v) {
      var ps: seq<Piece>, more: string :| WellSpelled(ps) && s == TextOf(ps) + "\"" + more && v == ValueOf(ps);
      SpelledScanned(ps, more);
    }
  }

  /** The scanner itself. */
  method ReadLiteral(text: string) returns (r: Option<string>)
    requires text != "" && text[0] == '\"'
    ensures forall v: string :: r == Some(v) <==> Stands(text[1..], v)
  {
    hide Stands, Scan;
    var scanner := new Scanner(text);
    r := scanner.ScanLiteral();
    assert r == Scan(text[1..]);
    forall v: string
      ensures r == Some(v) <==> Stands(text[1..], v)
    {
      ScanIff(text[1..], v);
    }
  }

  // ---------- a writer ----------

  /** How to write one byte. */
  datatype Spelling = Plainly | ByLetter | InOctal(width: nat) | InHex(width: nat, upper: bool)

  predicate Possible(c: char, how: Spelling) {
    match how
    case Plainly => c != '\"' && c != '\\'
    case ByLetter => c as int in Codes
    case InOctal(w) => 1 <= w <= 3 && c as int < Power(8, w)
    case InHex(w, _) => 1 <= w && c as int < Power(16, w)
  }

  function Digits(n: nat, base: nat, width: nat, upper: bool): (ds: seq<Digit>)
    requires base == 8 || base == 16
    ensures |ds| == width
  {
    if width == 0 then []
    else if base == 8 then Digits(n / 8, 8, width - 1, upper) + [Digit(n % 8, upper)]
    else Digits(n / 16, 16, width - 1, upper) + [Digit(n % 16, upper)]
  }

  ghost function Spell(c: char, how: Spelling): Piece
    requires Possible(c, how)
  {
    match how
    case Plainly => Plain(c)
    case ByLetter => (var k :| 0 <= k < |Codes| && Codes[k] == c as int; Letter(k))
    case InOctal(w) => Oct(Digits(c as int, 8, w, false))
    case InHex(w, upper) => Hexa(Digits(c as int, 16, w, upper))
  }

  lemma {:induction false} NumberLast(ds: seq<Digit>, d: Digit, base: nat)
    ensures Number(ds + [d], base) == Number(ds, base) * base + d.v
    decreases |ds|
  {
    if ds == [] {
      assert ds + [d] == [d] && [d][1..] == [];
    } else {
      NumberLast(ds[1..], d, base);
      assert (ds + [d])[1..] == ds[1..] + [d];
      var w := Power(base, |ds| - 1);
      assert ds[0].v * (base * w) + Number(ds[1..], base) * base == (ds[0].v * w + Number(ds[1..], base)) * base;
    }
  }

  lemma {:induction false} DigitsAre(n: nat, base: nat, width: nat, upper: bool)
    requires (base == 8 || base == 16) && n < Power(base, width)
    ensures var ds := Digits(n, base, width, upper); Below(ds, base) && Number(ds, base) == n
    decreases width
  {
    hide Number;
    if width == 0 {
      NoDigits(base);
    } else if base == 8 {
      DigitsAre(n / 8, 8, width - 1, upper);
      NumberLast(Digits(n / 8, 8, width - 1, upper), Digit(n % 8, upper), 8);
    } else {
      DigitsAre(n / 16, 16, width - 1, upper);
      NumberLast(Digits(n / 16, 16, width - 1, upper), Digit(n % 16, upper), 16);
    }
  }

  lemma NoDigits(base: nat)
    ensures Number([], base) == 0
  {
  }

  /** A possible spelling of a byte stands for it. */
  lemma SpellIs(c: char, how: Spelling)
    requires c as int < 0x100 && Possible(c, how)
    ensures Ok(Spell(c, how)) && Value(Spell(c, how)) == [c]
  {
    hide Power, Digits, Number;
    match how
    case Plainly =>
    case ByLetter =>
    case InOctal(w) => DigitsAre(c as int, 8, w, false);
    case InHex(w, upper) => DigitsAre(c as int, 16, w, upper);
  }

  /** A byte string, written as chosen for every byte. */
  ghost predicate AllPossible(v: string, how: seq<Spelling>) {
    |how| == |v| && forall i :: 0 <= i < |v| ==> v[i] as int < 0x100 && Possible(v[i], how[i])
  }

  ghost function Write(v: string, how: seq<Spelling>): seq<Piece>
    requires AllPossible(v, how)
  {
    if v == "" then [] else [Spell(v[0], how[0])] + Write(v[1..], how[1..])
  }

  lemma {:induction false} WriteStands(v: string, how: seq<Spelling>)
    requires AllPossible(v, how) && WellSpelled(Write(v, how))
    ensures ValueOf(Write(v, how)) == v
    decreases |v|
  {
    hide Spell, Possible;
    if v != "" {
      var ps := Write(v, how);
      assert ps[1..] == Write(v[1..], how[1..]);
      WriteStands(v[1..], how[1..]);
      SpellIs(v[0], how[0]);
    }
  }

  /** Whatever spelling is chosen for each byte, the literal is read as these bytes, if no digit behind a number is
      taken for a part of it. */
  lemma WriteThenScan(v: string, how: seq<Spelling>)
    requires AllPossible(v, how) && WellSpelled(Write(v, how))
    ensures Scan(TextOf(Write(v, how)) + "\"") == Some(v)
  {
    hide Scan, TextOf, ValueOf, WellSpelled, Write;
    WriteStands(v, how);
    SpelledScanned(Write(v, how), "");
    assert TextOf(Write(v, how)) + "\"" + "" == TextOf(Write(v, how)) + "\"";
  }

  /** Every byte string can be written. */
  lemma {:induction false} Writable(v: string) returns (how: seq<Spelling>)
    requires forall i :: 0 <= i < |v| ==> v[i] as int < 0x100
    ensures AllPossible(v, how) && WellSpelled(Write(v, how))
    decreases |v|
  {
    hide Digits, Number;
    if v == "" {
      how := [];
    } else {
      var more := Writable(v[1..]);
      how := [InOctal(3)] + more;
      assert how[1..] == more;
      assert Power(8, 3) == 512;
      SpellIs(v[0], InOctal(3));
      assert Write(v, how)[1..] == Write(v[1..], more);
    }
  }
}
