/** Expansion of object-like macros: a worklist whose head is replaced by the body of its macro, tokens that
    carry the names they must not expand again, and the recursive definition that the worklist computes. */
module MacroExpansion {
  import opened Numerals

  datatype Loc = Loc(file: string, line: nat)

  /** A token: its spelling, whether white space precedes it, where it comes from, and its hide set. */
  datatype Tok = Tok(str: string, ws: bool, loc: Loc, hs: set<string>)

  datatype Macro = Macro(repSeq: seq<Tok>, preDef: bool)

  type MacroMap = map<string, Macro>

  const FILE := "__FILE__"
  const LINE := "__LINE__"

  predicate Letter(c: char) {
    'a' <= c <= 'z' || 'A' <= c <= 'Z' || c == '_'
  }

  /** Macro names are identifiers; the tokens of a body come from the source text, hide nothing and do not ask
      for pasting. */
  predicate TableOk(m: MacroMap) {
    && (forall n :: n in m ==> n != "" && Letter(n[0]))
    && (forall n, i :: n in m && 0 <= i < |m[n].repSeq| ==> m[n].repSeq[i].hs == {} && m[n].repSeq[i].str != "##")
  }

  // ---------- one replacement ----------

  /** The body with the place of the replaced token. */
  function RepSeq(body: seq<Tok>, loc: Loc): seq<Tok>
    decreases |body|
  {
    if body == [] then [] else [body[0].(loc := loc)] + RepSeq(body[1..], loc)
  }

  /** Every token hides more names; the first one takes over the white space. */
  function Finalized(ts: seq<Tok>, leadingWS: bool, hs: set<string>): seq<Tok> {
    var hidden := Hidden(ts, hs);
    if hidden == [] then [] else [hidden[0].(ws := leadingWS)] + hidden[1..]
  }

  function Hidden(ts: seq<Tok>, hs: set<string>): seq<Tok>
    decreases |ts|
  {
    if ts == [] then [] else [ts[0].(hs := ts[0].hs + hs)] + Hidden(ts[1..], hs)
  }

  function Replacement(m: MacroMap, tok: Tok): seq<Tok>
    requires tok.str in m
  {
    Finalized(RepSeq(m[tok.str].repSeq, tok.loc), tok.ws, tok.hs + {tok.str})
  }

  /** The tokens that stand for `__FILE__` and `__LINE__`. */
  function Located(tok: Tok): Tok {
    if tok.str == FILE then tok.(str := "\"" + tok.loc.file + "\"") else tok.(str := Decimal(tok.loc.line))
  }

  predicate Expands(m: MacroMap, tok: Tok) {
    tok.str !in tok.hs && tok.str in m && tok.str != FILE && tok.str != LINE
  }

  /** A token that goes to the output, in its final form. */
  function Kept(m: MacroMap, tok: Tok): Tok {
    if tok.str !in tok.hs && tok.str in m && (tok.str == FILE || tok.str == LINE) then Located(tok) else tok
  }

  // ---------- the recursive definition ----------

  /** How many macro names a hide set leaves. */
  function Free(m: MacroMap, hs: set<string>): nat {
    |m.Keys - hs|
  }

  lemma FreeShrinks(m: MacroMap, hs: set<string>, name: string, hs': set<string>)
    requires name in m && name !in hs && hs + {name} <= hs'
    ensures Free(m, hs') < Free(m, hs)
  {
    assert m.Keys - hs' <= (m.Keys - hs) - {name};
    Subsets(m.Keys - hs', (m.Keys - hs) - {name});
  }

  lemma {:induction false} Subsets<T>(a: set<T>, b: set<T>)
    requires a <= b
    ensures |a| <= |b|
    decreases a
  {
    if a != {} {
      var x :| x in a;
      Subsets(a - {x}, b - {x});
    }
  }

  ghost predicate AllFree(m: MacroMap, ts: seq<Tok>, bound: nat) {
    forall i :: 0 <= i < |ts| ==> Free(m, ts[i].hs) < bound
  }

  lemma {:induction false} HiddenAll(ts: seq<Tok>, hs: set<string>)
    ensures |Hidden(ts, hs)| == |ts|
    ensures forall i :: 0 <= i < |ts| ==> Hidden(ts, hs)[i] == ts[i].(hs := ts[i].hs + hs)
    decreases |ts|
  {
    if ts != [] { HiddenAll(ts[1..], hs); }
  }

  lemma {:induction false} RepSeqAll(ts: seq<Tok>, loc: Loc)
    ensures |RepSeq(ts, loc)| == |ts|
    ensures forall i :: 0 <= i < |ts| ==> RepSeq(ts, loc)[i] == ts[i].(loc := loc)
    decreases |ts|
  {
    if ts != [] { RepSeqAll(ts[1..], loc); }
  }

  /** What a replacement consists of: the spellings of the body, each hiding the macro's name. */
  lemma ReplacementAll(m: MacroMap, tok: Tok)
    requires TableOk(m) && tok.str in m
    ensures var r, body := Replacement(m, tok), m[tok.str].repSeq;
            && |r| == |body|
            && forall i :: 0 <= i < |r| ==>
                 r[i].str == body[i].str && r[i].loc == tok.loc && r[i].hs == tok.hs + {tok.str}
                 && r[i].ws == if i == 0 then tok.ws else body[i].ws
  {
    hide RepSeq, Hidden;
    var body := m[tok.str].repSeq;
    RepSeqAll(body, tok.loc);
    HiddenAll(RepSeq(body, tok.loc), tok.hs + {tok.str});
  }

  lemma ReplacementFree(m: MacroMap, tok: Tok)
    requires TableOk(m) && Expands(m, tok)
    ensures AllFree(m, Replacement(m, tok), Free(m, tok.hs))
  {
    ReplacementAll(m, tok);
    FreeShrinks(m, tok.hs, tok.str, tok.hs + {tok.str});
  }

  function ExpandToken(m: MacroMap, tok: Tok): seq<Tok>
    requires TableOk(m)
    decreases Free(m, tok.hs)
  {
    if Expands(m, tok) then
      ReplacementFree(m, tok);
      ExpandSeq(m, Replacement(m, tok), Free(m, tok.hs))
    else [Kept(m, tok)]
  }

  /** Token by token; `bound` is only there to show that it ends. */
  function ExpandSeq(m: MacroMap, ts: seq<Tok>, bound: nat): seq<Tok>
    requires TableOk(m) && AllFree(m, ts, bound)
    decreases bound, |ts|
  {
    if ts == [] then []
    else
      assert AllFree(m, ts[1..], bound) by { assert forall i :: 0 <= i < |ts[1..]| ==> ts[1..][i] == ts[i + 1]; }
      ExpandToken(m, ts[0]) + ExpandSeq(m, ts[1..], bound)
  }

  /** How many rounds of the worklist a token takes. */
  function Weight(m: MacroMap, tok: Tok): (w: nat)
    requires TableOk(m)
    ensures w > 0
    decreases Free(m, tok.hs)
  {
    if Expands(m, tok) then
      ReplacementFree(m, tok);
      1 + WeightSeq(m, Replacement(m, tok), Free(m, tok.hs))
    else 1
  }

  function WeightSeq(m: MacroMap, ts: seq<Tok>, bound: nat): nat
    requires TableOk(m) && AllFree(m, ts, bound)
    decreases bound, |ts|
  {
    if ts == [] then 0
    else
      assert AllFree(m, ts[1..], bound) by { assert forall i :: 0 <= i < |ts[1..]| ==> ts[1..][i] == ts[i + 1]; }
      Weight(m, ts[0]) + WeightSeq(m, ts[1..], bound)
  }

  lemma {:induction false} BoundIrrelevant(m: MacroMap, ts: seq<Tok>, b: nat, c: nat)
    requires TableOk(m) && AllFree(m, ts, b) && AllFree(m, ts, c)
    ensures ExpandSeq(m, ts, b) == ExpandSeq(m, ts, c) && WeightSeq(m, ts, b) == WeightSeq(m, ts, c)
    decreases |ts|
  {
    if ts != [] {
      FreeTail(m, ts, b);
      FreeTail(m, ts, c);
      BoundIrrelevant(m, ts[1..], b, c);
    }
  }

  lemma FreeTail(m: MacroMap, ts: seq<Tok>, bound: nat)
    requires AllFree(m, ts, bound) && ts != []
    ensures AllFree(m, ts[1..], bound)
  {
    assert forall i :: 0 <= i < |ts[1..]| ==> ts[1..][i] == ts[i + 1];
  }

  lemma {:induction false} SeqAppend(m: MacroMap, a: seq<Tok>, b: seq<Tok>, bound: nat)
    requires TableOk(m) && AllFree(m, a, bound) && AllFree(m, b, bound)
    ensures AllFree(m, a + b, bound)
    ensures ExpandSeq(m, a + b, bound) == ExpandSeq(m, a, bound) + ExpandSeq(m, b, bound)
    ensures WeightSeq(m, a + b, bound) == WeightSeq(m, a, bound) + WeightSeq(m, b, bound)
    decreases |a|
  {
    hide ExpandToken, Weight, Expands, Free;
    if a == [] {
      assert a + b == b;
    } else {
      FreeTail(m, a, bound);
      SeqAppend(m, a[1..], b, bound);
      assert (a + b)[1..] == a[1..] + b;
      assert (a + b)[0] == a[0];
      assert ExpandSeq(m, a + b, bound) == ExpandToken(m, a[0]) + ExpandSeq(m, a[1..] + b, bound);
    }
  }

  /** A bound that fits every hide set. */
  function Top(m: MacroMap): nat {
    |m.Keys| + 1
  }

  lemma TopFits(m: MacroMap, ts: seq<Tok>)
    ensures AllFree(m, ts, Top(m))
  {
    forall i | 0 <= i < |ts|
      ensures Free(m, ts[i].hs) < Top(m)
    {
      Subsets(m.Keys - ts[i].hs, m.Keys);
    }
  }

  function ExpandAll(m: MacroMap, ts: seq<Tok>): seq<Tok>
    requires TableOk(m)
  {
    TopFits(m, ts);
    ExpandSeq(m, ts, Top(m))
  }

  function WeightAll(m: MacroMap, ts: seq<Tok>): nat
    requires TableOk(m)
  {
    TopFits(m, ts);
    WeightSeq(m, ts, Top(m))
  }

  lemma ExpandNothing(m: MacroMap)
    requires TableOk(m)
    ensures ExpandAll(m, []) == []
  {
    TopFits(m, []);
  }

  /** One round of the worklist. */
  lemma RoundStep(m: MacroMap, ts: seq<Tok>)
    requires TableOk(m) && ts != []
    ensures Expands(m, ts[0]) ==>
              var next := Replacement(m, ts[0]) + ts[1..];
              ExpandAll(m, ts) == ExpandAll(m, next) && WeightAll(m, next) < WeightAll(m, ts)
    ensures !Expands(m, ts[0]) ==>
              ExpandAll(m, ts) == [Kept(m, ts[0])] + ExpandAll(m, ts[1..]) && WeightAll(m, ts[1..]) < WeightAll(m, ts)
  {
    TopFits(m, ts);
    TopFits(m, ts[1..]);
    HeadStep(m, ts);
    hide ExpandSeq, WeightSeq, ExpandToken, Weight, Expands, Replacement, Free;
    if Expands(m, ts[0]) {
      var r := Replacement(m, ts[0]);
      ReplacementFree(m, ts[0]);
      TopFits(m, r);
      BoundIrrelevant(m, r, Free(m, ts[0].hs), Top(m));
      SeqAppend(m, r, ts[1..], Top(m));
      TokenStep(m, ts[0]);
    } else {
      KeptStep(m, ts[0]);
    }
  }

  lemma HeadStep(m: MacroMap, ts: seq<Tok>)
    requires TableOk(m) && ts != [] && AllFree(m, ts, Top(m)) && AllFree(m, ts[1..], Top(m))
    ensures ExpandSeq(m, ts, Top(m)) == ExpandToken(m, ts[0]) + ExpandSeq(m, ts[1..], Top(m))
    ensures WeightSeq(m, ts, Top(m)) == Weight(m, ts[0]) + WeightSeq(m, ts[1..], Top(m))
  {
    hide ExpandToken, Weight, Top, Free;
  }

  lemma TokenStep(m: MacroMap, tok: Tok)
    requires TableOk(m) && Expands(m, tok) && AllFree(m, Replacement(m, tok), Free(m, tok.hs))
    ensures ExpandToken(m, tok) == ExpandSeq(m, Replacement(m, tok), Free(m, tok.hs))
    ensures Weight(m, tok) == 1 + WeightSeq(m, Replacement(m, tok), Free(m, tok.hs))
  {
    hide ExpandSeq, WeightSeq, Replacement, Free, Expands;
  }

  lemma KeptStep(m: MacroMap, tok: Tok)
    requires TableOk(m) && !Expands(m, tok)
    ensures ExpandToken(m, tok) == [Kept(m, tok)] && Weight(m, tok) == 1
  {
    hide ExpandSeq, WeightSeq, Replacement, Free, Kept;
  }

  // ---------- the preprocessor as it runs ----------

  class Preprocessor {
    var macroMap: MacroMap

    constructor ()
      ensures macroMap == map[]
    {
      macroMap := map[];
    }

    method AddMacro(name: string, macro: Macro)
      modifies this
      ensures macroMap == old(macroMap)[name := macro]
    {
      if name in macroMap { macroMap := macroMap - {name}; }
      macroMap := macroMap[name := macro];
    }

    /** A predefined macro stays. */
    method RemoveMacro(name: string)
      modifies this
      ensures macroMap == if name in old(macroMap) && old(macroMap)[name].preDef then old(macroMap)
              else old(macroMap) - {name}
    {
      if name !in macroMap { return; }
      if macroMap[name].preDef { return; }
      macroMap := macroMap - {name};
    }

    /** The worklist ends for every table, and computes the recursive definition. */
    method Expand(input: seq<Tok>) returns (os: seq<Tok>)
      requires TableOk(macroMap)
      ensures os == ExpandAll(macroMap, input) && ShownAll(os) == RescanAll(macroMap, input)
    {
      hide TableOk, ShownAll, RescanAll, ExpandAll, WeightAll, Located, RepSeq, Finalized;
      ExpandAllMeans(macroMap, input);
      ExpandNothing(macroMap);
      var list := input;
      os := [];
      while list != []
        invariant os + ExpandAll(macroMap, list) == ExpandAll(macroMap, input)
        decreases WeightAll(macroMap, list)
      {
        RoundStep(macroMap, list);
        var tok := list[0];
        var name := tok.str;
        if name in tok.hs {
          os := os + [tok];
          list := list[1..];
        } else if name in macroMap {
          list := list[1..];
          if name == FILE || name == LINE {
            os := os + [Located(tok)];
          } else {
            var repSeq := CopyRepSeq(macroMap[name].repSeq, tok.loc);
            var repSeqSubsted := Subst(repSeq, tok.ws, tok.hs + {name});
            list := repSeqSubsted + list;
          }
        } else {
          os := os + [tok];
          list := list[1..];
        }
      }
    }

    method CopyRepSeq(body: seq<Tok>, loc: Loc) returns (r: seq<Tok>)
      ensures r == RepSeq(body, loc)
    {
      r := [];
      for i := 0 to |body|
        invariant r + RepSeq(body[i..], loc) == RepSeq(body, loc)
      {
        assert body[i..][1..] == body[i + 1..];
        r := r + [body[i].(loc := loc)];
      }
    }

    /** Without parameters every token is taken over. */
    method Subst(list: seq<Tok>, leadingWS: bool, hs: set<string>) returns (os: seq<Tok>)
      ensures os == Finalized(list, leadingWS, hs)
    {
      os := [];
      for i := 0 to |list|
        invariant os == list[..i]
      {
        os := os + [list[i]];
      }
      assert list[..|list|] == list;
      os := FinalizeSubst(os, leadingWS, hs);
    }

    method FinalizeSubst(ts: seq<Tok>, leadingWS: bool, hs: set<string>) returns (r: seq<Tok>)
      ensures r == Finalized(ts, leadingWS, hs)
    {
      r := ts;
      for i := 0 to |ts|
        invariant |r| == |ts| && r[i..] == ts[i..]
        invariant r[..i] + Hidden(ts[i..], hs) == Hidden(ts, hs)
      {
        assert ts[i..][1..] == ts[i + 1..];
        r := r[i := r[i].(hs := r[i].hs + hs)];
        assert r[..i + 1] == r[..i] + [r[i]];
      }
      assert r == Hidden(ts, hs);
      if r != [] { r := r[0 := r[0].(ws := leadingWS)]; }
    }
  }

  // ---------- what the result means ----------

  /** How a token looks: its spelling, and whether white space precedes it. */
  datatype Shown = Shown(str: string, ws: bool)

  /** Replacement by names alone: a macro is not replaced inside its own replacement (section 6.10.3.4 of C11).
      `active` are the macros being replaced. The first token of a body stands where the name stood. */
  ghost function Rescan(m: MacroMap, active: set<string>, name: string, ws: bool, loc: Loc): seq<Shown>
    decreases Free(m, active)
  {
    if name in active || name !in m then [Shown(name, ws)]
    else if name == FILE then [Shown("\"" + loc.file + "\"", ws)]
    else if name == LINE then [Shown(Numeral(loc.line), ws)]
    else
      FreeShrinks(m, active, name, active + {name});
      RescanFrom(m, active, name, ws, loc, 0)
  }

  ghost function RescanFrom(m: MacroMap, active: set<string>, name: string, ws: bool, loc: Loc, k: nat): seq<Shown>
    requires name in m && name !in active && k <= |m[name].repSeq|
    decreases Free(m, active), 0, |m[name].repSeq| - k
  {
    var body := m[name].repSeq;
    if k == |body| then []
    else
      FreeShrinks(m, active, name, active + {name});
      Rescan(m, active + {name}, body[k].str, if k == 0 then ws else body[k].ws, loc)
      + RescanFrom(m, active, name, ws, loc, k + 1)
  }

  function ShownAll(ts: seq<Tok>): seq<Shown> {
    if ts == [] then [] else [Shown(ts[0].str, ts[0].ws)] + ShownAll(ts[1..])
  }

  lemma {:induction false} ShownAppend(a: seq<Tok>, b: seq<Tok>)
    ensures ShownAll(a + b) == ShownAll(a) + ShownAll(b)
    decreases |a|
  {
    if a == [] {
      assert a + b == b;
    } else {
      assert (a + b)[1..] == a[1..] + b;
      ShownAppend(a[1..], b);
    }
  }

  /** Every token that is left hides at least what its origin hid, keeps the origin's place, and hides its own
      name if that is the name of a macro. */
  ghost predicate Final(m: MacroMap, origin: Tok, out: seq<Tok>) {
    forall t :: t in out ==> origin.hs <= t.hs && t.loc == origin.loc && (t.str in m ==> t.str in t.hs)
  }

  lemma {:induction false} ExpandTokenFinal(m: MacroMap, tok: Tok)
    requires TableOk(m)
    ensures Final(m, tok, ExpandToken(m, tok))
    decreases Free(m, tok.hs)
  {
    if Expands(m, tok) {
      ReplacementFree(m, tok);
      ReplacementAll(m, tok);
      ExpandSeqFinal(m, tok, Replacement(m, tok), Free(m, tok.hs));
    } else {
      KeptFinal(m, tok);
    }
  }

  lemma KeptFinal(m: MacroMap, tok: Tok)
    requires TableOk(m) && !Expands(m, tok)
    ensures Final(m, tok, [Kept(m, tok)])
  {
    if tok.str == LINE { assert !Letter(Decimal(tok.loc.line)[0]); }
  }

  lemma {:induction false} ExpandSeqFinal(m: MacroMap, origin: Tok, ts: seq<Tok>, bound: nat)
    requires TableOk(m) && AllFree(m, ts, bound)
    requires forall i :: 0 <= i < |ts| ==> origin.hs <= ts[i].hs && ts[i].loc == origin.loc
    ensures Final(m, origin, ExpandSeq(m, ts, bound))
    decreases bound, |ts|
  {
    hide ExpandToken, Expands, Free;
    if ts != [] {
      FreeTail(m, ts, bound);
      FreeAt(m, ts, bound, 0);
      ExpandTokenFinal(m, ts[0]);
      assert forall i :: 0 <= i < |ts[1..]| ==> ts[1..][i] == ts[i + 1];
      ExpandSeqFinal(m, origin, ts[1..], bound);
    }
  }

  lemma FreeAt(m: MacroMap, ts: seq<Tok>, bound: nat, i: nat)
    requires AllFree(m, ts, bound) && i < |ts|
    ensures Free(m, ts[i].hs) < bound
  {
  }

  /** The hide sets do what the standard says with the macros being replaced: spellings and white space are those of
      the replacement by names, `__FILE__` and `__LINE__` those of the outermost macro. */
  lemma {:induction false} ExpandIsRescan(m: MacroMap, tok: Tok)
    requires TableOk(m)
    ensures ShownAll(ExpandToken(m, tok)) == Rescan(m, tok.hs, tok.str, tok.ws, tok.loc)
    decreases Free(m, tok.hs), 1, 0
  {
    hide ExpandToken, ExpandSeq, Replacement, Free, RescanFrom;
    if Expands(m, tok) {
      ReplacementFree(m, tok);
      ReplacementAll(m, tok);
      TokenStep(m, tok);
      ExpandSeqIsRescan(m, tok, 0, Replacement(m, tok), Free(m, tok.hs));
      RescanBegins(m, tok);
    } else {
      KeptStep(m, tok);
      NumeralIs(tok.loc.line);
      assert [Kept(m, tok)][1..] == [];
    }
  }

  lemma {:induction false} ExpandSeqIsRescan(m: MacroMap, tok: Tok, k: nat, ts: seq<Tok>, bound: nat)
    requires TableOk(m) && Expands(m, tok) && bound == Free(m, tok.hs)
    requires k <= |m[tok.str].repSeq| && |ts| == |m[tok.str].repSeq| - k && AllFree(m, ts, bound)
    requires forall i :: 0 <= i < |ts| ==> ReplacedAt(m, tok, k + i, ts[i])
    ensures ShownAll(ExpandSeq(m, ts, bound)) == RescanFrom(m, tok.hs, tok.str, tok.ws, tok.loc, k)
    decreases Free(m, tok.hs), 0, |ts|
  {
    hide ExpandToken, ExpandSeq, Rescan, RescanFrom, ShownAll, Free, Replacement;
    RescanStep(m, tok, k);
    SpelledStep(m, ts, bound);
    if ts != [] {
      FreeTail(m, ts, bound);
      FreeAt(m, ts, bound, 0);
      ExpandIsRescan(m, ts[0]);
      ExpandSeqIsRescan(m, tok, k + 1, ts[1..], bound);
    }
  }

  /** The token that stands for the `k`th of the body. */
  predicate ReplacedAt(m: MacroMap, tok: Tok, k: nat, t: Tok)
    requires tok.str in m
  {
    var body := m[tok.str].repSeq;
    k < |body| && t == Tok(body[k].str, if k == 0 then tok.ws else body[k].ws, tok.loc, tok.hs + {tok.str})
  }

  lemma RescanBegins(m: MacroMap, tok: Tok)
    requires Expands(m, tok)
    ensures Rescan(m, tok.hs, tok.str, tok.ws, tok.loc) == RescanFrom(m, tok.hs, tok.str, tok.ws, tok.loc, 0)
  {
    hide RescanFrom, Free;
  }

  lemma RescanStep(m: MacroMap, tok: Tok, k: nat)
    requires tok.str in m && tok.str !in tok.hs && k <= |m[tok.str].repSeq|
    ensures var body := m[tok.str].repSeq;
            RescanFrom(m, tok.hs, tok.str, tok.ws, tok.loc, k)
            == if k == |body| then []
               else Rescan(m, tok.hs + {tok.str}, body[k].str, if k == 0 then tok.ws else body[k].ws, tok.loc)
                    + RescanFrom(m, tok.hs, tok.str, tok.ws, tok.loc, k + 1)
  {
    hide Rescan, Free;
  }

  lemma SpelledStep(m: MacroMap, ts: seq<Tok>, bound: nat)
    requires TableOk(m) && AllFree(m, ts, bound)
    ensures ts == [] ==> ShownAll(ExpandSeq(m, ts, bound)) == []
    ensures ts != [] ==>
              && AllFree(m, ts[1..], bound)
              && ShownAll(ExpandSeq(m, ts, bound))
                 == ShownAll(ExpandToken(m, ts[0])) + ShownAll(ExpandSeq(m, ts[1..], bound))
  {
    hide ExpandToken, Free, TableOk;
    if ts != [] {
      FreeTail(m, ts, bound);
      ShownAppend(ExpandToken(m, ts[0]), ExpandSeq(m, ts[1..], bound));
    }
  }

  ghost function RescanAll(m: MacroMap, ts: seq<Tok>): seq<Shown> {
    if ts == [] then [] else Rescan(m, ts[0].hs, ts[0].str, ts[0].ws, ts[0].loc) + RescanAll(m, ts[1..])
  }

  /** The whole output: the replacement by names of every token, and no macro name that could still be replaced. */
  lemma {:induction false} ExpandAllMeans(m: MacroMap, ts: seq<Tok>)
    requires TableOk(m)
    ensures ShownAll(ExpandAll(m, ts)) == RescanAll(m, ts)
    ensures forall t :: t in ExpandAll(m, ts) && t.str in m ==> t.str in t.hs
    decreases |ts|
  {
    if ts != [] {
      TopFits(m, ts);
      TopFits(m, ts[1..]);
      HeadStep(m, ts);
      ExpandIsRescan(m, ts[0]);
      ExpandTokenFinal(m, ts[0]);
      ExpandAllMeans(m, ts[1..]);
      ShownAppend(ExpandToken(m, ts[0]), ExpandSeq(m, ts[1..], Top(m)));
    }
  }

  /** For `__LINE__` a numeral of its line is put out, with everything else of the token kept. */
  lemma LineToken(m: MacroMap, tok: Tok)
    requires TableOk(m) && tok.str == LINE && LINE in m && LINE !in tok.hs
    ensures |ExpandToken(m, tok)| == 1
    ensures var out := ExpandToken(m, tok)[0];
            NumeralOf(out.str, tok.loc.line) && out.(str := LINE) == tok
  {
    KeptStep(m, tok);
    DecimalReads(tok.loc.line);
  }
}
