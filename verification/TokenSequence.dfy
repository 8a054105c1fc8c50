/** The token cursor of the parser: a position in a list that also holds newlines, and a count of the reads
    beyond the end. */
module TokenSequenceClass {
  import opened Options
  import opened ExprGrammar

  datatype Item = NewLine | Token(tok: Tok)

  function Strip(items: seq<Item>): seq<Tok> {
    if items == [] then []
    else (if items[0].Token? then [items[0].tok] else []) + Strip(items[1..])
  }

  lemma {:induction false} StripAppend(a: seq<Item>, b: seq<Item>)
    ensures Strip(a + b) == Strip(a) + Strip(b)
    decreases |a|
  {
    if a == [] {
      assert a + b == b;
    } else {
      assert (a + b)[1..] == a[1..] + b;
      StripAppend(a[1..], b);
    }
  }

  class TokenSequence {
    const list: seq<Item>
    var begin: nat
    var exceedEnd: nat

    ghost predicate Valid()
      reads this
    {
      begin <= |list|
    }

    /** The tokens that have been read, and those to come. */
    ghost function Before(): seq<Tok>
      reads this
      requires Valid()
    {
      Strip(list[..begin])
    }

    ghost function Rest(): seq<Tok>
      reads this
      requires Valid()
    {
      Strip(list[begin..])
    }

    constructor (list: seq<Item>)
      ensures Valid() && Before() == [] && Rest() == Strip(list) && exceedEnd == 0 && this.list == list && begin == 0
    {
      this.list, begin, exceedEnd := list, 0, 0;
    }

    lemma Step()
      requires Valid() && begin < |list|
      ensures Rest() == (if list[begin].Token? then [list[begin].tok] else []) + Strip(list[begin + 1..])
      ensures Strip(list[..begin + 1]) == Before() + (if list[begin].Token? then [list[begin].tok] else [])
    {
      assert list[..begin + 1] == list[..begin] + [list[begin]];
      StripAppend(list[..begin], [list[begin]]);
      assert list[begin..][1..] == list[begin + 1..];
      assert Strip([list[begin]]) == (if list[begin].Token? then [list[begin].tok] else []) by {
        assert [list[begin]][1..] == [];
      }
    }

    /** Skips newlines; `None` stands for the end token. */
    method Peek() returns (tok: Option<Tok>)
      requires Valid()
      modifies this`begin
      ensures Valid() && Before() == old(Before()) && Rest() == old(Rest()) && begin >= old(begin)
      ensures tok == if Rest() == [] then None else Some(Rest()[0])
      ensures begin < |list| ==> list[begin].Token?
    {
      while begin < |list| && list[begin].NewLine?
        invariant Valid() && Before() == old(Before()) && Rest() == old(Rest()) && begin >= old(begin)
        decreases |list| - begin
      {
        Step();
        begin := begin + 1;
      }
      if begin == |list| { return None; }
      Step();
      return Some(list[begin].tok);
    }

    method Next() returns (tok: Option<Tok>)
      requires Valid()
      modifies this
      ensures Valid() && tok == if old(Rest()) == [] then None else Some(old(Rest())[0])
      ensures tok.None? ==>
              Before() == old(Before()) && Rest() == [] && exceedEnd == old(exceedEnd) + 1 && begin >= old(begin)
      ensures tok.Some? ==> Before() == old(Before()) + [tok.value] && Rest() == old(Rest())[1..]
                            && exceedEnd == old(exceedEnd) && begin > old(begin)
    {
      tok := Peek();
      if tok.Some? {
        Step();
        begin := begin + 1;
        var _ := Peek();
      } else {
        exceedEnd := exceedEnd + 1;
      }
    }

    /** Undoes `Next`, also across newlines and beyond the end. */
    method PutBack()
      requires Valid() && begin > 0 && (exceedEnd > 0 || Before() != [])
      modifies this
      ensures Valid()
      ensures old(exceedEnd) > 0 ==>
              exceedEnd == old(exceedEnd) - 1 && Before() == old(Before()) && Rest() == old(Rest())
                                     && begin == old(begin)
      ensures old(exceedEnd) == 0 ==> var n := |old(Before())| - 1;
                exceedEnd == 0 && Before() == old(Before())[..n] && Rest() == [old(Before())[n]] + old(Rest())
      decreases begin
    {
      if exceedEnd > 0 {
        exceedEnd := exceedEnd - 1;
      } else {
        begin := begin - 1;
        Step();
        if list[begin].NewLine? {
          PutBack();
        }
      }
    }

    method Try(tok: Tok) returns (found: bool)
      requires Valid()
      modifies this
      ensures Valid() && exceedEnd == old(exceedEnd) && found == Starts(old(Rest()), tok)
      ensures if found then Before() == old(Before()) + [tok] && Rest() == old(Rest())[1..] && begin > old(begin)
              else Before() == old(Before()) && Rest() == old(Rest()) && begin >= old(begin)
    {
      var head := Peek();
      found := head == Some(tok);
      if found { var _ := Next(); }
    }

    method Test(tok: Tok) returns (found: bool)
      requires Valid()
      modifies this`begin
      ensures Valid() && Before() == old(Before()) && Rest() == old(Rest()) && found == Starts(Rest(), tok)
              && begin >= old(begin)
    {
      var head := Peek();
      found := head == Some(tok);
    }
  }

  /** Reading a token and putting it back changes nothing, wherever the cursor is. */
  method NextPutBack(ts: TokenSequence)
    requires ts.Valid() && ts.exceedEnd == 0 && (ts.begin > 0 || ts.Rest() != [])
    modifies ts
    ensures ts.Valid() && ts.Before() == old(ts.Before()) && ts.Rest() == old(ts.Rest()) && ts.exceedEnd == 0
  {
    ghost var before, rest := ts.Before(), ts.Rest();
    var _ := ts.Next();
    ts.PutBack();
    assert rest != [] ==> (before + [rest[0]])[..|before|] == before && [rest[0]] + rest[1..] == rest;
  }
}
