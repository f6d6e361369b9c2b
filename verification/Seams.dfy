/** Texts that can be spliced: lexings join at a safe seam, so a section whose body is a
    concatenation of self-contained pieces is closed by the brace that follows the body. */
module Seams {
  import opened Wrappers
  import opened RustLexer
  import opened ScanGrammar
  import opened ScanTheorems

  /** Brace depth never drops below its start and ends where it started. */
  ghost predicate Level(symbols: string) {
    Excess(symbols, '{', '}') == 0 &&
    forall j :: 0 <= j <= |symbols| ==> Excess(symbols[..j], '{', '}') >= 0
  }

  /** The text is whole tokens, its code braces balance, and no opener can run across its end. */
  ghost predicate Closed(s: string) {
    (s == "" || SeamSafe(s)) && exists ts :: LevelLexing(ts, s)
  }

  ghost predicate LevelLexing(ts: seq<Token>, s: string) {
    Lexes(CloseBrace, ts) && Flat(ts) == s && Level(Symbols(ts))
  }

  lemma Regroup(a: string, b: string, c: string)
    ensures a + (b + c) == (a + b) + c
  {
  }

  lemma {:induction false} FlatConcat(ts: seq<Token>, us: seq<Token>)
    ensures Flat(ts + us) == Flat(ts) + Flat(us)
  {
    if ts == [] {
      assert ts + us == us;
    } else {
      assert (ts + us)[1..] == ts[1..] + us;
      FlatConcat(ts[1..], us);
      Regroup(Text(ts[0]), Flat(ts[1..]), Flat(us));
    }
  }

  lemma {:induction false} SymbolsConcat(ts: seq<Token>, us: seq<Token>)
    ensures Symbols(ts + us) == Symbols(ts) + Symbols(us)
  {
    if ts == [] {
      assert ts + us == us;
    } else {
      assert (ts + us)[1..] == ts[1..] + us;
      SymbolsConcat(ts[1..], us);
      Regroup(if ts[0].Symbol? then [ts[0].c] else "", Symbols(ts[1..]), Symbols(us));
    }
  }

  lemma SeamSafeRest(a: string, b: string)
    requires b != "" && SeamSafe(a + b)
    ensures SeamSafe(b)
  {
  }

  lemma {:induction false} LexingsJoin(goal: Goal, ts: seq<Token>, us: seq<Token>)
    requires Lexes(goal, ts) && Lexes(goal, us) && (ts == [] || SeamSafe(Flat(ts)))
    ensures Lexes(goal, ts + us)
  {
    if ts == [] {
      assert ts + us == us;
    } else {
      if ts[1..] != [] {
        SeamSafeRest(Text(ts[0]), Flat(ts[1..]));
      }
      LexingsJoin(goal, ts[1..], us);
      HeadJoins(goal, ts, us);
    }
  }

  lemma HeadJoins(goal: Goal, ts: seq<Token>, us: seq<Token>)
    requires ts != [] && Lexes(goal, ts) && SeamSafe(Flat(ts)) && Lexes(goal, ts[1..] + us)
    ensures Lexes(goal, ts + us)
  {
    HeadStaysSymbol(goal, ts, us);
    assert (ts + us)[1..] == ts[1..] + us;
  }

  lemma HeadStaysSymbol(goal: Goal, ts: seq<Token>, us: seq<Token>)
    requires ts != [] && Lexes(goal, ts) && SeamSafe(Flat(ts))
    ensures ts[0].Symbol? ==> !OpensLiteral(goal, Flat(ts + us))
  {
    FlatConcat(ts, us);
    OpenerStaysInside(goal, Flat(ts), Flat(ts) + Flat(us));
  }

  lemma {:induction false} ExcessConcat(a: string, b: string)
    ensures Excess(a + b, '{', '}') == Excess(a, '{', '}') + Excess(b, '{', '}')
  {
    if b == "" {
      assert a + b == a;
    } else {
      var n := |b| - 1;
      assert a + b == (a + b[..n]) + [b[n]];
      ExcessConcat(a, b[..n]);
      ExcessStep(a + b[..n], b[n], '{', '}');
    }
  }

  lemma LevelConcat(a: string, b: string)
    requires Level(a) && Level(b)
    ensures Level(a + b)
  {
    ExcessConcat(a, b);
    forall j | 0 <= j <= |a + b|
      ensures Excess((a + b)[..j], '{', '}') >= 0
    {
      if j <= |a| {
        assert (a + b)[..j] == a[..j];
      } else {
        assert (a + b)[..j] == a + b[..j - |a|];
        ExcessConcat(a, b[..j - |a|]);
      }
    }
  }

  lemma LevelLexingsJoin(ts: seq<Token>, a: string, us: seq<Token>, b: string)
    requires LevelLexing(ts, a) && LevelLexing(us, b) && (a == "" || SeamSafe(a))
    ensures LevelLexing(ts + us, a + b)
  {
    LexingsJoin(CloseBrace, ts, us);
    FlatConcat(ts, us);
    SymbolsConcat(ts, us);
    LevelConcat(Symbols(ts), Symbols(us));
  }

  lemma ClosedConcat(a: string, b: string)
    requires Closed(a) && Closed(b)
    ensures Closed(a + b)
  {
    if b == "" {
      assert a + b == a;
    } else {
      var ts :| LevelLexing(ts, a);
      var us :| LevelLexing(us, b);
      LevelLexingsJoin(ts, a, us, b);
      assert (a + b)[|a + b| - 1] == b[|b| - 1];
    }
  }

  lemma LevelEncloses(body: string)
    requires Level(body)
    ensures Enclosed("{" + body + "}")
  {
    var all := "{" + body + "}";
    ExcessStep("", '{', '{', '}');
    assert "" + ['{'] == "{";
    ExcessConcat("{", body);
    ExcessStep("{" + body, '}', '{', '}');
    forall j | 0 < j < |all|
      ensures Excess(all[..j], '{', '}') > 0
    {
      assert all[..j] == "{" + body[..j - 1];
      ExcessConcat("{", body[..j - 1]);
    }
  }

  /** A section with a closed body ends at the brace right after it. */
  lemma ClosedBodyIsMatched(text: string, open: nat, k: nat)
    requires open < k < |text| && text[open] == '{' && text[k] == '}'
    requires Closed(text[open + 1..k])
    ensures Scan(CloseBrace, text, open, "") == Some(k)
  {
    var body := text[open + 1..k];
    var ts :| LevelLexing(ts, body);
    var all := BlockLexes(ts, body);
    BlockWindowIs(text, open, k);
    BlockIsMatched(text, open, k, all);
  }

  lemma BlockWindowIs(text: string, open: nat, k: nat)
    requires open < k < |text| && text[open] == '{' && text[k] == '}'
    ensures text[open..k + 1] == "{" + text[open + 1..k] + "}"
  {
  }

  lemma BlockLexes(ts: seq<Token>, body: string) returns (all: seq<Token>)
    requires LevelLexing(ts, body) && (body == "" || SeamSafe(body))
    ensures Lexes(CloseBrace, all) && Flat(all) == "{" + body + "}" && ClosesItsBlock(all)
  {
    var head, tail := [Symbol('{')], [Symbol('}')];
    all := head + ts + tail;
    BraceLexes('{');
    BraceLexes('}');
    LexingsJoin(CloseBrace, head, ts);
    FlatConcat(head, ts);
    SymbolsConcat(head, ts);
    assert SeamSafe("{" + body);
    LexingsJoin(CloseBrace, head + ts, tail);
    FlatConcat(head + ts, tail);
    SymbolsConcat(head + ts, tail);
    LevelEncloses(Symbols(ts));
    assert all[|all| - 1] == Symbol('}');
  }

  lemma BraceLexes(c: char)
    requires c == '{' || c == '}'
    ensures Lexes(CloseBrace, [Symbol(c)])
    ensures Flat([Symbol(c)]) == [c] && Symbols([Symbol(c)]) == [c]
  {
    var ts := [Symbol(c)];
    assert ts[1..] == [];
    assert Flat(ts) == [c];
    assert [c][0] == c;
    assert !("//" <= [c]);
    assert !("/*" <= [c]);
    assert !("\"" <= [c]);
    assert !("'" <= [c]);
    assert !OpensLiteral(CloseBrace, [c]);
  }

  /** A closed body put between the braces of a section is matched by the closing brace. */
  lemma SpliceIsMatched(text: string, a: nat, b: nat, body: string, spliced: string, close: nat)
    requires 0 < a <= b < |text| && text[a - 1] == '{' && text[b] == '}' && Closed(body)
    requires spliced == text[..a] + body + text[b..] && close == a + |body|
    ensures Scan(CloseBrace, spliced, a - 1, "") == Some(close)
  {
    MiddleOf(text, a, b, body, spliced, close);
    ClosedBodyIsMatched(spliced, a - 1, close);
  }

  lemma MiddleOf(text: string, a: nat, b: nat, body: string, spliced: string, close: nat)
    requires 0 < a <= b < |text| && spliced == text[..a] + body + text[b..] && close == a + |body|
    ensures close < |spliced| && spliced[a - 1] == text[a - 1] && spliced[close] == text[b] && spliced[a..close] == body
  {
  }
}
