/** What the two scanners promise, stated on the token grammar alone. */
module ScanTheorems {
  import opened Wrappers
  import opened RustLexer
  import opened ScanGrammar

  /** The window is a lexing whose last token is the first symbol that hits. */
  ghost predicate Grammatical(goal: Goal, window: string) {
    exists ts :: Lexes(goal, ts) && Flat(ts) == window && Accepts(goal, "", ts)
  }

  /** The scanner returns `k` exactly when the text from its start to `k` has that form;
      it fails exactly when no prefix of the rest of the text has it. */
  lemma ScanIsGrammatical(goal: Goal, text: string, i: nat, k: nat)
    ensures Scan(goal, text, i, "") == Some(k) <==>
            i <= k < |text| && Grammatical(goal, text[i..k + 1])
  {
    if Scan(goal, text, i, "") == Some(k) {
      var ts := ScanSound(goal, text, i, k, "");
    }
    if i <= k < |text| && Grammatical(goal, text[i..k + 1]) {
      var ts :| Lexes(goal, ts) && Flat(ts) == text[i..k + 1] && Accepts(goal, "", ts);
      ScanComplete(goal, text, i, k, "", ts);
    }
  }

  /** Locality and shift: the answer depends on nothing outside the window it closes, so the
      same window anywhere in any other text gives the same answer, moved by the offset. */
  lemma ScanIsLocal(goal: Goal, text: string, i: nat, k: nat, other: string, j: nat, moved: nat)
    requires Scan(goal, text, i, "") == Some(k)
    requires moved == j + (k - i) && moved < |other| && other[j..moved + 1] == text[i..k + 1]
    ensures Scan(goal, other, j, "") == Some(moved)
  {
    ScanIsGrammatical(goal, text, i, k);
    ScanIsGrammatical(goal, other, j, moved);
  }

  /** A text has at most one lexing. */
  lemma {:induction false} LexingIsUnique(goal: Goal, ts: seq<Token>, us: seq<Token>)
    requires Lexes(goal, ts) && Lexes(goal, us) && Flat(ts) == Flat(us)
    ensures ts == us
    decreases |ts|
  {
    if ts == [] || us == [] {
      return;
    }
    FirstTokenIsUnique(goal, ts, us);
    var n := |Text(ts[0])|;
    assert Flat(ts[1..]) == Flat(ts)[n..] == Flat(us)[n..] == Flat(us[1..]);
    LexingIsUnique(goal, ts[1..], us[1..]);
  }

  lemma FirstTokenIsUnique(goal: Goal, ts: seq<Token>, us: seq<Token>)
    requires Lexes(goal, ts) && Lexes(goal, us) && Flat(ts) == Flat(us) && ts != [] && us != []
    ensures ts[0] == us[0]
  {
    var text := Flat(ts);
    FirstTokenIs(goal, ts);
    FirstTokenIs(goal, us);
    assert Text(ts[0]) == text[..|Text(ts[0])|];
    assert Text(us[0]) == text[..|Text(us[0])|];
    if !ts[0].Symbol? {
      TextIsInjective(goal, ts[0], us[0]);
    }
  }

  lemma FirstTokenIs(goal: Goal, ts: seq<Token>)
    requires Lexes(goal, ts) && ts != []
    ensures LexemeAt(goal, Flat(ts), 0) ==
            if ts[0].Symbol? then Plain else Skipped(Some(|Text(ts[0])|))
  {
    var text := Flat(ts);
    assert text[0..] == text;
    if ts[0].Symbol? {
      PlainIs(goal, text, 0);
    } else {
      assert text[0..|Text(ts[0])|] == Text(ts[0]);
      TokenIsSkipped(goal, text, 0, |Text(ts[0])|, ts[0]);
    }
  }

  /** Two complete tokens with the same text are the same token. */
  lemma TextIsInjective(goal: Goal, t: Token, u: Token)
    requires Valid(goal, t) && Valid(goal, u) && !t.Symbol? && !u.Symbol? && Text(t) == Text(u)
    ensures t == u
  {
    var s := Text(t);
    assert s[0] == Text(u)[0] && s[1] == Text(u)[1];
    match t
    case LineComment(b) =>
      assert b == s[2..|s| - 1];
    case BlockComment(b) =>
      assert b == s[2..|s| - 2];
    case Quoted(q, b) =>
      assert b == s[1..|s| - 1];
    case RawString(h, b) =>
      assert u.RawString?;
      RawHashesAre(t);
      RawHashesAre(u);
      assert b == s[h + 2..|s| - 1 - h];
      assert u.body == Text(u)[h + 2..|s| - 1 - h];
  }

  lemma RawHashesAre(t: Token)
    requires t.RawString?
    ensures RawHashes(Text(t), 0) == Some(t.hashes)
  {
    assert Text(t)[0..] == Text(t);
    RawHashesIs(Text(t), 0, t.hashes);
  }

  // ----- The matching brace as a statement about depth -----------------------------------

  /** The code characters open with a brace, stay inside it, and leave it at the very end. */
  ghost predicate Enclosed(symbols: string) {
    symbols != "" && symbols[0] == '{' && Excess(symbols, '{', '}') == 0 &&
    forall j :: 0 < j < |symbols| ==> Excess(symbols[..j], '{', '}') > 0
  }

  /** The scanner stops at the last of the code characters and at none before it. */
  ghost predicate HitsAtEnd(goal: Goal, seen: string, symbols: string) {
    var n := |symbols| - 1;
    n >= 0 && Hit(goal, seen + symbols[..n], symbols[n]) &&
    forall j :: 0 <= j < n ==> !Hit(goal, seen + symbols[..j], symbols[j])
  }

  /** The last token is a symbol, it hits, and no earlier symbol does. */
  ghost predicate FirstHitEnds(goal: Goal, seen: string, ts: seq<Token>) {
    ts != [] && ts[|ts| - 1].Symbol? && HitsAtEnd(goal, seen, Symbols(ts))
  }

  lemma {:induction false} AcceptsIsFirstHit(goal: Goal, seen: string, ts: seq<Token>)
    ensures Accepts(goal, seen, ts) <==> FirstHitEnds(goal, seen, ts)
    decreases |ts|
  {
    if |ts| > 1 {
      var t, rest := ts[0], ts[1..];
      if t.Symbol? {
        AcceptsIsFirstHit(goal, seen + [t.c], rest);
        if rest[|rest| - 1].Symbol? {
          LastSymbol(rest);
          FirstHitShifts(goal, seen, t.c, Symbols(rest));
        }
      } else {
        AcceptsIsFirstHit(goal, seen, rest);
        assert Symbols(ts) == Symbols(rest);
      }
    } else if |ts| == 1 {
      assert Symbols(ts[1..]) == "";
      if ts[0].Symbol? {
        assert seen + Symbols(ts)[..0] == seen;
      }
    }
  }

  lemma {:induction false} LastSymbol(ts: seq<Token>)
    requires ts != [] && ts[|ts| - 1].Symbol?
    ensures Symbols(ts) != ""
  {
    if |ts| > 1 {
      LastSymbol(ts[1..]);
    }
  }

  lemma FirstHitShifts(goal: Goal, seen: string, c: char, rest: string)
    requires rest != ""
    ensures HitsAtEnd(goal, seen, [c] + rest) <==> !Hit(goal, seen, c) && HitsAtEnd(goal, seen + [c], rest)
  {
    var all := [c] + rest;
    assert seen + all[..0] == seen;
    forall j: nat | j < |rest|
      ensures seen + all[..j + 1] == seen + [c] + rest[..j] && all[j + 1] == rest[j]
    {
    }
    if HitsAtEnd(goal, seen, all) {
      assert !Hit(goal, seen + all[..0], all[0]);
      forall j | 0 <= j < |rest| - 1
        ensures !Hit(goal, seen + [c] + rest[..j], rest[j])
      {
        assert !Hit(goal, seen + all[..j + 1], all[j + 1]);
      }
    }
    if !Hit(goal, seen, c) && HitsAtEnd(goal, seen + [c], rest) {
      forall j | 0 <= j < |all| - 1
        ensures !Hit(goal, seen + all[..j], all[j])
      {
        if j > 0 {
          assert !Hit(goal, seen + [c] + rest[..j - 1], rest[j - 1]);
        }
      }
    }
  }

  lemma ExcessStep(s: string, c: char, open: char, close: char)
    ensures Excess(s + [c], open, close) == Excess(s, open, close) + (if c == open then 1 else if c == close then -1 else 0)
  {
    assert (s + [c])[..|s|] == s;
  }

  ghost predicate ClosesItsBlock(ts: seq<Token>) {
    ts != [] && ts[|ts| - 1].Symbol? && Enclosed(Symbols(ts))
  }

  /** The window, read as tokens, is one block from its opening to its closing brace. */
  ghost predicate IsBlock(window: string) {
    exists ts :: Lexes(CloseBrace, ts) && Flat(ts) == window && ClosesItsBlock(ts)
  }

  /** Started on an opening brace, the first hit is the end of the brace's own block. */
  lemma FirstHitIsEnclosed(ts: seq<Token>)
    requires ts != [] && ts[0] == Symbol('{')
    ensures Accepts(CloseBrace, "", ts) <==> ClosesItsBlock(ts)
  {
    AcceptsIsFirstHit(CloseBrace, "", ts);
    if FirstHitEnds(CloseBrace, "", ts) {
      HitEncloses(Symbols(ts));
    } else if ClosesItsBlock(ts) {
      EnclosedHits(Symbols(ts));
    }
  }

  lemma HitEncloses(symbols: string)
    requires symbols != "" && symbols[0] == '{' && HitsAtEnd(CloseBrace, "", symbols)
    ensures Enclosed(symbols)
  {
    var n := |symbols| - 1;
    assert "" + symbols[..n] + [symbols[n]] == symbols;
    forall j | 0 < j < |symbols|
      ensures Excess(symbols[..j], '{', '}') > 0
    {
      StaysInside(symbols, j);
    }
  }

  lemma CloseHitIs(symbols: string, k: nat)
    requires k < |symbols|
    ensures Hit(CloseBrace, "" + symbols[..k], symbols[k]) <==>
            symbols[k] == '}' && Excess(symbols[..k + 1], '{', '}') == 0
    ensures k == 0 && symbols[0] == '{' ==> Excess(symbols[..k + 1], '{', '}') == 1
    ensures Excess(symbols[..k], '{', '}') > 0 && Excess(symbols[..k + 1], '{', '}') == 0 ==> symbols[k] == '}'
  {
    assert "" + symbols[..k] + [symbols[k]] == symbols[..k + 1];
    assert symbols[..k] + [symbols[k]] == symbols[..k + 1];
    ExcessStep(symbols[..k], symbols[k], '{', '}');
  }

  lemma EnclosedHits(symbols: string)
    requires Enclosed(symbols)
    ensures HitsAtEnd(CloseBrace, "", symbols)
  {
    var n := |symbols| - 1;
    assert symbols[..n + 1] == symbols;
    CloseHitIs(symbols, n);
    forall k | 0 <= k < n
      ensures !Hit(CloseBrace, "" + symbols[..k], symbols[k])
    {
      CloseHitIs(symbols, k);
    }
  }

  lemma {:induction false} StaysInside(symbols: string, j: nat)
    requires 0 < j < |symbols| && symbols[0] == '{' && HitsAtEnd(CloseBrace, "", symbols)
    ensures Excess(symbols[..j], '{', '}') > 0
  {
    assert symbols[..j] == symbols[..j - 1] + [symbols[j - 1]];
    ExcessStep(symbols[..j - 1], symbols[j - 1], '{', '}');
    if j > 1 {
      StaysInside(symbols, j - 1);
      assert !Hit(CloseBrace, "" + symbols[..j - 1], symbols[j - 1]);
      assert "" + symbols[..j - 1] == symbols[..j - 1];
    } else {
      assert symbols[..0] == "";
    }
  }

  /** `find_matching_brace` on an opening brace: the index found is the one where the text from
      the brace on, read as tokens, has its code-brace depth return to zero for the first time. */
  lemma MatchingBraceIs(text: string, open: nat, k: nat)
    requires open < |text| && text[open] == '{'
    ensures Scan(CloseBrace, text, open, "") == Some(k) <==>
            open <= k < |text| && IsBlock(text[open..k + 1])
  {
    if Scan(CloseBrace, text, open, "") == Some(k) {
      var ts := ScanSound(CloseBrace, text, open, k, "");
      assert Flat(ts)[0] == text[open];
      StartsWithBrace(CloseBrace, ts);
      FirstHitIsEnclosed(ts);
    } else {
      forall ts | open <= k < |text| && Lexes(CloseBrace, ts) && Flat(ts) == text[open..k + 1] && ClosesItsBlock(ts)
        ensures false
      {
        BlockIsMatched(text, open, k, ts);
      }
    }
  }

  lemma BlockScanned(text: string, t: nat, e: nat)
    requires t < e <= |text| && text[t] == '{'
    ensures Scan(CloseBrace, text, t, "") == Some(e - 1) <==> IsBlock(text[t..e])
  {
    var k := e - 1;
    MatchingBraceIs(text, t, k);
    assert text[t..k + 1] == text[t..e];
  }

  lemma BlockIsMatched(text: string, open: nat, k: nat, ts: seq<Token>)
    requires open <= k < |text| && text[open] == '{'
    requires Lexes(CloseBrace, ts) && Flat(ts) == text[open..k + 1] && ClosesItsBlock(ts)
    ensures Scan(CloseBrace, text, open, "") == Some(k)
  {
    assert Flat(ts)[0] == text[open];
    StartsWithBrace(CloseBrace, ts);
    FirstHitIsEnclosed(ts);
    ScanComplete(CloseBrace, text, open, k, "", ts);
  }

  lemma StartsWithBrace(goal: Goal, ts: seq<Token>)
    requires Lexes(goal, ts) && ts != [] && Flat(ts)[0] == '{'
    ensures ts[0] == Symbol('{')
  {
    assert Flat(ts)[0] == Text(ts[0])[0];
  }

  // ----- The end of a signature as a statement about depth ---------------------------------

  /** A `{` or `;` stands at `j`, and every parenthesis and bracket before it is closed. */
  ghost predicate EndsAt(symbols: string, j: int) {
    0 <= j < |symbols| && (symbols[j] == '{' || symbols[j] == ';') &&
    Excess(symbols[..j], '(', ')') == 0 && Excess(symbols[..j], '[', ']') == 0
  }

  /** The last token is the first such character in code position. */
  ghost predicate EndsSignature(ts: seq<Token>) {
    ts != [] && ts[|ts| - 1].Symbol? &&
    var symbols := Symbols(ts);
    EndsAt(symbols, |symbols| - 1) && forall j :: 0 <= j < |symbols| - 1 ==> !EndsAt(symbols, j)
  }

  /** The window, read as tokens, is a signature with its end. */
  ghost predicate IsSignature(window: string) {
    exists ts :: Lexes(SignatureEnd, ts) && Flat(ts) == window && EndsSignature(ts)
  }

  lemma SignatureHitIs(symbols: string, j: nat)
    requires j < |symbols|
    ensures Hit(SignatureEnd, "" + symbols[..j], symbols[j]) <==> EndsAt(symbols, j)
  {
    assert "" + symbols[..j] == symbols[..j];
  }

  lemma SignatureIsAccepted(ts: seq<Token>)
    ensures Accepts(SignatureEnd, "", ts) <==> EndsSignature(ts)
  {
    AcceptsIsFirstHit(SignatureEnd, "", ts);
    var symbols := Symbols(ts);
    forall j: nat | j < |symbols|
      ensures Hit(SignatureEnd, "" + symbols[..j], symbols[j]) <==> EndsAt(symbols, j)
    {
      SignatureHitIs(symbols, j);
    }
  }

  /** `find_signature_terminator`: the index found is that of the first `{` or `;` in code position
      at which every parenthesis and bracket since the start is closed. */
  lemma SignatureEndIs(text: string, start: nat, k: nat)
    ensures Scan(SignatureEnd, text, start, "") == Some(k) <==>
            start <= k < |text| && IsSignature(text[start..k + 1])
  {
    if Scan(SignatureEnd, text, start, "") == Some(k) {
      var ts := ScanSound(SignatureEnd, text, start, k, "");
      SignatureIsAccepted(ts);
    } else {
      forall ts | start <= k < |text| && Lexes(SignatureEnd, ts) && Flat(ts) == text[start..k + 1] && EndsSignature(ts)
        ensures false
      {
        SignatureIsAccepted(ts);
        ScanComplete(SignatureEnd, text, start, k, "", ts);
      }
    }
  }

  lemma SignatureTo(text: string, start: nat, k: nat, e: nat)
    requires start < e <= |text| && e == k + 1
    ensures Scan(SignatureEnd, text, start, "") == Some(k) <==> IsSignature(text[start..e])
  {
    SignatureEndIs(text, start, k);
  }

  /** What the signature scanner accepts is exactly the windows of this form. */
  lemma SignaturesAreGrammatical(window: string)
    ensures Grammatical(SignatureEnd, window) <==> IsSignature(window)
  {
    forall ts
      ensures Accepts(SignatureEnd, "", ts) <==> EndsSignature(ts)
    {
      SignatureIsAccepted(ts);
    }
  }

  /** The excess counts occurrences. */
  lemma {:induction false} ExcessCounts(s: string, open: char, close: char)
    requires open != close
    ensures Excess(s, open, close) + multiset(s)[close] == multiset(s)[open]
  {
    if s != "" {
      var init, last := s[..|s| - 1], s[|s| - 1];
      ExcessCounts(init, open, close);
      assert s == init + [last];
    }
  }
}
