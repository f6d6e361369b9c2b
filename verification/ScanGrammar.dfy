/** The scan agrees with the token grammar: soundness and completeness, token by token. */
module ScanGrammar {
  import opened Wrappers
  import opened RustLexer

  // ----- Where a comment or literal ends -------------------------------------------------

  lemma {:induction false} LineEndIs(text: string, i: nat, e: nat)
    ensures LineEnd(text, i) == Some(e) <==>
            i < e <= |text| && text[e - 1] == '\n' && forall k :: i <= k < e - 1 ==> text[k] != '\n'
    decreases |text| - i
  {
    if i < |text| {
      LineEndIs(text, i + 1, e);
    }
  }

  lemma {:induction false} BlockEndIs(text: string, i: nat, e: nat)
    ensures BlockEnd(text, i) == Some(e) <==>
            i + 2 <= e <= |text| && BlockCloserAt(text, e - 2)
            && forall k :: i <= k < e - 2 ==> !BlockCloserAt(text, k)
    decreases |text| - i
  {
    if i < |text| {
      BlockEndIs(text, i + 1, e);
      assert BlockCloserAt(text, i) <==> BlockEnd(text, i) == Some(i + 2);
    }
  }

  lemma {:induction false} QuotedEndIs(text: string, i: nat, q: char, e: nat)
    requires q != '\\'
    ensures QuotedEnd(text, i, q) == Some(e) <==>
            i < e <= |text| && text[e - 1] == q && Escaped(text[i..e - 1], q)
    decreases |text| - i
  {
    if i < |text| && i < e <= |text| {
      var step := if text[i] == '\\' then 2 else 1;
      QuotedEndIs(text, i + step, q, e);
      if i + step <= e - 1 {
        assert text[i..e - 1][step..] == text[i + step..e - 1];
      }
    }
  }

  lemma {:induction false} RawEndIs(text: string, i: nat, h: nat, e: nat)
    ensures RawEnd(text, i, h) == Some(e) <==>
            i + h < e <= |text| && RawCloserAt(text, e - 1 - h, h)
            && forall k :: i <= k < e - 1 - h ==> !RawCloserAt(text, k, h)
    decreases |text| - i
  {
    if i < |text| {
      RawEndIs(text, i + 1, h, e);
      assert RawCloserAt(text, i, h) <==> text[i] == '"' && Hashes(h) <= text[i + 1..] by {
        if Hashes(h) <= text[i + 1..] {
          assert forall j :: i < j <= i + h ==> text[j] == text[i + 1..][j - i - 1] == Hashes(h)[j - i - 1];
        }
      }
    }
  }

  lemma RawHashesIs(text: string, i: nat, h: nat)
    requires i < |text|
    ensures RawHashes(text, i) == Some(h) <==> RawOpener(text[i..], h)
  {
    if RawOpener(text[i..], h) {
      assert forall j :: i + 1 <= j <= i + h ==> text[j] == text[i..][j - i];
      assert text[i + 1 + h] == text[i..][1 + h];
    }
  }

  lemma RawCloserInWindow(text: string, a: nat, e: nat, k: nat, h: nat)
    requires a <= e <= |text| && a + k + h < e
    ensures RawCloserAt(text[a..e], k, h) <==> RawCloserAt(text, a + k, h)
  {
    if RawCloserAt(text[a..e], k, h) {
      assert forall j :: a + k < j <= a + k + h ==> text[j] == text[a..e][j - a];
    }
  }

  // ----- One token at a time -------------------------------------------------------------

  lemma PlainIs(goal: Goal, text: string, i: nat)
    requires i < |text|
    ensures LexemeAt(goal, text, i).Plain? <==> !OpensLiteral(goal, text[i..])
  {
    forall h: nat
      ensures RawHashes(text, i) == Some(h) <==> RawOpener(text[i..], h)
    {
      RawHashesIs(text, i, h);
    }
    if RawHashes(text, i).Some? {
      assert RawOpener(text[i..], RawHashes(text, i).value);
    }
  }

  /** A comment or literal that the scan skips is a complete token of the grammar. */
  lemma SkippedIsToken(goal: Goal, text: string, i: nat, e: nat) returns (t: Token)
    requires i < |text| && LexemeAt(goal, text, i) == Skipped(Some(e))
    ensures !t.Symbol? && Valid(goal, t) && Text(t) == text[i..e]
  {
    if text[i] == '/' {
      t := SkippedIsComment(goal, text, i, e);
    } else if text[i] == '"' || text[i] == '\'' {
      QuotedEndIs(text, i + 1, text[i], e);
      t := Quoted(text[i], text[i + 1..e - 1]);
    } else {
      t := SkippedIsRaw(text, i, e);
    }
  }

  lemma SkippedIsComment(goal: Goal, text: string, i: nat, e: nat) returns (t: Token)
    requires i < |text| && text[i] == '/' && LexemeAt(goal, text, i) == Skipped(Some(e))
    ensures !t.Symbol? && Valid(goal, t) && Text(t) == text[i..e]
  {
    if text[i + 1] == '/' {
      t := LineCommentOf(goal, text, i, i + 2, e);
    } else {
      t := BlockCommentOf(goal, text, i, i + 2, e);
    }
  }

  lemma LineCommentOf(goal: Goal, text: string, i: nat, a: nat, e: nat) returns (t: Token)
    requires a == i + 2 <= |text| && text[i] == '/' && text[i + 1] == '/' && LineEnd(text, a) == Some(e)
    ensures !t.Symbol? && Valid(goal, t) && Text(t) == text[i..e]
  {
    LineEndIs(text, a, e);
    WindowIs(text, i, '/', a, e - 1, e);
    LineWindow(text, a, e);
    t := LineComment(text[a..e - 1]);
  }

  lemma LineWindow(text: string, a: nat, e: nat)
    requires a < e <= |text| && text[e - 1] == '\n' && forall k :: a <= k < e - 1 ==> text[k] != '\n'
    ensures '\n' !in text[a..e - 1] && text[e - 1..e] == "\n"
  {
  }

  lemma BlockCommentOf(goal: Goal, text: string, i: nat, a: nat, e: nat) returns (t: Token)
    requires a == i + 2 <= |text| && text[i] == '/' && text[i + 1] == '*' && BlockEnd(text, a) == Some(e)
    ensures !t.Symbol? && Valid(goal, t) && Text(t) == text[i..e]
  {
    BlockEndIs(text, a, e);
    BlockWindow(goal, text, a, e);
    WindowIs(text, i, '*', a, e - 2, e);
    t := BlockComment(text[a..e - 2]);
  }

  lemma WindowIs(text: string, i: nat, c: char, a: nat, b: nat, e: nat)
    requires a == i + 2 && a <= b <= e <= |text| && text[i] == '/' && text[i + 1] == c
    ensures text[i..e] == ['/', c] + text[a..b] + text[b..e]
  {
  }

  lemma BlockWindow(goal: Goal, text: string, a: nat, e: nat)
    requires a + 2 <= e <= |text| && BlockCloserAt(text, e - 2)
    requires forall k :: a <= k < e - 2 ==> !BlockCloserAt(text, k)
    ensures Valid(goal, BlockComment(text[a..e - 2]))
    ensures text[a..e] == text[a..e - 2] + "*/" && text[e - 2..e] == "*/"
  {
    var b := text[a..e - 2];
    assert text[a..e] == b + "*/";
    forall k | 0 <= k < |b|
      ensures !BlockCloserAt(b + "*/", k)
    {
      assert !BlockCloserAt(text, a + k);
      assert (b + "*/")[k] == text[a + k] && (b + "*/")[k + 1] == text[a + k + 1];
    }
  }

  lemma SkippedIsRaw(text: string, i: nat, e: nat) returns (t: Token)
    requires i < |text| && text[i] == 'r' && LexemeAt(CloseBrace, text, i) == Skipped(Some(e))
    ensures t.RawString? && Valid(CloseBrace, t) && Text(t) == text[i..e]
  {
    var h := RawHashes(text, i).value;
    t := RawStringOf(text, i, h, i + 2 + h, e);
  }

  lemma RawStringOf(text: string, i: nat, h: nat, a: nat, e: nat) returns (t: Token)
    requires i < |text| && RawHashes(text, i) == Some(h) && a == i + 2 + h && RawEnd(text, a, h) == Some(e)
    ensures t.RawString? && Valid(CloseBrace, t) && Text(t) == text[i..e]
  {
    RawHashesIs(text, i, h);
    RawEndIs(text, a, h, e);
    RawBodyIsValid(text, a, e, h);
    RawTextIs(text, i, h, e);
    t := RawString(h, text[a..e - 1 - h]);
  }

  lemma RawTailIs(text: string, a: nat, e: nat, h: nat)
    requires a + h < e <= |text| && RawCloserAt(text, e - 1 - h, h)
    ensures text[a..e - 1 - h] + "\"" + Hashes(h) == text[a..e]
  {
  }

  lemma RawBodyIsValid(text: string, a: nat, e: nat, h: nat)
    requires a + h < e <= |text| && RawCloserAt(text, e - 1 - h, h)
    requires forall k :: a <= k < e - 1 - h ==> !RawCloserAt(text, k, h)
    ensures Valid(CloseBrace, RawString(h, text[a..e - 1 - h]))
  {
    var body := text[a..e - 1 - h];
    RawTailIs(text, a, e, h);
    forall k | 0 <= k < |body|
      ensures !RawCloserAt(body + "\"" + Hashes(h), k, h)
    {
      assert !RawCloserAt(text, a + k, h);
      RawCloserInWindow(text, a, e, k, h);
    }
  }

  lemma RawTextIs(text: string, i: nat, h: nat, e: nat)
    requires i + 2 + h <= e - 1 - h && e <= |text|
    ensures RawOpener(text[i..], h) && RawCloserAt(text, e - 1 - h, h) <==>
            text[i..e] == Text(RawString(h, text[i + 2 + h..e - 1 - h]))
  {
    var s := Text(RawString(h, text[i + 2 + h..e - 1 - h]));
    assert |s| == e - i;
    if RawOpener(text[i..], h) && RawCloserAt(text, e - 1 - h, h) {
      forall k | 0 <= k < |s|
        ensures text[i..e][k] == s[k]
      {
        assert text[i..][k] == text[i + k];
      }
    }
    if text[i..e] == s {
      forall k | 0 <= k < |s|
        ensures text[i + k] == s[k] == text[i..][k]
      {
        assert text[i..e][k] == s[k];
      }
      assert forall j :: e - 1 - h <= j < e ==> text[j] == s[j - i];
    }
  }

  /** A complete token of the grammar standing in the text is what the scan skips. */
  lemma TokenIsSkipped(goal: Goal, text: string, i: nat, e: nat, t: Token)
    requires !t.Symbol? && Valid(goal, t)
    requires i < e <= |text| && text[i..e] == Text(t)
    ensures LexemeAt(goal, text, i) == Skipped(Some(e))
  {
    match t
    case LineComment(b) =>
      assert forall k :: i <= k < e ==> text[k] == Text(t)[k - i];
      LineEndIs(text, i + 2, e);
    case BlockComment(b) =>
      assert forall k :: i <= k < e ==> text[k] == Text(t)[k - i];
      forall k | i + 2 <= k < e - 2
        ensures !BlockCloserAt(text, k)
      {
        assert !BlockCloserAt(b + "*/", k - i - 2);
      }
      BlockEndIs(text, i + 2, e);
    case Quoted(q, b) =>
      assert forall k :: i <= k < e ==> text[k] == Text(t)[k - i];
      QuotedEndIs(text, i + 1, q, e);
      assert text[i + 1..e - 1] == b;
    case RawString(h, b) =>
      RawTokenIsSkipped(text, i, e, h, b);
  }

  lemma RawTokenIsSkipped(text: string, i: nat, e: nat, h: nat, b: string)
    requires Valid(CloseBrace, RawString(h, b))
    requires i < e <= |text| && text[i..e] == Text(RawString(h, b))
    ensures LexemeAt(CloseBrace, text, i) == Skipped(Some(e))
  {
    RawParts(text, i, e, h, b);
    RawTextIs(text, i, h, e);
    RawHashesIs(text, i, h);
    RawBodyEnds(text, i + 2 + h, e, h, b);
    assert text[i] != '/';
  }

  lemma RawBodyEnds(text: string, a: nat, e: nat, h: nat, b: string)
    requires a + h < e <= |text| && Valid(CloseBrace, RawString(h, b)) && RawCloserAt(text, e - 1 - h, h)
    requires text[a..e] == b + "\"" + Hashes(h)
    ensures RawEnd(text, a, h) == Some(e)
  {
    forall k | a <= k < e - 1 - h
      ensures !RawCloserAt(text, k, h)
    {
      assert !RawCloserAt(b + "\"" + Hashes(h), k - a, h);
      RawCloserInWindow(text, a, e, k - a, h);
    }
    RawEndIs(text, a, h, e);
  }

  lemma RawParts(text: string, i: nat, e: nat, h: nat, b: string)
    requires i < e <= |text| && text[i..e] == Text(RawString(h, b))
    ensures i + 2 + h <= e - 1 - h && text[i] == 'r'
    ensures text[i + 2 + h..e] == b + "\"" + Hashes(h)
    ensures text[i + 2 + h..e - 1 - h] == b
  {
    var s := Text(RawString(h, b));
    assert text[i] == text[i..e][0];
    assert s == ("r" + Hashes(h) + "\"") + (b + "\"" + Hashes(h));
    assert text[i + 2 + h..e] == text[i..e][2 + h..] == b + "\"" + Hashes(h);
    assert text[i + 2 + h..e - 1 - h] == text[i + 2 + h..e][..|b|];
  }

  // ----- The whole scan ------------------------------------------------------------------

  lemma FlatFirst(ts: seq<Token>, text: string, i: nat, e: nat, k: nat)
    requires ts != [] && i <= e <= k <= |text| && Text(ts[0]) == text[i..e] && Flat(ts[1..]) == text[e..k]
    ensures Flat(ts) == text[i..k]
  {
    Joins(text, i, e, k);
  }

  lemma Joins(text: string, i: nat, e: nat, k: nat)
    requires i <= e <= k <= |text|
    ensures text[i..k] == text[i..e] + text[e..k]
  {
  }

  lemma LexesFirst(goal: Goal, ts: seq<Token>, text: string)
    requires ts != [] && Valid(goal, ts[0]) && Lexes(goal, ts[1..]) && Flat(ts) == text
    requires ts[0].Symbol? ==> text != "" && LexemeAt(goal, text, 0).Plain?
    ensures Lexes(goal, ts)
  {
    if ts[0].Symbol? {
      assert text[0..] == text;
      PlainIs(goal, text, 0);
    }
  }

  lemma StaysPlain(goal: Goal, text: string, i: nat, k: nat, window: string)
    requires i < k <= |text| && LexemeAt(goal, text, i).Plain? && window == text[i..k]
    ensures LexemeAt(goal, window, 0).Plain?
  {
    PlainIs(goal, text, i);
    OpenerNeedsPrefix(goal, window, text[i..]);
    assert window[0..] == window;
    PlainIs(goal, window, 0);
  }

  lemma SymbolFirst(goal: Goal, seen: string, text: string, i: nat, k: nat, ts: seq<Token>)
    requires i < k < |text| && LexemeAt(goal, text, i).Plain? && !Hit(goal, seen, text[i])
    requires |ts| > 1 && ts[0] == Symbol(text[i])
    requires Flat(ts[1..]) == text[i + 1..k + 1] && Lexes(goal, ts[1..]) && Accepts(goal, seen + [text[i]], ts[1..])
    ensures Flat(ts) == text[i..k + 1] && Lexes(goal, ts) && Accepts(goal, seen, ts)
  {
    var window := text[i..k + 1];
    FlatFirst(ts, text, i, i + 1, k + 1);
    StaysPlain(goal, text, i, k + 1, window);
    LexesFirst(goal, ts, window);
  }

  lemma SymbolAlone(goal: Goal, seen: string, text: string, i: nat)
    requires i < |text| && LexemeAt(goal, text, i).Plain? && Hit(goal, seen, text[i])
    ensures var ts := [Symbol(text[i])];
            Flat(ts) == text[i..i + 1] && Lexes(goal, ts) && Accepts(goal, seen, ts)
  {
    var ts, window := [Symbol(text[i])], text[i..i + 1];
    FlatFirst(ts, text, i, i + 1, i + 1);
    StaysPlain(goal, text, i, i + 1, window);
    LexesFirst(goal, ts, window);
  }

  lemma TokenFirst(goal: Goal, seen: string, text: string, i: nat, e: nat, k: nat, ts: seq<Token>)
    requires i < e <= k < |text| && ts != [] && Text(ts[0]) == text[i..e] && Flat(ts[1..]) == text[e..k + 1]
    requires !ts[0].Symbol? && Valid(goal, ts[0]) && Lexes(goal, ts[1..]) && Accepts(goal, seen, ts[1..])
    ensures Flat(ts) == text[i..k + 1] && Lexes(goal, ts) && Accepts(goal, seen, ts)
  {
    FlatFirst(ts, text, i, e, k + 1);
    LexesFirst(goal, ts, text[i..k + 1]);
  }

  /** Soundness: what the scan has passed over is a lexing whose first hit ends it. */
  lemma {:induction false} ScanSound(goal: Goal, text: string, i: nat, k: nat, seen: string) returns (ts: seq<Token>)
    requires Scan(goal, text, i, seen) == Some(k)
    ensures Flat(ts) == text[i..k + 1] && Lexes(goal, ts) && Accepts(goal, seen, ts)
    decreases |text| - i
  {
    var lexeme := LexemeAt(goal, text, i);
    if lexeme.Skipped? {
      var e := lexeme.end.value;
      var t := SkippedIsToken(goal, text, i, e);
      var rest := ScanSound(goal, text, e, k, seen);
      ts := [t] + rest;
      assert ts[1..] == rest;
      TokenFirst(goal, seen, text, i, e, k, ts);
    } else if Hit(goal, seen, text[i]) {
      SymbolAlone(goal, seen, text, i);
      ts := [Symbol(text[i])];
    } else {
      var rest := ScanSound(goal, text, i + 1, k, seen + [text[i]]);
      ts := [Symbol(text[i])] + rest;
      assert ts[1..] == rest;
      SymbolFirst(goal, seen, text, i, k, ts);
    }
  }

  /** Openers are prefixes: an opener of `s` opens every extension of `s`. */
  lemma OpenerNeedsPrefix(goal: Goal, s: string, longer: string)
    requires s <= longer
    ensures OpensLiteral(goal, s) ==> OpensLiteral(goal, longer)
  {
    if h: nat :| RawOpener(s, h) {
      assert RawOpener(longer, h);
    }
  }

  /** No opener runs across the end of a text whose last character is not `/`, `r` or `#`. */
  predicate SeamSafe(s: string) {
    s != "" && s[|s| - 1] != '/' && s[|s| - 1] != 'r' && s[|s| - 1] != '#'
  }

  lemma OpenerStaysInside(goal: Goal, s: string, longer: string)
    requires SeamSafe(s) && s <= longer
    ensures OpensLiteral(goal, longer) ==> OpensLiteral(goal, s)
  {
    assert longer[|s| - 1] == s[|s| - 1];
    if goal.CloseBrace? && exists h: nat :: RawOpener(longer, h) {
      var h: nat :| RawOpener(longer, h);
      assert RawOpener(s, h);
    }
  }

  lemma {:induction false} AcceptedEnd(goal: Goal, seen: string, ts: seq<Token>)
    requires Accepts(goal, seen, ts)
    ensures SeamSafe(Flat(ts))
    decreases |ts|
  {
    if |ts| == 1 {
      assert Flat(ts) == Text(ts[0]) + Flat([]);
    } else if ts[0].Symbol? {
      AcceptedEnd(goal, seen + [ts[0].c], ts[1..]);
    } else {
      AcceptedEnd(goal, seen, ts[1..]);
    }
  }

  lemma SplitWindow(text: string, i: nat, e: nat, k: nat, a: string, b: string)
    requires i <= k <= |text| && text[i..k] == a + b && e == i + |a|
    ensures e <= k && text[i..e] == a && text[e..k] == b
  {
    assert |text[i..k]| == |a| + |b|;
    assert text[i..e] == text[i..k][..|a|];
    assert text[e..k] == text[i..k][|a|..];
  }

  lemma ScanPasses(goal: Goal, text: string, i: nat, seen: string, e: nat)
    requires i < |text| && LexemeAt(goal, text, i) == Skipped(Some(e))
    ensures Scan(goal, text, i, seen) == Scan(goal, text, e, seen)
  {
  }

  lemma ScanReads(goal: Goal, text: string, i: nat, seen: string)
    requires i < |text| && LexemeAt(goal, text, i).Plain?
    ensures Scan(goal, text, i, seen) ==
            if Hit(goal, seen, text[i]) then Some(i) else Scan(goal, text, i + 1, seen + [text[i]])
  {
  }

  /** Completeness: a lexing whose first hit ends it is what the scan passes over. */
  lemma {:induction false} ScanComplete(goal: Goal, text: string, i: nat, k: nat, seen: string, ts: seq<Token>)
    requires Lexes(goal, ts) && Accepts(goal, seen, ts)
    requires i <= k < |text| && text[i..k + 1] == Flat(ts)
    ensures Scan(goal, text, i, seen) == Some(k)
    decreases |ts|, 1
  {
    if ts[0].Symbol? {
      SymbolCompletes(goal, text, i, k, seen, ts);
    } else {
      TokenCompletes(goal, text, i, k, seen, ts);
    }
  }

  lemma {:induction false} SymbolCompletes(goal: Goal, text: string, i: nat, k: nat, seen: string, ts: seq<Token>)
    requires Lexes(goal, ts) && Accepts(goal, seen, ts) && ts[0].Symbol?
    requires i <= k < |text| && text[i..k + 1] == Flat(ts)
    ensures Scan(goal, text, i, seen) == Some(k)
    decreases |ts|, 0
  {
    var e := FirstWindow(text, i, k, ts);
    SymbolIsPlain(goal, text, i, k, seen, ts);
    if |ts| > 1 {
      RestFollows(goal, text, e, k, seen + [ts[0].c], ts[1..]);
      ScanComplete(goal, text, e, k, seen + [ts[0].c], ts[1..]);
    } else {
      EndsHere(text, e, k, ts[1..]);
    }
    SymbolStep(goal, text, i, e, k, seen, ts[0].c);
  }

  lemma {:induction false} TokenCompletes(goal: Goal, text: string, i: nat, k: nat, seen: string, ts: seq<Token>)
    requires Lexes(goal, ts) && Accepts(goal, seen, ts) && !ts[0].Symbol?
    requires i <= k < |text| && text[i..k + 1] == Flat(ts)
    ensures Scan(goal, text, i, seen) == Some(k)
    decreases |ts|, 0
  {
    var e := FirstWindow(text, i, k, ts);
    RestFollows(goal, text, e, k, seen, ts[1..]);
    ScanComplete(goal, text, e, k, seen, ts[1..]);
    TokenPasses(goal, text, i, e, seen, ts[0]);
  }

  lemma TokenPasses(goal: Goal, text: string, i: nat, e: nat, seen: string, t: Token)
    requires !t.Symbol? && Valid(goal, t) && i < e <= |text| && text[i..e] == Text(t)
    ensures Scan(goal, text, i, seen) == Scan(goal, text, e, seen)
  {
    TokenIsSkipped(goal, text, i, e, t);
    ScanPasses(goal, text, i, seen, e);
  }

  /** The window of a lexing begins with that of its first token. */
  lemma FirstWindow(text: string, i: nat, k: nat, ts: seq<Token>) returns (e: nat)
    requires ts != [] && i <= k < |text| && text[i..k + 1] == Flat(ts)
    ensures i < e <= k + 1 && text[i..e] == Text(ts[0]) && text[e..k + 1] == Flat(ts[1..])
    ensures ts[0].Symbol? ==> e == i + 1
  {
    var first, rest := Text(ts[0]), Flat(ts[1..]);
    e := i + |first|;
    SplitWindow(text, i, e, k + 1, first, rest);
  }

  lemma EndsHere(text: string, e: nat, k: nat, rest: seq<Token>)
    requires e <= k + 1 <= |text| && text[e..k + 1] == Flat(rest) && rest == []
    ensures e == k + 1
  {
  }

  lemma RestFollows(goal: Goal, text: string, e: nat, k: nat, seen: string, rest: seq<Token>)
    requires e <= k + 1 <= |text| && text[e..k + 1] == Flat(rest) && Accepts(goal, seen, rest)
    ensures e <= k
  {
    assert Flat(rest) == Text(rest[0]) + Flat(rest[1..]);
  }

  lemma SymbolStep(goal: Goal, text: string, i: nat, e: nat, k: nat, seen: string, c: char)
    requires i < |text| && e == i + 1 && LexemeAt(goal, text, i).Plain? && text[i] == c
    requires if e == k + 1 && Hit(goal, seen, c) then true else !Hit(goal, seen, c) && Scan(goal, text, e, seen + [c]) == Some(k)
    ensures Scan(goal, text, i, seen) == Some(k)
  {
    ScanReads(goal, text, i, seen);
  }

  lemma SymbolIsPlain(goal: Goal, text: string, i: nat, k: nat, seen: string, ts: seq<Token>)
    requires Lexes(goal, ts) && Accepts(goal, seen, ts) && ts[0].Symbol?
    requires i <= k < |text| && text[i..k + 1] == Flat(ts)
    ensures text[i] == ts[0].c
    ensures LexemeAt(goal, text, i).Plain?
  {
    assert text[i] == text[i..k + 1][0];
    AcceptedEnd(goal, seen, ts);
    assert text[i..][..k + 1 - i] == text[i..k + 1];
    OpenerStaysInside(goal, Flat(ts), text[i..]);
    PlainIs(goal, text, i);
  }
}
