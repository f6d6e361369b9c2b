/** The two character-by-character scanners, proved to compute `Scan`. */
module Scanners {
  import opened Wrappers
  import opened RustLexer
  import opened ScanTheorems

  /** The scanner's `state`; the source keeps the hash count of a raw string beside it. */
  datatype Mode = Code | InLineComment | InBlockComment | InQuoted(quote: char) | InRaw(hashes: nat)

  ghost function After(goal: Goal, text: string, end: Option<nat>, seen: string): Option<nat> {
    if end.None? then None else Scan(goal, text, end.value, seen)
  }

  /** The answer that is still to come from position `i` in a given mode. */
  ghost function Resume(goal: Goal, text: string, i: nat, mode: Mode, seen: string): Option<nat> {
    match mode
    case Code => Scan(goal, text, i, seen)
    case InLineComment => After(goal, text, LineEnd(text, i), seen)
    case InBlockComment => After(goal, text, BlockEnd(text, i), seen)
    case InQuoted(q) => After(goal, text, QuotedEnd(text, i, q), seen)
    case InRaw(h) => After(goal, text, RawEnd(text, i, h), seen)
  }

  /** One step inside a comment or literal, the same in both scanners. */
  method SkipStep(goal: Goal, text: string, i: nat, mode: Mode, ghost seen: string)
    returns (i': nat, mode': Mode)
    requires i < |text| && mode != Code
    ensures i < i'
    ensures mode'.Code? || mode' == mode
    ensures Resume(goal, text, i', mode', seen) == Resume(goal, text, i, mode, seen)
  {
    var ch := text[i];
    var next := if i + 1 < |text| then text[i + 1] else '\0';
    i', mode' := i + 1, mode;
    match mode {
      case InLineComment =>
        if ch == '\n' {
          mode' := Code;
        }
      case InBlockComment =>
        if ch == '*' && next == '/' {
          i', mode' := i + 2, Code;
        }
      case InQuoted(q) =>
        if ch == '\\' {
          i' := i + 2;
        } else if ch == q {
          mode' := Code;
        }
      case InRaw(h) =>
        if ch == '"' && Hashes(h) <= text[i + 1..] {
          i', mode' := i + 1 + h, Code;
        }
    }
  }

  /** The comment, string, char or raw-string opener at `i`, in the order the source tests them. */
  method OpenStep(goal: Goal, text: string, i: nat, ghost seen: string) returns (i': nat, mode: Mode)
    requires i < |text|
    ensures mode.Code? <==> LexemeAt(goal, text, i).Plain?
    ensures mode.Code? ==> i' == i
    ensures !mode.Code? ==> i < i' && Resume(goal, text, i', mode, seen) == Scan(goal, text, i, seen)
  {
    var ch := text[i];
    var next := if i + 1 < |text| then text[i + 1] else '\0';
    if ch == '/' && next == '/' {
      i', mode := i + 2, InLineComment;
    } else if ch == '/' && next == '*' {
      i', mode := i + 2, InBlockComment;
    } else if ch == '"' || ch == '\'' {
      i', mode := i + 1, InQuoted(ch);
    } else if goal.CloseBrace? && ch == 'r' && RawHashes(text, i).Some? {
      var h := RawHashes(text, i).value;
      i', mode := i + 2 + h, InRaw(h);
    } else {
      i', mode := i, Code;
    }
  }

  lemma NothingGrammatical(goal: Goal, text: string, start: nat)
    requires Scan(goal, text, start, "").None?
    ensures forall e :: start < e <= |text| ==> !Grammatical(goal, text[start..e])
  {
    forall e | start < e <= |text|
      ensures !Grammatical(goal, text[start..e])
    {
      ScanIsGrammatical(goal, text, start, e - 1);
    }
  }

  /** The scan stops at the character it is looking for. */
  lemma {:induction false} ScanStopsAt(goal: Goal, text: string, i: nat, k: nat, seen: string)
    requires Scan(goal, text, i, seen) == Some(k)
    ensures i <= k < |text| && if goal.CloseBrace? then text[k] == '}' else text[k] == '{' || text[k] == ';'
    decreases |text| - i
  {
    match LexemeAt(goal, text, i)
    case Plain =>
      if !Hit(goal, seen, text[i]) {
        ScanStopsAt(goal, text, i + 1, k, seen + [text[i]]);
      }
    case Skipped(end) =>
      ScanStopsAt(goal, text, end.value, k, seen);
  }

  /** The loop of `find_matching_brace`. */
  method ScanForBrace(text: string, openIndex: nat) returns (r: Option<nat>)
    ensures r == Scan(CloseBrace, text, openIndex, "")
  {
    var depth, i, mode := 0, openIndex, Code;
    ghost var seen := "";
    while i < |text|
      invariant depth == Excess(seen, '{', '}')
      invariant Resume(CloseBrace, text, i, mode, seen) == Scan(CloseBrace, text, openIndex, "")
      decreases |text| - i
    {
      if mode != Code {
        i, mode := SkipStep(CloseBrace, text, i, mode, seen);
        continue;
      }
      var j, entered := OpenStep(CloseBrace, text, i, seen);
      if entered != Code {
        i, mode := j, entered;
        continue;
      }
      var ch := text[i];
      ExcessStep(seen, ch, '{', '}');
      if ch == '{' {
        depth := depth + 1;
      } else if ch == '}' {
        depth := depth - 1;
        if depth == 0 {
          return Some(i);
        }
      }
      seen := seen + [ch];
      i := i + 1;
    }
    return None;
  }

  /** `find_matching_brace`; `None` stands for the ValueError. */
  method FindMatchingBrace(text: string, openIndex: nat) returns (r: Option<nat>)
    ensures r == Scan(CloseBrace, text, openIndex, "")
    ensures r.Some? ==> openIndex <= r.value < |text| && text[r.value] == '}' &&
                        Grammatical(CloseBrace, text[openIndex..r.value + 1])
    ensures r.None? ==> forall e :: openIndex < e <= |text| ==> !Grammatical(CloseBrace, text[openIndex..e])
    ensures BlockFound(text, openIndex, r)
  {
    r := ScanForBrace(text, openIndex);
    BlockOrNone(text, openIndex);
    if r.Some? {
      ScanStopsAt(CloseBrace, text, openIndex, r.value, "");
      ScanIsGrammatical(CloseBrace, text, openIndex, r.value);
    } else {
      NothingGrammatical(CloseBrace, text, openIndex);
    }
  }

  /** From an opening brace, the index found ends the brace's own block, or no block starts there. */
  ghost predicate BlockFound(text: string, open: nat, r: Option<nat>) {
    open < |text| && text[open] == '{' ==>
      match r
      case Some(k) => open <= k < |text| && IsBlock(text[open..k + 1])
      case None => forall e :: open < e <= |text| ==> !IsBlock(text[open..e])
  }

  lemma BlockOrNone(text: string, open: nat)
    ensures BlockFound(text, open, Scan(CloseBrace, text, open, ""))
  {
    if open < |text| && text[open] == '{' {
      forall e | open < e <= |text|
        ensures Scan(CloseBrace, text, open, "") == Some(e - 1) <==> IsBlock(text[open..e])
      {
        BlockScanned(text, open, e);
      }
    }
  }

  lemma NoSignature(text: string, start: nat)
    requires Scan(SignatureEnd, text, start, "").None?
    ensures forall e :: start < e <= |text| ==> !IsSignature(text[start..e])
  {
    forall e | start < e <= |text|
      ensures !IsSignature(text[start..e])
    {
      SignatureTo(text, start, e - 1, e);
    }
  }

  /** The loop of `find_signature_terminator`. */
  method ScanForTerminator(text: string, start: nat) returns (r: Option<nat>)
    ensures r == Scan(SignatureEnd, text, start, "")
  {
    var parenDepth, squareDepth, i, mode := 0, 0, start, Code;
    ghost var seen := "";
    while i < |text|
      invariant parenDepth == Excess(seen, '(', ')')
      invariant squareDepth == Excess(seen, '[', ']')
      invariant Resume(SignatureEnd, text, i, mode, seen) == Scan(SignatureEnd, text, start, "")
      decreases |text| - i
    {
      if mode != Code {
        i, mode := SkipStep(SignatureEnd, text, i, mode, seen);
        continue;
      }
      var j, entered := OpenStep(SignatureEnd, text, i, seen);
      if entered != Code {
        i, mode := j, entered;
        continue;
      }
      var ch := text[i];
      ExcessStep(seen, ch, '(', ')');
      ExcessStep(seen, ch, '[', ']');
      if ch == '(' {
        parenDepth := parenDepth + 1;
      } else if ch == ')' {
        parenDepth := parenDepth - 1;
      } else if ch == '[' {
        squareDepth := squareDepth + 1;
      } else if ch == ']' {
        squareDepth := squareDepth - 1;
      } else if parenDepth == 0 && squareDepth == 0 && (ch == '{' || ch == ';') {
        return Some(i);
      }
      seen := seen + [ch];
      i := i + 1;
    }
    return None;
  }

  /** `find_signature_terminator`: the terminating character and its index. */
  method FindSignatureTerminator(text: string, start: nat) returns (r: Option<(char, nat)>)
    ensures match Scan(SignatureEnd, text, start, "")
            case None => r == None
            case Some(k) => r == Some((text[k], k)) && (text[k] == '{' || text[k] == ';')
    ensures SignatureFound(text, start, r)
  {
    var k := ScanForTerminator(text, start);
    TerminatorFacts(text, start);
    if k.None? {
      return None;
    }
    return Some((text[k.value], k.value));
  }

  /** The character returned ends the signature that starts at `start`, or no signature starts there. */
  ghost predicate SignatureFound(text: string, start: nat, r: Option<(char, nat)>) {
    match r
    case Some((c, k)) => start <= k < |text| && text[k] == c && IsSignature(text[start..k + 1])
    case None => forall e :: start < e <= |text| ==> !IsSignature(text[start..e])
  }

  lemma TerminatorFacts(text: string, start: nat)
    ensures match Scan(SignatureEnd, text, start, "")
            case None => SignatureFound(text, start, None)
            case Some(k) => (text[k] == '{' || text[k] == ';') && SignatureFound(text, start, Some((text[k], k)))
  {
    match Scan(SignatureEnd, text, start, "")
    case None =>
      NoSignature(text, start);
    case Some(k) =>
      ScanStopsAt(SignatureEnd, text, start, k, "");
      SignatureEndIs(text, start, k);
  }
}
