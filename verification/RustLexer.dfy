/** Rust text as the two hand-written scanners of `scripts/benchmark_action.py` see it.

    `Scan` walks the text token by token.  The token grammar below (`Valid`, `Lexes`) is stated
    without reference to `Scan`; `ScanIsGrammatical` proves that the two agree on every text.
 */
module RustLexer {
  import opened Wrappers

  /** Which scanner is meant: the one that looks for the matching brace knows raw strings,
      the one that looks for the end of a signature does not. */
  datatype Goal = CloseBrace | SignatureEnd

  // ----- The token grammar ---------------------------------------------------------------

  datatype Token =
    | Symbol(c: char)
    | LineComment(body: string)
    | BlockComment(body: string)
    | Quoted(quote: char, body: string)
    | RawString(hashes: nat, body: string)

  function Hashes(n: nat): string {
    seq(n, _ => '#')
  }

  function Text(t: Token): (s: string)
    ensures |s| > 0
  {
    match t
    case Symbol(c) => [c]
    case LineComment(b) => "//" + b + "\n"
    case BlockComment(b) => "/*" + b + "*/"
    case Quoted(q, b) => [q] + b + [q]
    case RawString(h, b) => "r" + Hashes(h) + "\"" + b + "\"" + Hashes(h)
  }

  function Flat(ts: seq<Token>): string {
    if ts == [] then "" else Text(ts[0]) + Flat(ts[1..])
  }

  /** The characters that stand in code position. */
  function Symbols(ts: seq<Token>): string {
    if ts == [] then "" else (if ts[0].Symbol? then [ts[0].c] else "") + Symbols(ts[1..])
  }

  /** A quoted body: every backslash takes the next character with it, no bare closing quote. */
  ghost predicate Escaped(b: string, q: char) {
    b == "" ||
    if b[0] == '\\' then |b| >= 2 && Escaped(b[2..], q)
    else b[0] != q && Escaped(b[1..], q)
  }

  ghost predicate RawCloserAt(s: string, k: int, h: nat) {
    0 <= k && k + h < |s| && s[k] == '"' && forall j :: k < j <= k + h ==> s[j] == '#'
  }

  ghost predicate BlockCloserAt(s: string, k: int) {
    0 <= k && k + 2 <= |s| && s[k] == '*' && s[k + 1] == '/'
  }

  /** The token is complete and contains its own terminator nowhere but at its end. */
  ghost predicate Valid(goal: Goal, t: Token) {
    match t
    case Symbol(_) => true
    case LineComment(b) => '\n' !in b
    case BlockComment(b) => forall k :: 0 <= k < |b| ==> !BlockCloserAt(b + "*/", k)
    case Quoted(q, b) => (q == '"' || q == '\'') && Escaped(b, q)
    case RawString(h, b) =>
      goal.CloseBrace? && forall k :: 0 <= k < |b| ==> !RawCloserAt(b + "\"" + Hashes(h), k, h)
  }

  /** `s` begins with the opening delimiter of a raw string with `h` hashes. */
  ghost predicate RawOpener(s: string, h: nat) {
    h + 1 < |s| && s[0] == 'r' && s[h + 1] == '"' && forall j :: 1 <= j <= h ==> s[j] == '#'
  }

  /** `s` begins with the opening delimiter of a comment or a literal. */
  ghost predicate OpensLiteral(goal: Goal, s: string) {
    "//" <= s || "/*" <= s || "\"" <= s || "'" <= s ||
    (goal.CloseBrace? && exists h: nat :: RawOpener(s, h))
  }

  /** A token sequence that is a lexing of its own text: all tokens are complete and a
      symbol never stands where a comment or literal opens. */
  ghost predicate Lexes(goal: Goal, ts: seq<Token>) {
    ts == [] ||
    (Valid(goal, ts[0]) && (ts[0].Symbol? ==> !OpensLiteral(goal, Flat(ts))) && Lexes(goal, ts[1..]))
  }

  // ----- What the scanners look for ------------------------------------------------------

  /** How many more times `open` occurs in `s` than `close`. */
  function Excess(s: string, open: char, close: char): int {
    if s == "" then 0
    else
      var last := s[|s| - 1];
      Excess(s[..|s| - 1], open, close) + (if last == open then 1 else if last == close then -1 else 0)
  }

  /** The scanner stops at code character `c` after the code characters `seen`. */
  predicate Hit(goal: Goal, seen: string, c: char) {
    match goal
    case CloseBrace => c == '}' && Excess(seen + [c], '{', '}') == 0
    case SignatureEnd =>
      (c == '{' || c == ';') && Excess(seen, '(', ')') == 0 && Excess(seen, '[', ']') == 0
  }

  /** The last token is a symbol that hits, and no symbol before it does. */
  ghost predicate Accepts(goal: Goal, seen: string, ts: seq<Token>)
    decreases |ts|
  {
    ts != [] &&
    if !ts[0].Symbol? then Accepts(goal, seen, ts[1..])
    else if |ts| == 1 then Hit(goal, seen, ts[0].c)
    else !Hit(goal, seen, ts[0].c) && Accepts(goal, seen + [ts[0].c], ts[1..])
  }

  // ----- The scan ------------------------------------------------------------------------

  function LineEnd(text: string, i: nat): (e: Option<nat>)
    ensures e.Some? ==> i < e.value <= |text|
    decreases |text| - i
  {
    if i >= |text| then None
    else if text[i] == '\n' then Some(i + 1)
    else LineEnd(text, i + 1)
  }

  function BlockEnd(text: string, i: nat): (e: Option<nat>)
    ensures e.Some? ==> i < e.value <= |text|
    decreases |text| - i
  {
    if i + 1 >= |text| then None
    else if text[i] == '*' && text[i + 1] == '/' then Some(i + 2)
    else BlockEnd(text, i + 1)
  }

  function QuotedEnd(text: string, i: nat, q: char): (e: Option<nat>)
    ensures e.Some? ==> i < e.value <= |text|
    decreases |text| - i
  {
    if i >= |text| then None
    else if text[i] == '\\' then QuotedEnd(text, i + 2, q)
    else if text[i] == q then Some(i + 1)
    else QuotedEnd(text, i + 1, q)
  }

  function RawEnd(text: string, i: nat, h: nat): (e: Option<nat>)
    ensures e.Some? ==> i < e.value <= |text|
    decreases |text| - i
  {
    if i >= |text| then None
    else if text[i] == '"' && Hashes(h) <= text[i + 1..] then Some(i + 1 + h)
    else RawEnd(text, i + 1, h)
  }

  function HashRun(text: string, i: nat): (h: nat)
    requires i <= |text|
    ensures i + h <= |text|
    ensures forall k :: i <= k < i + h ==> text[k] == '#'
    ensures i + h < |text| ==> text[i + h] != '#'
    decreases |text| - i
  {
    if i < |text| && text[i] == '#' then 1 + HashRun(text, i + 1) else 0
  }

  /** The hash count of the raw-string opener at `i`, if one stands there. */
  function RawHashes(text: string, i: nat): (h: Option<nat>)
    requires i < |text|
  {
    var h := HashRun(text, i + 1);
    if text[i] == 'r' && i + 1 + h < |text| && text[i + 1 + h] == '"' then Some(h) else None
  }

  /** What stands at a code position: a plain symbol, or a comment or literal with its end. */
  datatype Lexeme = Plain | Skipped(end: Option<nat>)

  function LexemeAt(goal: Goal, text: string, i: nat): (l: Lexeme)
    requires i < |text|
    ensures l.Skipped? && l.end.Some? ==> i < l.end.value <= |text|
  {
    var next := if i + 1 < |text| then text[i + 1] else '\0';
    if text[i] == '/' && next == '/' then Skipped(LineEnd(text, i + 2))
    else if text[i] == '/' && next == '*' then Skipped(BlockEnd(text, i + 2))
    else if text[i] == '"' || text[i] == '\'' then Skipped(QuotedEnd(text, i + 1, text[i]))
    else if goal.CloseBrace? && RawHashes(text, i).Some? then
      var h := RawHashes(text, i).value;
      Skipped(RawEnd(text, i + 2 + h, h))
    else Plain
  }

  /** The index of the first hit at or after code position `i`, if there is one. */
  function Scan(goal: Goal, text: string, i: nat, seen: string): (k: Option<nat>)
    ensures k.Some? ==> i <= k.value < |text|
    decreases |text| - i
  {
    if i >= |text| then None else
    match LexemeAt(goal, text, i)
    case Plain =>
      if Hit(goal, seen, text[i]) then Some(i) else Scan(goal, text, i + 1, seen + [text[i]])
    case Skipped(end) =>
      if end.None? then None else Scan(goal, text, end.value, seen)
  }
}
