/** What the scanners pass over, each kind of comment and literal written out. */
module Literals {
  import opened RustLexer
  import opened ScanGrammar

  /** A comment up to the end of its line. */
  lemma LineCommentIsSkipped(goal: Goal, text: string, i: nat, e: nat, body: string, seen: string)
    requires i < e <= |text| && text[i..e] == "//" + body + "\n" && '\n' !in body
    ensures Scan(goal, text, i, seen) == Scan(goal, text, e, seen)
  {
    TokenIsSkipped(goal, text, i, e, LineComment(body));
  }

  /** A comment up to its first closing mark; it does not nest. */
  lemma BlockCommentIsSkipped(goal: Goal, text: string, i: nat, e: nat, body: string, seen: string)
    requires i < e <= |text| && text[i..e] == "/*" + body + "*/"
    requires forall k :: 0 <= k < |body| - 1 ==> !(body[k] == '*' && body[k + 1] == '/')
    ensures Scan(goal, text, i, seen) == Scan(goal, text, e, seen)
  {
    var all := body + "*/";
    forall k | 0 <= k < |body|
      ensures !BlockCloserAt(all, k)
    {
      assert all[k] == body[k] && (k + 1 < |body| ==> all[k + 1] == body[k + 1]);
      assert k + 1 == |body| ==> all[k + 1] == '*';
    }
    TokenIsSkipped(goal, text, i, e, BlockComment(body));
  }

  /** A character of a literal: neither its quote nor a backslash, or a backslash with the
      character behind it, whatever that is. */
  ghost predicate IsUnit(u: string, quote: char) {
    (|u| == 1 && u[0] != quote && u[0] != '\\') || (|u| == 2 && u[0] == '\\')
  }

  function Joined(units: seq<string>): string {
    if units == [] then "" else units[0] + Joined(units[1..])
  }

  lemma {:induction false} UnitsAreEscaped(units: seq<string>, quote: char)
    requires quote != '\\' && forall u :: u in units ==> IsUnit(u, quote)
    ensures Escaped(Joined(units), quote)
  {
    if units != [] {
      assert units[0] in units;
      UnitsAreEscaped(units[1..], quote);
      var b, n := Joined(units), |units[0]|;
      assert b[0] == units[0][0] && b[n..] == Joined(units[1..]);
    }
  }

  /** A string or a character literal up to its first quote that is not escaped. */
  lemma QuotedIsSkipped(goal: Goal, text: string, i: nat, e: nat, quote: char, units: seq<string>, seen: string)
    requires quote == '"' || quote == '\''
    requires forall u :: u in units ==> IsUnit(u, quote)
    requires i < e <= |text| && text[i..e] == [quote] + Joined(units) + [quote]
    ensures Scan(goal, text, i, seen) == Scan(goal, text, e, seen)
  {
    UnitsAreEscaped(units, quote);
    TokenIsSkipped(goal, text, i, e, Quoted(quote, Joined(units)));
  }

  /** For the brace scanner, a raw string with any number of hashes up to its first quote with as
      many behind it. */
  lemma RawStringIsSkipped(text: string, i: nat, e: nat, hashes: string, body: string, seen: string)
    requires forall k :: 0 <= k < |hashes| ==> hashes[k] == '#'
    requires i < e <= |text| && text[i..e] == "r" + hashes + "\"" + body + "\"" + hashes
    requires forall k :: 0 <= k < |body| && body[k] == '"' ==> !(hashes <= (body + "\"" + hashes)[k + 1..])
    ensures Scan(CloseBrace, text, i, seen) == Scan(CloseBrace, text, e, seen)
  {
    var h, all := |hashes|, body + "\"" + hashes;
    assert hashes == Hashes(h);
    forall k | 0 <= k < |body|
      ensures !RawCloserAt(all, k, h)
    {
      assert all[k] == body[k];
      CloserStarts(all, k, hashes);
    }
    TokenIsSkipped(CloseBrace, text, i, e, RawString(h, body));
  }

  lemma CloserStarts(s: string, k: nat, hashes: string)
    requires k < |s| && forall j :: 0 <= j < |hashes| ==> hashes[j] == '#'
    ensures RawCloserAt(s, k, |hashes|) ==> s[k] == '"' && hashes <= s[k + 1..]
  {
    if RawCloserAt(s, k, |hashes|) {
      assert s[k + 1..][..|hashes|] == hashes;
    }
  }
}
