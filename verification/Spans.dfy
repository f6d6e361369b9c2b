/** `include_leading_docs`: the blank, doc and attribute lines that belong to the function below. */
module Spans {
  // ----- Lines ---------------------------------------------------------------------------

  /** The characters that `str.strip` removes. */
  predicate IsSpace(c: char) {
    '\t' <= c <= '\r' || '\U{1c}' <= c <= ' ' || c == '\U{85}' || c == '\U{a0}' || c == '\U{1680}' ||
    '\U{2000}' <= c <= '\U{200a}' || c == '\U{2028}' || c == '\U{2029}' || c == '\U{202f}' ||
    c == '\U{205f}' || c == '\U{3000}'
  }

  function Strip(s: string): string {
    if s == "" then ""
    else if IsSpace(s[0]) then Strip(s[1..])
    else if IsSpace(s[|s| - 1]) then Strip(s[..|s| - 1])
    else s
  }

  /** A line that belongs to the function below it: blank, doc comment or attribute. */
  predicate Attached(line: string) {
    var stripped := Strip(line);
    stripped == "" || "///" <= stripped || "#[" <= stripped
  }

  // ----- Which lines belong to the function below ------------------------------------------

  /** By its characters: nothing but white space, or white space and then `///` or `#[`. */
  ghost predicate DocLine(line: string) {
    (forall i :: 0 <= i < |line| ==> IsSpace(line[i])) || exists k :: OpensDoc(line, k)
  }

  /** The first character that is not white space is at `k` and begins `///` or `#[`. */
  ghost predicate OpensDoc(line: string, k: int) {
    0 <= k < |line| && (forall i :: 0 <= i < k ==> IsSpace(line[i])) &&
    ((k + 2 < |line| && line[k] == line[k + 1] == line[k + 2] == '/') ||
     (k + 1 < |line| && line[k] == '#' && line[k + 1] == '['))
  }

  /** Stripping cuts off exactly the white space at both ends. */
  lemma {:induction false} StripBounds(s: string) returns (a: nat, b: nat)
    ensures a <= b <= |s| && Strip(s) == s[a..b]
    ensures forall i :: 0 <= i < a || b <= i < |s| ==> IsSpace(s[i])
    ensures a < b ==> !IsSpace(s[a]) && !IsSpace(s[b - 1])
    ensures a == b ==> forall i :: 0 <= i < |s| ==> IsSpace(s[i])
  {
    a, b := 0, |s|;
    if s != "" {
      if IsSpace(s[0]) {
        a, b := StripBounds(s[1..]);
        RestSlice(s, a, b);
        a, b := a + 1, b + 1;
      } else if IsSpace(s[|s| - 1]) {
        a, b := StripBounds(s[..|s| - 1]);
        assert s[..|s| - 1][a..b] == s[a..b];
      }
    }
  }

  lemma RestSlice(s: string, a: nat, b: nat)
    requires s != "" && a <= b <= |s| - 1
    ensures s[1..][a..b] == s[a + 1..b + 1]
    ensures forall i :: 0 < i < |s| ==> s[i] == s[1..][i - 1]
  {
  }

  /** A line belongs to the function below exactly when its characters say so. */
  lemma AttachedIff(line: string)
    ensures Attached(line) <==> DocLine(line)
  {
    var a, b := StripBounds(line);
    var stripped := line[a..b];
    if a < b {
      assert forall i :: 0 <= i < |stripped| ==> stripped[i] == line[a + i];
      DocPrefix(stripped);
      if Attached(line) {
        assert OpensDoc(line, a);
      }
      if DocLine(line) {
        var k :| OpensDoc(line, k);
        assert k == a;
        assert forall i :: b <= i < |line| ==> IsSpace(line[i]);
      }
    }
  }

  /** Under any indentation of blanks and tabs: doc comments, attributes and blank lines belong to the
      function below; plain comments and code do not. */
  lemma IndentedLines(indent: string, rest: string, c: char)
    requires forall i :: 0 <= i < |indent| ==> indent[i] == ' ' || indent[i] == '\t'
    ensures Attached(indent + "///" + rest) && Attached(indent + "#[" + rest) && Attached(indent + "\n")
    ensures c != '/' ==> !Attached(indent + "//" + [c] + rest)
    ensures 'a' <= c <= 'z' ==> !Attached(indent + [c] + rest)
  {
    var n := |indent|;
    AttachedIff(indent + "///" + rest);
    assert OpensDoc(indent + "///" + rest, n);
    AttachedIff(indent + "#[" + rest);
    assert OpensDoc(indent + "#[" + rest, n);
    AttachedIff(indent + "\n");
    if c != '/' {
      NotAttached(indent + "//" + [c] + rest, n);
    }
    if 'a' <= c <= 'z' {
      NotAttached(indent + [c] + rest, n);
    }
  }

  lemma NotAttached(line: string, n: nat)
    requires n < |line| && !IsSpace(line[n]) && !OpensDoc(line, n) && forall i :: 0 <= i < n ==> IsSpace(line[i])
    ensures !Attached(line)
  {
    AttachedIff(line);
  }

  lemma DocPrefix(s: string)
    ensures "///" <= s <==> 2 < |s| && s[0] == s[1] == s[2] == '/'
    ensures "#[" <= s <==> 1 < |s| && s[0] == '#' && s[1] == '['
  {
    assert |s| > 2 && s[0] == s[1] == s[2] == '/' ==> s[..3] == "///";
    assert |s| > 1 && s[0] == '#' && s[1] == '[' ==> s[..2] == "#[";
  }

  /** `text.rfind("\n", lo, hi)`. */
  function RFindNewline(text: string, lo: nat, hi: nat): (r: int)
    requires hi <= |text|
    ensures r == -1 || (lo <= r < hi && text[r] == '\n')
    ensures forall k :: lo <= k < hi && k > r ==> text[k] != '\n'
  {
    if hi <= lo then -1
    else if text[hi - 1] == '\n' then hi - 1
    else RFindNewline(text, lo, hi - 1)
  }

  function LineStart(text: string, i: nat): nat
    requires i <= |text|
  {
    RFindNewline(text, 0, i) + 1
  }

  /** The start of the line that ends at `s`, cut off at the lower bound. */
  function PrevLine(text: string, lower: nat, s: nat): (p: nat)
    requires lower < s <= |text|
    ensures lower <= p < s
  {
    var newline := RFindNewline(text, lower, s - 1);
    if newline == -1 then lower else newline + 1
  }

  // ----- Leading documentation -----------------------------------------------------------

  function LeadingStart(text: string, lower: nat, s: nat): (r: nat)
    requires s <= |text|
    ensures r <= s
    decreases s
  {
    if s <= lower then s
    else
      var p := PrevLine(text, lower, s);
      if Attached(text[p..s]) then LeadingStart(text, lower, p) else s
  }

  /** `include_leading_docs`. */
  method IncludeLeadingDocs(text: string, lowerBound: nat, fnStart: nat) returns (itemStart: nat)
    requires fnStart <= |text|
    ensures itemStart == LeadingStart(text, lowerBound, LineStart(text, fnStart))
    ensures LineStart(text, fnStart) >= lowerBound ==>
              LeadingRun(text, lowerBound, itemStart, LineStart(text, fnStart))
  {
    var s := LineStart(text, fnStart);
    itemStart := s;
    while itemStart > lowerBound
      invariant itemStart <= s
      invariant LeadingStart(text, lowerBound, itemStart) == LeadingStart(text, lowerBound, s)
    {
      var prevStart := PrevLine(text, lowerBound, itemStart);
      if Attached(text[prevStart..itemStart]) {
        itemStart := prevStart;
        continue;
      }
      break;
    }
    if s >= lowerBound {
      LeadingRunIs(text, lowerBound, itemStart, s);
    }
  }

  /** A place where a line ends and the next begins. */
  ghost predicate Boundary(text: string, lower: nat, q: nat) {
    q == lower || (0 < q <= |text| && text[q - 1] == '\n')
  }

  ghost predicate LineAttached(text: string, lower: nat, q: nat)
    requires lower < q <= |text|
  {
    DocLine(text[PrevLine(text, lower, q)..q])
  }

  /** `[r, s)` is the maximal run of attached lines that ends at `s`. */
  ghost predicate LeadingRun(text: string, lower: nat, r: nat, s: nat)
    requires lower <= s <= |text|
  {
    lower <= r <= s &&
    (r == s || Boundary(text, lower, r)) &&
    (forall q :: r < q <= s && (q == s || Boundary(text, lower, q)) ==> LineAttached(text, lower, q)) &&
    (r > lower ==> !LineAttached(text, lower, r))
  }

  /** The start found is the start of the maximal run, and of no other. */
  lemma {:induction false} LeadingRunIs(text: string, lower: nat, r: nat, s: nat)
    requires lower <= s <= |text|
    ensures LeadingStart(text, lower, s) == r <==> LeadingRun(text, lower, r, s)
    decreases s
  {
    if s > lower {
      var p := PrevLine(text, lower, s);
      assert Boundary(text, lower, p);
      assert forall q :: p < q < s ==> !Boundary(text, lower, q);
      AttachedIff(text[p..s]);
      if Attached(text[p..s]) {
        LeadingRunIs(text, lower, r, p);
        assert LineAttached(text, lower, s);
      } else {
        assert !LineAttached(text, lower, s);
      }
    }
  }
}
