/** `parse_selectors`: explicit names, normalised; and its round trip through a comma list. */
module Selectors {
  import opened Wrappers
  import opened Ordering
  import opened Spans

  predicate IsSeparator(c: char) {
    c == ',' || IsSpace(c)
  }

  predicate IsNameStart(c: char) {
    'A' <= c <= 'Z' || 'a' <= c <= 'z' || c == '_'
  }

  predicate IsNameChar(c: char, allowHyphens: bool) {
    IsNameStart(c) || '0' <= c <= '9' || (allowHyphens && c == '-')
  }

  /** A full match of the name pattern. */
  predicate IsName(s: string, allowHyphens: bool) {
    s != "" && IsNameStart(s[0]) && forall i :: 0 <= i < |s| ==> IsNameChar(s[i], allowHyphens)
  }

  // ----- Splitting -----------------------------------------------------------------------

  /** Where the run of non-separators that starts at `i` ends. */
  function TokenEnd(s: string, i: nat): (e: nat)
    requires i <= |s|
    ensures i <= e <= |s|
    ensures forall k :: i <= k < e ==> !IsSeparator(s[k])
    ensures e < |s| ==> IsSeparator(s[e])
    decreases |s| - i
  {
    if i == |s| || IsSeparator(s[i]) then i else TokenEnd(s, i + 1)
  }

  /** The non-empty fields of `re.split(r"[,\s]+", s)`. */
  function Fields(s: string): seq<string>
    decreases |s|
  {
    if s == "" then []
    else if IsSeparator(s[0]) then Fields(s[1..])
    else
      var e := TokenEnd(s, 0);
      [s[..e]] + Fields(s[e..])
  }

  ghost predicate IsToken(t: string) {
    t != "" && forall i :: 0 <= i < |t| ==> !IsSeparator(t[i])
  }

  lemma {:induction false} FieldsAreTokens(s: string)
    ensures forall t :: t in Fields(s) ==> IsToken(t)
    decreases |s|
  {
    if s != "" {
      if IsSeparator(s[0]) {
        FieldsAreTokens(s[1..]);
      } else {
        FieldsAreTokens(s[TokenEnd(s, 0)..]);
      }
    }
  }

  function Join(names: seq<string>): string {
    if names == [] then ""
    else if |names| == 1 then names[0]
    else names[0] + "," + Join(names[1..])
  }

  /** Splitting undoes joining. */
  lemma {:induction false} FieldsOfJoin(names: seq<string>)
    requires forall i :: 0 <= i < |names| ==> IsToken(names[i])
    ensures Fields(Join(names)) == names
  {
    if |names| == 1 {
      var s := names[0];
      assert s[..TokenEnd(s, 0)] == s;
      assert Fields(s) == [s] + Fields(s[|s|..]);
    } else if |names| > 1 {
      var s := Join(names);
      var n := |names[0]|;
      assert s[0] == names[0][0];
      assert forall k :: 0 <= k < n ==> s[k] == names[0][k];
      assert s[n] == ',';
      assert TokenEnd(s, 0) == n by { TokenEndIs(s, 0, n); }
      assert s[..n] == names[0];
      assert s[n..][1..] == Join(names[1..]);
      FieldsOfJoin(names[1..]);
      assert names == [names[0]] + names[1..];
    }
  }

  lemma {:induction false} TokenEndIs(s: string, i: nat, n: nat)
    requires i <= n <= |s| && (forall k :: i <= k < n ==> !IsSeparator(s[k])) && (n < |s| ==> IsSeparator(s[n]))
    ensures TokenEnd(s, i) == n
    decreases n - i
  {
    if i < n {
      TokenEndIs(s, i + 1, n);
    }
  }

  /** A field ends at the first comma or white space. */
  lemma FieldsFirst(t: string, c: char, rest: string)
    requires IsToken(t) && IsSeparator(c)
    ensures Fields(t + [c] + rest) == [t] + Fields(rest)
  {
    var s, n := t + [c] + rest, |t|;
    TokenEndIs(s, 0, n);
    assert s[..n] == t && s[n..] == [c] + rest && s[n..][1..] == rest;
  }

  lemma SeparatorFirst(c: char, rest: string)
    requires IsSeparator(c)
    ensures Fields([c] + rest) == Fields(rest)
  {
    assert ([c] + rest)[1..] == rest;
  }

  /** Commas, blanks, tabs and line ends all separate, alone or in a row. */
  lemma AnySeparator(t: string, c: char, d: char, rest: string)
    requires IsToken(t) && c in {',', ' ', '\t', '\n', '\r'} && d in {',', ' ', '\t', '\n', '\r'}
    ensures Fields(t + [c] + ([d] + rest)) == [t] + Fields(rest) && Fields([c] + rest) == Fields(rest)
  {
    FieldsFirst(t, c, [d] + rest);
    SeparatorFirst(d, rest);
    SeparatorFirst(c, rest);
  }

  lemma {:induction false} FieldsSnoc(s: string, c: char)
    requires IsSeparator(c)
    ensures Fields(s + [c]) == Fields(s)
    decreases |s|
  {
    if s == "" {
      SeparatorFirst(c, "");
      assert s + [c] == [c] + "";
    } else if IsSeparator(s[0]) {
      FieldsSnoc(s[1..], c);
      assert s + [c] == [s[0]] + (s[1..] + [c]);
      SeparatorFirst(s[0], s[1..] + [c]);
    } else {
      var e := TokenEnd(s, 0);
      TokenEndIs(s + [c], 0, e);
      assert (s + [c])[..e] == s[..e] && (s + [c])[e..] == s[e..] + [c];
      FieldsSnoc(s[e..], c);
    }
  }

  /** Stripping does not change the fields. */
  lemma {:induction false} FieldsOfStrip(s: string)
    ensures Fields(Strip(s)) == Fields(s)
    decreases |s|
  {
    if s != "" {
      if IsSpace(s[0]) {
        FieldsOfStrip(s[1..]);
      } else if IsSpace(s[|s| - 1]) {
        FieldsOfStrip(s[..|s| - 1]);
        FieldsSnoc(s[..|s| - 1], s[|s| - 1]);
        assert s == s[..|s| - 1] + [s[|s| - 1]];
      }
    }
  }

  // ----- Parsing -------------------------------------------------------------------------

  datatype SelectionError = InvalidNames

  const STAR := ["*"]

  function ParseSelectors(value: string, allowHyphens: bool): Result<seq<string>, SelectionError> {
    var stripped := Strip(value);
    if stripped == "" then Success(STAR)
    else
      var names := Fields(stripped);
      if names == STAR then Success(names)
      else if names == [] || exists i :: 0 <= i < |names| && !IsName(names[i], allowHyphens) then Failure(InvalidNames)
      else Success(SortedUnique(names))
  }

  /** A parsed selection: everything, or an ascending list of valid names. */
  ghost predicate Normalised(names: seq<string>, allowHyphens: bool) {
    names == STAR ||
    (names != [] && Ascending(names) && forall i :: 0 <= i < |names| ==> IsName(names[i], allowHyphens))
  }

  lemma ParsedIsNormalised(value: string, allowHyphens: bool)
    ensures var r := ParseSelectors(value, allowHyphens);
            r.Success? ==> Normalised(r.value, allowHyphens) &&
                           (Strip(value) != "" ==> forall n :: n in r.value <==> n in Fields(Strip(value)))
  {
    var r := ParseSelectors(value, allowHyphens);
    var names := Fields(Strip(value));
    if Strip(value) != "" && names != STAR && r.Success? {
      assert names[0] in r.value;
      forall i | 0 <= i < |r.value|
        ensures IsName(r.value[i], allowHyphens)
      {
        assert r.value[i] in names;
      }
    }
  }

  ghost predicate Blank(value: string) {
    forall i :: 0 <= i < |value| ==> IsSpace(value[i])
  }

  /** A blank value, as an unset variable is, or a lone `*` selects everything; anything else must
      have a field, all of them names, and gives exactly those, ascending. */
  lemma ParseIs(value: string, allowHyphens: bool)
    ensures var r, fields := ParseSelectors(value, allowHyphens), Fields(value);
            if Blank(value) || fields == ["*"] then r == Success(["*"])
            else if fields == [] || exists n :: n in fields && !IsName(n, allowHyphens) then r.Failure?
            else r.Success? && Ascending(r.value) && forall n :: n in r.value <==> n in fields
  {
    var a, b := StripBounds(value);
    FieldsOfStrip(value);
    var names := Fields(Strip(value));
    assert forall i :: 0 <= i < |names| ==> names[i] in names;
  }

  /** Hyphens are the only difference between the two kinds of names. */
  lemma HyphensOnly(s: string)
    ensures IsName(s, false) <==> IsName(s, true) && '-' !in s
  {
  }

  lemma NamesAreTokens(name: string, allowHyphens: bool)
    requires IsName(name, allowHyphens)
    ensures IsToken(name) && name != "*"
  {
  }

  lemma {:induction false} JoinEnds(names: seq<string>, allowHyphens: bool)
    requires names != [] && forall i :: 0 <= i < |names| ==> IsName(names[i], allowHyphens)
    ensures var s := Join(names); s != "" && !IsSpace(s[0]) && !IsSpace(s[|s| - 1])
  {
    NamesAreTokens(names[0], allowHyphens);
    if |names| > 1 {
      JoinEnds(names[1..], allowHyphens);
    }
  }

  /** Round trip: parsing the comma list of a normalised selection gives it back. */
  lemma RoundTrip(names: seq<string>, allowHyphens: bool)
    requires Normalised(names, allowHyphens)
    ensures ParseSelectors(Join(names), allowHyphens) == Success(names)
  {
    if names == STAR {
      assert Fields("*") == ["*"] by {
        assert "*"[..TokenEnd("*", 0)] == "*";
        assert "*"[1..] == "";
      }
    } else {
      forall i | 0 <= i < |names|
        ensures IsToken(names[i]) && names[i] != "*"
      {
        NamesAreTokens(names[i], allowHyphens);
      }
      FieldsOfJoin(names);
      JoinEnds(names, allowHyphens);
      AscendingIsUnique(SortedUnique(names), names);
    }
  }

  /** So parsing twice is parsing once. */
  lemma ParseIsIdempotent(value: string, allowHyphens: bool)
    ensures var r := ParseSelectors(value, allowHyphens);
            r.Success? ==> ParseSelectors(Join(r.value), allowHyphens) == r
  {
    var r := ParseSelectors(value, allowHyphens);
    if r.Success? {
      ParsedIsNormalised(value, allowHyphens);
      RoundTrip(r.value, allowHyphens);
    }
  }
}
