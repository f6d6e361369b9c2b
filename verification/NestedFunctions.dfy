/** A section with one function inside another, read and patched step by step. */
module NestedFunctions {
  import opened Wrappers
  import opened RustLexer
  import opened ScanTheorems
  import opened Seams
  import opened Spans
  import opened Sections
  import opened Merge
  import opened PatchText
  import opened SectionSearch
  import opened Reassembly
  import opened PatchTheorems

  /** A function that begins inside the one before it makes the patched file longer than the file it
      was given, even with no targets; the count is zero all the same. */
  lemma NestedIsRewritten(text: string, section: RustSection, headers: seq<Header>, starts: seq<nat>, ends: seq<nat>, gen: seq<Item>, i: nat)
    requires InText(section, text) && HeadersInBody(text, section.bodyStart, section.bodyEnd, headers)
    requires Parsed(text, section.bodyStart, section.bodyEnd, headers, section.items) && Ends(text, headers, starts, ends)
    requires 0 < i < |starts| && starts[i] < ends[i - 1]
    ensures |PatchedText(text, section, gen, {})| > |text| && PatchedCount(text, section, gen, {}) == 0
  {
    ParsedIsSliced(text, section, headers);
    TilesIff(text, section.bodyStart, section.bodyEnd, headers, section.items, starts, ends);
    NoTargetsNoChange(text, section, gen);
    NoTargetsLonger(text, section, gen);
  }

  // ----- One such text -------------------------------------------------------------------

  /** The text `{`, `fn a(){`, `fn b(){}`, `}`, `}`, one to a line. */
  ghost predicate IsNested(text: string) {
    |text| == 22 && text[..2] == "{\n" && text[2..9] == "fn a(){" && text[8..20] == "{\nfn b(){}\n}" &&
    text[10..17] == "fn b(){" && text[16..18] == "{}" && text[18..20] == "\n}" && text[20..] == "\n}"
  }

  lemma NestedText()
    ensures IsNested("{\nfn a(){\nfn b(){}\n}\n}")
  {
    var text := "{\nfn a(){\nfn b(){}\n}\n}";
    assert text[..2] == "{\n" && text[2..9] == "fn a(){" && text[8..20] == "{\nfn b(){}\n}";
    assert text[10..17] == "fn b(){" && text[16..18] == "{}" && text[18..20] == "\n}" && text[20..] == "\n}";
  }

  /** A character that opens no comment and no literal. */
  predicate PlainChar(c: char) {
    c != '/' && c != '"' && c != '\'' && c != 'r'
  }

  /** Over plain characters the scan stops at the first hit. */
  lemma {:induction false} PlainScan(goal: Goal, text: string, i: nat, k: nat, seen: string)
    requires i <= k < |text| && forall j :: i <= j <= k ==> PlainChar(text[j])
    requires forall j :: i <= j < k ==> !Hit(goal, seen + text[i..j], text[j])
    requires Hit(goal, seen + text[i..k], text[k])
    ensures Scan(goal, text, i, seen) == Some(k)
    decreases k - i
  {
    assert seen + text[i..i] == seen;
    if i < k {
      forall j | i < j <= k
        ensures seen + [text[i]] + text[i + 1..j] == seen + text[i..j]
      {
        assert [text[i]] + text[i + 1..j] == text[i..j];
      }
      PlainScan(goal, text, i + 1, k, seen + [text[i]]);
    }
  }

  lemma {:induction false} NoExcess(s: string, open: char, close: char)
    requires open !in s && close !in s
    ensures Excess(s, open, close) == 0
  {
    if s != "" {
      assert s[|s| - 1] in s;
      NoExcess(s[..|s| - 1], open, close);
    }
  }

  /** A window of plain characters that ends at its only hit, wherever it stands. */
  lemma WindowScan(goal: Goal, text: string, s: nat, window: string, k: nat)
    requires s + |window| <= |text| && text[s..s + |window|] == window && |window| == k + 1
    requires forall j :: 0 <= j <= k ==> PlainChar(window[j])
    requires forall j :: 0 <= j < k ==> !Hit(goal, window[..j], window[j])
    requires Hit(goal, window[..k], window[k])
    ensures Scan(goal, text, s, "") == Some(s + k)
  {
    forall j | 0 <= j <= k
      ensures "" + window[0..j] == window[..j]
    {
    }
    PlainScan(goal, window, 0, k, "");
    assert window[0..k + 1] == window;
    ScanIsLocal(goal, window, 0, k, text, s, s + k);
  }

  /** The header `fn c()` ends at the brace behind it. */
  lemma HeaderEnds(text: string, s: nat, c: char)
    requires 'a' <= c <= 'b' && s + 7 <= |text| && text[s..s + 7] == ['f', 'n', ' ', c, '(', ')', '{']
    ensures Scan(SignatureEnd, text, s, "") == Some(s + 6)
  {
    var header, window := ['f', 'n', ' ', c], ['f', 'n', ' ', c, '(', ')', '{'];
    assert window[..6] == header + ['('] + [')'];
    NoExcess(header, '(', ')');
    ExcessStep(header, '(', '(', ')');
    ExcessStep(header + ['('], ')', '(', ')');
    NoExcess(header + ['('] + [')'], '[', ']');
    WindowScan(SignatureEnd, text, s, window, 6);
  }

  lemma BraceDepths()
    ensures Excess("{}", '{', '}') == 0
    ensures Excess("{\nfn b(){}", '{', '}') == 1 && Excess("{\nfn b(){}\n}", '{', '}') == 0
  {
    assert Excess("", '{', '}') == 0;
    ExcessStep("", '{', '{', '}');
    assert "" + ['{'] == "{";
    ExcessStep("{", '}', '{', '}');
    assert "{" + ['}'] == "{}";
    NoExcess("\nfn b()", '{', '}');
    NoExcess("\n", '{', '}');
    ExcessConcat("{", "\nfn b()");
    ExcessConcat("{" + "\nfn b()", "{}");
    assert "{" + "\nfn b()" + "{}" == "{\nfn b(){}";
    ExcessConcat("{\nfn b(){}", "\n");
    ExcessStep("{\nfn b(){}" + "\n", '}', '{', '}');
    assert "{\nfn b(){}" + "\n" + ['}'] == "{\nfn b(){}\n}";
  }

  lemma InnerBlock(text: string)
    requires IsNested(text)
    ensures Scan(CloseBrace, text, 16, "") == Some(17)
  {
    BraceDepths();
    var window := "{}";
    assert window[..1] + ['}'] == "{}";
    WindowScan(CloseBrace, text, 16, window, 1);
  }

  lemma OuterBlock(text: string)
    requires IsNested(text)
    ensures Scan(CloseBrace, text, 8, "") == Some(19)
  {
    BraceDepths();
    var window := "{\nfn b(){}\n}";
    assert window[..9] + ['}'] == "{\nfn b(){}" && window[..11] + ['}'] == window;
    WindowScan(CloseBrace, text, 8, window, 11);
  }

  lemma FunctionsEnd(text: string)
    requires IsNested(text)
    ensures CodeEnd(text, 2) == Some(20) && CodeEnd(text, 10) == Some(18)
  {
    InnerBlock(text);
    OuterBlock(text);
    HeaderEnds(text, 2, 'a');
    HeaderEnds(text, 10, 'b');
    assert text[2..9][6] == '{' && text[10..17][6] == '{';
  }

  lemma LinesOf(text: string)
    requires IsNested(text)
    ensures text[0] == '{' && text[1] == '\n' && text[9] == '\n' && text[18] == '\n' && text[20] == '\n' && text[21] == '}'
    ensures forall k :: 2 <= k < 9 ==> text[k] != '\n'
    ensures text[1..2] == "\n" && text[2..10] == "fn a(){" + "\n"
  {
    assert text[..2][0] == '{' && text[..2][1] == '\n' && text[8..20][1] == '\n' && text[18..20][0] == '\n';
    assert text[20..][0] == '\n' && text[20..][1] == '}';
    forall k | 2 <= k < 9
      ensures text[k] != '\n'
    {
      assert text[k] == text[2..9][k - 2];
    }
    assert text[2..10] == text[2..9] + [text[9]];
  }

  lemma LeadsOf(text: string)
    requires IsNested(text)
    ensures LeadingStart(text, 1, 2) == 1 && LeadingStart(text, 1, 10) == 10
  {
    LinesOf(text);
    assert PrevLine(text, 1, 2) == 1 && PrevLine(text, 1, 10) == 2;
    assert Strip("\n") == "" && Strip("fn a(){" + "\n") == "fn a(){" by {
      assert "\n"[1..] == "" && ("fn a(){" + "\n")[..7] == "fn a(){";
    }
  }

  lemma CharsOf(text: string)
    requires IsNested(text)
    ensures forall k :: 0 <= k < 22 ==> PlainChar(text[k])
    ensures forall k :: 0 <= k < 22 && text[k] == '}' ==> k == 17 || k == 19 || k == 21
    ensures text[17] == text[19] == text[21] == '}' && '}' !in text[1..8] && '{' !in text[1..8]
  {
    forall k | 0 <= k < 22
      ensures PlainChar(text[k]) && (text[k] == '}' ==> k == 17 || k == 19 || k == 21) && (0 < k < 8 ==> text[k] != '{')
    {
      if k < 2 {
        assert text[k] == text[..2][k];
      } else if k < 9 {
        assert text[k] == text[2..9][k - 2];
      } else if k < 20 {
        assert text[k] == text[8..20][k - 8];
      } else {
        assert text[k] == text[20..][k - 20];
      }
    }
    assert text[8..20][9] == '}' && text[8..20][11] == '}' && text[20..][1] == '}';
  }

  lemma DepthsOf(text: string)
    requires IsNested(text)
    ensures Excess(text[..17] + ['}'], '{', '}') == 2 && Excess(text[..19] + ['}'], '{', '}') == 1
    ensures Excess(text[..21] + ['}'], '{', '}') == 0
  {
    CharsOf(text);
    LinesOf(text);
    BraceDepths();
    assert text[..8] == "{" + text[1..8];
    assert Excess("", '{', '}') == 0;
    ExcessStep("", '{', '{', '}');
    assert "" + ['{'] == "{";
    NoExcess(text[1..8], '{', '}');
    ExcessConcat("{", text[1..8]);
    assert text[8..18] == "{\nfn b(){}" by {
      assert text[8..18] == text[8..20][..10];
    }
    ExcessConcat(text[..8], text[8..18]);
    ExcessConcat(text[..8], text[8..20]);
    assert text[..17] + ['}'] == text[..8] + text[8..18];
    assert text[..19] + ['}'] == text[..8] + text[8..20];
    ExcessStep(text[..20], '\n', '{', '}');
    ExcessStep(text[..21], '}', '{', '}');
    assert text[..20] == text[..19] + ['}'] && text[..21] == text[..20] + ['\n'];
  }

  function NestedSection(text: string): RustSection
    requires |text| == 22
  {
    RustSection(1, 21, [RustItem("a", 1, 21, text[1..21]), RustItem("b", 10, 19, text[10..19])])
  }

  /** The whole text is one section with its braces. */
  lemma SectionEnds(text: string)
    requires IsNested(text)
    ensures Delimits(text, Match(0, 1), NestedSection(text))
  {
    CharsOf(text);
    LinesOf(text);
    DepthsOf(text);
    assert text[0..22] == text;
    forall j | 0 <= j < 21
      ensures !Hit(CloseBrace, text[..j], text[j])
    {
      if text[j] == '}' {
        assert text[..j] + ['}'] == text[..17] + ['}'] || text[..j] + ['}'] == text[..19] + ['}'];
      }
    }
    WindowScan(CloseBrace, text, 0, text, 21);
  }

  lemma ItemsOf(text: string)
    requires IsNested(text)
    ensures ItemAt(text, 1, 21, Header("a", 2)) == Some(RustItem("a", 1, 21, text[1..21]))
    ensures ItemAt(text, 1, 21, Header("b", 10)) == Some(RustItem("b", 10, 19, text[10..19]))
  {
    LinesOf(text);
    FunctionsEnd(text);
    LeadsOf(text);
    LineStartBefore(text, 2);
    LineStartBefore(text, 10);
  }

  /** `parse_items` finds both functions, the second inside the first. */
  lemma NestedIsParsed(text: string, headers: seq<Header>)
    requires IsNested(text) && headers == [Header("a", 2), Header("b", 10)]
    ensures HeadersInBody(text, 1, 21, headers) && Parsed(text, 1, 21, headers, NestedSection(text).items)
  {
    LinesOf(text);
    ItemsOf(text);
  }

  /** With no targets its second half comes out twice, and the count is zero. */
  lemma NestedIsRepeated(text: string, gen: seq<Item>)
    requires IsNested(text)
    ensures PatchedText(text, NestedSection(text), gen, {}) == text[..21] + text[10..]
    ensures PatchedText(text, NestedSection(text), gen, {}) != text && PatchedCount(text, NestedSection(text), gen, {}) == 0
  {
    var section := NestedSection(text);
    OverlapRepeats(text, section, gen, section.items[0], section.items[1]);
  }
}
