/** The mail composer's plain-text fallback: breaks, tags and entities go, then
    white space is tidied; and the chunked reading behind the attachment
    checksum. */
module PlainText {
  predicate IsBlank(c: char) {
    c == ' ' || c == '\t'
  }

  /** What `trim` removes. */
  predicate IsSpace(c: char) {
    || '\t' <= c <= '\r' || c == ' ' || c == '\U{00A0}' || c == '\U{1680}'
    || '\U{2000}' <= c <= '\U{200A}' || c == '\U{2028}' || c == '\U{2029}'
    || c == '\U{202F}' || c == '\U{205F}' || c == '\U{3000}' || c == '\U{FEFF}'
  }

  /** Each run of blanks and tabs becomes one blank. */
  function CollapseBlanks(s: string): string {
    if s == "" then ""
    else if !IsBlank(s[0]) then [s[0]] + CollapseBlanks(s[1..])
    else if |s| > 1 && IsBlank(s[1]) then CollapseBlanks(s[1..])
    else " " + CollapseBlanks(s[1..])
  }

  function SplitLines(s: string): (lines: seq<string>)
    ensures lines != []
  {
    if s == "" then [""]
    else
      var rest := SplitLines(s[1..]);
      if s[0] == '\n' then [""] + rest else [[s[0]] + rest[0]] + rest[1..]
  }

  function JoinLines(lines: seq<string>): string
    requires lines != []
  {
    if |lines| == 1 then lines[0] else lines[0] + "\n" + JoinLines(lines[1..])
  }

  function TrimStart(s: string): (r: string)
    ensures exists i :: 0 <= i <= |s| && r == s[i..]
    ensures r != "" ==> !IsSpace(r[0])
  {
    if s != "" && IsSpace(s[0]) then
      var r := TrimStart(s[1..]);
      assert forall i :: 0 <= i <= |s[1..]| ==> s[1..][i..] == s[i + 1..];
      r
    else
      assert s == s[0..];
      s
  }

  function TrimEnd(s: string): (r: string)
    ensures r <= s
    ensures r != "" ==> !IsSpace(r[|r| - 1])
  {
    if s != "" && IsSpace(s[|s| - 1]) then TrimEnd(s[..|s| - 1]) else s
  }

  function Trim(s: string): string {
    TrimEnd(TrimStart(s))
  }

  function TrimAll(lines: seq<string>): (r: seq<string>)
    ensures |r| == |lines|
  {
    if lines == [] then [] else [Trim(lines[0])] + TrimAll(lines[1..])
  }

  /** Each run of three or more newlines becomes two. `seen` newlines of the
      current run have been passed on. */
  function CollapseNewlines(s: string, seen: nat): string {
    if s == "" then ""
    else if s[0] != '\n' then [s[0]] + CollapseNewlines(s[1..], 0)
    else if seen >= 2 then CollapseNewlines(s[1..], seen)
    else "\n" + CollapseNewlines(s[1..], seen + 1)
  }

  /** Everything after the tags and entities are gone. */
  function Tidy(s: string): string {
    Trim(CollapseNewlines(JoinLines(TrimAll(SplitLines(CollapseBlanks(s)))), 0))
  }

  // ----- what tidy text is -----

  predicate IsInlineSpace(c: char) {
    IsSpace(c) && c != '\n'
  }

  /** Two characters that may stand side by side in tidy text. */
  predicate Tolerates(a: char, b: char) {
    && !(IsBlank(a) && IsBlank(b))
    && !(IsInlineSpace(a) && b == '\n')
    && !(a == '\n' && IsInlineSpace(b))
  }

  /** Neighbours tolerate each other. */
  predicate Paired(s: string) {
    |s| < 2 || (Tolerates(s[0], s[1]) && Paired(s[1..]))
  }

  predicate NoTab(s: string) {
    '\t' !in s
  }

  predicate NoTripleNewline(s: string) {
    |s| < 3 || (!(s[0] == s[1] == s[2] == '\n') && NoTripleNewline(s[1..]))
  }

  /** The first and the last character are not white space. */
  predicate TrimmedText(s: string) {
    s != "" ==> !IsSpace(s[0]) && !IsSpace(s[|s| - 1])
  }

  /** The first and the last character are not white space on a line. */
  predicate TrimmedLine(s: string) {
    s != "" ==> !IsInlineSpace(s[0]) && !IsInlineSpace(s[|s| - 1])
  }

  predicate IsTidy(s: string) {
    Paired(s) && NoTab(s) && NoTripleNewline(s) && TrimmedText(s)
  }

  /** Tidiness position by position. */
  lemma {:induction false} TidyEverywhere(s: string, i: nat)
    requires Paired(s) && NoTripleNewline(s) && i + 1 < |s|
    ensures Tolerates(s[i], s[i + 1])
    ensures i + 2 < |s| ==> !(s[i] == s[i + 1] == s[i + 2] == '\n')
  {
    if i > 0 {
      TidyEverywhere(s[1..], i - 1);
    }
  }

  // ----- each stage establishes its part and keeps the earlier ones -----

  predicate NoBlankPair(s: string) {
    |s| < 2 || (!(IsBlank(s[0]) && IsBlank(s[1])) && NoBlankPair(s[1..]))
  }

  lemma {:induction false} BlanksCollapsed(s: string)
    ensures NoBlankPair(CollapseBlanks(s)) && NoTab(CollapseBlanks(s))
    ensures CollapseBlanks(s) != "" <==> s != ""
    ensures s != "" ==> (IsBlank(CollapseBlanks(s)[0]) <==> IsBlank(s[0]))
  {
    if s != "" {
      BlanksCollapsed(s[1..]);
      if !(IsBlank(s[0]) && |s| > 1 && IsBlank(s[1])) {
        assert CollapseBlanks(s)[1..] == CollapseBlanks(s[1..]);
      }
    }
  }

  predicate CleanLine(line: string) {
    '\n' !in line && NoBlankPair(line) && NoTab(line)
  }

  predicate CleanLines(lines: seq<string>) {
    lines == [] || (CleanLine(lines[0]) && CleanLines(lines[1..]))
  }

  lemma {:induction false} JoinedSplit(s: string)
    ensures JoinLines(SplitLines(s)) == s
  {
    if s != "" {
      JoinedSplit(s[1..]);
      var rest, lines := SplitLines(s[1..]), SplitLines(s);
      if s[0] == '\n' {
        assert lines[1..] == rest;
        assert s == "" + "\n" + s[1..];
      } else {
        assert lines[1..] == rest[1..];
        assert JoinLines(lines) == [s[0]] + JoinLines(rest);
      }
    }
  }

  lemma {:induction false} SplitIsClean(s: string)
    requires NoBlankPair(s) && NoTab(s)
    ensures CleanLines(SplitLines(s))
    ensures var head := SplitLines(s)[0]; head != "" ==> s != "" && head[0] == s[0]
  {
    if s != "" {
      SplitIsClean(s[1..]);
      var rest, lines := SplitLines(s[1..]), SplitLines(s);
      if s[0] == '\n' {
        assert lines[1..] == rest;
      } else {
        assert lines[1..] == rest[1..];
        assert lines[0][1..] == rest[0];
      }
    }
  }

  lemma {:induction false} DropLastKeeps(s: string)
    requires s != ""
    ensures Paired(s) ==> Paired(s[..|s| - 1])
    ensures NoBlankPair(s) ==> NoBlankPair(s[..|s| - 1])
    ensures NoTripleNewline(s) ==> NoTripleNewline(s[..|s| - 1])
  {
    if |s| > 1 {
      DropLastKeeps(s[1..]);
      assert s[..|s| - 1][1..] == s[1..][..|s| - 2];
    }
  }

  lemma {:induction false} TrimStartKeeps(s: string)
    ensures var r := TrimStart(s);
            && (Paired(s) ==> Paired(r))
            && (NoBlankPair(s) ==> NoBlankPair(r))
            && (NoTripleNewline(s) ==> NoTripleNewline(r))
            && (forall c :: c in r ==> c in s)
  {
    if s != "" && IsSpace(s[0]) {
      TrimStartKeeps(s[1..]);
    }
  }

  lemma {:induction false} TrimEndKeeps(s: string)
    ensures var r := TrimEnd(s);
            && (Paired(s) ==> Paired(r))
            && (NoBlankPair(s) ==> NoBlankPair(r))
            && (NoTripleNewline(s) ==> NoTripleNewline(r))
            && (forall c :: c in r ==> c in s)
  {
    if s != "" && IsSpace(s[|s| - 1]) {
      DropLastKeeps(s);
      TrimEndKeeps(s[..|s| - 1]);
    }
  }

  lemma TrimKeeps(s: string)
    ensures var r := Trim(s);
            && TrimmedText(r)
            && (Paired(s) ==> Paired(r))
            && (NoBlankPair(s) ==> NoBlankPair(r))
            && (NoTripleNewline(s) ==> NoTripleNewline(r))
            && (forall c :: c in r ==> c in s)
  {
    TrimStartKeeps(s);
    TrimEndKeeps(TrimStart(s));
    if Trim(s) != "" {
      assert Trim(s)[0] == TrimStart(s)[0];
    }
  }

  lemma {:induction false} LineIsPaired(line: string)
    requires CleanLine(line)
    ensures Paired(line)
  {
    if line != "" {
      assert line[0] in line;
      if |line| > 1 {
        assert line[1] in line;
      }
      LineIsPaired(line[1..]);
    }
  }

  lemma {:induction false} NewlineBetween(a: string, b: string)
    requires Paired(a) && Paired(b) && TrimmedLine(b)
    requires a != "" ==> !IsInlineSpace(a[|a| - 1])
    ensures Paired(a + "\n" + b)
  {
    var s := a + "\n" + b;
    if a == "" {
      assert s[1..] == b;
    } else {
      NewlineBetween(a[1..], b);
      assert s[1..] == a[1..] + "\n" + b;
    }
  }

  predicate GoodLines(s: string) {
    Paired(s) && NoTab(s) && TrimmedLine(s)
  }

  lemma TrimmedLineIsGood(line: string)
    requires CleanLine(line)
    ensures GoodLines(Trim(line))
  {
    TrimKeeps(line);
    LineIsPaired(Trim(line));
  }

  lemma GoodLinesJoin(a: string, b: string)
    requires GoodLines(a) && GoodLines(b)
    ensures GoodLines(a + "\n" + b)
  {
    NewlineBetween(a, b);
  }

  lemma {:induction false} TrimmedLinesArePaired(lines: seq<string>)
    requires lines != [] && CleanLines(lines)
    ensures GoodLines(JoinLines(TrimAll(lines)))
  {
    TrimmedLineIsGood(lines[0]);
    var head := Trim(lines[0]);
    if |lines| > 1 {
      TrimmedLinesArePaired(lines[1..]);
      assert TrimAll(lines)[1..] == TrimAll(lines[1..]);
      GoodLinesJoin(head, JoinLines(TrimAll(lines[1..])));
    } else {
      assert TrimAll(lines) == [head];
    }
  }

  lemma {:induction false} NewlinesCollapsed(s: string, seen: nat)
    requires Paired(s) && NoTab(s)
    ensures var r := CollapseNewlines(s, seen);
            && Paired(r) && NoTab(r) && NoTripleNewline(r)
            && (s != "" && (s[0] != '\n' || seen < 2) ==> r != "" && r[0] == s[0])
            && (s != "" && s[0] == '\n' && seen >= 2 && r != "" ==> !IsInlineSpace(r[0]))
            && (seen >= 2 && r != "" ==> r[0] != '\n')
            && (seen == 1 && |r| >= 2 ==> !(r[0] == r[1] == '\n'))
  {
    if s != "" {
      var seen' := if s[0] != '\n' then 0 else if seen >= 2 then seen else seen + 1;
      NewlinesCollapsed(s[1..], seen');
      if s[0] != '\n' || seen < 2 {
        assert CollapseNewlines(s, seen)[1..] == CollapseNewlines(s[1..], seen');
      }
    }
  }

  /** For every input: no three newlines in a row, no tab and no two blanks in a
      row, no white space at either end of the text or of any of its lines. */
  lemma TidyIsTidy(s: string)
    ensures IsTidy(Tidy(s))
  {
    var blanks := CollapseBlanks(s);
    BlanksCollapsed(s);
    SplitIsClean(blanks);
    var lines := SplitLines(blanks);
    TrimmedLinesArePaired(lines);
    var joined := JoinLines(TrimAll(lines));
    NewlinesCollapsed(joined, 0);
    TrimKeeps(CollapseNewlines(joined, 0));
  }

  // ----- tidy text is left alone -----

  lemma {:induction false} TidyBlanksStay(s: string)
    requires Paired(s) && NoTab(s)
    ensures CollapseBlanks(s) == s
  {
    if s != "" {
      TidyBlanksStay(s[1..]);
      assert s[0] in s;
      assert s == [s[0]] + s[1..];
    }
  }

  lemma TrimStays(s: string)
    requires TrimmedText(s)
    ensures Trim(s) == s
  {
  }

  /** The first line is trimmed at its end and starts where the text starts. */
  predicate FirstLineOf(line: string, s: string) {
    && (line != "" ==> !IsSpace(line[|line| - 1]))
    && (line != "" <==> s != "" && s[0] != '\n')
    && (line != "" ==> line[0] == s[0])
  }

  /** A paired text has trimmed lines, the first one too if the text starts
      with no white space. */
  lemma {:induction false} TidyLinesStay(s: string)
    requires Paired(s) && (s != "" ==> !IsInlineSpace(s[|s| - 1]))
    ensures TrimAll(SplitLines(s)[1..]) == SplitLines(s)[1..]
    ensures FirstLineOf(SplitLines(s)[0], s)
  {
    if s != "" {
      TidyLinesStay(s[1..]);
      var rest, lines := SplitLines(s[1..]), SplitLines(s);
      if s[0] == '\n' {
        assert lines[1..] == rest;
        TrimStays(rest[0]);
        HeadAndTail(rest);
      } else {
        assert lines[1..] == rest[1..];
        assert lines[0] == [s[0]] + rest[0];
      }
    }
  }

  lemma HeadAndTail(lines: seq<string>)
    requires lines != [] && Trim(lines[0]) == lines[0] && TrimAll(lines[1..]) == lines[1..]
    ensures TrimAll(lines) == lines
  {
    assert lines == [lines[0]] + lines[1..];
  }

  lemma {:induction false} TidyNewlinesStay(s: string, seen: nat)
    requires NoTripleNewline(s)
    requires seen == 1 && |s| >= 2 ==> !(s[0] == s[1] == '\n')
    requires seen >= 2 && s != "" ==> s[0] != '\n'
    ensures CollapseNewlines(s, seen) == s
  {
    if s != "" {
      TidyNewlinesStay(s[1..], if s[0] != '\n' then 0 else seen + 1);
      assert s == [s[0]] + s[1..];
    }
  }

  lemma TidyTextStays(s: string)
    requires IsTidy(s)
    ensures Tidy(s) == s
  {
    TidyBlanksStay(s);
    TidyLinesStay(s);
    JoinedSplit(s);
    var lines := SplitLines(s);
    TrimStays(lines[0]);
    HeadAndTail(lines);
    TidyNewlinesStay(s, 0);
    TrimStays(s);
  }

  lemma TidyIsIdempotent(s: string)
    ensures Tidy(Tidy(s)) == Tidy(s)
  {
    TidyIsTidy(s);
    TidyTextStays(Tidy(s));
  }

  // ----- what tidying keeps -----

  /** The characters that are not white space, in order. */
  function Visible(s: string): string {
    if s == "" then "" else (if IsSpace(s[0]) then "" else [s[0]]) + Visible(s[1..])
  }

  lemma VisibleStep(c: char, t: string)
    ensures Visible([c] + t) == (if IsSpace(c) then "" else [c]) + Visible(t)
  {
    hide IsSpace;
    assert ([c] + t)[1..] == t;
  }

  lemma VisibleOfNothing()
    ensures Visible("") == ""
  {
  }

  lemma {:induction false} VisibleAppends(a: string, b: string)
    ensures Visible(a + b) == Visible(a) + Visible(b)
  {
    hide Visible, IsSpace;
    if a == "" {
      assert a + b == b;
      VisibleOfNothing();
    } else {
      var t := a[1..];
      VisibleAppends(t, b);
      VisibleStep(a[0], t);
      VisibleStep(a[0], t + b);
      assert a == [a[0]] + t;
      assert a + b == [a[0]] + (t + b);
    }
  }

  lemma {:induction false} VisibleThroughBlanks(s: string)
    ensures Visible(CollapseBlanks(s)) == Visible(s)
  {
    if s != "" {
      VisibleThroughBlanks(s[1..]);
      if !(IsBlank(s[0]) && |s| > 1 && IsBlank(s[1])) {
        assert CollapseBlanks(s)[1..] == CollapseBlanks(s[1..]);
      }
    }
  }

  lemma {:induction false} VisibleThroughNewlines(s: string, seen: nat)
    ensures Visible(CollapseNewlines(s, seen)) == Visible(s)
  {
    if s != "" {
      var seen' := if s[0] != '\n' then 0 else if seen >= 2 then seen else seen + 1;
      VisibleThroughNewlines(s[1..], seen');
      if s[0] != '\n' || seen < 2 {
        assert CollapseNewlines(s, seen)[1..] == CollapseNewlines(s[1..], seen');
      }
    }
  }

  lemma {:induction false} VisibleThroughStart(s: string)
    ensures Visible(TrimStart(s)) == Visible(s)
  {
    if s != "" && IsSpace(s[0]) {
      VisibleThroughStart(s[1..]);
    }
  }

  lemma {:induction false} VisibleThroughEnd(s: string)
    ensures Visible(TrimEnd(s)) == Visible(s)
  {
    if s != "" && IsSpace(s[|s| - 1]) {
      var last := [s[|s| - 1]];
      VisibleThroughEnd(s[..|s| - 1]);
      VisibleAppends(s[..|s| - 1], last);
      assert s == s[..|s| - 1] + last;
      assert Visible(last) == "";
    }
  }

  lemma VisibleThroughTrim(s: string)
    ensures Visible(Trim(s)) == Visible(s)
  {
    VisibleThroughStart(s);
    VisibleThroughEnd(TrimStart(s));
  }

  lemma {:induction false} VisibleThroughLines(lines: seq<string>)
    requires lines != []
    ensures Visible(JoinLines(TrimAll(lines))) == Visible(JoinLines(lines))
  {
    hide Visible, Trim;
    VisibleThroughTrim(lines[0]);
    if |lines| > 1 {
      var rest := lines[1..];
      VisibleThroughLines(rest);
      assert TrimAll(lines)[1..] == TrimAll(rest);
      VisibleAppends(lines[0] + "\n", JoinLines(rest));
      VisibleAppends(lines[0], "\n");
      VisibleAppends(Trim(lines[0]) + "\n", JoinLines(TrimAll(rest)));
      VisibleAppends(Trim(lines[0]), "\n");
    }
  }

  /** Tidying loses no visible character and reorders none. */
  lemma TidyKeepsVisible(s: string)
    ensures Visible(Tidy(s)) == Visible(s)
  {
    var blanks := CollapseBlanks(s);
    var joined := JoinLines(TrimAll(SplitLines(blanks)));
    VisibleThroughBlanks(s);
    JoinedSplit(blanks);
    VisibleThroughLines(SplitLines(blanks));
    VisibleThroughNewlines(joined, 0);
    VisibleThroughTrim(CollapseNewlines(joined, 0));
  }

  // ----- breaks, tags and entities -----

  /** How many characters at the start of a text a pattern takes; 0 for none. */
  type Pattern = string -> nat

  function ReplaceAll(s: string, pattern: Pattern, with: string): string {
    if s == "" then ""
    else if 0 < pattern(s) <= |s| then with + ReplaceAll(s[pattern(s)..], pattern, with)
    else [s[0]] + ReplaceAll(s[1..], pattern, with)
  }

  function Lower(c: char): char {
    if 'A' <= c <= 'Z' then 'a' + (c - 'A') else c
  }

  /** Case-insensitively; `word` is in lower case. */
  predicate Starts(s: string, word: string) {
    |word| <= |s| && forall i :: 0 <= i < |word| ==> Lower(s[i]) == word[i]
  }

  function Word(word: string): Pattern {
    s => if Starts(s, word) then |word| else 0
  }

  function AnyWord(s: string, words: seq<string>): nat {
    if words == [] then 0 else if Starts(s, words[0]) then |words[0]| else AnyWord(s, words[1..])
  }

  const BLOCK_ENDS: seq<string> :=
    ["</p>", "</div>", "</tr>", "</h1>", "</h2>", "</h3>", "</h4>", "</h5>", "</h6>", "</li>"]

  function LineBreak(s: string): nat {
    if !Starts(s, "<br") then 0
    else
      var rest := TrimStart(s[3..]);
      var k := |s| - |rest|;
      if rest != "" && rest[0] == '>' then k + 1
      else if |rest| >= 2 && rest[..2] == "/>" then k + 2
      else 0
  }

  /** The first closing bracket, or the length if there is none. */
  function Close(s: string): (i: nat)
    ensures i <= |s| && '>' !in s[..i]
    ensures i < |s| ==> s[i] == '>'
  {
    if s == "" || s[0] == '>' then 0
    else
      assert s[..1 + Close(s[1..])] == [s[0]] + s[1..][..Close(s[1..])];
      1 + Close(s[1..])
  }

  /** An opening bracket, at least one character, the first closing bracket. */
  function Tag(s: string): nat {
    if s == "" || s[0] != '<' then 0
    else
      var i := Close(s[1..]);
      if 1 <= i < |s| - 1 then i + 2 else 0
  }

  function Untagged(html: string): string {
    ReplaceAll(ReplaceAll(ReplaceAll(html, LineBreak, "\n"), s => AnyWord(s, BLOCK_ENDS), "\n"), Tag, "")
  }

  function Decoded(s: string): string {
    var spaced := ReplaceAll(s, Word("&nbsp;"), " ");
    var amps := ReplaceAll(spaced, Word("&amp;"), "&");
    var brackets := ReplaceAll(ReplaceAll(amps, Word("&lt;"), "<"), Word("&gt;"), ">");
    ReplaceAll(brackets, Word("&quot;"), "\"")
  }

  function HtmlToPlainText(html: string): string {
    if Trim(html) == "" then "" else Tidy(Decoded(Untagged(html)))
  }

  /** No position starts a tag. */
  predicate NoTags(s: string) {
    s == "" || (Tag(s) == 0 && NoTags(s[1..]))
  }

  lemma {:induction false} DropAddsNothing(s: string, c: char)
    requires c !in s
    ensures c !in ReplaceAll(s, Tag, "")
    decreases |s|
  {
    hide Tag;
    if s != "" {
      if 0 < Tag(s) <= |s| {
        DropAddsNothing(s[Tag(s)..], c);
      } else {
        DropAddsNothing(s[1..], c);
      }
    }
  }

  lemma {:induction false} NoCloseNoTag(s: string)
    ensures '>' !in s ==> Close(s) == |s|
    ensures s != "" && s[0] == '>' ==> Close(s) == 0
  {
    if Close(s) < |s| {
      assert s[Close(s)] in s;
    }
  }

  /** Dropping tags leaves none, not even one put together from what was around
      a dropped one. */
  lemma {:induction false} NoTagIsLeft(s: string)
    ensures NoTags(ReplaceAll(s, Tag, ""))
    decreases |s|
  {
    if s != "" {
      if 0 < Tag(s) <= |s| {
        var rest := s[Tag(s)..];
        NoTagIsLeft(rest);
        assert "" + ReplaceAll(rest, Tag, "") == ReplaceAll(rest, Tag, "");
      } else {
        NoTagIsLeft(s[1..]);
        var rest := ReplaceAll(s[1..], Tag, "");
        assert ([s[0]] + rest)[1..] == rest;
        if s[0] == '<' {
          NoCloseNoTag(rest);
          if Close(s[1..]) == |s| - 1 {
            assert s[1..][..|s| - 1] == s[1..];
            DropAddsNothing(s[1..], '>');
          } else {
            assert s[1] == '>' && rest[0] == '>';
          }
        }
      }
    }
  }

  /** The text that goes into the entity step holds no tag. */
  lemma UntaggedHasNoTags(html: string)
    ensures NoTags(Untagged(html))
  {
    NoTagIsLeft(ReplaceAll(ReplaceAll(html, LineBreak, "\n"), s => AnyWord(s, BLOCK_ENDS), "\n"));
  }

  lemma {:induction false} CloseAt(inner: string, after: string)
    requires '>' !in inner
    ensures Close(inner + (">" + after)) == |inner|
  {
    if inner != "" {
      assert inner[0] in inner;
      CloseAt(inner[1..], after);
      assert (inner + (">" + after))[1..] == inner[1..] + (">" + after);
    } else {
      assert inner + (">" + after) == ">" + after;
    }
  }

  lemma {:induction false} ReplacesNothing(s: string, pattern: Pattern, with: string, c: char)
    requires c !in s
    requires forall t :: t != "" && t[0] != c ==> pattern(t) == 0
    ensures ReplaceAll(s, pattern, with) == s
    decreases |s|
  {
    if s != "" {
      assert s[0] in s;
      ReplacesNothing(s[1..], pattern, with, c);
      assert s == [s[0]] + s[1..];
    }
  }

  lemma WordsStartWithAmpersand(word: string)
    requires word != "" && word[0] == '&'
    ensures forall t :: t != "" && t[0] != '&' ==> Word(word)(t) == 0
  {
  }

  lemma {:induction false} BlockEndsStartWithBracket(s: string, words: seq<string>)
    requires s != "" && s[0] != '<' && forall i :: 0 <= i < |words| ==> words[i] != "" && words[i][0] == '<'
    ensures AnyWord(s, words) == 0
  {
    if words != [] {
      BlockEndsStartWithBracket(s, words[1..]);
    }
  }

  /** Text without brackets and ampersands is only tidied. */
  lemma PlainIsOnlyTidied(text: string)
    requires '<' !in text && '&' !in text
    ensures Decoded(Untagged(text)) == text
  {
    hide ReplaceAll;
    ReplacesNothing(text, LineBreak, "\n", '<');
    forall t | t != "" && t[0] != '<' ensures AnyWord(t, BLOCK_ENDS) == 0 {
      BlockEndsStartWithBracket(t, BLOCK_ENDS);
    }
    ReplacesNothing(text, s => AnyWord(s, BLOCK_ENDS), "\n", '<');
    ReplacesNothing(text, Tag, "", '<');
    EntitiesNeedAnAmpersand(text);
  }

  lemma EntitiesNeedAnAmpersand(text: string)
    requires '&' !in text
    ensures Decoded(text) == text
  {
    hide ReplaceAll, Word;
    WordsStartWithAmpersand("&nbsp;");
    WordsStartWithAmpersand("&amp;");
    WordsStartWithAmpersand("&lt;");
    WordsStartWithAmpersand("&gt;");
    WordsStartWithAmpersand("&quot;");
    ReplacesNothing(text, Word("&nbsp;"), " ", '&');
    ReplacesNothing(text, Word("&amp;"), "&", '&');
    ReplacesNothing(text, Word("&lt;"), "<", '&');
    ReplacesNothing(text, Word("&gt;"), ">", '&');
    ReplacesNothing(text, Word("&quot;"), "\"", '&');
  }

  // ----- which tag breaks a line, which entity gives which character -----

  ghost predicate OnlyAt(pattern: Pattern, c: char) {
    forall t :: t != "" && t[0] != c ==> pattern(t) == 0
  }

  lemma {:induction false} ReplaceFirst(
      before: string, t: string, after: string, pattern: Pattern, with: string, c: char)
    requires c !in before && t != "" && pattern(t + after) == |t| && OnlyAt(pattern, c)
    ensures ReplaceAll(before + (t + after), pattern, with) == before + (with + ReplaceAll(after, pattern, with))
  {
    if before == "" {
      assert before + (t + after) == t + after;
      assert (t + after)[|t|..] == after;
    } else {
      assert before[0] in before;
      ReplaceFirst(before[1..], t, after, pattern, with, c);
      assert (before + (t + after))[1..] == before[1..] + (t + after);
      assert before == [before[0]] + before[1..];
    }
  }

  lemma {:induction false} ReplaceLater(before: string, after: string, pattern: Pattern, with: string, c: char)
    requires c !in before && OnlyAt(pattern, c)
    ensures ReplaceAll(before + after, pattern, with) == before + ReplaceAll(after, pattern, with)
  {
    if before == "" {
      assert before + after == after;
    } else {
      assert before[0] in before;
      ReplaceLater(before[1..], after, pattern, with, c);
      assert (before + after)[1..] == before[1..] + after;
      assert before == [before[0]] + before[1..];
    }
  }

  /** What does not match at its first character stays. */
  lemma ReplaceNot(before: string, t: string, after: string, pattern: Pattern, with: string, c: char)
    requires c !in before && t != "" && c !in t[1..] && pattern(t + after) == 0 && OnlyAt(pattern, c)
    ensures ReplaceAll(before + (t + after), pattern, with) == before + (t + ReplaceAll(after, pattern, with))
  {
    ReplaceLater(before, t + after, pattern, with, c);
    assert (t + after)[1..] == t[1..] + after;
    ReplaceLater(t[1..], after, pattern, with, c);
    assert t == [t[0]] + t[1..];
  }

  function Bracketed(inner: string): string {
    "<" + inner + ">"
  }

  /** The word br, white space, and perhaps a slash. */
  predicate IsLineBreak(inner: string) {
    Starts(inner, "br") && TrimStart(inner[2..]) in ["", "/"]
  }

  const BLOCK_END_NAMES: seq<string> := ["/p", "/div", "/tr", "/h1", "/h2", "/h3", "/h4", "/h5", "/h6", "/li"]

  predicate IsAnyOf(inner: string, names: seq<string>) {
    exists i :: 0 <= i < |names| && |inner| == |names[i]| && Starts(inner, names[i])
  }

  lemma {:induction false} TrimStartAppends(s: string, t: string)
    requires t != "" && !IsSpace(t[0])
    ensures TrimStart(s + t) == TrimStart(s) + t
  {
    TrimStartStep(t[0], t[1..]);
    assert t == [t[0]] + t[1..];
    hide IsSpace, TrimStart;
    if s == "" {
      assert s + t == t;
      TrimStartOfNothing();
    } else {
      var c, rest := s[0], s[1..];
      assert s + t == [c] + (rest + t) && s == [c] + rest;
      TrimStartStep(c, rest);
      TrimStartStep(c, rest + t);
      TrimStartAppends(rest, t);
    }
  }

  lemma TrimStartOfNothing()
    ensures TrimStart("") == ""
  {
  }

  lemma TrimStartStep(c: char, s: string)
    ensures TrimStart([c] + s) == if IsSpace(c) then TrimStart(s) else [c] + s
  {
    hide IsSpace;
    assert ([c] + s)[1..] == s;
  }

  lemma LineBreakTakesTheTag(inner: string, after: string)
    requires '>' !in inner
    ensures LineBreak(Bracketed(inner) + after) == if IsLineBreak(inner) then |inner| + 2 else 0
  {
    var s := Bracketed(inner) + after;
    StartsInside(inner, "br", after);
    assert "<" + "br" == "<br";
    if Starts(inner, "br") {
      var rest := inner[2..];
      assert s[3..] == rest + (">" + after);
      TrimStartAppends(rest, ">" + after);
      TrimStartShrinks(rest);
      BreakEnds(TrimStart(rest), after);
    }
  }

  lemma BreakEnds(trimmed: string, after: string)
    requires '>' !in trimmed
    ensures var rest := trimmed + (">" + after);
            && rest != "" && (rest[0] == '>' <==> trimmed == "")
            && (|rest| >= 2 && rest[..2] == "/>" <==> trimmed == "/")
  {
    var rest := trimmed + (">" + after);
    if |trimmed| >= 1 {
      assert rest[0] == trimmed[0] && trimmed[0] in trimmed;
    }
    if |trimmed| >= 2 {
      assert rest[1] == trimmed[1] && trimmed[1] in trimmed;
      assert rest[..2][1] == rest[1];
    }
    if trimmed == "/" {
      assert rest[..2] == "/>";
    }
    if |rest| >= 2 && rest[..2] == "/>" {
      assert rest[0] == rest[..2][0] == '/' && rest[1] == rest[..2][1] == '>';
    }
  }

  lemma TrimStartShrinks(s: string)
    ensures |TrimStart(s)| <= |s| && forall c :: c in TrimStart(s) ==> c in s
  {
  }

  lemma StartsStep(c: char, s: string, d: char, word: string)
    ensures Starts([c] + s, [d] + word) <==> Lower(c) == d && Starts(s, word)
  {
    hide Lower;
    var s', word' := [c] + s, [d] + word;
    assert forall i :: 0 <= i < |word| ==> word'[i + 1] == word[i];
    if Lower(c) == d && Starts(s, word) {
      forall i | 0 <= i < |word'| ensures Lower(s'[i]) == word'[i] {
        if i > 0 {
          assert s'[i] == s[i - 1];
        }
      }
    }
    if Starts(s', word') {
      assert Lower(s'[0]) == word'[0];
      forall i | 0 <= i < |word| ensures Lower(s[i]) == word[i] {
        assert Lower(s'[i + 1]) == word'[i + 1];
      }
    }
  }

  lemma StartsBeforeClose(inner: string, word: string, after: string)
    requires '>' !in word
    ensures Starts(inner + (">" + after), word) <==> Starts(inner, word)
  {
    var s := inner + (">" + after);
    assert Lower('>') == '>';
    hide Lower;
    if |inner| < |word| {
      assert s[|inner|] == '>' && word[|inner|] in word;
    } else {
      assert forall i :: 0 <= i < |word| ==> s[i] == inner[i];
    }
  }

  lemma StartsUpToClose(inner: string, word: string, after: string)
    requires '>' !in inner && '>' !in word
    ensures Starts(inner + (">" + after), word + ">") <==> |inner| == |word| && Starts(inner, word)
  {
    var s, closed := inner + (">" + after), word + ">";
    StartsBeforeClose(inner, word, after);
    assert forall i :: 0 <= i < |word| ==> closed[i] == word[i];
    assert forall i :: 0 <= i < |closed| ==> i < |word| || closed[i] == '>';
    assert Lower('>') == '>';
    if |word| < |inner| {
      var c := inner[|word|];
      assert s[|word|] == c && c in inner && c != '>';
      assert Lower(c) == '>' ==> c == '>';
      assert closed[|word|] == '>';
    }
    hide Lower;
    if Starts(s, closed) {
      assert Starts(s, word) by {
        assert forall i :: 0 <= i < |word| ==> Lower(s[i]) == closed[i];
      }
      assert Lower(s[|word|]) == closed[|word|];
    }
  }

  lemma StartsInside(inner: string, word: string, after: string)
    requires '>' !in inner && '>' !in word
    ensures Starts(Bracketed(inner) + after, "<" + word) <==> Starts(inner, word)
    ensures Starts(Bracketed(inner) + after, Bracketed(word)) <==> |inner| == |word| && Starts(inner, word)
  {
    assert Lower('<') == '<';
    hide Starts, Lower;
    var s := inner + (">" + after);
    StartsBeforeClose(inner, word, after);
    StartsUpToClose(inner, word, after);
    StartsStep('<', s, '<', word);
    StartsStep('<', s, '<', word + ">");
    assert Bracketed(inner) + after == ['<'] + s;
    assert Bracketed(word) == ['<'] + (word + ">");
    assert "<" + word == ['<'] + word;
  }

  lemma {:induction false} AnyWordTakesTheTag(inner: string, words: seq<string>, names: seq<string>, after: string)
    requires '>' !in inner && |words| == |names|
    requires forall i :: 0 <= i < |names| ==> names[i] != "" && '>' !in names[i] && words[i] == Bracketed(names[i])
    ensures AnyWord(Bracketed(inner) + after, words) == if IsAnyOf(inner, names) then |inner| + 2 else 0
  {
    if names != [] {
      AnyWordTakesTheTag(inner, words[1..], names[1..], after);
      StartsInside(inner, names[0], after);
      hide Starts, Bracketed;
      assert IsAnyOf(inner, names)
          <==> (|inner| == |names[0]| && Starts(inner, names[0])) || IsAnyOf(inner, names[1..]) by {
        if i :| 0 <= i < |names| && |inner| == |names[i]| && Starts(inner, names[i]) {
          if i > 0 {
            assert names[1..][i - 1] == names[i];
          }
        }
      }
    }
  }

  /** What one tag becomes: a break or a block end a new line, any other nothing.
      What stands before it stays, what follows is treated the same way. */
  lemma TagBecomes(before: string, inner: string, after: string)
    requires '<' !in before && '<' !in inner && '>' !in inner && inner != ""
    ensures Untagged(before + (Bracketed(inner) + after))
            == before + ((if IsLineBreak(inner) || IsAnyOf(inner, BLOCK_END_NAMES) then "\n" else "") + Untagged(after))
  {
    hide ReplaceAll, LineBreak, AnyWord, Tag, IsLineBreak, IsAnyOf, Bracketed;
    var ends: Pattern := s => AnyWord(s, BLOCK_ENDS);
    var t := Bracketed(inner);
    var after1 := ReplaceAll(after, LineBreak, "\n");
    var after2 := ReplaceAll(after1, ends, "\n");
    TagsOnly();
    TagIsOneBracket(inner);
    LineBreakTakesTheTag(inner, after);
    if IsLineBreak(inner) {
      ReplaceFirst(before, t, after, LineBreak, "\n", '<');
      LaterStages(before + "\n", after1);
      assert before + ("\n" + after1) == before + "\n" + after1;
      assert before + ("\n" + Untagged(after)) == before + "\n" + Untagged(after);
    } else {
      ReplaceNot(before, t, after, LineBreak, "\n", '<');
      BlockEndTakesTheTag(inner, after1);
      if IsAnyOf(inner, BLOCK_END_NAMES) {
        ReplaceFirst(before, t, after1, ends, "\n", '<');
        ReplaceLater(before + "\n", after2, Tag, "", '<');
        assert before + ("\n" + after2) == before + "\n" + after2;
        assert before + ("\n" + Untagged(after)) == before + "\n" + Untagged(after);
      } else {
        ReplaceNot(before, t, after1, ends, "\n", '<');
        FirstTagGoes(before, inner, after2);
        assert before + ("" + Untagged(after)) == before + Untagged(after);
      }
    }
  }

  lemma TagTakes(inner: string, after: string)
    requires inner != "" && '>' !in inner
    ensures Tag(Bracketed(inner) + after) == |inner| + 2
  {
    var s := Bracketed(inner) + after;
    assert s[1..] == inner + (">" + after);
    CloseAt(inner, after);
  }

  /** The first tag of a text goes, what is before it stays. */
  lemma FirstTagGoes(before: string, inner: string, after: string)
    requires '<' !in before && inner != "" && '>' !in inner
    ensures ReplaceAll(before + (Bracketed(inner) + after), Tag, "") == before + ReplaceAll(after, Tag, "")
  {
    hide ReplaceAll, Tag;
    TagTakes(inner, after);
    TagsOnly();
    ReplaceFirst(before, Bracketed(inner), after, Tag, "", '<');
    assert before + ("" + ReplaceAll(after, Tag, "")) == before + ReplaceAll(after, Tag, "");
  }

  lemma LaterStages(before: string, after: string)
    requires '<' !in before
    ensures var ends: Pattern := s => AnyWord(s, BLOCK_ENDS);
            ReplaceAll(ReplaceAll(before + after, ends, "\n"), Tag, "")
            == before + ReplaceAll(ReplaceAll(after, ends, "\n"), Tag, "")
  {
    hide ReplaceAll, AnyWord, Tag;
    var ends: Pattern := s => AnyWord(s, BLOCK_ENDS);
    TagsOnly();
    ReplaceLater(before, after, ends, "\n", '<');
    ReplaceLater(before, ReplaceAll(after, ends, "\n"), Tag, "", '<');
  }

  lemma TagsOnly()
    ensures OnlyAt(LineBreak, '<') && OnlyAt(s => AnyWord(s, BLOCK_ENDS), '<') && OnlyAt(Tag, '<')
  {
    forall t: string | t != "" && t[0] != '<'
      ensures LineBreak(t) == 0 && AnyWord(t, BLOCK_ENDS) == 0 && Tag(t) == 0
    {
      BlockEndsStartWithBracket(t, BLOCK_ENDS);
    }
  }

  lemma TagIsOneBracket(inner: string)
    requires '<' !in inner
    ensures Bracketed(inner) != "" && |Bracketed(inner)| == |inner| + 2 && '<' !in Bracketed(inner)[1..]
  {
    assert Bracketed(inner)[1..] == inner + ">";
  }

  lemma BlockEndTakesTheTag(inner: string, after: string)
    requires '>' !in inner
    ensures AnyWord(Bracketed(inner) + after, BLOCK_ENDS)
            == if IsAnyOf(inner, BLOCK_END_NAMES) then |inner| + 2 else 0
  {
    var names, words := BLOCK_END_NAMES, BLOCK_ENDS;
    assert forall i :: 0 <= i < |names| ==> names[i] != "" && '>' !in names[i] && words[i] == Bracketed(names[i]);
    AnyWordTakesTheTag(inner, words, names, after);
  }

  lemma EmptyBracketsAreNoTag(after: string)
    ensures LineBreak("<>" + after) == 0 && AnyWord("<>" + after, BLOCK_ENDS) == 0 && Tag("<>" + after) == 0
  {
    assert Bracketed("") == "<>";
    assert ("<>" + after)[1..][0] == '>';
    hide AnyWord, LineBreak;
    LineBreakTakesTheTag("", after);
    BlockEndTakesTheTag("", after);
    NoEmptyName();
  }

  lemma NoEmptyName()
    ensures !IsLineBreak("") && !IsAnyOf("", BLOCK_END_NAMES)
  {
    assert forall i :: 0 <= i < |BLOCK_END_NAMES| ==> BLOCK_END_NAMES[i] != "";
  }

  /** Empty brackets are no tag. */
  lemma EmptyBracketsStay(before: string, after: string)
    requires '<' !in before
    ensures Untagged(before + ("<>" + after)) == before + ("<>" + Untagged(after))
  {
    hide ReplaceAll, LineBreak, AnyWord, Tag;
    var ends: Pattern := s => AnyWord(s, BLOCK_ENDS);
    var after1 := ReplaceAll(after, LineBreak, "\n");
    var after2 := ReplaceAll(after1, ends, "\n");
    TagsOnly();
    EmptyBracketsAreNoTag(after);
    EmptyBracketsAreNoTag(after1);
    EmptyBracketsAreNoTag(after2);
    ReplaceNot(before, "<>", after, LineBreak, "\n", '<');
    ReplaceNot(before, "<>", after1, ends, "\n", '<');
    ReplaceNot(before, "<>", after2, Tag, "", '<');
  }

  lemma {:induction false} NoCloseStays(s: string, pattern: Pattern, with: string)
    requires '>' !in s && forall t :: '>' !in t ==> pattern(t) == 0
    ensures ReplaceAll(s, pattern, with) == s
    decreases |s|
  {
    if s != "" {
      NoCloseStays(s[1..], pattern, with);
      assert s == [s[0]] + s[1..];
    }
  }

  /** Text without a closing bracket holds no tag, whatever opens in it. */
  lemma UnclosedStays(text: string)
    requires '>' !in text
    ensures Untagged(text) == text
  {
    forall t: string | '>' !in t
      ensures LineBreak(t) == 0 && AnyWord(t, BLOCK_ENDS) == 0 && Tag(t) == 0
    {
      UnclosedIsNoTag(t);
    }
    hide ReplaceAll, LineBreak, AnyWord, Tag;
    NoCloseStays(text, LineBreak, "\n");
    NoCloseStays(text, s => AnyWord(s, BLOCK_ENDS), "\n");
    NoCloseStays(text, Tag, "");
  }

  lemma UnclosedIsNoTag(t: string)
    requires '>' !in t
    ensures LineBreak(t) == 0 && AnyWord(t, BLOCK_ENDS) == 0 && Tag(t) == 0
  {
    hide Starts, AnyWord, IsSpace;
    if |t| >= 3 {
      TrimStartShrinks(t[3..]);
      UnclosedStart(TrimStart(t[3..]));
    }
    if t != "" {
      NoCloseNoTag(t[1..]);
    }
    NoWordUnclosed(t, BLOCK_ENDS);
    ShortIsNoBreak(t);
  }

  lemma ShortIsNoBreak(t: string)
    ensures Starts(t, "<br") ==> |t| >= 3
  {
  }

  lemma UnclosedStart(rest: string)
    requires '>' !in rest
    ensures rest != "" ==> rest[0] != '>'
    ensures |rest| >= 2 ==> rest[..2] != "/>"
  {
    if |rest| >= 2 {
      assert rest[1] in rest && rest[..2][1] == rest[1];
    }
  }

  lemma UnclosedStarts(t: string, word: string)
    requires '>' !in t && word != "" && word[|word| - 1] == '>'
    ensures !Starts(t, word)
  {
    var k := |word| - 1;
    assert k < |t| ==> t[k] in t;
    assert k < |t| ==> Lower(t[k]) != '>';
  }

  lemma {:induction false} NoWordUnclosed(t: string, words: seq<string>)
    requires '>' !in t && forall i :: 0 <= i < |words| ==> words[i] != "" && words[i][|words[i]| - 1] == '>'
    ensures AnyWord(t, words) == 0
  {
    hide Starts;
    if words != [] {
      UnclosedStarts(t, words[0]);
      NoWordUnclosed(t, words[1..]);
    }
  }

  /** A word of the entity list in the text, in either case. */
  predicate IsWord(e: string, word: string) {
    |e| == |word| && Starts(e, word)
  }

  /** Case-insensitively, letter by letter. */
  lemma WordInEitherCase(e: string, word: string)
    requires forall i :: 0 <= i < |word| ==> !('A' <= word[i] <= 'Z')
    ensures IsWord(e, word)
            <==> (&& |e| == |word|
                  && forall i :: 0 <= i < |word| ==>
                       e[i] == word[i] || ('a' <= word[i] <= 'z' && e[i] as int == word[i] as int - 32))
  {
  }

  lemma EntityAt(e: string, word: string, after: string, pattern: string)
    requires IsWord(e, word) && |word| >= 2 && |pattern| >= 2
    requires word[0] == pattern[0] == '&' && (pattern == word || pattern[1] != word[1])
    ensures Word(pattern)(e + after) == if pattern == word then |e| else 0
  {
    var s := e + after;
    assert forall i :: 0 <= i < |e| ==> s[i] == e[i];
    if pattern != word {
      assert Lower(e[1]) == word[1];
    }
  }

  lemma EntityHasOneAmpersand(e: string, word: string)
    requires IsWord(e, word) && word != "" && '&' !in word[1..]
    ensures '&' !in e[1..]
  {
    forall i | 1 <= i < |e| ensures e[i] != '&' {
      assert Lower(e[i]) == word[i] && word[i] == word[1..][i - 1] && word[1..][i - 1] in word[1..];
    }
  }

  lemma WordsOnly(word: string)
    requires word != "" && word[0] == '&'
    ensures OnlyAt(Word(word), '&')
  {
    WordsStartWithAmpersand(word);
  }

  /** One replacement over a text with one entity. */
  lemma EntityStage(before: string, e: string, word: string, after: string, pattern: string, with: string)
    requires '&' !in before && '&' !in after
    requires IsWord(e, word) && |word| >= 2 && |pattern| >= 2
    requires word[0] == pattern[0] == '&' && '&' !in word[1..] && (pattern == word || pattern[1] != word[1])
    ensures ReplaceAll(before + (e + after), Word(pattern), with)
            == if pattern == word then before + (with + after) else before + (e + after)
  {
    EntityAt(e, word, after, pattern);
    EntityHasOneAmpersand(e, word);
    WordsOnly(pattern);
    hide ReplaceAll, IsWord;
    ReplacesNothing(after, Word(pattern), with, '&');
    if pattern == word {
      ReplaceFirst(before, e, after, Word(pattern), with, '&');
    } else {
      ReplaceNot(before, e, after, Word(pattern), with, '&');
    }
  }

  lemma NoEntityStage(text: string, pattern: string, with: string)
    requires '&' !in text && pattern != "" && pattern[0] == '&'
    ensures ReplaceAll(text, Word(pattern), with) == text
  {
    WordsOnly(pattern);
    ReplacesNothing(text, Word(pattern), with, '&');
  }

  /** Each entity gives its character, whatever the case it is written in. */
  lemma EntityBecomes(before: string, e: string, word: string, after: string)
    requires '&' !in before && '&' !in after
    requires word in ["&nbsp;", "&lt;", "&gt;", "&quot;"] && IsWord(e, word)
    ensures Decoded(before + (e + after))
            == before + ((match word case "&nbsp;" => " " case "&lt;" => "<" case "&gt;" => ">" case _ => "\"") + after)
  {
    hide ReplaceAll, Word, IsWord;
    var with := match word case "&nbsp;" => " " case "&lt;" => "<" case "&gt;" => ">" case _ => "\"";
    var done := before + (with + after);
    EntityStage(before, e, word, after, "&nbsp;", " ");
    EntityStage(before, e, word, after, "&amp;", "&");
    EntityStage(before, e, word, after, "&lt;", "<");
    EntityStage(before, e, word, after, "&gt;", ">");
    EntityStage(before, e, word, after, "&quot;", "\"");
    NoEntityStage(done, "&amp;", "&");
    NoEntityStage(done, "&lt;", "<");
    NoEntityStage(done, "&gt;", ">");
    NoEntityStage(done, "&quot;", "\"");
  }

  /** What an ampersand that was an entity becomes: with what follows it may
      spell another entity, which is then decoded too. */
  function DecodedAgain(after: string): string {
    if Starts(after, "lt;") then "<" + after[3..]
    else if Starts(after, "gt;") then ">" + after[3..]
    else if Starts(after, "quot;") then "\"" + after[5..]
    else "&" + after
  }

  lemma BareAmpersandStage(before: string, after: string, word: string, with: string)
    requires '&' !in before && '&' !in after && word != "" && '&' !in word
    ensures ReplaceAll(before + ("&" + after), Word("&" + word), with)
            == before + if Starts(after, word) then with + after[|word|..] else "&" + after
  {
    var pattern := "&" + word;
    assert Lower('&') == '&';
    StartsStep('&', after, '&', word);
    assert ['&'] + after == "&" + after && ['&'] + word == pattern;
    WordsOnly(pattern);
    if Starts(after, word) {
      var e, rest := "&" + after[..|word|], after[|word|..];
      assert "&" + after == e + rest;
      ReplaceFirst(before, e, rest, Word(pattern), with, '&');
      ReplacesNothing(rest, Word(pattern), with, '&');
    } else {
      ReplaceNot(before, "&", after, Word(pattern), with, '&');
      ReplacesNothing(after, Word(pattern), with, '&');
    }
  }

  /** The ampersand entity is decoded before the brackets and the quote, so what
      it escapes is decoded twice: exactly when lt, gt or quot and a semicolon
      follow it. */
  lemma AmpersandBecomes(before: string, e: string, after: string)
    requires '&' !in before && '&' !in after && IsWord(e, "&amp;")
    ensures Decoded(before + (e + after)) == before + DecodedAgain(after)
  {
    hide ReplaceAll, Word, IsWord;
    EntityStage(before, e, "&amp;", after, "&nbsp;", " ");
    EntityStage(before, e, "&amp;", after, "&amp;", "&");
    BareAmpersandStage(before, after, "lt;", "<");
    BareAmpersandStage(before, after, "gt;", ">");
    BareAmpersandStage(before, after, "quot;", "\"");
    assert "&" + "lt;" == "&lt;" && "&" + "gt;" == "&gt;" && "&" + "quot;" == "&quot;";
    if Starts(after, "lt;") {
      NoEntityStage(before + ("<" + after[3..]), "&gt;", ">");
      NoEntityStage(before + ("<" + after[3..]), "&quot;", "\"");
    } else if Starts(after, "gt;") {
      NoEntityStage(before + (">" + after[3..]), "&quot;", "\"");
    }
  }

  /** The markup for the four characters "&lt;" gives the one character "<". */
  lemma EscapedEntityIsDecodedTwice()
    ensures Decoded("&amp;lt;") == "<"
  {
    AmpersandBecomes("", "&amp;", "lt;");
    assert "" + ("&amp;" + "lt;") == "&amp;lt;";
    assert "<" + "lt;"[3..] == "<";
  }

  /** The fallback is tidy, holds every character but white space that is left
      of the markup without its tags, in order, and for text without brackets
      and ampersands every one there was. */
  lemma PlainTextIsTidy(html: string)
    ensures IsTidy(HtmlToPlainText(html))
    ensures Tidy(HtmlToPlainText(html)) == HtmlToPlainText(html)
    ensures Visible(html) != "" ==> Visible(HtmlToPlainText(html)) == Visible(Decoded(Untagged(html)))
    ensures Visible(html) == "" ==> HtmlToPlainText(html) == ""
    ensures '<' !in html && '&' !in html ==> Visible(HtmlToPlainText(html)) == Visible(html)
  {
    hide ReplaceAll, Untagged, Decoded, Tidy, IsTidy;
    TidyKeepsVisible(Decoded(Untagged(html)));
    VisibleThroughTrim(html);
    TrimKeeps(html);
    TidyIsTidy(Decoded(Untagged(html)));
    EmptyIsTidy();
    TidyTextStays(HtmlToPlainText(html));
    if '<' !in html && '&' !in html {
      PlainIsOnlyTidied(html);
    }
  }

  lemma EmptyIsTidy()
    ensures IsTidy("")
  {
  }

  // ----- the chunked checksum -----

  const CHUNK_SIZE: nat := 2 * 1024 * 1024

  function Concat<T>(chunks: seq<seq<T>>): seq<T> {
    if chunks == [] then [] else Concat(chunks[..|chunks| - 1]) + chunks[|chunks| - 1]
  }

  function Min(a: nat, b: nat): nat {
    if a <= b then a else b
  }

  /** The chunks fed to the hash, in order: the file itself, cut, in one read
      even when it is empty and otherwise in as few as the size allows. */
  method FeedChunks<T>(file: seq<T>) returns (fed: seq<seq<T>>)
    ensures Concat(fed) == file
    ensures |fed| >= 1
    ensures (|fed| - 1) * CHUNK_SIZE < |file| <= |fed| * CHUNK_SIZE || (file == [] && |fed| == 1)
    ensures forall i :: 0 <= i < |fed| - 1 ==> |fed[i]| == CHUNK_SIZE
  {
    var offset := 0;
    fed := [];
    var more := true;
    while more
      invariant offset == |fed| * CHUNK_SIZE
      invariant Concat(fed) == file[..Min(offset, |file|)]
      invariant more <==> offset < |file| || fed == []
      invariant fed != [] ==> (|fed| - 1) * CHUNK_SIZE < |file| || (file == [] && |fed| == 1)
      invariant forall i :: 0 <= i < |fed| && (more || i < |fed| - 1) ==> |fed[i]| == CHUNK_SIZE
      decreases if more then |file| + 1 - offset else 0, more
    {
      var chunk := file[Min(offset, |file|)..Min(offset + CHUNK_SIZE, |file|)];
      var fed' := fed + [chunk];
      assert fed'[..|fed|] == fed;
      fed := fed';
      offset := offset + CHUNK_SIZE;
      more := offset < |file|;
    }
  }
}
