/** Repair of custom-verb paths in generated service code: inside backtick
    spans, every `${identifier}` that is not a path parameter becomes `:identifier`. */
module FixServices {
  import opened Wrappers

  const BACKTICK: char := '`'

  predicate IsDigit(c: char) {
    '0' <= c <= '9'
  }

  predicate IsWord(c: char) {
    'a' <= c <= 'z' || 'A' <= c <= 'Z' || IsDigit(c) || c == '_'
  }

  /** Length of the leading run of word characters. */
  function WordRun(s: string): (k: nat)
    ensures k <= |s|
    ensures forall i :: 0 <= i < k ==> IsWord(s[i])
    ensures k < |s| ==> !IsWord(s[k])
  {
    if s == "" || !IsWord(s[0]) then 0 else 1 + WordRun(s[1..])
  }

  /** The name of an interpolation that starts `s`, as the pattern
      dollar, brace, identifier, brace finds it. */
  function Interpolation(s: string): (name: Option<string>)
    ensures name.Some? ==>
              && name.value != "" && |name.value| + 3 <= |s|
              && s[..|name.value| + 3] == "${" + name.value + "}"
    ensures name.Some? ==> forall c :: c in name.value ==> IsWord(c)
  {
    if |s| >= 2 && s[0] == '$' && s[1] == '{' then
      var k := WordRun(s[2..]);
      if k >= 1 && !IsDigit(s[2]) && 2 + k < |s| && s[2 + k] == '}' then Some(s[2..2 + k]) else None
    else None
  }

  predicate IsParam(name: string) {
    |name| > 5 && name[..5] == "param" && forall i :: 5 <= i < |name| ==> IsDigit(name[i])
  }

  datatype Rewritten = Rewritten(text: string, repaired: nat)

  /** The replacement over the inside of one span. */
  function RewriteSpan(s: string): Rewritten
    decreases |s|
  {
    if s == "" then Rewritten("", 0)
    else
      match Interpolation(s)
      case None =>
        var r := RewriteSpan(s[1..]);
        Rewritten([s[0]] + r.text, r.repaired)
      case Some(name) =>
        var r := RewriteSpan(s[|name| + 3..]);
        if IsParam(name) then Rewritten("${" + name + "}" + r.text, r.repaired)
        else Rewritten(":" + name + r.text, r.repaired + 1)
  }

  /** The first position of `c`, or the length if there is none. */
  function Find(s: string, c: char): (i: nat)
    ensures i <= |s| && (i < |s| ==> s[i] == c)
    ensures c !in s[..i]
  {
    if s == "" || s[0] == c then 0
    else
      var i := Find(s[1..], c);
      assert s[..i + 1] == [s[0]] + s[1..][..i];
      i + 1
  }

  /** The replacement over a file: spans are paired from the left, and a last
      unpaired backtick opens none. */
  function Fix(s: string): Rewritten
    decreases |s|
  {
    var i := Find(s, BACKTICK);
    if i == |s| then Rewritten(s, 0)
    else
      var rest := s[i + 1..];
      var j := Find(rest, BACKTICK);
      if j == |rest| then Rewritten(s, 0)
      else
        var span := RewriteSpan(rest[..j]);
        var tail := Fix(rest[j + 1..]);
        Rewritten(s[..i] + [BACKTICK] + span.text + [BACKTICK] + tail.text, span.repaired + tail.repaired)
  }

  // ----- the two views the claims are made in -----

  predicate IsBad(name: Option<string>) {
    name.Some? && !IsParam(name.value)
  }

  /** Interpolations, at any position, that are not path parameters. */
  function BadCount(s: string): nat {
    if s == "" then 0 else (if IsBad(Interpolation(s)) then 1 else 0) + BadCount(s[1..])
  }

  /** The path parameters in order of position. */
  function Params(s: string): seq<string> {
    if s == "" then []
    else
      (match Interpolation(s) case Some(name) => (if IsParam(name) then [name] else []) case None => [])
      + Params(s[1..])
  }

  /** The text cut at every backtick. */
  function Pieces(s: string): (ps: seq<string>)
    ensures ps != []
    decreases |s|
  {
    var i := Find(s, BACKTICK);
    if i == |s| then [s] else [s[..i]] + Pieces(s[i + 1..])
  }

  function Join(ps: seq<string>): string
    requires ps != []
  {
    if |ps| == 1 then ps[0] else ps[0] + [BACKTICK] + Join(ps[1..])
  }

  /** Piece `k` of `n` lies between a paired backtick and its partner. */
  predicate InsideSpan(k: nat, n: nat) {
    k % 2 == 1 && k + 1 < n
  }

  // ----- one span -----

  lemma PlainStep(c: char, t: string)
    requires c != '$'
    ensures RewriteSpan([c] + t) == Rewritten([c] + RewriteSpan(t).text, RewriteSpan(t).repaired)
  {
    assert ([c] + t)[1..] == t;
  }

  lemma PlainStepCounts(c: char, t: string)
    requires c != '$'
    ensures BadCount([c] + t) == BadCount(t)
    ensures Params([c] + t) == Params(t)
  {
    assert ([c] + t)[1..] == t;
  }

  lemma {:induction false} SkipPlain(p: string, t: string)
    requires '$' !in p
    ensures RewriteSpan(p + t) == Rewritten(p + RewriteSpan(t).text, RewriteSpan(t).repaired)
  {
    hide RewriteSpan;
    var out := RewriteSpan(t).text;
    if p == "" {
      assert p + t == t && p + out == out;
    } else {
      SkipPlain(p[1..], t);
      PlainStep(p[0], p[1..] + t);
      assert p + t == [p[0]] + (p[1..] + t);
      assert p + out == [p[0]] + (p[1..] + out);
    }
  }

  lemma {:induction false} SkipPlainCounts(p: string, t: string)
    requires '$' !in p
    ensures BadCount(p + t) == BadCount(t)
    ensures Params(p + t) == Params(t)
  {
    hide BadCount, Params;
    if p == "" {
      assert p + t == t;
    } else {
      SkipPlainCounts(p[1..], t);
      PlainStepCounts(p[0], p[1..] + t);
      assert p + t == [p[0]] + (p[1..] + t);
    }
  }

  /** Skips the inside of the interpolation that starts `s`. */
  lemma SkipInterpolation(s: string)
    requires Interpolation(s).Some?
    ensures var tail := s[|Interpolation(s).value| + 3..];
            BadCount(s[1..]) == BadCount(tail) && Params(s[1..]) == Params(tail)
  {
    var name := Interpolation(s).value;
    var tail := s[|name| + 3..];
    var inside := "{" + name + "}";
    assert s[..|name| + 3] == "$" + inside;
    assert s == s[..|name| + 3] + tail;
    assert s[1..] == inside + tail;
    SkipPlainCounts(inside, tail);
  }

  lemma RewriteFirst(s: string)
    requires s != ""
    ensures var out := RewriteSpan(s).text;
            out != "" && (if s[0] == '$' then out[0] in ['$', ':'] else out[0] == s[0])
  {
  }

  /** The two texts start with the same word run, ended alike. */
  predicate SameWordRun(s: string, out: string) {
    var k := WordRun(s);
    && WordRun(out) == k
    && out[..k] == s[..k]
    && (k < |out| <==> k < |s|)
    && (k < |s| ==> (out[k] == '}' <==> s[k] == '}'))
  }

  lemma WordRunGrows(c: char, t: string, out: string)
    requires IsWord(c) && SameWordRun(t, out)
    ensures SameWordRun([c] + t, [c] + out)
  {
    assert ([c] + out)[1..] == out && ([c] + t)[1..] == t;
    var k := WordRun(t);
    assert ([c] + out)[..k + 1] == [c] + out[..k];
    assert ([c] + t)[..k + 1] == [c] + t[..k];
  }

  /** Rewriting leaves the leading word run and what ends it as they were. */
  lemma {:induction false} RewriteKeepsWordRun(s: string)
    ensures SameWordRun(s, RewriteSpan(s).text)
    decreases |s|
  {
    if s != "" {
      if IsWord(s[0]) {
        RewriteKeepsWordRun(s[1..]);
        assert s == [s[0]] + s[1..];
        PlainStep(s[0], s[1..]);
        WordRunGrows(s[0], s[1..], RewriteSpan(s[1..]).text);
      } else {
        RewriteFirst(s);
      }
    }
  }

  /** Where no interpolation starts, rewriting the rest starts none. */
  lemma RewriteStartsNothing(s: string)
    requires s != "" && Interpolation(s) == None
    ensures Interpolation([s[0]] + RewriteSpan(s[1..]).text) == None
  {
    var out := [s[0]] + RewriteSpan(s[1..]).text;
    if s[0] == '$' && |s| >= 2 && s[1] == '{' {
      var t := s[2..];
      assert s[1..][1..] == t;
      assert RewriteSpan(s[1..]).text == ['{'] + RewriteSpan(t).text;
      assert out[2..] == RewriteSpan(t).text;
      RewriteKeepsWordRun(t);
      var k := WordRun(t);
      if k >= 1 {
        assert out[2] == RewriteSpan(t).text[..k][0] == t[..k][0];
      }
    }
  }

  lemma {:induction false} WordRunOf(name: string, t: string)
    requires forall c :: c in name ==> IsWord(c)
    requires t != "" && !IsWord(t[0])
    ensures WordRun(name + t) == |name|
  {
    if name == "" {
      assert name + t == t;
    } else {
      WordRunOf(name[1..], t);
      assert (name + t)[1..] == name[1..] + t;
    }
  }

  lemma KeptInterpolation(name: string, t: string)
    requires name != "" && !IsDigit(name[0]) && forall c :: c in name ==> IsWord(c)
    ensures Interpolation("${" + name + "}" + t) == Some(name)
  {
    var s := "${" + name + "}" + t;
    assert s[2..] == name + ("}" + t);
    WordRunOf(name, "}" + t);
    assert s[2..2 + |name|] == name;
  }

  /** One pass counts the bad interpolations of a span and takes two characters
      from each. */
  lemma {:induction false} SpanCounts(s: string)
    ensures RewriteSpan(s).repaired == BadCount(s)
    ensures |RewriteSpan(s).text| + 2 * RewriteSpan(s).repaired == |s|
    decreases |s|
  {
    hide Interpolation, IsParam;
    if s != "" {
      match Interpolation(s) {
        case None => SpanCounts(s[1..]);
        case Some(name) =>
          SpanCounts(s[|name| + 3..]);
          SkipInterpolation(s);
      }
    }
  }

  /** `out` holds the parameters of `s` in order and nothing left to repair. */
  predicate Repaired(s: string, out: string) {
    && BadCount(out) == 0
    && Params(out) == Params(s)
    && RewriteSpan(out) == Rewritten(out, 0)
  }

  lemma RepairedEmpty()
    ensures Repaired("", "")
  {
  }

  lemma RepairedCharacter(s: string)
    requires s != "" && Interpolation(s) == None && Repaired(s[1..], RewriteSpan(s[1..]).text)
    ensures Repaired(s, [s[0]] + RewriteSpan(s[1..]).text)
  {
    RewriteStartsNothing(s);
    assert ([s[0]] + RewriteSpan(s[1..]).text)[1..] == RewriteSpan(s[1..]).text;
  }

  lemma RepairedParam(s: string, name: string, tail: string, t: string)
    requires Interpolation(s) == Some(name) && IsParam(name) && tail == s[|name| + 3..] && Repaired(tail, t)
    ensures Repaired(s, "${" + name + "}" + t)
  {
    var out := "${" + name + "}" + t;
    assert name[0] == name[..5][0];
    KeptInterpolation(name, t);
    SkipInterpolation(s);
    SkipInterpolation(out);
    assert out[|name| + 3..] == t;
  }

  lemma RepairedBad(s: string, name: string, tail: string, t: string)
    requires Interpolation(s) == Some(name) && !IsParam(name) && tail == s[|name| + 3..] && Repaired(tail, t)
    ensures Repaired(s, ":" + name + t)
  {
    SkipInterpolation(s);
    SkipPlain(":" + name, t);
    SkipPlainCounts(":" + name, t);
  }

  /** One pass leaves no bad interpolation at any position, keeps the parameters
      in order, and leaves a second pass nothing to do. */
  lemma {:induction false} SpanRepaired(s: string)
    ensures Repaired(s, RewriteSpan(s).text)
    decreases |s|
  {
    hide Repaired, Interpolation, IsParam;
    RepairedEmpty();
    if s != "" {
      match Interpolation(s) {
        case None =>
          SpanRepaired(s[1..]);
          RepairedCharacter(s);
        case Some(name) =>
          var tail := s[|name| + 3..];
          SpanRepaired(tail);
          if IsParam(name) {
            RepairedParam(s, name, tail, RewriteSpan(tail).text);
          } else {
            RepairedBad(s, name, tail, RewriteSpan(tail).text);
          }
      }
    }
  }

  /** A zero count means no position of the text starts a bad interpolation. */
  lemma {:induction false} BadCountZero(s: string)
    ensures BadCount(s) == 0 <==> forall i :: 0 <= i < |s| ==> !IsBad(Interpolation(s[i..]))
  {
    if s != "" {
      BadCountZero(s[1..]);
      assert s[0..] == s;
      forall i | 1 <= i < |s| ensures s[i..] == s[1..][i - 1..] {
      }
      forall i | 0 <= i < |s[1..]| ensures s[1..][i..] == s[i + 1..] {
      }
    }
  }

  lemma {:induction false} RewriteAddsNoBacktick(s: string)
    requires BACKTICK !in s
    ensures BACKTICK !in RewriteSpan(s).text
    decreases |s|
  {
    if s != "" {
      match Interpolation(s) {
        case None => RewriteAddsNoBacktick(s[1..]);
        case Some(name) => RewriteAddsNoBacktick(s[|name| + 3..]);
      }
    }
  }

  // ----- what becomes of each part of a span -----

  datatype Part = Plain(c: char) | Named(name: string)

  /** The span as characters that stay and interpolations. */
  function Cut(s: string): seq<Part>
    decreases |s|
  {
    if s == "" then []
    else
      match Interpolation(s)
      case None => [Plain(s[0])] + Cut(s[1..])
      case Some(name) => [Named(name)] + Cut(s[|name| + 3..])
  }

  /** The text of a cut, each interpolation spelled as `spell` says. */
  function Spelled(parts: seq<Part>, spell: string -> string): string {
    if parts == [] then ""
    else (match parts[0] case Plain(c) => [c] case Named(name) => spell(name)) + Spelled(parts[1..], spell)
  }

  function Braced(name: string): string {
    "${" + name + "}"
  }

  /** The suffix the backend expects in place of a name that is no parameter. */
  function VerbOrParam(name: string): string {
    if IsParam(name) then Braced(name) else ":" + name
  }

  function NamesOf(parts: seq<Part>): seq<string> {
    if parts == [] then []
    else (match parts[0] case Plain(_) => [] case Named(name) => [name]) + NamesOf(parts[1..])
  }

  /** The names of the interpolations at every position, in order. */
  function AllNames(s: string): seq<string> {
    if s == "" then []
    else (match Interpolation(s) case Some(name) => [name] case None => []) + AllNames(s[1..])
  }

  lemma {:induction false} SkipNames(p: string, t: string)
    requires '$' !in p
    ensures AllNames(p + t) == AllNames(t)
  {
    if p == "" {
      assert p + t == t;
    } else {
      SkipNames(p[1..], t);
      assert (p + t)[1..] == p[1..] + t;
    }
  }

  lemma NamesStep(s: string, name: string)
    requires Interpolation(s) == Some(name)
    ensures AllNames(s) == [name] + AllNames(s[|name| + 3..])
  {
    var tail := s[|name| + 3..];
    assert s[..|name| + 3] == Braced(name);
    assert s == Braced(name) + tail;
    assert s[1..] == "{" + name + "}" + tail;
    SkipNames("{" + name + "}", tail);
  }

  /** The cut loses nothing and holds every interpolation there is; the
      replacement spells each one that is no parameter as a verb and every other
      part as it was. */
  lemma {:induction false} SpanIsRespelled(s: string)
    ensures Spelled(Cut(s), Braced) == s
    ensures RewriteSpan(s).text == Spelled(Cut(s), VerbOrParam)
    ensures NamesOf(Cut(s)) == AllNames(s)
    decreases |s|
  {
    hide Interpolation, IsParam;
    if s != "" {
      match Interpolation(s) {
        case None =>
          SpanIsRespelled(s[1..]);
          assert Cut(s)[1..] == Cut(s[1..]);
          assert s == [s[0]] + s[1..];
        case Some(name) =>
          var tail := s[|name| + 3..];
          SpanIsRespelled(tail);
          NamesStep(s, name);
          assert Cut(s)[1..] == Cut(tail);
          assert s == Braced(name) + tail by { InterpolationStarts(s); }
      }
    }
  }

  lemma InterpolationStarts(s: string)
    requires Interpolation(s).Some?
    ensures s == Braced(Interpolation(s).value) + s[|Interpolation(s).value| + 3..]
  {
    var name := Interpolation(s).value;
    assert s[..|name| + 3] == Braced(name);
  }

  // ----- the same in the words of the two patterns -----

  predicate IsLetter(c: char) {
    'A' <= c <= 'Z' || c == '_' || 'a' <= c <= 'z'
  }

  predicate IsIdentifier(name: string) {
    name != "" && IsLetter(name[0]) && forall i :: 1 <= i < |name| ==> IsLetter(name[i]) || name[i] in "0123456789"
  }

  ghost predicate IsPathParam(name: string) {
    exists digits :: digits != "" && name == "param" + digits
      && forall i :: 0 <= i < |digits| ==> digits[i] in "0123456789"
  }

  lemma LettersAreWords(c: char)
    ensures IsLetter(c) || c in "0123456789" <==> IsWord(c)
    ensures c in "0123456789" <==> IsDigit(c)
    ensures !(IsLetter(c) && IsDigit(c))
  {
  }

  lemma ParamIsPathParam(name: string)
    ensures IsParam(name) <==> IsPathParam(name)
  {
    forall c { LettersAreWords(c); }
    if IsParam(name) {
      var digits := name[5..];
      assert name == "param" + digits;
      assert forall i :: 0 <= i < |digits| ==> digits[i] == name[i + 5];
    }
    if digits :| digits != "" && name == "param" + digits
                  && forall i :: 0 <= i < |digits| ==> digits[i] in "0123456789" {
      assert name[..5] == "param";
      assert forall i :: 5 <= i < |name| ==> name[i] == digits[i - 5];
    }
  }

  lemma IdentifiersAreWords(name: string)
    ensures IsIdentifier(name) <==> name != "" && !IsDigit(name[0]) && forall c :: c in name ==> IsWord(c)
  {
    forall c { LettersAreWords(c); }
    hide IsLetter, IsWord, IsDigit;
    assert forall i :: 0 <= i < |name| ==> name[i] in name;
  }

  lemma InterpolationSpells(s: string, name: string)
    requires Interpolation(s) == Some(name)
    ensures name != "" && !IsDigit(name[0]) && (forall c :: c in name ==> IsWord(c)) && "${" + name + "}" <= s
  {
    hide IsWord, WordRun;
    assert s[..|name| + 3] == "${" + name + "}";
    assert s[2] == name[0];
  }

  /** An interpolation is an identifier in its braces and nothing else. */
  lemma InterpolationIsAnIdentifier(s: string, name: string)
    ensures Interpolation(s) == Some(name) <==> IsIdentifier(name) && "${" + name + "}" <= s
  {
    hide Interpolation, IsIdentifier, IsWord, IsDigit;
    IdentifiersAreWords(name);
    if IsIdentifier(name) && "${" + name + "}" <= s {
      var tail := s[|"${" + name + "}"|..];
      assert s == "${" + name + "}" + tail;
      KeptInterpolation(name, tail);
    }
    if Interpolation(s) == Some(name) {
      InterpolationSpells(s, name);
    }
  }

  /** The first interpolation of a span: a path parameter stays, any other name
      comes back as the verb after a colon; the text before it stays. */
  lemma VerbComesBack(before: string, name: string, tail: string)
    requires '$' !in before && IsIdentifier(name)
    ensures var r := RewriteSpan(before + ("${" + name + "}" + tail));
            && r.text == before + ((if IsPathParam(name) then "${" + name + "}" else ":" + name)
                                   + RewriteSpan(tail).text)
            && r.repaired == RewriteSpan(tail).repaired + (if IsPathParam(name) then 0 else 1)
  {
    var s := "${" + name + "}" + tail;
    ParamIsPathParam(name);
    InterpolationIsAnIdentifier(s, name);
    SkipPlain(before, s);
    assert s[|name| + 3..] == tail;
  }

  // ----- the file -----

  lemma FindAt(p: string, t: string)
    requires BACKTICK !in p
    ensures Find(p + [BACKTICK] + t, BACKTICK) == |p|
  {
    var s := p + [BACKTICK] + t;
    var i := Find(s, BACKTICK);
    assert s[|p|] == BACKTICK;
    assert forall k :: 0 <= k < i ==> s[k] in s[..i];
    assert forall k :: 0 <= k < |p| ==> s[k] == p[k] && p[k] in p;
  }

  lemma PiecesAt(p: string, t: string)
    requires BACKTICK !in p
    ensures Pieces(p + [BACKTICK] + t) == [p] + Pieces(t)
  {
    hide Find;
    FindAt(p, t);
    var s := p + [BACKTICK] + t;
    assert s[..|p|] == p && s[|p| + 1..] == t;
  }

  /** Cutting at backticks loses nothing. */
  lemma {:induction false} JoinPieces(s: string)
    ensures Join(Pieces(s)) == s
    decreases |s|
  {
    hide Find;
    var i := Find(s, BACKTICK);
    if i < |s| {
      JoinPieces(s[i + 1..]);
      assert Pieces(s)[1..] == Pieces(s[i + 1..]);
      assert s == s[..i] + [BACKTICK] + s[i + 1..];
    }
  }

  /** Bad interpolations inside the spans of a cut text. */
  function SpanBadCount(ps: seq<string>): nat {
    if |ps| < 3 then 0 else BadCount(ps[1]) + SpanBadCount(ps[2..])
  }

  /** One paired span and what follows it. */
  function Spanned(a: string, inner: string, tail: string): string {
    a + [BACKTICK] + (inner + [BACKTICK] + tail)
  }

  lemma PiecesOfSpanned(a: string, inner: string, tail: string)
    requires BACKTICK !in a && BACKTICK !in inner
    ensures Pieces(Spanned(a, inner, tail)) == [a, inner] + Pieces(tail)
  {
    hide Pieces;
    PiecesAt(a, inner + [BACKTICK] + tail);
    PiecesAt(inner, tail);
    assert [a] + ([inner] + Pieces(tail)) == [a, inner] + Pieces(tail);
  }

  lemma CutsOfSpanned(a: string, inner: string, tail: string)
    requires BACKTICK !in a && BACKTICK !in inner
    ensures var s := Spanned(a, inner, tail);
            && Find(s, BACKTICK) == |a|
            && s[..|a|] == a
            && var rest := s[|a| + 1..];
               && Find(rest, BACKTICK) == |inner| < |rest|
               && rest[..|inner|] == inner
               && rest[|inner| + 1..] == tail
  {
    var rest := inner + [BACKTICK] + tail;
    FindAt(a, rest);
    FindAt(inner, tail);
    assert Spanned(a, inner, tail)[|a| + 1..] == rest;
  }

  /** The replacement takes one span at a time. */
  lemma FixTakesASpan(a: string, inner: string, tail: string)
    requires BACKTICK !in a && BACKTICK !in inner
    ensures Fix(Spanned(a, inner, tail))
            == Rewritten(Spanned(a, RewriteSpan(inner).text, Fix(tail).text),
                         RewriteSpan(inner).repaired + Fix(tail).repaired)
  {
    hide Find, RewriteSpan;
    CutsOfSpanned(a, inner, tail);
    Regroup(a, RewriteSpan(inner).text, Fix(tail).text);
  }

  lemma Regroup(a: string, b: string, c: string)
    ensures a + [BACKTICK] + b + [BACKTICK] + c == Spanned(a, b, c)
  {
  }

  /** The text is one span and more, or has no paired backtick. */
  lemma FirstSpan(s: string) returns (found: bool, a: string, inner: string, tail: string)
    ensures BACKTICK !in a && BACKTICK !in inner
    ensures found ==> s == Spanned(a, inner, tail) && |tail| < |s|
    ensures !found ==> Fix(s) == Rewritten(s, 0) && |Pieces(s)| <= 2
  {
    hide Find, RewriteSpan;
    found, a, inner, tail := false, "", "", "";
    var i := Find(s, BACKTICK);
    if i < |s| {
      var rest := s[i + 1..];
      var j := Find(rest, BACKTICK);
      if j < |rest| {
        found, a, inner, tail := true, s[..i], rest[..j], rest[j + 1..];
        assert rest == inner + [BACKTICK] + tail;
      } else {
        assert Pieces(rest) == [rest];
      }
    }
  }

  predicate Piecewise(ps: seq<string>, qs: seq<string>) {
    && |qs| == |ps|
    && forall k :: 0 <= k < |ps| ==> qs[k] == if InsideSpan(k, |ps|) then RewriteSpan(ps[k]).text else ps[k]
  }

  lemma PiecewiseGrows(a: string, inner: string, ps: seq<string>, qs: seq<string>)
    requires Piecewise(ps, qs) && ps != []
    ensures Piecewise([a, inner] + ps, [a, RewriteSpan(inner).text] + qs)
  {
    hide RewriteSpan;
    var ps', qs' := [a, inner] + ps, [a, RewriteSpan(inner).text] + qs;
    forall k | 0 <= k < |ps'|
      ensures qs'[k] == if InsideSpan(k, |ps'|) then RewriteSpan(ps'[k]).text else ps'[k]
    {
      if k >= 2 {
        assert InsideSpan(k - 2, |ps|) <==> InsideSpan(k, |ps'|);
        assert ps'[k] == ps[k - 2] && qs'[k] == qs[k - 2];
      }
    }
  }

  /** The exact effect on a file: the same backticks pair the same pieces, each
      piece inside a span is rewritten and every other piece is untouched. */
  lemma {:induction false} FixIsPiecewise(s: string)
    ensures Piecewise(Pieces(s), Pieces(Fix(s).text))
    decreases |s|
  {
    hide Fix, Pieces, RewriteSpan, Spanned;
    var found, a, inner, tail := FirstSpan(s);
    if found {
      FixIsPiecewise(tail);
      RewriteAddsNoBacktick(inner);
      PiecesOfSpanned(a, inner, tail);
      FixTakesASpan(a, inner, tail);
      PiecesOfSpanned(a, RewriteSpan(inner).text, Fix(tail).text);
      PiecewiseGrows(a, inner, Pieces(tail), Pieces(Fix(tail).text));
    }
  }

  /** The count is the number of bad interpolations inside spans. */
  lemma {:induction false} FixCountsBadInterpolations(s: string)
    ensures Fix(s).repaired == SpanBadCount(Pieces(s))
    decreases |s|
  {
    hide Fix, Pieces, RewriteSpan, BadCount, Spanned;
    var found, a, inner, tail := FirstSpan(s);
    if found {
      FixCountsBadInterpolations(tail);
      SpanCounts(inner);
      PiecesOfSpanned(a, inner, tail);
      FixTakesASpan(a, inner, tail);
      assert ([a, inner] + Pieces(tail))[2..] == Pieces(tail);
    }
  }

  /** After one run no span holds a bad interpolation, and each span's path
      parameters are the ones it had, in order. */
  lemma FixLeavesNoBadInterpolation(s: string, k: nat)
    requires InsideSpan(k, |Pieces(s)|)
    ensures |Pieces(Fix(s).text)| == |Pieces(s)|
    ensures var span := Pieces(Fix(s).text)[k];
            && (forall i :: 0 <= i < |span| ==> !IsBad(Interpolation(span[i..])))
            && Params(span) == Params(Pieces(s)[k])
  {
    FixIsPiecewise(s);
    SpanRepaired(Pieces(s)[k]);
    BadCountZero(Pieces(Fix(s).text)[k]);
  }

  /** A second run changes nothing and reports nothing. */
  lemma {:induction false} FixIsIdempotent(s: string)
    ensures Fix(Fix(s).text) == Rewritten(Fix(s).text, 0)
    decreases |s|
  {
    hide Fix, RewriteSpan, Spanned;
    var found, a, inner, tail := FirstSpan(s);
    if found {
      FixIsIdempotent(tail);
      RewriteAddsNoBacktick(inner);
      SpanRepaired(inner);
      FixTakesASpan(a, inner, tail);
      FixTakesASpan(a, RewriteSpan(inner).text, Fix(tail).text);
    }
  }
}
