/** Segment counts of the SMS composer. A string is a sequence of code points. */
module SmsSegments {

  /** The characters the composer's alphabet test admits. Backslash, a GSM
      extension character, is not among them. */
  predicate IsGsm(c: char) {
    || c in "\r\n@£$¥èéùìòÇ"
    || c in "ØøÅåΔ_ΦΓΛΩΠΨ"
    || c in "ΣΘΞÆæßÉ!\"#¤%"
    || c in "&'()*+,./:;<"
    || c in "=>?¡ÄÖÑÜ§¿äö"
    || c in "ñüà^{}[]~|€ -"
    || 'A' <= c <= 'Z' || 'a' <= c <= 'z' || '0' <= c <= '9'
  }

  predicate IsGsmOnly(text: string) {
    forall i :: 0 <= i < |text| ==> IsGsm(text[i])
  }

  function Single(gsm: bool): int { if gsm then 160 else 70 }

  function Multi(gsm: bool): int { if gsm then 153 else 67 }

  function CeilDiv(a: nat, b: nat): nat
    requires b > 0
  {
    (a + b - 1) / b
  }

  function Segments(text: string): (r: (nat, nat))
    ensures text == "" <==> r.0 == 0
  {
    var len := |text|;
    if len == 0 then (0, 0)
    else
      var gsm := IsGsmOnly(text);
      (if len <= Single(gsm) then 1 else CeilDiv(len, Multi(gsm)), Single(gsm))
  }

  /** `n` segments hold `len` characters: one segment its full capacity, each of
      several the concatenation header less. */
  predicate Holds(n: nat, len: nat, gsm: bool) {
    if n == 0 then len == 0
    else if n == 1 then len <= Single(gsm)
    else len <= n * Multi(gsm)
  }

  /** The count is the least number of segments that holds the text. */
  lemma SegmentsIsLeast(text: string, n: nat)
    ensures Holds(Segments(text).0, |text|, IsGsmOnly(text))
    ensures Holds(n, |text|, IsGsmOnly(text)) ==> Segments(text).0 <= n
    ensures text != "" ==> Segments(text).1 == if IsGsmOnly(text) then 160 else 70
  {
  }

  /** Holding is monotone: a longer text in either alphabet needs no fewer. */
  lemma LongerNeedsMore(short: nat, long: nat, gsm: bool, gsm': bool, n: nat)
    requires short <= long && (gsm' ==> gsm) && Holds(n, long, gsm')
    ensures Holds(n, short, gsm)
  {
  }

  /** Appending never lowers the count, the switch to the smaller alphabet
      included. */
  lemma AppendingNeverLowers(text: string, more: string)
    ensures Segments(text).0 <= Segments(text + more).0
    ensures IsGsmOnly(text + more) <==> IsGsmOnly(text) && IsGsmOnly(more)
  {
    hide IsGsm;
    var all := text + more;
    assert forall i :: 0 <= i < |text| ==> all[i] == text[i];
    assert forall i :: 0 <= i < |more| ==> all[|text| + i] == more[i];
    SegmentsIsLeast(all, 0);
    LongerNeedsMore(|text|, |all|, IsGsmOnly(text), IsGsmOnly(all), Segments(all).0);
    SegmentsIsLeast(text, Segments(all).0);
  }

  // ----- the standard's own count -----

  const FORM_FEED: char := '\U{000C}'

  /** The GSM 7 bit default alphabet, by its code table: section 6.2.1 of
      3GPP TS 23.038. */
  predicate InDefaultAlphabet(c: char) {
    || c in "@£$¥èéùìòÇ\nØø\rÅå"
    || c in "Δ_ΦΓΛΩΠΨΣΘΞÆæßÉ"
    || c in " !\"#¤%&'()*+,-./"
    || '0' <= c <= '9' || c in ":;<=>?"
    || c == '¡' || 'A' <= c <= 'Z' || c in "ÄÖÑÜ§"
    || c == '¿' || 'a' <= c <= 'z' || c in "äöñüà"
  }

  /** Its extension table, section 6.2.1.1: an escape and a second septet each. */
  predicate IsExtension(c: char) {
    c == FORM_FEED || c in "^{}\\[~]|€"
  }

  predicate StandardGsm(text: string) {
    forall i :: 0 <= i < |text| ==> InDefaultAlphabet(text[i]) || IsExtension(text[i])
  }

  /** Septets of a character, or its 16-bit units in UCS-2. */
  function Weight(c: char, gsm: bool): (w: nat)
    ensures 1 <= w <= 2
  {
    if gsm then if IsExtension(c) then 2 else 1
    else if c > '\U{FFFF}' then 2 else 1
  }

  function Units(text: string, gsm: bool): (units: nat)
    ensures |text| <= units <= 2 * |text|
  {
    if text == "" then 0 else Units(text[..|text| - 1], gsm) + Weight(text[|text| - 1], gsm)
  }

  function Joined(parts: seq<string>): string {
    if parts == [] then "" else Joined(parts[..|parts| - 1]) + parts[|parts| - 1]
  }

  /** The parts are a message with this text: one segment on its own, or several
      that give up room for the concatenation header. No character is split. */
  predicate Carries(parts: seq<string>, text: string) {
    var gsm := StandardGsm(text);
    && Joined(parts) == text
    && forall i :: 0 <= i < |parts| ==>
         Units(parts[i], gsm) <= if |parts| == 1 then Single(gsm) else Multi(gsm)
  }

  /** Fills one part after the other. */
  function Pack(text: string, gsm: bool): (parts: seq<string>)
    ensures forall i :: 0 <= i < |parts| ==> Units(parts[i], gsm) <= Multi(gsm)
    ensures parts == [] <==> text == ""
  {
    if text == "" then []
    else
      var parts := Pack(text[..|text| - 1], gsm);
      var c := text[|text| - 1];
      var k := |parts| - 1;
      assert Units([c], gsm) == Weight(c, gsm);
      if parts != [] && Units(parts[k], gsm) + Weight(c, gsm) <= Multi(gsm) then
        assert (parts[k] + [c])[..|parts[k]|] == parts[k];
        parts[..k] + [parts[k] + [c]]
      else
        parts + [[c]]
  }

  function StandardCount(text: string): nat {
    var gsm := StandardGsm(text);
    if text == "" then 0 else if Units(text, gsm) <= Single(gsm) then 1 else |Pack(text, gsm)|
  }

  lemma {:induction false} PackJoins(text: string, gsm: bool)
    ensures Joined(Pack(text, gsm)) == text
    ensures forall i :: 0 <= i < |Pack(text, gsm)| ==> Units(Pack(text, gsm)[i], gsm) <= Multi(gsm)
  {
    hide Weight, IsExtension, InDefaultAlphabet, IsGsm, Units;
    if text != "" {
      var front := text[..|text| - 1];
      PackJoins(front, gsm);
      var parts := Pack(text, gsm);
      var was := Pack(front, gsm);
      assert text == front + [text[|text| - 1]];
      if |parts| == |was| {
        assert parts[..|parts| - 1] == was[..|was| - 1];
      } else {
        assert parts[..|parts| - 1] == was;
      }
    }
  }

  /** No way to place the characters in order gets by with fewer parts than
      filling one after the other, nor with as many and a shorter last one. */
  lemma {:induction false} PackIsLeast(parts: seq<string>, text: string, gsm: bool)
    requires Joined(parts) == text
    requires forall i :: 0 <= i < |parts| ==> Units(parts[i], gsm) <= Multi(gsm)
    ensures var packed := Pack(text, gsm);
            && |packed| <= |parts|
            && (|packed| == |parts| && parts != [] ==>
                  Units(packed[|packed| - 1], gsm) <= Units(parts[|parts| - 1], gsm))
    decreases |parts| + |text|
  {
    hide Weight, IsExtension, InDefaultAlphabet, IsGsm;
    if parts != [] {
      var k := |parts| - 1;
      var last := parts[k];
      if last == "" {
        PackIsLeast(parts[..k], text, gsm);
      } else {
        var x := last[..|last| - 1];
        var c := last[|last| - 1];
        assert last == x + [c];
        var shorter := parts[..k] + [x];
        assert shorter[..k] == parts[..k];
        assert text == Joined(parts[..k]) + x + [c];
        assert text[..|text| - 1] == Joined(parts[..k]) + x == Joined(shorter);
        PackIsLeast(shorter, text[..|text| - 1], gsm);
        PackGrows(text, gsm);
      }
    }
  }

  /** One more character lengthens the last part or opens another. */
  lemma PackGrows(text: string, gsm: bool)
    requires text != ""
    ensures var c := text[|text| - 1];
            var was := Pack(text[..|text| - 1], gsm);
            var now := Pack(text, gsm);
            var fits := was != [] && Units(was[|was| - 1], gsm) + Weight(c, gsm) <= Multi(gsm);
            && |now| == (if fits then |was| else |was| + 1)
            && Units(now[|now| - 1], gsm) == (if fits then Units(was[|was| - 1], gsm) else 0) + Weight(c, gsm)
  {
    hide Weight, IsExtension, InDefaultAlphabet, IsGsm;
    var c := text[|text| - 1];
    var was := Pack(text[..|text| - 1], gsm);
    if was != [] {
      var longer := was[|was| - 1] + [c];
      assert longer[..|longer| - 1] == was[|was| - 1];
    }
    assert [c][..0] == "";
    assert Units([c], gsm) == Weight(c, gsm);
  }

  predicate OneUnitEach(text: string, gsm: bool) {
    forall i :: 0 <= i < |text| ==> Weight(text[i], gsm) == 1
  }

  lemma {:induction false} UnitsOfPlain(text: string, gsm: bool)
    ensures Units(text, gsm) == |text| <==> OneUnitEach(text, gsm)
  {
    if text != "" {
      UnitsOfPlain(text[..|text| - 1], gsm);
      assert text == text[..|text| - 1] + [text[|text| - 1]];
    }
  }

  lemma UnitsGrow(text: string, gsm: bool)
    requires text != ""
    ensures Units(text, gsm) == Units(text[..|text| - 1], gsm) + Weight(text[|text| - 1], gsm)
  {
  }

  /** The units of the last part filled, 0 for the empty text. */
  function LastUnits(text: string, gsm: bool): nat {
    var parts := Pack(text, gsm);
    if parts == [] then 0 else Units(parts[|parts| - 1], gsm)
  }

  /** A part before the last misses at most one unit, and none if every
      character takes one. */
  lemma {:induction false} PackWastesLittle(text: string, gsm: bool)
    requires text != ""
    ensures var n := |Pack(text, gsm)|;
            var last := LastUnits(text, gsm);
            && 1 <= n && 1 <= last <= Multi(gsm)
            && (gsm ==> 152 * (n - 1) + last <= Units(text, gsm) <= 153 * (n - 1) + last)
            && (!gsm ==> 66 * (n - 1) + last <= Units(text, gsm) <= 67 * (n - 1) + last)
            && (OneUnitEach(text, gsm) ==> Units(text, gsm) == (if gsm then 153 else 67) * (n - 1) + last)
  {
    hide Units, Pack, Weight, IsExtension, InDefaultAlphabet, IsGsm;
    PackGrows(text, gsm);
    UnitsGrow(text, gsm);
    var front := text[..|text| - 1];
    if front != "" {
      PackWastesLittle(front, gsm);
      assert OneUnitEach(text, gsm) ==> OneUnitEach(front, gsm);
      assert OneUnitEach(text, gsm) ==> Weight(text[|text| - 1], gsm) == 1;
    } else {
      assert Pack(front, gsm) == [];
      assert Units(front, gsm) == 0;
    }
  }

  /** The units a text takes when its parts are laid end to end: a character
      of two units that comes to the last unit of a part leaves it empty. */
  function Laid(text: string, gsm: bool): nat {
    if text == "" then 0
    else
      var before := Laid(text[..|text| - 1], gsm);
      var w := Weight(text[|text| - 1], gsm);
      before + (if w == 2 && before % Multi(gsm) == Multi(gsm) - 1 then 1 else 0) + w
  }

  lemma LaidGrows(text: string, gsm: bool)
    requires text != ""
    ensures var before := Laid(text[..|text| - 1], gsm);
            var w := Weight(text[|text| - 1], gsm);
            Laid(text, gsm) == before + (if w == 2 && before % Multi(gsm) == Multi(gsm) - 1 then 1 else 0) + w
  {
  }

  /** A two-unit character does not fit the last part exactly when one unit of
      it is left. */
  lemma LaidInParts(gsm: bool, before: int, n: nat, last: nat, w: nat)
    requires n >= 1 && 1 <= last <= Multi(gsm) && 1 <= w <= 2
    requires before == (if gsm then 153 else 67) * (n - 1) + last
    ensures var gap := if w == 2 && before % Multi(gsm) == Multi(gsm) - 1 then 1 else 0;
            if last + w <= Multi(gsm) then gap == 0
            else before + gap == (if gsm then 153 else 67) * n
  {
  }

  /** Filling one part after the other leaves exactly those units empty. */
  lemma {:induction false} PackIsLaid(text: string, gsm: bool)
    requires text != ""
    ensures var n := |Pack(text, gsm)|;
            var last := LastUnits(text, gsm);
            && 1 <= n && 1 <= last <= Multi(gsm)
            && Laid(text, gsm) == (if gsm then 153 else 67) * (n - 1) + last
            && Units(text, gsm) <= Laid(text, gsm)
  {
    hide Units, Pack, Laid, Weight, IsExtension, InDefaultAlphabet, IsGsm;
    PackGrows(text, gsm);
    UnitsGrow(text, gsm);
    LaidGrows(text, gsm);
    var front := text[..|text| - 1];
    var w := Weight(text[|text| - 1], gsm);
    if front != "" {
      PackIsLaid(front, gsm);
      LaidInParts(gsm, Laid(front, gsm), |Pack(front, gsm)|, LastUnits(front, gsm), w);
    } else {
      NothingIsLaid(gsm);
    }
  }

  lemma NothingIsLaid(gsm: bool)
    ensures Pack("", gsm) == [] && Units("", gsm) == Laid("", gsm) == 0
  {
  }

  /** A message of the standard's count. */
  function Best(text: string): seq<string> {
    var gsm := StandardGsm(text);
    if text == "" then [] else if Units(text, gsm) <= Single(gsm) then [text] else Pack(text, gsm)
  }

  lemma BestCarries(text: string)
    ensures Carries(Best(text), text) && |Best(text)| == StandardCount(text)
  {
    hide StandardGsm, Weight, Pack, IsExtension, Units;
    var gsm := StandardGsm(text);
    if text == "" {
      assert Joined([]) == "";
    } else if Units(text, gsm) <= Single(gsm) {
      var best := [text];
      assert best[..0] == [] && Joined(best[..0]) == "";
      assert Joined(best) == "" + text == text;
    } else {
      PackJoins(text, gsm);
      PackWastesLittle(text, gsm);
    }
  }

  /** The standard's count is the least number of parts a message with this
      text can have. */
  lemma StandardCountIsLeast(text: string, parts: seq<string>)
    ensures Carries(parts, text) ==> StandardCount(text) <= |parts|
    ensures exists best :: Carries(best, text) && |best| == StandardCount(text)
  {
    hide StandardGsm, Weight, Pack, IsExtension, Units;
    var gsm := StandardGsm(text);
    if Carries(parts, text) {
      if |parts| == 1 {
        assert parts[..0] == [] && Joined(parts[..0]) == "";
        assert Joined(parts) == "" + parts[0] == parts[0];
      } else if parts != [] {
        PackIsLeast(parts, text, gsm);
      }
    }
    BestCarries(text);
  }

  /** The composer's alphabet test differs from the standard's on backslash and
      form feed alone. */
  lemma AlphabetTestIsStandardUnlessEscaped(text: string)
    ensures IsGsmOnly(text) ==> StandardGsm(text)
    ensures IsGsmOnly(text) != StandardGsm(text) <==> StandardGsm(text) && ('\\' in text || FORM_FEED in text)
  {
    forall c: char
      ensures IsGsm(c) <==> (InDefaultAlphabet(c) || IsExtension(c)) && c != '\\' && c != FORM_FEED
    {
      TableByTable(c);
    }
    hide IsGsm, InDefaultAlphabet, IsExtension;
  }

  lemma TableByTable(c: char)
    ensures IsGsm(c) <==> (InDefaultAlphabet(c) || IsExtension(c)) && c != '\\' && c != FORM_FEED
  {
  }

  // ----- where the composer's count is the standard's -----

  /** The composer's alphabet is the standard's for this text. */
  predicate SameAlphabet(text: string) {
    !StandardGsm(text) || ('\\' !in text && FORM_FEED !in text)
  }

  /** The count is the standard's for every text whose characters take one unit
      each and whose alphabet the composer gets right. */
  lemma PlainCountIsTheStandards(text: string)
    requires SameAlphabet(text) && OneUnitEach(text, StandardGsm(text))
    ensures Segments(text).0 == StandardCount(text)
  {
    hide StandardGsm, IsGsmOnly, Weight, Pack, IsExtension, Units;
    var gsm := StandardGsm(text);
    AlphabetTestIsStandardUnlessEscaped(text);
    UnitsOfPlain(text, gsm);
    if text != "" {
      PackWastesLittle(text, gsm);
    }
  }

  /** The standard's count by arithmetic on the text alone. */
  lemma StandardCountIsLaid(text: string)
    ensures var gsm := StandardGsm(text);
            StandardCount(text)
            == if Units(text, gsm) <= Single(gsm) then (if text == "" then 0 else 1)
               else CeilDiv(Laid(text, gsm), Multi(gsm))
  {
    hide StandardGsm, Weight, Pack, IsExtension, Units, Laid;
    var gsm := StandardGsm(text);
    if text != "" {
      PackIsLaid(text, gsm);
    } else {
      UnitsAtLeastLength(text, gsm);
    }
  }

  /** In the right alphabet the composer never counts too many. A single part
      is counted right exactly when its units fit; several, exactly when the
      units, with one more for each character kept from being split, fit the
      parts counted. */
  lemma DoubledCharactersCountOnce(text: string)
    requires SameAlphabet(text)
    ensures var gsm := StandardGsm(text);
            var count := Segments(text).0;
            && count <= StandardCount(text)
            && (|text| <= Single(gsm) ==> (count == StandardCount(text) <==> Units(text, gsm) <= Single(gsm)))
            && (|text| > Single(gsm) ==>
                  && (count == StandardCount(text) <==> Laid(text, gsm) <= (if gsm then 153 else 67) * count)
                  && (count == StandardCount(text) ==> Units(text, gsm) <= (if gsm then 153 else 67) * count)
                  && (Units(text, gsm) <= (if gsm then 152 else 66) * count ==> count == StandardCount(text)))
  {
    hide StandardGsm, IsGsmOnly, Weight, Pack, IsExtension, Units, Laid;
    var gsm := StandardGsm(text);
    AlphabetTestIsStandardUnlessEscaped(text);
    UnitsAtLeastLength(text, gsm);
    if text != "" {
      PackWastesLittle(text, gsm);
      PackIsLaid(text, gsm);
    }
  }

  lemma UnitsAtLeastLength(text: string, gsm: bool)
    ensures |text| <= Units(text, gsm) <= 2 * |text|
  {
  }

  /** A backslash or form feed in an otherwise GSM text is taken for UCS-2. The
      composer then never counts too few. Up to 70 characters it is right; a
      longer text that fits one GSM part is always counted too high; beyond
      that, the count is right exactly when the units, with one more for each
      character kept from being split, exceed one part less. */
  lemma EscapedCountsAsUcs2(text: string)
    requires !SameAlphabet(text)
    ensures var count := Segments(text).0;
            && StandardCount(text) <= count
            && (|text| <= 70 ==> StandardCount(text) == count == 1)
            && (|text| > 70 && Units(text, true) <= 160 ==> StandardCount(text) == 1 < count)
            && (Units(text, true) > 160 ==>
                  && (StandardCount(text) == count <==> Laid(text, true) > 153 * (count - 1))
                  && (Units(text, true) > 153 * (count - 1) ==> StandardCount(text) == count)
                  && (Units(text, true) <= 152 * (count - 1) ==> StandardCount(text) < count))
  {
    hide StandardGsm, IsGsmOnly, Weight, Pack, IsExtension, Units, Laid;
    AlphabetTestIsStandardUnlessEscaped(text);
    UnitsAtLeastLength(text, true);
    PackWastesLittle(text, true);
    PackIsLaid(text, true);
  }

  /** 70 letters and a backslash: two segments counted, one needed. */
  lemma BackslashCountsTooMany()
    ensures exists text :: |text| == 71 && text[70] == '\\' && Segments(text).0 == 2 && StandardCount(text) == 1
  {
    var letters := seq(70, i => 'a');
    var text := letters + ['\\'];
    assert text[70] == '\\';
    UnitsOfPlain(letters, true);
    assert text[..70] == letters;
    assert StandardGsm(text);
    UnitsGrow(text, true);
    hide StandardGsm, IsGsmOnly, Weight, Pack, IsExtension, Units;
    EscapedCountsAsUcs2(text);
  }

  /** 159 letters and a euro sign: one segment counted, two needed. */
  lemma EuroCountsTooFew()
    ensures exists text :: |text| == 160 && text[159] == '€' && Segments(text).0 == 1 && StandardCount(text) == 2
  {
    var letters := seq(159, i => 'a');
    var text := letters + ['€'];
    UnitsOfPlain(letters, true);
    assert text[..159] == letters && text[159] == '€';
    assert StandardGsm(text) && SameAlphabet(text);
    UnitsGrow(text, true);
    hide StandardGsm, IsGsmOnly, Weight, Pack, IsExtension, Units;
    AlphabetTestIsStandardUnlessEscaped(text);
    PackWastesLittle(text, true);
  }
}
