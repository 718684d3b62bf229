/**
 Shop slugs: from a display name to a URL-safe base, and from a base to one nobody else has.

 Lower-casing, Unicode decomposition and the digest of a name are parameters.
 */
module Slug {
  import opened Characters
  import opened Wrappers
  import opened Decimals

  const MAX_LENGTH := 100
  const MAX_ATTEMPTS := 50

  // ---------------------------------------------------------------- characters

  predicate Alnum(c: char) {
    'a' <= c <= 'z' || '0' <= c <= '9'
  }

  predicate SlugChar(c: char) {
    Alnum(c) || c == '-'
  }

  ghost predicate All(text: string, test: char -> bool) {
    forall i :: 0 <= i < |text| ==> test(text[i])
  }

  ghost predicate NoDoubleDash(text: string) {
    forall i :: 0 < i < |text| ==> text[i - 1] != '-' || text[i] != '-'
  }

  /** Letters, digits and single dashes between them. */
  ghost predicate Dashed(text: string) {
    && text != []
    && All(text, SlugChar)
    && NoDoubleDash(text)
    && text[0] != '-' && text[|text| - 1] != '-'
  }

  ghost predicate IsSlug(text: string) {
    Dashed(text) && 2 <= |text| <= MAX_LENGTH
  }

  // ---------------------------------------------------------------- slugify_shop_name

  function TrimLeft(text: string, test: char -> bool): string {
    if text != [] && test(text[0]) then TrimLeft(text[1..], test) else text
  }

  function TrimRight(text: string, test: char -> bool): string {
    if text != [] && test(text[|text| - 1]) then TrimRight(text[..|text| - 1], test) else text
  }

  function Trim(text: string, test: char -> bool): string {
    TrimRight(TrimLeft(text, test), test)
  }

  predicate Dash(c: char) { c == '-' }

  function Keep(text: string): string {
    if text == [] then [] else
      var rest := Keep(text[..|text| - 1]);
      var c := text[|text| - 1];
      if Alnum(c) || Space(c) || c == '-' then rest + [c] else rest
  }

  /** Each run of characters that pass the test becomes one dash. */
  function RunsToDash(text: string, test: char -> bool): string {
    if text == [] then [] else
      var front, c := text[..|text| - 1], text[|text| - 1];
      RunsToDash(front, test)
      + if !test(c) then [c] else if front != [] && test(front[|front| - 1]) then [] else "-"
  }

  function Cleaned(folded: string): string {
    Trim(RunsToDash(RunsToDash(Keep(folded), Space), Dash), Dash)
  }

  function Cut(text: string): string {
    if |text| <= MAX_LENGTH then text else text[..MAX_LENGTH]
  }

  function Slugify(name: string, fold: string -> string, digest: string -> string): string {
    var raw := Trim(name, Space);
    if raw == "" then "shop" else
      var cleaned := Cleaned(fold(raw));
      var long := if |cleaned| < 2 then "shop-" + digest(raw) else cleaned;
      var cut := TrimRight(Cut(long), Dash);
      if cut == "" then "shop" else cut
  }

  /** Digests are eight hexadecimal digits. */
  ghost predicate IsDigest(digest: string -> string) {
    forall text :: |digest(text)| == 8 && All(digest(text), Alnum)
  }

  /** Lower-casing and decomposing change nothing in plain lower-case text. */
  ghost predicate KeepsSlugs(fold: string -> string) {
    forall text :: All(text, SlugChar) ==> fold(text) == text
  }

  lemma {:induction false} TrimLeftSuffix(text: string, test: char -> bool)
    ensures exists k :: 0 <= k <= |text| && TrimLeft(text, test) == text[k..]
    ensures TrimLeft(text, test) != [] ==> !test(TrimLeft(text, test)[0])
  {
    if text != [] && test(text[0]) {
      TrimLeftSuffix(text[1..], test);
      var k :| 0 <= k <= |text| - 1 && TrimLeft(text[1..], test) == text[1..][k..];
      assert text[1..][k..] == text[k + 1..];
    } else {
      assert text[0..] == text;
    }
  }

  lemma {:induction false} TrimRightPrefix(text: string, test: char -> bool)
    ensures TrimRight(text, test) <= text
    ensures TrimRight(text, test) != [] ==> !test(TrimRight(text, test)[|TrimRight(text, test)| - 1])
    ensures text != [] && !test(text[0]) ==> TrimRight(text, test) != []
  {
    if text != [] && test(text[|text| - 1]) {
      TrimRightPrefix(text[..|text| - 1], test);
    }
  }

  lemma {:induction false} KeptChars(text: string)
    ensures forall i :: 0 <= i < |Keep(text)| ==> SlugChar(Keep(text)[i]) || Space(Keep(text)[i])
  {
    if text != [] { KeptChars(text[..|text| - 1]); }
  }

  lemma {:induction false} RunsChars(text: string, test: char -> bool)
    requires forall i :: 0 <= i < |text| ==> SlugChar(text[i]) || test(text[i])
    ensures All(RunsToDash(text, test), SlugChar)
  {
    if text != [] { RunsChars(text[..|text| - 1], test); }
  }

  lemma {:induction false} RunsOfDashes(text: string)
    ensures NoDoubleDash(RunsToDash(text, Dash))
    ensures text != [] ==> RunsToDash(text, Dash) != []
    ensures text != [] ==> RunsToDash(text, Dash)[|RunsToDash(text, Dash)| - 1] == text[|text| - 1]
  {
    if text != [] { RunsOfDashes(text[..|text| - 1]); }
  }

  lemma CleanedIsDashed(folded: string)
    ensures Cleaned(folded) == [] || Dashed(Cleaned(folded))
  {
    var kept := Keep(folded);
    var spaced := RunsToDash(kept, Space);
    var single := RunsToDash(spaced, Dash);
    KeptChars(folded);
    RunsChars(kept, Space);
    RunsChars(spaced, Dash);
    RunsOfDashes(spaced);
    TrimLeftSuffix(single, Dash);
    var left := TrimLeft(single, Dash);
    TrimRightPrefix(left, Dash);
  }

  lemma CutIsSlug(text: string)
    requires Dashed(text) && |text| >= 2
    ensures IsSlug(TrimRight(Cut(text), Dash))
  {
    var cut := Cut(text);
    TrimRightPrefix(cut, Dash);
    if |text| > MAX_LENGTH {
      assert cut[MAX_LENGTH - 1] == '-' ==> cut[MAX_LENGTH - 2] != '-';
      TrimmedOnce(cut);
    } else {
      assert TrimRight(cut, Dash) == cut;
    }
  }

  /** Where dashes stand alone, at most one comes off. */
  lemma TrimmedOnce(text: string)
    requires |text| >= 2 && (Dash(text[|text| - 1]) ==> !Dash(text[|text| - 2]))
    ensures |TrimRight(text, Dash)| >= |text| - 1
  {
  }

  /** Every name, in any script, gets a slug of letters, digits and single inner dashes, 2 to 100 long. */
  lemma SlugifyIsSlug(name: string, fold: string -> string, digest: string -> string)
    requires IsDigest(digest)
    ensures IsSlug(Slugify(name, fold, digest))
  {
    var raw := Trim(name, Space);
    if raw != "" {
      var cleaned := Cleaned(fold(raw));
      CleanedIsDashed(fold(raw));
      if |cleaned| < 2 {
        HashedNameIsDashed(digest(raw));
        CutIsSlug("shop-" + digest(raw));
      } else {
        CutIsSlug(cleaned);
      }
    }
  }

  lemma HashedNameIsDashed(hash: string)
    requires |hash| == 8 && All(hash, Alnum)
    ensures Dashed("shop-" + hash)
  {
    var text := "shop-" + hash;
    forall i | 0 <= i < |text|
      ensures SlugChar(text[i]) && (i > 4 ==> text[i] != '-')
    {
      assert i > 4 ==> text[i] == hash[i - 5] && Alnum(hash[i - 5]);
    }
  }

  // ---------------------------------------------------------------- whose slug it is

  /** Would a letter put behind this text begin a word?  What is neither letter, digit, space nor dash ends none. */
  predicate AtGap(text: string) {
    if text == [] then true
    else
      var c := text[|text| - 1];
      Space(c) || c == '-' || (!Alnum(c) && AtGap(text[..|text| - 1]))
  }

  /** The runs of letters and digits that spaces and dashes leave, all other characters taken out. */
  function Words(text: string): (words: seq<string>)
    ensures !AtGap(text) ==> words != []
  {
    if text == [] then []
    else
      var front, c := text[..|text| - 1], text[|text| - 1];
      var before := Words(front);
      if !Alnum(c) then before
      else if AtGap(front) then before + [[c]]
      else before[..|before| - 1] + [before[|before| - 1] + [c]]
  }

  ghost predicate AllWords(words: seq<string>) {
    forall i :: 0 <= i < |words| ==> words[i] != "" && All(words[i], Alnum)
  }

  lemma {:induction false} WordsAreWords(text: string)
    ensures AllWords(Words(text))
  {
    if text != [] { WordsAreWords(text[..|text| - 1]); }
  }

  function Join(words: seq<string>, separator: string): string {
    if words == [] then ""
    else if |words| == 1 then words[0]
    else Join(words[..|words| - 1], separator) + separator + words[|words| - 1]
  }

  /** The text with runs of spaces and dashes made one dash, before dashes at its ends are taken off. */
  function Single(text: string): string {
    RunsToDash(RunsToDash(Keep(text), Space), Dash)
  }

  predicate EndsInDash(text: string) {
    text != [] && text[|text| - 1] == '-'
  }

  lemma {:induction false} RunEndsInDash(text: string, test: char -> bool)
    requires text != [] && test(text[|text| - 1])
    ensures EndsInDash(RunsToDash(text, test))
  {
    var front := text[..|text| - 1];
    if front != [] && test(front[|front| - 1]) { RunEndsInDash(front, test); }
  }

  lemma {:induction false} KeepSnoc(text: string, c: char)
    ensures Keep(text + [c]) == Keep(text) + if Alnum(c) || Space(c) || c == '-' then [c] else []
  {
    assert (text + [c])[..|text|] == text;
  }

  lemma {:induction false} RunsSnoc(text: string, c: char, test: char -> bool)
    ensures RunsToDash(text + [c], test) ==
            RunsToDash(text, test)
            + if !test(c) then [c] else if text != [] && test(text[|text| - 1]) then [] else "-"
  {
    assert (text + [c])[..|text|] == text;
  }

  /** One more dash, in a text whose runs of dashes become one, counts only where none is before it. */
  lemma DashSnoc(text: string)
    ensures var single := RunsToDash(text, Dash);
            && (EndsInDash(text) <==> EndsInDash(single))
            && RunsToDash(text + "-", Dash) == if EndsInDash(single) then single else single + "-"
  {
    RunsOfDashes(text);
    RunsSnoc(text, '-', Dash);
    assert text == [] ==> RunsToDash(text, Dash) == [];
  }

  lemma LetterSnoc(text: string, c: char)
    requires Alnum(c)
    ensures Single(text + [c]) == Single(text) + [c]
  {
    KeepSnoc(text, c);
    RunsSnoc(Keep(text), c, Space);
    RunsSnoc(RunsToDash(Keep(text), Space), c, Dash);
  }

  lemma GapSnoc(text: string, c: char)
    requires Space(c) || c == '-'
    ensures Single(text + [c]) == if EndsInDash(Single(text)) then Single(text) else Single(text) + "-"
  {
    hide Keep;
    hide RunsToDash;
    var kept := Keep(text);
    KeepSnoc(text, c);
    var spaced := RunsToDash(kept, Space);
    DashSnoc(spaced);
    RunsSnoc(kept, c, Space);
    assert RunsToDash(kept + [c], Space) == spaced + "-" || RunsToDash(kept + [c], Space) == spaced;
    if kept != [] && Space(kept[|kept| - 1]) { RunEndsInDash(kept, Space); }
  }

  /** One more character: a letter or digit stays, a space or dash leaves a dash unless there is one, the rest goes. */
  lemma SingleSnoc(text: string, c: char)
    ensures Single(text + [c]) ==
            if Alnum(c) then Single(text) + [c]
            else if (Space(c) || c == '-') && !EndsInDash(Single(text)) then Single(text) + "-"
            else Single(text)
  {
    hide RunsToDash;
    hide Keep;
    hide Space;
    if Alnum(c) {
      LetterSnoc(text, c);
    } else if Space(c) || c == '-' {
      GapSnoc(text, c);
    } else {
      KeepSnoc(text, c);
      assert Keep(text) + [] == Keep(text);
    }
  }

  lemma WordsSnoc(text: string, c: char)
    ensures !AtGap(text) ==> Words(text) != []
    ensures Words(text + [c]) ==
            if !Alnum(c) then Words(text)
            else if AtGap(text) then Words(text) + [[c]]
            else Extended(Words(text), c)
    ensures AtGap(text + [c]) <==> Space(c) || c == '-' || (!Alnum(c) && AtGap(text))
  {
    assert (text + [c])[..|text|] == text;
  }

  /** The last word with one more character. */
  function Extended(words: seq<string>, c: char): seq<string> {
    if words == [] then [[c]] else words[..|words| - 1] + [words[|words| - 1] + [c]]
  }

  /** A text that is these words joined by dashes, behind a dash perhaps, and before one if a gap follows. */
  predicate IsJoined(single: string, words: seq<string>, lead: string, gap: bool) {
    && single == (if words == [] then lead else lead + Join(words, "-") + if gap then "-" else "")
    && (gap <==> single == "" || EndsInDash(single))
  }

  lemma LetterJoins(single: string, words: seq<string>, lead: string, gap: bool, c: char)
    requires IsJoined(single, words, lead, gap) && (words == [] ==> gap) && c != '-'
    ensures IsJoined(single + [c], if gap then words + [[c]] else Extended(words, c), lead, false)
  {
    hide Join;
    JoinSnoc(words, [c], "-");
    if !gap {
      JoinExtends(words, c, "-");
      assert lead + (Join(words, "-") + [c]) == lead + Join(words, "-") + [c];
    } else if words != [] {
      assert lead + (Join(words, "-") + "-" + [c]) == lead + Join(words, "-") + "-" + [c];
    }
  }

  lemma GapJoins(single: string, words: seq<string>, lead: string, gap: bool)
    requires IsJoined(single, words, lead, gap) && (words == [] ==> gap) && (lead == "" || lead == "-")
    ensures var single' := if EndsInDash(single) then single else single + "-";
            IsJoined(single', words, if words == [] then "-" else lead, true)
  {
    hide Join;
  }

  /** The cleaned text is its words joined by dashes, with a dash at an end where a space or dash was. */
  lemma {:induction false} SingleIsJoined(text: string) returns (lead: string)
    ensures lead == "" || lead == "-"
    ensures IsJoined(Single(text), Words(text), lead, AtGap(text))
  {
    if text == [] {
      lead := "";
    } else {
      var front, c := text[..|text| - 1], text[|text| - 1];
      assert text == front + [c];
      lead := SingleIsJoined(front);
      assert Alnum(c) ==> !Space(c) && c != '-';
      hide Space;
      hide Alnum;
      hide Single;
      hide Words;
      hide AtGap;
      hide IsJoined;
      SingleSnoc(front, c);
      WordsSnoc(front, c);
      if Alnum(c) {
        LetterJoins(Single(front), Words(front), lead, AtGap(front), c);
      } else if Space(c) || c == '-' {
        GapJoins(Single(front), Words(front), lead, AtGap(front));
        if Words(front) == [] { lead := "-"; }
      }
    }
  }

  lemma JoinSnoc(words: seq<string>, word: string, separator: string)
    ensures Join(words + [word], separator) ==
            if words == [] then word else Join(words, separator) + separator + word
  {
    assert (words + [word])[..|words|] == words;
  }

  lemma JoinExtends(words: seq<string>, c: char, separator: string)
    requires words != []
    ensures Join(Extended(words, c), separator) == Join(words, separator) + [c]
  {
    var front, last := words[..|words| - 1], words[|words| - 1];
    JoinSnoc(front, last, separator);
    JoinSnoc(front, last + [c], separator);
    assert words == front + [last];
  }

  /** What comes off at the ends is what passes the test, and nothing more. */
  lemma {:induction false} TrimTakesOff(left: string, middle: string, right: string, test: char -> bool)
    requires (forall i :: 0 <= i < |left| ==> test(left[i])) && forall i :: 0 <= i < |right| ==> test(right[i])
    requires middle != [] ==> !test(middle[0]) && !test(middle[|middle| - 1])
    ensures Trim(left + middle + right, test) == middle
    decreases |left| + |right|
  {
    var text := left + middle + right;
    if left != [] {
      assert text[1..] == left[1..] + middle + right && text[0] == left[0];
      TrimTakesOff(left[1..], middle, right, test);
    } else if right != [] {
      assert text[..|text| - 1] == left + middle + right[..|right| - 1] && text[|text| - 1] == right[|right| - 1];
      if middle == [] {
        assert text == right && text[1..] == right[1..] && right[1..] == [] + [] + right[1..];
        TrimTakesOff([], [], right[1..], test);
      } else {
        assert text[0] == middle[0];
        TrimTakesOff(left, middle, right[..|right| - 1], test);
      }
    } else {
      assert text == middle;
    }
  }

  lemma {:induction false} JoinedEnds(words: seq<string>)
    requires words != []
    requires AllWords(words)
    ensures var text := Join(words, "-"); text != [] && text[0] != '-' && text[|text| - 1] != '-'
  {
    assert words[0] != "" && words[|words| - 1] != "";
    if |words| > 1 { JoinedEnds(words[..|words| - 1]); }
  }

  lemma CleanedJoinsTheWords(folded: string)
    ensures Cleaned(folded) == Join(Words(folded), "-")
  {
    var words := Words(folded);
    var lead := SingleIsJoined(folded);
    if words == [] {
      TrimTakesOff(lead, "", "", Dash);
      assert lead + "" + "" == Single(folded);
    } else {
      WordsAreWords(folded);
      JoinedEnds(words);
      TrimTakesOff(lead, Join(words, "-"), if AtGap(folded) then "-" else "", Dash);
    }
  }

  /**
   The slug of a name is its words, in order, joined by single dashes: cut to a hundred characters and a dash left at
   the cut taken off; a name with nothing to say is "shop", one with less than two characters to say is told by its
   digest.
   */
  lemma SlugifyJoinsTheWords(left: string, raw: string, right: string, fold: string -> string, digest: string -> string)
    requires (forall i :: 0 <= i < |left| ==> Space(left[i])) && forall i :: 0 <= i < |right| ==> Space(right[i])
    requires raw != [] ==> !Space(raw[0]) && !Space(raw[|raw| - 1])
    requires IsDigest(digest)
    ensures var slug, text := Slugify(left + raw + right, fold, digest), Join(Words(fold(raw)), "-");
            && (raw == "" ==> slug == "shop")
            && (raw != "" && |text| < 2 ==> slug == "shop-" + digest(raw))
            && (raw != "" && 2 <= |text| <= 100 ==> slug == text)
            && (raw != "" && |text| > 100 ==> slug == if text[99] == '-' then text[..99] else text[..100])
  {
    hide Words;
    hide Join;
    hide Cleaned;
    hide TrimLeft;
    hide TrimRight;
    var text := Join(Words(fold(raw)), "-");
    TrimTakesOff(left, raw, right, Space);
    CleanedJoinsTheWords(fold(raw));
    CleanedIsDashed(fold(raw));
    if |text| < 2 {
      HashedNameIsDashed(digest(raw));
      NoDashAtTheCut("shop-" + digest(raw), 13);
      assert ("shop-" + digest(raw))[..13] == "shop-" + digest(raw);
    } else if |text| > 100 {
      NoDashAtTheCut(text, 100);
    } else {
      NoDashAtTheCut(text, |text|);
      assert text[..|text|] == text;
    }
  }

  /** Where dashes stand alone, cutting leaves one to take off or none. */
  lemma NoDashAtTheCut(text: string, length: nat)
    requires NoDoubleDash(text) && 2 <= length <= |text|
    ensures TrimRight(text[..length], Dash) == if text[length - 1] == '-' then text[..length - 1] else text[..length]
  {
    var cut := text[..length];
    assert cut[length - 1] == text[length - 1] && cut[length - 2] == text[length - 2];
    if cut[length - 1] == '-' {
      assert cut[..length - 1] == text[..length - 1] && !Dash(cut[length - 2]);
      assert TrimRight(cut[..length - 1], Dash) == cut[..length - 1];
    }
  }

  /** The letters and digits that count, one by one. */
  lemma LettersAndDigitsCount(c: char)
    ensures Words([c]) == if 'a' <= c <= 'z' || '0' <= c <= '9' then [[c]] else []
  {
    WordsSnoc("", c);
    assert "" + [c] == [c];
  }

  /** Words with single spaces between them are read as those words. */
  lemma {:induction false} WordsOfJoined(words: seq<string>)
    requires AllWords(words)
    ensures Words(Join(words, " ")) == words
    ensures words != [] ==> !AtGap(Join(words, " "))
  {
    if words != [] {
      var front, last := words[..|words| - 1], words[|words| - 1];
      assert words == front + [last];
      WordsOfJoined(front);
      if |words| == 1 {
        OneMoreWord("", last);
        assert "" + last == last;
      } else {
        assert (Join(front, " ") + " ")[..|Join(front, " ")|] == Join(front, " ");
        OneMoreWord(Join(front, " ") + " ", last);
        assert Join(words, " ") == Join(front, " ") + " " + last;
      }
    }
  }

  lemma {:induction false} OneMoreWord(text: string, word: string)
    requires AtGap(text) && word != "" && All(word, Alnum)
    ensures Words(text + word) == Words(text) + [word] && !AtGap(text + word)
    decreases |word|
  {
    hide Words;
    hide AtGap;
    var front, c := word[..|word| - 1], word[|word| - 1];
    assert text + word == text + front + [c] && word == front + [c];
    WordsSnoc(text + front, c);
    if front == [] {
      assert text + front == text && Alnum(word[0]);
    } else {
      OneMoreWord(text, front);
    }
  }

  /** "main street auto" gives "main-street-auto". */
  lemma PlainNameKeepsItsWords(words: seq<string>, fold: string -> string, digest: string -> string)
    requires IsDigest(digest) && words != []
    requires AllWords(words)
    requires fold(Join(words, " ")) == Join(words, " ") && 2 <= |Join(words, "-")| <= 100
    ensures Slugify(Join(words, " "), fold, digest) == Join(words, "-")
  {
    var raw := Join(words, " ");
    JoinedBySpacesEnds(words);
    assert [] + raw + [] == raw;
    SlugifyJoinsTheWords([], raw, [], fold, digest);
    WordsOfJoined(words);
  }

  lemma {:induction false} JoinedBySpacesEnds(words: seq<string>)
    requires words != []
    requires AllWords(words)
    ensures var text := Join(words, " "); text != [] && !Space(text[0]) && !Space(text[|text| - 1])
  {
    assert words[0] != "" && words[|words| - 1] != "";
    if |words| > 1 { JoinedBySpacesEnds(words[..|words| - 1]); }
  }

  // ---------------------------------------------------------------- slugs are fixed points

  lemma {:induction false} NothingToTrim(text: string, test: char -> bool)
    requires text != [] ==> !test(text[0]) && !test(text[|text| - 1])
    ensures Trim(text, test) == text
  {
  }

  lemma {:induction false} KeepKeeps(text: string)
    requires All(text, SlugChar)
    ensures Keep(text) == text
  {
    if text != [] { KeepKeeps(text[..|text| - 1]); }
  }

  /** The character at `i` is no run, or a dash that is one on its own. */
  predicate Lone(text: string, test: char -> bool, i: int)
    requires 0 <= i < |text|
  {
    test(text[i]) ==> text[i] == '-' && (i > 0 ==> !test(text[i - 1]))
  }

  lemma {:induction false} NoRuns(text: string, test: char -> bool)
    requires forall i :: 0 <= i < |text| ==> Lone(text, test, i)
    ensures RunsToDash(text, test) == text
  {
    if text != [] {
      var front := text[..|text| - 1];
      forall i | 0 <= i < |front|
        ensures Lone(front, test, i)
      {
        assert Lone(text, test, i);
      }
      NoRuns(front, test);
      assert Lone(text, test, |text| - 1);
      assert text == front + [text[|text| - 1]];
    }
  }

  /** A slug is its own slug. */
  lemma SlugIsFixed(slug: string, fold: string -> string, digest: string -> string)
    requires IsSlug(slug) && KeepsSlugs(fold)
    ensures Slugify(slug, fold, digest) == slug
  {
    forall i | 0 <= i < |slug|
      ensures !Space(slug[i]) && Lone(slug, Space, i) && Lone(slug, Dash, i)
    {
      assert SlugChar(slug[i]);
    }
    NothingToTrim(slug, Space);
    KeepKeeps(slug);
    NoRuns(slug, Space);
    NoRuns(slug, Dash);
    NothingToTrim(slug, Dash);
  }

  // ---------------------------------------------------------------- next_slug_candidate

  function Head(base: string, suffix: string): string {
    var room := if MAX_LENGTH - |suffix| > 1 then MAX_LENGTH - |suffix| else 1;
    TrimRight(if |base| <= room then base else base[..room], Dash)
  }

  function Candidate(base: string, attempt: nat): string {
    if attempt <= 1 then Cut(base) else
      var suffix := "-" + Decimal(attempt);
      Head(base, suffix) + suffix
  }

  /** The number behind the last dash. */
  function Suffix(text: string): string {
    if text == [] || text[|text| - 1] == '-' then [] else Suffix(text[..|text| - 1]) + [text[|text| - 1]]
  }

  lemma {:induction false} SuffixOf(head: string, digits: string)
    requires All(digits, Alnum)
    ensures Suffix(head + "-" + digits) == digits
    decreases |digits|
  {
    var text := head + "-" + digits;
    if digits == [] {
      assert text[|text| - 1] == '-';
    } else {
      var front, last := digits[..|digits| - 1], digits[|digits| - 1];
      assert text[..|text| - 1] == head + "-" + front;
      SuffixOf(head, front);
      assert Alnum(digits[|digits| - 1]);
      assert digits == front + [last];
    }
  }

  /** The attempt can be read off the candidate, even one cut to length. */
  lemma AttemptCanBeRead(base: string, attempt: nat)
    requires attempt >= 2
    ensures Parse(Suffix(Candidate(base, attempt))) == attempt
  {
    var digits := Decimal(attempt);
    DecimalRoundTrip(attempt);
    assert Candidate(base, attempt) == Head(base, "-" + digits) + "-" + digits;
    SuffixOf(Head(base, "-" + digits), digits);
  }

  lemma CandidatesDiffer(base: string, i: nat, j: nat)
    requires 2 <= i < j
    ensures Candidate(base, i) != Candidate(base, j)
  {
    AttemptCanBeRead(base, i);
    AttemptCanBeRead(base, j);
  }

  lemma ShortDecimal(n: nat)
    requires n < 100
    ensures |Decimal(n)| <= 2
  {
    assert n >= 10 ==> Decimal(n / 10) == [Digit(n / 10)];
  }

  /** A candidate is the base, as much of it as leaves room, without a dash at the cut, then a dash and the number. */
  lemma CandidateIsBaseAndNumber(base: string, attempt: nat)
    requires IsSlug(base) && 2 <= attempt <= MAX_ATTEMPTS
    ensures |Decimal(attempt)| <= 2
    ensures var suffix := "-" + Decimal(attempt);
            var room := 100 - |suffix|;
            Candidate(base, attempt) ==
            (if |base| <= room then base
             else if base[room - 1] == '-' then base[..room - 1] else base[..room]) + suffix
    ensures Candidate(base, 1) == base
  {
    ShortDecimal(attempt);
    var room := 100 - |"-" + Decimal(attempt)|;
    if |base| > room {
      NoDashAtTheCut(base, room);
    } else {
      NoDashAtTheCut(base, |base|);
      assert base[..|base|] == base;
    }
  }

  /** Every candidate is a slug again: suffixing and cutting leave no double, leading or trailing dash. */
  lemma CandidateIsSlug(base: string, attempt: nat)
    requires IsSlug(base) && 1 <= attempt <= MAX_ATTEMPTS
    ensures IsSlug(Candidate(base, attempt))
  {
    if attempt >= 2 {
      var digits := Decimal(attempt);
      DecimalRoundTrip(attempt);
      ShortDecimal(attempt);
      var suffix := "-" + digits;
      var room := MAX_LENGTH - |suffix|;
      var cut := if |base| <= room then base else base[..room];
      assert cut[0] == base[0];
      TrimRightPrefix(cut, Dash);
      SuffixedIsDashed(Head(base, suffix), digits);
    }
  }

  lemma SuffixedIsDashed(head: string, digits: string)
    requires Dashed(head) && digits != [] && forall i :: 0 <= i < |digits| ==> '0' <= digits[i] <= '9'
    ensures Dashed(head + ("-" + digits))
  {
    var text := head + ("-" + digits);
    forall i | 0 <= i < |text|
      ensures SlugChar(text[i]) && (i > 0 ==> text[i - 1] != '-' || text[i] != '-')
    {
      if i < |head| {
        assert text[i] == head[i] && SlugChar(head[i]);
      } else if i > |head| {
        assert text[i] == digits[i - |head| - 1];
      }
    }
  }

  // ---------------------------------------------------------------- finding a free one

  /** Nobody else has this slug. */
  predicate Free(shops: map<string, int>, exclude: Option<int>, slug: string) {
    slug !in shops || (exclude.Some? && shops[slug] == exclude.value)
  }

  ghost function Taken(shops: map<string, int>, exclude: Option<int>): set<string> {
    set slug | slug in shops && !Free(shops, exclude, slug)
  }

  ghost function Suffixed(base: string, n: nat): set<string> {
    if n < 2 then {} else Suffixed(base, n - 1) + {Candidate(base, n)}
  }

  ghost predicate IsSuffixed(base: string, n: nat, slug: string) {
    exists i: nat :: 2 <= i <= n && slug == Candidate(base, i)
  }

  lemma {:induction false} SuffixedHaveAttempts(base: string, n: nat, slug: string)
    requires slug in Suffixed(base, n)
    ensures IsSuffixed(base, n, slug)
  {
    hide Candidate;
    if slug != Candidate(base, n) {
      SuffixedHaveAttempts(base, n - 1, slug);
      var i: nat :| 2 <= i <= n - 1 && slug == Candidate(base, i);
    }
  }

  lemma {:induction false} SuffixedAreMany(base: string, n: nat)
    requires n >= 1
    ensures |Suffixed(base, n)| == n - 1
  {
    hide Candidate;
    if n >= 2 {
      SuffixedAreMany(base, n - 1);
      if Candidate(base, n) in Suffixed(base, n - 1) {
        SuffixedHaveAttempts(base, n - 1, Candidate(base, n));
        var i: nat :| 2 <= i <= n - 1 && Candidate(base, n) == Candidate(base, i);
        CandidatesDiffer(base, i, n);
        assert false;
      }
    }
  }

  lemma SmallerSet(small: set<string>, large: set<string>)
    requires small <= large
    ensures |small| <= |large|
  {
    if small != {} {
      var x :| x in small;
      SmallerSet(small - {x}, large - {x});
    }
  }

  /** With fewer than 49 slugs held by others, one of the attempts 2 to 50 is free. */
  lemma SomeSuffixIsFree(shops: map<string, int>, exclude: Option<int>, base: string)
    requires |Taken(shops, exclude)| < MAX_ATTEMPTS - 1
    ensures exists attempt: nat :: 2 <= attempt <= MAX_ATTEMPTS && Free(shops, exclude, Candidate(base, attempt))
  {
    hide Candidate;
    SuffixedAreMany(base, MAX_ATTEMPTS);
    if !(Suffixed(base, MAX_ATTEMPTS) <= Taken(shops, exclude)) {
      var slug :| slug in Suffixed(base, MAX_ATTEMPTS) && slug !in Taken(shops, exclude);
      SuffixedHaveAttempts(base, MAX_ATTEMPTS, slug);
      var i: nat :| 2 <= i <= MAX_ATTEMPTS && slug == Candidate(base, i);
      assert Free(shops, exclude, Candidate(base, i));
    } else {
      SmallerSet(Suffixed(base, MAX_ATTEMPTS), Taken(shops, exclude));
    }
  }

  predicate EndsWith(text: string, end: string) {
    |end| <= |text| && text[|text| - |end|..] == end
  }

  lemma CoincidingEnds(base: string, n: nat)
    requires IsSlug(base) && 2 <= n <= MAX_ATTEMPTS
    requires Candidate(base, 1) == Candidate(base, n)
    ensures |base| >= MAX_LENGTH - 1 && EndsWith(base, "-" + Decimal(n))
  {
    var suffix := "-" + Decimal(n);
    var room := MAX_LENGTH - |suffix|;
    DecimalRoundTrip(n);
    ShortDecimal(n);
    var cut := if |base| <= room then base else base[..room];
    var head := Head(base, suffix);
    assert base == head + suffix;
    TrimRightPrefix(cut, Dash);
    assert |base| > room;
    assert cut[room - 1] == base[room - 1] && cut[room - 2] == base[room - 2];
    TrimmedOnce(cut);
  }

  lemma EndingCoincides(base: string, n: nat)
    requires IsSlug(base) && 2 <= n <= MAX_ATTEMPTS
    requires |base| >= MAX_LENGTH - 1 && EndsWith(base, "-" + Decimal(n))
    ensures Candidate(base, 1) == Candidate(base, n)
  {
    var suffix := "-" + Decimal(n);
    var room := MAX_LENGTH - |suffix|;
    DecimalRoundTrip(n);
    ShortDecimal(n);
    var head := base[..|base| - |suffix|];
    assert base == head + suffix;
    assert base[|head|] == '-';
    assert base[|head| - 1] != '-';
    if |base| == MAX_LENGTH {
      assert base[..room] == head;
    } else {
      assert base[..room] == head + "-";
      assert (head + "-")[..|head|] == head;
    }
    assert TrimRight(head, Dash) == head;
  }

  /**
   The base itself is tried first. A numbered candidate repeats it exactly when the base fills the length, but for one
   character at most, and ends in that very number.
   */
  lemma FirstCandidateIsRepeatedExactlyWhen(base: string, n: nat)
    requires IsSlug(base) && 2 <= n <= MAX_ATTEMPTS
    ensures Candidate(base, 1) == Candidate(base, n) <==>
            |base| >= MAX_LENGTH - 1 && EndsWith(base, "-" + Decimal(n))
  {
    if Candidate(base, 1) == Candidate(base, n) { CoincidingEnds(base, n); }
    if |base| >= MAX_LENGTH - 1 && EndsWith(base, "-" + Decimal(n)) { EndingCoincides(base, n); }
  }

  /** For one, the first and the second candidate coincide for a base of full length that ends in "-2". */
  lemma FirstTwoMayCoincide(head: string)
    requires Dashed(head) && |head| == MAX_LENGTH - 2
    ensures IsSlug(head + "-2") && Candidate(head + "-2", 1) == Candidate(head + "-2", 2)
  {
    var base := head + "-2";
    assert Decimal(2) == "2";
    SuffixedIsDashed(head, "2");
    assert base == head + ("-" + "2");
    assert base[|base| - 2..] == "-" + "2";
    FirstCandidateIsRepeatedExactlyWhen(base, 2);
  }

  ghost predicate FirstFree(shops: map<string, int>, exclude: Option<int>, base: string, attempt: nat) {
    && Free(shops, exclude, Candidate(base, attempt))
    && forall i :: 1 <= i < attempt ==> !Free(shops, exclude, Candidate(base, i))
  }

  datatype SlugError = AlreadyTaken

  /** What the search over attempts may answer; `attempt` says which candidate it took, 0 for the random one. */
  ghost predicate Searched(shops: map<string, int>, exclude: Option<int>, base: string, allowSuffix: bool,
                           random: string, result: Result<string, SlugError>, attempt: nat) {
    if attempt > 0 then
      && attempt <= (if allowSuffix then MAX_ATTEMPTS else 1)
      && FirstFree(shops, exclude, base, attempt)
      && result == Ok(Candidate(base, attempt))
    else if allowSuffix then
      && (forall i :: 1 <= i <= MAX_ATTEMPTS ==> !Free(shops, exclude, Candidate(base, i)))
      && result == Ok("shop-" + random)
    else !Free(shops, exclude, Candidate(base, 1)) && result == Err(AlreadyTaken)
  }

  method Search(shops: map<string, int>, exclude: Option<int>, base: string, allowSuffix: bool, random: string)
    returns (result: Result<string, SlugError>, ghost attempt: nat)
    ensures Searched(shops, exclude, base, allowSuffix, random, result, attempt)
  {
    hide Candidate;
    var maxAttempts := if allowSuffix then MAX_ATTEMPTS else 1;
    for i := 1 to maxAttempts + 1
      invariant forall k :: 1 <= k < i ==> !Free(shops, exclude, Candidate(base, k))
      invariant i > 1 ==> allowSuffix
    {
      var candidate := Candidate(base, i);
      if Free(shops, exclude, candidate) {
        return Ok(candidate), i;
      }
      if !allowSuffix {
        return Err(AlreadyTaken), 0;
      }
    }
    result, attempt := Ok("shop-" + random), 0;
  }

  /** `preferred` is the explicit slug, stripped and lower-cased, if one was given. */
  method AllocateShopSlug(shops: map<string, int>, name: string, preferred: Option<string>, exclude: Option<int>,
                          allowSuffix: bool, fold: string -> string, digest: string -> string, random: string)
    returns (result: Result<string, SlugError>, ghost attempt: nat)
    ensures preferred.Some? && Free(shops, exclude, preferred.value) ==> result == Ok(preferred.value)
    ensures preferred.Some? && !Free(shops, exclude, preferred.value) && exclude.None? ==> result == Err(AlreadyTaken)
    ensures preferred.None? || (!Free(shops, exclude, preferred.value) && exclude.Some?) ==>
              Searched(shops, exclude, Slugify(name, fold, digest), allowSuffix, random, result, attempt)
  {
    hide Candidate;
    hide Slugify;
    attempt := 0;
    if preferred.Some? {
      if Free(shops, exclude, preferred.value) { return Ok(preferred.value), 0; }
      if exclude.None? { return Err(AlreadyTaken), 0; }
    }
    var base := Slugify(name, fold, digest);
    result, attempt := Search(shops, exclude, base, allowSuffix, random);
  }

  /**
   A name-derived slug with suffixes allowed is nobody else's and a slug, and while others hold fewer than 49 slugs
   it is never the random one.
   */
  lemma SearchSucceeds(shops: map<string, int>, exclude: Option<int>, base: string, random: string,
                       result: Result<string, SlugError>, attempt: nat)
    requires IsSlug(base)
    requires Searched(shops, exclude, base, true, random, result, attempt)
    ensures attempt > 0 ==> result.Ok? && IsSlug(result.value) && Free(shops, exclude, result.value)
    ensures attempt <= 50 && (attempt == 0 ==> forall i :: 1 <= i <= 50 ==> !Free(shops, exclude, Candidate(base, i)))
    ensures |Taken(shops, exclude)| < 49 ==> attempt > 0
  {
    if attempt > 0 {
      CandidateIsSlug(base, attempt);
    }
    if |Taken(shops, exclude)| < MAX_ATTEMPTS - 1 {
      SomeSuffixIsFree(shops, exclude, base);
    }
  }
}
