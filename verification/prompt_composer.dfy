/**
 * Prompt composition without the optional generation engine: the selected
 * elements are grouped by category, each section gathers the key phrases of its
 * categories' templates in a fixed order, the sections are joined with ", " and
 * the result is cleaned up.
 */
module PromptComposer {
  import opened Optional
  import opened Text
  import opened Elements

  // ---------------------------------------------------------------------------
  // Key phrases
  // ---------------------------------------------------------------------------

  /** The characters a template is split on. */
  const PhraseDelims: set<char> := {',', ';', '.'}

  /** A phrase as `extract_keywords` keeps it: longer than two characters, free of the delimiters, trimmed. */
  predicate Phrase(p: string) {
    |p| > 2 && Free(p, PhraseDelims) && !IsSpace(p[0]) && !IsSpace(p[|p| - 1])
  }

  /** Every segment, trimmed. */
  function TrimAll(segs: seq<string>): (r: seq<string>)
    ensures |r| == |segs| && forall i :: 0 <= i < |segs| ==> r[i] == Trim(segs[i])
  {
    seq(|segs|, i requires 0 <= i < |segs| => Trim(segs[i]))
  }

  /** The texts of `ps` longer than two characters, in order. */
  function Long(ps: seq<string>): (r: seq<string>)
    ensures |r| <= |ps|
    ensures forall i :: 0 <= i < |r| ==> |r[i]| > 2 && r[i] in ps
    ensures forall j :: 0 <= j < |ps| && |ps[j]| > 2 ==> ps[j] in r
    decreases |ps|
  {
    if |ps| == 0 then []
    else
      assert forall j :: 1 <= j < |ps| ==> ps[j] == ps[1..][j - 1];
      (if |ps[0]| > 2 then [ps[0]] else []) + Long(ps[1..])
  }

  lemma {:induction false} LongAll(ps: seq<string>)
    requires forall j :: 0 <= j < |ps| ==> |ps[j]| > 2
    ensures Long(ps) == ps
    decreases |ps|
  {
    if |ps| > 0 {
      LongAll(ps[1..]);
      assert ps == [ps[0]] + ps[1..];
    }
  }

  /** A single text is kept exactly when it is longer than two characters. */
  lemma LongSingle(p: string)
    ensures Long([p]) == if |p| > 2 then [p] else []
  {
    assert [p][1..] == [];
  }

  /** `Long` filters text by text, so it keeps the order and the repeats of its input. */
  lemma {:induction false} LongAppend(a: seq<string>, b: seq<string>)
    ensures Long(a + b) == Long(a) + Long(b)
    decreases |a|
  {
    if |a| == 0 {
      assert a + b == b;
    } else {
      HeadAppend(a, b);
      LongAppend(a[1..], b);
      AppendAssoc(if |a[0]| > 2 then [a[0]] else [], Long(a[1..]), Long(b));
    }
  }

  /** Trimming a delimiter-free segment gives a trimmed, delimiter-free text. */
  lemma TrimSegment(seg: string)
    requires Free(seg, PhraseDelims)
    ensures Free(Trim(seg), PhraseDelims)
  {
    var a := LeadCount(seg, Whitespace);
    assert forall k :: 0 <= k < |Trim(seg)| ==> Trim(seg)[k] == seg[a + k];
  }

  /** The long trimmed segments of delimiter-free segments are phrases. */
  lemma LongTrimmedArePhrases(segs: seq<string>)
    requires forall j :: 0 <= j < |segs| ==> Free(segs[j], PhraseDelims)
    ensures forall i :: 0 <= i < |Long(TrimAll(segs))| ==> Phrase(Long(TrimAll(segs))[i])
  {
    var ts := TrimAll(segs);
    forall j | 0 <= j < |segs| ensures Free(ts[j], PhraseDelims) {
      TrimSegment(segs[j]);
    }
  }

  /**
   * `extract_keywords`' phrases: the first `limit` raw segments of the template
   * (Python slicing, so a negative `limit` drops segments from the end), trimmed,
   * with those of at most two characters dropped. A dropped segment is not
   * replaced by a later one.
   */
  function KeyPhrases(template: string, limit: int): (r: seq<string>)
    ensures template == "" ==> r == []
    ensures limit >= 0 ==> |r| <= limit
    ensures forall i :: 0 <= i < |r| ==> Phrase(r[i])
  {
    if template == "" then []
    else
      var all := Split(template, PhraseDelims);
      var segs := SliceTo(all, limit);
      assert forall j :: 0 <= j < |segs| ==> segs[j] == all[j];
      LongTrimmedArePhrases(segs);
      Long(TrimAll(segs))
  }

  /**
   * Every key phrase is one of the first `limit` segments, trimmed, and every
   * such segment longer than two characters once trimmed is a key phrase.
   */
  lemma KeyPhrasesFromSegments(template: string, limit: int)
    requires template != ""
    ensures var segs := SliceTo(Split(template, PhraseDelims), limit);
      && (forall i :: 0 <= i < |KeyPhrases(template, limit)| ==> KeyPhrases(template, limit)[i] in TrimAll(segs))
      && (forall j :: 0 <= j < |segs| && |Trim(segs[j])| > 2 ==> Trim(segs[j]) in KeyPhrases(template, limit))
  {
  }

  /**
   * `extract_keywords`: the key phrases joined with ", ". The result is empty
   * exactly when there is no key phrase, and for a non-negative limit the key
   * phrases read back from it are those of the template.
   */
  function ExtractKeywords(template: string, limit: int): (r: string)
    ensures r == "" <==> KeyPhrases(template, limit) == []
    ensures limit >= 0 ==> KeyPhrases(r, limit) == KeyPhrases(template, limit)
  {
    var ps := KeyPhrases(template, limit);
    KeyPhrasesOfJoin(ps, limit);
    if |ps| > 0 then
      JoinStartsWithFirst(ps, ", ");
      Join(ps, ", ")
    else ""
  }

  /** Every phrase with a space in front, as each phrase after the first follows ", ". */
  function SpaceAll(ps: seq<string>): (r: seq<string>)
    ensures |r| == |ps| && forall i :: 0 <= i < |ps| ==> r[i] == " " + ps[i]
  {
    seq(|ps|, i requires 0 <= i < |ps| => " " + ps[i])
  }

  lemma {:induction false} JoinSpaceAll(ps: seq<string>)
    requires |ps| > 0
    ensures " " + Join(ps, ", ") == Join(SpaceAll(ps), ",")
    decreases |ps|
  {
    if |ps| > 1 {
      JoinSpaceAll(ps[1..]);
      assert SpaceAll(ps) == [" " + ps[0]] + SpaceAll(ps[1..]);
      JoinCons(" " + ps[0], SpaceAll(ps[1..]), ",");
    } else {
      assert SpaceAll(ps) == [" " + ps[0]];
    }
  }

  lemma JoinCommaSpaceMany(ps: seq<string>)
    requires |ps| > 1
    ensures Join(ps, ", ") == Join([ps[0]] + SpaceAll(ps[1..]), ",")
  {
    var j := Join(ps[1..], ", ");
    JoinSplitHead(ps, ", ");
    CommaSpaceRegroup(ps[0], j);
    JoinSpaceAll(ps[1..]);
    JoinCons(ps[0], SpaceAll(ps[1..]), ",");
  }

  /** A join of two or more parts is its first part, the separator and the join of the rest. */
  lemma JoinSplitHead(ps: seq<string>, sep: string)
    requires |ps| > 1
    ensures Join(ps, sep) == ps[0] + sep + Join(ps[1..], sep)
  {
  }

  /** ", " between two texts is a comma followed by the second text with a space in front. */
  lemma CommaSpaceRegroup(a: string, j: string)
    ensures a + ", " + j == a + "," + (" " + j)
  {
    assert ", " == "," + " ";
    AppendAssoc(a, ",", " ");
    AppendAssoc(a + ",", " ", j);
  }

  /** Joining with ", " is joining with "," after putting a space in front of every later phrase. */
  lemma JoinCommaSpace(ps: seq<string>)
    requires |ps| > 0
    ensures Join(ps, ", ") == Join([ps[0]] + SpaceAll(ps[1..]), ",")
  {
    if |ps| > 1 {
      JoinCommaSpaceMany(ps);
    } else {
      assert [ps[0]] + SpaceAll(ps[1..]) == [ps[0]];
    }
  }

  lemma SpacedFree(p: string)
    requires Free(p, PhraseDelims)
    ensures Free(" " + p, PhraseDelims)
  {
    assert forall k :: 1 <= k < |" " + p| ==> (" " + p)[k] == p[k - 1];
  }

  /** Phrases joined with ", " split back into the phrases, each after the first with its space. */
  lemma SplitJoinedPhrases(ps: seq<string>)
    requires |ps| > 0
    requires forall i :: 0 <= i < |ps| ==> Phrase(ps[i])
    ensures Split(Join(ps, ", "), PhraseDelims) == [ps[0]] + SpaceAll(ps[1..])
  {
    var sp := [ps[0]] + SpaceAll(ps[1..]);
    assert Join(ps, ", ") == Join(sp, ",") by {
      JoinCommaSpace(ps);
    }
    assert forall i :: 0 <= i < |sp| ==> Free(sp[i], PhraseDelims) by {
      forall i | 0 <= i < |sp| ensures Free(sp[i], PhraseDelims) {
        if i > 0 {
          SpacedFree(ps[i]);
        }
      }
    }
    SplitJoin(sp, ',', PhraseDelims);
  }

  /** Trimming the segments of joined phrases gives the phrases back. */
  lemma TrimSpacedPhrases(ps: seq<string>)
    requires |ps| > 0
    requires forall i :: 0 <= i < |ps| ==> Phrase(ps[i])
    ensures TrimAll([ps[0]] + SpaceAll(ps[1..])) == ps
  {
    var sp := [ps[0]] + SpaceAll(ps[1..]);
    forall j | 0 <= j < |sp| ensures Trim(sp[j]) == ps[j] {
      StripFixed(ps[j], Whitespace);
      if j > 0 {
        assert sp[j] == [' '] + ps[j];
        TrimLeadingSpace(' ', ps[j]);
      }
    }
  }

  lemma TrimAllSlice(segs: seq<string>, limit: int)
    ensures TrimAll(SliceTo(segs, limit)) == SliceTo(TrimAll(segs), limit)
  {
    assert forall j :: 0 <= j < |SliceTo(segs, limit)| ==> SliceTo(segs, limit)[j] == segs[j];
  }

  /** Extracting from phrases joined with ", " gives back the first `limit` of them. */
  lemma KeyPhrasesOfJoin(ps: seq<string>, limit: int)
    requires forall i :: 0 <= i < |ps| ==> Phrase(ps[i])
    ensures KeyPhrases(Join(ps, ", "), limit) == SliceTo(ps, limit)
  {
    if |ps| > 0 {
      var joined := Join(ps, ", ");
      var sp := [ps[0]] + SpaceAll(ps[1..]);
      assert joined != "" by {
        JoinStartsWithFirst(ps, ", ");
      }
      assert Split(joined, PhraseDelims) == sp by {
        SplitJoinedPhrases(ps);
      }
      assert TrimAll(SliceTo(sp, limit)) == SliceTo(ps, limit) by {
        TrimSpacedPhrases(ps);
        TrimAllSlice(sp, limit);
      }
      assert Long(SliceTo(ps, limit)) == SliceTo(ps, limit) by {
        LongAll(SliceTo(ps, limit));
      }
    }
  }

  /** For a non-negative limit, extracting key phrases a second time changes nothing. */
  lemma ExtractKeywordsIdempotent(template: string, limit: int)
    requires limit >= 0
    ensures ExtractKeywords(ExtractKeywords(template, limit), limit) == ExtractKeywords(template, limit)
  {
    KeyPhrasesOfJoin(KeyPhrases(template, limit), limit);
  }

  // ---------------------------------------------------------------------------
  // Clean-up
  // ---------------------------------------------------------------------------

  /** `s[0].upper() + s[1:]` for a non-empty `s`. */
  function Capitalize(s: string): (r: string)
    ensures |r| == |s|
    ensures |s| > 0 ==> r[0] == UpperChar(s[0]) && r[1..] == s[1..]
  {
    if |s| == 0 then "" else [UpperChar(s[0])] + s[1..]
  }

  /** No comma is followed by whitespace and another comma: the comma clean-up finds nothing. */
  predicate NoCommaRun(s: string) {
    forall i :: 0 <= i < |s| && s[i] == ',' ==> CommaRunEnd(s[i..]) == -1
  }

  /** Text the clean-up keeps, up to the case of its first letter. */
  predicate Tidy(s: string) {
    && Collapsed(s)
    && NoCommaRun(s)
    && (|s| > 0 ==> !In(s[0], CommaOrSpace) && !In(s[|s| - 1], CommaOrSpace))
  }

  lemma SingleSpacedSlice(s: string, i: nat, j: nat)
    requires SingleSpaced(s) && i <= j <= |s|
    ensures SingleSpaced(s[i..j])
  {
    SingleSpacedSuffix(s, i);
    var t := s[i..];
    assert s[i..j] == t[..j - i];
  }

  /**
   * `clean_prompt`: whitespace runs become one space, each comma–whitespace–comma
   * becomes one comma, leading and trailing commas and spaces go, and the first
   * character is uppercased. The result has no tab or newline, no two adjacent
   * spaces, neither starts nor ends with a comma or space, and does not start
   * with a lower-case letter.
   */
  function CleanPrompt(s: string): (r: string)
    ensures Collapse(s) == "" ==> r == ""
    ensures PlainSpaces(r) && SingleSpaced(r)
    ensures |r| > 0 ==> !In(r[0], CommaOrSpace) && !In(r[|r| - 1], CommaOrSpace) && !IsAsciiLower(r[0])
  {
    var collapsed := Collapse(s);
    var deduped := DedupCommas(collapsed);
    DedupCommasPlainSpaces(collapsed);
    DedupCommasSingleSpaced(collapsed);
    var stripped := Strip(deduped, CommaOrSpace);
    StripKeepsSpacing(deduped);
    CapitalizeKeeps(stripped);
    Capitalize(stripped)
  }

  /** Stripping commas and spaces from the ends keeps the spacing of what remains. */
  lemma StripKeepsSpacing(s: string)
    requires PlainSpaces(s) && SingleSpaced(s)
    ensures PlainSpaces(Strip(s, CommaOrSpace)) && SingleSpaced(Strip(s, CommaOrSpace))
  {
    var stripped := Strip(s, CommaOrSpace);
    var a := LeadCount(s, CommaOrSpace);
    SingleSpacedSlice(s, a, a + |stripped|);
    assert forall k :: 0 <= k < |stripped| ==> stripped[k] == s[a + k];
  }

  /** Uppercasing a text that does not start with a lower-case letter changes nothing. */
  lemma CapitalizeFixed(s: string)
    requires |s| > 0 && !IsAsciiLower(s[0])
    ensures Capitalize(s) == s
  {
    assert s == [s[0]] + s[1..];
  }

  /** Uppercasing the first character keeps the spacing and the ends of a stripped text. */
  lemma CapitalizeKeeps(s: string)
    requires PlainSpaces(s) && SingleSpaced(s)
    requires |s| > 0 ==> !In(s[0], CommaOrSpace) && !In(s[|s| - 1], CommaOrSpace)
    ensures PlainSpaces(Capitalize(s)) && SingleSpaced(Capitalize(s))
    ensures |s| > 0 ==> !In(Capitalize(s)[0], CommaOrSpace) && !In(Capitalize(s)[|s| - 1], CommaOrSpace)
    ensures |s| > 0 ==> !IsAsciiLower(Capitalize(s)[0])
    ensures NoCommaRun(s) ==> NoCommaRun(Capitalize(s))
  {
    if |s| > 0 {
      var r := Capitalize(s);
      assert forall k :: 1 <= k < |s| ==> r[k] == s[k] by {
        forall k | 1 <= k < |s| ensures r[k] == s[k] {
          assert r[k] == r[1..][k - 1];
        }
      }
      assert !IsSpace(r[0]) && r[0] != ',';
      if NoCommaRun(s) {
        forall i | 0 <= i < |r| && r[i] == ',' ensures CommaRunEnd(r[i..]) == -1 {
          assert i > 0;
          assert r[i..] == s[i..];
        }
      }
    }
  }

  /** With nothing for a comma run to match, the comma clean-up changes nothing. */
  lemma {:induction false} DedupCommasFixes(s: string)
    requires NoCommaRun(s)
    ensures DedupCommas(s) == s
    decreases |s|
  {
    if |s| > 0 {
      assert s[0..] == s;
      assert forall i :: 0 <= i < |s| - 1 ==> s[1..][i] == s[i + 1] && s[1..][i..] == s[i + 1..];
      DedupCommasFixes(s[1..]);
      assert s == [s[0]] + s[1..];
    }
  }

  /** Clean-up only capitalizes a tidy text, and the result is tidy again. */
  lemma CleanTidy(s: string)
    requires Tidy(s)
    ensures CleanPrompt(s) == Capitalize(s)
    ensures Tidy(Capitalize(s))
  {
    CollapseFixesCollapsed(s);
    DedupCommasFixes(s);
    StripFixed(s, CommaOrSpace);
    CapitalizeKeeps(s);
  }

  /** On tidy text the clean-up is idempotent. */
  lemma CleanIdempotentOnTidy(s: string)
    requires Tidy(s)
    ensures CleanPrompt(CleanPrompt(s)) == CleanPrompt(s)
  {
    CleanTidy(s);
    CleanTidy(Capitalize(s));
  }

  /** Upper-casing keeps a kept character kept. */
  lemma UpperKept(c: char, d: bool)
    requires Kept(c, d)
    ensures Kept(UpperChar(c), d)
  {
  }

  /** Capitalizing text that starts with a kept character capitalizes its content. */
  lemma CapitalizeContent(s: string, d: bool)
    requires |s| > 0 ==> Kept(s[0], d)
    ensures Content(Capitalize(s), d) == Capitalize(Content(s, d))
  {
    if |s| > 0 {
      var c := UpperChar(s[0]);
      UpperKept(s[0], d);
      assert Capitalize(s) == [c] + s[1..];
      ContentCons(c, s[1..], d);
      ContentUnfold(s, d);
    }
  }

  /** Stripping commas and spaces from plain-spaced text leaves a text that starts with a kept character. */
  lemma StrippedStartsKept(s: string)
    requires PlainSpaces(s)
    ensures |Strip(s, CommaOrSpace)| > 0 ==> Kept(Strip(s, CommaOrSpace)[0], true)
  {
    var r := Strip(s, CommaOrSpace);
    if |r| > 0 {
      assert r[0] == s[LeadCount(s, CommaOrSpace)];
    }
  }

  /**
   * The clean-up keeps every character other than whitespace and commas, in
   * order; only the first of them may be upper-cased.
   */
  lemma CleanPromptContent(s: string)
    ensures Content(CleanPrompt(s), true) == Capitalize(Content(s, true))
  {
    var collapsed := Collapse(s);
    var deduped := DedupCommas(collapsed);
    DedupCommasContent(collapsed);
    DedupCommasPlainSpaces(collapsed);
    var stripped := Strip(deduped, CommaOrSpace);
    StripContent(deduped);
    StrippedStartsKept(deduped);
    CapitalizeContent(stripped, true);
  }

  /** Text without whitespace and without comma runs needs only capitalizing. */
  lemma CleanNoSpace(s: string)
    requires |s| > 0 && NoSpace(s)
    requires !In(s[0], CommaOrSpace) && !In(s[|s| - 1], CommaOrSpace)
    ensures CleanPrompt(s) == Capitalize(Strip(DedupCommas(s), CommaOrSpace))
  {
    CollapseSingleWord(s);
  }

  /** A character other than a comma is kept and the clean-up goes on after it. */
  lemma DedupPlain(c: char, rest: string)
    requires c != ','
    ensures DedupCommas([c] + rest) == [c] + DedupCommas(rest)
  {
    assert ([c] + rest)[1..] == rest;
  }

  /** Two adjacent commas become one. */
  lemma DedupPair(rest: string)
    ensures DedupCommas([',', ','] + rest) == "," + DedupCommas(rest)
  {
    var s := [',', ','] + rest;
    assert AllSpace(s[1..1]);
    assert CommaRunEnd(s) == 1;
    assert s[2..] == rest;
  }

  /** A comma followed by a character other than whitespace or a comma is kept. */
  lemma DedupLone(c: char, rest: string)
    requires c != ',' && !IsSpace(c)
    ensures DedupCommas([',', c] + rest) == "," + DedupCommas([c] + rest)
  {
    var s := [',', c] + rest;
    assert CommaRunEnd(s) == -1;
    assert s[1..] == [c] + rest;
  }

  /** In one pass, three commas between two letters become two. */
  lemma DedupThreeCommas(x: char, y: char)
    requires x != ',' && y != ',' && !IsSpace(y)
    ensures DedupCommas([x, ',', ',', ',', y]) == [x, ',', ',', y]
  {
    var ys: string := [y];
    DedupPlain(y, []);
    DedupLone(y, []);
    assert [',', y] + [] == [',', y] && ys + [] == ys;
    DedupPair([',', y]);
    assert [',', ','] + [',', y] == [',', ',', ',', y];
    DedupPlain(x, [',', ',', ',', y]);
    assert [x] + [',', ',', ',', y] == [x, ',', ',', ',', y];
  }

  /** Two commas between two letters become one. */
  lemma DedupTwoCommas(x: char, y: char)
    requires x != ',' && y != ','
    ensures DedupCommas([x, ',', ',', y]) == [x, ',', y]
  {
    DedupPlain(y, []);
    assert [y] + [] == [y];
    DedupPair([y]);
    assert [',', ','] + [y] == [',', ',', y];
    DedupPlain(x, [',', ',', y]);
    assert [x] + [',', ',', y] == [x, ',', ',', y];
  }

  /** A lower-case letter is neither a comma nor whitespace. */
  lemma LowerNotCommaOrSpace(c: char)
    requires IsAsciiLower(c)
    ensures c != ',' && !IsSpace(c) && !In(c, CommaOrSpace) && !In(UpperChar(c), CommaOrSpace)
  {
  }

  /** Text without whitespace whose comma clean-up leaves neither a comma nor a space at the ends is cleaned to that clean-up, capitalised. */
  lemma CleanByDedup(s: string, t: string)
    requires |s| > 0 && NoSpace(s) && !In(s[0], CommaOrSpace) && !In(s[|s| - 1], CommaOrSpace)
    requires DedupCommas(s) == t && |t| > 0 && !In(t[0], CommaOrSpace) && !In(t[|t| - 1], CommaOrSpace)
    ensures CleanPrompt(s) == Capitalize(t)
  {
    CleanNoSpace(s);
    StripFixed(t, CommaOrSpace);
  }

  /** Cleaning three commas between two lower-case letters leaves two of them. */
  lemma CleanThreeCommas(a: char, b: char)
    requires IsAsciiLower(a) && IsAsciiLower(b)
    ensures CleanPrompt([a, ',', ',', ',', b]) == [UpperChar(a), ',', ',', b]
  {
    LowerNotCommaOrSpace(a);
    LowerNotCommaOrSpace(b);
    var s := [a, ',', ',', ',', b];
    assert NoSpace(s);
    DedupThreeCommas(a, b);
    CleanByDedup(s, [a, ',', ',', b]);
  }

  /** Cleaning two commas between an upper-case and a lower-case letter leaves one. */
  lemma CleanTwoCommas(a: char, b: char)
    requires IsAsciiLower(a) && IsAsciiLower(b)
    ensures CleanPrompt([UpperChar(a), ',', ',', b]) == [UpperChar(a), ',', b]
  {
    LowerNotCommaOrSpace(a);
    LowerNotCommaOrSpace(b);
    var A := UpperChar(a);
    var s := [A, ',', ',', b];
    assert NoSpace(s);
    DedupTwoCommas(A, b);
    CleanByDedup(s, [A, ',', b]);
    CapitalizeFixed([A, ',', b]);
  }

  /**
   * Clean-up is not idempotent: one pass turns `a,,,b` into `A,,b`, and a
   * second pass turns that into `A,b`.
   */
  lemma CleanPromptNotIdempotent(a: char, b: char)
    requires IsAsciiLower(a) && IsAsciiLower(b)
    ensures CleanPrompt(CleanPrompt([a, ',', ',', ',', b])) != CleanPrompt([a, ',', ',', ',', b])
  {
    CleanThreeCommas(a, b);
    CleanTwoCommas(a, b);
  }

  // ---------------------------------------------------------------------------
  // Composition
  // ---------------------------------------------------------------------------

  /** The element groups of each section, in the order their phrases are gathered. */
  const SubjectCats: seq<string> := ["ethnicities", "subject"]
  const StylingCats: seq<string> := ["makeup_styles", "clothing_styles", "hairstyles", "styling.makeup", "styling.clothing", "styling.hairstyle"]
  const LightingCats: seq<string> := ["lighting_techniques", "lighting.lighting_type"]
  const TechnicalCats: seq<string> := ["art_styles", "camera_settings", "technical.art_style"]

  /** The closing section in the `auto` and `detailed` modes. */
  const QualityTag := "high quality, detailed, professional"

  /** The group key of an element: its category, else its field name, else `other`. */
  function GroupOf(e: Element): string {
    CategoryOr(e, "other")
  }

  /** The elements grouped under `cat`, in input order. */
  function ByCategory(es: seq<Element>, cat: string): (r: seq<Element>)
    ensures |r| <= |es|
    ensures forall i :: 0 <= i < |r| ==> r[i] in es && GroupOf(r[i]) == cat
    ensures forall k :: 0 <= k < |es| && GroupOf(es[k]) == cat ==> es[k] in r
    decreases |es|
  {
    if |es| == 0 then []
    else
      var init := es[..|es| - 1];
      var last := es[|es| - 1];
      assert forall k :: 0 <= k < |init| ==> init[k] == es[k];
      if GroupOf(last) == cat then ByCategory(init, cat) + [last] else ByCategory(init, cat)
  }

  /** The elements of `group` with a non-empty template, in order. */
  function WithTemplate(group: seq<Element>): (r: seq<Element>)
    ensures |r| <= |group|
    ensures forall i :: 0 <= i < |r| ==> r[i] in group && TemplateText(r[i]) != ""
    ensures forall k :: 0 <= k < |group| && TemplateText(group[k]) != "" ==> group[k] in r
    decreases |group|
  {
    if |group| == 0 then []
    else
      var init := group[..|group| - 1];
      var last := group[|group| - 1];
      assert forall k :: 0 <= k < |init| ==> init[k] == group[k];
      if TemplateText(last) != "" then WithTemplate(init) + [last] else WithTemplate(init)
  }

  /** A single element is in the group of its own category only. */
  lemma ByCategorySingle(e: Element, cat: string)
    ensures ByCategory([e], cat) == if GroupOf(e) == cat then [e] else []
  {
    assert [e][..0] == [];
  }

  /** Grouping filters element by element, so it keeps input order and repeats. */
  lemma {:induction false} ByCategoryAppend(a: seq<Element>, b: seq<Element>, cat: string)
    ensures ByCategory(a + b, cat) == ByCategory(a, cat) + ByCategory(b, cat)
    decreases |b|
  {
    if |b| == 0 {
      assert a + b == a;
    } else {
      var init, last := b[..|b| - 1], b[|b| - 1];
      LastAppend(a, b);
      ByCategoryAppend(a, init, cat);
      if GroupOf(last) == cat {
        AppendAssoc(ByCategory(a, cat), ByCategory(init, cat), [last]);
      }
    }
  }

  /** A single element is kept exactly when it has a template. */
  lemma WithTemplateSingle(e: Element)
    ensures WithTemplate([e]) == if TemplateText(e) != "" then [e] else []
  {
    assert [e][..0] == [];
  }

  /** The template filter keeps input order and repeats. */
  lemma {:induction false} WithTemplateAppend(a: seq<Element>, b: seq<Element>)
    ensures WithTemplate(a + b) == WithTemplate(a) + WithTemplate(b)
    decreases |b|
  {
    if |b| == 0 {
      assert a + b == a;
    } else {
      var init, last := b[..|b| - 1], b[|b| - 1];
      LastAppend(a, b);
      WithTemplateAppend(a, init);
      if TemplateText(last) != "" {
        AppendAssoc(WithTemplate(a), WithTemplate(init), [last]);
      }
    }
  }

  /**
   * The elements that give a section its phrases: group by group in the order of
   * `cats`, within a group in input order, only those with a non-empty template.
   */
  function Contributors(es: seq<Element>, cats: seq<string>): (r: seq<Element>)
    ensures forall i :: 0 <= i < |r| ==> r[i] in es && GroupOf(r[i]) in cats && TemplateText(r[i]) != ""
    ensures forall k :: 0 <= k < |es| && GroupOf(es[k]) in cats && TemplateText(es[k]) != "" ==> es[k] in Contributors(es, cats)
    decreases |cats|
  {
    if |cats| == 0 then []
    else
      var head := WithTemplate(ByCategory(es, cats[0]));
      var rest := Contributors(es, cats[1..]);
      assert forall k :: 0 <= k < |es| && GroupOf(es[k]) == cats[0] && TemplateText(es[k]) != "" ==> es[k] in head by {
        forall k | 0 <= k < |es| && GroupOf(es[k]) == cats[0] && TemplateText(es[k]) != "" ensures es[k] in head {
          var g := ByCategory(es, cats[0]);
          var j :| 0 <= j < |g| && g[j] == es[k];
        }
      }
      assert forall c :: c in cats ==> c == cats[0] || c in cats[1..];
      head + rest
  }

  /** The groups of `a` come before the groups of `b`. */
  lemma {:induction false} ContributorsAppend(es: seq<Element>, a: seq<string>, b: seq<string>)
    ensures Contributors(es, a + b) == Contributors(es, a) + Contributors(es, b)
    decreases |a|
  {
    if |a| == 0 {
      assert a + b == b;
    } else {
      assert (a + b)[0] == a[0] && (a + b)[1..] == a[1..] + b;
      ContributorsAppend(es, a[1..], b);
    }
  }

  /** A one-category section takes the elements of that group that have a template, in input order. */
  lemma ContributorsSingle(es: seq<Element>, cat: string)
    ensures Contributors(es, [cat]) == WithTemplate(ByCategory(es, cat))
  {
    assert [cat][1..] == [];
  }

  /** Every contributor is grouped under one of the section's categories. */
  lemma ContributorsGrouped(es: seq<Element>, cats: seq<string>)
    ensures forall i :: 0 <= i < |Contributors(es, cats)| ==> Grouped(es, GroupOf(Contributors(es, cats)[i]))
  {
    var r := Contributors(es, cats);
    forall i | 0 <= i < |r| ensures Grouped(es, GroupOf(r[i])) {
      var k :| 0 <= k < |es| && es[k] == r[i];
    }
  }

  /** The key phrases of each element's template. */
  function KeywordsOf(xs: seq<Element>, limit: int): (r: seq<string>)
    ensures |r| == |xs| && forall i :: 0 <= i < |xs| ==> r[i] == ExtractKeywords(TemplateText(xs[i]), limit)
  {
    seq(|xs|, i requires 0 <= i < |xs| => ExtractKeywords(TemplateText(xs[i]), limit))
  }

  /**
   * One section's text: the key phrases of its contributors joined with ", ".
   * Without contributors the section is empty; with one it is that element's
   * key phrases.
   */
  function Section(es: seq<Element>, cats: seq<string>, limit: int): (r: string)
    ensures Contributors(es, cats) == [] ==> r == ""
    ensures |Contributors(es, cats)| == 1 ==> r == ExtractKeywords(TemplateText(Contributors(es, cats)[0]), limit)
  {
    Join(KeywordsOf(Contributors(es, cats), limit), ", ")
  }

  /** Key phrases are taken element by element. */
  lemma KeywordsOfAppend(x: seq<Element>, y: seq<Element>, limit: int)
    ensures KeywordsOf(x + y, limit) == KeywordsOf(x, limit) + KeywordsOf(y, limit)
  {
    var l, r := KeywordsOf(x + y, limit), KeywordsOf(x, limit) + KeywordsOf(y, limit);
    forall i | 0 <= i < |l| ensures l[i] == r[i] {
      if i < |x| {
        assert (x + y)[i] == x[i];
      } else {
        assert (x + y)[i] == y[i - |x|];
      }
    }
  }

  /** Two groups of categories that both contribute give their sections joined with ", ". */
  lemma SectionAppend(es: seq<Element>, a: seq<string>, b: seq<string>, limit: int)
    requires Contributors(es, a) != [] && Contributors(es, b) != []
    ensures Section(es, a + b, limit) == Section(es, a, limit) + ", " + Section(es, b, limit)
  {
    ContributorsAppend(es, a, b);
    KeywordsOfAppend(Contributors(es, a), Contributors(es, b), limit);
    JoinAppend(KeywordsOf(Contributors(es, a), limit), KeywordsOf(Contributors(es, b), limit), ", ");
  }

  /** Some element is grouped under `cat`. */
  predicate Grouped(es: seq<Element>, cat: string) {
    exists k :: 0 <= k < |es| && GroupOf(es[k]) == cat
  }

  /**
   * The subject section: the caller's description when it is non-empty, otherwise
   * the ethnicity then the subject phrases. The guard for such elements makes no
   * difference, as without them there are no phrases.
   */
  function SubjectSection(es: seq<Element>, limit: int, subjectDesc: string): (r: string)
    ensures subjectDesc != "" ==> r == subjectDesc
    ensures subjectDesc == "" ==> r == Section(es, SubjectCats, limit)
  {
    if subjectDesc != "" then subjectDesc
    else if Grouped(es, "subject") || Grouped(es, "ethnicities") then Section(es, SubjectCats, limit)
    else
      ContributorsGrouped(es, SubjectCats);
      assert Contributors(es, SubjectCats) == [];
      ""
  }

  /** `mode in ['auto', 'detailed']`: the mode adds the quality tag. */
  predicate WithQuality(mode: string) {
    mode == "auto" || mode == "detailed"
  }

  /** The sections in their fixed order: subject, styling, lighting, technical, then the quality tag. */
  function Sections(es: seq<Element>, mode: string, limit: int, subjectDesc: string): (r: seq<string>)
    ensures |r| == if WithQuality(mode) then 5 else 4
    ensures r[..4] == [SubjectSection(es, limit, subjectDesc), Section(es, StylingCats, limit),
                       Section(es, LightingCats, limit), Section(es, TechnicalCats, limit)]
    ensures WithQuality(mode) ==> r[4] == QualityTag
  {
    [SubjectSection(es, limit, subjectDesc), Section(es, StylingCats, limit),
     Section(es, LightingCats, limit), Section(es, TechnicalCats, limit)]
    + (if WithQuality(mode) then [QualityTag] else [])
  }

  /** `filter(None, parts)`: the non-empty parts, in order. */
  function NonEmpty(parts: seq<string>): (r: seq<string>)
    ensures |r| <= |parts|
    ensures forall i :: 0 <= i < |r| ==> r[i] != "" && r[i] in parts
    ensures forall j :: 0 <= j < |parts| && parts[j] != "" ==> parts[j] in r
    decreases |parts|
  {
    if |parts| == 0 then []
    else
      assert forall j :: 1 <= j < |parts| ==> parts[j] == parts[1..][j - 1];
      (if parts[0] != "" then [parts[0]] else []) + NonEmpty(parts[1..])
  }

  /** A single part is kept exactly when it is non-empty. */
  lemma NonEmptySingle(p: string)
    ensures NonEmpty([p]) == if p != "" then [p] else []
  {
    assert [p][1..] == [];
  }

  /** `filter` goes part by part, so it keeps the order and the repeats of its input. */
  lemma {:induction false} NonEmptyAppend(a: seq<string>, b: seq<string>)
    ensures NonEmpty(a + b) == NonEmpty(a) + NonEmpty(b)
    decreases |a|
  {
    if |a| == 0 {
      assert a + b == b;
    } else {
      HeadAppend(a, b);
      NonEmptyAppend(a[1..], b);
      AppendAssoc(if a[0] != "" then [a[0]] else [], NonEmpty(a[1..]), NonEmpty(b));
    }
  }

  /**
   * `compose_prompt_manual`: the non-empty sections joined with ", " and cleaned
   * up. The prompt never starts or ends with a comma or space, has no two
   * adjacent spaces, and does not start with a lower-case letter.
   */
  function ComposeManual(es: seq<Element>, mode: string, limit: int, subjectDesc: string): (r: string)
    ensures PlainSpaces(r) && SingleSpaced(r)
    ensures |r| > 0 ==> !In(r[0], CommaOrSpace) && !In(r[|r| - 1], CommaOrSpace) && !IsAsciiLower(r[0])
  {
    CleanPrompt(Join(NonEmpty(Sections(es, mode, limit, subjectDesc)), ", "))
  }

  /**
   * `compose_prompt` with the optional generation engine absent: it falls back on
   * the manual composition, so its prompt is clean in the same sense.
   */
  function ComposePrompt(es: seq<Element>, mode: string, limit: int, subjectDesc: string): (r: string)
    ensures PlainSpaces(r) && SingleSpaced(r)
    ensures |r| > 0 ==> !In(r[0], CommaOrSpace) && !In(r[|r| - 1], CommaOrSpace) && !IsAsciiLower(r[0])
  {
    ComposeManual(es, mode, limit, subjectDesc)
  }

  /** Every category that feeds a section. */
  const SectionCats: seq<string> := SubjectCats + StylingCats + LightingCats + TechnicalCats

  /** An element outside the given categories, or without a template, contributes nothing. */
  lemma {:induction false} ExtraElementContributesNothing(es: seq<Element>, e: Element, cats: seq<string>)
    requires TemplateText(e) == "" || GroupOf(e) !in cats
    ensures Contributors(es + [e], cats) == Contributors(es, cats)
    decreases |cats|
  {
    if |cats| > 0 {
      var es' := es + [e];
      assert es'[..|es'| - 1] == es && es'[|es'| - 1] == e;
      ExtraElementContributesNothing(es, e, cats[1..]);
      if GroupOf(e) == cats[0] {
        var g := ByCategory(es, cats[0]);
        assert ByCategory(es', cats[0]) == g + [e];
        assert (g + [e])[..|g|] == g;
      }
    }
  }

  /** One section, likewise. */
  lemma SectionIgnoresOtherElement(es: seq<Element>, e: Element, cats: seq<string>, limit: int)
    requires TemplateText(e) == "" || GroupOf(e) !in cats
    ensures Section(es + [e], cats, limit) == Section(es, cats, limit)
  {
    ExtraElementContributesNothing(es, e, cats);
  }

  /** The extra element leaves the four sections as they were. */
  lemma SectionsIgnoreOtherElements(es: seq<Element>, e: Element, mode: string, limit: int, subjectDesc: string)
    requires TemplateText(e) == "" || GroupOf(e) !in SectionCats
    ensures Sections(es + [e], mode, limit, subjectDesc) == Sections(es, mode, limit, subjectDesc)
  {
    var g := GroupOf(e);
    assert g in SectionCats <==> g in SubjectCats || g in StylingCats || g in LightingCats || g in TechnicalCats;
    SectionIgnoresOtherElement(es, e, SubjectCats, limit);
    SectionIgnoresOtherElement(es, e, StylingCats, limit);
    SectionIgnoresOtherElement(es, e, LightingCats, limit);
    SectionIgnoresOtherElement(es, e, TechnicalCats, limit);
  }

  /** Elements in no section's category (eye types, say) or without a template do not change the prompt. */
  lemma ComposeIgnoresOtherElements(es: seq<Element>, e: Element, mode: string, limit: int, subjectDesc: string)
    requires TemplateText(e) == "" || GroupOf(e) !in SectionCats
    ensures ComposeManual(es + [e], mode, limit, subjectDesc) == ComposeManual(es, mode, limit, subjectDesc)
  {
    SectionsIgnoreOtherElements(es, e, mode, limit, subjectDesc);
  }

  /** Ethnicity elements come before subject elements; the flat styling groups before their dotted aliases. */
  lemma SectionGroupOrder(es: seq<Element>)
    ensures Contributors(es, SubjectCats) == Contributors(es, ["ethnicities"]) + Contributors(es, ["subject"])
    ensures Contributors(es, StylingCats) == Contributors(es, StylingCats[..3]) + Contributors(es, StylingCats[3..])
  {
    assert SubjectCats == ["ethnicities"] + ["subject"];
    ContributorsAppend(es, ["ethnicities"], ["subject"]);
    assert StylingCats == StylingCats[..3] + StylingCats[3..];
    ContributorsAppend(es, StylingCats[..3], StylingCats[3..]);
  }

  /** The lighting group belongs to no other section. */
  lemma LightingOnlyInLighting()
    ensures "lighting_techniques" !in SubjectCats
    ensures "lighting_techniques" !in StylingCats
    ensures "lighting_techniques" !in TechnicalCats
  {
  }

  /** No element, no contributor. */
  lemma {:induction false} NoContributorsInEmpty(cats: seq<string>)
    ensures Contributors([], cats) == []
    decreases |cats|
  {
    if |cats| > 0 {
      NoContributorsInEmpty(cats[1..]);
    }
  }

  /** A lone element outside the categories of a section leaves the section empty. */
  lemma LoneElementOutside(e: Element, cats: seq<string>, limit: int)
    requires GroupOf(e) !in cats
    ensures Section([e], cats, limit) == ""
  {
    NoContributorsInEmpty(cats);
    assert [] + [e] == [e];
    ExtraElementContributesNothing([], e, cats);
  }

  /** A lone lighting element with a template fills the lighting section with its key phrases. */
  lemma LoneLightingSection(e: Element, limit: int)
    requires GroupOf(e) == "lighting_techniques" && TemplateText(e) != ""
    ensures Section([e], LightingCats, limit) == ExtractKeywords(TemplateText(e), limit)
  {
    assert Contributors([e], LightingCats) == [e] by {
      NoContributorsInEmpty(LightingCats[1..]);
      assert [] + [e] == [e];
      ExtraElementContributesNothing([], e, LightingCats[1..]);
      assert ByCategory([e], "lighting_techniques") == [e];
    }
  }

  /** A lone lighting element leaves the other three sections empty. */
  lemma LoneLightingOtherSections(e: Element, limit: int)
    requires GroupOf(e) == "lighting_techniques"
    ensures SubjectSection([e], limit, "") == ""
    ensures Section([e], StylingCats, limit) == ""
    ensures Section([e], TechnicalCats, limit) == ""
  {
    LightingOnlyInLighting();
    LoneElementOutside(e, SubjectCats, limit);
    LoneElementOutside(e, StylingCats, limit);
    LoneElementOutside(e, TechnicalCats, limit);
  }

  /** So without the quality tag only the lighting section is filled. */
  lemma LoneLightingSections(e: Element, mode: string, limit: int)
    requires GroupOf(e) == "lighting_techniques" && TemplateText(e) != ""
    requires !WithQuality(mode)
    ensures Sections([e], mode, limit, "") == ["", "", ExtractKeywords(TemplateText(e), limit), ""]
  {
    LoneLightingOtherSections(e, limit);
    LoneLightingSection(e, limit);
  }

  /** One element of a single lighting category, no description, no quality tag: the prompt is its cleaned key phrases. */
  lemma LoneLightingElement(e: Element, mode: string, limit: int)
    requires GroupOf(e) == "lighting_techniques" && TemplateText(e) != ""
    requires !WithQuality(mode)
    ensures ComposeManual([e], mode, limit, "") == CleanPrompt(ExtractKeywords(TemplateText(e), limit))
  {
    LoneLightingSections(e, mode, limit);
    ThirdOnly(ExtractKeywords(TemplateText(e), limit));
  }

  /** Joining the non-empty sections when only the third can be non-empty yields it. */
  lemma ThirdOnly(k: string)
    ensures Join(NonEmpty(["", "", k, ""]), ", ") == k
  {
    var parts := ["", "", k, ""];
    assert parts[1..] == ["", k, ""];
    assert parts[1..][1..] == [k, ""];
    assert parts[1..][1..][1..] == [""];
    assert NonEmpty([""]) == [] by {
      assert [""][1..] == [];
    }
    if k == "" {
      assert NonEmpty([k, ""]) == [];
    } else {
      assert NonEmpty([k, ""]) == [k];
    }
  }

  // ---------------------------------------------------------------------------
  // The prompt's tail
  // ---------------------------------------------------------------------------

  /** `s.endswith(t)`. */
  predicate EndsWith(s: string, t: string) {
    |t| <= |s| && s[|s| - |t|..] == t
  }

  lemma EndsWithAppend(a: string, t: string)
    ensures EndsWith(a + t, t)
  {
    assert (a + t)[|a + t| - |t|..] == t;
  }

  lemma EndsWithTail(s: string, t: string)
    requires EndsWith(s, t) && |t| > 0
    ensures EndsWith(s, t[1..])
  {
    assert s[|s| - |t[1..]|..] == s[|s| - |t|..][1..];
  }

  /** Capitalizing keeps everything after the first character. */
  lemma CapitalizeEndsWith(t: string)
    requires |t| > 0
    ensures EndsWith(Capitalize(t), t[1..])
  {
  }

  /** The comma has content only when commas count. */
  lemma ContentComma()
    ensures Content(",", false) == "," && Content(",", true) == ""
  {
    assert ","[1..] == "";
  }

  /** A comma after `p` makes whitespace-only content non-empty and adds no comma-free content. */
  lemma CommaAfterContent(p: string)
    ensures Content(p + ",", false) != "" && Content(p + ",", true) == Content(p, true)
  {
    ContentComma();
    ContentAppend(p, ",", false);
    ContentAppend(p, ",", true);
  }

  lemma CommaSpaceSplit(p: string, t: string)
    ensures p + ", " + t == (p + ",") + " " + t
  {
  }

  /** A tidy text starts with neither whitespace nor a comma. */
  lemma TidyHead(t: string)
    requires Tidy(t) && |t| > 0
    ensures !IsSpace(t[0]) && t[0] != ','
  {
  }

  /** What the leading commas and spaces hold: nothing kept. */
  lemma StripLeadContent(d: string)
    ensures Content(d[LeadCount(d, CommaOrSpace)..], true) == Content(d, true)
  {
    var a := LeadCount(d, CommaOrSpace);
    var lead := d[..a];
    assert d == lead + d[a..];
    ContentAppend(lead, d[a..], true);
    assert forall k :: 0 <= k < a ==> lead[k] == d[k];
    ContentBlank(lead, true);
  }

  /** Before stripping, text, ", " and a tidy tail clean up to a front `d` with the content of the text, then the tail. */
  lemma CleanTailSteps(p: string, t: string) returns (d: string)
    requires Tidy(t) && |t| > 0
    ensures DedupCommas(Collapse(p + ", " + t)) == d + t
    ensures Content(d, true) == Content(p, true)
  {
    var pc := p + ",";
    CommaSpaceSplit(p, t);
    CommaAfterContent(p);
    CollapseSpaceAppend(pc, t);
    var c := Collapse(pc);
    TidyHead(t);
    DedupAppend(c + " ", t);
    DedupCommasFixes(t);
    d := DedupCommas(c + " ");
    DedupCommasContent(c + " ");
    ContentAppend(c, " ", true);
    ContentSpace(true);
  }

  /** `clean_prompt` spelt out as its three steps and the capitalization. */
  lemma CleanPromptSteps(s: string)
    ensures CleanPrompt(s) == Capitalize(Strip(DedupCommas(Collapse(s)), CommaOrSpace))
  {
  }

  /**
   * Cleaning text, ", " and a tidy tail keeps the tail at the end: whole when the
   * text before it has content, and otherwise from its second character on, as the
   * tail's first letter is then the prompt's first and is upper-cased.
   */
  lemma CleanKeepsTidyTail(p: string, t: string)
    requires Tidy(t) && |t| > 0
    ensures EndsWith(CleanPrompt(p + ", " + t), t[1..])
    ensures Content(p, true) != "" ==> EndsWith(CleanPrompt(p + ", " + t), t)
  {
    var d := CleanTailSteps(p, t);
    StripAppendKept(d, t);
    CleanPromptSteps(p + ", " + t);
    var f := d[LeadCount(d, CommaOrSpace)..];
    StripLeadContent(d);
    CapitalizeKeepsTail(f, t);
  }

  /** Capitalizing `f + t` keeps all of `t` but its first character, and all of it when `f` is not empty. */
  lemma CapitalizeKeepsTail(f: string, t: string)
    requires |t| > 0
    ensures EndsWith(Capitalize(f + t), t[1..])
    ensures |f| > 0 ==> EndsWith(Capitalize(f + t), t)
  {
    if |f| > 0 {
      CapitalizeConcat(f, t);
      EndsWithAppend(Capitalize(f), t);
      EndsWithTail(Capitalize(f) + t, t);
    } else {
      assert f + t == t;
      CapitalizeEndsWith(t);
    }
  }

  /** The comma run of ", " and text that starts with neither whitespace nor a comma is no run. */
  lemma CommaSpaceNoRun(q: string)
    requires |q| > 0 && !IsSpace(q[0]) && q[0] != ','
    ensures CommaRunEnd(", " + q) == -1
  {
    assert (", " + q)[1..] == [' '] + q;
    assert LeadCount([' '] + q, Whitespace) == 1;
  }

  /** A comma-free collapsed phrase, ", " and a tidy text make a tidy text. */
  lemma TidyCons(p: string, q: string)
    requires Collapsed(p) && Free(p, {','}) && |p| > 0 && p[0] != ','
    requires Tidy(q) && |q| > 0
    ensures Tidy(p + ", " + q)
  {
    var s := p + ", " + q;
    PlainSpacesConcat(p, ", ");
    PlainSpacesConcat(p + ", ", q);
    SingleSpacedConcat(p, ", ");
    SingleSpacedConcat(p + ", ", q);
    TidyHead(q);
    forall i | 0 <= i < |s| && s[i] == ',' ensures CommaRunEnd(s[i..]) == -1 {
      if i <= |p| + 1 {
        assert i == |p|;
        assert s[i..] == ", " + q;
        CommaSpaceNoRun(q);
      } else {
        DropPast(p + ", ", q, i);
        assert q[i - |p| - 2] == s[i];
      }
    }
  }

  /** The quality tag is tidy. */
  lemma QualityTagTidy()
    ensures Tidy(QualityTag)
  {
    LowerWords("high quality");
    LowerWords("detailed");
    LowerWords("professional");
    TidyPair("detailed", "professional");
    TidyCons("high quality", "detailed" + ", " + "professional");
    QualityTagParts();
  }

  /** Lower-case words with single spaces between them are collapsed and comma-free. */
  lemma LowerWords(w: string)
    requires |w| > 0 && w[0] != ',' && w[0] != ' ' && w[|w| - 1] != ' '
    requires forall k :: 0 <= k < |w| ==> w[k] == ' ' || ('a' <= w[k] <= 'z')
    requires forall k :: 0 <= k < |w| - 1 ==> w[k] == ' ' ==> w[k + 1] != ' '
    ensures Collapsed(w) && Free(w, {','})
  {
  }

  lemma QualityTagParts()
    ensures QualityTag == "high quality" + ", " + ("detailed" + ", " + "professional")
  {
  }

  /** When the joined non-empty sections are tidy, the prompt is their join with the first letter upper-cased. */
  lemma ComposeTidy(es: seq<Element>, mode: string, limit: int, subjectDesc: string)
    requires Tidy(Join(NonEmpty(Sections(es, mode, limit, subjectDesc)), ", "))
    ensures ComposeManual(es, mode, limit, subjectDesc) == Capitalize(Join(NonEmpty(Sections(es, mode, limit, subjectDesc)), ", "))
  {
    CleanTidy(Join(NonEmpty(Sections(es, mode, limit, subjectDesc)), ", "));
  }

  /** The premise of `ComposeTidy` can be met: a tidy subject description and no elements give a tidy join. */
  lemma ComposeTidyReachable(mode: string, limit: int, d: string)
    requires !WithQuality(mode) && d != "" && Tidy(d)
    ensures Tidy(Join(NonEmpty(Sections([], mode, limit, d)), ", "))
  {
    EmptySections(limit);
    LoneSubject(Sections([], mode, limit, d), d);
  }

  /** Four sections of which only the first has text leave that text alone. */
  lemma LoneSubject(ss: seq<string>, d: string)
    requires d != "" && ss == [d, "", "", ""]
    ensures Join(NonEmpty(ss), ", ") == d
  {
    NonEmptyAppend([d], ["", "", ""]);
    NonEmptySingle(d);
    NonEmptySingle("");
    NonEmptyAppend([""], ["", ""]);
    NonEmptyAppend([""], [""]);
    assert NonEmpty(ss) == [d];
  }

  /** Without elements every category section is empty. */
  lemma EmptySections(limit: int)
    ensures Section([], StylingCats, limit) == "" && Section([], LightingCats, limit) == ""
    ensures Section([], TechnicalCats, limit) == ""
  {
  }

  /**
   * In the `auto` and `detailed` modes the prompt ends with the quality tag: whole
   * when the four sections before it have content, and otherwise the tag is the
   * whole prompt and its first letter is upper-cased.
   */
  lemma ComposeEndsWithQuality(es: seq<Element>, mode: string, limit: int, subjectDesc: string)
    requires WithQuality(mode)
    ensures EndsWith(ComposeManual(es, mode, limit, subjectDesc), QualityTag[1..])
    ensures Content(Join(NonEmpty(Sections(es, mode, limit, subjectDesc)[..4]), ", "), true) != ""
      ==> EndsWith(ComposeManual(es, mode, limit, subjectDesc), QualityTag)
  {
    TaggedPromptEnds(Sections(es, mode, limit, subjectDesc));
  }

  /** Cleaning the non-empty parts of four sections and the quality tag, joined, keeps the tag at the end. */
  lemma TaggedPromptEnds(ss: seq<string>)
    requires |ss| == 5 && ss[4] == QualityTag
    ensures EndsWith(CleanPrompt(Join(NonEmpty(ss), ", ")), QualityTag[1..])
    ensures Content(Join(NonEmpty(ss[..4]), ", "), true) != "" ==> EndsWith(CleanPrompt(Join(NonEmpty(ss), ", ")), QualityTag)
  {
    TaggedParts(ss);
    QualityTagTidy();
    TidyLastEnds(NonEmpty(ss[..4]), QualityTag);
  }

  /**
   * A tidy last part survives the clean-up of a ", "-join at its end; only its
   * first character may be upper-cased, and only when nothing comes before it.
   */
  lemma TidyLastEnds(front: seq<string>, t: string)
    requires Tidy(t) && |t| > 0
    ensures EndsWith(CleanPrompt(Join(front + [t], ", ")), t[1..])
    ensures Content(Join(front, ", "), true) != "" ==> EndsWith(CleanPrompt(Join(front + [t], ", ")), t)
  {
    if |front| == 0 {
      assert front + [t] == [t];
      TidyAlone(t);
    } else {
      JoinAppend(front, [t], ", ");
      CleanKeepsTidyTail(Join(front, ", "), t);
    }
  }

  /** A tidy text alone is only capitalized by the clean-up. */
  lemma TidyAlone(t: string)
    requires Tidy(t) && |t| > 0
    ensures EndsWith(CleanPrompt(Join([t], ", ")), t[1..])
  {
    CleanTidy(t);
    CapitalizeEndsWith(t);
  }


  /** Five sections ending in the quality tag keep the non-empty first four, then the tag. */
  lemma TaggedParts(ss: seq<string>)
    requires |ss| == 5 && ss[4] == QualityTag
    ensures NonEmpty(ss) == NonEmpty(ss[..4]) + [QualityTag]
  {
    assert ss == ss[..4] + [QualityTag];
    NonEmptyAppend(ss[..4], [QualityTag]);
    NonEmptySingle(QualityTag);
  }


  /** Joining two comma-free texts with ", " leaves no comma run behind. */
  lemma NoCommaRunPair(a: string, b: string)
    requires Free(a, {','}) && Free(b, {','})
    requires |b| > 0 && !IsSpace(b[0])
    ensures NoCommaRun(a + ", " + b)
  {
    var s := a + ", " + b;
    forall i | 0 <= i < |s| && s[i] == ',' ensures CommaRunEnd(s[i..]) == -1 {
      assert i == |a|;
      assert s[i..] == ", " + b;
      assert (", " + b)[1..] == [' '] + b;
      assert LeadCount([' '] + b, Whitespace) == 1;
    }
  }

  /** Two collapsed, comma-free texts joined with ", " are tidy. */
  lemma TidyPair(a: string, b: string)
    requires Collapsed(a) && Collapsed(b) && |a| > 0 && |b| > 0
    requires Free(a, {','}) && Free(b, {','})
    ensures Tidy(a + ", " + b)
  {
    PlainSpacesConcat(a, ", ");
    PlainSpacesConcat(a + ", ", b);
    SingleSpacedConcat(a, ", ");
    SingleSpacedConcat(a + ", ", b);
    NoCommaRunPair(a, b);
  }

  /** Capitalizing affects only the first character. */
  lemma CapitalizeConcat(a: string, rest: string)
    requires |a| > 0
    ensures Capitalize(a + rest) == Capitalize(a) + rest
  {
    assert (a + rest)[1..] == a[1..] + rest;
  }

  lemma CapitalizePair(a: string, b: string)
    requires |a| > 0
    ensures Capitalize(a + ", " + b) == Capitalize(a) + ", " + b
  {
    assert a + ", " + b == a + (", " + b);
    CapitalizeConcat(a, ", " + b);
  }

  /** Limit 2 keeps the first two of three phrases. */
  lemma TwoOfThree(a: string, b: string, c: string)
    requires Phrase(a) && Phrase(b) && Phrase(c)
    ensures ExtractKeywords(Join([a, b, c], ", "), 2) == a + ", " + b
  {
    KeyPhrasesOfJoin([a, b, c], 2);
    assert SliceTo([a, b, c], 2) == [a, b];
    JoinCons(a, [b], ", ");
  }

  /** Cleaning two tidy-joined phrases only capitalizes the first. */
  lemma CleanPair(a: string, b: string)
    requires Collapsed(a) && Collapsed(b) && |a| > 0 && |b| > 0
    requires Free(a, {','}) && Free(b, {','})
    ensures CleanPrompt(a + ", " + b) == Capitalize(a) + ", " + b
  {
    assert CleanPrompt(a + ", " + b) == Capitalize(a + ", " + b) by {
      TidyPair(a, b);
      CleanTidy(a + ", " + b);
    }
    CapitalizePair(a, b);
  }

  /**
   * A lone lighting element whose template joins three phrases composes, with
   * limit 2 and no quality tag, to the first two phrases with the first capitalized.
   */
  lemma LoneLightingTwoOfThree(e: Element, mode: string, a: string, b: string, c: string)
    requires GroupOf(e) == "lighting_techniques" && TemplateText(e) == Join([a, b, c], ", ")
    requires Phrase(a) && Phrase(b) && Phrase(c) && Collapsed(a) && Collapsed(b)
    requires !WithQuality(mode)
    ensures ComposeManual([e], mode, 2, "") == Capitalize(a) + ", " + b
  {
    JoinStartsWithFirst([a, b, c], ", ");
    LoneLightingElement(e, mode, 2);
    TwoOfThree(a, b, c);
    CleanPair(a, b);
  }

  /** The lighting template `soft window light, golden hour, warm tones`. */
  const WindowLight: seq<string> := ["soft window light", "golden hour", "warm tones"]
  const WindowLamp := Element(None, Some("lighting_techniques"), None, None, None, Some(Join(WindowLight, ", ")), None, None, None)

  lemma SoftWindowLight()
    ensures Phrase(WindowLight[0]) && Collapsed(WindowLight[0])
  {}

  lemma GoldenHour()
    ensures Phrase(WindowLight[1]) && Collapsed(WindowLight[1])
  {}

  lemma WarmTones()
    ensures Phrase(WindowLight[2])
  {}

  lemma CapitalSoft()
    ensures Capitalize(WindowLight[0]) == "Soft window light"
  {}

  /** In the simple mode with limit 2 the lamp gives `Soft window light, golden hour`, without the quality tag. */
  lemma WindowLampExample()
    ensures ComposePrompt([WindowLamp], "simple", 2, "") == "Soft window light" + ", " + "golden hour"
  {
    SoftWindowLight();
    GoldenHour();
    WarmTones();
    CapitalSoft();
    assert WindowLight == [WindowLight[0], WindowLight[1], WindowLight[2]];
    LoneLightingTwoOfThree(WindowLamp, "simple", WindowLight[0], WindowLight[1], WindowLight[2]);
  }
}
