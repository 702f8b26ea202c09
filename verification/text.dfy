/**
 * The part of Python's `str` behaviour the prompt pipeline relies on: substring
 * search, case mapping, whitespace, splitting on delimiter characters, stripping,
 * joining and the single-pass comma clean-up regex.
 *
 * Case mapping is ASCII-only: every other code point (all CJK text included) maps
 * to itself. Whitespace is the full set of code points Python's `str.isspace`
 * accepts, which is also what `str.split()`, `str.strip()` and the regex class
 * `\s` use for `str` patterns.
 */
module Text {

  /** Python's `c.isspace()`. */
  predicate IsSpace(c: char) {
    || c == ' '
    || '\t' <= c <= '\r'
    || '\U{1c}' <= c <= '\U{1f}'
    || c == '\U{85}' || c == '\U{a0}' || c == '\U{1680}'
    || '\U{2000}' <= c <= '\U{200a}'
    || c == '\U{2028}' || c == '\U{2029}' || c == '\U{202f}' || c == '\U{205f}' || c == '\U{3000}'
  }

  /** The two character classes the pipeline strips: whitespace, and the pair ',' and ' '. */
  datatype CharClass = Whitespace | CommaOrSpace

  predicate In(c: char, cls: CharClass) {
    match cls
    case Whitespace => IsSpace(c)
    case CommaOrSpace => c == ',' || c == ' '
  }

  predicate IsAsciiUpper(c: char) {
    'A' <= c <= 'Z'
  }

  predicate IsAsciiLower(c: char) {
    'a' <= c <= 'z'
  }

  /** `c.lower()` restricted to ASCII. */
  function LowerChar(c: char): (r: char)
    ensures !IsAsciiUpper(r)
    ensures !IsAsciiUpper(c) ==> r == c
    ensures IsAsciiUpper(c) ==> IsAsciiLower(r)
  {
    if IsAsciiUpper(c) then (c as int + 32) as char else c
  }

  /** `c.upper()` restricted to ASCII. */
  function UpperChar(c: char): (r: char)
    ensures !IsAsciiLower(r)
    ensures !IsAsciiLower(c) ==> r == c
    ensures IsAsciiLower(c) ==> IsAsciiUpper(r)
  {
    if IsAsciiLower(c) then (c as int - 32) as char else c
  }

  /** `s.lower()`, ASCII-only. */
  function Lower(s: string): (r: string)
    ensures |r| == |s|
    ensures forall i :: 0 <= i < |s| ==> r[i] == LowerChar(s[i])
    decreases |s|
  {
    if |s| == 0 then "" else [LowerChar(s[0])] + Lower(s[1..])
  }

  /** No ASCII capital letter occurs in `s`: lowering leaves it alone. */
  predicate LowerCase(s: string) {
    forall i :: 0 <= i < |s| ==> !IsAsciiUpper(s[i])
  }

  lemma LowerIsLowerCase(s: string)
    ensures LowerCase(Lower(s))
    ensures LowerCase(s) ==> Lower(s) == s
  {
  }

  /** `s.startswith(prefix)`, compared character by character. */
  predicate StartsWith(s: string, prefix: string)
    decreases |prefix|
  {
    |prefix| == 0 || (|s| > 0 && s[0] == prefix[0] && StartsWith(s[1..], prefix[1..]))
  }

  lemma {:induction false} StartsWithSlice(s: string, prefix: string)
    ensures StartsWith(s, prefix) <==> |prefix| <= |s| && s[..|prefix|] == prefix
    decreases |prefix|
  {
    if |prefix| > 0 && |s| > 0 {
      StartsWithSlice(s[1..], prefix[1..]);
      if |prefix| <= |s| {
        assert s[..|prefix|] == [s[0]] + s[1..][..|prefix| - 1];
        assert prefix == [prefix[0]] + prefix[1..];
      }
    }
  }

  /** `needle` occurs in `hay` starting at index `i`. */
  predicate OccursAt(hay: string, needle: string, i: int) {
    0 <= i <= |hay| - |needle| && hay[i..i + |needle|] == needle
  }

  /**
   * Python's `needle in hay`, as a left-to-right search: `needle` occurs as a
   * contiguous piece of `hay`. The empty string occurs in every string.
   */
  predicate Contains(hay: string, needle: string)
    decreases |hay|
  {
    StartsWith(hay, needle) || (|hay| > 0 && Contains(hay[1..], needle))
  }

  /** The search finds `needle` exactly when it occurs somewhere in `hay`. */
  lemma {:induction false} ContainsOccurs(hay: string, needle: string)
    ensures Contains(hay, needle) <==> exists i :: OccursAt(hay, needle, i)
    decreases |hay|
  {
    StartsWithSlice(hay, needle);
    if |hay| > 0 {
      ContainsOccurs(hay[1..], needle);
      forall i | OccursAt(hay[1..], needle, i)
        ensures OccursAt(hay, needle, i + 1)
      {
        assert hay[1..][i..i + |needle|] == hay[i + 1..i + 1 + |needle|];
      }
      forall i | OccursAt(hay, needle, i) && i > 0
        ensures OccursAt(hay[1..], needle, i - 1)
      {
        assert hay[1..][i - 1..i - 1 + |needle|] == hay[i..i + |needle|];
      }
    }
    if StartsWith(hay, needle) {
      assert OccursAt(hay, needle, 0);
    }
  }

  /** A needle longer than the haystack never occurs in it. */
  lemma {:induction false} ShorterLacks(hay: string, needle: string)
    requires |hay| < |needle|
    ensures !Contains(hay, needle)
    decreases |hay|
  {
    StartsWithSlice(hay, needle);
    if |hay| > 0 {
      ShorterLacks(hay[1..], needle);
    }
  }

  /** A needle whose first character does not occur in the haystack is not found in it. */
  lemma {:induction false} LacksFirstChar(hay: string, needle: string)
    requires |needle| > 0 && forall i :: 0 <= i < |hay| ==> hay[i] != needle[0]
    ensures !Contains(hay, needle)
    decreases |hay|
  {
    if |hay| > 0 {
      LacksFirstChar(hay[1..], needle);
    }
  }

  /** A piece of a string found in its prefix is found in the whole string. */
  lemma ContainsInPrefix(hay: string, more: string, needle: string)
    requires Contains(hay, needle)
    ensures Contains(hay + more, needle)
  {
    ContainsOccurs(hay, needle);
    var i :| OccursAt(hay, needle, i);
    assert (hay + more)[i..i + |needle|] == hay[i..i + |needle|];
    assert OccursAt(hay + more, needle, i);
    ContainsOccurs(hay + more, needle);
  }

  /** A piece of a string found in its suffix is found in the whole string. */
  lemma ContainsInSuffix(more: string, hay: string, needle: string)
    requires Contains(hay, needle)
    ensures Contains(more + hay, needle)
  {
    ContainsOccurs(hay, needle);
    var i :| OccursAt(hay, needle, i);
    assert (more + hay)[|more| + i..|more| + i + |needle|] == hay[i..i + |needle|];
    assert OccursAt(more + hay, needle, |more| + i);
    ContainsOccurs(more + hay, needle);
  }

  /** Containment is transitive: a piece of a piece is a piece of the whole. */
  lemma ContainsTrans(a: string, b: string, c: string)
    requires Contains(a, b) && Contains(b, c)
    ensures Contains(a, c)
  {
    ContainsOccurs(a, b);
    ContainsOccurs(b, c);
    var i :| OccursAt(a, b, i);
    var j :| OccursAt(b, c, j);
    SliceOfSlice(a, i, |b|, j, |c|);
    assert OccursAt(a, c, i + j);
    ContainsOccurs(a, c);
  }

  lemma SliceOfSlice(a: string, i: nat, m: nat, j: nat, n: nat)
    requires i + m <= |a| && j + n <= m
    ensures a[i..i + m][j..j + n] == a[i + j..i + j + n]
  {
    var p, w := a[i..i + m], a[i + j..i + j + n];
    var q := p[j..j + n];
    forall k | 0 <= k < n ensures q[k] == w[k] {
      assert q[k] == p[j + k];
    }
    assert q == w;
  }

  /** A string is a piece of any string it stands in the middle of. */
  lemma ContainsMiddle(x: string, y: string, z: string)
    ensures Contains(x + y + z, y)
  {
    ContainsSelf(y);
    ContainsInPrefix(y, z, y);
    ContainsInSuffix(x, y + z, y);
    assert x + y + z == x + (y + z);
  }

  /** Every string contains itself. */
  lemma ContainsSelf(s: string)
    ensures Contains(s, s)
  {
    StartsWithSlice(s, s);
  }

  /** Lowering works character by character, so it distributes over concatenation. */
  lemma LowerConcat(a: string, b: string)
    ensures Lower(a + b) == Lower(a) + Lower(b)
  {
  }

  /** Python's `s[:n]`: the first `n` items, or all of them when there are fewer. */
  function Take<T>(s: seq<T>, n: nat): (r: seq<T>)
    ensures |r| == if n < |s| then n else |s|
    ensures r <= s
  {
    if n < |s| then s[..n] else s
  }

  /** Python's `s[:n]` for any integer `n`: a negative `n` drops that many items from the end. */
  function SliceTo<T>(s: seq<T>, n: int): (r: seq<T>)
    ensures r <= s
    ensures n >= 0 ==> |r| == if n < |s| then n else |s|
    ensures n < 0 ==> |r| == if |s| + n > 0 then |s| + n else 0
  {
    if n >= 0 then Take(s, n)
    else if |s| + n > 0 then s[..|s| + n]
    else []
  }

  /** No character of `p` is in `delims`. */
  predicate Free(p: string, delims: set<char>) {
    forall k :: 0 <= k < |p| ==> p[k] !in delims
  }

  /** The delimiter characters of `s`, in order. */
  function Delimiters(s: string, delims: set<char>): (r: string)
    ensures |r| <= |s|
    ensures forall k :: 0 <= k < |r| ==> r[k] in delims
  {
    if |s| == 0 then ""
    else (if s[0] in delims then [s[0]] else "") + Delimiters(s[1..], delims)
  }

  /**
   * Python's `re.split('[...]', s)` for a character class, or `s.split(c)` for one
   * character: the pieces between delimiter characters, empty pieces included.
   */
  function Split(s: string, delims: set<char>): (r: seq<string>)
    ensures |r| == 1 + |Delimiters(s, delims)|
    ensures forall i :: 0 <= i < |r| ==> Free(r[i], delims)
    decreases |s|
  {
    if |s| == 0 then [""]
    else
      var rest := Split(s[1..], delims);
      if s[0] in delims then [""] + rest
      else [[s[0]] + rest[0]] + rest[1..]
  }

  /** Puts the separators back between the pieces: `p0 + s0 + p1 + s1 + ... + pn`. */
  function Weave(parts: seq<string>, seps: string): string
    requires |parts| == |seps| + 1
    decreases |seps|
  {
    if |seps| == 0 then parts[0]
    else parts[0] + [seps[0]] + Weave(parts[1..], seps[1..])
  }

  lemma WeaveExtendFirst(c: char, parts: seq<string>, seps: string)
    requires |parts| == |seps| + 1
    ensures Weave([[c] + parts[0]] + parts[1..], seps) == [c] + Weave(parts, seps)
  {
    var q := [[c] + parts[0]] + parts[1..];
    assert q[1..] == parts[1..];
  }

  /** Splitting loses nothing: the pieces and the delimiters give back the text. */
  lemma {:induction false} SplitWeave(s: string, delims: set<char>)
    ensures Weave(Split(s, delims), Delimiters(s, delims)) == s
    decreases |s|
  {
    if |s| > 0 {
      var rest := Split(s[1..], delims);
      var seps := Delimiters(s[1..], delims);
      SplitWeave(s[1..], delims);
      if s[0] in delims {
        assert Delimiters(s, delims) == [s[0]] + seps;
        var r := [""] + rest;
        assert r[1..] == rest;
        assert Weave(r, [s[0]] + seps) == "" + [s[0]] + Weave(rest, seps);
      } else {
        assert Delimiters(s, delims) == seps;
        WeaveExtendFirst(s[0], rest, seps);
      }
      assert s == [s[0]] + s[1..];
    }
  }

  /** `sep.join(parts)`. */
  function Join(parts: seq<string>, sep: string): string
    decreases |parts|
  {
    if |parts| == 0 then ""
    else if |parts| == 1 then parts[0]
    else parts[0] + sep + Join(parts[1..], sep)
  }

  lemma JoinCons(p: string, parts: seq<string>, sep: string)
    requires |parts| > 0
    ensures Join([p] + parts, sep) == p + sep + Join(parts, sep)
  {
    assert ([p] + parts)[1..] == parts;
  }

  /** A join starts with its first part. */
  lemma JoinStartsWithFirst(parts: seq<string>, sep: string)
    requires |parts| > 0
    ensures parts[0] <= Join(parts, sep)
  {
    if |parts| > 1 {
      assert Join(parts, sep) == parts[0] + (sep + Join(parts[1..], sep));
    }
  }

  /** Splitting a piece free of delimiters in front of a text extends the first piece. */
  lemma {:induction false} SplitFreePrefix(p: string, s: string, delims: set<char>)
    requires Free(p, delims)
    ensures Split(p + s, delims) == [p + Split(s, delims)[0]] + Split(s, delims)[1..]
    decreases |p|
  {
    if |p| == 0 {
      var sp := Split(s, delims);
      assert p + s == s;
      assert p + sp[0] == sp[0];
      assert [sp[0]] + sp[1..] == sp;
    } else {
      var sp := Split(s, delims);
      assert (p + s)[0] == p[0] && (p + s)[1..] == p[1..] + s;
      SplitFreePrefix(p[1..], s, delims);
      var rest := Split(p[1..] + s, delims);
      assert rest == [p[1..] + sp[0]] + sp[1..];
      assert Split(p + s, delims) == [[p[0]] + rest[0]] + rest[1..];
      assert [p[0]] + (p[1..] + sp[0]) == p + sp[0];
    }
  }

  /** Joining on a delimiter character and splitting on the delimiters again is the identity. */
  lemma {:induction false} SplitJoin(parts: seq<string>, c: char, delims: set<char>)
    requires |parts| >= 1 && c in delims
    requires forall i :: 0 <= i < |parts| ==> Free(parts[i], delims)
    ensures Split(Join(parts, [c]), delims) == parts
    decreases |parts|
  {
    if |parts| == 1 {
      SplitFreePrefix(parts[0], "", delims);
      assert parts[0] + "" == parts[0];
    } else {
      var tail := Join(parts[1..], [c]);
      SplitJoin(parts[1..], c, delims);
      assert Join(parts, [c]) == parts[0] + ([c] + tail);
      SplitFreePrefix(parts[0], [c] + tail, delims);
      assert ([c] + tail)[1..] == tail;
      assert Split([c] + tail, delims) == [""] + parts[1..];
      assert parts[0] + "" == parts[0];
    }
  }

  /** The length of the longest prefix of `s` made of characters in `cs`. */
  function LeadCount(s: string, cs: CharClass): (n: nat)
    ensures n <= |s|
    ensures forall k :: 0 <= k < n ==> In(s[k], cs)
    ensures n < |s| ==> !In(s[n], cs)
    decreases |s|
  {
    if |s| == 0 || !In(s[0], cs) then 0 else 1 + LeadCount(s[1..], cs)
  }

  /** The length of the longest suffix of `s` made of characters in `cs`. */
  function TrailCount(s: string, cs: CharClass): (n: nat)
    ensures n <= |s|
    ensures forall k :: |s| - n <= k < |s| ==> In(s[k], cs)
    ensures n < |s| ==> !In(s[|s| - 1 - n], cs)
    decreases |s|
  {
    if |s| == 0 || !In(s[|s| - 1], cs) then 0 else 1 + TrailCount(s[..|s| - 1], cs)
  }

  /** The length of the longest prefix of `s` free of characters in `cs`. */
  function RunOutside(s: string, cs: CharClass): (n: nat)
    ensures n <= |s|
    ensures forall k :: 0 <= k < n ==> !In(s[k], cs)
    ensures n < |s| ==> In(s[n], cs)
    decreases |s|
  {
    if |s| == 0 || In(s[0], cs) then 0 else 1 + RunOutside(s[1..], cs)
  }

  /** `LeadCount` is the one length whose prefix lies in the class and that stops at a character outside it. */
  lemma LeadCountIs(s: string, cs: CharClass, n: nat)
    requires n <= |s| && (forall k :: 0 <= k < n ==> In(s[k], cs)) && (n < |s| ==> !In(s[n], cs))
    ensures LeadCount(s, cs) == n
  {
  }

  /** `RunOutside` is the one length whose prefix avoids the class and that stops at a character inside it. */
  lemma RunOutsideIs(s: string, cs: CharClass, n: nat)
    requires n <= |s| && (forall k :: 0 <= k < n ==> !In(s[k], cs)) && (n < |s| ==> In(s[n], cs))
    ensures RunOutside(s, cs) == n
  {
  }

  /**
   * Python's `s.strip(chars)`: drops the longest prefix and the longest suffix made
   * of characters of class `cs`; what remains starts and ends with a kept character.
   */
  function Strip(s: string, cs: CharClass): (r: string)
    ensures |r| > 0 ==> !In(r[0], cs) && !In(r[|r| - 1], cs)
    ensures LeadCount(s, cs) + |r| <= |s|
    ensures r == s[LeadCount(s, cs)..LeadCount(s, cs) + |r|]
    ensures forall k :: LeadCount(s, cs) + |r| <= k < |s| ==> In(s[k], cs)
  {
    var a := LeadCount(s, cs);
    var t := s[a..];
    var b := TrailCount(t, cs);
    assert |t| > 0 ==> !In(t[0], cs);
    t[..|t| - b]
  }

  /** Python's `s.strip()`. */
  function Trim(s: string): (r: string)
    ensures |r| > 0 ==> !IsSpace(r[0]) && !IsSpace(r[|r| - 1])
    ensures LeadCount(s, Whitespace) + |r| <= |s|
    ensures r == s[LeadCount(s, Whitespace)..LeadCount(s, Whitespace) + |r|]
    ensures forall k :: 0 <= k < LeadCount(s, Whitespace) ==> IsSpace(s[k])
    ensures forall k :: LeadCount(s, Whitespace) + |r| <= k < |s| ==> IsSpace(s[k])
  {
    Strip(s, Whitespace)
  }

  /** Stripping leaves alone exactly the texts that neither start nor end with a stripped character. */
  lemma StripFixed(s: string, cs: CharClass)
    ensures Strip(s, cs) == s <==> (|s| > 0 ==> !In(s[0], cs) && !In(s[|s| - 1], cs))
  {
    if |s| > 0 && !In(s[0], cs) && !In(s[|s| - 1], cs) {
      assert LeadCount(s, cs) == 0;
      assert s[0..] == s;
      assert TrailCount(s, cs) == 0;
    }
  }

  /** A leading whitespace character makes no difference to `Trim`. */
  lemma TrimLeadingSpace(c: char, s: string)
    requires IsSpace(c)
    ensures Trim([c] + s) == Trim(s)
  {
    var t := [c] + s;
    assert t[1..] == s;
    assert LeadCount(t, Whitespace) == 1 + LeadCount(s, Whitespace);
    assert t[LeadCount(t, Whitespace)..] == s[LeadCount(s, Whitespace)..];
  }

  /** No whitespace character occurs in `s`. */
  predicate NoSpace(s: string) {
    forall k :: 0 <= k < |s| ==> !IsSpace(s[k])
  }

  /** Python's `s.split()`: the maximal runs of non-whitespace, in order. */
  function Words(s: string): (r: seq<string>)
    ensures forall i :: 0 <= i < |r| ==> |r[i]| > 0 && NoSpace(r[i])
    decreases |s|
  {
    var t := s[LeadCount(s, Whitespace)..];
    if |t| == 0 then []
    else
      var n := RunOutside(t, Whitespace);
      [t[..n]] + Words(t[n..])
  }

  /** Every whitespace character of `s` is a plain space. */
  predicate PlainSpaces(s: string) {
    forall k :: 0 <= k < |s| ==> IsSpace(s[k]) ==> s[k] == ' '
  }

  /** No two spaces are adjacent in `s`. */
  predicate SingleSpaced(s: string) {
    forall k :: 0 <= k < |s| - 1 ==> s[k] == ' ' ==> s[k + 1] != ' '
  }

  /**
   * Text as `' '.join(s.split())` leaves it: the only whitespace is a single
   * space between two non-space characters.
   */
  predicate Collapsed(s: string) {
    && PlainSpaces(s)
    && SingleSpaced(s)
    && (|s| > 0 ==> s[0] != ' ' && s[|s| - 1] != ' ')
  }

  lemma PlainSpacesConcat(a: string, b: string)
    requires PlainSpaces(a) && PlainSpaces(b)
    ensures PlainSpaces(a + b)
  {
    forall k | 0 <= k < |a + b| && IsSpace((a + b)[k])
      ensures (a + b)[k] == ' '
    {
      if k >= |a| {
        assert (a + b)[k] == b[k - |a|];
      }
    }
  }

  lemma SingleSpacedConcat(a: string, b: string)
    requires SingleSpaced(a) && SingleSpaced(b)
    requires |a| > 0 && |b| > 0 && a[|a| - 1] == ' ' ==> b[0] != ' '
    ensures SingleSpaced(a + b)
  {
    forall k | 0 <= k < |a + b| - 1 && (a + b)[k] == ' '
      ensures (a + b)[k + 1] != ' '
    {
      if k >= |a| {
        assert (a + b)[k] == b[k - |a|];
        assert (a + b)[k + 1] == b[k + 1 - |a|];
      } else if k == |a| - 1 {
        assert (a + b)[k + 1] == b[0];
      }
    }
  }

  lemma {:induction false} JoinWordsCollapsed(ws: seq<string>)
    requires forall i :: 0 <= i < |ws| ==> |ws[i]| > 0 && NoSpace(ws[i])
    ensures Collapsed(Join(ws, " "))
    ensures |ws| > 0 ==> |Join(ws, " ")| > 0 && Join(ws, " ")[0] == ws[0][0]
    decreases |ws|
  {
    if |ws| > 1 {
      var w := ws[0];
      var j := Join(ws[1..], " ");
      JoinWordsCollapsed(ws[1..]);
      assert Join(ws, " ") == (w + " ") + j;
      PlainSpacesConcat(w, " ");
      PlainSpacesConcat(w + " ", j);
      SingleSpacedConcat(w, " ");
      SingleSpacedConcat(w + " ", j);
      assert ((w + " ") + j)[0] == w[0];
    }
  }

  /** Python's `' '.join(s.split())`. */
  function Collapse(s: string): (r: string)
    ensures Collapsed(r)
    ensures Content(r, false) == Content(s, false) && Content(r, true) == Content(s, true)
  {
    JoinWordsCollapsed(Words(s));
    ContentJoinWords(s, false);
    ContentJoinWords(s, true);
    Join(Words(s), " ")
  }

  lemma WordsSkipSpace(s: string)
    requires |s| > 0 && IsSpace(s[0])
    ensures Words(s) == Words(s[1..])
  {
    var a := LeadCount(s, Whitespace);
    assert a == 1 + LeadCount(s[1..], Whitespace);
    assert s[a..] == s[1..][LeadCount(s[1..], Whitespace)..];
  }

  lemma WordsAtWord(s: string)
    requires |s| > 0 && !IsSpace(s[0])
    ensures var n := RunOutside(s, Whitespace);
      0 < n && Words(s) == [s[..n]] + Words(s[n..])
  {
    assert LeadCount(s, Whitespace) == 0;
    assert s[0..] == s;
  }

  /** What follows the first space of collapsed text is collapsed and starts with a word. */
  lemma CollapsedAfterSpace(s: string, n: nat)
    requires Collapsed(s) && 0 < n < |s| && IsSpace(s[n])
    ensures s[n] == ' ' && n + 1 < |s| && !IsSpace(s[n + 1]) && Collapsed(s[n + 1..])
  {
    var u := s[n + 1..];
    forall k | 0 <= k < |u| - 1 && u[k] == ' '
      ensures u[k + 1] != ' '
    {
      assert u[k] == s[n + 1 + k] && u[k + 1] == s[n + 2 + k];
    }
    forall k | 0 <= k < |u| && IsSpace(u[k])
      ensures u[k] == ' '
    {
      assert u[k] == s[n + 1 + k];
    }
  }

  /** One word then a space: the words of `s` are that word and the words after the space. */
  lemma WordsAfterFirstSpace(s: string, n: nat)
    requires |s| > 0 && !IsSpace(s[0]) && n == RunOutside(s, Whitespace) && n < |s|
    requires n + 1 < |s| && !IsSpace(s[n + 1])
    ensures Words(s) == [s[..n]] + Words(s[n + 1..]) && |Words(s[n + 1..])| > 0
  {
    WordsAtWord(s);
    assert s[n..][1..] == s[n + 1..];
    WordsSkipSpace(s[n..]);
    WordsAtWord(s[n + 1..]);
  }

  lemma CollapseSingleWord(s: string)
    requires |s| > 0 && !IsSpace(s[0]) && RunOutside(s, Whitespace) == |s|
    ensures Join(Words(s), " ") == s
  {
    WordsAtWord(s);
    assert s[..|s|] == s;
    var e := s[|s|..];
    assert e == [];
    assert LeadCount(e, Whitespace) == 0;
    assert Words(e) == [];
    assert Words(s) == [s];
  }

  lemma SpaceAt(s: string, n: nat)
    requires n < |s| && s[n] == ' '
    ensures s == s[..n] + " " + s[n + 1..]
  {
    assert s[n..] == " " + s[n + 1..];
    assert s == s[..n] + s[n..];
  }

  /** Collapsed text is exactly the text `Collapse` leaves unchanged. */
  lemma {:induction false} CollapseFixesCollapsed(s: string)
    requires Collapsed(s)
    ensures Collapse(s) == s
    decreases |s|
  {
    if |s| == 0 {
      assert Words(s) == [];
    } else {
      var n := RunOutside(s, Whitespace);
      if n == |s| {
        CollapseSingleWord(s);
      } else {
        var w := s[..n];
        var u := s[n + 1..];
        CollapsedAfterSpace(s, n);
        CollapseFixesCollapsed(u);
        WordsAfterFirstSpace(s, n);
        JoinCons(w, Words(u), " ");
        SpaceAt(s, n);
      }
    }
  }

  predicate AllSpace(s: string) {
    forall k :: 0 <= k < |s| ==> IsSpace(s[k])
  }

  /** The end of the comma run that starts at `s[0]`: index of the closing ',' if any. */
  function CommaRunEnd(s: string): (e: int)
    requires |s| > 0 && s[0] == ','
    ensures e == -1 || (1 <= e < |s| && s[e] == ',' && AllSpace(s[1..e]))
    ensures e == -1 <==> !exists k :: 1 <= k < |s| && s[k] == ',' && AllSpace(s[1..k])
  {
    var k := LeadCount(s[1..], Whitespace);
    assert forall j :: 1 <= j < |s| && s[j] == ',' && AllSpace(s[1..j]) ==> k == j - 1 by {
      forall j | 1 <= j < |s| && s[j] == ',' && AllSpace(s[1..j]) ensures k == j - 1 {
        CommaRunFirst(s, j);
      }
    }
    if 1 + k < |s| && s[1 + k] == ',' then 1 + k else -1
  }

  /** A comma reached from `s[0]` over whitespace only is the first non-whitespace character after it. */
  lemma CommaRunFirst(s: string, j: int)
    requires |s| > 0 && s[0] == ',' && 1 <= j < |s| && s[j] == ',' && AllSpace(s[1..j])
    ensures LeadCount(s[1..], Whitespace) == j - 1
  {
    var t := s[1..];
    forall i | 0 <= i < j - 1 ensures In(t[i], Whitespace) {
      assert t[i] == s[1..j][i];
    }
    assert t[j - 1] == s[j];
    LeadCountIs(t, Whitespace, j - 1);
  }

  /**
   * Python's `re.sub(r',\s*,', ',', s)`: one left-to-right pass replacing each
   * non-overlapping comma, whitespace run, comma by a single comma.
   */
  function DedupCommas(s: string): string
    decreases |s|
  {
    if |s| == 0 then ""
    else if s[0] == ',' then
      var e := CommaRunEnd(s);
      if e >= 0 then "," + DedupCommas(s[e + 1..])
      else "," + DedupCommas(s[1..])
    else [s[0]] + DedupCommas(s[1..])
  }

  /** The comma clean-up keeps every character other than whitespace and commas, in order. */
  lemma {:induction false} DedupCommasContent(s: string)
    ensures Content(DedupCommas(s), true) == Content(s, true)
    decreases |s|
  {
    if |s| > 0 {
      var rest := DedupStep(s);
      DedupCommasContent(rest);
      ContentCons(s[0], DedupCommas(rest), true);
    }
  }

  /** One step of the comma clean-up, with what it skips: `rest` is the text after the first character and its comma run. */
  lemma DedupStep(s: string) returns (rest: string)
    requires |s| > 0
    ensures rest == if s[0] == ',' && CommaRunEnd(s) >= 0 then s[CommaRunEnd(s) + 1..] else s[1..]
    ensures |rest| < |s|
    ensures DedupCommas(s) == [s[0]] + DedupCommas(rest)
    ensures Content(s, true) == (if Kept(s[0], true) then [s[0]] else "") + Content(rest, true)
  {
    if s[0] == ',' && CommaRunEnd(s) >= 0 {
      rest := s[CommaRunEnd(s) + 1..];
      DedupUnfold(s);
      CommaRunContent(s, CommaRunEnd(s));
    } else {
      rest := s[1..];
      DedupUnfold(s);
      ContentUnfold(s, true);
    }
  }

  /** One step of the comma clean-up: the first character stays, and a comma run after it goes. */
  lemma DedupUnfold(s: string)
    requires |s| > 0
    ensures s[0] == ',' && CommaRunEnd(s) >= 0 ==> DedupCommas(s) == "," + DedupCommas(s[CommaRunEnd(s) + 1..])
    ensures !(s[0] == ',' && CommaRunEnd(s) >= 0) ==> DedupCommas(s) == [s[0]] + DedupCommas(s[1..])
  {
  }

  /** One step of `Content`. */
  lemma ContentUnfold(s: string, d: bool)
    requires |s| > 0
    ensures Content(s, d) == (if Kept(s[0], d) then [s[0]] else "") + Content(s[1..], d)
  {
  }

  /** A comma run holds nothing but commas and whitespace. */
  lemma CommaRunContent(s: string, e: int)
    requires |s| > 0 && s[0] == ',' && e == CommaRunEnd(s) && e >= 0
    ensures Content(s, true) == Content(s[e + 1..], true)
  {
    var run := s[..e + 1];
    assert s == run + s[e + 1..];
    ContentAppend(run, s[e + 1..], true);
    forall k | 0 <= k < e + 1 ensures !Kept(run[k], true) {
      if 0 < k < e {
        assert s[1..e][k - 1] == s[k];
      }
    }
    ContentBlank(run, true);
  }

  lemma PlainSpacesSuffix(s: string, i: nat)
    requires PlainSpaces(s) && i <= |s|
    ensures PlainSpaces(s[i..])
  {
    var t := s[i..];
    forall k | 0 <= k < |t|
      ensures IsSpace(t[k]) ==> t[k] == ' '
    {
      assert t[k] == s[i + k];
    }
  }

  /** One step of the comma clean-up: a comma run becomes one comma. */
  lemma DedupRunStep(s: string)
    requires |s| > 0 && s[0] == ',' && CommaRunEnd(s) >= 0
    requires PlainSpaces(DedupCommas(s[CommaRunEnd(s) + 1..]))
    ensures PlainSpaces(DedupCommas(s))
  {
    var t := DedupCommas(s[CommaRunEnd(s) + 1..]);
    assert DedupCommas(s) == "," + t;
    assert PlainSpaces(",");
    PlainSpacesConcat(",", t);
  }

  /** One step of the comma clean-up: any other character is kept. */
  lemma DedupKeepStep(s: string)
    requires |s| > 0 && !(s[0] == ',' && CommaRunEnd(s) >= 0)
    requires PlainSpaces(s) && PlainSpaces(DedupCommas(s[1..]))
    ensures PlainSpaces(DedupCommas(s))
  {
    assert PlainSpaces([s[0]]);
    PlainSpacesConcat([s[0]], DedupCommas(s[1..]));
  }

  /** The comma clean-up introduces no whitespace of its own. */
  lemma {:induction false} DedupCommasPlainSpaces(s: string)
    requires PlainSpaces(s)
    ensures PlainSpaces(DedupCommas(s))
    decreases |s|
  {
    if |s| > 0 {
      if s[0] == ',' && CommaRunEnd(s) >= 0 {
        PlainSpacesSuffix(s, CommaRunEnd(s) + 1);
        DedupCommasPlainSpaces(s[CommaRunEnd(s) + 1..]);
        DedupRunStep(s);
      } else {
        PlainSpacesSuffix(s, 1);
        DedupCommasPlainSpaces(s[1..]);
        DedupKeepStep(s);
      }
    }
  }

  lemma SingleSpacedSuffix(s: string, i: nat)
    requires SingleSpaced(s) && i <= |s|
    ensures SingleSpaced(s[i..])
  {
    var t := s[i..];
    forall k | 0 <= k < |t| - 1 && t[k] == ' '
      ensures t[k + 1] != ' '
    {
      assert t[k] == s[i + k] && t[k + 1] == s[i + k + 1];
    }
  }

  /** The comma clean-up never makes two spaces adjacent, nor a leading space. */
  lemma {:induction false} DedupCommasSingleSpaced(s: string)
    requires SingleSpaced(s)
    ensures SingleSpaced(DedupCommas(s))
    ensures |DedupCommas(s)| > 0 && DedupCommas(s)[0] == ' ' ==> |s| > 0 && s[0] == ' '
    decreases |s|
  {
    if |s| > 0 {
      var rest := DedupStep(s);
      if s[0] == ',' && CommaRunEnd(s) >= 0 {
        SingleSpacedSuffix(s, CommaRunEnd(s) + 1);
      } else {
        SingleSpacedSuffix(s, 1);
        assert s[0] == ' ' && |rest| > 0 ==> rest[0] != ' ';
      }
      DedupCommasSingleSpaced(rest);
      SingleSpacedConcat([s[0]], DedupCommas(rest));
    }
  }


  // ---------------------------------------------------------------------------
  // What the clean-up keeps
  // ---------------------------------------------------------------------------

  /** `c` is kept by `Content`: not whitespace, and not a comma when commas are dropped. */
  predicate Kept(c: char, dropComma: bool) {
    !IsSpace(c) && !(dropComma && c == ',')
  }

  /**
   * The characters of `s` other than whitespace (and, with `dropComma`, other than
   * commas), in order: what the whitespace and comma clean-ups must not change.
   */
  function Content(s: string, dropComma: bool): (r: string)
    ensures |r| <= |s|
    ensures forall k :: 0 <= k < |r| ==> Kept(r[k], dropComma)
    decreases |s|
  {
    if |s| == 0 then ""
    else (if Kept(s[0], dropComma) then [s[0]] else "") + Content(s[1..], dropComma)
  }

  lemma ContentCons(c: char, s: string, d: bool)
    ensures Content([c] + s, d) == (if Kept(c, d) then [c] else "") + Content(s, d)
  {
    assert ([c] + s)[1..] == s;
  }

  /** Content is taken character by character, so it distributes over concatenation. */
  lemma {:induction false} ContentAppend(a: string, b: string, d: bool)
    ensures Content(a + b, d) == Content(a, d) + Content(b, d)
    decreases |a|
  {
    if |a| == 0 {
      assert a + b == b;
    } else {
      assert (a + b)[0] == a[0] && (a + b)[1..] == a[1..] + b;
      ContentAppend(a[1..], b, d);
    }
  }

  /** Text without a kept character has no content. */
  lemma {:induction false} ContentBlank(s: string, d: bool)
    requires forall k :: 0 <= k < |s| ==> !Kept(s[k], d)
    ensures Content(s, d) == ""
    decreases |s|
  {
    if |s| > 0 {
      assert forall k :: 0 <= k < |s[1..]| ==> s[1..][k] == s[k + 1];
      ContentBlank(s[1..], d);
    }
  }

  /** A space has no content. */
  lemma ContentSpace(d: bool)
    ensures Content(" ", d) == ""
  {
    assert " "[1..] == "";
  }

  /** Text that is all whitespace has no words. */
  lemma WordsNone(x: string)
    requires LeadCount(x, Whitespace) == |x|
    ensures Words(x) == []
  {
    assert x[|x|..] == [];
  }

  /** The first word runs from the end of the leading whitespace to the next whitespace character. */
  lemma WordsStep(x: string, la: nat, n: nat)
    requires la == LeadCount(x, Whitespace) && la < |x| && n == RunOutside(x[la..], Whitespace)
    ensures Words(x) == [x[la..][..n]] + Words(x[la..][n..])
  {
  }

  /** `Words` skips the leading whitespace. */
  lemma WordsSkipLead(x: string)
    ensures Words(x) == Words(x[LeadCount(x, Whitespace)..])
  {
    var t := x[LeadCount(x, Whitespace)..];
    if |t| > 0 {
      assert t[0] == x[LeadCount(x, Whitespace)];
    }
    LeadCountIs(t, Whitespace, 0);
    assert t[0..] == t;
  }

  /** Splitting on whitespace at a whitespace character splits the two sides apart. */
  lemma {:induction false} WordsSpaceAppend(a: string, c: char, b: string)
    requires IsSpace(c)
    ensures Words(a + [c] + b) == Words(a) + Words(b)
    decreases |a|
  {
    if LeadCount(a, Whitespace) == |a| {
      WordsBlankSpaceAppend(a, c, b);
      WordsNone(a);
    } else {
      var w, rest := WordsFrontSpaceAppend(a, c, b);
      WordsSpaceAppend(rest, c, b);
      AppendAssoc([w], Words(rest), Words(b));
    }
  }

  /** When `a` is all whitespace, `a + [c] + b` has the words of `b`. */
  lemma WordsBlankSpaceAppend(a: string, c: char, b: string)
    requires IsSpace(c) && LeadCount(a, Whitespace) == |a|
    ensures Words(a + [c] + b) == Words(b)
  {
    var lb := LeadCount(b, Whitespace);
    LeadBlankSpaceAppend(a, c, b);
    DropPast(a + [c], b, |a| + 1 + lb);
    WordsSameTail(a + [c] + b, b, |a| + 1 + lb, lb);
  }

  /** Texts whose leading whitespace is followed by the same text have the same words. */
  lemma WordsSameTail(x: string, y: string, m: nat, n: nat)
    requires m == LeadCount(x, Whitespace) && n == LeadCount(y, Whitespace) && x[m..] == y[n..]
    ensures Words(x) == Words(y)
  {
    WordsSkipLead(x);
    WordsSkipLead(y);
  }

  /** The leading whitespace of `a + [c] + b`, when `a` is all whitespace, runs into that of `b`. */
  lemma LeadBlankSpaceAppend(a: string, c: char, b: string)
    requires IsSpace(c) && LeadCount(a, Whitespace) == |a|
    ensures LeadCount(a + [c] + b, Whitespace) == |a| + 1 + LeadCount(b, Whitespace)
  {
    var x := a + [c] + b;
    var lb := LeadCount(b, Whitespace);
    forall k | 0 <= k < |a| + 1 + lb ensures In(x[k], Whitespace) {
      if k < |a| {
        assert x[k] == a[k];
      } else if k > |a| {
        assert x[k] == b[k - |a| - 1];
      }
    }
    if |a| + 1 + lb < |x| {
      assert x[|a| + 1 + lb] == b[lb];
    }
    LeadCountIs(x, Whitespace, |a| + 1 + lb);
  }

  /** Dropping past the left part of a concatenation drops into the right part. */
  lemma DropPast(a: string, b: string, i: nat)
    requires |a| <= i <= |a| + |b|
    ensures (a + b)[i..] == b[i - |a|..]
  {
  }

  /** The first word of `a` is also the first word of `a + [c] + b`; `rest` is what follows it in `a`. */
  lemma WordsFrontSpaceAppend(a: string, c: char, b: string) returns (w: string, rest: string)
    requires IsSpace(c) && LeadCount(a, Whitespace) < |a|
    ensures |rest| < |a|
    ensures Words(a) == [w] + Words(rest)
    ensures Words(a + [c] + b) == [w] + Words(rest + [c] + b)
  {
    var la := LeadCount(a, Whitespace);
    LeadWordSpaceAppend(a, c, b);
    var ta := a[la..];
    SplitAround(a, c, b, la);
    var n := RunOutside(ta, Whitespace);
    RunWordSpaceAppend(ta, c, b);
    SplitAround(ta, c, b, n);
    w, rest := ta[..n], ta[n..];
    WordsFrontShared(a + [c] + b, a, la, n, ta + [c] + b, ta);
  }

  /** Taking and dropping `n` characters of `a + [c] + b` within `a`. */
  lemma SplitAround(a: string, c: char, b: string, n: nat)
    requires n <= |a|
    ensures (a + [c] + b)[..n] == a[..n]
    ensures (a + [c] + b)[n..] == a[n..] + [c] + b
  {
  }

  /** The leading whitespace of `a + [c] + b` is that of `a` when `a` holds more than whitespace. */
  lemma LeadWordSpaceAppend(a: string, c: char, b: string)
    requires LeadCount(a, Whitespace) < |a|
    ensures LeadCount(a + [c] + b, Whitespace) == LeadCount(a, Whitespace)
  {
    var x := a + [c] + b;
    var la := LeadCount(a, Whitespace);
    forall k | 0 <= k < la ensures In(x[k], Whitespace) {
      assert x[k] == a[k];
    }
    assert x[la] == a[la];
    LeadCountIs(x, Whitespace, la);
  }

  /** The first word of `t + [c] + b`, for a whitespace `c`, is the first word of `t`. */
  lemma RunWordSpaceAppend(t: string, c: char, b: string)
    requires IsSpace(c)
    ensures RunOutside(t + [c] + b, Whitespace) == RunOutside(t, Whitespace)
  {
    var x := t + [c] + b;
    var n := RunOutside(t, Whitespace);
    forall k | 0 <= k < n ensures !In(x[k], Whitespace) {
      assert x[k] == t[k];
    }
    if n < |t| {
      assert x[n] == t[n];
    } else {
      assert x[n] == c;
    }
    RunOutsideIs(x, Whitespace, n);
  }

  /** Two texts with the same leading whitespace and the same first word, given as positions. */
  lemma WordsFrontShared(x: string, a: string, la: nat, n: nat, tx: string, ta: string)
    requires la == LeadCount(x, Whitespace) == LeadCount(a, Whitespace) && la < |a|
    requires tx == x[la..] && ta == a[la..] && n == RunOutside(tx, Whitespace) == RunOutside(ta, Whitespace)
    requires tx[..n] == ta[..n]
    ensures Words(a) == [ta[..n]] + Words(ta[n..])
    ensures Words(x) == [ta[..n]] + Words(tx[n..])
  {
    WordsStep(x, la, n);
    WordsStep(a, la, n);
  }

  /** A word is its own split. */
  lemma WordsOfWord(w: string)
    requires |w| > 0 && NoSpace(w)
    ensures Words(w) == [w]
  {
    RunOutsideIs(w, Whitespace, |w|);
    WordsAtWord(w);
    assert w[..|w|] == w;
    var e := w[|w|..];
    assert LeadCount(e, Whitespace) == 0;
  }

  /** A word, a space, then more text: the word comes first, then the words of the rest. */
  lemma WordsCons(w: string, s: string)
    requires |w| > 0 && NoSpace(w)
    ensures Words(w + " " + s) == [w] + Words(s)
  {
    assert w + " " + s == w + [' '] + s;
    WordsSpaceAppend(w, ' ', s);
    WordsOfWord(w);
  }

  /** Joining two non-empty lists puts one separator between the joins. */
  lemma {:induction false} JoinAppend(x: seq<string>, y: seq<string>, sep: string)
    requires |x| > 0 && |y| > 0
    ensures Join(x + y, sep) == Join(x, sep) + sep + Join(y, sep)
    decreases |x|
  {
    if |x| == 1 {
      assert x + y == [x[0]] + y;
      JoinCons(x[0], y, sep);
    } else {
      JoinAppend(x[1..], y, sep);
      assert x + y == [x[0]] + (x[1..] + y);
      JoinCons(x[0], x[1..] + y, sep);
      assert x == [x[0]] + x[1..];
      JoinCons(x[0], x[1..], sep);
    }
  }

  /** The words of `s`, joined with single spaces, have the content of `s`. */
  lemma {:induction false} ContentJoinWords(s: string, d: bool)
    ensures Content(Join(Words(s), " "), d) == Content(s, d)
    decreases |s|
  {
    if LeadCount(s, Whitespace) == |s| {
      ContentBlankWords(s, d);
    } else {
      var w, rest := ContentFrontWord(s, d);
      ContentJoinWords(rest, d);
      ContentJoinCons(w, Words(rest), d);
    }
  }

  /** Text that is all whitespace has neither words nor content. */
  lemma ContentBlankWords(s: string, d: bool)
    requires LeadCount(s, Whitespace) == |s|
    ensures Words(s) == [] && Content(s, d) == ""
  {
    WordsNone(s);
    ContentBlank(s, d);
  }

  /** The content of `s` is that of its first word and then that of the rest. */
  lemma ContentFrontWord(s: string, d: bool) returns (w: string, rest: string)
    requires LeadCount(s, Whitespace) < |s|
    ensures |rest| < |s|
    ensures Words(s) == [w] + Words(rest)
    ensures Content(s, d) == Content(w, d) + Content(rest, d)
  {
    var la := LeadCount(s, Whitespace);
    var lead, t := s[..la], s[la..];
    assert s == lead + t;
    ContentAppend(lead, t, d);
    assert forall k :: 0 <= k < la ==> lead[k] == s[k];
    ContentBlank(lead, d);
    var n := RunOutside(t, Whitespace);
    w, rest := t[..n], t[n..];
    assert t == w + rest;
    ContentAppend(w, rest, d);
    WordsStep(s, la, n);
  }

  /** Joining with spaces adds no content. */
  lemma ContentJoinCons(w: string, ws: seq<string>, d: bool)
    ensures Content(Join([w] + ws, " "), d) == Content(w, d) + Content(Join(ws, " "), d)
  {
    if |ws| == 0 {
      assert [w] + ws == [w];
      assert Join([w], " ") == w;
    } else {
      JoinCons(w, ws, " ");
      ContentAppend(w + " ", Join(ws, " "), d);
      ContentAppend(w, " ", d);
      ContentSpace(d);
    }
  }

  /** Collapsing text, a space and a collapsed text collapses only the front. */
  lemma CollapseSpaceAppend(p: string, q: string)
    requires Collapsed(q) && |q| > 0 && Content(p, false) != ""
    ensures Collapse(p + " " + q) == Collapse(p) + " " + q
  {
    assert p + " " + q == p + [' '] + q;
    WordsSpaceAppend(p, ' ', q);
    ContentJoinWords(p, false);
    assert Words(p) != [];
    CollapseFixesCollapsed(q);
    assert Words(q) != [];
    JoinAppend(Words(p), Words(q), " ");
  }

  /** A comma run cannot reach past text that starts with a character other than whitespace or a comma. */
  lemma CommaRunEndAppend(a: string, b: string)
    requires |a| > 0 && a[0] == ',' && |b| > 0 && !IsSpace(b[0]) && b[0] != ','
    ensures CommaRunEnd(a + b) == CommaRunEnd(a)
  {
    var s := a + b;
    var t, ta := s[1..], a[1..];
    var k := LeadCount(ta, Whitespace);
    assert t == ta + b;
    forall i | 0 <= i < k ensures In(t[i], Whitespace) {
      assert t[i] == ta[i];
    }
    if k < |ta| {
      assert t[k] == ta[k];
    } else {
      assert t[k] == b[0];
    }
    LeadCountIs(t, Whitespace, k);
    if 1 + k < |a| {
      assert s[1 + k] == a[1 + k];
    } else {
      assert s[1 + k] == b[0];
    }
  }

  /** The comma clean-up treats the two sides apart when the right one starts with a kept character. */
  lemma {:induction false} DedupAppend(a: string, b: string)
    requires |b| > 0 && !IsSpace(b[0]) && b[0] != ','
    ensures DedupCommas(a + b) == DedupCommas(a) + DedupCommas(b)
    decreases |a|
  {
    if |a| == 0 {
      assert a + b == b;
    } else {
      var rest := if a[0] == ',' && CommaRunEnd(a) >= 0 then a[CommaRunEnd(a) + 1..] else a[1..];
      DedupAppendStep(a, b, rest);
      DedupAppend(rest, b);
      AppendAssoc([a[0]], DedupCommas(rest), DedupCommas(b));
    }
  }

  /** One step of `DedupAppend`: both sides drop the same run from the front of `a`. */
  lemma DedupAppendStep(a: string, b: string, rest: string)
    requires |a| > 0 && |b| > 0 && !IsSpace(b[0]) && b[0] != ','
    requires rest == if a[0] == ',' && CommaRunEnd(a) >= 0 then a[CommaRunEnd(a) + 1..] else a[1..]
    ensures |rest| < |a|
    ensures DedupCommas(a) == [a[0]] + DedupCommas(rest)
    ensures DedupCommas(a + b) == [a[0]] + DedupCommas(rest + b)
  {
    var i := if a[0] == ',' && CommaRunEnd(a) >= 0 then CommaRunEnd(a) + 1 else 1;
    DropAppend(a, b, i);
    if a[0] == ',' {
      CommaRunEndAppend(a, b);
    }
    DedupUnfoldTo(a + b, i);
    DedupUnfoldTo(a, i);
  }

  /** `DedupUnfold` with the length of the step given: the clean-up goes on at `s[i..]`. */
  lemma DedupUnfoldTo(s: string, i: nat)
    requires |s| > 0 && i == if s[0] == ',' && CommaRunEnd(s) >= 0 then CommaRunEnd(s) + 1 else 1
    ensures i <= |s| && DedupCommas(s) == [s[0]] + DedupCommas(s[i..])
  {
    DedupUnfold(s);
  }

  /** Concatenation is associative. */
  lemma AppendAssoc<T>(x: seq<T>, y: seq<T>, z: seq<T>)
    ensures x + (y + z) == (x + y) + z
  {
  }

  /** The head and the tail of a concatenation with a non-empty left part. */
  lemma HeadAppend<T>(a: seq<T>, b: seq<T>)
    requires |a| > 0
    ensures (a + b)[0] == a[0] && (a + b)[1..] == a[1..] + b
  {
  }

  /** The last element and the front of a concatenation with a non-empty right part. */
  lemma LastAppend<T>(a: seq<T>, b: seq<T>)
    requires |b| > 0
    ensures (a + b)[|a + b| - 1] == b[|b| - 1] && (a + b)[..|a + b| - 1] == a + b[..|b| - 1]
  {
  }


  /** Dropping a prefix of the left part of a concatenation. */
  lemma DropAppend(a: string, b: string, i: nat)
    requires i <= |a|
    ensures (a + b)[i..] == a[i..] + b
    ensures |a| > 0 ==> (a + b)[0] == a[0]
  {
  }

  /** Stripping commas and spaces drops no content. */
  lemma StripContent(s: string)
    ensures Content(Strip(s, CommaOrSpace), true) == Content(s, true)
  {
    var r := Strip(s, CommaOrSpace);
    var lead, tail := StripParts(s);
    ContentAppend(lead + r, tail, true);
    ContentAppend(lead, r, true);
  }

  /** What `Strip` drops: a front and a back without content. */
  lemma StripParts(s: string) returns (lead: string, tail: string)
    ensures s == lead + Strip(s, CommaOrSpace) + tail
    ensures Content(lead, true) == "" && Content(tail, true) == ""
  {
    var a := LeadCount(s, CommaOrSpace);
    var r := Strip(s, CommaOrSpace);
    lead, tail := s[..a], s[a + |r|..];
    assert s == lead + r + tail;
    assert forall k :: 0 <= k < a ==> lead[k] == s[k];
    ContentBlank(lead, true);
    assert forall k :: 0 <= k < |tail| ==> tail[k] == s[a + |r| + k];
    ContentBlank(tail, true);
  }


  /** The leading commas and spaces of `d + q` are those of `d` when `q` starts with neither. */
  lemma LeadCountAppendKept(d: string, q: string)
    requires |q| > 0 && !In(q[0], CommaOrSpace)
    ensures LeadCount(d + q, CommaOrSpace) == LeadCount(d, CommaOrSpace)
  {
    var s := d + q;
    var a := LeadCount(d, CommaOrSpace);
    forall k | 0 <= k < a ensures In(s[k], CommaOrSpace) {
      assert s[k] == d[k];
    }
    if a < |d| {
      assert s[a] == d[a];
    } else {
      assert s[a] == q[0];
    }
    LeadCountIs(s, CommaOrSpace, a);
  }

  /** Stripping commas and spaces from text that ends in a kept text strips only the front. */
  lemma StripAppendKept(d: string, q: string)
    requires |q| > 0 && !In(q[0], CommaOrSpace) && !In(q[|q| - 1], CommaOrSpace)
    ensures Strip(d + q, CommaOrSpace) == d[LeadCount(d, CommaOrSpace)..] + q
  {
    LeadCountAppendKept(d, q);
    DropAppend(d, q, LeadCount(d, CommaOrSpace));
    LastOfAppend(d, q);
    StripKeptEnd(d + q, CommaOrSpace);
  }

  /** Text that ends with a kept character loses only its front to `Strip`. */
  lemma StripKeptEnd(s: string, cs: CharClass)
    requires |s| > 0 && !In(s[|s| - 1], cs)
    ensures Strip(s, cs) == s[LeadCount(s, cs)..]
  {
    var r := Strip(s, cs);
    assert LeadCount(s, cs) + |r| == |s|;
  }

  /** The last character of a concatenation with a non-empty right part. */
  lemma LastOfAppend(a: string, b: string)
    requires |b| > 0
    ensures (a + b)[|a + b| - 1] == b[|b| - 1]
  {
  }
}
