/**
 * Candidate retrieval and ranking. The element store is outside this model: it is
 * a function parameter that answers a domain, a category and a row count with
 * rows, and this module says what is asked of it and what is done with the answer.
 */
module ElementQuery {
  import opened Optional
  import opened Text
  import opened Elements
  import opened Ranking

  /** `search_by_domain(domain_id, category_id, limit)`: the rows the store returns. */
  type Store = (string, string, nat) -> seq<Element>

  /** A store that honours its limit: asked for `n` rows, it returns at most `n`, as SQL's `LIMIT` does. */
  ghost predicate Bounded(store: Store) {
    forall domain, category, n :: |store(domain, category, n)| <= n
  }

  /** The lowered text a keyword is searched in: name, Chinese name, keywords and template, space-separated. */
  function Searchable(e: Element): (r: string)
    ensures |r| == |e.name.GetOr("")| + |e.chineseName.GetOr("")| + |e.keywords.GetOr("")| + |e.aiPromptTemplate.GetOr("")| + 3
    ensures LowerCase(r)
    ensures Contains(r, Lower(e.name.GetOr(""))) && Contains(r, Lower(e.chineseName.GetOr("")))
    ensures Contains(r, Lower(e.keywords.GetOr(""))) && Contains(r, Lower(e.aiPromptTemplate.GetOr("")))
  {
    var n, c, k, t := e.name.GetOr(""), e.chineseName.GetOr(""), e.keywords.GetOr(""), e.aiPromptTemplate.GetOr("");
    var r := Lower(n + " " + c + " " + k + " " + t);
    SearchableParts(n, c, k, t);
    LowerIsLowerCase(n + " " + c + " " + k + " " + t);
    r
  }

  /** Each of the four lowered fields is a piece of the lowered, space-joined text. */
  lemma SearchableParts(n: string, c: string, k: string, t: string)
    ensures var r := Lower(n + " " + c + " " + k + " " + t);
      Contains(r, Lower(n)) && Contains(r, Lower(c)) && Contains(r, Lower(k)) && Contains(r, Lower(t))
  {
    LowerJoin4(n, c, k, t);
    FourPieces(Lower(n), Lower(c), Lower(k), Lower(t), Lower(" "));
  }

  lemma FourPieces(a: string, b: string, c: string, d: string, sp: string)
    ensures var r := a + sp + b + sp + c + sp + d;
      Contains(r, a) && Contains(r, b) && Contains(r, c) && Contains(r, d)
  {
    var r := a + sp + b + sp + c + sp + d;
    assert r == [] + a + (sp + b + sp + c + sp + d);
    ContainsMiddle([], a, sp + b + sp + c + sp + d);
    assert r == (a + sp) + b + (sp + c + sp + d);
    ContainsMiddle(a + sp, b, sp + c + sp + d);
    assert r == (a + sp + b + sp) + c + (sp + d);
    ContainsMiddle(a + sp + b + sp, c, sp + d);
    assert r == (a + sp + b + sp + c + sp) + d + [];
    ContainsMiddle(a + sp + b + sp + c + sp, d, []);
  }

  lemma LowerJoin4(n: string, c: string, k: string, t: string)
    ensures Lower(n + " " + c + " " + k + " " + t)
      == Lower(n) + Lower(" ") + Lower(c) + Lower(" ") + Lower(k) + Lower(" ") + Lower(t)
  {
    LowerConcat(n + " " + c + " " + k + " ", t);
    LowerConcat(n + " " + c + " " + k, " ");
    LowerConcat(n + " " + c + " ", k);
    LowerConcat(n + " " + c, " ");
    LowerConcat(n + " ", c);
    LowerConcat(n, " ");
  }

  /** Keyword `kw`, lowered, occurs in the element's searchable text. */
  predicate Hits(e: Element, kw: string) {
    Contains(Searchable(e), Lower(kw))
  }

  /** A keyword found, case-insensitively, in any one of the four searched fields hits the element. */
  lemma FieldHit(e: Element, kw: string)
    requires || Contains(Lower(e.name.GetOr("")), Lower(kw))
             || Contains(Lower(e.chineseName.GetOr("")), Lower(kw))
             || Contains(Lower(e.keywords.GetOr("")), Lower(kw))
             || Contains(Lower(e.aiPromptTemplate.GetOr("")), Lower(kw))
    ensures Hits(e, kw)
  {
    var r := Searchable(e);
    if Contains(Lower(e.name.GetOr("")), Lower(kw)) {
      ContainsTrans(r, Lower(e.name.GetOr("")), Lower(kw));
    } else if Contains(Lower(e.chineseName.GetOr("")), Lower(kw)) {
      ContainsTrans(r, Lower(e.chineseName.GetOr("")), Lower(kw));
    } else if Contains(Lower(e.keywords.GetOr("")), Lower(kw)) {
      ContainsTrans(r, Lower(e.keywords.GetOr("")), Lower(kw));
    } else {
      ContainsTrans(r, Lower(e.aiPromptTemplate.GetOr("")), Lower(kw));
    }
  }

  /** The number of keywords of `kws` that hit `e`. */
  function Matches(e: Element, kws: seq<string>): (n: nat)
    ensures n <= |kws|
    ensures n == 0 <==> forall k :: 0 <= k < |kws| ==> !Hits(e, kws[k])
    ensures n == |kws| <==> forall k :: 0 <= k < |kws| ==> Hits(e, kws[k])
    decreases |kws|
  {
    if |kws| == 0 then 0
    else
      var rest := Matches(e, kws[1..]);
      assert forall k :: 1 <= k < |kws| ==> kws[k] == kws[1..][k - 1];
      (if Hits(e, kws[0]) then 1 else 0) + rest
  }

  /** A single keyword matches once when it hits and not at all otherwise. */
  lemma MatchesSingle(e: Element, kw: string)
    ensures Matches(e, [kw]) == if Hits(e, kw) then 1 else 0
  {
    assert [kw][1..] == [];
  }

  /** The matches of two keyword lists add up: every hitting keyword counts once. */
  lemma {:induction false} MatchesAppend(e: Element, a: seq<string>, b: seq<string>)
    ensures Matches(e, a + b) == Matches(e, a) + Matches(e, b)
    decreases |a|
  {
    if |a| > 0 {
      assert (a + b)[0] == a[0];
      assert (a + b)[1..] == a[1..] + b;
      MatchesAppend(e, a[1..], b);
    } else {
      assert a + b == b;
    }
  }

  /**
   * `calculate_relevance`: the fraction of the keywords that hit the element, and
   * 0.5 when there are no keywords.
   */
  function Relevance(e: Element, kws: seq<string>): (r: real)
    ensures |kws| == 0 ==> r == 0.5
    ensures |kws| > 0 ==> r == (Matches(e, kws) as real) / (|kws| as real)
    ensures 0.0 <= r <= 1.0
    ensures |kws| > 0 ==> (r > 0.0 <==> exists k :: 0 <= k < |kws| && Hits(e, kws[k]))
    ensures |kws| > 0 ==> (r == 1.0 <==> forall k :: 0 <= k < |kws| ==> Hits(e, kws[k]))
  {
    if |kws| == 0 then 0.5
    else
      var n := Matches(e, kws);
      Fraction(n, |kws|);
      (n as real) / (|kws| as real)
  }

  lemma Fraction(a: nat, b: nat)
    requires 0 < b && a <= b
    ensures 0.0 <= (a as real) / (b as real) <= 1.0
    ensures (a as real) / (b as real) > 0.0 <==> a > 0
    ensures (a as real) / (b as real) == 1.0 <==> a == b
  {
    var q := (a as real) / (b as real);
    assert q * (b as real) == a as real;
  }

  /** One entry of the query's answer. Absent reusability and relevance read as 0. */
  datatype Candidate = Candidate(
    elementId: Option<string>,
    name: Option<string>,
    chineseName: Option<string>,
    template: string,
    keywords: string,
    reusability: real,
    relevance: real
  )

  /**
   * The output projection of one element: identity and names as stored, the
   * template cut to its first 200 characters, and absent keywords and reusability
   * read as the empty string and 0.
   */
  function Project(e: Element, relevance: real): (c: Candidate)
    ensures c.elementId == e.elementId && c.name == e.name && c.chineseName == e.chineseName
    ensures var t := e.aiPromptTemplate.GetOr("");
      && |c.template| == (if |t| <= 200 then |t| else 200)
      && c.template <= t
    ensures c.keywords == e.keywords.GetOr("") && c.reusability == e.reusabilityScore.GetOr(0.0)
    ensures c.relevance == relevance
  {
    Candidate(e.elementId, e.name, e.chineseName, Take(e.aiPromptTemplate.GetOr(""), 200),
      e.keywords.GetOr(""), e.reusabilityScore.GetOr(0.0), relevance)
  }

  /** The rows with positive relevance, in row order, each paired with its relevance. */
  function Relevant(rows: seq<Element>, kws: seq<string>): (r: seq<Scored<Element>>)
    ensures forall i :: 0 <= i < |r| ==> r[i].item in rows && r[i].score == Relevance(r[i].item, kws) > 0.0
    ensures forall j :: 0 <= j < |rows| && Relevance(rows[j], kws) > 0.0 ==> Scored(rows[j], Relevance(rows[j], kws)) in r
    decreases |rows|
  {
    if |rows| == 0 then []
    else
      var rest := Relevant(rows[1..], kws);
      assert forall j :: 1 <= j < |rows| ==> rows[j] == rows[1..][j - 1];
      var s := Relevance(rows[0], kws);
      if s > 0.0 then [Scored(rows[0], s)] + rest else rest
  }

  /** A single row is kept, with its relevance, exactly when that relevance is positive. */
  lemma RelevantSingle(e: Element, kws: seq<string>)
    ensures Relevant([e], kws) == if Relevance(e, kws) > 0.0 then [Scored(e, Relevance(e, kws))] else []
  {
    assert [e][1..] == [];
  }

  /** Filtering works row by row: the relevant rows of `a + b` are those of `a` followed by those of `b`. */
  lemma {:induction false} RelevantAppend(a: seq<Element>, b: seq<Element>, kws: seq<string>)
    ensures Relevant(a + b, kws) == Relevant(a, kws) + Relevant(b, kws)
    decreases |a|
  {
    if |a| > 0 {
      assert (a + b)[0] == a[0];
      assert (a + b)[1..] == a[1..] + b;
      RelevantAppend(a[1..], b, kws);
    } else {
      assert a + b == b;
    }
  }

  /** The projections of ranked candidates, in order. */
  function ProjectAll(xs: seq<Scored<Element>>): (r: seq<Candidate>)
    ensures |r| == |xs|
    ensures forall i :: 0 <= i < |xs| ==> r[i] == Project(xs[i].item, xs[i].score)
  {
    seq(|xs|, i requires 0 <= i < |xs| => Project(xs[i].item, xs[i].score))
  }

  /** The projections of unranked rows, in store order, with relevance 0. */
  function Unranked(rows: seq<Element>): (r: seq<Candidate>)
    ensures |r| == |rows|
    ensures forall i :: 0 <= i < |rows| ==> r[i] == Project(rows[i], 0.0)
  {
    seq(|rows|, i requires 0 <= i < |rows| => Project(rows[i], 0.0))
  }

  /** A prefix of a sequence holds, at every score, a prefix of the sequence's candidates of that score. */
  lemma TakeWithScore<T>(xs: seq<Scored<T>>, n: nat, v: real)
    ensures WithScore(Take(xs, n), v) <= WithScore(xs, v)
  {
    if n < |xs| {
      assert xs == xs[..n] + xs[n..];
      WithScoreAppend(xs[..n], xs[n..], v);
    }
  }

  /**
   * The ranked rows of a keyword query: at most `limit` rows of positive
   * relevance, by non-increasing relevance. At every relevance the rows kept are
   * the first rows of that relevance in store order, in that order.
   */
  function Ranked(rows: seq<Element>, kws: seq<string>, limit: nat): (r: seq<Scored<Element>>)
    ensures |r| <= limit
    ensures Descending(r)
    ensures forall i :: 0 <= i < |r| ==> r[i].item in rows && r[i].score == Relevance(r[i].item, kws) > 0.0
    ensures forall v :: WithScore(r, v) <= WithScore(Relevant(rows, kws), v)
  {
    var sorted := SortDescending(Relevant(rows, kws));
    TakeRelevant(rows, kws, sorted, limit);
    TakeKeepsScores(Relevant(rows, kws), sorted, limit);
    Take(sorted, limit)
  }

  /** A prefix of the sorted relevant rows holds only fetched rows of positive relevance. */
  lemma TakeRelevant(rows: seq<Element>, kws: seq<string>, sorted: seq<Scored<Element>>, limit: nat)
    requires sorted == SortDescending(Relevant(rows, kws))
    ensures forall i :: 0 <= i < |Take(sorted, limit)| ==>
      Take(sorted, limit)[i].item in rows && Take(sorted, limit)[i].score == Relevance(Take(sorted, limit)[i].item, kws) > 0.0
  {
    var r := Take(sorted, limit);
    forall i | 0 <= i < |r|
      ensures r[i].item in rows && r[i].score == Relevance(r[i].item, kws) > 0.0
    {
      assert r[i] == sorted[i];
      SortKeepsMembers(Relevant(rows, kws), r[i]);
    }
  }

  /** A prefix of the sorted candidates holds, at every score, a prefix of those of that score. */
  lemma TakeKeepsScores<T>(xs: seq<Scored<T>>, sorted: seq<Scored<T>>, limit: nat)
    requires sorted == SortDescending(xs)
    ensures forall v :: WithScore(Take(sorted, limit), v) <= WithScore(xs, v)
  {
    forall v ensures WithScore(Take(sorted, limit), v) <= WithScore(xs, v) {
      TakeWithScore(sorted, limit, v);
    }
  }

  /**
   * The sort is stable: relevant rows the store already lists by non-increasing
   * relevance, ties included, come back in store order, cut at `limit`.
   */
  lemma RankedKeepsStoreOrder(rows: seq<Element>, kws: seq<string>, limit: nat)
    requires Descending(Relevant(rows, kws))
    ensures Ranked(rows, kws, limit) == Take(Relevant(rows, kws), limit)
  {
    var xs := Relevant(rows, kws);
    SortIsStableOrder(xs, xs);
  }

  /** Two rows of the same positive relevance come back in the order the store gave them. */
  lemma TieKeepsStoreOrder(a: Element, b: Element, kws: seq<string>, limit: nat, s: real)
    requires limit >= 2 && s > 0.0 && Relevance(a, kws) == s && Relevance(b, kws) == s
    ensures Ranked([a, b], kws, limit) == [Scored(a, s), Scored(b, s)]
  {
    RelevantPair(a, b, kws, s, s);
    RankedAll([a, b], kws, limit, [Scored(a, s), Scored(b, s)]);
  }

  /** When the relevant rows are already in descending order and fit the limit, all come back as listed. */
  lemma RankedAll(rows: seq<Element>, kws: seq<string>, limit: nat, xs: seq<Scored<Element>>)
    requires Relevant(rows, kws) == xs && Descending(xs) && |xs| <= limit
    ensures Ranked(rows, kws, limit) == xs
  {
    RankedKeepsStoreOrder(rows, kws, limit);
  }

  /** Two relevant rows are both kept, in order. */
  lemma RelevantPair(a: Element, b: Element, kws: seq<string>, sa: real, sb: real)
    requires Relevance(a, kws) == sa > 0.0 && Relevance(b, kws) == sb > 0.0
    ensures Relevant([a, b], kws) == [Scored(a, sa), Scored(b, sb)]
  {
    RelevantCons(a, [b], kws);
    RelevantSingle(b, kws);
    assert [a] + [b] == [a, b];
  }

  /** A relevant first row is kept, with its relevance, in front of the relevant rows of the rest. */
  lemma RelevantCons(e: Element, rest: seq<Element>, kws: seq<string>)
    requires Relevance(e, kws) > 0.0
    ensures Relevant([e] + rest, kws) == [Scored(e, Relevance(e, kws))] + Relevant(rest, kws)
  {
    assert ([e] + rest)[1..] == rest;
  }

  /**
   * `query_elements`: the store is asked for `3 * limit` rows of the domain and
   * category when keywords are given and for `limit` rows otherwise. Without
   * keywords the rows come back in store order with relevance 0; with keywords
   * the ranked relevant rows come back.
   */
  function QueryElements(store: Store, domain: string, category: string, keywords: seq<string>, limit: nat): (r: seq<Candidate>)
    ensures |keywords| == 0 ==> r == Unranked(store(domain, category, limit))
    ensures |keywords| > 0 ==> r == ProjectAll(Ranked(store(domain, category, 3 * limit), keywords, limit))
  {
    var rows := store(domain, category, if |keywords| > 0 then 3 * limit else limit);
    if |keywords| > 0 && |rows| > 0 then ProjectAll(Ranked(rows, keywords, limit))
    else Unranked(rows)
  }

  /**
   * The ranked part of a keyword query: at most `limit` candidates, each one a
   * row with positive relevance, ordered by non-increasing relevance.
   */
  lemma RankedShape(rows: seq<Element>, keywords: seq<string>, limit: nat)
    ensures var r := ProjectAll(Ranked(rows, keywords, limit));
      && |r| <= limit
      && (forall i :: 0 <= i < |r| ==> r[i].relevance > 0.0 && exists j :: 0 <= j < |rows| && r[i] == Project(rows[j], Relevance(rows[j], keywords)))
      && (forall i, j :: 0 <= i < j < |r| ==> r[i].relevance >= r[j].relevance)
  {
    var kept := Ranked(rows, keywords, limit);
    forall i | 0 <= i < |kept|
      ensures exists j :: 0 <= j < |rows| && kept[i].item == rows[j]
    {
      assert kept[i].item in rows;
    }
  }

  /**
   * From a store that honours its limit at most `limit` candidates come back.
   * Without keywords they are the fetched rows in store order with relevance 0;
   * with keywords each one is a fetched row with positive relevance, ordered by
   * non-increasing relevance.
   */
  lemma QueryShape(store: Store, domain: string, category: string, keywords: seq<string>, limit: nat)
    requires Bounded(store)
    ensures |QueryElements(store, domain, category, keywords, limit)| <= limit
    ensures |keywords| == 0 ==> var rows := store(domain, category, limit);
      var r := QueryElements(store, domain, category, keywords, limit);
      && |r| == |rows|
      && forall i :: 0 <= i < |r| ==> r[i].relevance == 0.0 && r[i] == Project(rows[i], 0.0)
    ensures |keywords| > 0 ==> var rows := store(domain, category, 3 * limit);
      var r := QueryElements(store, domain, category, keywords, limit);
      && (forall i :: 0 <= i < |r| ==> r[i].relevance > 0.0 && exists j :: 0 <= j < |rows| && r[i] == Project(rows[j], Relevance(rows[j], keywords)))
      && (forall i, j :: 0 <= i < j < |r| ==> r[i].relevance >= r[j].relevance)
  {
    if |keywords| > 0 {
      RankedShape(store(domain, category, 3 * limit), keywords, limit);
    } else {
      assert |store(domain, category, limit)| <= limit;
    }
  }

  /**
   * Nothing relevant is dropped without cause: a row with positive relevance is
   * ranked, or the ranking is full and everything in it scores at least as much.
   */
  lemma RankedKeepsBest(rows: seq<Element>, keywords: seq<string>, limit: nat, j: nat)
    requires j < |rows| && Relevance(rows[j], keywords) > 0.0
    ensures var r := Ranked(rows, keywords, limit);
      var s := Relevance(rows[j], keywords);
      Scored(rows[j], s) in r || (|r| == limit && forall i :: 0 <= i < |r| ==> r[i].score >= s)
  {
    var s := Relevance(rows[j], keywords);
    var scored := Relevant(rows, keywords);
    var sorted := SortDescending(scored);
    var kept := Take(sorted, limit);
    SortKeepsMembers(scored, Scored(rows[j], s));
    var p :| 0 <= p < |sorted| && sorted[p] == Scored(rows[j], s);
    if p < limit {
      assert kept[p] == sorted[p];
    } else {
      forall i | 0 <= i < |kept| ensures kept[i].score >= s {
        assert kept[i] == sorted[i];
      }
    }
  }

  /**
   * A fetched row with positive relevance is in the answer, or the answer is full
   * and everything in it is at least as relevant.
   */
  lemma QueryKeepsBest(store: Store, domain: string, category: string, keywords: seq<string>, limit: nat, j: nat)
    requires |keywords| > 0 && j < |store(domain, category, 3 * limit)|
    requires Relevance(store(domain, category, 3 * limit)[j], keywords) > 0.0
    ensures var r := QueryElements(store, domain, category, keywords, limit);
      var s := Relevance(store(domain, category, 3 * limit)[j], keywords);
      Project(store(domain, category, 3 * limit)[j], s) in r || (|r| == limit && forall i :: 0 <= i < |r| ==> r[i].relevance >= s)
  {
    var rows := store(domain, category, 3 * limit);
    var s := Relevance(rows[j], keywords);
    var kept := Ranked(rows, keywords, limit);
    RankedKeepsBest(rows, keywords, limit, j);
    var r := ProjectAll(kept);
    if Scored(rows[j], s) in kept {
      var p :| 0 <= p < |kept| && kept[p] == Scored(rows[j], s);
      assert r[p] == Project(rows[j], s);
    }
  }

  /** `FIELD_TO_CATEGORY`: framework field names to store categories. */
  const FieldToCategory: map<string, string> := map[
    "styling.makeup" := "makeup_styles",
    "styling.clothing" := "clothing_styles",
    "styling.hairstyle" := "hairstyles",
    "styling.accessories" := "accessories",
    "lighting.lighting_type" := "lighting_techniques",
    "facial.eyes" := "eye_types",
    "facial.face_shape" := "face_shapes",
    "facial.nose" := "nose_types",
    "facial.lips" := "lip_types",
    "expression.facial_expression" := "expressions",
    "expression.pose" := "poses",
    "subject.ethnicity" := "ethnicities",
    "subject.age_range" := "age_ranges",
    "technical.art_style" := "art_styles",
    "technical.camera" := "camera_settings",
    "scene.atmosphere" := "atmospheres",
    "scene.environment" := "environments"
  ]

  /**
   * `query_by_field`: an unknown field name answers `[]` without asking the store;
   * a known one is `query_elements` on the domain and the field's mapped category.
   */
  function QueryByField(store: Store, fieldName: string, keywords: seq<string>, domain: string, limit: nat): (r: seq<Candidate>)
    ensures fieldName !in FieldToCategory ==> r == []
    ensures fieldName in FieldToCategory ==> r == QueryElements(store, domain, FieldToCategory[fieldName], keywords, limit)
  {
    if fieldName in FieldToCategory then QueryElements(store, domain, FieldToCategory[fieldName], keywords, limit) else []
  }

  /** One domain entry of the store's statistics; absent keys are `None`. */
  datatype DomainInfo = DomainInfo(domainId: string, name: Option<string>, elementCount: Option<int>)

  /** The store's statistics: an optional total and an optional list of domains. */
  datatype LibraryStats = LibraryStats(totalElements: Option<int>, domains: Option<seq<DomainInfo>>)

  datatype DomainSummary = DomainSummary(name: string, elementCount: int)

  datatype StatsReport = StatsReport(totalElements: int, domains: map<string, DomainSummary>)

  /** A domain's summary: its name (its id when it has none) and its element count (0 when absent). */
  function Summarize(d: DomainInfo): (r: DomainSummary)
    ensures d.name.None? ==> r.name == d.domainId
    ensures d.name.Some? ==> r.name == d.name.value
    ensures r.elementCount == (if d.elementCount.Some? then d.elementCount.value else 0)
  {
    DomainSummary(d.name.GetOr(d.domainId), d.elementCount.GetOr(0))
  }

  /** Entry `k` is the last entry of `ds` with id `id`. */
  predicate LastWithId(ds: seq<DomainInfo>, id: string, k: int) {
    0 <= k < |ds| && ds[k].domainId == id && forall k' :: k < k' < |ds| ==> ds[k'].domainId != id
  }

  /** The domain filter: no filter keeps every domain. */
  predicate Selected(only: Option<string>, id: string) {
    only.None? || only == Some(id)
  }

  /** The domain breakdown: selected entries in order, a later entry replacing an earlier one with the same id. */
  function Breakdown(ds: seq<DomainInfo>, only: Option<string>): (r: map<string, DomainSummary>)
    ensures forall id :: id in r ==> Selected(only, id) && exists k :: 0 <= k < |ds| && ds[k].domainId == id
    ensures |ds| > 0 && Selected(only, ds[|ds| - 1].domainId) ==>
      ds[|ds| - 1].domainId in r && r[ds[|ds| - 1].domainId] == Summarize(ds[|ds| - 1])
    decreases |ds|
  {
    if |ds| == 0 then map[]
    else
      var d := ds[|ds| - 1];
      var init := ds[..|ds| - 1];
      var m := Breakdown(init, only);
      assert forall k :: 0 <= k < |init| ==> init[k] == ds[k];
      if Selected(only, d.domainId) then m[d.domainId := Summarize(d)] else m
  }

  /** The breakdown holds exactly the selected ids that occur in the list. */
  lemma {:induction false} BreakdownKeys(ds: seq<DomainInfo>, only: Option<string>, id: string)
    ensures id in Breakdown(ds, only) <==> Selected(only, id) && exists k :: 0 <= k < |ds| && ds[k].domainId == id
    decreases |ds|
  {
    if |ds| > 0 {
      var init := ds[..|ds| - 1];
      var d := ds[|ds| - 1];
      BreakdownKeys(init, only, id);
      BreakdownUnfold(ds, only);
      IdOccursSnoc(init, d, id);
      assert ds == init + [d];
    }
  }

  /** The breakdown of a non-empty list is that of all but its last entry, updated by the last when it is selected. */
  lemma BreakdownUnfold(ds: seq<DomainInfo>, only: Option<string>)
    requires |ds| > 0
    ensures var d := ds[|ds| - 1]; var m := Breakdown(ds[..|ds| - 1], only);
      Breakdown(ds, only) == if Selected(only, d.domainId) then m[d.domainId := Summarize(d)] else m
  {
  }

  /** An id occurs in a list with one entry appended exactly when it occurs before or is the appended entry's. */
  lemma IdOccursSnoc(init: seq<DomainInfo>, d: DomainInfo, id: string)
    ensures (exists k :: 0 <= k < |init + [d]| && (init + [d])[k].domainId == id)
      <==> (exists k :: 0 <= k < |init| && init[k].domainId == id) || d.domainId == id
  {
    var ds := init + [d];
    if exists k :: 0 <= k < |ds| && ds[k].domainId == id {
      var k :| 0 <= k < |ds| && ds[k].domainId == id;
      if k < |init| {
        assert init[k].domainId == id;
      }
    }
    if exists k :: 0 <= k < |init| && init[k].domainId == id {
      var k :| 0 <= k < |init| && init[k].domainId == id;
      assert ds[k].domainId == id;
    }
    if d.domainId == id {
      assert ds[|init|].domainId == id;
    }
  }

  /** An entry with another id appended after the last entry with `id` leaves it the last. */
  lemma LastWithIdExtend(init: seq<DomainInfo>, d: DomainInfo, id: string, k: int)
    requires LastWithId(init, id, k) && d.domainId != id
    ensures LastWithId(init + [d], id, k)
  {
    assert forall k' :: k < k' < |init| ==> (init + [d])[k'] == init[k'];
  }

  /** Every id of the breakdown is summarised from its last entry in the list. */
  lemma {:induction false} BreakdownLastWins(ds: seq<DomainInfo>, only: Option<string>, id: string)
    requires id in Breakdown(ds, only)
    ensures exists k :: LastWithId(ds, id, k) && Breakdown(ds, only)[id] == Summarize(ds[k])
    decreases |ds|
  {
    var init := ds[..|ds| - 1];
    var d := ds[|ds| - 1];
    var m := Breakdown(init, only);
    assert ds == init + [d];
    if d.domainId == id {
      assert LastWithId(ds, id, |ds| - 1);
    } else {
      assert id in m && Breakdown(ds, only)[id] == m[id];
      BreakdownLastWins(init, only, id);
      var k :| LastWithId(init, id, k) && m[id] == Summarize(init[k]);
      LastWithIdExtend(init, d, id, k);
      assert init[k] == ds[k];
    }
  }

  /**
   * `get_domain_stats`: the total (0 when absent) and, when the store lists its
   * domains, the breakdown restricted to `only` when it is given.
   */
  function DomainStats(stats: LibraryStats, only: Option<string>): (r: StatsReport)
    ensures r.totalElements == stats.totalElements.GetOr(0)
    ensures stats.domains.None? ==> r.domains == map[]
    ensures stats.domains.Some? ==> forall id :: id in r.domains <==>
      Selected(only, id) && exists k :: 0 <= k < |stats.domains.value| && stats.domains.value[k].domainId == id
    ensures only.Some? ==> r.domains.Keys <= {only.value}
    ensures stats.domains.Some? ==> r.domains == Breakdown(stats.domains.value, only)
    ensures stats.domains.Some? ==> forall id :: id in r.domains ==>
      exists k :: LastWithId(stats.domains.value, id, k) && r.domains[id] == Summarize(stats.domains.value[k])
  {
    match stats.domains
    case None => StatsReport(stats.totalElements.GetOr(0), map[])
    case Some(ds) =>
      assert forall id :: id in Breakdown(ds, only) ==>
        exists k :: LastWithId(ds, id, k) && Breakdown(ds, only)[id] == Summarize(ds[k]) by {
        forall id | id in Breakdown(ds, only)
          ensures exists k :: LastWithId(ds, id, k) && Breakdown(ds, only)[id] == Summarize(ds[k])
        {
          BreakdownLastWins(ds, only, id);
        }
      }
      assert forall id :: id in Breakdown(ds, only) <==> Selected(only, id) && exists k :: 0 <= k < |ds| && ds[k].domainId == id by {
        forall id ensures id in Breakdown(ds, only) <==> Selected(only, id) && exists k :: 0 <= k < |ds| && ds[k].domainId == id {
          BreakdownKeys(ds, only, id);
        }
      }
      StatsReport(stats.totalElements.GetOr(0), Breakdown(ds, only))
  }

  /**
   * The keyword list of the query tool: the comma-separated pieces, each stripped,
   * and no list at all for an empty string.
   */
  function KeywordList(s: string): (r: seq<string>)
    ensures s == "" ==> r == []
    ensures s != "" ==> |r| == 1 + |Delimiters(s, {','})|
    ensures forall i :: 0 <= i < |r| ==> r[i] == Trim(Split(s, {','})[i]) && Free(r[i], {','})
  {
    if s == "" then []
    else
      var parts := Split(s, {','});
      seq(|parts|, i requires 0 <= i < |parts| => Trim(parts[i]))
  }

  /** A keyword that survives the round trip through a comma-joined string. */
  predicate PlainKeyword(k: string) {
    k != "" && Free(k, {','}) && Trim(k) == k
  }

  /** Joining plain keywords with commas and reading the list back gives the same keywords. */
  lemma KeywordListJoin(kws: seq<string>)
    requires |kws| > 0
    requires forall i :: 0 <= i < |kws| ==> PlainKeyword(kws[i])
    ensures KeywordList(Join(kws, ",")) == kws
  {
    SplitJoin(kws, ',', {','});
    JoinNonEmpty(kws, ",");
  }

  lemma {:induction false} JoinNonEmpty(parts: seq<string>, sep: string)
    requires |parts| > 0 && parts[0] != ""
    ensures Join(parts, sep) != ""
  {
    if |parts| > 1 {
      assert Join(parts, sep) == parts[0] + sep + Join(parts[1..], sep);
      assert |Join(parts, sep)| >= |parts[0]|;
    }
  }
}
