/**
 * Consistency checking of a selected element set against an intent: ethnicity
 * against eye and hair colour, era against lighting and clothing, and repeated
 * templates. The result is a report of issues with severities and suggestions.
 */
module ConsistencyChecker {
  import opened Optional
  import opened Text
  import opened Elements
  import IntentParser

  /** The typical and the incompatible colours of one ethnicity. */
  datatype Features = Features(
    typicalEyes: seq<string>,
    typicalHair: seq<string>,
    incompatibleEyes: seq<string>,
    incompatibleHair: seq<string>
  )

  /** The features of the `East_Asian` entry, which is also the default ethnicity. */
  const EastAsian := Features(["brown", "dark brown", "black"], ["black", "dark brown"],
                              ["blue", "green", "gray", "hazel"], ["blonde", "red", "auburn"])

  /** `ETHNICITY_FEATURES`. Only these three ethnicities are checked. */
  const EthnicityFeatures: map<string, Features> := map[
    "East_Asian" := EastAsian,
    "European" := Features(["blue", "green", "gray", "brown", "hazel"], ["blonde", "brown", "black", "red", "auburn"],
                           [], []),
    "African" := Features(["brown", "dark brown", "black"], ["black", "dark brown"],
                          ["blue", "green", "gray"], ["blonde", "red"])
  ]

  /** The compatible and the incompatible lighting and clothing of one era. */
  datatype EraRules = EraRules(
    compatibleLighting: seq<string>,
    incompatibleLighting: seq<string>,
    compatibleClothing: seq<string>,
    incompatibleClothing: seq<string>
  )

  /** `ERA_COMPATIBILITY`. Only these two eras are checked. */
  const EraCompatibility: map<string, EraRules> := map[
    "ancient" := EraRules(["natural", "dramatic", "soft", "cinematic", "zhang_yimou"], ["neon", "studio_flash"],
                          ["traditional_chinese", "kimono", "traditional"], ["modern", "casual", "business"]),
    "modern" := EraRules(["natural", "neon", "studio", "soft", "dramatic", "cinematic"], [],
                         ["modern", "casual", "business", "formal"], [])
  ]

  /** Every checked ethnicity and era has a first typical colour and a first compatible lighting to suggest. */
  lemma TablesHaveSuggestions()
    ensures forall k :: k in EthnicityFeatures ==> |EthnicityFeatures[k].typicalEyes| > 0
    ensures forall k :: k in EraCompatibility ==> |EraCompatibility[k].compatibleLighting| > 0
  {
    assert EthnicityFeatures.Keys == {"East_Asian", "European", "African"};
    assert EraCompatibility.Keys == {"ancient", "modern"};
  }

  datatype Severity = High | Medium | Low

  datatype IssueKind = EthnicityEyeMismatch | EthnicityHairMismatch | EraLightingMismatch | EraClothingMismatch | Duplicate {
    function Name(): string {
      match this
      case EthnicityEyeMismatch => "ethnicity_eye_mismatch"
      case EthnicityHairMismatch => "ethnicity_hair_mismatch"
      case EraLightingMismatch => "era_lighting_mismatch"
      case EraClothingMismatch => "era_clothing_mismatch"
      case Duplicate => "duplicate"
    }
    /** Raised by the ethnicity checks. */
    predicate OfEthnicity() { EthnicityEyeMismatch? || EthnicityHairMismatch? }
    /** Raised by the era checks. */
    predicate OfEra() { EraLightingMismatch? || EraClothingMismatch? }
  }

  datatype Issue = Issue(kind: IssueKind, severity: Severity, description: string, element: Option<string>)

  datatype Suggestion = Suggestion(field: string, current: string, suggested: string, reason: string)

  datatype Report = Report(
    isConsistent: bool,
    totalIssues: nat,
    highSeverity: nat,
    mediumSeverity: nat,
    lowSeverity: nat,
    issues: seq<Issue>,
    suggestions: seq<Suggestion>
  )

  /** The two intent fields the checker reads; `None` when the intent lacks them. */
  datatype IntentFields = IntentFields(ethnicity: Option<string>, era: Option<string>)

  /** The fields of a parsed intent: only a portrait intent has a subject and a scene. */
  function FieldsOf(intent: IntentParser.Intent): (f: IntentFields)
    ensures intent.details.PortraitDetails? ==>
      f == IntentFields(Some(intent.details.subject.ethnicity.Name()), Some(intent.details.scene.era.Name()))
    ensures !intent.details.PortraitDetails? ==> f == IntentFields(None, None)
  {
    match intent.details
    case PortraitDetails(subject, scene, _, _, _) => IntentFields(Some(subject.ethnicity.Name()), Some(scene.era.Name()))
    case _ => IntentFields(None, None)
  }

  /** Element `es[k]` files under `cat` and no later element does. */
  predicate LastInCategory(es: seq<Element>, cat: string, k: int) {
    && 0 <= k < |es|
    && CategoryOr(es[k], "unknown") == cat
    && forall k' :: k < k' < |es| ==> CategoryOr(es[k'], "unknown") != cat
  }

  /**
   * The element filed under `cat` when elements are indexed by category (falling
   * back to the field name, then `unknown`): the last one wins.
   */
  function InCategory(es: seq<Element>, cat: string): (r: Option<Element>)
    ensures r.None? <==> forall k :: 0 <= k < |es| ==> CategoryOr(es[k], "unknown") != cat
    ensures r.Some? ==> exists k :: LastInCategory(es, cat, k) && r.value == es[k]
    decreases |es|
  {
    if |es| == 0 then None
    else if CategoryOr(es[|es| - 1], "unknown") == cat then
      assert LastInCategory(es, cat, |es| - 1);
      Some(es[|es| - 1])
    else
      var r := InCategory(es[..|es| - 1], cat);
      InCategoryStep(es, es[..|es| - 1], cat, r);
      r
  }

  lemma InCategoryStep(es: seq<Element>, init: seq<Element>, cat: string, r: Option<Element>)
    requires |es| > 0 && init == es[..|es| - 1] && CategoryOr(es[|es| - 1], "unknown") != cat
    requires r.None? <==> forall k :: 0 <= k < |init| ==> CategoryOr(init[k], "unknown") != cat
    requires r.Some? ==> exists k :: LastInCategory(init, cat, k) && r.value == init[k]
    ensures r.None? <==> forall k :: 0 <= k < |es| ==> CategoryOr(es[k], "unknown") != cat
    ensures r.Some? ==> exists k :: LastInCategory(es, cat, k) && r.value == es[k]
  {
    assert forall k :: 0 <= k < |init| ==> init[k] == es[k];
    if r.Some? {
      var k :| LastInCategory(init, cat, k) && r.value == init[k];
      assert LastInCategory(es, cat, k);
    }
  }

  /** The element under the store category `cat`, or else under the framework field `field`. */
  function Slot(es: seq<Element>, cat: string, field: string): (r: Option<Element>)
    ensures r.None? <==> InCategory(es, cat).None? && InCategory(es, field).None?
    ensures InCategory(es, cat).Some? ==> r == InCategory(es, cat)
    ensures InCategory(es, cat).None? ==> r == InCategory(es, field)
  {
    InCategory(es, cat).OrElse(InCategory(es, field))
  }

  /** The words of `subs` that occur in `name`, in their order in `subs`. */
  function Occurring(name: string, subs: seq<string>): (r: seq<string>)
    ensures |r| <= |subs|
    ensures forall i :: 0 <= i < |r| ==> r[i] in subs && Contains(name, r[i])
    ensures forall j :: 0 <= j < |subs| && Contains(name, subs[j]) ==> subs[j] in r
    decreases |subs|
  {
    if |subs| == 0 then []
    else
      var rest := Occurring(name, subs[1..]);
      assert forall j :: 1 <= j < |subs| ==> subs[j] == subs[1..][j - 1];
      if Contains(name, subs[0]) then [subs[0]] + rest else rest
  }

  /** A single word is kept exactly when it occurs in the name. */
  lemma OccurringSingle(name: string, w: string)
    ensures Occurring(name, [w]) == if Contains(name, w) then [w] else []
  {
    assert [w][1..] == [];
  }

  /** The words are looked for one by one: those of `a + b` that occur are those of `a`, then those of `b`. */
  lemma {:induction false} OccurringAppend(name: string, a: seq<string>, b: seq<string>)
    ensures Occurring(name, a + b) == Occurring(name, a) + Occurring(name, b)
    decreases |a|
  {
    if |a| > 0 {
      assert (a + b)[0] == a[0];
      assert (a + b)[1..] == a[1..] + b;
      OccurringAppend(name, a[1..], b);
    } else {
      assert a + b == b;
    }
  }

  /** `n` copies of `x`. */
  function Repeat<T>(x: T, n: nat): (r: seq<T>)
    ensures |r| == n && forall i :: 0 <= i < n ==> r[i] == x
  {
    seq(n, _ => x)
  }

  /** The lowered name of a slot's element, empty when it has none. */
  function LoweredName(e: Element): string {
    Lower(e.name.GetOr(""))
  }

  /**
   * Eye check: one high-severity issue, and one suggestion of the first typical
   * colour, for every incompatible eye colour occurring in the eye element's name.
   */
  function EyeCheck(ethnicity: string, eye: Option<Element>): (r: (seq<Issue>, seq<Suggestion>))
    requires ethnicity in EthnicityFeatures
    ensures eye.None? ==> r == ([], [])
    ensures eye.Some? ==>
      var f := EthnicityFeatures[ethnicity];
      var hits := Occurring(LoweredName(eye.value), f.incompatibleEyes);
      && |r.0| == |r.1| == |hits|
      && (forall i :: 0 <= i < |r.0| ==> r.0[i].kind == EthnicityEyeMismatch && r.0[i].severity == High && r.0[i].element == eye.value.elementId)
      && (forall i :: 0 <= i < |r.1| ==> r.1[i].field == "eye_color" && r.1[i].current == LoweredName(eye.value) && r.1[i].suggested == f.typicalEyes[0])
  {
    match eye
    case None => ([], [])
    case Some(e) =>
      TablesHaveSuggestions();
      var f := EthnicityFeatures[ethnicity];
      var name := LoweredName(e);
      var n := |Occurring(name, f.incompatibleEyes)|;
      (Repeat(Issue(EthnicityEyeMismatch, High, "Eye color \"" + name + "\" is unusual for " + ethnicity, e.elementId), n),
       Repeat(Suggestion("eye_color", name, f.typicalEyes[0], ethnicity + " typically has " + Join(f.typicalEyes, ", ") + " eyes"), n))
  }

  /** Hair check: one medium-severity issue, without suggestion, per incompatible hair colour in the hair element's name. */
  function HairCheck(ethnicity: string, hair: Option<Element>): (r: seq<Issue>)
    requires ethnicity in EthnicityFeatures
    ensures hair.None? ==> r == []
    ensures hair.Some? ==>
      && |r| == |Occurring(LoweredName(hair.value), EthnicityFeatures[ethnicity].incompatibleHair)|
      && forall i :: 0 <= i < |r| ==> r[i].kind == EthnicityHairMismatch && r[i].severity == Medium && r[i].element == hair.value.elementId
  {
    match hair
    case None => []
    case Some(e) =>
      var name := LoweredName(e);
      Repeat(Issue(EthnicityHairMismatch, Medium, "Hair color \"" + name + "\" is unusual for " + ethnicity, e.elementId),
        |Occurring(name, EthnicityFeatures[ethnicity].incompatibleHair)|)
  }

  /**
   * Lighting check: one medium-severity issue, and one suggestion of the era's
   * first compatible lighting, per incompatible lighting in the lighting element's name.
   */
  function LightingCheck(era: string, lighting: Option<Element>): (r: (seq<Issue>, seq<Suggestion>))
    requires era in EraCompatibility
    ensures lighting.None? ==> r == ([], [])
    ensures lighting.Some? ==>
      var c := EraCompatibility[era];
      var hits := Occurring(LoweredName(lighting.value), c.incompatibleLighting);
      && |r.0| == |r.1| == |hits|
      && (forall i :: 0 <= i < |r.0| ==> r.0[i].kind == EraLightingMismatch && r.0[i].severity == Medium && r.0[i].element == lighting.value.elementId)
      && (forall i :: 0 <= i < |r.1| ==> r.1[i].field == "lighting" && r.1[i].current == LoweredName(lighting.value) && r.1[i].suggested == c.compatibleLighting[0])
  {
    match lighting
    case None => ([], [])
    case Some(e) =>
      TablesHaveSuggestions();
      var c := EraCompatibility[era];
      var name := LoweredName(e);
      var n := |Occurring(name, c.incompatibleLighting)|;
      (Repeat(Issue(EraLightingMismatch, Medium, "Lighting \"" + name + "\" is anachronistic for " + era + " era", e.elementId), n),
       Repeat(Suggestion("lighting", name, c.compatibleLighting[0], era + " era works better with " + Join(Take(c.compatibleLighting, 3), ", ") + " lighting"), n))
  }

  /** Clothing check: one high-severity issue, without suggestion, per incompatible clothing in the clothing element's name. */
  function ClothingCheck(era: string, clothing: Option<Element>): (r: seq<Issue>)
    requires era in EraCompatibility
    ensures clothing.None? ==> r == []
    ensures clothing.Some? ==>
      && |r| == |Occurring(LoweredName(clothing.value), EraCompatibility[era].incompatibleClothing)|
      && forall i :: 0 <= i < |r| ==> r[i].kind == EraClothingMismatch && r[i].severity == High && r[i].element == clothing.value.elementId
  {
    match clothing
    case None => []
    case Some(e) =>
      var name := LoweredName(e);
      Repeat(Issue(EraClothingMismatch, High, "Clothing \"" + name + "\" is anachronistic for " + era + " era", e.elementId),
        |Occurring(name, EraCompatibility[era].incompatibleClothing)|)
  }

  /** The template of `es[k]` already occurred earlier in `es`. */
  predicate SeenBefore(es: seq<Element>, k: int)
    requires 0 <= k < |es|
  {
    exists j :: 0 <= j < k && TemplateText(es[j]) == TemplateText(es[k])
  }

  /** No two elements of `es` share a template. */
  predicate TemplatesDistinct(es: seq<Element>) {
    forall i, j :: 0 <= i < j < |es| ==> TemplateText(es[i]) != TemplateText(es[j])
  }

  lemma DistinctExtend(es: seq<Element>)
    requires |es| > 0
    ensures TemplatesDistinct(es) <==> TemplatesDistinct(es[..|es| - 1]) && !SeenBefore(es, |es| - 1)
  {
    var init := es[..|es| - 1];
    assert forall i :: 0 <= i < |init| ==> init[i] == es[i];
    if TemplatesDistinct(init) && !SeenBefore(es, |es| - 1) {
      forall i, j | 0 <= i < j < |es| ensures TemplateText(es[i]) != TemplateText(es[j]) {
        if j < |es| - 1 {
          assert TemplateText(init[i]) != TemplateText(init[j]);
        }
      }
    }
  }

  /** The distinct templates of `es`. */
  function Templates(es: seq<Element>): set<string> {
    set k | 0 <= k < |es| :: TemplateText(es[k])
  }

  /** One low-severity issue for each element whose template an earlier element already had. */
  function DuplicateIssues(es: seq<Element>): (r: seq<Issue>)
    ensures forall i :: 0 <= i < |r| ==> r[i].kind == Duplicate && r[i].severity == Low
    decreases |es|
  {
    if |es| == 0 then []
    else
      var last := es[|es| - 1];
      DuplicateIssues(es[..|es| - 1]) +
        (if SeenBefore(es, |es| - 1) then [DuplicateIssue(last)] else [])
  }

  lemma TemplatesExtend(es: seq<Element>)
    requires |es| > 0
    ensures Templates(es) == Templates(es[..|es| - 1]) + {TemplateText(es[|es| - 1])}
    ensures SeenBefore(es, |es| - 1) <==> TemplateText(es[|es| - 1]) in Templates(es[..|es| - 1])
  {
    var init := es[..|es| - 1];
    assert forall k :: 0 <= k < |init| ==> init[k] == es[k];
    forall x | x in Templates(es) ensures x in Templates(init) + {TemplateText(es[|es| - 1])} {
      var k :| 0 <= k < |es| && TemplateText(es[k]) == x;
      if k < |es| - 1 { assert TemplateText(init[k]) == x; }
    }
  }

  /** The issue raised for an element whose template occurred before. */
  function DuplicateIssue(e: Element): Issue {
    Issue(Duplicate, Low, "Duplicate element template detected", e.elementId)
  }

  /**
   * Appending an element adds a duplicate issue naming it exactly when its
   * template is among those of the elements before it; a first occurrence is
   * never flagged.
   */
  lemma DuplicateIssuesSnoc(es: seq<Element>, e: Element)
    ensures DuplicateIssues(es + [e]) ==
      DuplicateIssues(es) + (if TemplateText(e) in Templates(es) then [DuplicateIssue(e)] else [])
  {
    var all := es + [e];
    assert all[..|all| - 1] == es;
    TemplatesExtend(all);
  }

  /** Each duplicate issue names an element whose template an earlier element already had. */
  lemma {:induction false} DuplicatesNameLaterElements(es: seq<Element>)
    ensures forall i :: 0 <= i < |DuplicateIssues(es)| ==>
      exists k :: 0 <= k < |es| && SeenBefore(es, k) && DuplicateIssues(es)[i] == DuplicateIssue(es[k])
    decreases |es|
  {
    if |es| > 0 {
      var init := es[..|es| - 1];
      DuplicatesNameLaterElements(init);
      var prev := DuplicateIssues(init);
      var last := es[|es| - 1];
      assert DuplicateIssues(es) == prev + (if SeenBefore(es, |es| - 1) then [DuplicateIssue(last)] else []);
      forall i | 0 <= i < |DuplicateIssues(es)|
        ensures exists k :: 0 <= k < |es| && SeenBefore(es, k) && DuplicateIssues(es)[i] == DuplicateIssue(es[k])
      {
        if i < |prev| {
          var k :| 0 <= k < |init| && SeenBefore(init, k) && prev[i] == DuplicateIssue(init[k]);
          var j :| 0 <= j < k && TemplateText(init[j]) == TemplateText(init[k]);
          assert init[j] == es[j] && init[k] == es[k];
          assert SeenBefore(es, k);
          assert DuplicateIssues(es)[i] == DuplicateIssue(es[k]);
        } else {
          assert SeenBefore(es, |es| - 1) && DuplicateIssues(es)[i] == DuplicateIssue(last);
        }
      }
    } else {
      assert DuplicateIssues(es) == [];
    }
  }

  /** Every element beyond the first with each template is reported once: duplicates plus distinct templates make up the list. */
  lemma {:induction false} DuplicateCount(es: seq<Element>)
    ensures |DuplicateIssues(es)| + |Templates(es)| == |es|
    decreases |es|
  {
    if |es| > 0 {
      var init := es[..|es| - 1];
      var t := TemplateText(es[|es| - 1]);
      DuplicateCount(init);
      TemplatesExtend(es);
      if SeenBefore(es, |es| - 1) {
        assert |DuplicateIssues(es)| == |DuplicateIssues(init)| + 1;
        assert Templates(es) == Templates(init);
      } else {
        assert |DuplicateIssues(es)| == |DuplicateIssues(init)|;
        assert |Templates(es)| == |Templates(init)| + 1;
      }
    }
  }

  /** The number of issues of severity `s`. */
  function CountSeverity(issues: seq<Issue>, s: Severity): (n: nat)
    ensures n <= |issues|
    ensures n == 0 <==> forall i :: 0 <= i < |issues| ==> issues[i].severity != s
    decreases |issues|
  {
    if |issues| == 0 then 0
    else
      assert forall i :: 1 <= i < |issues| ==> issues[i] == issues[1..][i - 1];
      (if issues[0].severity == s then 1 else 0) + CountSeverity(issues[1..], s)
  }

  lemma {:induction false} CountAppend(a: seq<Issue>, b: seq<Issue>, s: Severity)
    ensures CountSeverity(a + b, s) == CountSeverity(a, s) + CountSeverity(b, s)
    decreases |a|
  {
    if |a| == 0 {
      assert a + b == b;
    } else {
      assert (a + b)[1..] == a[1..] + b;
      CountAppend(a[1..], b, s);
    }
  }

  /** The severities partition the issues. */
  lemma {:induction false} SeveritiesPartition(issues: seq<Issue>)
    ensures CountSeverity(issues, High) + CountSeverity(issues, Medium) + CountSeverity(issues, Low) == |issues|
    decreases |issues|
  {
    if |issues| > 0 {
      SeveritiesPartition(issues[1..]);
    }
  }

  /** The report over the collected issues and suggestions: consistent exactly when no issue is high or medium. */
  function MakeReport(issues: seq<Issue>, suggestions: seq<Suggestion>): (r: Report)
    ensures r.issues == issues && r.suggestions == suggestions
    ensures r.totalIssues == |issues| == r.highSeverity + r.mediumSeverity + r.lowSeverity
    ensures r.highSeverity == CountSeverity(issues, High) && r.mediumSeverity == CountSeverity(issues, Medium)
    ensures r.lowSeverity == CountSeverity(issues, Low)
    ensures r.isConsistent <==> r.highSeverity + r.mediumSeverity == 0
    ensures r.isConsistent <==> forall i :: 0 <= i < |issues| ==> issues[i].severity == Low
    ensures r.lowSeverity == |issues| ==> r.isConsistent
  {
    SeveritiesPartition(issues);
    var high := CountSeverity(issues, High);
    var medium := CountSeverity(issues, Medium);
    Report(high + medium == 0, |issues|, high, medium, CountSeverity(issues, Low), issues, suggestions)
  }

  /** The issues and suggestions of the ethnicity checks; none for an ethnicity without a feature entry. */
  function EthnicityChecks(es: seq<Element>, ethnicity: string): (r: (seq<Issue>, seq<Suggestion>))
    ensures ethnicity !in EthnicityFeatures ==> r == ([], [])
    ensures ethnicity in EthnicityFeatures ==>
      var eyes := EyeCheck(ethnicity, Slot(es, "eye_types", "facial.eyes"));
      r == (eyes.0 + HairCheck(ethnicity, Slot(es, "hairstyles", "styling.hairstyle")), eyes.1)
    ensures forall i :: 0 <= i < |r.0| ==> r.0[i].kind.OfEthnicity()
    ensures |r.1| <= |r.0|
  {
    if ethnicity in EthnicityFeatures then
      var (eyeIssues, eyeSuggestions) := EyeCheck(ethnicity, Slot(es, "eye_types", "facial.eyes"));
      (eyeIssues + HairCheck(ethnicity, Slot(es, "hairstyles", "styling.hairstyle")), eyeSuggestions)
    else ([], [])
  }

  /** The issues and suggestions of the era checks; none for an era without compatibility rules. */
  function EraChecks(es: seq<Element>, era: string): (r: (seq<Issue>, seq<Suggestion>))
    ensures era !in EraCompatibility ==> r == ([], [])
    ensures era in EraCompatibility ==>
      var light := LightingCheck(era, Slot(es, "lighting_techniques", "lighting.lighting_type"));
      r == (light.0 + ClothingCheck(era, Slot(es, "clothing_styles", "styling.clothing")), light.1)
    ensures forall i :: 0 <= i < |r.0| ==> r.0[i].kind.OfEra()
    ensures |r.1| <= |r.0|
  {
    if era in EraCompatibility then
      var (lightIssues, lightSuggestions) := LightingCheck(era, Slot(es, "lighting_techniques", "lighting.lighting_type"));
      (lightIssues + ClothingCheck(era, Slot(es, "clothing_styles", "styling.clothing")), lightSuggestions)
    else ([], [])
  }

  /**
   * `check_consistency`: ethnicity (default `East_Asian`) and era (default
   * `modern`) come from the intent; the issues are the ethnicity, era and
   * duplicate findings in that order, and every suggestion accompanies an issue.
   */
  function CheckConsistency(es: seq<Element>, intent: IntentFields): (r: Report)
    ensures r.totalIssues == |r.issues| == r.highSeverity + r.mediumSeverity + r.lowSeverity
    ensures r.highSeverity == CountSeverity(r.issues, High) && r.mediumSeverity == CountSeverity(r.issues, Medium)
    ensures r.lowSeverity == CountSeverity(r.issues, Low)
    ensures r.isConsistent <==> r.highSeverity + r.mediumSeverity == 0
    ensures r.isConsistent <==> forall i :: 0 <= i < |r.issues| ==> r.issues[i].severity == Low
    ensures |r.suggestions| <= r.totalIssues
    ensures r.issues == EthnicityChecks(es, intent.ethnicity.GetOr("East_Asian")).0
                        + EraChecks(es, intent.era.GetOr("modern")).0 + DuplicateIssues(es)
    ensures r.suggestions == EthnicityChecks(es, intent.ethnicity.GetOr("East_Asian")).1
                             + EraChecks(es, intent.era.GetOr("modern")).1
  {
    var ethnicity := intent.ethnicity.GetOr("East_Asian");
    var era := intent.era.GetOr("modern");
    var (ethIssues, ethSuggestions) := EthnicityChecks(es, ethnicity);
    var (eraIssues, eraSuggestions) := EraChecks(es, era);
    MakeReport(ethIssues + eraIssues + DuplicateIssues(es), ethSuggestions + eraSuggestions)
  }

  /** The modern era forbids no lighting and no clothing. */
  lemma ModernEraForbidsNothing()
    ensures "modern" in EraCompatibility
    ensures EraCompatibility["modern"].incompatibleLighting == [] && EraCompatibility["modern"].incompatibleClothing == []
  {}

  /** No issue of `xs` comes from the era checks. */
  predicate FreeOfEra(xs: seq<Issue>) {
    forall i :: 0 <= i < |xs| ==> !xs[i].kind.OfEra()
  }

  /** No issue of `xs` comes from the ethnicity checks. */
  predicate FreeOfEthnicity(xs: seq<Issue>) {
    forall i :: 0 <= i < |xs| ==> !xs[i].kind.OfEthnicity()
  }

  lemma FreeConcat(a: seq<Issue>, b: seq<Issue>)
    ensures FreeOfEra(a) && FreeOfEra(b) ==> FreeOfEra(a + b)
    ensures FreeOfEthnicity(a) && FreeOfEthnicity(b) ==> FreeOfEthnicity(a + b)
  {
    if FreeOfEra(a) && FreeOfEra(b) {
      forall i | 0 <= i < |a + b| ensures !(a + b)[i].kind.OfEra() {
        if i >= |a| { assert (a + b)[i] == b[i - |a|]; }
      }
    }
    if FreeOfEthnicity(a) && FreeOfEthnicity(b) {
      forall i | 0 <= i < |a + b| ensures !(a + b)[i].kind.OfEthnicity() {
        if i >= |a| { assert (a + b)[i] == b[i - |a|]; }
      }
    }
  }

  lemma ModernEraChecksNothing(es: seq<Element>)
    ensures EraChecks(es, "modern") == ([], [])
  {
    ModernEraForbidsNothing();
  }

  /** The era checks raise nothing for the modern era, which is also the default. */
  lemma ModernEraRaisesNoEraIssues(es: seq<Element>, intent: IntentFields)
    requires intent.era.GetOr("modern") == "modern"
    ensures FreeOfEra(CheckConsistency(es, intent).issues)
  {
    ModernEraChecksNothing(es);
    var eth := EthnicityChecks(es, intent.ethnicity.GetOr("East_Asian")).0;
    var dup := DuplicateIssues(es);
    assert FreeOfEra(eth) && FreeOfEra(dup);
    FreeConcat(eth, []);
    FreeConcat(eth + [], dup);
    var r := CheckConsistency(es, intent);
    assert r.issues == eth + [] + dup;
  }

  /** Ethnicities without a feature entry (South Asian and Latin among them) skip the eye and hair checks. */
  lemma UncheckedEthnicityRaisesNoColourIssues(es: seq<Element>, intent: IntentFields)
    requires intent.ethnicity.GetOr("East_Asian") !in EthnicityFeatures
    ensures FreeOfEthnicity(CheckConsistency(es, intent).issues)
  {
    var era := EraChecks(es, intent.era.GetOr("modern")).0;
    var dup := DuplicateIssues(es);
    assert FreeOfEthnicity(era) && FreeOfEthnicity(dup);
    FreeConcat([], era);
    FreeConcat([] + era, dup);
    var r := CheckConsistency(es, intent);
    assert r.issues == [] + era + dup;
  }

  /** With neither check applicable, only duplicates are reported and the set is consistent. */
  lemma UncheckedIntentReportsOnlyDuplicates(es: seq<Element>, intent: IntentFields)
    requires intent.ethnicity.GetOr("East_Asian") !in EthnicityFeatures
    requires intent.era.GetOr("modern") !in EraCompatibility
    ensures CheckConsistency(es, intent).issues == DuplicateIssues(es)
    ensures CheckConsistency(es, intent).suggestions == []
    ensures CheckConsistency(es, intent).isConsistent
  {
    assert [] + [] + DuplicateIssues(es) == DuplicateIssues(es);
  }

  /** Distinct templates raise no duplicate issue; a repeated one raises at least one. */
  lemma DuplicatesIffRepeatedTemplate(es: seq<Element>)
    ensures DuplicateIssues(es) == [] <==> forall i, j :: 0 <= i < j < |es| ==> TemplateText(es[i]) != TemplateText(es[j])
  {
    DuplicateCount(es);
    DistinctTemplates(es);
  }

  /** Templates are pairwise distinct exactly when there are as many distinct templates as elements. */
  lemma {:induction false} DistinctTemplates(es: seq<Element>)
    ensures |Templates(es)| == |es| <==> TemplatesDistinct(es)
    decreases |es|
  {
    if |es| > 0 {
      DistinctTemplates(es[..|es| - 1]);
      TemplatesExtend(es);
      DuplicateCount(es[..|es| - 1]);
      DistinctExtend(es);
    }
  }

  /** An element appended under `cat` is the one its slot holds. */
  lemma AppendedFillsSlot(es: seq<Element>, e: Element, cat: string, field: string)
    requires CategoryOr(e, "unknown") == cat
    ensures Slot(es + [e], cat, field) == Some(e)
  {
    assert (es + [e])[|es + [e]| - 1] == e;
  }

  /**
   * Appending an eye element whose name holds an incompatible colour for the
   * intent's ethnicity makes any selection inconsistent: the new element is the
   * one the eye check reads, and it raises a high-severity issue.
   */
  lemma EyeMismatchBreaksConsistency(es: seq<Element>, e: Element, intent: IntentFields)
    requires CategoryOr(e, "unknown") == "eye_types"
    requires intent.ethnicity.GetOr("East_Asian") in EthnicityFeatures
    requires Occurring(LoweredName(e), EthnicityFeatures[intent.ethnicity.GetOr("East_Asian")].incompatibleEyes) != []
    ensures !CheckConsistency(es + [e], intent).isConsistent
  {
    var eth := intent.ethnicity.GetOr("East_Asian");
    AppendedFillsSlot(es, e, "eye_types", "facial.eyes");
    var eye := EyeCheck(eth, Slot(es + [e], "eye_types", "facial.eyes")).0;
    assert EthnicityChecks(es + [e], eth).0[0] == eye[0];
    assert CheckConsistency(es + [e], intent).issues[0].severity == High;
  }

  /**
   * Likewise for a clothing element whose name holds a clothing the intent's era
   * rules out: its high-severity issue makes the selection inconsistent.
   */
  lemma ClothingMismatchBreaksConsistency(es: seq<Element>, e: Element, intent: IntentFields)
    requires CategoryOr(e, "unknown") == "clothing_styles"
    requires intent.era.GetOr("modern") in EraCompatibility
    requires Occurring(LoweredName(e), EraCompatibility[intent.era.GetOr("modern")].incompatibleClothing) != []
    ensures !CheckConsistency(es + [e], intent).isConsistent
  {
    var era := intent.era.GetOr("modern");
    var es' := es + [e];
    AppendedFillsSlot(es, e, "clothing_styles", "styling.clothing");
    var light := LightingCheck(era, Slot(es', "lighting_techniques", "lighting.lighting_type")).0;
    var cloth := ClothingCheck(era, Slot(es', "clothing_styles", "styling.clothing"));
    assert EraChecks(es', era).0 == light + cloth;
    var eth := EthnicityChecks(es', intent.ethnicity.GetOr("East_Asian")).0;
    assert CheckConsistency(es', intent).issues[|eth| + |light|] == cloth[0];
  }

  /** An eye-type element named `blue_eyes`. */
  const BlueEyes := Element(None, Some("eye_types"), None, Some("blue_eyes"), None, None, None, None, None)

  lemma LoneSlot(e: Element, cat: string, field: string)
    requires CategoryOr(e, "unknown") == cat
    ensures Slot([e], cat, field) == Some(e)
  {
    AppendedFillsSlot([], e, cat, field);
    assert [] + [e] == [e];
  }

  lemma OtherSlotEmpty(e: Element, cat: string, field: string)
    requires CategoryOr(e, "unknown") != cat && CategoryOr(e, "unknown") != field
    ensures Slot([e], cat, field).None?
  {
  }

  /** A lone eye element is all the ethnicity checks see. */
  lemma LoneEyeChecks(e: Element, ethnicity: string)
    requires CategoryOr(e, "unknown") == "eye_types" && ethnicity in EthnicityFeatures
    ensures EthnicityChecks([e], ethnicity) == EyeCheck(ethnicity, Some(e))
  {
    LoneSlot(e, "eye_types", "facial.eyes");
    OtherSlotEmpty(e, "hairstyles", "styling.hairstyle");
    assert HairCheck(ethnicity, Slot([e], "hairstyles", "styling.hairstyle")) == [];
    var eye := EyeCheck(ethnicity, Slot([e], "eye_types", "facial.eyes"));
    assert eye.0 + [] == eye.0;
  }

  lemma BlueName()
    ensures LoweredName(BlueEyes) == "blue_eyes"
  {
    LowerIsLowerCase("blue_eyes");
  }

  lemma EastAsianLookup()
    ensures "East_Asian" in EthnicityFeatures && EthnicityFeatures["East_Asian"] == EastAsian
  {
  }

  lemma BlueMisses()
    ensures !Contains("blue_eyes", "green") && !Contains("blue_eyes", "gray") && !Contains("blue_eyes", "hazel")
  {
    LacksFirstChar("blue_eyes", "green");
    LacksFirstChar("blue_eyes", "gray");
    LacksFirstChar("blue_eyes", "hazel");
  }

  lemma BlueOccurs()
    ensures Occurring("blue_eyes", EthnicityFeatures["East_Asian"].incompatibleEyes) == ["blue"]
  {
    EastAsianLookup();
    var subs := EastAsian.incompatibleEyes;
    assert StartsWith("blue_eyes", "blue");
    BlueMisses();
    assert Occurring("blue_eyes", subs[1..]) == [] by {
      assert subs[1..][1..][1..][1..] == [];
      assert Occurring("blue_eyes", subs[1..][1..][1..]) == [];
      assert Occurring("blue_eyes", subs[1..][1..]) == [];
    }
    assert Occurring("blue_eyes", subs) == ["blue"] + [];
  }

  /** The premises of `EyeMismatchBreaksConsistency` can be met: a `blue_eyes` element under the East Asian intent. */
  lemma EyeMismatchReachable()
    ensures CategoryOr(BlueEyes, "unknown") == "eye_types"
    ensures IntentFields(Some("East_Asian"), None).ethnicity.GetOr("East_Asian") in EthnicityFeatures
    ensures Occurring(LoweredName(BlueEyes), EthnicityFeatures["East_Asian"].incompatibleEyes) != []
  {
    BlueName();
    BlueOccurs();
    EastAsianLookup();
  }

  lemma BlueEyesChecks()
    ensures |EthnicityChecks([BlueEyes], "East_Asian").0| == 1
    ensures EthnicityChecks([BlueEyes], "East_Asian").0[0].kind == EthnicityEyeMismatch
    ensures EthnicityChecks([BlueEyes], "East_Asian").0[0].severity == High
    ensures |EthnicityChecks([BlueEyes], "East_Asian").1| == 1
    ensures EthnicityChecks([BlueEyes], "East_Asian").1[0].suggested == "brown"
  {
    BlueName();
    BlueOccurs();
    EastAsianLookup();
    LoneEyeChecks(BlueEyes, "East_Asian");
    var r := EyeCheck("East_Asian", Some(BlueEyes));
    assert |r.0| == |r.1| == 1;
    assert r.1[0].suggested == EastAsian.typicalEyes[0];
  }

  /** A single element duplicates nothing. */
  lemma SingleNoDuplicate(e: Element)
    ensures DuplicateIssues([e]) == []
  {
    assert [e][..0] == [];
  }

  /**
   * In the modern era (also the default) and without duplicates, the report's
   * issues and suggestions are exactly those of the ethnicity checks.
   */
  lemma ModernReportIsEthnicity(es: seq<Element>, intent: IntentFields)
    requires intent.era.GetOr("modern") == "modern" && DuplicateIssues(es) == []
    ensures var r := CheckConsistency(es, intent);
      var eth := EthnicityChecks(es, intent.ethnicity.GetOr("East_Asian"));
      r.issues == eth.0 && r.suggestions == eth.1
  {
    ModernEraChecksNothing(es);
    var eth := EthnicityChecks(es, intent.ethnicity.GetOr("East_Asian"));
    assert eth.0 + [] + [] == eth.0 && eth.1 + [] == eth.1;
  }

  /** Only the ethnicity checks report on a lone `blue_eyes` element in the default era. */
  lemma BlueEyesOnlyEthnicity()
    ensures var r := CheckConsistency([BlueEyes], IntentFields(Some("East_Asian"), None));
      && r.issues == EthnicityChecks([BlueEyes], "East_Asian").0
      && r.suggestions == EthnicityChecks([BlueEyes], "East_Asian").1
  {
    SingleNoDuplicate(BlueEyes);
    ModernReportIsEthnicity([BlueEyes], IntentFields(Some("East_Asian"), None));
  }

  /**
   * `blue_eyes` for an East Asian subject, era left to its default: exactly one
   * issue, an eye mismatch of high severity, one suggestion of brown, and an
   * inconsistent set.
   */
  lemma BlueEyesExample()
    ensures var r := CheckConsistency([BlueEyes], IntentFields(Some("East_Asian"), None));
      && r.totalIssues == r.highSeverity == 1
      && r.issues[0].kind == EthnicityEyeMismatch
      && !r.isConsistent
      && |r.suggestions| == 1 && r.suggestions[0].suggested == "brown"
  {
    BlueEyesChecks();
    BlueEyesOnlyEthnicity();
    var r := CheckConsistency([BlueEyes], IntentFields(Some("East_Asian"), None));
    assert r.issues[1..] == [];
    assert r.highSeverity == CountSeverity(r.issues, High) == 1 + CountSeverity(r.issues[1..], High);
  }
}
