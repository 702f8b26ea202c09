/**
 * Intent extraction: free text (plus a domain hint) to a structured intent, by
 * keyword tables. Each value a table can select is a constructor with its
 * keywords and its wire name; a table lists the values in declaration order,
 * because that order decides which value wins when several match.
 */
module IntentParser {
  import opened Optional
  import opened Text

  /** An ordered keyword dict: a value, then the keywords that select it. */
  type Table<V> = seq<(V, seq<string>)>

  datatype Domain = Portrait | Art | Design | Product | Video {
    function Name(): string {
      match this
      case Portrait => "portrait" case Art => "art" case Design => "design"
      case Product => "product" case Video => "video"
    }
    function Keywords(): seq<string> {
      match this
      case Portrait => ["人像", "人物", "女性", "男性", "肖像", "女孩", "男孩", "少女", "美女", "portrait", "woman", "man", "girl"]
      case Art => ["水墨", "油画", "艺术", "绘画", "国画", "山水", "静物", "art", "painting", "watercolor"]
      case Design => ["海报", "设计", "UI", "布局", "Bento", "玻璃态", "poster", "design", "layout"]
      case Product => ["产品", "商品", "摄影", "静物", "包装", "product", "commercial"]
      case Video => ["视频", "镜头", "运镜", "转场", "video", "camera movement"]
    }
  }
  const Domains: seq<Domain> := [Portrait, Art, Design, Product, Video]

  datatype Era = Ancient | ModernEra | RepublicOfChina {
    function Name(): string {
      match this case Ancient => "ancient" case ModernEra => "modern" case RepublicOfChina => "republic_of_china"
    }
    function Keywords(): seq<string> {
      match this
      case Ancient => ["古装", "古代", "汉服", "传统", "古风", "仙剑", "武侠", "ancient", "traditional"]
      case ModernEra => ["现代", "时尚", "当代", "modern", "contemporary"]
      case RepublicOfChina => ["民国", "旗袍", "republic"]
    }
  }
  const Eras: seq<Era> := [Ancient, ModernEra, RepublicOfChina]

  datatype Lighting = Cinematic | NaturalLight | Dramatic | Neon | SoftLight | ZhangYimouLight | FilmNoir {
    function Name(): string {
      match this
      case Cinematic => "cinematic" case NaturalLight => "natural" case Dramatic => "dramatic"
      case Neon => "neon" case SoftLight => "soft" case ZhangYimouLight => "zhang_yimou"
      case FilmNoir => "film_noir"
    }
    function Keywords(): seq<string> {
      match this
      case Cinematic => ["电影级", "电影", "cinematic"]
      case NaturalLight => ["自然光", "natural"]
      case Dramatic => ["戏剧性", "戏剧", "dramatic"]
      case Neon => ["霓虹", "赛博朋克", "neon", "cyberpunk"]
      case SoftLight => ["柔光", "柔和", "soft"]
      case ZhangYimouLight => ["张艺谋"]
      case FilmNoir => ["黑色电影", "film noir"]
    }
  }
  const Lightings: seq<Lighting> := [Cinematic, NaturalLight, Dramatic, Neon, SoftLight, ZhangYimouLight, FilmNoir]

  datatype Director = ZhangYimou | TsuiHark | WongKarWai {
    function Name(): string {
      match this case ZhangYimou => "zhang_yimou" case TsuiHark => "tsui_hark" case WongKarWai => "wong_kar_wai"
    }
    function Keywords(): seq<string> {
      match this case ZhangYimou => ["张艺谋"] case TsuiHark => ["徐克"] case WongKarWai => ["王家卫"]
    }
  }
  const Directors: seq<Director> := [ZhangYimou, TsuiHark, WongKarWai]

  datatype Clothing = TraditionalChinese | Kimono | ModernDress | Business | Casual | Formal {
    function Name(): string {
      match this
      case TraditionalChinese => "traditional_chinese" case Kimono => "kimono" case ModernDress => "modern"
      case Business => "business" case Casual => "casual" case Formal => "formal"
    }
    function Keywords(): seq<string> {
      match this
      case TraditionalChinese => ["古装", "汉服", "传统服饰", "中式"]
      case Kimono => ["和服"]
      case ModernDress => ["现代", "时尚"]
      case Business => ["职业装", "西装"]
      case Casual => ["休闲"]
      case Formal => ["礼服"]
    }
  }
  const Clothings: seq<Clothing> := [TraditionalChinese, Kimono, ModernDress, Business, Casual, Formal]

  /** Hairstyle has no keywords: it follows from the clothing. */
  datatype Hairstyle = AncientChinese | ModernHair {
    function Name(): string {
      match this case AncientChinese => "ancient_chinese" case ModernHair => "modern"
    }
  }

  datatype Makeup = ChineseMakeup | JapaneseMakeup | KBeauty | CBeauty | NaturalMakeup {
    function Name(): string {
      match this
      case ChineseMakeup => "traditional_chinese" case JapaneseMakeup => "traditional_japanese"
      case KBeauty => "k_beauty" case CBeauty => "c_beauty" case NaturalMakeup => "natural"
    }
    function Keywords(): seq<string> {
      match this
      case ChineseMakeup => ["古风妆", "传统妆", "中式妆"]
      case JapaneseMakeup => ["日式妆"]
      case KBeauty => ["韩系", "韩妆"]
      case CBeauty => ["中系"]
      case NaturalMakeup => ["自然", "淡妆"]
    }
  }
  const Makeups: seq<Makeup> := [ChineseMakeup, JapaneseMakeup, KBeauty, CBeauty, NaturalMakeup]

  datatype Gender = Male | Female {
    function Name(): string { match this case Male => "male" case Female => "female" }
    function Keywords(): seq<string> {
      match this
      case Male => ["男", "男性", "男孩", "少年", "man", "boy", "male"]
      case Female => ["女", "女性", "女孩", "少女", "美女", "woman", "girl", "female"]
    }
  }
  const Genders: seq<Gender> := [Male, Female]

  datatype Ethnicity = EastAsian | European | African | SouthAsian | Latin {
    function Name(): string {
      match this
      case EastAsian => "East_Asian" case European => "European" case African => "African"
      case SouthAsian => "South_Asian" case Latin => "Latin"
    }
    function Keywords(): seq<string> {
      match this
      case EastAsian => ["亚洲", "中国", "日本", "韩国", "东亚", "asian", "chinese", "japanese", "korean"]
      case European => ["欧洲", "西方", "白人", "european", "western", "caucasian"]
      case African => ["非洲", "黑人", "african"]
      case SouthAsian => ["南亚", "印度", "indian", "south asian"]
      case Latin => ["拉丁", "latin", "hispanic"]
    }
  }
  const Ethnicities: seq<Ethnicity> := [EastAsian, European, African, SouthAsian, Latin]

  datatype AgeRange = Child | Teen | YoungAdult | Adult | MiddleAged | Elderly {
    function Name(): string {
      match this
      case Child => "child" case Teen => "teen" case YoungAdult => "young_adult"
      case Adult => "adult" case MiddleAged => "middle_aged" case Elderly => "elderly"
    }
    function Keywords(): seq<string> {
      match this
      case Child => ["儿童", "小孩", "child", "kid"]
      case Teen => ["少年", "青少年", "teen", "teenager"]
      case YoungAdult => ["年轻", "青年", "少女", "少年", "young"]
      case Adult => ["成年", "成人", "adult"]
      case MiddleAged => ["中年", "middle aged"]
      case Elderly => ["老年", "老人", "elderly", "old"]
    }
  }
  const AgeRanges: seq<AgeRange> := [Child, Teen, YoungAdult, Adult, MiddleAged, Elderly]

  datatype ArtStyle = Anime | Realistic | CinematicStyle | Illustration {
    function Name(): string {
      match this
      case Anime => "anime" case Realistic => "realistic" case CinematicStyle => "cinematic"
      case Illustration => "illustration"
    }
    function Keywords(): seq<string> {
      match this
      case Anime => ["动漫", "二次元", "anime"]
      case Realistic => ["写实", "真实", "realistic"]
      case CinematicStyle => ["电影级", "电影", "cinematic"]
      case Illustration => ["插画", "illustration"]
    }
  }
  const ArtStyles: seq<ArtStyle> := [Anime, Realistic, CinematicStyle, Illustration]

  datatype ArtType = InkWash | OilPainting | Watercolor | Sketch {
    function Name(): string {
      match this
      case InkWash => "ink_wash" case OilPainting => "oil_painting" case Watercolor => "watercolor"
      case Sketch => "sketch"
    }
    function Keywords(): seq<string> {
      match this
      case InkWash => ["水墨", "国画", "ink wash"]
      case OilPainting => ["油画", "oil painting"]
      case Watercolor => ["水彩", "watercolor"]
      case Sketch => ["素描", "sketch"]
    }
  }
  const ArtTypes: seq<ArtType> := [InkWash, OilPainting, Watercolor, Sketch]

  datatype ArtSubject = Landscape | StillLife | Abstract {
    function Name(): string {
      match this case Landscape => "landscape" case StillLife => "still_life" case Abstract => "abstract"
    }
    function Keywords(): seq<string> {
      match this
      case Landscape => ["山水", "风景", "landscape"]
      case StillLife => ["静物", "still life"]
      case Abstract => ["抽象", "abstract"]
    }
  }
  const ArtSubjects: seq<ArtSubject> := [Landscape, StillLife, Abstract]

  datatype DesignType = BentoGrid | Glassmorphism | Poster | UserInterface {
    function Name(): string {
      match this
      case BentoGrid => "bento_grid" case Glassmorphism => "glassmorphism" case Poster => "poster"
      case UserInterface => "ui"
    }
    function Keywords(): seq<string> {
      match this
      case BentoGrid => ["Bento", "bento", "网格"]
      case Glassmorphism => ["玻璃态", "glassmorphism", "glass"]
      case Poster => ["海报", "poster"]
      case UserInterface => ["UI", "ui", "界面"]
    }
  }
  const DesignTypes: seq<DesignType> := [BentoGrid, Glassmorphism, Poster, UserInterface]

  datatype ProductStyle = Luxury | Commercial | Minimal {
    function Name(): string {
      match this case Luxury => "luxury" case Commercial => "commercial" case Minimal => "minimal"
    }
    function Keywords(): seq<string> {
      match this
      case Luxury => ["奢华", "高端", "luxury"]
      case Commercial => ["商业", "commercial"]
      case Minimal => ["极简", "minimal"]
    }
  }
  const ProductStyles: seq<ProductStyle> := [Luxury, Commercial, Minimal]

  function DomainTable(): Table<Domain> { seq(|Domains|, i requires 0 <= i < |Domains| => (Domains[i], Domains[i].Keywords())) }
  function EraTable(): Table<Era> { seq(|Eras|, i requires 0 <= i < |Eras| => (Eras[i], Eras[i].Keywords())) }
  function LightingTable(): Table<Lighting> { seq(|Lightings|, i requires 0 <= i < |Lightings| => (Lightings[i], Lightings[i].Keywords())) }
  function DirectorTable(): Table<Director> { seq(|Directors|, i requires 0 <= i < |Directors| => (Directors[i], Directors[i].Keywords())) }
  function ClothingTable(): Table<Clothing> { seq(|Clothings|, i requires 0 <= i < |Clothings| => (Clothings[i], Clothings[i].Keywords())) }
  function MakeupTable(): Table<Makeup> { seq(|Makeups|, i requires 0 <= i < |Makeups| => (Makeups[i], Makeups[i].Keywords())) }
  function GenderTable(): Table<Gender> { seq(|Genders|, i requires 0 <= i < |Genders| => (Genders[i], Genders[i].Keywords())) }
  function EthnicityTable(): Table<Ethnicity> { seq(|Ethnicities|, i requires 0 <= i < |Ethnicities| => (Ethnicities[i], Ethnicities[i].Keywords())) }
  function AgeTable(): Table<AgeRange> { seq(|AgeRanges|, i requires 0 <= i < |AgeRanges| => (AgeRanges[i], AgeRanges[i].Keywords())) }
  function ArtStyleTable(): Table<ArtStyle> { seq(|ArtStyles|, i requires 0 <= i < |ArtStyles| => (ArtStyles[i], ArtStyles[i].Keywords())) }
  function ArtTypeTable(): Table<ArtType> { seq(|ArtTypes|, i requires 0 <= i < |ArtTypes| => (ArtTypes[i], ArtTypes[i].Keywords())) }
  function ArtSubjectTable(): Table<ArtSubject> { seq(|ArtSubjects|, i requires 0 <= i < |ArtSubjects| => (ArtSubjects[i], ArtSubjects[i].Keywords())) }
  function DesignTypeTable(): Table<DesignType> { seq(|DesignTypes|, i requires 0 <= i < |DesignTypes| => (DesignTypes[i], DesignTypes[i].Keywords())) }
  function ProductStyleTable(): Table<ProductStyle> { seq(|ProductStyles|, i requires 0 <= i < |ProductStyles| => (ProductStyles[i], ProductStyles[i].Keywords())) }

  /**
   * Keyword `kw` is found in `text`: the text is always lowered; the keyword is
   * lowered too when `fold` holds (`kw.lower() in text.lower()`), and compared as
   * written otherwise (`kw in text.lower()`).
   */
  predicate Found(text: string, kw: string, fold: bool) {
    Contains(Lower(text), if fold then Lower(kw) else kw)
  }

  /** Some keyword of `kws` is found in `text`. */
  predicate Mentions(text: string, kws: seq<string>, fold: bool) {
    exists j :: 0 <= j < |kws| && Found(text, kws[j], fold)
  }

  /** Entry `i` of `table` is mentioned and no earlier entry is. */
  predicate FirstMentioned<V>(text: string, table: Table<V>, fold: bool, i: int) {
    && 0 <= i < |table|
    && Mentions(text, table[i].1, fold)
    && forall j :: 0 <= j < i ==> !Mentions(text, table[j].1, fold)
  }

  /**
   * The scan `for value, kws in table: for kw in kws: if found: return value`,
   * giving the position of the winning entry.
   */
  function FirstMention<V>(text: string, table: Table<V>, fold: bool): (r: Option<nat>)
    ensures r.None? <==> forall i :: 0 <= i < |table| ==> !Mentions(text, table[i].1, fold)
    ensures r.Some? ==> FirstMentioned(text, table, fold, r.value)
    decreases |table|
  {
    if |table| == 0 then None
    else if Mentions(text, table[0].1, fold) then Some(0)
    else
      match FirstMention(text, table[1..], fold)
      case None => None
      case Some(i) => Some(i + 1)
  }

  /** The first mentioned value of `table`, or `None` when no keyword of it is found. */
  function Lookup<V>(text: string, table: Table<V>, fold: bool): (r: Option<V>)
    ensures r.None? <==> forall i :: 0 <= i < |table| ==> !Mentions(text, table[i].1, fold)
    ensures r.Some? ==> exists i :: FirstMentioned(text, table, fold, i) && r.value == table[i].0
  {
    match FirstMention(text, table, fold)
    case None => None
    case Some(i) => Some(table[i].0)
  }

  /** At most one position is the first mentioned one. */
  lemma FirstMentionedUnique<V>(text: string, table: Table<V>, fold: bool)
    ensures forall i, j :: FirstMentioned(text, table, fold, i) && FirstMentioned(text, table, fold, j) ==> i == j
  {}

  /**
   * `detect_value`: the first value, in declaration order, one of whose keywords
   * occurs case-insensitively in the text; otherwise the default.
   */
  function DetectValue<V>(text: string, table: Table<V>, default: V): (r: V)
    ensures (forall i :: 0 <= i < |table| ==> !Mentions(text, table[i].1, true)) ==> r == default
    ensures forall i :: FirstMentioned(text, table, true, i) ==> r == table[i].0
  {
    FirstMentionedUnique(text, table, true);
    Lookup(text, table, true).GetOr(default)
  }

  /** How many keywords of `kws` are found in `text`. */
  function Tally(text: string, kws: seq<string>, fold: bool): (n: nat)
    ensures n <= |kws|
    ensures n > 0 <==> Mentions(text, kws, fold)
    decreases |kws|
  {
    if |kws| == 0 then 0
    else
      var rest := Tally(text, kws[1..], fold);
      assert forall j :: 1 <= j < |kws| ==> kws[j] == kws[1..][j - 1];
      (if Found(text, kws[0], fold) then 1 else 0) + rest
  }

  /** A single keyword counts one when found and nothing otherwise. */
  lemma TallySingle(text: string, kw: string, fold: bool)
    ensures Tally(text, [kw], fold) == if Found(text, kw, fold) then 1 else 0
  {
    assert [kw][1..] == [];
  }

  /** The tally of two keyword lists is the sum of their tallies: every keyword found counts once. */
  lemma {:induction false} TallyAppend(text: string, a: seq<string>, b: seq<string>, fold: bool)
    ensures Tally(text, a + b, fold) == Tally(text, a, fold) + Tally(text, b, fold)
    decreases |a|
  {
    if |a| > 0 {
      assert (a + b)[0] == a[0];
      assert (a + b)[1..] == a[1..] + b;
      TallyAppend(text, a[1..], b, fold);
    } else {
      assert a + b == b;
    }
  }

  /** Per domain, in declaration order, the number of its keywords found (case-insensitively). */
  function DomainScores(text: string): (r: seq<nat>)
    ensures |r| == |Domains|
    ensures forall i :: 0 <= i < |r| ==> r[i] == Tally(text, Domains[i].Keywords(), true)
    ensures forall i :: 0 <= i < |r| ==> (r[i] > 0 <==> Mentions(text, Domains[i].Keywords(), true))
  {
    seq(|Domains|, i requires 0 <= i < |Domains| => Tally(text, Domains[i].Keywords(), true))
  }

  /** `xs[i]` is maximal and strictly greater than everything before it. */
  predicate FirstMax(xs: seq<nat>, i: int) {
    && 0 <= i < |xs|
    && (forall j :: 0 <= j < |xs| ==> xs[j] <= xs[i])
    && (forall j :: 0 <= j < i ==> xs[j] < xs[i])
  }

  /** Python's `max` over positions keyed by `xs`: the first maximal position. */
  function ArgMaxFirst(xs: seq<nat>): (i: nat)
    requires |xs| > 0
    ensures FirstMax(xs, i)
    decreases |xs|
  {
    if |xs| == 1 then 0
    else
      var b := ArgMaxFirst(xs[..|xs| - 1]);
      if xs[|xs| - 1] > xs[b] then |xs| - 1 else b
  }

  /**
   * `detect_domain`: a plurality vote over the domain keyword sets, ties going to
   * the domain declared first, and `portrait` when no keyword is found at all.
   */
  function DetectDomain(text: string): (r: Domain)
    ensures forall i :: FirstMax(DomainScores(text), i) && DomainScores(text)[i] > 0 ==> r == Domains[i]
    ensures (forall i :: 0 <= i < |Domains| ==> !Mentions(text, Domains[i].Keywords(), true)) ==> r == Portrait
  {
    var scores := DomainScores(text);
    var best := ArgMaxFirst(scores);
    if scores[best] > 0 then Domains[best] else Portrait
  }

  /**
   * `detect_gender`: male keywords are tried first, so a male keyword anywhere wins
   * over any female keyword; with no male keyword the answer is `female`, whether a
   * female keyword occurs or not. Keywords are matched as written.
   */
  function DetectGender(text: string): (r: Gender)
    ensures r == Male <==> Mentions(text, Male.Keywords(), false)
  {
    var r := Lookup(text, GenderTable(), false).GetOr(Female);
    assert r == Male ==> FirstMentioned(text, GenderTable(), false, 0) by {
      if r == Male {
        var i :| FirstMentioned(text, GenderTable(), false, i) && r == GenderTable()[i].0;
        assert Genders[i] == Male;
      }
    }
    assert Mentions(text, Male.Keywords(), false) ==> FirstMentioned(text, GenderTable(), false, 0);
    r
  }

  /**
   * Keywords are substrings, not words: "woman" contains the male keyword "man",
   * and male keywords are tried first, so "a woman" reads as male.
   */
  lemma WomanReadsAsMale()
    ensures DetectGender("a woman") == Male
  {
    assert Lower("a woman") == "a woman";
    assert StartsWith("man", "man");
    assert "a woman"[1..][1..][1..][1..] == "man";
    assert Male.Keywords()[4] == "man";
  }

  /**
   * `detect_ethnicity`: the first ethnicity with a keyword (matched as written) in
   * the text, otherwise `East_Asian`. The source's separate fallback for non-ASCII
   * text returns the same value, so it is one case here.
   */
  function DetectEthnicity(text: string): (r: Ethnicity)
    ensures (forall i :: 0 <= i < |Ethnicities| ==> !Mentions(text, Ethnicities[i].Keywords(), false)) ==> r == EastAsian
    ensures forall i :: FirstMentioned(text, EthnicityTable(), false, i) ==> r == Ethnicities[i]
  {
    FirstMentionedUnique(text, EthnicityTable(), false);
    match Lookup(text, EthnicityTable(), false)
    case Some(e) => e
    case None => EastAsian
  }

  /** `detect_age_range`: the first age group with a keyword (matched as written) in the text, otherwise `young_adult`. */
  function DetectAgeRange(text: string): (r: AgeRange)
    ensures (forall i :: 0 <= i < |AgeRanges| ==> !Mentions(text, AgeRanges[i].Keywords(), false)) ==> r == YoungAdult
    ensures forall i :: FirstMentioned(text, AgeTable(), false, i) ==> r == AgeRanges[i]
  {
    FirstMentionedUnique(text, AgeTable(), false);
    Lookup(text, AgeTable(), false).GetOr(YoungAdult)
  }

  datatype Subject = Subject(gender: Gender, ethnicity: Ethnicity, ageRange: AgeRange)

  /** `directorStyle` is `None` when the intent has no `director_style` key. */
  datatype Scene = Scene(era: Era, directorStyle: Option<Director>)

  datatype Styling = Styling(clothing: Clothing, hairstyle: Hairstyle, makeup: Makeup)

  /** The domain-specific part of an intent; `NoDetails` for `video` and unknown domains. */
  datatype Details =
    | PortraitDetails(subject: Subject, scene: Scene, styling: Styling, lighting: Lighting, artStyle: ArtStyle)
    | ArtDetails(artType: ArtType, subjectType: ArtSubject)
    | DesignDetails(designType: DesignType)
    | ProductDetails(productStyle: ProductStyle)
    | NoDetails

  datatype Intent = Intent(domain: string, rawRequest: string, details: Details)

  /** The Zhang Yimou lighting keyword is the Zhang Yimou director keyword, so it always selects that director. */
  lemma ZhangYimouLightSelectsDirector(text: string)
    ensures Lookup(text, LightingTable(), true) == Some(ZhangYimouLight) ==> Lookup(text, DirectorTable(), true) == Some(ZhangYimou)
  {
    if Lookup(text, LightingTable(), true) == Some(ZhangYimouLight) {
      var i :| FirstMentioned(text, LightingTable(), true, i) && ZhangYimouLight == LightingTable()[i].0;
      assert Lightings[i] == ZhangYimouLight;
      assert FirstMentioned(text, DirectorTable(), true, 0);
      FirstMentionedUnique(text, DirectorTable(), true);
    }
  }

  /**
   * Styling from the detected era and the clothing and makeup values found in the
   * text, if any: era decides the clothing default, clothing decides the
   * hairstyle, and era decides the makeup default.
   */
  function PortraitStyling(era: Era, clothing: Option<Clothing>, makeup: Option<Makeup>): (s: Styling)
    ensures clothing.Some? ==> s.clothing == clothing.value
    ensures clothing.None? ==> s.clothing in {TraditionalChinese, ModernDress} && (s.clothing == TraditionalChinese <==> era == Ancient)
    ensures s.hairstyle == AncientChinese <==> s.clothing == TraditionalChinese
    ensures makeup.Some? ==> s.makeup == makeup.value
    ensures makeup.None? ==> s.makeup in {ChineseMakeup, NaturalMakeup} && (s.makeup == ChineseMakeup <==> era == Ancient)
  {
    var c := match clothing case Some(c) => c case None => if era == Ancient then TraditionalChinese else ModernDress;
    var m := match makeup case Some(m) => m case None => if era == Ancient then ChineseMakeup else NaturalMakeup;
    Styling(c, if c == TraditionalChinese then AncientChinese else ModernHair, m)
  }

  /**
   * The portrait branch of `parse_intent`. Besides the styling defaults, the Zhang
   * Yimou director style forces cinematic lighting, so the `zhang_yimou` lighting
   * value, whose keyword is that director's, never survives.
   */
  function ParsePortrait(text: string): (d: Details)
    ensures d.PortraitDetails?
    ensures d.subject == Subject(DetectGender(text), DetectEthnicity(text), DetectAgeRange(text))
    ensures d.scene.era == DetectValue(text, EraTable(), ModernEra)
    ensures d.styling == PortraitStyling(d.scene.era, Lookup(text, ClothingTable(), true), Lookup(text, MakeupTable(), true))
    ensures d.scene.directorStyle == Lookup(text, DirectorTable(), true)
    ensures d.scene.directorStyle.None? <==> forall i :: 0 <= i < |DirectorTable()| ==> !Mentions(text, DirectorTable()[i].1, true)
    ensures d.scene.directorStyle == Some(ZhangYimou) ==> d.lighting == Cinematic
    ensures d.scene.directorStyle != Some(ZhangYimou) ==> d.lighting == DetectValue(text, LightingTable(), NaturalLight)
    ensures d.lighting != ZhangYimouLight
    ensures d.artStyle == DetectValue(text, ArtStyleTable(), Realistic)
  {
    var subject := Subject(DetectGender(text), DetectEthnicity(text), DetectAgeRange(text));
    var era := DetectValue(text, EraTable(), ModernEra);
    var styling := PortraitStyling(era, Lookup(text, ClothingTable(), true), Lookup(text, MakeupTable(), true));
    var lighting := DetectValue(text, LightingTable(), NaturalLight);
    var director := Lookup(text, DirectorTable(), true);
    var artStyle := DetectValue(text, ArtStyleTable(), Realistic);
    ZhangYimouLightSelectsDirector(text);
    PortraitDetails(subject, Scene(era, director), styling, if director == Some(ZhangYimou) then Cinematic else lighting, artStyle)
  }

  /** No keyword of any entry of `table` is found in `text`. */
  predicate Silent<V>(text: string, table: Table<V>, fold: bool) {
    forall i :: 0 <= i < |table| ==> !Mentions(text, table[i].1, fold)
  }

  /**
   * A portrait request that names none of the era, clothing, makeup, lighting,
   * director or art-style keywords gets every default: modern era, modern dress
   * and hair, natural makeup, natural lighting, no director, realistic style.
   */
  lemma PortraitDefaults(text: string)
    requires Silent(text, EraTable(), true) && Silent(text, ClothingTable(), true) && Silent(text, MakeupTable(), true)
    requires Silent(text, LightingTable(), true) && Silent(text, DirectorTable(), true) && Silent(text, ArtStyleTable(), true)
    ensures var d := ParsePortrait(text);
      && d.scene == Scene(ModernEra, None)
      && d.styling == Styling(ModernDress, ModernHair, NaturalMakeup)
      && d.lighting == NaturalLight
      && d.artStyle == Realistic
  {
  }

  /**
   * `parse_intent`: a hint other than `auto` is taken verbatim as the domain, the
   * raw request is kept as given, and only the four known domains get details.
   */
  function ParseIntent(text: string, hint: string): (r: Intent)
    ensures r.rawRequest == text
    ensures hint != "auto" ==> r.domain == hint
    ensures hint == "auto" ==> r.domain == DetectDomain(text).Name()
    ensures r.details.PortraitDetails? <==> r.domain == "portrait"
    ensures r.details.ArtDetails? <==> r.domain == "art"
    ensures r.details.DesignDetails? <==> r.domain == "design"
    ensures r.details.ProductDetails? <==> r.domain == "product"
    ensures r.domain == "portrait" ==> r.details == ParsePortrait(text)
    ensures r.domain == "art" ==>
      r.details == ArtDetails(DetectValue(text, ArtTypeTable(), InkWash), DetectValue(text, ArtSubjectTable(), Landscape))
    ensures r.domain == "design" ==> r.details == DesignDetails(DetectValue(text, DesignTypeTable(), Poster))
    ensures r.domain == "product" ==> r.details == ProductDetails(DetectValue(text, ProductStyleTable(), Commercial))
  {
    var domain := if hint == "auto" then DetectDomain(text).Name() else hint;
    var details :=
      if domain == "portrait" then ParsePortrait(text)
      else if domain == "art" then
        ArtDetails(DetectValue(text, ArtTypeTable(), InkWash), DetectValue(text, ArtSubjectTable(), Landscape))
      else if domain == "design" then DesignDetails(DetectValue(text, DesignTypeTable(), Poster))
      else if domain == "product" then ProductDetails(DetectValue(text, ProductStyleTable(), Commercial))
      else NoDetails;
    Intent(domain, text, details)
  }
}
