# Prompt-generator core in Dafny

This project models the core of the skill-prompt-generator MCP server. That core is
four tools that turn a natural-language request into an image-generation prompt:

- **Intent parsing** (`IntentParser`) reads the request. It detects the domain by
  keyword tally, and for portraits the subject's gender, ethnicity and age. It then
  reads the era, clothing, hairstyle, makeup, lighting, director and art style. For
  the other domains it reads one or two style fields.
- **Element query** (`ElementQuery`, `Ranking`) filters the rows fetched from the
  element library by keyword relevance. It ranks them with Python's stable
  descending sort, keeps the best `limit`, and projects each one into a candidate
  record. It also maps framework field names to store categories, summarises the
  library's domain statistics, and splits a comma-separated keyword argument.
- **Consistency checking** (`ConsistencyChecker`) files the selected elements by
  category, last one winning. It flags eye and hair colours unusual for the
  intended ethnicity, lighting and clothing anachronistic for the era, and
  repeated templates. It then counts the issues by severity.
- **Prompt composition** (`PromptComposer`) groups elements by category. It takes
  the key phrases of each template and builds the subject, styling, lighting,
  technical and quality sections. It joins the non-empty sections and cleans the
  result: collapses whitespace, removes doubled commas, strips edge commas and
  spaces, and capitalises the first letter.

The supporting modules are:

- `Text`: Python's string operations as the tools use them (`lower`, `in`, `split`,
  `strip`, `re.split`, `join`, slicing).
- `Elements`: the element record.
- `Optional`: an option type.

Every operation is a pure function. The element store, which is SQLite in the
source, becomes the function parameter `store`. It is called with the domain,
the category and the number of rows to fetch, and returns the rows.

Two behaviours of the code are easy to misread:

- Prompt clean-up looks idempotent, but it is not. Cleaning `a,,,b` (any two
  lower-case letters around three commas) gives `A,,b`, and cleaning that again
  gives `A,b`, because one pass of the comma rewrite leaves a run of three commas
  with two. `PromptComposer.CleanPromptNotIdempotent`
  proves this. `PromptComposer.CleanIdempotentOnTidy` proves the property for input
  that is already tidy.
- The comment on the styling section says makeup, then clothing, then hair. The code
  lists every store category (`makeup_styles`, `clothing_styles`, `hairstyles`)
  before any framework alias (`styling.makeup`, …). So a `styling.makeup` element
  comes after a `hairstyles` one. `PromptComposer.SectionGroupOrder` states the
  order the code uses.

The model also keeps one behaviour of the code as written: `detect_gender` tests the
male keywords first, and `man` and `male` occur inside `woman` and `female`. So a
request for "a woman" reads as male (`IntentParser.WomanReadsAsMale`).

## Model

| member | source | states |
|---|---|---|
| Text.Lower | mcp_server/tools/intent_parser.py:99 | Lowering keeps the length and maps every character through the ASCII case mapping. |
| Text.LowerIsLowerCase | mcp_server/tools/intent_parser.py:99 | Lowered text has no upper-case letter left, and lowering lower-case text changes nothing. |
| Text.ContainsOccurs | mcp_server/tools/intent_parser.py:102 | Python's `kw in text` holds exactly when the keyword occurs at some position of the text. |
| Text.ShorterLacks | mcp_server/tools/intent_parser.py:102 | A keyword longer than the text never occurs in it. |
| Text.ContainsInPrefix | mcp_server/tools/element_query.py:132 | A keyword found in a text is still found after more text is appended. |
| Text.SliceTo | mcp_server/tools/prompt_composer.py:166 | `xs[:n]` is a prefix of `xs`: min(n, len) long for n >= 0, and len + n long (at least 0) for negative n. |
| Text.Split | mcp_server/tools/prompt_composer.py:162 | `re.split` on a character class yields one more piece than there are delimiters, and no piece holds a delimiter. |
| Text.SplitWeave | mcp_server/tools/prompt_composer.py:162 | Putting the delimiters back between the pieces rebuilds the original text. |
| Text.SplitJoin | mcp_server/server.py:102 | Splitting pieces joined by a delimiter gives back the pieces, when none holds a delimiter. |
| Text.Strip | mcp_server/tools/prompt_composer.py:193 | `strip(chars)` removes exactly the leading and trailing run of those characters and keeps the middle untouched. |
| Text.StripFixed | mcp_server/tools/prompt_composer.py:193 | Stripping leaves a text unchanged exactly when neither end is a stripped character. |
| Text.Trim | mcp_server/tools/prompt_composer.py:167 | `strip()` removes exactly the leading and trailing whitespace runs and keeps the middle untouched. |
| Text.TrimLeadingSpace | mcp_server/tools/prompt_composer.py:167 | A leading whitespace character makes no difference to `strip()`. |
| Text.Words | mcp_server/tools/prompt_composer.py:187 | `split()` yields non-empty words without whitespace. |
| Text.WordsCons | mcp_server/tools/prompt_composer.py:187 | A space-free word, a space and more text split into that word followed by the words of the rest. |
| Text.WordsSpaceAppend | mcp_server/tools/prompt_composer.py:187 | Splitting at a whitespace character splits each side on its own: the words of the left side, then those of the right. |
| Text.JoinWordsCollapsed | mcp_server/tools/prompt_composer.py:187 | Words joined by single spaces form collapsed text: no whitespace but single spaces between words, none at the ends. |
| Text.Collapse | mcp_server/tools/prompt_composer.py:187 | `' '.join(s.split())` is always collapsed and keeps every non-whitespace character, in order. |
| Text.ContentJoinWords | mcp_server/tools/prompt_composer.py:187 | Joining the words with single spaces keeps every non-whitespace character, in order. |
| Text.CollapseSpaceAppend | mcp_server/tools/prompt_composer.py:187 | Collapsing text with some content, a space and already collapsed text collapses only the front. |
| Text.CollapseFixesCollapsed | mcp_server/tools/prompt_composer.py:187 | Collapsing already collapsed text changes nothing. |
| Text.CommaRunEnd | mcp_server/tools/prompt_composer.py:190 | The match of `,\s*,` at a comma ends at the next comma when only whitespace lies between; there is no match exactly when no comma follows across whitespace alone. |
| Text.DedupCommasPlainSpaces | mcp_server/tools/prompt_composer.py:190 | The comma rewrite introduces no whitespace other than plain spaces. |
| Text.DedupCommasSingleSpaced | mcp_server/tools/prompt_composer.py:190 | The comma rewrite never creates two spaces in a row, and adds no leading space. |
| Text.DedupCommasContent | mcp_server/tools/prompt_composer.py:190 | The comma rewrite removes only commas and whitespace: every other character stays, in order. |
| Text.DedupAppend | mcp_server/tools/prompt_composer.py:190 | In front of text that starts with neither whitespace nor a comma, the rewrite works on each side on its own. |
| Text.StripContent | mcp_server/tools/prompt_composer.py:193 | Stripping commas and spaces from the ends removes no other character. |
| Text.StripAppendKept | mcp_server/tools/prompt_composer.py:193 | Stripping text whose last part has no comma or space at either end strips only the front and keeps that part whole. |
| Elements.CategoryOr | mcp_server/tools/consistency_checker.py:71 | The element's category, else its field name, else the fallback. |
| Elements.TemplateText | mcp_server/tools/consistency_checker.py:149 | The element's `template`, else its `ai_prompt_template`, else empty. |
| IntentParser.FirstMention | mcp_server/tools/intent_parser.py:82-91 | The first table entry with a keyword in the text; none exactly when no entry's keyword occurs. |
| IntentParser.Lookup | mcp_server/tools/intent_parser.py:82-91 | The value of the first entry mentioned; none exactly when no keyword of any entry occurs. |
| IntentParser.FirstMentionedUnique | mcp_server/tools/intent_parser.py:85-89 | At most one entry is the first mentioned one, so detection is deterministic. |
| IntentParser.DetectValue | mcp_server/tools/intent_parser.py:82-91 | The default when no keyword occurs in the lowered text; otherwise the value of the first entry mentioned. |
| IntentParser.Tally | mcp_server/tools/intent_parser.py:72-75 | The number of a domain's keywords found: at most its keyword count, and positive exactly when one is mentioned. |
| IntentParser.TallySingle | mcp_server/tools/intent_parser.py:72-75 | One keyword counts 1 exactly when it is found in the text. |
| IntentParser.TallyAppend | mcp_server/tools/intent_parser.py:72-75 | The tally of two keyword lists is the sum of their tallies. |
| IntentParser.DomainScores | mcp_server/tools/intent_parser.py:70-75 | One score per domain: the tally of its keywords, positive exactly when one of them is mentioned. |
| IntentParser.ArgMaxFirst | mcp_server/tools/intent_parser.py:78 | `max` over the scores returns the first domain with the highest score. |
| IntentParser.DetectDomain | mcp_server/tools/intent_parser.py:66-79 | The first highest-scoring domain when its score is positive; portrait when no domain keyword occurs. |
| IntentParser.DetectGender | mcp_server/tools/intent_parser.py:94-109 | Male exactly when a male keyword occurs in the lowered text; female otherwise, by keyword or by default. |
| IntentParser.WomanReadsAsMale | mcp_server/tools/intent_parser.py:96-103 | "a woman" is detected as male, because `man` is a male keyword and male keywords are looked for first. |
| IntentParser.DetectEthnicity | mcp_server/tools/intent_parser.py:112-133 | The first ethnicity with a keyword in the lowered text; East Asian when none occurs. |
| IntentParser.DetectAgeRange | mcp_server/tools/intent_parser.py:136-154 | The first age range with a keyword in the lowered text; young adult when none occurs. |
| IntentParser.ZhangYimouLightSelectsDirector | mcp_server/tools/intent_parser.py:35-41 | A request whose detected lighting is Zhang Yimou's also selects that director, as the two share their keywords. |
| IntentParser.PortraitStyling | mcp_server/tools/intent_parser.py:193-213 | Detected clothing and makeup are kept. Otherwise they follow the era: traditional for ancient, modern or natural otherwise. The hairstyle is ancient Chinese exactly when the clothing is traditional Chinese. |
| IntentParser.ParsePortrait | mcp_server/tools/intent_parser.py:179-239 | The subject is the detected gender, ethnicity and age. Era and art style are detected, defaulting to modern and realistic, and the styling follows the era. The director is the first one mentioned. The Zhang Yimou director forces cinematic lighting; otherwise lighting is detected, defaulting to natural, and the Zhang Yimou lighting never survives. |
| IntentParser.PortraitDefaults | mcp_server/tools/intent_parser.py:179-239 | A request that mentions no era, clothing, makeup, lighting, director or art style gets the modern era, modern dress and hair, natural makeup and light, and the realistic style. |
| IntentParser.ParseIntent | mcp_server/tools/intent_parser.py:157-278 | The raw request is kept. The domain is the hint unless it is `auto`, then the detected domain. The details are the portrait parse for portraits; the detected art type and subject (ink wash and landscape by default) for art; the design type (poster) for design; the product style (commercial) for products; none otherwise. |
| Ranking.WithScoreAppend | mcp_server/tools/element_query.py:87 | The candidates of one score in a concatenation are those of each part, in order. |
| Ranking.Insert | mcp_server/tools/element_query.py:87 | Inserting behind all equal or higher scores keeps the order descending and puts the new candidate last among its score. |
| Ranking.SortDescending | mcp_server/tools/element_query.py:87 | The stable descending sort is descending and keeps, at every score, exactly the input's candidates in input order. |
| Ranking.SortKeepsMembers | mcp_server/tools/element_query.py:87 | Sorting neither loses nor adds a candidate. |
| Ranking.StableOrderUnique | mcp_server/tools/element_query.py:87 | Two descending sequences that agree at every score are equal. |
| Ranking.SortIsStableOrder | mcp_server/tools/element_query.py:87 | Any descending arrangement that keeps ties in input order is exactly the sort's result. |
| ElementQuery.Searchable | mcp_server/tools/element_query.py:123-129 | The searchable text is lower-case, joins the four fields with single spaces (its length is theirs plus three), and contains each lowered field. |
| ElementQuery.Matches | mcp_server/tools/element_query.py:132 | The keyword match count is at most the number of keywords, zero exactly when no keyword hits, and full exactly when every keyword hits. |
| ElementQuery.MatchesSingle | mcp_server/tools/element_query.py:132 | One keyword counts 1 exactly when it occurs in the searchable text. |
| ElementQuery.MatchesAppend | mcp_server/tools/element_query.py:132 | The match count of two keyword lists is the sum of their counts. |
| ElementQuery.Relevance | mcp_server/tools/element_query.py:109-134 | 0.5 without keywords; otherwise the fraction of keywords that hit, in [0, 1], positive exactly when a keyword hits and 1 exactly when all do. |
| ElementQuery.Project | mcp_server/tools/element_query.py:93-101 | The candidate keeps id and names, the keywords (empty when absent) and the reusability (0 when absent), and carries the relevance. Its template is the first min(200, length) characters of the element's. |
| ElementQuery.Relevant | mcp_server/tools/element_query.py:78-84 | Exactly the fetched rows with positive relevance, each with its score. |
| ElementQuery.RelevantSingle | mcp_server/tools/element_query.py:78-84 | A single row is kept, with its relevance, exactly when that relevance is positive. |
| ElementQuery.RelevantAppend | mcp_server/tools/element_query.py:78-84 | Filtering keeps store order: the relevant rows of two row lists are those of the first, then those of the second. |
| ElementQuery.Ranked | mcp_server/tools/element_query.py:78-88 | At most `limit` fetched rows of positive relevance, in non-increasing relevance. At every relevance the rows kept are the first relevant rows of that relevance, in store order. |
| ElementQuery.RankedKeepsStoreOrder | mcp_server/tools/element_query.py:86-88 | The sort is stable: relevant rows the store already lists in non-increasing relevance come back as listed, cut at `limit`. |
| ElementQuery.TieKeepsStoreOrder | mcp_server/tools/element_query.py:86-88 | Two rows of the same positive relevance come back in the order the store gave them. |
| ElementQuery.QueryElements | mcp_server/tools/element_query.py:49-103 | The store is asked for the domain and category, `3 * limit` rows with keywords and `limit` without. Without keywords the rows come back in store order with relevance 0; with keywords, the ranked relevant rows, projected. |
| ElementQuery.RankedShape | mcp_server/tools/element_query.py:78-101 | The ranked, projected rows number at most `limit`, each a row of positive relevance, in non-increasing relevance. |
| ElementQuery.QueryShape | mcp_server/tools/element_query.py:49-106 | From a store that returns at most the rows asked for, at most `limit` candidates come back. Without keywords they are the fetched rows in store order with relevance 0. With keywords they are fetched rows of positive relevance, in non-increasing relevance. |
| ElementQuery.QueryKeepsBest | mcp_server/tools/element_query.py:86-88 | A relevant row is dropped only when `limit` candidates at least as relevant are returned. |
| ElementQuery.QueryByField | mcp_server/tools/element_query.py:137-154 | An unknown field name gives no candidates; a known one is the query of the domain and the field's mapped category. |
| ElementQuery.Breakdown | mcp_server/tools/element_query.py:179-186 | Every key is a selected reported domain, and the last entry, when selected, is summarised under its id. |
| ElementQuery.BreakdownKeys | mcp_server/tools/element_query.py:179-186 | The breakdown lists exactly the reported domains the filter selects. |
| ElementQuery.BreakdownLastWins | mcp_server/tools/element_query.py:181-186 | A domain reported twice is summarised by its last report. |
| ElementQuery.Summarize | mcp_server/tools/element_query.py:184-185 | A domain's name falls back to its id, and its element count to 0. |
| ElementQuery.DomainStats | mcp_server/tools/element_query.py:157-191 | The total defaults to 0. The domains map is empty without a domain list, and otherwise is the breakdown: exactly the selected reported domains, at most the requested one, each summarised from its last report. |
| ElementQuery.KeywordList | mcp_server/server.py:102 | An empty argument gives no keywords. Otherwise there is one stripped piece per comma-separated part, none holding a comma. |
| ElementQuery.KeywordListJoin | mcp_server/server.py:102 | Splitting keywords joined by commas gives back the keywords when they are stripped and comma-free. |
| ElementQuery.JoinNonEmpty | mcp_server/server.py:102 | A join whose first part is non-empty is non-empty. |
| ConsistencyChecker.TablesHaveSuggestions | mcp_server/tools/consistency_checker.py:12-47 | Every ethnicity has a typical eye colour and every era a compatible lighting, so the suggestions' `[0]` never fails. |
| ConsistencyChecker.FieldsOf | mcp_server/tools/consistency_checker.py:65-66 | A portrait intent supplies its ethnicity and era; any other intent supplies neither, so the defaults apply. |
| ConsistencyChecker.InCategory | mcp_server/tools/consistency_checker.py:69-72 | The element filed under a category is the last one with it; none exactly when no element has it. |
| ConsistencyChecker.Slot | mcp_server/tools/consistency_checker.py:79 | The element under the store category; when there is none, the one under the framework field; none exactly when both are empty. |
| ConsistencyChecker.Occurring | mcp_server/tools/consistency_checker.py:82-83 | The listed words that occur in the name. |
| ConsistencyChecker.OccurringSingle | mcp_server/tools/consistency_checker.py:82-83 | One word is kept exactly when it occurs in the name. |
| ConsistencyChecker.OccurringAppend | mcp_server/tools/consistency_checker.py:82-83 | The words of two lists that occur are those of the first, then those of the second, in list order. |
| ConsistencyChecker.EyeCheck | mcp_server/tools/consistency_checker.py:78-95 | One high eye-mismatch issue and one suggestion of the first typical colour per incompatible colour in the eye element's name. Nothing without an eye element. |
| ConsistencyChecker.HairCheck | mcp_server/tools/consistency_checker.py:97-108 | One medium hair-mismatch issue per incompatible colour in the hair element's name, with no suggestion. |
| ConsistencyChecker.LightingCheck | mcp_server/tools/consistency_checker.py:114-131 | One medium lighting issue and one suggestion of the era's first compatible lighting per incompatible lighting named. |
| ConsistencyChecker.ClothingCheck | mcp_server/tools/consistency_checker.py:133-144 | One high clothing issue per incompatible clothing named, with no suggestion. |
| ConsistencyChecker.EthnicityChecks | mcp_server/tools/consistency_checker.py:75-108 | For an ethnicity with features: the eye check on the eye slot, then the hair check on the hair slot, with the eye check's suggestions. Nothing for any other ethnicity. Only ethnicity-kind issues. |
| ConsistencyChecker.EraChecks | mcp_server/tools/consistency_checker.py:111-144 | For an era with rules: the lighting check on the lighting slot, then the clothing check on the clothing slot, with the lighting check's suggestions. Nothing for any other era. Only era-kind issues. |
| ConsistencyChecker.DuplicateIssues | mcp_server/tools/consistency_checker.py:146-158 | Every duplicate issue is low severity. |
| ConsistencyChecker.DuplicateIssuesSnoc | mcp_server/tools/consistency_checker.py:147-158 | A further element adds one issue naming that element exactly when an earlier element had its template, so a first occurrence is never flagged. |
| ConsistencyChecker.DuplicatesNameLaterElements | mcp_server/tools/consistency_checker.py:147-158 | Each duplicate issue names an element whose template an earlier element already had. |
| ConsistencyChecker.DuplicateCount | mcp_server/tools/consistency_checker.py:146-158 | Duplicate issues plus distinct templates number exactly the elements. |
| ConsistencyChecker.DuplicatesIffRepeatedTemplate | mcp_server/tools/consistency_checker.py:146-158 | There are no duplicate issues exactly when no two elements share a template. |
| ConsistencyChecker.DistinctTemplates | mcp_server/tools/consistency_checker.py:147-158 | There are as many distinct templates as elements exactly when templates are pairwise distinct. |
| ConsistencyChecker.CountSeverity | mcp_server/tools/consistency_checker.py:164-166 | A severity count is zero exactly when no issue has that severity. |
| ConsistencyChecker.SeveritiesPartition | mcp_server/tools/consistency_checker.py:163-166 | The high, medium and low counts add up to the total. |
| ConsistencyChecker.MakeReport | mcp_server/tools/consistency_checker.py:160-169 | The report keeps issues and suggestions. Each severity field is the number of issues of that severity, the three partition the total, and the report is consistent exactly when there is no high or medium issue, that is, when every issue is low. |
| ConsistencyChecker.CheckConsistency | mcp_server/tools/consistency_checker.py:50-171 | Issues are the ethnicity, then era, then duplicate issues, under the defaults East Asian and modern. Suggestions are the eye suggestions followed by the lighting suggestions. The severity fields count their issues, there are no more suggestions than issues, and the set is consistent exactly when no issue is high or medium. |
| ConsistencyChecker.ModernEraRaisesNoEraIssues | mcp_server/tools/consistency_checker.py:41-46 | In the modern era, the default, no lighting or clothing issue is raised. |
| ConsistencyChecker.ModernReportIsEthnicity | mcp_server/tools/consistency_checker.py:61-171 | In the modern era and without duplicates, the report's issues and suggestions are exactly those of the ethnicity checks. |
| ConsistencyChecker.UncheckedEthnicityRaisesNoColourIssues | mcp_server/tools/consistency_checker.py:75 | An ethnicity without a feature entry raises no eye or hair issue. |
| ConsistencyChecker.UncheckedIntentReportsOnlyDuplicates | mcp_server/tools/consistency_checker.py:75-111 | With neither ethnicity nor era checked, only duplicates are reported, with no suggestions, and the set is consistent. |
| ConsistencyChecker.AppendedFillsSlot | mcp_server/tools/consistency_checker.py:70-72 | The last element of a category is the one its slot holds. |
| ConsistencyChecker.EyeMismatchBreaksConsistency | mcp_server/tools/consistency_checker.py:78-95 | Adding an eye element whose name holds an incompatible colour makes the set inconsistent. |
| ConsistencyChecker.ClothingMismatchBreaksConsistency | mcp_server/tools/consistency_checker.py:133-144 | Adding a clothing element whose name holds an anachronistic style makes the set inconsistent. |
| ConsistencyChecker.BlueEyesExample | mcp_server/tools/consistency_checker.py:78-95 | `blue_eyes` for an East Asian subject gives exactly one high eye-mismatch issue, one suggestion of brown, and an inconsistent set. |
| PromptComposer.Long | mcp_server/tools/prompt_composer.py:168-169 | The phrases longer than two characters. |
| PromptComposer.LongSingle | mcp_server/tools/prompt_composer.py:168-169 | One phrase is kept exactly when it is longer than two characters. |
| PromptComposer.LongAppend | mcp_server/tools/prompt_composer.py:168-169 | The long phrases of two lists are those of the first, then those of the second. |
| PromptComposer.KeyPhrases | mcp_server/tools/prompt_composer.py:146-171 | No phrases from an empty template; at most `limit` phrases for a non-negative limit; each a delimiter-free phrase without edge whitespace. |
| PromptComposer.KeyPhrasesFromSegments | mcp_server/tools/prompt_composer.py:162-169 | The phrases are exactly the stripped segments, among the first `limit`, that are longer than two characters. |
| PromptComposer.SplitJoinedPhrases | mcp_server/tools/prompt_composer.py:162-171 | Splitting joined phrases gives the first phrase and the others behind a space. |
| PromptComposer.KeyPhrasesOfJoin | mcp_server/tools/prompt_composer.py:146-171 | Extracting from joined key phrases gives back the first `limit` of them. |
| PromptComposer.ExtractKeywords | mcp_server/tools/prompt_composer.py:146-171 | Empty exactly when the template has no key phrase; for a non-negative limit, extracting from the result gives back the same phrases. |
| PromptComposer.ExtractKeywordsIdempotent | mcp_server/tools/prompt_composer.py:146-171 | Extracting keywords from extracted keywords changes nothing. |
| PromptComposer.Capitalize | mcp_server/tools/prompt_composer.py:196-197 | The first character is upper-cased and the rest kept. |
| PromptComposer.CleanPrompt | mcp_server/tools/prompt_composer.py:174-199 | Cleaned text has only single plain spaces, no comma or space at either end, and no lower-case first letter; blank input cleans to empty. |
| PromptComposer.CleanPromptContent | mcp_server/tools/prompt_composer.py:174-199 | The clean-up removes only whitespace and commas: every other character stays, in order, only the first upper-cased. |
| PromptComposer.CleanKeepsTidyTail | mcp_server/tools/prompt_composer.py:174-199 | Cleaning text, ", " and a tidy tail keeps the tail at the end: whole when the text has content, all but its first character otherwise. |
| PromptComposer.CleanTidy | mcp_server/tools/prompt_composer.py:174-199 | Tidy text cleans to its capitalisation, which is tidy again. |
| PromptComposer.CleanIdempotentOnTidy | mcp_server/tools/prompt_composer.py:174-199 | Cleaning tidy text twice is the same as once. |
| PromptComposer.CleanThreeCommas | mcp_server/tools/prompt_composer.py:190 | One pass turns `a,,,b` into `A,,b`. |
| PromptComposer.CleanTwoCommas | mcp_server/tools/prompt_composer.py:190 | A second pass turns `A,,b` into `A,b`. |
| PromptComposer.CleanPromptNotIdempotent | mcp_server/tools/prompt_composer.py:190 | Cleaning a lower-case letter, three commas and another lower-case letter twice differs from cleaning it once. |
| PromptComposer.ByCategory | mcp_server/tools/prompt_composer.py:80-86 | The elements grouped under the category. |
| PromptComposer.ByCategorySingle | mcp_server/tools/prompt_composer.py:80-86 | One element is grouped under the category exactly when that is its group. |
| PromptComposer.ByCategoryAppend | mcp_server/tools/prompt_composer.py:80-86 | The group of two element lists is that of the first, then that of the second, in input order. |
| PromptComposer.WithTemplate | mcp_server/tools/prompt_composer.py:94-95 | The elements with a non-empty template. |
| PromptComposer.WithTemplateSingle | mcp_server/tools/prompt_composer.py:94-95 | One element is kept exactly when its template is non-empty. |
| PromptComposer.WithTemplateAppend | mcp_server/tools/prompt_composer.py:94-95 | The templated elements of two lists are those of the first, then those of the second. |
| PromptComposer.Contributors | mcp_server/tools/prompt_composer.py:103-107 | The elements with a template whose group is one of the section's categories. |
| PromptComposer.ContributorsAppend | mcp_server/tools/prompt_composer.py:103-107 | A section over two category lists is the first list's contributors, then the second's. |
| PromptComposer.ContributorsSingle | mcp_server/tools/prompt_composer.py:103-107 | The contributors of one category are the templated elements of that group, in input order. |
| PromptComposer.Section | mcp_server/tools/prompt_composer.py:102-109 | No contributors give an empty section; one contributor gives its extracted keywords. |
| PromptComposer.SectionAppend | mcp_server/tools/prompt_composer.py:102-109 | With contributors on both sides, the section of two category lists is their two sections joined by ", ". |
| PromptComposer.ContributorsGrouped | mcp_server/tools/prompt_composer.py:91 | Every contributor's group is present, so the subject guard excludes no phrase. |
| PromptComposer.SubjectSection | mcp_server/tools/prompt_composer.py:88-98 | The caller's description when given, otherwise the ethnicity then subject phrases. |
| PromptComposer.Sections | mcp_server/tools/prompt_composer.py:88-135 | The subject, styling, lighting and technical sections in that order, then the quality tag in `auto` and `detailed` modes only. |
| PromptComposer.NonEmpty | mcp_server/tools/prompt_composer.py:138 | `filter(None, …)` keeps only non-empty sections. |
| PromptComposer.NonEmptySingle | mcp_server/tools/prompt_composer.py:138 | One section is kept exactly when it is non-empty. |
| PromptComposer.NonEmptyAppend | mcp_server/tools/prompt_composer.py:138 | The non-empty sections of two lists are those of the first, then those of the second. |
| PromptComposer.ComposeManual | mcp_server/tools/prompt_composer.py:60-143 | The prompt has only single plain spaces, no comma or space at either end, and no lower-case first letter. |
| PromptComposer.ComposeTidy | mcp_server/tools/prompt_composer.py:137-143 | When the joined non-empty sections are already tidy, the prompt is that join with its first letter upper-cased. |
| PromptComposer.ComposeEndsWithQuality | mcp_server/tools/prompt_composer.py:133-143 | In `auto` and `detailed` modes the prompt ends with the quality tag: whole when an earlier section has content, all but its first letter otherwise. |
| PromptComposer.ComposePrompt | mcp_server/tools/prompt_composer.py:27-57 | The fallback composition keeps the same clean-prompt guarantees. |
| PromptComposer.ExtraElementContributesNothing | mcp_server/tools/prompt_composer.py:103-107 | An element without a template, or outside the section's categories, adds no phrase to it. |
| PromptComposer.ComposeIgnoresOtherElements | mcp_server/tools/prompt_composer.py:80-143 | An element outside every section's categories, or without a template, leaves the prompt unchanged. |
| PromptComposer.SectionGroupOrder | mcp_server/tools/prompt_composer.py:93-101 | Subject phrases come from ethnicities then subjects; styling lists the three store categories before the three aliases. |
| PromptComposer.LoneLightingElement | mcp_server/tools/prompt_composer.py:111-141 | A lone lighting element in simple mode composes to its cleaned key phrases. |
| PromptComposer.LoneLightingTwoOfThree | mcp_server/tools/prompt_composer.py:146-197 | A lone lighting element with three phrases and a limit of two composes to the first two, the first capitalised. |
| PromptComposer.WindowLampExample | mcp_server/tools/prompt_composer.py:27-57 | A lighting element "soft window light, golden hour, warm tones" in simple mode with limit two composes to "Soft window light, golden hour". |

## Left out

- The element store (`ElementDB`, `get_db_path`, `close`) is I/O. It becomes the function parameter `store`, called with the domain, the category and the number of rows to fetch. `search_by_domain` is not part of this model, so truncation to `limit` when no keywords are given is left to the store.
- ElementQuery.QueryShape: `|r| <= limit` is promised only for a store that returns at most the number of rows asked for (`Bounded`, the SQL `LIMIT`). `search_by_domain` is not part of this model, so that bound is a premise, not a proved fact. `QueryElements` alone promises no bound without keywords.
- The module-level statistics cache is declared but never read. `DomainStats` takes the store's statistics as a parameter.
- `compose_prompt` first tries the external `IntelligentGenerator` engine. That engine is not part of this model. `ComposePrompt` models the manual fallback the tool reaches without it.
- The JSON and text formatters (`format_intent_json`, `format_elements_json`, `format_stats_json`, `format_report`, `format_report_json`, `format_prompt_output`) are serialisation only.
- The other server tools, the domain prompt modules, the PPT skill and the scripts are outside the core.
- Text.Lower: maps only ASCII letters. Python's `lower()`/`upper()` also fold non-ASCII letters (e.g. `'À'`), which the keyword tables, being lower-case or CJK, never rely on.
- ElementQuery.Relevance: uses exact rationals where Python divides in floating point. Rounding is not modelled. The `> 0` and `== 1` tests come out the same either way.
- An element field holding JSON `null` is treated like a missing field. Python would format it as `"None"` in searchable text or fail on `.lower()`.
- ElementQuery.QueryElements: `limit` is a natural number. A negative limit, which Python would slice from the end, is not modelled.
- ElementQuery.DomainStats: the breakdown is a map, so the insertion order of Python's dict is not kept. The last report of a domain wins, as in Python.
- The non-ASCII fallback of `detect_ethnicity` (mcp_server/tools/intent_parser.py:130-131) returns East Asian, the same as the final return, so `DetectEthnicity` has a single default branch.
- Issue descriptions and suggestion reasons are built as in the source, but contracts do not pin their wording.
- PromptComposer.ExtractKeywordsIdempotent: requires a non-negative limit. With a negative limit each pass drops phrases from the end again.
- PromptComposer.ComposeEndsWithQuality: when no earlier section has content, the tag opens the prompt and its first letter is upper-cased. Only the tag without its first letter is promised then.
