/** The catalog element as the pipeline sees it: a loosely typed record. */
module Elements {
  import opened Optional

  /**
   * An element dict. Every key may be absent, and `None` stands for an absent key,
   * so each `elem.get(key, default)` in the pipeline becomes `GetOr(default)`.
   */
  datatype Element = Element(
    elementId: Option<string>,
    category: Option<string>,
    fieldName: Option<string>,
    name: Option<string>,
    chineseName: Option<string>,
    template: Option<string>,
    aiPromptTemplate: Option<string>,
    keywords: Option<string>,
    reusabilityScore: Option<real>
  )

  /** The element with no keys at all. */
  const Blank: Element := Element(None, None, None, None, None, None, None, None, None)

  /**
   * `elem.get('category', elem.get('field_name', fallback))`: the category key, then
   * the framework field name, then the caller's fallback.
   */
  function CategoryOr(e: Element, fallback: string): (r: string)
    ensures e.category.Some? ==> r == e.category.value
    ensures e.category.None? && e.fieldName.Some? ==> r == e.fieldName.value
    ensures e.category.None? && e.fieldName.None? ==> r == fallback
  {
    e.category.GetOr(e.fieldName.GetOr(fallback))
  }

  /**
   * `elem.get('template', elem.get('ai_prompt_template', ''))`: a present `template`
   * key wins even when its text is empty.
   */
  function TemplateText(e: Element): (r: string)
    ensures e.template.Some? ==> r == e.template.value
    ensures e.template.None? ==> r == e.aiPromptTemplate.GetOr("")
  {
    e.template.GetOr(e.aiPromptTemplate.GetOr(""))
  }
}
