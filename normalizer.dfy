/**
 * The row normaliser: the callback that `fetchNotionData` maps over the
 * pages returned by a Notion data-source query (index.js:50-61).
 *
 * A page's properties are looked up by their exact (Vietnamese) names; every
 * optional-chaining step `?.` of the source is an `Option` here, so that an
 * absent property, an absent `title`/`rich_text`/`multi_select` field, an
 * empty array, an absent `text` or an absent `content` each fall back to the
 * field's default.
 */
module Normalizer {
  import opened Wrappers

  /** `text` object of a rich-text segment. */
  datatype TextContent = TextContent(content: Option<string>)

  /** One element of a `title` or `rich_text` array. */
  datatype RichTextSegment = RichTextSegment(text: Option<TextContent>)

  /** One element of a `multi_select` array. */
  datatype SelectOption = SelectOption(name: string)

  /** A property value; each kind-specific field may be absent. */
  datatype PropertyValue = PropertyValue(
    title: Option<seq<RichTextSegment>>,
    richText: Option<seq<RichTextSegment>>,
    checkbox: Option<bool>,
    multiSelect: Option<seq<SelectOption>>)

  type Properties = map<string, PropertyValue>

  /** A raw page as returned by the query; `properties` itself may be absent. */
  datatype Page = Page(properties: Option<Properties>, lastEditedTime: string, createdTime: string)

  /** The client-facing item. */
  datatype Item = Item(
    name: string,
    pictureUrl: string,
    disabled: bool,
    tags: seq<string>,
    lastEditedTime: string,
    createdTime: string)

  const NameKey: string := "Tên"
  const PictureKey: string := "Hình ảnh minh họa"
  const DisabledKey: string := "Disabled"
  const TagsKey: string := "Cái này ăn được trong bữa nào?"

  /** The whole chain `segs?.[0]?.text?.content` is defined and equals `c`. */
  predicate HasFirstContent(segs: Option<seq<RichTextSegment>>, c: string) {
    segs.Some? && |segs.value| > 0 && segs.value[0].text.Some? && segs.value[0].text.value.content == Some(c)
  }

  /** Some step of the chain `segs?.[0]?.text?.content` is undefined. */
  predicate LacksFirstContent(segs: Option<seq<RichTextSegment>>) {
    !(segs.Some? && |segs.value| > 0 && segs.value[0].text.Some? && segs.value[0].text.value.content.Some?)
  }

  /** `segs?.[0]?.text?.content || ''`: the first segment's content, or the empty string. */
  function FirstContent(segs: Option<seq<RichTextSegment>>): (r: string)
    ensures HasFirstContent(segs, r) || (LacksFirstContent(segs) && r == "")
  {
    match segs
    case None => ""
    case Some(s) =>
      if |s| == 0 then ""
      else match s[0].text
        case None => ""
        case Some(t) => match t.content
          case None => ""
          case Some(c) => c
  }

  /** `.map(t => t.name)`: the names of the options, in order. */
  function OptionNames(opts: seq<SelectOption>): (r: seq<string>)
    ensures |r| == |opts|
    ensures forall i :: 0 <= i < |opts| ==> r[i] == opts[i].name
  {
    if opts == [] then [] else [opts[0].name] + OptionNames(opts[1..])
  }

  /** `props[key]?.<field>`, for each of the four kinds the page uses. */
  function Title(props: Properties, key: string): Option<seq<RichTextSegment>> {
    if key in props then props[key].title else None
  }

  function RichText(props: Properties, key: string): Option<seq<RichTextSegment>> {
    if key in props then props[key].richText else None
  }

  function Checkbox(props: Properties, key: string): Option<bool> {
    if key in props then props[key].checkbox else None
  }

  function MultiSelect(props: Properties, key: string): Option<seq<SelectOption>> {
    if key in props then props[key].multiSelect else None
  }

  /**
   * The object literal built for one page whose properties are present.
   * Total: no combination of absent fields makes it fail.
   */
  function NormalizeProps(props: Properties, lastEditedTime: string, createdTime: string): (it: Item)
    ensures HasFirstContent(Title(props, NameKey), it.name)
         || (LacksFirstContent(Title(props, NameKey)) && it.name == "")
    ensures HasFirstContent(RichText(props, PictureKey), it.pictureUrl)
         || (LacksFirstContent(RichText(props, PictureKey)) && it.pictureUrl == "")
    ensures it.disabled <==> DisabledKey in props && props[DisabledKey].checkbox == Some(true)
    ensures MultiSelect(props, TagsKey).None? ==> it.tags == []
    ensures MultiSelect(props, TagsKey).Some? ==>
              |it.tags| == |MultiSelect(props, TagsKey).value|
              && forall i :: 0 <= i < |it.tags| ==> it.tags[i] == MultiSelect(props, TagsKey).value[i].name
    ensures it.lastEditedTime == lastEditedTime && it.createdTime == createdTime
  {
    Item(
      FirstContent(Title(props, NameKey)),
      FirstContent(RichText(props, PictureKey)),
      Checkbox(props, DisabledKey) == Some(true),
      match MultiSelect(props, TagsKey) case None => [] case Some(opts) => OptionNames(opts),
      lastEditedTime,
      createdTime)
  }

  /**
   * The map callback on one page. `page.properties` undefined makes
   * `props["Tên"]` throw a TypeError, which is `None` here.
   */
  function NormalizePage(page: Page): (r: Option<Item>)
    ensures r.Some? <==> page.properties.Some?
    ensures r.Some? ==> r.value.lastEditedTime == page.lastEditedTime && r.value.createdTime == page.createdTime
  {
    match page.properties
    case None => None
    case Some(props) => Some(NormalizeProps(props, page.lastEditedTime, page.createdTime))
  }

  /**
   * `response.results.map(...)`: `None` when the callback throws on some page,
   * otherwise one item per page, in the same order, nothing filtered.
   */
  function NormalizeAll(pages: seq<Page>): (r: Option<seq<Item>>)
    ensures r.Some? <==> forall i :: 0 <= i < |pages| ==> pages[i].properties.Some?
    ensures r.Some? ==> |r.value| == |pages|
    ensures r.Some? ==> forall i :: 0 <= i < |pages| ==> NormalizePage(pages[i]) == Some(r.value[i])
  {
    if pages == [] then Some([])
    else
      match NormalizePage(pages[0])
      case None => None
      case Some(first) =>
        match NormalizeAll(pages[1..])
        case None => None
        case Some(rest) => Some([first] + rest)
  }

  /** Only the first segment of a title or rich-text array is read. */
  lemma LaterSegmentsIgnored(first: RichTextSegment, rest: seq<RichTextSegment>)
    ensures FirstContent(Some([first] + rest)) == FirstContent(Some([first]))
  {
  }

  /** An empty content string and an absent one give the same default. */
  lemma EmptyContentIsDefault(segs: seq<RichTextSegment>)
    requires |segs| > 0 && segs[0].text == Some(TextContent(Some("")))
    ensures FirstContent(Some(segs)) == FirstContent(None) == ""
  {
  }
}
