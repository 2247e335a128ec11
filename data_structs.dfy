/**
 * The three records handed from the Markdown parser to the PPT generator.
 * Each default below is the dataclass field default; being values, two
 * records never share a bullet list or a block list the way two instances
 * built without `default_factory` would.
 */
module DataStructs {

  /** One `###` block of a slide: its subtitle, its bullet texts and its keyword. */
  datatype ContentBlock = ContentBlock(
    subtitle: string := "",
    bullets: seq<string> := [],
    keyword: string := "")

  /** One `##` page: its title, its description paragraph(s), its blocks and its logical page number. */
  datatype SlideData = SlideData(
    title: string := "",
    description: string := "",
    blocks: seq<ContentBlock> := [],
    pageIndex: int := 0)

  /** A whole deck: the cover's key/value metadata, the cover title and the content pages. */
  datatype PresentationData = PresentationData(
    metaInfo: map<string, string> := map[],
    coverTitle: string := "",
    slides: seq<SlideData> := [])
}
