/**
 * Turning one feed entry into one outgoing post: the image choice, the
 * HTML caption and the choice between a photo and a text message.
 * Attribute access on a feed entry can raise; those failures are values
 * of EntryError here.
 */
module Compose {
  import opened Wrappers
  import opened Translation

  /** The support link embedded in every news caption. */
  const SupportLink := "SUPPORT"

  /** The fixed markup pieces of a news caption, in order. */
  const BoldOpen := "<b>"
  const AfterTitle := "</b>\n\n"
  const AfterSummary := "\n\n<a href='"
  const AfterLink := "'>Читать полностью</a>\n\nПоддержка: <a href='"
  const AfterSupport := "'>Forest Road</a>"

  /** One item of an entry's media_content or media_thumbnail list (a dict that may lack 'url'). */
  datatype Media = Media(url: Option<string>)

  /**
   * One entry as the feed parser returns it. An absent attribute is None;
   * an absent media list and an empty one are both the empty sequence.
   */
  datatype FeedEntry = FeedEntry(
    link: Option<string>,
    title: Option<string>,
    summary: Option<string>,
    mediaContent: seq<Media>,
    mediaThumbnail: seq<Media>)

  /** What is handed to the messaging transport. */
  datatype Message = Photo(image: string, caption: string) | Text(caption: string)

  /** The exception that composing a post raises: the attribute or dict key it found missing. */
  datatype EntryError = MissingTitle | MissingSummary | MissingMediaUrl

  /** `part` appears in `s` starting at index `i`. */
  ghost predicate OccursAt(s: string, part: string, i: int)
  {
    0 <= i <= |s| - |part| && s[i..i + |part|] == part
  }

  /** `part` appears somewhere in `s`. */
  ghost predicate Contains(s: string, part: string)
  {
    exists i :: OccursAt(s, part, i)
  }

  /**
   * The image of an entry: the url of the first media_content item, else the
   * url of the first media_thumbnail item, else none. The first item of the
   * list that is consulted must carry a url, or the lookup raises.
   */
  function SelectImage(e: FeedEntry): (r: Result<Option<string>, EntryError>)
    ensures r.Err? ==> r.error == MissingMediaUrl
    ensures r == Ok(None) <==> e.mediaContent == [] && e.mediaThumbnail == []
    ensures e.mediaContent != [] ==>
      (r.Ok? <==> e.mediaContent[0].url.Some?) && (r.Ok? ==> r.value == e.mediaContent[0].url)
    ensures e.mediaContent == [] && e.mediaThumbnail != [] ==>
      (r.Ok? <==> e.mediaThumbnail[0].url.Some?) && (r.Ok? ==> r.value == e.mediaThumbnail[0].url)
  {
    if e.mediaContent != [] then
      match e.mediaContent[0].url
      case Some(u) => Ok(Some(u))
      case None => Err(MissingMediaUrl)
    else if e.mediaThumbnail != [] then
      match e.mediaThumbnail[0].url
      case Some(u) => Ok(Some(u))
      case None => Err(MissingMediaUrl)
    else
      Ok(None)
  }

  /** The HTML caption of a news post: bold title, summary, a link to the article, the support link. */
  function Caption(title: string, summary: string, link: string): (r: string)
    ensures OccursAt(r, BoldOpen, 0) && OccursAt(r, title, |BoldOpen|)
    ensures Contains(r, title) && Contains(r, summary) && Contains(r, link) && Contains(r, SupportLink)
  {
    var head := BoldOpen + title + AfterTitle;
    var body := head + summary + AfterSummary;
    var tail := body + link + AfterLink;
    var r := tail + SupportLink + AfterSupport;
    assert OccursAt(r, BoldOpen, 0);
    assert OccursAt(r, title, |BoldOpen|);
    assert OccursAt(r, summary, |head|);
    assert OccursAt(r, link, |body|);
    assert OccursAt(r, SupportLink, |tail|);
    r
  }

  /** A present, non-empty image url sends a photo; anything else a text message. */
  function Route(image: Option<string>, caption: string): (m: Message)
    ensures m.caption == caption
    ensures m.Photo? <==> image.Some? && image.value != ""
    ensures m.Photo? ==> m.image == image.value
  {
    if image.Some? && image.value != "" then Photo(image.value, caption) else Text(caption)
  }

  /**
   * The post for an entry whose link is `link`: both texts translated, the image
   * chosen, the caption built. Raises when the title, the summary or the chosen
   * media url is missing.
   */
  function ComposePost(translate: Translator, e: FeedEntry, link: string): (r: Result<Message, EntryError>)
    ensures r.Ok? <==> e.title.Some? && e.summary.Some? && SelectImage(e).Ok?
    ensures e.title.None? ==> r == Err(MissingTitle)
    ensures e.title.Some? && e.summary.None? ==> r == Err(MissingSummary)
    ensures e.title.Some? && e.summary.Some? && SelectImage(e).Err? ==> r == Err(MissingMediaUrl)
    ensures r.Ok? ==>
      && Contains(r.value.caption, TranslateText(translate, e.title.value))
      && Contains(r.value.caption, TranslateText(translate, e.summary.value))
      && Contains(r.value.caption, link) && Contains(r.value.caption, SupportLink)
    ensures r.Ok? ==> (r.value.Photo? <==> SelectImage(e).value.Some? && SelectImage(e).value.value != "")
    ensures r.Ok? && r.value.Photo? ==> r.value.image == SelectImage(e).value.value
  {
    if e.title.None? then Err(MissingTitle)
    else if e.summary.None? then Err(MissingSummary)
    else
      var title := TranslateText(translate, e.title.value);
      var summary := TranslateText(translate, e.summary.value);
      match SelectImage(e)
      case Err(err) => Err(err)
      case Ok(image) => Ok(Route(image, Caption(title, summary, link)))
  }
}
