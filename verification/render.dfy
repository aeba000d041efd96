/**
  The decisions the page makes while rendering (src/App.tsx): which list
  of subtitles it rotates over, whether it shows the loading view or the
  page, whether the tagline is a link, whether the call to action appears.
 */
module Render {
  import opened Profile
  import Shuffle
  import Rotation

  /** A tagline as shown: a link opening in a new tab, or plain text. */
  datatype Tagline = Hyperlink(href: string, text: string) | Plain(text: string)

  /** The call-to-action button: a link to `href` labelled `caption`. */
  datatype CtaButton = CtaButton(href: string, caption: string)

  /**
    What one render produces: the loading view, the page, or the
    `TypeError` thrown by reading a field of a missing list entry.
   */
  datatype Page =
    | Loading
    | Main(title: string, tagline: Option<Tagline>, cta: Option<CtaButton>, social: seq<SocialLink>)
    | TypeError

  /** The record holds no subtitle to show: none loaded, none listed, or an empty list. */
  predicate NoSubtitles(data: Option<AppData>)
  {
    data.None? || data.value.subtitles.None? || data.value.subtitles.value == []
  }

  /** The draws fit the loaded subtitle list, when there is one. */
  predicate DrawsFit(data: Option<AppData>, draws: seq<nat>)
  {
    data.Some? && data.value.subtitles.Some? ==> Shuffle.ValidDraws(draws, |data.value.subtitles.value|)
  }

  /**
    The memoised list the page rotates over: empty until a record with
    subtitles is loaded, then a shuffle of those subtitles.
   */
  function ShuffledSubtitles(data: Option<AppData>, draws: seq<nat>): (r: seq<Subtitle>)
    requires DrawsFit(data, draws)
    ensures r == [] <==> NoSubtitles(data)
    ensures !NoSubtitles(data) ==> multiset(r) == multiset(data.value.subtitles.value)
  {
    if data.None? || data.value.subtitles.None? then []
    else
      Shuffle.ShuffledPermutes(data.value.subtitles.value, draws);
      Shuffle.Shuffled(data.value.subtitles.value, draws)
  }

  /**
    A subtitle is a link exactly when its `link` is truthy, that is present
    and not the empty string; otherwise its text is shown as is.
   */
  function TaglineOf(s: Subtitle): (v: Tagline)
    ensures v.text == s.text
    ensures v.Hyperlink? <==> s.link.Some? && s.link.value != ""
    ensures v.Hyperlink? ==> v.href == s.link.value
  {
    match s.link
    case Some(l) => if l != "" then Hyperlink(l, s.text) else Plain(s.text)
    case None => Plain(s.text)
  }

  /** The call to action appears exactly when the record has one, linking to its url. */
  function CtaOf(data: AppData): (b: Option<CtaButton>)
    ensures b.Some? <==> data.cta.Some?
    ensures b.Some? ==> b.value.href == data.cta.value.url && b.value.caption == data.cta.value.text
  {
    match data.cta
    case Some(c) => Some(CtaButton(c.url, c.text))
    case None => None
  }

  /**
    The render as written: the loading view until the record is in, then
    the page with the entry at the cursor, read without a bounds check.
    Reading `.link` of the missing entry throws.
   */
  function RenderAsWritten(loading: bool, data: Option<AppData>, shuffled: seq<Subtitle>, current: nat): (p: Page)
    ensures p == Loading <==> loading || data.None?
    ensures p == TypeError <==> !loading && data.Some? && current >= |shuffled|
    ensures p.Main? ==> p.tagline == Some(TaglineOf(shuffled[current]))
  {
    if loading || data.None? then Loading
    else if current >= |shuffled| then TypeError
    else Main(data.value.profile.title, Some(TaglineOf(shuffled[current])), CtaOf(data.value), data.value.socialLinks)
  }

  /**
    A loaded record with no subtitles, or an empty list, leaves the
    shuffled list empty and the cursor at 0: the render as written throws.
   */
  lemma EmptySubtitlesThrow(data: Option<AppData>, draws: seq<nat>)
    requires DrawsFit(data, draws)
    requires data.Some? && NoSubtitles(data)
    ensures RenderAsWritten(false, data, ShuffledSubtitles(data, draws), 0) == TypeError
  {
  }

  /** A concrete record that shows it: no subtitles listed at all. */
  lemma NoSubtitlesExample()
    ensures var data := Some(AppData(Identity("Ada", "Engineer"), None, None, [], []));
      RenderAsWritten(false, data, ShuffledSubtitles(data, []), 0) == TypeError
  {
  }

  /**
    The render with the cursor checked against the list: the tagline is
    left out when there is no entry at the cursor, so no render throws.
   */
  function Render(loading: bool, data: Option<AppData>, shuffled: seq<Subtitle>, current: nat): (p: Page)
    ensures p != TypeError
    ensures p == Loading <==> loading || data.None?
    ensures p.Main? ==> p.title == data.value.profile.title && p.social == data.value.socialLinks
    ensures p.Main? ==> p.cta == CtaOf(data.value)
    ensures p.Main? ==> (p.tagline.Some? <==> current < |shuffled|)
    ensures p.Main? && current < |shuffled| ==> p.tagline.value == TaglineOf(shuffled[current])
  {
    if loading || data.None? then Loading
    else
      var tagline := if current < |shuffled| then Some(TaglineOf(shuffled[current])) else None;
      Main(data.value.profile.title, tagline, CtaOf(data.value), data.value.socialLinks)
  }

  /**
    Wherever the cursor is inside the list, both renders agree; they
    differ only where the one as written throws.
   */
  lemma RenderAgreesInRange(loading: bool, data: Option<AppData>, shuffled: seq<Subtitle>, current: nat)
    ensures RenderAsWritten(loading, data, shuffled, current) != TypeError ==>
      Render(loading, data, shuffled, current) == RenderAsWritten(loading, data, shuffled, current)
  {
  }

  /**
    Over a mount with a loaded, non-empty list: after any number of ticks
    the cursor is inside the list, the page shows the entry `ticks mod n`
    of the shuffled list, and the render as written does not throw.
   */
  lemma {:induction false} RotatedPageShowsEntry(data: AppData, draws: seq<nat>, ticks: nat)
    requires DrawsFit(Some(data), draws) && !NoSubtitles(Some(data))
    ensures var shuffled := ShuffledSubtitles(Some(data), draws);
      var n := |shuffled|;
      var cursor := Rotation.CursorAfter(n, ticks);
      && n == |data.subtitles.value|
      && cursor == ticks % n
      && RenderAsWritten(false, Some(data), shuffled, cursor) == Render(false, Some(data), shuffled, cursor)
      && Render(false, Some(data), shuffled, cursor).tagline == Some(TaglineOf(shuffled[ticks % n]))
  {
    var shuffled := ShuffledSubtitles(Some(data), draws);
    Rotation.CursorAfterIsMod(|shuffled|, ticks);
  }
}
