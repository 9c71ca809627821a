/** The font-preload helper of app/lib/clientUtils.ts: once per page, it
    builds a hidden `div` holding one span per preloaded font, each span
    naming its font family, and attaches the `div` to the document body
    (or, before the body exists, when the document has loaded). The
    browser's document is modelled as a value holding what the helper
    reads and writes. */
module FontPreload {
  import opened Wrappers
  import Strings

  const FallbackName: string := "font"

  /** A hidden `div` and the font families of its spans, in order. */
  datatype Div = Div(families: seq<string>)

  /** What the helper reads and writes: whether `window` exists, the
      `__FONTS_HANDLED` flag, the `href` attribute of each
      `link[rel="preload"][as="font"]` in document order (`None` for a
      missing attribute), whether `document.body` exists, the divs attached
      to the body, and the divs waiting for `DOMContentLoaded`. */
  datatype Page = Page(
    hasWindow: bool, fontsHandled: bool, preloads: seq<Option<string>>,
    bodyPresent: bool, body: seq<Div>, waiting: seq<Div>)

  /** `fontUrl.split('/').pop()?.split('-')[0] || 'font'`. */
  function FontName(href: string): (name: string)
    ensures name != ""
    ensures '/' !in name && '-' !in name
  {
    var file := Strings.LastSegment(href, '/');
    var stem := Strings.FirstSegment(file, '-');
    Strings.LastSegmentIsTail(href, '/');
    Strings.FirstSegmentIsHead(file, '-');
    if stem == "" then FallbackName else stem
  }

  /** The CSS `font-family` of a span: `"<name>", sans-serif`. */
  function FontFamily(name: string): string
  {
    "\"" + name + "\", sans-serif"
  }

  /** The spans built for the preload links, in order: one for each link
      with a truthy `href`. */
  function Spans(preloads: seq<Option<string>>): (families: seq<string>)
  {
    if |preloads| == 0 then []
    else
      var rest := Spans(preloads[1..]);
      if Present(preloads[0]) then [FontFamily(FontName(preloads[0].value))] + rest else rest
  }

  /** The number of links with a truthy `href`. */
  function CountPresent(preloads: seq<Option<string>>): nat
  {
    if |preloads| == 0 then 0
    else (if Present(preloads[0]) then 1 else 0) + CountPresent(preloads[1..])
  }

  /** `handleFontPreloads()`. */
  function HandleFontPreloads(p: Page): (q: Page)
    ensures !p.hasWindow || p.fontsHandled ==> q == p
    ensures p.hasWindow ==> q.fontsHandled
    ensures q.preloads == p.preloads && q.hasWindow == p.hasWindow && q.bodyPresent == p.bodyPresent
    ensures p.hasWindow && !p.fontsHandled && p.bodyPresent ==>
              q.body == p.body + [Div(Spans(p.preloads))] && q.waiting == p.waiting
    ensures p.hasWindow && !p.fontsHandled && !p.bodyPresent ==>
              q.body == p.body && q.waiting == p.waiting + [Div(Spans(p.preloads))]
  {
    if !p.hasWindow then p
    else if p.fontsHandled then p
    else
      var div := Div(Spans(p.preloads));
      if p.bodyPresent then p.(body := p.body + [div], fontsHandled := true)
      else p.(waiting := p.waiting + [div], fontsHandled := true)
  }

  /** `DOMContentLoaded`: the body now exists and the waiting divs are
      attached to it. */
  function Loaded(p: Page): (q: Page)
    ensures q.bodyPresent && q.waiting == []
    ensures q.body == p.body + p.waiting
  {
    p.(bodyPresent := true, body := p.body + p.waiting, waiting := [])
  }

  // ---------------------------------------------------------------------
  // Properties

  /** Calling the helper twice is calling it once. */
  lemma RunsOnce(p: Page)
    ensures HandleFontPreloads(HandleFontPreloads(p)) == HandleFontPreloads(p)
  {
  }

  /** The font name is the text before the first `-` of the text after
      the last `/`, or `font` when that is empty. */
  lemma FontNameIsStem(href: string)
    ensures var file := Strings.LastSegment(href, '/');
            var stem := Strings.FirstSegment(file, '-');
            && Strings.IsTailAfterLast(href, '/', file)
            && Strings.IsHeadBeforeFirst(file, '-', stem)
            && FontName(href) == if stem == "" then FallbackName else stem
  {
    Strings.LastSegmentIsTail(href, '/');
    Strings.FirstSegmentIsHead(Strings.LastSegment(href, '/'), '-');
  }

  /** Exactly one span per link with a truthy `href`, and the spans keep
      the links' order: the spans of two runs of links are the spans of
      the first run followed by those of the second. */
  lemma {:induction false} SpansPerLink(a: seq<Option<string>>, b: seq<Option<string>>)
    ensures |Spans(a)| == CountPresent(a)
    ensures Spans(a + b) == Spans(a) + Spans(b)
    decreases |a|
  {
    if |a| == 0 {
      assert a + b == b;
    } else {
      SpansPerLink(a[1..], b);
      assert (a + b)[1..] == a[1..] + b;
    }
  }

  /** The span of a single link names its font. */
  lemma SpanOfLink(href: string)
    requires href != ""
    ensures Spans([Some(href)]) == [FontFamily(FontName(href))]
  {
    assert [Some(href)][1..] == [];
  }

  /** Whether the body exists at the call or only appears later, the body
      ends up with the same divs once the document has loaded. */
  lemma BodyNowOrLater(p: Page)
    requires p.waiting == []
    ensures Loaded(HandleFontPreloads(p.(bodyPresent := false))).body ==
            Loaded(HandleFontPreloads(p.(bodyPresent := true))).body
  {
  }
}
