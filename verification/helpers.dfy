/**
 * The three asset tag helpers. Each resolves the asset under the public
 * folder, puts the mount prefix in front of the asset's address, appends
 * `?ts=` and the asset's timestamp, and renders the tag.
 */
module AssetTagHelper {
  import opened Wrappers
  import opened Paths
  import opened Decimal
  import opened Attributes
  import opened Tags
  import opened Assets

  /** What the host application supplies: its public folder and its mount prefix (SCRIPT_NAME). */
  datatype Config = Config(publicFolder: string, scriptName: string)

  /**
   * The host's uri(addr, absolute, script_tag): the address joined under the
   * mount prefix when `scriptTag` is set, the address itself otherwise.
   * `absolute` plays no part.
   */
  function Uri(scriptName: string, addr: string, absolute: bool, scriptTag: bool): (r: string)
    ensures !scriptTag ==> r == addr
    ensures scriptTag && !EndsWithSeparator(scriptName) && StartsWithSeparator(addr) ==> r == scriptName + addr
  {
    if scriptTag then Join(scriptName, addr) else addr
  }

  /** The asset's address under the mount prefix, with the cache-busting query. */
  function CacheBustedPath(scriptName: string, url: string, timestamp: int): string
  {
    Uri(scriptName, url, false, true) + "?ts=" + ToDecimal(timestamp)
  }

  function StylesheetOptions(href: string): seq<(string, Value)>
  {
    [("rel", Text("stylesheet")), ("charset", Text("utf-8")), ("media", Text("screen")), ("href", Text(href))]
  }

  function JavascriptOptions(src: string): seq<(string, Value)>
  {
    [("charset", Text("utf-8")), ("src", Text(src)), (ClosedKey, Flag(false))]
  }

  function ImageOptions(src: string): seq<(string, Value)>
  {
    [("src", Text(src))]
  }

  /** sss_stylesheet_tag(url): a self-closing `link` tag for the stylesheet. */
  function StylesheetTag(cfg: Config, fs: FileSystem, url: string): Result<string, Error>
  {
    var asset :- Resolve(fs, url, cfg.publicFolder);
    Success(RenderOptions("link", StylesheetOptions(CacheBustedPath(cfg.scriptName, url, asset.timestamp))))
  }

  /** sss_javascript_tag(url): an open `script` tag followed by its closing tag. */
  function JavascriptTag(cfg: Config, fs: FileSystem, url: string): Result<string, Error>
  {
    var asset :- Resolve(fs, url, cfg.publicFolder);
    Success(RenderOptions("script", JavascriptOptions(CacheBustedPath(cfg.scriptName, url, asset.timestamp))) + "</script>")
  }

  /** sss_image_tag(url): a self-closing `img` tag. */
  function ImageTag(cfg: Config, fs: FileSystem, url: string): Result<string, Error>
  {
    var asset :- Resolve(fs, url, cfg.publicFolder);
    Success(RenderOptions("img", ImageOptions(CacheBustedPath(cfg.scriptName, url, asset.timestamp))))
  }

  lemma {:induction false} AttributeStringOfTwo(a: (string, string), b: (string, string))
    ensures AttributeString([a, b]) == AttributeText(a) + AttributeText(b)
  {
    AttributeStringAppend([a], [b]);
    assert [a] + [b] == [a, b];
    AttributeStringSingle(a);
    AttributeStringSingle(b);
  }

  lemma {:induction false} AttributeStringOfFour(a: (string, string), b: (string, string), c: (string, string), d: (string, string))
    ensures AttributeString([a, b, c, d]) == AttributeText(a) + AttributeText(b) + AttributeText(c) + AttributeText(d)
  {
    AttributeStringAppend([a], [b, c, d]);
    AttributeStringAppend([b], [c, d]);
    AttributeStringAppend([c], [d]);
    assert [a] + [b, c, d] == [a, b, c, d] && [b] + [c, d] == [b, c, d] && [c] + [d] == [c, d];
    AttributeStringSingle(a);
    AttributeStringSingle(b);
    AttributeStringSingle(c);
    AttributeStringSingle(d);
  }

  lemma StylesheetEntries(href: string)
    ensures AttributeEntries(StylesheetOptions(href))
            == [("rel", "stylesheet"), ("charset", "utf-8"), ("media", "screen"), ("href", href)]
  {
    var a, b, c, d := ("rel", Text("stylesheet")), ("charset", Text("utf-8")), ("media", Text("screen")), ("href", Text(href));
    AttributeEntriesCons(d, []);
    AttributeEntriesCons(c, [d]);
    AttributeEntriesCons(b, [c, d]);
    AttributeEntriesCons(a, [b, c, d]);
    assert [c] + [d] == [c, d] && [b] + [c, d] == [b, c, d] && [a] + [b, c, d] == StylesheetOptions(href);
  }

  lemma StylesheetKeyOrder(href: string)
    ensures SortedByKey([("charset", "utf-8"), ("href", href), ("media", "screen"), ("rel", "stylesheet")])
  {
  }

  lemma StylesheetSameAttributes(href: string)
    ensures multiset([("charset", "utf-8"), ("href", href), ("media", "screen"), ("rel", "stylesheet")])
            == multiset(AttributeEntries(StylesheetOptions(href)))
  {
    StylesheetEntries(href);
    var attrs := [("rel", "stylesheet"), ("charset", "utf-8"), ("media", "screen"), ("href", href)];
    assert multiset([("charset", "utf-8"), ("href", href), ("media", "screen"), ("rel", "stylesheet")]) == multiset(attrs);
  }

  lemma StylesheetOptionsWellFormed(href: string)
    ensures UniqueKeys(StylesheetOptions(href)) && ClosedOption(StylesheetOptions(href))
  {
  }

  lemma StylesheetAttributesSorted(href: string)
    ensures SortedAttributes(StylesheetOptions(href))
            == [("charset", "utf-8"), ("href", href), ("media", "screen"), ("rel", "stylesheet")]
  {
    StylesheetOptionsWellFormed(href);
    StylesheetKeyOrder(href);
    StylesheetSameAttributes(href);
    SortedAttributesAre(StylesheetOptions(href), [("charset", "utf-8"), ("href", href), ("media", "screen"), ("rel", "stylesheet")]);
  }

  /** The stylesheet's attributes, written out in key order. */
  lemma StylesheetAttributeString(href: string)
    ensures AttributeString([("charset", "utf-8"), ("href", href), ("media", "screen"), ("rel", "stylesheet")])
            == " charset=\"utf-8\"" + (" href=\"" + href + "\"") + " media=\"screen\"" + " rel=\"stylesheet\""
  {
    var x, y, m, r := ("charset", "utf-8"), ("href", href), ("media", "screen"), ("rel", "stylesheet");
    AttributeStringOfFour(x, y, m, r);
    assert AttributeText(x) == " charset=\"utf-8\"";
    assert " " + "href" + "=\"" == " href=\"";
    assert AttributeText(m) == " media=\"screen\"";
    assert AttributeText(r) == " rel=\"stylesheet\"";
  }

  /** The link markup with its href text written as one piece reads the same as with that piece spelled out. */
  lemma LinkMarkupFlattens(open: string, charset: string, hrefStart: string, href: string, quote: string,
                           media: string, rel: string, end: string)
    ensures open + (charset + ((hrefStart + href) + quote) + media + rel) + end
            == open + charset + hrefStart + href + quote + media + rel + end
  {
  }

  /** The stylesheet options render as a `link` tag whose attributes are in key order, without `type`. */
  lemma StylesheetRendering(href: string)
    ensures RenderOptions("link", StylesheetOptions(href))
            == "<link" + " charset=\"utf-8\"" + " href=\"" + href + "\"" + " media=\"screen\"" + " rel=\"stylesheet\"" + " />"
  {
    StylesheetOptionsWellFormed(href);
    StylesheetAttributesSorted(href);
    RenderOptionsUnfold("link", StylesheetOptions(href));
    StylesheetAttributeString(href);
    assert "<" + "link" == "<link";
    LinkMarkupFlattens("<link", " charset=\"utf-8\"", " href=\"", href, "\"", " media=\"screen\"", " rel=\"stylesheet\"", " />");
  }

  lemma JavascriptAttributesSorted(src: string)
    ensures SortedAttributes(JavascriptOptions(src)) == [("charset", "utf-8"), ("src", src)]
  {
    var options := JavascriptOptions(src);
    var a, b, c := ("charset", Text("utf-8")), ("src", Text(src)), (ClosedKey, Flag(false));
    AttributeEntriesCons(c, []);
    AttributeEntriesCons(b, [c]);
    AttributeEntriesCons(a, [b, c]);
    assert [b] + [c] == [b, c] && [a] + [b, c] == options;
    assert AttributeEntries(options) == [("charset", "utf-8"), ("src", src)];
    assert SortedByKey([("charset", "utf-8"), ("src", src)]);
    SortedAttributesAre(options, [("charset", "utf-8"), ("src", src)]);
  }

  lemma JavascriptOptionsWellFormed(src: string)
    ensures UniqueKeys(JavascriptOptions(src)) && !ClosedOption(JavascriptOptions(src))
  {
    var head := [("charset", Text("utf-8")), ("src", Text(src))];
    assert head + [(ClosedKey, Flag(false))] == JavascriptOptions(src);
    assert head[0].0 != ClosedKey && head[1].0 != ClosedKey;
    LookupPastMissingKey(head, [(ClosedKey, Flag(false))], ClosedKey);
  }

  /** The script's attributes, written out in key order. */
  lemma JavascriptAttributeString(src: string)
    ensures AttributeString([("charset", "utf-8"), ("src", src)]) == " charset=\"utf-8\"" + (" src=\"" + src + "\"")
  {
    var x, y := ("charset", "utf-8"), ("src", src);
    AttributeStringOfTwo(x, y);
    assert AttributeText(x) == " charset=\"utf-8\"";
    assert " " + "src" + "=\"" == " src=\"";
  }

  /** The script markup with its src text written as one piece reads the same as with that piece spelled out. */
  lemma ScriptMarkupFlattens(open: string, charset: string, srcStart: string, src: string, quote: string, end: string)
    ensures open + (charset + ((srcStart + src) + quote)) + end == open + charset + srcStart + src + quote + end
  {
  }

  /** The script options render as an open `script` tag: `closed` is consumed, not written. */
  lemma JavascriptRendering(src: string)
    ensures RenderOptions("script", JavascriptOptions(src))
            == "<script" + " charset=\"utf-8\"" + " src=\"" + src + "\"" + ">"
  {
    JavascriptOptionsWellFormed(src);
    JavascriptAttributesSorted(src);
    RenderOptionsUnfold("script", JavascriptOptions(src));
    JavascriptAttributeString(src);
    assert "<" + "script" == "<script";
    ScriptMarkupFlattens("<script", " charset=\"utf-8\"", " src=\"", src, "\"", ">");
  }

  lemma ImageAttributesSorted(src: string)
    ensures SortedAttributes(ImageOptions(src)) == [("src", src)]
    ensures UniqueKeys(ImageOptions(src)) && ClosedOption(ImageOptions(src))
  {
    AttributeEntriesCons(("src", Text(src)), []);
    assert [("src", Text(src))] + [] == ImageOptions(src);
    SortedAttributesAre(ImageOptions(src), [("src", src)]);
  }

  /** The img markup with its src text written as one piece reads the same as with that piece spelled out. */
  lemma ImageMarkupFlattens(open: string, srcStart: string, src: string, quote: string, end: string)
    ensures open + ((srcStart + src) + quote) + end == open + srcStart + src + quote + end
  {
  }

  /** The image options render as a self-closing `img` tag. */
  lemma ImageRendering(src: string)
    ensures RenderOptions("img", ImageOptions(src)) == "<img" + " src=\"" + src + "\"" + " />"
  {
    ImageAttributesSorted(src);
    RenderOptionsUnfold("img", ImageOptions(src));
    AttributeStringSingle(("src", src));
    assert " " + "src" + "=\"" == " src=\"";
    assert "<" + "img" == "<img";
    ImageMarkupFlattens("<img", " src=\"", src, "\"", " />");
  }

  /**
   * sss_stylesheet_tag(url): when the file exists, a `link` tag whose href is
   * the address under the mount prefix with `?ts=` and the file's timestamp;
   * when it does not, FileNotFound naming the path and no markup.
   */
  lemma StylesheetTagOutput(cfg: Config, fs: FileSystem, url: string)
    ensures var path := Join(cfg.publicFolder, url);
            StylesheetTag(cfg, fs, url)
            == if path in fs then
                 Success("<link" + " charset=\"utf-8\"" + " href=\"" + CacheBustedPath(cfg.scriptName, url, fs[path])
                         + "\"" + " media=\"screen\"" + " rel=\"stylesheet\"" + " />")
               else Failure(FileNotFound(path))
  {
    var path := Join(cfg.publicFolder, url);
    if path in fs {
      StylesheetRendering(CacheBustedPath(cfg.scriptName, url, fs[path]));
    }
  }

  /** sss_javascript_tag(url): an open `script` tag with the cache-busted src, then `</script>`. */
  lemma JavascriptTagOutput(cfg: Config, fs: FileSystem, url: string)
    ensures var path := Join(cfg.publicFolder, url);
            JavascriptTag(cfg, fs, url)
            == if path in fs then
                 Success("<script" + " charset=\"utf-8\"" + " src=\"" + CacheBustedPath(cfg.scriptName, url, fs[path])
                         + "\"" + ">" + "</script>")
               else Failure(FileNotFound(path))
  {
    var path := Join(cfg.publicFolder, url);
    if path in fs {
      JavascriptRendering(CacheBustedPath(cfg.scriptName, url, fs[path]));
    }
  }

  /** sss_image_tag(url): a self-closing `img` tag with the cache-busted src. */
  lemma ImageTagOutput(cfg: Config, fs: FileSystem, url: string)
    ensures var path := Join(cfg.publicFolder, url);
            ImageTag(cfg, fs, url)
            == if path in fs then
                 Success("<img" + " src=\"" + CacheBustedPath(cfg.scriptName, url, fs[path]) + "\"" + " />")
               else Failure(FileNotFound(path))
  {
    var path := Join(cfg.publicFolder, url);
    if path in fs {
      ImageRendering(CacheBustedPath(cfg.scriptName, url, fs[path]));
    }
  }

  /** A string is determined by what is left once a known prefix and suffix are removed. */
  lemma {:induction false} CancelAround(a: string, x: string, y: string, b: string)
    requires a + x + b == a + y + b
    ensures x == y
  {
    var l := a + x + b;
    assert |x| == |y|;
    assert x == l[|a|..|a| + |x|];
    assert y == (a + y + b)[|a|..|a| + |y|];
  }

  /** Under a fixed prefix and address, distinct timestamps give distinct addresses, so a changed file is fetched anew. */
  lemma CacheBustedPathTracksTimestamp(scriptName: string, url: string, t1: int, t2: int)
    ensures CacheBustedPath(scriptName, url, t1) == CacheBustedPath(scriptName, url, t2) <==> t1 == t2
  {
    if t1 != t2 {
      ToDecimalInjective(t1, t2);
      var a := Uri(scriptName, url, false, true) + "?ts=";
      assert a + ToDecimal(t1) + "" == a + ToDecimal(t1);
      assert a + ToDecimal(t2) + "" == a + ToDecimal(t2);
      if a + ToDecimal(t1) == a + ToDecimal(t2) {
        CancelAround(a, ToDecimal(t1), ToDecimal(t2), "");
      }
    }
  }

  /**
   * The cache-busted address of an asset is the mount prefix, the asset's
   * address, `?ts=` and the timestamp in decimal, when the prefix has no
   * trailing `/` and the address starts with one (the form the helpers are
   * called with); under an empty prefix it is the address unchanged.
   */
  lemma CacheBustedPathUnderMount(scriptName: string, url: string, timestamp: int)
    requires !EndsWithSeparator(scriptName) && StartsWithSeparator(url)
    ensures CacheBustedPath(scriptName, url, timestamp) == scriptName + url + "?ts=" + ToDecimal(timestamp)
    ensures CacheBustedPath("", url, timestamp) == url + "?ts=" + ToDecimal(timestamp)
  {
    assert "" + url == url;
  }

  /** The link markup is the text before the href, the href, and the text after it. */
  lemma LinkMarkupAroundHref(before: string, href: string, after: string, open: string, charset: string, hrefStart: string,
                             quote: string, media: string, rel: string, end: string)
    requires before == open + charset + hrefStart && after == quote + media + rel + end
    ensures open + charset + hrefStart + href + quote + media + rel + end == before + href + after
  {
  }

  /** The script markup is the text before the src, the src, and the text after it. */
  lemma ScriptMarkupAroundSrc(before: string, src: string, after: string, open: string, charset: string, srcStart: string,
                              quote: string, end: string, close: string)
    requires before == open + charset + srcStart && after == quote + end + close
    ensures open + charset + srcStart + src + quote + end + close == before + src + after
  {
  }

  /** The img markup is the text before the src, the src, and the text after it. */
  lemma ImageMarkupAroundSrc(before: string, src: string, after: string, open: string, srcStart: string, quote: string, end: string)
    requires before == open + srcStart && after == quote + end
    ensures open + srcStart + src + quote + end == before + src + after
  {
  }

  /**
   * Each helper's markup changes exactly when the asset's timestamp does:
   * filesystems that hold the asset with different modification times give
   * different tags, and the same time gives the same tag.
   */
  lemma TagsTrackTimestamp(cfg: Config, fs1: FileSystem, fs2: FileSystem, url: string)
    requires Join(cfg.publicFolder, url) in fs1 && Join(cfg.publicFolder, url) in fs2
    ensures var p := Join(cfg.publicFolder, url);
            && (StylesheetTag(cfg, fs1, url) == StylesheetTag(cfg, fs2, url) <==> fs1[p] == fs2[p])
            && (JavascriptTag(cfg, fs1, url) == JavascriptTag(cfg, fs2, url) <==> fs1[p] == fs2[p])
            && (ImageTag(cfg, fs1, url) == ImageTag(cfg, fs2, url) <==> fs1[p] == fs2[p])
  {
    var p := Join(cfg.publicFolder, url);
    var h1, h2 := CacheBustedPath(cfg.scriptName, url, fs1[p]), CacheBustedPath(cfg.scriptName, url, fs2[p]);
    CacheBustedPathTracksTimestamp(cfg.scriptName, url, fs1[p], fs2[p]);
    StylesheetTagOutput(cfg, fs1, url);
    StylesheetTagOutput(cfg, fs2, url);
    JavascriptTagOutput(cfg, fs1, url);
    JavascriptTagOutput(cfg, fs2, url);
    ImageTagOutput(cfg, fs1, url);
    ImageTagOutput(cfg, fs2, url);
    if h1 != h2 {
      var sa, sb := "<link" + " charset=\"utf-8\"" + " href=\"", "\"" + " media=\"screen\"" + " rel=\"stylesheet\"" + " />";
      var ja, jb := "<script" + " charset=\"utf-8\"" + " src=\"", "\"" + ">" + "</script>";
      var ia, ib := "<img" + " src=\"", "\"" + " />";
      LinkMarkupAroundHref(sa, h1, sb, "<link", " charset=\"utf-8\"", " href=\"", "\"", " media=\"screen\"", " rel=\"stylesheet\"", " />");
      LinkMarkupAroundHref(sa, h2, sb, "<link", " charset=\"utf-8\"", " href=\"", "\"", " media=\"screen\"", " rel=\"stylesheet\"", " />");
      if sa + h1 + sb == sa + h2 + sb { CancelAround(sa, h1, h2, sb); }
      ScriptMarkupAroundSrc(ja, h1, jb, "<script", " charset=\"utf-8\"", " src=\"", "\"", ">", "</script>");
      ScriptMarkupAroundSrc(ja, h2, jb, "<script", " charset=\"utf-8\"", " src=\"", "\"", ">", "</script>");
      if ja + h1 + jb == ja + h2 + jb { CancelAround(ja, h1, h2, jb); }
      ImageMarkupAroundSrc(ia, h1, ib, "<img", " src=\"", "\"", " />");
      ImageMarkupAroundSrc(ia, h2, ib, "<img", " src=\"", "\"", " />");
      if ia + h1 + ib == ia + h2 + ib { CancelAround(ia, h1, h2, ib); }
    }
  }
}
