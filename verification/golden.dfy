/**
 * The concrete cases the suite checks: an asset found under
 * app/public, a five-attribute link tag with and without closed => false, and
 * the three helpers mounted under /bar with every file's modification time at
 * 2013-05-01 18:18:02 +0100, that is 1367428682 seconds after the epoch.
 */
module Examples {
  import opened Wrappers
  import opened Paths
  import opened Decimal
  import opened Attributes
  import opened Tags
  import opened Assets
  import opened AssetTagHelper

  /** 2013-05-01 18:18:02 +0100 in seconds since the epoch. */
  const ExampleTime: int := 1367428682

  lemma ExampleTimeDigits()
    ensures ToDecimal(ExampleTime) == "1367428682"
  {
    assert NatDigits(1) == "1";
    assert NatDigits(13) == "13";
    assert NatDigits(136) == "136";
    assert NatDigits(1367) == "1367";
    assert NatDigits(13674) == "13674";
    assert NatDigits(136742) == "136742";
    assert NatDigits(1367428) == "1367428";
    assert NatDigits(13674286) == "13674286";
    assert NatDigits(136742868) == "136742868";
  }

  /** Asset.new("image.jpg", "app/public") when that file exists: equal to its filename, with its path and time. */
  lemma AssetExample()
    ensures var r := Resolve(map["app/public/image.jpg" := ExampleTime], "image.jpg", "app/public");
            && r.Success? && r.value.EqualTo("image.jpg")
            && r.value.fullpath == "app/public/image.jpg" && r.value.timestamp == ExampleTime
    ensures Resolve(map[], "image.jpg", "app/public") == Failure(FileNotFound("app/public/image.jpg"))
  {
    JoinPlainParts("app/public", "image.jpg");
    assert "app/public" + "/" + "image.jpg" == "app/public/image.jpg";
  }

  /** The options of the link tag example, in the order the hash lists them. */
  function LinkOptions(href: string): seq<(string, Value)>
  {
    [("type", Text("text/css")), ("charset", Text("utf-8")), ("media", Text("projection")),
     ("rel", Text("stylesheet")), ("href", Text(href))]
  }

  function LinkAttributesInKeyOrder(href: string): seq<(string, string)>
  {
    [("charset", "utf-8"), ("href", href), ("media", "projection"), ("rel", "stylesheet"), ("type", "text/css")]
  }

  /** The same options listed in ascending key order. */
  function LinkOptionsInKeyOrder(href: string): seq<(string, Value)>
  {
    [("charset", Text("utf-8")), ("href", Text(href)), ("media", Text("projection")),
     ("rel", Text("stylesheet")), ("type", Text("text/css"))]
  }

  lemma LinkEntriesInKeyOrder(href: string)
    ensures AttributeEntries(LinkOptionsInKeyOrder(href)) == LinkAttributesInKeyOrder(href)
  {
    var a, b, c, d, e := ("charset", Text("utf-8")), ("href", Text(href)), ("media", Text("projection")),
                         ("rel", Text("stylesheet")), ("type", Text("text/css"));
    AttributeEntriesCons(e, []);
    AttributeEntriesCons(d, [e]);
    AttributeEntriesCons(c, [d, e]);
    AttributeEntriesCons(b, [c, d, e]);
    AttributeEntriesCons(a, [b, c, d, e]);
    assert [d] + [e] == [d, e] && [c] + [d, e] == [c, d, e] && [b] + [c, d, e] == [b, c, d, e];
    assert [a] + [b, c, d, e] == LinkOptionsInKeyOrder(href);
  }

  lemma LinkOptionsWellFormed(href: string)
    ensures UniqueKeys(LinkOptions(href)) && UniqueKeys(LinkOptionsInKeyOrder(href))
    ensures forall i :: 0 <= i < |LinkOptions(href)| ==> LinkOptions(href)[i].0 != ClosedKey
    ensures forall i :: 0 <= i < |LinkOptionsInKeyOrder(href)| ==> LinkOptionsInKeyOrder(href)[i].0 != ClosedKey
  {
  }

  lemma LinkKeyOrder(href: string)
    ensures SortedByKey(LinkAttributesInKeyOrder(href))
  {
  }

  lemma LinkSameOptions(href: string)
    ensures forall x :: x in LinkOptions(href) <==> x in LinkOptionsInKeyOrder(href)
  {
  }

  /** The example's options render exactly as the same options listed in key order. */
  lemma LinkAttributesSorted(href: string)
    ensures UniqueKeys(LinkOptions(href))
    ensures RenderOptions("link", LinkOptions(href)) == RenderOptions("link", LinkOptionsInKeyOrder(href))
    ensures SortedAttributes(LinkOptionsInKeyOrder(href)) == LinkAttributesInKeyOrder(href)
  {
    LinkOptionsWellFormed(href);
    LinkKeyOrder(href);
    LinkEntriesInKeyOrder(href);
    LinkSameOptions(href);
    RenderIgnoresOptionOrder("link", LinkOptions(href), LinkOptionsInKeyOrder(href));
    SortedAttributesAre(LinkOptionsInKeyOrder(href), LinkAttributesInKeyOrder(href));
  }

  lemma LinkAttributeTexts(href: string)
    ensures AttributeText(("charset", "utf-8")) == " charset=\"utf-8\""
    ensures AttributeText(("href", href)) == " href=\"" + href + "\""
    ensures AttributeText(("rel", "stylesheet")) == " rel=\"stylesheet\""
  {
    assert " " + "href" + "=\"" == " href=\"";
  }

  lemma LinkMediaAndTypeTexts()
    ensures AttributeText(("media", "projection")) == " media=\"projection\""
    ensures AttributeText(("type", "text/css")) == " type=\"text/css\""
  {
  }

  lemma {:induction false} LinkAttributeString(href: string)
    ensures AttributeString(LinkAttributesInKeyOrder(href))
            == " charset=\"utf-8\"" + (" href=\"" + href + "\"") + " media=\"projection\"" + " rel=\"stylesheet\"" + " type=\"text/css\""
  {
    var x, y, m, r, t := ("charset", "utf-8"), ("href", href), ("media", "projection"), ("rel", "stylesheet"), ("type", "text/css");
    AttributeStringAppend([x, y, m, r], [t]);
    assert [x, y, m, r] + [t] == LinkAttributesInKeyOrder(href);
    AttributeStringOfFour(x, y, m, r);
    AttributeStringSingle(t);
    LinkAttributeTexts(href);
    LinkMediaAndTypeTexts();
  }

  /** The example's opening with its href text written as one piece reads the same as with that piece spelled out. */
  lemma LinkExampleFlattens(open: string, charset: string, hrefStart: string, href: string, quote: string,
                            media: string, rel: string, type_: string)
    ensures open + (charset + ((hrefStart + href) + quote) + media + rel + type_)
            == open + charset + hrefStart + href + quote + media + rel + type_
  {
  }

  /** The link tag example renders its attributes in key order and self-closes. */
  lemma LinkTagExample(href: string)
    ensures UniqueKeys(LinkOptions(href))
    ensures RenderOptions("link", LinkOptions(href))
            == "<link" + " charset=\"utf-8\"" + " href=\"" + href + "\"" + " media=\"projection\""
               + " rel=\"stylesheet\"" + " type=\"text/css\"" + " />"
  {
    LinkOptionsWellFormed(href);
    LinkAttributesSorted(href);
    LinkAttributeString(href);
    RenderOptionsUnfold("link", LinkOptionsInKeyOrder(href));
    assert "<" + "link" == "<link";
    LinkExampleFlattens("<link", " charset=\"utf-8\"", " href=\"", href, "\"", " media=\"projection\"",
                       " rel=\"stylesheet\"", " type=\"text/css\"");
  }

  /** The same example with closed => false added renders as the open tag. */
  lemma LinkTagOpenExample(href: string)
    ensures UniqueKeys(LinkOptions(href) + [(ClosedKey, Flag(false))])
    ensures RenderOptions("link", LinkOptions(href) + [(ClosedKey, Flag(false))])
            == "<link" + " charset=\"utf-8\"" + " href=\"" + href + "\"" + " media=\"projection\""
               + " rel=\"stylesheet\"" + " type=\"text/css\"" + ">"
  {
    var body := "<link" + " charset=\"utf-8\"" + " href=\"" + href + "\"" + " media=\"projection\""
                + " rel=\"stylesheet\"" + " type=\"text/css\"";
    LinkOptionsWellFormed(href);
    LinkTagExample(href);
    ClosedFalseDropsSlash("link", LinkOptions(href));
    assert (body + " />")[..|body|] == body;
  }

  /** The link tag example at the href it is given, in both forms. */
  lemma LinkTagExampleAtWinterCss()
    ensures UniqueKeys(LinkOptions("/bar/stylesheets/winter.css"))
    ensures UniqueKeys(LinkOptions("/bar/stylesheets/winter.css") + [(ClosedKey, Flag(false))])
    ensures RenderOptions("link", LinkOptions("/bar/stylesheets/winter.css"))
            == "<link" + " charset=\"utf-8\"" + " href=\"" + "/bar/stylesheets/winter.css" + "\"" + " media=\"projection\""
               + " rel=\"stylesheet\"" + " type=\"text/css\"" + " />"
    ensures RenderOptions("link", LinkOptions("/bar/stylesheets/winter.css") + [(ClosedKey, Flag(false))])
            == "<link" + " charset=\"utf-8\"" + " href=\"" + "/bar/stylesheets/winter.css" + "\"" + " media=\"projection\""
               + " rel=\"stylesheet\"" + " type=\"text/css\"" + ">"
  {
    LinkTagExample("/bar/stylesheets/winter.css");
    LinkTagOpenExample("/bar/stylesheets/winter.css");
  }

  /** The host of the helper examples: public folder app/public, mounted at /bar. */
  const ExampleConfig: Config := Config("app/public", "/bar")

  /**
   * The one file the helper examples stub, named as File.join("app/public/", filename):
   * the stub's folder carries a trailing separator that the host's does not.
   */
  function StubbedFiles(filename: string): FileSystem
  {
    map[Join("app/public/", filename) := ExampleTime]
  }

  /** The host finds the stubbed file although its folder is spelled without the trailing separator. */
  lemma StubbedFileFound(filename: string)
    ensures Join(ExampleConfig.publicFolder, filename) in StubbedFiles(filename)
    ensures StubbedFiles(filename)[Join(ExampleConfig.publicFolder, filename)] == ExampleTime
  {
    JoinIgnoresTrailingSeparator("app/public", filename);
    assert "app/public" + "/" == "app/public/";
  }

  lemma ExampleQuery()
    ensures "?ts=" + ToDecimal(ExampleTime) == "?ts=1367428682"
  {
    ExampleTimeDigits();
  }

  lemma ExampleAddress(url: string)
    requires StartsWithSeparator(url)
    ensures CacheBustedPath(ExampleConfig.scriptName, url, ExampleTime) == "/bar" + url + "?ts=1367428682"
  {
    CacheBustedPathUnderMount("/bar", url, ExampleTime);
    ExampleQuery();
  }

  /** sss_stylesheet_tag "/stylesheets/winter.css" under /bar: no type attribute, media screen, self-closing. */
  lemma StylesheetExample()
    ensures StylesheetTag(ExampleConfig, StubbedFiles("/stylesheets/winter.css"), "/stylesheets/winter.css")
            == Success("<link" + " charset=\"utf-8\"" + " href=\"" + ("/bar" + "/stylesheets/winter.css" + "?ts=1367428682") + "\""
                       + " media=\"screen\"" + " rel=\"stylesheet\"" + " />")
  {
    StubbedFileFound("/stylesheets/winter.css");
    StylesheetTagOutput(ExampleConfig, StubbedFiles("/stylesheets/winter.css"), "/stylesheets/winter.css");
    ExampleAddress("/stylesheets/winter.css");
  }

  /** sss_javascript_tag "/js/get_stuff.js" under /bar: an open script tag and its closing tag. */
  lemma JavascriptExample()
    ensures JavascriptTag(ExampleConfig, StubbedFiles("/js/get_stuff.js"), "/js/get_stuff.js")
            == Success("<script" + " charset=\"utf-8\"" + " src=\"" + ("/bar" + "/js/get_stuff.js" + "?ts=1367428682") + "\"" + ">" + "</script>")
  {
    StubbedFileFound("/js/get_stuff.js");
    JavascriptTagOutput(ExampleConfig, StubbedFiles("/js/get_stuff.js"), "/js/get_stuff.js");
    ExampleAddress("/js/get_stuff.js");
  }

  /** sss_image_tag "/images/foo.png" under /bar: a self-closing img tag. */
  lemma ImageExample()
    ensures ImageTag(ExampleConfig, StubbedFiles("/images/foo.png"), "/images/foo.png")
            == Success("<img" + " src=\"" + ("/bar" + "/images/foo.png" + "?ts=1367428682") + "\"" + " />")
  {
    StubbedFileFound("/images/foo.png");
    ImageTagOutput(ExampleConfig, StubbedFiles("/images/foo.png"), "/images/foo.png");
    ExampleAddress("/images/foo.png");
  }
}
