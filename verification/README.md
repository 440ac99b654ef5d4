# sinatra-static-assets, modelled in Dafny

sinatra-static-assets provides three helper methods, `sss_stylesheet_tag`,
`sss_javascript_tag` and `sss_image_tag`, which its suite exercises as private
methods of `Sinatra::StaticAssets::Private` on a stand-in host. Each helper
takes the address of a file under the application's public folder and writes
the HTML tag that loads it. The address is placed under the application's
mount prefix (`SCRIPT_NAME`), and a cache-busting query `?ts=<mtime>` is
appended, where `mtime` is the file's modification time in seconds since the
epoch. The suite also exercises two classes of the library:

- `Asset` resolves a file under a folder.
- `Tag` renders an element name and an option hash as a tag.

The library source, `lib/sinatra/static_assets.rb`, is not part of this
model. The behaviour modelled here is the one that
`spec/static_assets_spec.rb` pins down. That covers the `Asset` and `Tag`
expectations, the host's `uri` helper that the suite defines, and the exact
strings the three helpers must produce.

The modules follow those layers:

- `Paths` (paths.dfy): Ruby's `File.join` for two parts on `/`. Trailing
  separators of the folder are dropped when the file name starts with one, and
  a `/` is added only when neither side has one.
- `Lexicographic` (lexicographic.dfy): the order Ruby's `String#<=>` puts
  attribute keys in, proved equal to the "first difference" definition and
  proved to be a strict total order.
- `Attributes` (attributes.dfy): attribute lists with distinct keys, and the
  key sort, an insertion sort. The sort yields the only key-sorted arrangement
  of its input.
- `Tags` (tags.dfy): `Tag.new(name, options)` and `Tag#to_s`. The `closed`
  option is never an attribute; `closed => false` selects `<name ...>` over
  `<name ... />`. The remaining options are written as ` key="value"` in key
  order.
- `Decimal` (decimal.dfy): the decimal form of an integer, in which the
  expected tags show the timestamp, with its parse-back and injectivity.
- `Assets` (assets.dfy): `Asset.new(filename, asset_dir)` over a filesystem
  given as a map from path to modification time. A missing file is a
  `FileNotFound` failure.
- `AssetTagHelper` (helpers.dfy): the host's `uri`, the cache-busted address
  and the three helpers.
- `Examples` (golden.dfy): the suite's concrete cases, at the exact strings it
  expects.

The suite fixes these details:

- The stylesheet tag carries no `type="text/css"` attribute
  (spec/static_assets_spec.rb:90).
- The script helper's output includes the closing `</script>`
  (spec/static_assets_spec.rb:98), while the `Tag` expectation with
  closed => false ends at `>` (spec/static_assets_spec.rb:52).
- Attribute values are written verbatim, without HTML escaping: no expectation
  in the suite escapes anything.

## Model

| member | source | states |
|---|---|---|
| Lexicographic.LessMatchesFirstDifference | spec/static_assets_spec.rb:29-38 | one key sorts before another exactly when, at the first position where they differ, its character is smaller, or it is a proper prefix of the other |
| Lexicographic.LessTransitive | spec/static_assets_spec.rb:29-38 | the key order is transitive |
| Lexicographic.LessConnected | spec/static_assets_spec.rb:29-38 | of two different keys, one sorts before the other, so every key set has one sorted order |
| Lexicographic.LessIrreflexive | spec/static_assets_spec.rb:29-38 | no key sorts before itself |
| Attributes.InsertAddsOne | spec/static_assets_spec.rb:29-38 | inserting an attribute into a list adds exactly that attribute and loses none |
| Attributes.InsertKeepsSorted | spec/static_assets_spec.rb:29-38 | inserting an attribute whose key is new into a key-sorted list keeps it key-sorted |
| Attributes.SortByKeySortsAndPermutes | spec/static_assets_spec.rb:29-38 | sorting attributes with distinct keys yields them in ascending key order, each exactly once |
| Attributes.SortedWithSameEntriesEqual | spec/static_assets_spec.rb:29-38 | two key-sorted lists holding the same attributes are the same list |
| Attributes.SortIgnoresInsertionOrder | spec/static_assets_spec.rb:29-38 | attributes supplied in any order sort to the same list |
| Attributes.SortIsTheSortedArrangement | spec/static_assets_spec.rb:29-38 | the sort's output is the unique key-sorted arrangement of its input |
| Tags.Lookup | spec/static_assets_spec.rb:41-52 | a key's value is found exactly when some option carries the key, and the value found is that option's |
| Tags.ClosedOptionIsFalseOnlyForFalse | spec/static_assets_spec.rb:41-52 | the open form is chosen exactly when the options carry closed => false |
| Tags.AttributeEntriesOmitClosed | spec/static_assets_spec.rb:41-52 | `closed` never becomes an attribute |
| Tags.AttributeEntriesCoverOptions | spec/static_assets_spec.rb:29-38 | every option other than `closed` becomes an attribute with its value as text |
| Tags.AttributeEntriesComeFromOptions | spec/static_assets_spec.rb:29-38 | every attribute comes from one of the options |
| Tags.AttributeEntriesKeepKeysUnique | spec/static_assets_spec.rb:29-38 | options with distinct keys give attributes with distinct keys |
| Tags.NewTagTakesOutClosed | spec/static_assets_spec.rb:26-56 | Tag.new keeps the name, makes every option but `closed` an attribute and reads the form from `closed` |
| Tags.RenderSortsAttributes | spec/static_assets_spec.rb:38 | a tag renders as `<name`, then its attributes in ascending key order, then its ending |
| Tags.RenderOptionsSortsAttributes | spec/static_assets_spec.rb:26-56 | Tag.new(name, options).to_s is `<name`, every option but `closed` as ` key="value"` in key order, then ` />`, or `>` when closed => false is given |
| Tags.LookupIgnoresOrder | spec/static_assets_spec.rb:41-52 | with distinct keys, the value found for a key does not depend on the options' order |
| Tags.RenderIgnoresOptionOrder | spec/static_assets_spec.rb:29-38 | the rendering does not depend on the order the options were supplied in |
| Tags.ClosedFalseDropsSlash | spec/static_assets_spec.rb:38-52 | without `closed` the tag ends in ` />`; adding closed => false gives the same text with that ` />` replaced by `>` |
| Tags.AttributeStringAppend | spec/static_assets_spec.rb:38 | the attributes of a concatenated list are written as the two lists' attribute texts, one after the other |
| Tags.SortedAttributesAre | spec/static_assets_spec.rb:29-38 | any key-sorted arrangement of a tag's attributes is the order they are written in |
| Paths.TrailingSeparatorsStart | spec/static_assets_spec.rb:79-85 | the position where a folder's trailing run of separators begins: only separators follow it, none ends the part before it, and it is the end exactly when there is no trailing separator |
| Paths.JoinCollapsesSeam | spec/static_assets_spec.rb:79-85 | joining a name that starts with `/` keeps the folder minus its trailing separators, then the name, so exactly one separator meets at the seam |
| Paths.JoinIgnoresTrailingSeparator | spec/static_assets_spec.rb:79-85 | "app/public/" and "app/public" join any name to the same path |
| Paths.NoDoubleSeparatorConcat | spec/static_assets_spec.rb:79-85 | a concatenation has no doubled separator exactly when neither part has one and they do not meet on separators |
| Paths.JoinKeepsSingleSeparators | spec/static_assets_spec.rb:79-85 | joining parts without doubled separators gives a path without doubled separators |
| Decimal.NatDigits | spec/static_assets_spec.rb:90 | a natural number's decimal form is non-empty, all digits and without a leading zero |
| Decimal.ToDecimal | spec/static_assets_spec.rb:90 | an integer's decimal form is all digits exactly when it is not negative, and starts with `-` exactly when it is negative |
| Decimal.NatDigitsRoundTrip | spec/static_assets_spec.rb:90 | reading a natural number's digits back gives the number |
| Decimal.DecimalRoundTrip | spec/static_assets_spec.rb:90 | parsing an integer's decimal form gives the integer back |
| Decimal.ToDecimalInjective | spec/static_assets_spec.rb:90 | distinct integers have distinct decimal forms |
| Assets.Resolve | spec/static_assets_spec.rb:9-24 | an asset exists exactly when the joined path is a file; it then equals its filename and carries that path and the file's time, and otherwise the failure names the path |
| Assets.ResolveIgnoresTrailingSeparator | spec/static_assets_spec.rb:79-85 | a folder with and without one trailing separator finds the same file with the same time |
| AssetTagHelper.Uri | spec/static_assets_spec.rb:61-63 | with script_tag unset the address is returned unchanged; with it set, a prefix without a trailing `/` and an address starting with `/` are simply concatenated |
| AssetTagHelper.CacheBustedPathUnderMount | spec/static_assets_spec.rb:61-63 | the cache-busted address is the prefix, the address, `?ts=` and the timestamp in decimal; under an empty prefix it is the address itself |
| AssetTagHelper.CacheBustedPathTracksTimestamp | spec/static_assets_spec.rb:90 | two cache-busted addresses for one asset are equal exactly when the timestamps are |
| AssetTagHelper.StylesheetRendering | spec/static_assets_spec.rb:90 | the stylesheet options render as `<link charset="utf-8" href="…" media="screen" rel="stylesheet" />`, with no type attribute |
| AssetTagHelper.JavascriptRendering | spec/static_assets_spec.rb:98 | the script options render as the open tag `<script charset="utf-8" src="…">`, without a `closed` attribute |
| AssetTagHelper.ImageRendering | spec/static_assets_spec.rb:106 | the image options render as `<img src="…" />` |
| AssetTagHelper.StylesheetTagOutput | spec/static_assets_spec.rb:87-94 | sss_stylesheet_tag gives the link tag with the cache-busted href when the file exists, and FileNotFound for the joined path otherwise |
| AssetTagHelper.JavascriptTagOutput | spec/static_assets_spec.rb:95-102 | sss_javascript_tag gives the open script tag with the cache-busted src, then `</script>`, when the file exists, and FileNotFound otherwise |
| AssetTagHelper.ImageTagOutput | spec/static_assets_spec.rb:103-110 | sss_image_tag gives the img tag with the cache-busted src when the file exists, and FileNotFound otherwise |
| AssetTagHelper.TagsTrackTimestamp | spec/static_assets_spec.rb:87-110 | each helper's output changes exactly when the file's modification time changes |
| Examples.ExampleTimeDigits | spec/static_assets_spec.rb:90 | the time 1367428682 is written as "1367428682" |
| Examples.AssetExample | spec/static_assets_spec.rb:9-24 | Asset.new("image.jpg", "app/public") equals "image.jpg", has path "app/public/image.jpg" and the file's time, and fails when the file is absent |
| Examples.LinkTagExample | spec/static_assets_spec.rb:29-39 | the link options type, charset, media, rel, href render as charset, href, media, rel, type, self-closing |
| Examples.LinkTagOpenExample | spec/static_assets_spec.rb:41-53 | the same options plus closed => false render identically but end in `>` |
| Examples.LinkTagExampleAtWinterCss | spec/static_assets_spec.rb:26-56 | both link tag expectations at href "/bar/stylesheets/winter.css" |
| Examples.StubbedFileFound | spec/static_assets_spec.rb:79-85 | the file stubbed under "app/public/" is found from the host's folder "app/public", with its time |
| Examples.StylesheetExample | spec/static_assets_spec.rb:87-94 | sss_stylesheet_tag "/stylesheets/winter.css" under /bar gives the expected link tag |
| Examples.JavascriptExample | spec/static_assets_spec.rb:95-102 | sss_javascript_tag "/js/get_stuff.js" under /bar gives the expected script element |
| Examples.ImageExample | spec/static_assets_spec.rb:103-110 | sss_image_tag "/images/foo.png" under /bar gives the expected img tag |

## Left out

- The library file lib/sinatra/static_assets.rb is not part of this model. The helpers' option hashes and the rendering rules come from the suite's expected strings.
- AssetTagHelper.StylesheetTag, AssetTagHelper.JavascriptTag and AssetTagHelper.ImageTag are assumed to resolve the asset, put the address under the mount prefix with `uri`, append `?ts=` and the timestamp, and render through `Tag`. That composition is an assumption consistent with the expected strings, not something the suite shows.
- Lexicographic.Less is the order the expected attribute lists are in (charset, href, media, rel, type). Equating it with Ruby's `String#<=>` on the keys is an assumption about the library.
- The Sinatra application tests (spec/static_assets_spec.rb:116-137) are left out. They issue HTTP requests and compare bodies with fixture files that are not part of this model.
- The real filesystem, `File.exists?` and `File.mtime` are replaced by a map from path to modification time in whole seconds.
- `Time.parse` and time zones are left out. A timestamp is a given integer, and 1367428682 appears only in the examples.
- `ENV["SCRIPT_NAME"]`, which is global mutable state, becomes the explicit `Config.scriptName`. The public folder becomes `Config.publicFolder`.
- AssetTagHelper.Uri ignores its `absolute` argument, as the suite's host does.
- HTML escaping of attribute values is left out. Values are written verbatim, because no expectation escapes anything.
- Tags.ClosedOption treats only `false` as falsy. `closed => nil` and option values other than strings and booleans are not modelled. Boolean values of other options are written as "true" or "false", which is an assumption about `to_s`.
- Tags.Render on a tag with no attributes gives `<name />` or `<name>`. No expectation in the suite covers that case.
- Paths.Join is modelled for exactly two parts, with `/` as the only separator. Array arguments and alternative separators are not modelled.
- Option keys are Ruby symbols. They are modelled by their names, which `Symbol#<=>` compares as strings.
