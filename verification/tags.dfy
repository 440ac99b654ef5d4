/**
 * The generic tag renderer: Tag.new(name, options) and its string form. The
 * options are a hash from attribute name to value; the entry `closed`, when
 * given, is not an attribute but says whether the tag is written in the
 * self-closing form `<name ... />` (the default) or the open form `<name ...>`.
 * Attributes are written in ascending key order as key="value".
 */
module Tags {
  import opened Wrappers
  import opened Attributes

  /** A value in a tag's option hash: a string, or Ruby's true or false. */
  datatype Value = Text(s: string) | Flag(b: bool)

  const ClosedKey: string := "closed"

  /** An attribute value as text: strings as they are, booleans as "true" or "false". */
  function ValueText(v: Value): string
  {
    match v
    case Text(s) => s
    case Flag(b) => if b then "true" else "false"
  }

  /** Ruby truthiness: of the values modelled, only false is falsy. */
  predicate Truthy(v: Value)
  {
    v != Flag(false)
  }

  /** An option as the attribute it renders as. */
  function Converted(o: (string, Value)): (string, string)
  {
    (o.0, ValueText(o.1))
  }

  /** The value supplied for `key`, if any. */
  function Lookup(options: seq<(string, Value)>, key: string): (r: Option<Value>)
    ensures r.Some? ==> (key, r.value) in options
    ensures r.None? <==> forall i :: 0 <= i < |options| ==> options[i].0 != key
  {
    if |options| == 0 then None
    else if options[0].0 == key then Some(options[0].1)
    else Lookup(options[1..], key)
  }

  /** With distinct keys, the entry for a key is the only one with that key. */
  lemma UniqueKeysDetermineValue(options: seq<(string, Value)>, key: string, v: Value, w: Value)
    requires UniqueKeys(options)
    requires (key, v) in options && (key, w) in options
    ensures v == w
  {
    var i :| 0 <= i < |options| && options[i] == (key, v);
    var j :| 0 <= j < |options| && options[j] == (key, w);
    assert !(i < j) && !(j < i);
  }

  /** Whether the options ask for the self-closing form: yes unless `closed` is false. */
  function ClosedOption(options: seq<(string, Value)>): bool
  {
    match Lookup(options, ClosedKey)
    case Some(v) => Truthy(v)
    case None => true
  }

  /** Only closed => false selects the open form. */
  lemma ClosedOptionIsFalseOnlyForFalse(options: seq<(string, Value)>)
    requires UniqueKeys(options)
    ensures !ClosedOption(options) <==> (ClosedKey, Flag(false)) in options
  {
    if (ClosedKey, Flag(false)) in options {
      var i :| 0 <= i < |options| && options[i] == (ClosedKey, Flag(false));
      assert options[i].0 == ClosedKey;
      var r := Lookup(options, ClosedKey);
      UniqueKeysDetermineValue(options, ClosedKey, r.value, Flag(false));
    }
  }

  /** The options minus the `closed` entry, values as text, in the order supplied. */
  function AttributeEntries(options: seq<(string, Value)>): seq<(string, string)>
  {
    if |options| == 0 then []
    else (if options[0].0 == ClosedKey then [] else [Converted(options[0])]) + AttributeEntries(options[1..])
  }

  lemma AttributeEntriesCons(o: (string, Value), rest: seq<(string, Value)>)
    ensures AttributeEntries([o] + rest)
            == (if o.0 == ClosedKey then [] else [Converted(o)]) + AttributeEntries(rest)
  {
    assert ([o] + rest)[1..] == rest;
  }

  /** `closed` is never among the attributes. */
  lemma {:induction false} AttributeEntriesOmitClosed(options: seq<(string, Value)>)
    ensures forall j :: 0 <= j < |AttributeEntries(options)| ==> AttributeEntries(options)[j].0 != ClosedKey
    decreases |options|
  {
    if |options| > 0 {
      AttributeEntriesOmitClosed(options[1..]);
    }
  }

  /** Every attribute comes from an option. */
  lemma {:induction false} AttributeEntriesComeFromOptions(options: seq<(string, Value)>)
    ensures forall x :: x in AttributeEntries(options) ==> exists o :: o in options && Converted(o) == x
    decreases |options|
  {
    if |options| > 0 {
      AttributeEntriesComeFromOptions(options[1..]);
      forall x | x in AttributeEntries(options) ensures exists o :: o in options && Converted(o) == x {
        if x in AttributeEntries(options[1..]) {
          var o :| o in options[1..] && Converted(o) == x;
          assert o in options;
        } else {
          assert options[0] in options;
        }
      }
    }
  }

  /** Every option other than `closed` becomes an attribute. */
  lemma {:induction false} AttributeEntriesCoverOptions(options: seq<(string, Value)>)
    ensures forall o :: o in options && o.0 != ClosedKey ==> Converted(o) in AttributeEntries(options)
    decreases |options|
  {
    if |options| > 0 {
      AttributeEntriesCoverOptions(options[1..]);
      forall o | o in options && o.0 != ClosedKey ensures Converted(o) in AttributeEntries(options) {
        if o != options[0] {
          var i :| 0 <= i < |options| && options[i] == o;
          assert options[1..][i - 1] == o;
        }
      }
    }
  }

  /** Distinct option keys give distinct attribute keys. */
  lemma {:induction false} AttributeEntriesKeepKeysUnique(options: seq<(string, Value)>)
    requires UniqueKeys(options)
    ensures UniqueKeys(AttributeEntries(options))
    decreases |options|
  {
    if |options| > 0 {
      UniqueKeysTail(options);
      AttributeEntriesKeepKeysUnique(options[1..]);
      var rest := AttributeEntries(options[1..]);
      if options[0].0 != ClosedKey {
        AttributeEntriesComeFromOptions(options[1..]);
        forall j | 0 <= j < |rest| ensures rest[j].0 != options[0].0 {
          assert rest[j] in rest;
          var o :| o in options[1..] && Converted(o) == rest[j];
          var k :| 0 <= k < |options[1..]| && options[1..][k] == o;
        }
      }
    }
  }

  /** The attributes the options render as, in ascending key order. */
  function SortedAttributes(options: seq<(string, Value)>): seq<(string, string)>
  {
    SortByKey(AttributeEntries(options))
  }

  /** The attributes as ` key="value"`, in the order given. */
  function AttributeText(attr: (string, string)): string
  {
    " " + attr.0 + "=\"" + attr.1 + "\""
  }

  function AttributeString(attrs: seq<(string, string)>): string
  {
    if |attrs| == 0 then "" else AttributeText(attrs[0]) + AttributeString(attrs[1..])
  }

  /** `<name` followed by the attributes, in the order given. */
  function Opening(name: string, attrs: seq<(string, string)>): string
  {
    "<" + name + AttributeString(attrs)
  }

  /** How the opening tag ends: ` />` when self-closing, `>` otherwise. */
  function Ending(closed: bool): string
  {
    if closed then " />" else ">"
  }

  /** A tag ready to render: its name, its attributes and whether it self-closes. */
  datatype Tag = Tag(name: string, attributes: seq<(string, string)>, closed: bool)

  /** Tag.new(name, options): `closed` is taken out of the options and decides the form. */
  function NewTag(name: string, options: seq<(string, Value)>): Tag
    requires UniqueKeys(options)
  {
    Tag(name, AttributeEntries(options), ClosedOption(options))
  }

  /** Tag#to_s: the name, the attributes sorted by key, then the ending. */
  function Render(t: Tag): string
    requires UniqueKeys(t.attributes)
  {
    Opening(t.name, SortByKey(t.attributes)) + Ending(t.closed)
  }

  /** Tag.new(name, options).to_s */
  function RenderOptions(name: string, options: seq<(string, Value)>): string
    requires UniqueKeys(options)
  {
    AttributeEntriesKeepKeysUnique(options);
    Render(NewTag(name, options))
  }

  /** Tag.new keeps the name, drops `closed` from the attributes and reads the form from it. */
  lemma NewTagTakesOutClosed(name: string, options: seq<(string, Value)>)
    requires UniqueKeys(options)
    ensures var t := NewTag(name, options);
            && t.name == name
            && UniqueKeys(t.attributes)
            && (forall j :: 0 <= j < |t.attributes| ==> t.attributes[j].0 != ClosedKey)
            && (forall o :: o in options && o.0 != ClosedKey ==> Converted(o) in t.attributes)
            && (forall x :: x in t.attributes ==> exists o :: o in options && Converted(o) == x)
            && (!t.closed <==> (ClosedKey, Flag(false)) in options)
  {
    AttributeEntriesKeepKeysUnique(options);
    AttributeEntriesOmitClosed(options);
    AttributeEntriesCoverOptions(options);
    AttributeEntriesComeFromOptions(options);
    ClosedOptionIsFalseOnlyForFalse(options);
  }

  /** A tag renders as `<name`, its attributes in ascending key order, then its ending. */
  lemma RenderSortsAttributes(t: Tag)
    requires UniqueKeys(t.attributes)
    ensures exists sorted :: && SortedByKey(sorted) && multiset(sorted) == multiset(t.attributes)
                             && Render(t) == Opening(t.name, sorted) + Ending(t.closed)
  {
    SortByKeySortsAndPermutes(t.attributes);
  }

  lemma RenderOptionsUnfold(name: string, options: seq<(string, Value)>)
    requires UniqueKeys(options)
    ensures RenderOptions(name, options) == Opening(name, SortedAttributes(options)) + Ending(ClosedOption(options))
  {
  }

  /** Entries whose options render as the attributes `attrs`: the converted non-`closed` options. */
  ghost predicate RendersOptions(attrs: seq<(string, string)>, options: seq<(string, Value)>)
  {
    forall x :: x in attrs <==> (x.0 != ClosedKey && exists o :: o in options && Converted(o) == x)
  }

  /**
   * Tag.new(name, options).to_s is `<name`, then every option except
   * `closed` as ` key="value"` in ascending key order, then ` />`, or `>`
   * when the options carry closed => false.
   */
  lemma RenderOptionsSortsAttributes(name: string, options: seq<(string, Value)>)
    requires UniqueKeys(options)
    ensures exists attrs :: && SortedByKey(attrs) && RendersOptions(attrs, options)
                            && RenderOptions(name, options)
                               == Opening(name, attrs) + Ending(!((ClosedKey, Flag(false)) in options))
  {
    var attrs := AttributeEntries(options);
    AttributeEntriesKeepKeysUnique(options);
    AttributeEntriesOmitClosed(options);
    AttributeEntriesCoverOptions(options);
    AttributeEntriesComeFromOptions(options);
    ClosedOptionIsFalseOnlyForFalse(options);
    var sorted := SortByKey(attrs);
    SortByKeySortsAndPermutes(attrs);
    forall x: (string, string) ensures x in sorted <==> (x.0 != ClosedKey && exists o :: o in options && Converted(o) == x) {
      assert x in sorted <==> x in multiset(attrs);
      if x in attrs {
        var j :| 0 <= j < |attrs| && attrs[j] == x;
      }
    }
    RenderOptionsUnfold(name, options);
  }

  /** With distinct keys, looking a key up depends only on which entries are present. */
  lemma LookupIgnoresOrder(o1: seq<(string, Value)>, o2: seq<(string, Value)>, key: string)
    requires UniqueKeys(o1) && UniqueKeys(o2)
    requires forall x :: x in o1 <==> x in o2
    ensures Lookup(o1, key) == Lookup(o2, key)
  {
    var r1, r2 := Lookup(o1, key), Lookup(o2, key);
    if r1.Some? {
      assert (key, r1.value) in o2;
      var i :| 0 <= i < |o2| && o2[i] == (key, r1.value);
      UniqueKeysDetermineValue(o2, key, r1.value, r2.value);
    }
  }

  /** Tag rendering does not depend on the order the options were supplied in. */
  lemma RenderIgnoresOptionOrder(name: string, o1: seq<(string, Value)>, o2: seq<(string, Value)>)
    requires UniqueKeys(o1) && UniqueKeys(o2)
    requires forall x :: x in o1 <==> x in o2
    ensures RenderOptions(name, o1) == RenderOptions(name, o2)
  {
    LookupIgnoresOrder(o1, o2, ClosedKey);
    var a1, a2 := AttributeEntries(o1), AttributeEntries(o2);
    AttributeEntriesKeepKeysUnique(o1);
    AttributeEntriesKeepKeysUnique(o2);
    AttributeEntriesCoverOptions(o1);
    AttributeEntriesCoverOptions(o2);
    AttributeEntriesComeFromOptions(o1);
    AttributeEntriesComeFromOptions(o2);
    AttributeEntriesOmitClosed(o1);
    AttributeEntriesOmitClosed(o2);
    forall x ensures x in a1 <==> x in a2 {
      if x in a1 {
        var o :| o in o1 && Converted(o) == x;
        var j :| 0 <= j < |a1| && a1[j] == x;
      }
      if x in a2 {
        var o :| o in o2 && Converted(o) == x;
        var j :| 0 <= j < |a2| && a2[j] == x;
      }
    }
    SortIgnoresInsertionOrder(a1, a2);
    RenderOptionsUnfold(name, o1);
    RenderOptionsUnfold(name, o2);
  }

  lemma {:induction false} AttributeEntriesAppend(a: seq<(string, Value)>, b: seq<(string, Value)>)
    ensures AttributeEntries(a + b) == AttributeEntries(a) + AttributeEntries(b)
    decreases |a|
  {
    if |a| > 0 {
      assert (a + b)[1..] == a[1..] + b;
      AttributeEntriesAppend(a[1..], b);
    } else {
      assert a + b == b;
    }
  }

  lemma {:induction false} LookupPastMissingKey(a: seq<(string, Value)>, b: seq<(string, Value)>, key: string)
    requires forall i :: 0 <= i < |a| ==> a[i].0 != key
    ensures Lookup(a + b, key) == Lookup(b, key)
    decreases |a|
  {
    if |a| > 0 {
      assert (a + b)[1..] == a[1..] + b;
      LookupPastMissingKey(a[1..], b, key);
    } else {
      assert a + b == b;
    }
  }

  /**
   * Adding closed => false to options that lack `closed` turns the trailing
   * ` />` into `>` and changes nothing else.
   */
  lemma ClosedFalseDropsSlash(name: string, options: seq<(string, Value)>)
    requires UniqueKeys(options)
    requires forall i :: 0 <= i < |options| ==> options[i].0 != ClosedKey
    ensures UniqueKeys(options + [(ClosedKey, Flag(false))])
    ensures var closedForm := RenderOptions(name, options);
            var openForm := RenderOptions(name, options + [(ClosedKey, Flag(false))]);
            |closedForm| >= 3 && closedForm[|closedForm| - 3..] == " />"
            && openForm == closedForm[..|closedForm| - 3] + ">"
  {
    var flag := [(ClosedKey, Flag(false))];
    var options' := options + flag;
    assert UniqueKeys(options') by {
      forall i, j | 0 <= i < j < |options'| ensures options'[i].0 != options'[j].0 {
        assert options'[i] == options[i];
        if j < |options| {
          assert options'[j] == options[j];
        }
      }
    }
    AttributeEntriesAppend(options, flag);
    assert AttributeEntries(flag) == [];
    assert AttributeEntries(options') == AttributeEntries(options);
    LookupPastMissingKey(options, flag, ClosedKey);
    assert !ClosedOption(options') && ClosedOption(options);
    var head := Opening(name, SortedAttributes(options));
    RenderOptionsUnfold(name, options);
    RenderOptionsUnfold(name, options');
    assert (head + " />")[..|head|] == head;
  }

  lemma {:induction false} AttributeStringAppend(a: seq<(string, string)>, b: seq<(string, string)>)
    ensures AttributeString(a + b) == AttributeString(a) + AttributeString(b)
    decreases |a|
  {
    if |a| == 0 {
      assert a + b == b;
    } else {
      assert (a + b)[1..] == a[1..] + b;
      AttributeStringAppend(a[1..], b);
    }
  }

  lemma AttributeStringSingle(x: (string, string))
    ensures AttributeString([x]) == AttributeText(x)
  {
  }

  /** Any key-sorted arrangement of a tag's attributes is the order they are rendered in. */
  lemma SortedAttributesAre(options: seq<(string, Value)>, sorted: seq<(string, string)>)
    requires UniqueKeys(options) && SortedByKey(sorted)
    requires multiset(sorted) == multiset(AttributeEntries(options))
    ensures SortedAttributes(options) == sorted
  {
    AttributeEntriesKeepKeysUnique(options);
    SortIsTheSortedArrangement(AttributeEntries(options), sorted);
  }
}
